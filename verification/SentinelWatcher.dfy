/**
 The thread that watches a 32-bit word of guest memory, and the race of its shutdown.

 One step is one access to something shared: the word, the shutdown flag or the event that the watcher
 signals.  `wait` compares the word with a value and parks in one atomic step.
 */
module SentinelWatcher {
  import opened Machine

  /** Where the watcher stands; the comment names the call that it is about to make. */
  datatype Pc =
    | Starting    // the first signal
    | Comparing   // wait
    | Parked
    | Loading     // load
    | Checking    // read the shutdown flag
    | Signalling  // the signal of the loop
    | Leaving     // the last signal
    | Exited

  /** How far a shutdown has come. */
  datatype Closer = Open | FlagSet | Woken

  datatype Watch = Watch(
    pc: Pc, val: u32, memory: u32, closer: Closer,
    // history
    seen: u32,         // the value that went with the latest signal, at first the one that creation loaded
    signals: nat,      // how many signals have gone out
    announced: bool)   // every store so far has had its wake

  datatype Action =
    // the guest
    | Store(v: u32)
    | Wake
    // the shutdown
    | SetFlag
    | WakeAll
    // the kernel may end a wait for no reason
    | Interrupt
    // the watcher
    | Announce(ok: bool)
    | Compare
    | Load
    | Check
    | Signal(ok: bool)
    | Leave

  function Start(v: u32): Watch {
    Watch(Starting, v, v, Open, v, 0, true)
  }

  predicate Own(a: Action) {
    a.Announce? || a.Compare? || a.Load? || a.Check? || a.Signal? || a.Leave?
  }

  predicate Enabled(s: Watch, a: Action) {
    match a
    case Store(_) => true
    case Wake => true
    case SetFlag => s.closer == Open
    case WakeAll => s.closer == FlagSet
    case Interrupt => s.pc == Parked
    case Announce(_) => s.pc == Starting
    case Compare => s.pc == Comparing
    case Load => s.pc == Loading
    case Check => s.pc == Checking
    case Signal(_) => s.pc == Signalling
    case Leave => s.pc == Leaving
  }

  function Unpark(pc: Pc): Pc {
    if pc == Parked then Loading else pc
  }

  function Apply(s: Watch, a: Action): Watch
    requires Enabled(s, a)
  {
    match a
    case Store(v) => s.(memory := v, announced := false)
    case Wake => s.(pc := Unpark(s.pc), announced := true)
    case SetFlag => s.(closer := FlagSet)
    // The wake of a shutdown leaves the word alone.
    case WakeAll => s.(pc := Unpark(s.pc), closer := Woken)
    case Interrupt => s.(pc := Loading)
    case Announce(ok) => s.(pc := Comparing, signals := if ok then s.signals + 1 else s.signals)
    case Compare => s.(pc := if s.memory == s.val then Parked else Loading)
    case Load => s.(pc := Checking, val := s.memory)
    case Check => s.(pc := if s.closer == Open then Signalling else Leaving)
    case Signal(ok) => if ok then s.(pc := Comparing, seen := s.val, signals := s.signals + 1) else s.(pc := Exited)
    case Leave => s.(pc := Exited)
  }

  predicate Runs(s: Watch, acts: seq<Action>)
    decreases |acts|
  {
    acts != [] ==> Enabled(s, acts[0]) && Runs(Apply(s, acts[0]), acts[1..])
  }

  function Run(s: Watch, acts: seq<Action>): Watch
    requires Runs(s, acts)
    decreases |acts|
  {
    if acts == [] then s else Run(Apply(s, acts[0]), acts[1..])
  }

  // ---------------------------------------------------------------------------
  // No change is lost
  // ---------------------------------------------------------------------------

  /** The watcher compares with, and parks on, the value that it has signalled. */
  predicate UpToDate(s: Watch) {
    && (s.pc in {Starting, Comparing, Parked} ==> s.seen == s.val)
    && (s.pc == Parked && s.announced ==> s.memory == s.val)
  }

  lemma {:induction false} UpToDateRun(s: Watch, acts: seq<Action>)
    requires Runs(s, acts) && UpToDate(s)
    ensures UpToDate(Run(s, acts))
    decreases |acts|
  {
    if acts != [] {
      UpToDateRun(Apply(s, acts[0]), acts[1..]);
    }
  }

  /**
   Whenever the watcher is parked and the guest has followed its stores by a wake, the word still has the
   value that went with the watcher's latest signal.
   */
  lemma NothingLost(v: u32, acts: seq<Action>)
    requires Runs(Start(v), acts) && Run(Start(v), acts).pc == Parked && Run(Start(v), acts).announced
    ensures Run(Start(v), acts).seen == Run(Start(v), acts).memory
  {
    UpToDateRun(Start(v), acts);
  }

  /** Until there is a signal beyond the first `n`, the watcher stays on its feet and the word differs from `last`. */
  predicate Due(s: Watch, n: nat, last: u32) {
    && n <= s.signals
    && (s.signals == n ==>
        && s.pc != Parked
        && (s.pc in {Starting, Comparing} ==> s.val == last && s.memory != last))
  }

  lemma {:induction false} DueRun(s: Watch, acts: seq<Action>, n: nat, last: u32)
    requires Runs(s, acts) && Due(s, n, last) && Store(last) !in acts
    ensures Due(Run(s, acts), n, last)
    decreases |acts|
  {
    if acts != [] {
      DueRun(Apply(s, acts[0]), acts[1..], n, last);
    }
  }

  /** The watcher has yet to compare before it loads. */
  predicate BeforeCompare(pc: Pc) {
    pc in {Starting, Comparing}
  }

  /** Until there is a signal beyond the first `n`, the watcher is between its load and its signal, or has left. */
  predicate OwesSignal(s: Watch, n: nat) {
    n <= s.signals && (s.signals == n ==> !BeforeCompare(s.pc) && s.pc != Parked)
  }

  lemma {:induction false} OwesSignalRun(s: Watch, acts: seq<Action>, n: nat)
    requires Runs(s, acts) && OwesSignal(s, n)
    ensures OwesSignal(Run(s, acts), n)
    decreases |acts|
  {
    if acts != [] {
      OwesSignalRun(Apply(s, acts[0]), acts[1..], n);
    }
  }

  lemma {:induction false} SignalsGrow(s: Watch, acts: seq<Action>)
    requires Runs(s, acts)
    ensures s.signals <= Run(s, acts).signals
    decreases |acts|
  {
    if acts != [] {
      SignalsGrow(Apply(s, acts[0]), acts[1..]);
    }
  }

  /**
   A wake that comes while the word differs from the value last signalled is followed by a signal before the watcher can
   park.  The one exception: the watcher had yet to compare, and before any further signal the guest stored that very
   value again.
   */
  lemma WakeIsSignalled(v: u32, before: seq<Action>, after: seq<Action>)
    requires Runs(Start(v), before)
    requires Run(Start(v), before).memory != Run(Start(v), before).seen
    requires Runs(Apply(Run(Start(v), before), Wake), after)
    ensures
      var s := Run(Start(v), before);
      var s' := Run(Apply(s, Wake), after);
      s'.pc == Parked ==> s'.signals > s.signals || (BeforeCompare(s.pc) && Store(s.seen) in after)
  {
    UpToDateRun(Start(v), before);
    var s := Run(Start(v), before);
    SignalsGrow(Apply(s, Wake), after);
    if !BeforeCompare(s.pc) {
      OwesSignalRun(Apply(s, Wake), after, s.signals);
    } else if Store(s.seen) !in after {
      DueRun(Apply(s, Wake), after, s.signals, s.seen);
    }
  }

  /** After a wake in state `s` the watcher can come to park without having signalled again. */
  ghost predicate CanSwallowWake(s: Watch) {
    exists after :: Runs(Apply(s, Wake), after) && Run(Apply(s, Wake), after).pc == Parked
      && Run(Apply(s, Wake), after).signals == s.signals
  }

  /** A store of the value last signalled, and a comparison: the watcher is parked again. */
  lemma StoreBackParks(s: Watch)
    requires s.pc == Comparing && s.val == s.seen
    ensures
      var after := [Store(s.seen), Compare];
      Runs(s, after) && Run(s, after).pc == Parked && Run(s, after).signals == s.signals
  {
    var after := [Store(s.seen), Compare];
    var s' := Apply(s, Store(s.seen));
    assert after[1..] == [Compare] && [Compare][1..] == [] && Run(s', after[1..]) == Apply(s', Compare);
  }

  /**
   A wake can be swallowed, by a store of the value last signalled, exactly when it finds the watcher before its
   comparison.
   */
  lemma WakeSwallowedIff(s: Watch)
    requires UpToDate(s)
    ensures CanSwallowWake(s) <==> BeforeCompare(s.pc)
  {
    var woken := Apply(s, Wake);
    if s.pc == Comparing {
      StoreBackParks(woken);
    } else if s.pc == Starting {
      // The first signal need not go through.
      var s' := Apply(woken, Announce(false));
      StoreBackParks(s');
      var after := [Announce(false)] + [Store(s'.seen), Compare];
      assert after[1..] == [Store(s'.seen), Compare];
      assert Runs(woken, after) && Run(woken, after) == Run(s', after[1..]);
    } else if CanSwallowWake(s) {
      var after :| Runs(woken, after) && Run(woken, after).pc == Parked && Run(woken, after).signals == s.signals;
      OwesSignalRun(woken, after, s.signals);
    }
  }

  /** Every signal of the watcher goes through. */
  predicate SignalsGoThrough(acts: seq<Action>) {
    Announce(false) !in acts && Signal(false) !in acts
  }

  /** The same with signals that go through. */
  ghost predicate CanSwallowWakeReliably(s: Watch) {
    exists after ::
      && Runs(Apply(s, Wake), after) && SignalsGoThrough(after)
      && Run(Apply(s, Wake), after).pc == Parked && Run(Apply(s, Wake), after).signals == s.signals
  }

  /** Until there is a signal beyond the first `n`, the watcher neither compares nor parks. */
  predicate SignalsFirst(s: Watch, n: nat) {
    n <= s.signals && (s.signals == n ==> s.pc != Comparing && s.pc != Parked)
  }

  lemma {:induction false} SignalsFirstRun(s: Watch, acts: seq<Action>, n: nat)
    requires Runs(s, acts) && SignalsGoThrough(acts) && SignalsFirst(s, n)
    ensures SignalsFirst(Run(s, acts), n)
    decreases |acts|
  {
    if acts != [] {
      SignalsFirstRun(Apply(s, acts[0]), acts[1..], n);
    }
  }

  /** When signals go through, a wake can be swallowed exactly when it finds the watcher about to compare. */
  lemma WakeSwallowedReliablyIff(s: Watch)
    requires UpToDate(s)
    ensures CanSwallowWakeReliably(s) <==> s.pc == Comparing
  {
    var woken := Apply(s, Wake);
    if s.pc == Comparing {
      StoreBackParks(woken);
      assert SignalsGoThrough([Store(s.seen), Compare]);
    } else if CanSwallowWakeReliably(s) {
      var after :| && Runs(woken, after) && SignalsGoThrough(after)
                   && Run(woken, after).pc == Parked && Run(woken, after).signals == s.signals;
      SignalsFirstRun(woken, after, s.signals);
    }
  }

  /** Such a run from the start of the watcher: a wake on a new value, the old value stored again, and no signal. */
  lemma StoreBackSwallowsWake(v: u32, w: u32)
    requires v != w
    ensures
      var before, after := [Announce(true), Store(w)], [Store(v), Compare];
      && Runs(Start(v), before) && Run(Start(v), before).memory != Run(Start(v), before).seen
      && var s := Apply(Run(Start(v), before), Wake);
      && Runs(s, after) && Run(s, after).pc == Parked && Run(s, after).signals == Run(Start(v), before).signals
  {
    var before := [Announce(true), Store(w)];
    var s1 := Apply(Start(v), Announce(true));
    var s2 := Apply(s1, Store(w));
    assert before[1..] == [Store(w)] && [Store(w)][1..] == [] && Run(s1, before[1..]) == s2;
    StoreBackParks(Apply(s2, Wake));
  }

  // ---------------------------------------------------------------------------
  // Shutdown
  // ---------------------------------------------------------------------------

  /** The watcher compares before it reads the shutdown flag again. */
  predicate PastCheck(pc: Pc) {
    pc in {Starting, Signalling, Comparing}
  }

  function StepsLeft(pc: Pc): nat {
    match pc
    case Starting => 5
    case Signalling => 5
    case Comparing => 4
    case Parked => 4
    case Loading => 3
    case Checking => 2
    case Leaving => 1
    case Exited => 0
  }

  function OwnSteps(acts: seq<Action>): nat
    decreases |acts|
  {
    if acts == [] then 0 else (if Own(acts[0]) then 1 else 0) + OwnSteps(acts[1..])
  }

  /** The watcher is on its way out: the next comparison, if there is one, fails. */
  predicate GoesOn(s: Watch, last: u32) {
    s.closer == Woken && s.pc != Parked && (PastCheck(s.pc) ==> s.val == last && s.memory != last)
  }

  lemma {:induction false} GoesOnRun(s: Watch, acts: seq<Action>, last: u32)
    requires Runs(s, acts) && GoesOn(s, last) && (PastCheck(s.pc) ==> Store(last) !in acts)
    ensures GoesOn(Run(s, acts), last) && OwnSteps(acts) + StepsLeft(Run(s, acts).pc) <= StepsLeft(s.pc)
    decreases |acts|
  {
    if acts != [] {
      GoesOnRun(Apply(s, acts[0]), acts[1..], last);
    }
  }

  /** A step of its own that the watcher can take. */
  function NextStep(pc: Pc): Action {
    match pc
    case Starting => Announce(true)
    case Comparing => Compare
    case Loading => Load
    case Checking => Check
    case Signalling => Signal(true)
    case Leaving => Leave
    case _ => Interrupt
  }

  /**
   After the wake of a shutdown the watcher leaves within five of its own steps, from any point and whatever the guest
   does, provided that the word has changed since the watcher loaded it and is not set back; where the watcher has yet
   to read the flag nothing needs to be assumed.
   */
  lemma ShutdownExits(s: Watch, acts: seq<Action>)
    requires s.closer == Woken && s.pc != Parked && Runs(s, acts)
    requires PastCheck(s.pc) ==> s.memory != s.val && Store(s.val) !in acts
    ensures OwnSteps(acts) <= 5
    ensures Run(s, acts).pc == Exited || Enabled(Run(s, acts), NextStep(Run(s, acts).pc))
  {
    GoesOnRun(s, acts, s.val);
  }

  /**
   Whatever the guest does, a watcher that parks after the wake had yet to compare, and found the value that it had
   loaded.
   */
  lemma ParksOnOldValue(s: Watch, acts: seq<Action>)
    requires s.closer == Woken && s.pc != Parked && Runs(s, acts) && Run(s, acts).pc == Parked
    ensures PastCheck(s.pc) && (s.memory == s.val || Store(s.val) in acts)
  {
    if !PastCheck(s.pc) || (s.memory != s.val && Store(s.val) !in acts) {
      GoesOnRun(s, acts, s.val);
    }
  }

  /** Only steps of the watcher. */
  predicate Alone(acts: seq<Action>) {
    forall i :: 0 <= i < |acts| ==> Own(acts[i])
  }

  /** The watcher, left alone, can come to be parked. */
  ghost predicate CanPark(s: Watch) {
    exists acts :: Alone(acts) && Runs(s, acts) && Run(s, acts).pc == Parked
  }

  /** In a run of its own the watcher reaches its comparison with the word unchanged. */
  lemma {:induction false} AloneParks(s: Watch, acts: seq<Action>)
    requires Alone(acts) && Runs(s, acts) && s.closer == Woken && s.pc != Parked && Run(s, acts).pc == Parked
    ensures PastCheck(s.pc) && s.memory == s.val
    decreases |acts|
  {
    if acts != [] {
      var s' := Apply(s, acts[0]);
      if s'.pc != Parked {
        AloneParks(s', acts[1..]);
      }
    }
  }

  /**
   The code as it is: the wake leaves the word alone, so a watcher that is past its check can park after the shutdown,
   and it does so exactly when the word still has the value that it last loaded.
   */
  lemma ParksAfterShutdownIff(s: Watch)
    requires s.closer == Woken && s.pc != Parked
    ensures CanPark(s) <==> PastCheck(s.pc) && s.memory == s.val
  {
    if PastCheck(s.pc) && s.memory == s.val {
      if s.pc == Comparing {
        assert [Compare][1..] == [];
        assert Alone([Compare]) && Runs(s, [Compare]) && Run(s, [Compare]).pc == Parked;
      } else {
        var first := NextStep(s.pc);
        var acts := [first, Compare];
        var s' := Apply(s, first);
        assert acts[1..] == [Compare] && [Compare][1..] == [];
        assert Runs(s', [Compare]) && Run(s', [Compare]).pc == Parked;
        assert Alone(acts) && Runs(s, acts) && Run(s, acts).pc == Parked;
      }
    }
    if CanPark(s) {
      var acts :| Alone(acts) && Runs(s, acts) && Run(s, acts).pc == Parked;
      AloneParks(s, acts);
    }
  }

  /**
   Once parked after the shutdown the watcher stays so, whatever is stored, until somebody else wakes it; the join does
   not return.
   */
  lemma {:induction false} StaysParked(s: Watch, acts: seq<Action>)
    requires s.closer == Woken && s.pc == Parked && Runs(s, acts)
    requires Wake !in acts && Interrupt !in acts
    ensures Run(s, acts).pc == Parked
    decreases |acts|
  {
    if acts != [] {
      StaysParked(Apply(s, acts[0]), acts[1..]);
    }
  }

  /**
   A watcher that is destroyed right after its creation can get there: the first wait comes before the first check.
   */
  lemma DestroyAfterCreateParks(v: u32)
    ensures
      var acts := [SetFlag, WakeAll];
      Runs(Start(v), acts) && Run(Start(v), acts).closer == Woken && CanPark(Run(Start(v), acts))
  {
    var acts := [SetFlag, WakeAll];
    var s := Apply(Start(v), SetFlag);
    assert acts[1..] == [WakeAll] && [WakeAll][1..] == [] && Run(s, acts[1..]) == Apply(s, WakeAll);
    ParksAfterShutdownIff(Run(Start(v), acts));
  }
}
