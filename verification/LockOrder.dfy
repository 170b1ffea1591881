/** The locks of the cross-domain component: no threads can come to wait for one another in a circle. */
module LockOrder {

  /**
   Each context has a table of items, a sentinel manager, resources and jobs; two locks are shared by all contexts.
   */
  datatype Lock =
    | Items(context: nat)
    | Manager(context: nat)
    | Resources(context: nat)
    | Jobs(context: nat)
    | Gralloc
    | Sockets

  /** What a thread may wait for while it holds a lock, other than a lock. */
  datatype Outside =
    | WatcherLeaves(id: nat)      // the join of a sentinel's watcher thread
    | SentinelReadable(id: nat)   // the event of a watcher
    | ItemReadable(id: nat)       // a pipe or an event that the worker reads
    | ItemWritable(id: nat)       // a pipe or an event that the guest writes

  datatype Op = Acquire(lock: Lock) | Release(lock: Lock) | Await(outside: Outside)

  /** The stretches of code that take locks. */
  datatype Call =
    | AddItem | AddJob | WaitForJob | WriteToRing | Register
    | SentinelSignal(id: nat) | SentinelRetire | ItemRead(id: nat)
    | ReadEventNew | SentinelNew | SentinelWake | SentinelDestroy(id: nat)
    | ItemWrite(id: nat) | ItemImport | SocketAssign | CreateBlob | ChooseSocket | GetImageRequirements | UseResources

  function Around(lock: Lock, inner: seq<Op>): seq<Op> {
    [Acquire(lock)] + inner + [Release(lock)]
  }

  /** What a call does to the locks, when it goes through; a call that fails releases what it holds. */
  function Ops(call: Call, c: nat): seq<Op> {
    match call
    case AddItem => Around(Items(c), [])
    case AddJob => Around(Jobs(c), [])
    case WaitForJob => Around(Jobs(c), [])
    case WriteToRing => Around(Resources(c), [])
    case Register => Around(Items(c), [])
    case SentinelSignal(id) => Around(Manager(c), [Await(SentinelReadable(id))] + Around(Resources(c), []))
    case SentinelRetire => Around(Manager(c), Around(Jobs(c), []))
    case ItemRead(id) => Around(Items(c), Around(Resources(c), [Await(ItemReadable(id))]))
    case ReadEventNew => Around(Items(c), Around(Jobs(c), []))
    case SentinelNew => Around(Manager(c), Around(Jobs(c), []))
    case SentinelWake => Around(Manager(c), [])
    case SentinelDestroy(id) => Around(Manager(c), [Await(WatcherLeaves(id))])
    case ItemWrite(id) => Around(Items(c), [Await(ItemWritable(id))])
    case ItemImport => Around(Items(c), [])
    case SocketAssign => Around(Items(c), Around(Sockets, []))
    case CreateBlob => Around(Items(c), Around(Gralloc, []))
    case ChooseSocket => Around(Sockets, [])
    case GetImageRequirements => Around(Gralloc, []) + Around(Items(c), []) + Around(Resources(c), [])
    case UseResources => Around(Resources(c), [])
  }

  /** Tables and managers are taken before everything else, and never together. */
  function Rank(lock: Lock): nat {
    if lock.Items? || lock.Manager? then 0 else 1
  }

  predicate Above(lock: Lock, held: set<Lock>) {
    forall h :: h in held ==> Rank(h) < Rank(lock)
  }

  /** Each lock is above those held when it is taken, and all are released in the end. */
  predicate Ordered(ops: seq<Op>, held: set<Lock>)
    decreases |ops|
  {
    if ops == [] then held == {}
    else match ops[0]
      case Acquire(l) => l !in held && Above(l, held) && Ordered(ops[1..], held + {l})
      case Release(l) => l in held && Ordered(ops[1..], held - {l})
      case Await(_) => Ordered(ops[1..], held)
  }

  lemma AroundNothing(lock: Lock, held: set<Lock>, rest: seq<Op>)
    requires lock !in held && Above(lock, held) && Ordered(rest, held)
    ensures Ordered(Around(lock, []) + rest, held)
  {
    var ops := Around(lock, []) + rest;
    assert ops[1..] == [Release(lock)] + rest && ops[1..][1..] == rest;
    assert (held + {lock}) - {lock} == held;
  }

  /** A wait for something outside, between a lock and its release. */
  lemma AroundWait(lock: Lock, wait: Outside, held: set<Lock>, rest: seq<Op>)
    requires lock !in held && Above(lock, held) && Ordered(rest, held)
    ensures Ordered(Around(lock, [Await(wait)]) + rest, held)
  {
    var ops := Around(lock, [Await(wait)]) + rest;
    assert ops[1..] == [Await(wait)] + ([Release(lock)] + rest) && ops[1..][1..] == [Release(lock)] + rest;
    assert ops[1..][1..][1..] == rest;
    assert (held + {lock}) - {lock} == held;
  }

  lemma AroundInner(outer: Lock, inner: seq<Op>)
    requires Ordered(inner + [Release(outer)], {outer})
    ensures Ordered(Around(outer, inner), {})
  {
    var ops := Around(outer, inner);
    assert ops[1..] == inner + [Release(outer)];
    assert {} + {outer} == {outer};
  }

  lemma LastRelease(lock: Lock)
    ensures Ordered([Release(lock)], {lock})
  {
    assert [Release(lock)][1..] == [] && {lock} - {lock} == {};
  }

  lemma AroundOne(outer: Lock, inner: Lock)
    requires Rank(outer) < Rank(inner)
    ensures Ordered(Around(outer, Around(inner, [])), {})
  {
    LastRelease(outer);
    AroundNothing(inner, {outer}, [Release(outer)]);
    AroundInner(outer, Around(inner, []));
  }

  lemma AroundAlone(lock: Lock)
    ensures Ordered(Around(lock, []), {})
  {
    AroundNothing(lock, {}, []);
    assert Around(lock, []) + [] == Around(lock, []);
  }

  lemma AroundWaitAlone(lock: Lock, wait: Outside)
    ensures Ordered(Around(lock, [Await(wait)]), {})
  {
    AroundWait(lock, wait, {}, []);
    assert Around(lock, [Await(wait)]) + [] == Around(lock, [Await(wait)]);
  }

  /** A wait for a watcher's event, and then the ring. */
  lemma SignalOrdered(c: nat, id: nat)
    ensures Ordered(Ops(SentinelSignal(id), c), {})
  {
    var inner := [Await(SentinelReadable(id))] + Around(Resources(c), []);
    LastRelease(Manager(c));
    AroundNothing(Resources(c), {Manager(c)}, [Release(Manager(c))]);
    assert (inner + [Release(Manager(c))])[1..] == Around(Resources(c), []) + [Release(Manager(c))];
    AroundInner(Manager(c), inner);
  }

  /** A read from an item, into the ring. */
  lemma ReadOrdered(c: nat, id: nat)
    ensures Ordered(Ops(ItemRead(id), c), {})
  {
    LastRelease(Items(c));
    AroundWait(Resources(c), ItemReadable(id), {Items(c)}, [Release(Items(c))]);
    AroundInner(Items(c), Around(Resources(c), [Await(ItemReadable(id))]));
  }

  /** Every call takes its locks in order. */
  lemma CallsOrdered(call: Call, c: nat)
    ensures Ordered(Ops(call, c), {})
  {
    hide Ordered;
    match call
    case SentinelSignal(id) => SignalOrdered(c, id);
    case SentinelRetire => AroundOne(Manager(c), Jobs(c));
    case ItemRead(id) => ReadOrdered(c, id);
    case ReadEventNew => AroundOne(Items(c), Jobs(c));
    case SentinelNew => AroundOne(Manager(c), Jobs(c));
    case SentinelDestroy(id) => AroundWaitAlone(Manager(c), WatcherLeaves(id));
    case ItemWrite(id) => AroundWaitAlone(Items(c), ItemWritable(id));
    case SocketAssign => AroundOne(Items(c), Sockets);
    case CreateBlob => AroundOne(Items(c), Gralloc);
    case GetImageRequirements =>
      AroundAlone(Resources(c));
      AroundNothing(Items(c), {}, Around(Resources(c), []));
      AroundNothing(Gralloc, {}, Around(Items(c), []) + Around(Resources(c), []));
      assert Ops(call, c) == Around(Gralloc, []) + (Around(Items(c), []) + Around(Resources(c), []));
    case _ => AroundAlone(Ops(call, c)[0].lock);
  }

  // ---------------------------------------------------------------------------
  // Any number of threads
  // ---------------------------------------------------------------------------

  datatype Thread = Thread(ops: seq<Op>, held: set<Lock>)

  /** The threads, and what has happened outside. */
  datatype System = System(threads: map<nat, Thread>, happened: set<Outside>)

  datatype Step =
    | Begin(thread: nat, call: Call, context: nat)
    | Go(thread: nat)
    | Abort(thread: nat)
    | Change(outside: Outside, on: bool)

  predicate Taken(s: System, lock: Lock) {
    exists t :: t in s.threads && lock in s.threads[t].held
  }

  /** What a thread wants to do next is possible now. */
  predicate Possible(s: System, op: Op) {
    match op
    case Acquire(lock) => !Taken(s, lock)
    case Release(_) => true
    case Await(outside) => outside in s.happened
  }

  predicate Enabled(s: System, a: Step) {
    match a
    case Begin(t, _, _) => t in s.threads && s.threads[t].ops == []
    case Go(t) => t in s.threads && s.threads[t].ops != [] && Possible(s, s.threads[t].ops[0])
    case Abort(t) => t in s.threads && s.threads[t].ops != []
    case Change(_, _) => true
  }

  /** What is left to do for a call that fails: to release what it holds. */
  function Unwind(ops: seq<Op>, held: set<Lock>): seq<Op>
    decreases |ops|
  {
    if ops == [] then []
    else if ops[0].Release? && ops[0].lock in held then [ops[0]] + Unwind(ops[1..], held - {ops[0].lock})
    else Unwind(ops[1..], held)
  }

  /** The locks that a thread holds after one operation. */
  function HeldAfter(op: Op, held: set<Lock>): set<Lock> {
    match op
    case Acquire(lock) => held + {lock}
    case Release(lock) => held - {lock}
    case Await(_) => held
  }

  function Apply(s: System, a: Step): System
    requires Enabled(s, a)
  {
    match a
    case Begin(t, call, context) => s.(threads := s.threads[t := s.threads[t].(ops := Ops(call, context))])
    case Go(t) =>
      var thread := s.threads[t];
      s.(threads := s.threads[t := Thread(thread.ops[1..], HeldAfter(thread.ops[0], thread.held))])
    case Abort(t) => s.(threads := s.threads[t := s.threads[t].(ops := Unwind(s.threads[t].ops, s.threads[t].held))])
    case Change(outside, on) => s.(happened := if on then s.happened + {outside} else s.happened - {outside})
  }

  predicate Runs(s: System, acts: seq<Step>)
    decreases |acts|
  {
    acts != [] ==> Enabled(s, acts[0]) && Runs(Apply(s, acts[0]), acts[1..])
  }

  function Run(s: System, acts: seq<Step>): System
    requires Runs(s, acts)
    decreases |acts|
  {
    if acts == [] then s else Run(Apply(s, acts[0]), acts[1..])
  }

  /** Threads that are all outside of any call. */
  predicate Idle(s: System) {
    forall t :: t in s.threads ==> s.threads[t] == Thread([], {})
  }

  /** Every thread goes on in order, and no lock has two holders. */
  predicate Orderly(s: System) {
    && (forall t :: t in s.threads ==> Ordered(s.threads[t].ops, s.threads[t].held))
    && (forall t, u :: t in s.threads && u in s.threads && t != u ==> s.threads[t].held !! s.threads[u].held)
  }

  /**
   Releasing in the order of what is left releases everything that is held; `more` is what the full run would hold
   besides.
   */
  lemma {:induction false} UnwindOrdered(ops: seq<Op>, held: set<Lock>, more: set<Lock>)
    requires Ordered(ops, held + more) && held !! more
    ensures Ordered(Unwind(ops, held), held)
    decreases |ops|
  {
    if ops != [] {
      match ops[0]
      case Acquire(l) =>
        assert held + more + {l} == held + (more + {l});
        UnwindOrdered(ops[1..], held, more + {l});
      case Release(l) =>
        if l in held {
          assert held + more - {l} == (held - {l}) + more;
          UnwindOrdered(ops[1..], held - {l}, more);
          assert ([ops[0]] + Unwind(ops[1..], held - {l}))[1..] == Unwind(ops[1..], held - {l});
        } else {
          assert held + more - {l} == held + (more - {l});
          UnwindOrdered(ops[1..], held, more - {l});
        }
      case Await(_) => UnwindOrdered(ops[1..], held, more);
    }
  }

  lemma OrderlyStep(s: System, a: Step)
    requires Enabled(s, a) && Orderly(s)
    ensures Orderly(Apply(s, a))
  {
    hide Ops, Unwind, Rank;
    match a
    case Begin(t, call, context) => CallsOrdered(call, context);
    case Go(t) =>
    case Abort(t) =>
      assert s.threads[t].held + {} == s.threads[t].held;
      UnwindOrdered(s.threads[t].ops, s.threads[t].held, {});
    case Change(_, _) =>
  }

  lemma {:induction false} OrderlyRun(s: System, acts: seq<Step>)
    requires Runs(s, acts) && Orderly(s)
    ensures Orderly(Run(s, acts))
    decreases |acts|
  {
    if acts != [] {
      OrderlyStep(s, acts[0]);
      OrderlyRun(Apply(s, acts[0]), acts[1..]);
    }
  }

  /** Thread `t` can go on only when thread `u` releases a lock. */
  predicate WaitsFor(s: System, t: nat, u: nat) {
    && t in s.threads && u in s.threads && s.threads[t].ops != []
    && s.threads[t].ops[0].Acquire? && s.threads[t].ops[0].lock in s.threads[u].held
  }

  /** The rank of the lock that a thread wants next. */
  function WantedRank(s: System, t: nat): nat {
    if t in s.threads && s.threads[t].ops != [] && s.threads[t].ops[0].Acquire? then Rank(s.threads[t].ops[0].lock)
      else 0
  }

  /** Along a chain of threads that wait, each for the next, the locks they wait for go up. */
  lemma {:induction false} ChainGoesUp(s: System, chain: seq<nat>, i: nat, j: nat)
    requires Orderly(s) && i < j < |chain| - 1
    requires forall k :: 0 <= k < |chain| - 1 ==> WaitsFor(s, chain[k], chain[k + 1])
    ensures WantedRank(s, chain[i]) < WantedRank(s, chain[j])
    decreases j
  {
    assert WaitsFor(s, chain[j - 1], chain[j]) && WaitsFor(s, chain[j], chain[j + 1]);
    if i < j - 1 {
      ChainGoesUp(s, chain, i, j - 1);
    }
  }

  /**
   However many threads there are, whatever calls they make and whichever of them fail, no circle of them waits for one
   another.
   */
  lemma NoCircularWait(start: System, acts: seq<Step>, chain: seq<nat>)
    requires Idle(start) && Runs(start, acts) && |chain| > 1
    requires forall k :: 0 <= k < |chain| - 1 ==> WaitsFor(Run(start, acts), chain[k], chain[k + 1])
    ensures chain[0] != chain[|chain| - 1]
  {
    OrderlyRun(start, acts);
    var s, n := Run(start, acts), |chain| - 1;
    assert WaitsFor(s, chain[n - 1], chain[n]);
    if chain[0] == chain[n] {
      // The last thread of the chain is the first one, which holds what its predecessor waits for.
      assert WaitsFor(s, chain[0], chain[1]);
      assert WantedRank(s, chain[n - 1]) < WantedRank(s, chain[0]);
      if n > 1 {
        ChainGoesUp(s, chain, 0, n - 1);
      }
    }
  }

  /** The thread stands, perhaps with locks in hand, at a wait for something outside that has not happened. */
  predicate StandsOutside(s: System, t: nat) {
    t in s.threads && s.threads[t].ops != [] && s.threads[t].ops[0].Await? && s.threads[t].ops[0].outside !in s.happened
  }

  /**
   So locks alone never block the threads for good: while any thread is inside a call, some thread inside a call can
   take its next step, or waits for something outside, such as a watcher that has yet to leave, which is all that can
   hold the others up.
   */
  lemma SomeThreadGoesOn(start: System, acts: seq<Step>, t: nat) returns (u: nat)
    requires Idle(start) && Runs(start, acts) && t in Run(start, acts).threads && Run(start, acts).threads[t].ops != []
    ensures Enabled(Run(start, acts), Go(u)) || StandsOutside(Run(start, acts), u)
  {
    OrderlyRun(start, acts);
    u := FollowWaits(Run(start, acts), t);
  }

  lemma {:induction false} FollowWaits(s: System, t: nat) returns (u: nat)
    requires Orderly(s) && t in s.threads && s.threads[t].ops != []
    ensures Enabled(s, Go(u)) || StandsOutside(s, u)
    decreases if s.threads[t].ops[0].Acquire? then 2 - Rank(s.threads[t].ops[0].lock) else 0
  {
    u := t;
    if !Enabled(s, Go(t)) && !StandsOutside(s, t) {
      var holder :| holder in s.threads && s.threads[t].ops[0].lock in s.threads[holder].held;
      assert Ordered(s.threads[holder].ops, s.threads[holder].held);
      u := FollowWaits(s, holder);
    }
  }

  /**
   A destroy whose watcher never leaves holds up everybody who wants that manager: as long as the watcher stays, the
   destroying thread keeps the lock, whatever the others do, unless its own call fails.
   */
  lemma {:induction false} StuckDestroyKeepsManager(s: System, acts: seq<Step>, t: nat, c: nat, id: nat)
    requires Orderly(s) && Runs(s, acts) && t in s.threads
    requires s.threads[t] == Thread([Await(WatcherLeaves(id)), Release(Manager(c))], {Manager(c)})
             && WatcherLeaves(id) !in s.happened
    requires forall i :: 0 <= i < |acts| ==> acts[i] != Change(WatcherLeaves(id), true) && acts[i] != Abort(t)
    ensures var s' := Run(s, acts); t in s'.threads && s'.threads[t] == s.threads[t] && Taken(s', Manager(c))
    decreases |acts|
  {
    if acts == [] {
      assert Manager(c) in s.threads[t].held;
    } else {
      OrderlyStep(s, acts[0]);
      StuckDestroyKeepsManager(Apply(s, acts[0]), acts[1..], t, c, id);
    }
  }
}
