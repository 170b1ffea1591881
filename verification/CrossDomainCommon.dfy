/**
 The state that the guest thread and the worker thread of a cross-domain context share.

 The programs of the two threads are in `CrossDomainContext` and `CrossDomainWorker`.  Each is run against a
 script, which says what the other thread and the kernel do before each of its steps; the script is arbitrary, so a
 property of every script is one of every interleaving.  `Valid` says that all that has happened, on both sides, is a
 run of `WorkerProtocol`.
 */
module CrossDomainCommon {
  import opened Machine
  import opened WorkerProtocol
  import opened WorkerOrdering

  /**
   What the others do before the thread's next step, how many descriptor ids they are issued, and how the next call into
   the system turns out.
   */
  datatype Turn = Turn(others: seq<Action>, issued: nat, ready: nat, files: seq<Item>, hungUp: bool, fails: bool)

  /** Nothing happens, and no call fails. */
  const QUIET: Turn := Turn([], 0, 0, [], false, false)

  /** When the script is used up, all is quiet. */
  function TurnOf(script: seq<Turn>, turn: nat): Turn {
    if turn < |script| then script[turn] else QUIET
  }

  predicate Moves(mine: bool, s: State, a: Action) {
    (if mine then !a.Worker? else !a.Guest?) && Enabled(s, a)
  }

  /** The state after what the others do, as far as it is possible. */
  function AfterOthers(mine: bool, s: State, others: seq<Action>): State
    decreases |others|
  {
    if others == [] then s
    else AfterOthers(mine, if Moves(mine, s, others[0]) then Apply(s, others[0]) else s, others[1..])
  }

  /** The state after the others' share of the turns from `i` up to `j`. */
  function AfterTurns(mine: bool, s: State, script: seq<Turn>, i: nat, j: nat): State
    decreases j
  {
    if j <= i then s else AfterOthers(mine, AfterTurns(mine, s, script, i, j - 1), TurnOf(script, j - 1).others)
  }

  lemma AfterTurnsOn(mine: bool, s: State, script: seq<Turn>, i: nat, j: nat)
    requires i <= j
    ensures AfterTurns(mine, s, script, i, i) == s
    ensures AfterTurns(mine, s, script, i, j + 1) ==
            AfterOthers(mine, AfterTurns(mine, s, script, i, j), TurnOf(script, j).others)
  {
  }

  /** Whatever list of possible steps the others take, a turn can say so. */
  lemma {:induction false} OthersDo(mine: bool, s: State, others: seq<Action>)
    requires Runs(s, others) && forall i :: 0 <= i < |others| ==> if mine then !others[i].Worker? else !others[i].Guest?
    ensures AfterOthers(mine, s, others) == Run(s, others)
    decreases |others|
  {
    if others != [] {
      OthersDo(mine, Apply(s, others[0]), others[1..]);
    }
  }

  /** The steps of a history that are the worker's. */
  ghost function WorkerStepsOf(acts: seq<Action>): seq<WorkerStep> {
    if acts == [] then []
    else
      var last := acts[|acts| - 1];
      WorkerStepsOf(acts[..|acts| - 1]) + (if last.Worker? then [last.w] else [])
  }

  /** The steps of a history that are the guest thread's. */
  ghost function GuestStepsOf(acts: seq<Action>): seq<GuestStep> {
    if acts == [] then []
    else
      var last := acts[|acts| - 1];
      GuestStepsOf(acts[..|acts| - 1]) + (if last.Guest? then [last.g] else [])
  }

  lemma StepsOfAppend(acts: seq<Action>, a: Action)
    ensures WorkerStepsOf(acts + [a]) == WorkerStepsOf(acts) + (if a.Worker? then [a.w] else [])
    ensures GuestStepsOf(acts + [a]) == GuestStepsOf(acts) + (if a.Guest? then [a.g] else [])
  {
    assert (acts + [a])[..|acts|] == acts;
  }

  /** What the others do leaves alone what only the worker changes, or what only the guest thread changes. */
  predicate Spares(mine: bool, s: State, s': State) {
    if mine then
      s'.pc == s.pc && s'.trace == s.trace && s'.added == s.added && s.queue <= s'.queue && s'.resample >= s.resample
    else
      s'.guest == s.guest && s'.submitted == s.submitted && s'.announced == s.announced && s'.killed == s.killed
  }

  lemma SparesItself(mine: bool, s: State)
    ensures Spares(mine, s, s)
  {
  }

  lemma SparesOn(mine: bool, s: State, s': State, s'': State)
    requires Spares(mine, s, s') && Spares(mine, s', s'')
    ensures Spares(mine, s, s'')
  {
  }

  lemma GuestSpares(s: State, g: GuestStep)
    requires GuestEnabled(s, g)
    ensures Spares(true, s, ApplyGuest(s, g))
  {
  }

  lemma WorkerSpares(s: State, w: WorkerStep)
    requires WorkerEnabled(s, w)
    ensures Spares(false, s, ApplyWorker(s, w))
  {
  }

  lemma OthersSpare(mine: bool, s: State, a: Action)
    requires Enabled(s, a) && (if mine then !a.Worker? else !a.Guest?)
    ensures Spares(mine, s, Apply(s, a))
  {
    hide ApplyGuest, ApplyWorker, GuestEnabled, WorkerEnabled;
    match a
    case Guest(g) => GuestSpares(s, g);
    case Worker(w) => WorkerSpares(s, w);
    case Unregister(_) =>
  }

  // ---------------------------------------------------------------------------
  // The ids of items
  // ---------------------------------------------------------------------------

  /** The counter of descriptors after `n` of them, and the id of the latest. */
  function DescriptorId(n: nat): u32 {
    Wrap32(1 + n)
  }

  function ReadPipeCounter(n: nat): u32 {
    Wrap32(PIPE_READ_START + n)
  }

  function ReadPipeId(n: nat): u32 {
    Max(ReadPipeCounter(n), PIPE_READ_START)
  }

  /** No two descriptors have one id exactly until the counter has gone all the way round. */
  lemma DescriptorIdsDistinctIff(n: nat)
    ensures (forall i, j :: 1 <= i < j <= n ==> DescriptorId(i) != DescriptorId(j)) <==> n <= 0x1_0000_0000
  {
    if n > 0x1_0000_0000 {
      assert DescriptorId(1) == DescriptorId(0x1_0000_0001);
    }
  }

  /**
   Those of read pipes stay at the start of their range once the counter has gone round: half as many are distinct.
   */
  lemma ReadPipeIdsDistinctIff(n: nat)
    ensures (forall i, j :: 1 <= i < j <= n ==> ReadPipeId(i) != ReadPipeId(j)) <==> n <= 0x8000_0000
  {
    if n > 0x8000_0000 {
      assert ReadPipeId(0x8000_0000) == ReadPipeId(0x8000_0001);
    }
  }

  /** Which descriptors go by an id that is neither the worker's own nor a sentinel's nor a read pipe's. */
  lemma DescriptorIdApartIff(n: nat)
    requires n < 0x1_0000_0000
    ensures KILL_ID < DescriptorId(n) < SENTINEL_START <==> 3 <= n < SENTINEL_START - 1
  {
  }

  /** After `n` items of a kind the next one gets the id that comes after as many. */
  lemma NextIdIs(s: CrossDomainState, n: nat)
    ensures s.descriptorId == DescriptorId(n) ==> forall item :: item != ReadPipe ==>
            s.NextItemId(item) == DescriptorId(n + 1)
    ensures s.readPipeId == ReadPipeCounter(n) ==>
              s.NextItemId(ReadPipe) == ReadPipeId(n + 1) && Wrap32(s.readPipeId + 1) == ReadPipeCounter(n + 1)
  {
    WrapOn(1 + n, 1);
    WrapOn(PIPE_READ_START + n, 1);
    hide Wrap32;
  }

  /** Wrapping early changes nothing. */
  lemma WrapOn(x: nat, y: nat)
    ensures Wrap32(Wrap32(x) + y) == Wrap32(x + y)
  {
  }

  class CrossDomainState {
    const script: seq<Turn>
    var turn: nat               // how much of the script is used up
    var jobs: seq<Job>
    var waitCtx: set<nat>
    var resample: nat           // the counter of the resample event
    var killed: bool
    var items: map<nat, Item>
    var watchers: map<nat, bool>
    var ring: seq<Obs>          // ring writes and fence signals, in order
    var pc: Pc
    var guest: GuestPc
    var descriptorId: u32
    var readPipeId: u32
    // history
    var submitted: seq<Fence>
    var announced: set<nat>
    var added: set<nat>
    var dropped: set<nat>
    ghost var acts: seq<Action>
    ghost var workerDid: seq<WorkerStep>
    ghost var guestDid: seq<GuestStep>

    function View(): State
      reads this
    {
      State(jobs, pc, guest, waitCtx, resample, killed, items, watchers, submitted, ring, announced, added, dropped)
    }

    ghost predicate Valid()
      reads this
    {
      LeadsTo(View()) && turn <= |script|
    }

    /** The history is a run that leads to `s`; the two threads' own steps in it are told apart. */
    ghost predicate LeadsTo(s: State)
      reads this`acts, this`workerDid, this`guestDid
    {
      && Runs(INIT, acts) && Run(INIT, acts) == s
      && workerDid == WorkerStepsOf(acts) && guestDid == GuestStepsOf(acts)
    }

    constructor (script: seq<Turn>)
      ensures Valid() && View() == INIT && turn == 0 && this.script == script && descriptorId == 1
              && readPipeId == PIPE_READ_START
    {
      this.script, turn := script, 0;
      jobs, waitCtx, resample, killed, items, watchers := [], {CHANNEL_ID, RESAMPLE_ID, KILL_ID}, 0, false, map[],
        map[];
      ring, pc, guest, submitted, announced, added, dropped := [], Idle, Ready, [], {}, {}, {};
      acts, workerDid, guestDid := [], [], [];
      descriptorId, readPipeId := 1, PIPE_READ_START;
    }

    /** Adds to the history the step that leads from `s` to where the fields stand now. */
    ghost method Record(s: State, a: Action)
      requires LeadsTo(s) && turn <= |script| && Enabled(s, a) && View() == Apply(s, a)
      modifies this`acts, this`workerDid, this`guestDid
      ensures Valid() && acts == old(acts) + [a]
      ensures workerDid == if a.Worker? then old(workerDid) + [a.w] else old(workerDid)
      ensures guestDid == if a.Guest? then old(guestDid) + [a.g] else old(guestDid)
    {
      RunAppend(INIT, acts, a);
      StepsOfAppend(acts, a);
      acts := acts + [a];
      workerDid := if a.Worker? then workerDid + [a.w] else workerDid;
      guestDid := if a.Guest? then guestDid + [a.g] else guestDid;
    }

    /** Sets every field to what it is in `s`. */
    method Become(s: State)
      modifies this`jobs, this`pc, this`guest, this`waitCtx, this`resample, this`killed, this`items, this`watchers,
               this`submitted, this`ring, this`announced, this`added, this`dropped
      ensures View() == s
    {
      BecomeHistory(s);
      jobs := s.queue;
      pc := s.pc;
      guest := s.guest;
      waitCtx := s.waitSet;
      resample := s.resample;
      killed := s.killed;
      items := s.items;
      watchers := s.watchers;
    }

    method BecomeHistory(s: State)
      modifies this`submitted, this`ring, this`announced, this`added, this`dropped
      ensures submitted == s.submitted && ring == s.trace && announced == s.announced && added == s.added
              && dropped == s.dropped
    {
      submitted := s.submitted;
      ring := s.trace;
      announced := s.announced;
      added := s.added;
      dropped := s.dropped;
    }

    /** The others' share of a turn, as far as it is possible; when the script is used up they are quiet. */
    method TakeTurn(mine: bool) returns (t: Turn)
      requires Valid()
      modifies this
      ensures Valid() && Spares(mine, old(View()), View())
      ensures turn == if old(turn) < |script| then old(turn) + 1 else old(turn)
      ensures t == TurnOf(script, old(turn)) && View() == AfterOthers(mine, old(View()), t.others)
      ensures old(turn) == |script| ==> View() == old(View())
      ensures if mine then workerDid == old(workerDid) else guestDid == old(guestDid)
      ensures descriptorId == Wrap32(old(descriptorId) + t.issued)
      // Only the guest thread makes read pipes.
      ensures !mine ==> readPipeId == old(readPipeId)
    {
      hide Valid, Apply, Enabled, Spares, Wrap32, Moves;
      SparesItself(mine, View());
      t := BeginTurn();
      ghost var after := AfterOthers(mine, View(), t.others);
      for i := 0 to |t.others|
        invariant Valid() && turn == (if old(turn) < |script| then old(turn) + 1 else old(turn))
        invariant Spares(mine, old(View()), View()) && AfterOthers(mine, View(), t.others[i..]) == after
        invariant if mine then workerDid == old(workerDid) else guestDid == old(guestDid)
        invariant readPipeId == old(readPipeId) && descriptorId == Wrap32(old(descriptorId) + t.issued)
      {
        ghost var s := View();
        assert t.others[i..][0] == t.others[i] && t.others[i..][1..] == t.others[i + 1..];
        LetMove(mine, t.others[i]);
        SparesOn(mine, old(View()), s, View());
      }
    }

    method BeginTurn() returns (t: Turn)
      requires Valid()
      modifies this`turn, this`descriptorId
      ensures Valid() && View() == old(View()) && t == TurnOf(script, old(turn))
      ensures turn == (if old(turn) < |script| then old(turn) + 1 else old(turn))
      ensures descriptorId == Wrap32(old(descriptorId) + t.issued)
    {
      hide LeadsTo;
      t := TurnOf(script, turn);
      if turn < |script| {
        turn := turn + 1;
      }
      descriptorId := Wrap32(descriptorId + t.issued);
    }

    /** One step of another thread, if it is possible. */
    method LetMove(mine: bool, a: Action)
      requires Valid()
      modifies this
      ensures Valid() && Spares(mine, old(View()), View()) && turn == old(turn)
      ensures View() == if Moves(mine, old(View()), a) then Apply(old(View()), a) else old(View())
      ensures if mine then workerDid == old(workerDid) else guestDid == old(guestDid)
      ensures descriptorId == old(descriptorId) && readPipeId == old(readPipeId)
    {
      hide LeadsTo, Apply, Enabled;
      var s := View();
      if Moves(mine, s, a) {
        OthersSpare(mine, s, a);
        Become(Apply(s, a));
        Record(s, a);
      }
    }

    /** The id that the next item of a kind is filed under: read pipes have their own counter. */
    function NextItemId(item: Item): u32
      reads this
    {
      if item == ReadPipe then Max(Wrap32(readPipeId + 1), PIPE_READ_START) else Wrap32(descriptorId + 1)
    }

    /** Files an item under the next id. */
    method AddItem(item: Item) returns (id: u32)
      modifies this`items, this`descriptorId, this`readPipeId
      ensures id == old(NextItemId(item)) && items == old(items)[id := item]
      ensures if item == ReadPipe then readPipeId == Wrap32(old(readPipeId) + 1) && descriptorId == old(descriptorId)
              else descriptorId == id && readPipeId == old(readPipeId)
    {
      if item == ReadPipe {
        readPipeId := Wrap32(readPipeId + 1);
        id := Max(readPipeId, PIPE_READ_START);
      } else {
        descriptorId := Wrap32(descriptorId + 1);
        id := descriptorId;
      }
      items := items[id := item];
    }
  }

  /** Where the script goes on; at its end it stays. */
  function NextTurn(s: CrossDomainState, turn: nat): nat {
    if turn < |s.script| then turn + 1 else turn
  }

  /** The latest of the turns from `first` up to `turn` is one on which a call fails. */
  predicate LastFails(s: CrossDomainState, first: nat, turn: nat) {
    first < turn <= |s.script| && s.script[turn - 1].fails
  }
}
