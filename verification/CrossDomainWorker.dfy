/**
 The worker thread of a cross-domain context as a program.

 A method that returns None has blocked and the script ended before it could go on.  Locks are modelled as
 far as the other thread can notice them.
 */
module CrossDomainWorker {
  import opened Machine
  import opened WorkerProtocol
  import opened WorkerSafety
  import opened CrossDomainCommon

  /** Time passes, and a thread that has work to wait for uses up some of the script, while there is any. */
  predicate Passes(before: nat, after: nat, script: nat) {
    before <= after <= script && (before < script ==> before < after)
  }

  function Started(job: Job): Pc {
    match job
    case HandleFence(fence) => Holding(fence, Polling)
    case Finish => Returned
    case _ => Registering(job)
  }

  /** The worker's own steps since then. */
  twostate predicate Did(s: CrossDomainState, steps: seq<WorkerStep>)
    reads s
  {
    s.workerDid == old(s.workerDid) + steps
  }

  method WaitForJob(s: CrossDomainState) returns (job: Option<Job>)
    requires s.Valid() && s.pc == Idle
    modifies s
    ensures s.Valid() && s.ring == old(s.ring) && Passes(old(s.turn), s.turn, |s.script|)
    ensures if job.Some? then s.pc == Started(job.value) else s.pc == Idle && s.turn == |s.script|
    // The job was the first one, and only later jobs have joined the queue.
    ensures job.Some? ==> old(s.jobs) <= [job.value] + s.jobs
    ensures job == None ==> s.jobs == []
    ensures var found := AfterTurns(true, old(s.View()), s.script, old(s.turn), s.turn);
            s.View() == if found.queue == [] then found
              else found.(queue := found.queue[1..], pc := Started(found.queue[0]))
    ensures Did(s, if job.Some? then [Pop] else [])
    // It was taken as soon as it was there.
    ensures forall i :: old(s.turn) < i < s.turn ==>
            AfterTurns(true, old(s.View()), s.script, old(s.turn), i).queue == []
  {
    hide CrossDomainState.LeadsTo, AfterOthers;
    var t := s.TakeTurn(true);
    while s.jobs == [] && s.turn < |s.script|
      invariant s.Valid() && s.pc == Idle && s.ring == old(s.ring) && Passes(old(s.turn), s.turn, |s.script|)
      invariant old(s.jobs) <= s.jobs && Did(s, [])
      invariant s.View() == AfterTurns(true, old(s.View()), s.script, old(s.turn), s.turn)
      invariant forall i :: old(s.turn) < i < s.turn ==>
                AfterTurns(true, old(s.View()), s.script, old(s.turn), i).queue == []
      decreases |s.script| - s.turn
    {
      t := s.TakeTurn(true);
    }
    if s.jobs == [] {
      return None;
    }
    job := Some(s.jobs[0]);
    TakeJob(s);
  }

  method TakeJob(s: CrossDomainState)
    requires s.Valid() && s.pc == Idle && s.jobs != []
    modifies s
    ensures s.Valid() && s.turn == old(s.turn) && Did(s, [Pop]) && [old(s.jobs[0])] + s.jobs == old(s.jobs)
    ensures s.View() == old(s.View()).(queue := old(s.jobs)[1..], pc := Started(old(s.jobs)[0]))
  {
    hide CrossDomainState.LeadsTo;
    ghost var before := s.View();
    s.pc := Started(s.jobs[0]);
    s.jobs := s.jobs[1..];
    s.Record(before, Worker(Pop));
  }

  /** The worker gives up. */
  method Halt(s: CrossDomainState)
    requires s.Valid() && WorkerEnabled(s.View(), Fail)
    modifies s
    ensures s.Valid() && s.View() == old(s.View()).(pc := s.pc) && s.turn == old(s.turn)
    ensures s.descriptorId == old(s.descriptorId)
    ensures s.pc == Halted(Held(old(s.pc)), old(s.pc).Holding? && old(s.pc).phase.ClosingItem?) && Did(s, [Fail])
  {
    hide CrossDomainState.LeadsTo;
    ghost var before := s.View();
    s.pc := Halted(Held(s.pc), s.pc.Holding? && s.pc.phase.ClosingItem?);
    s.Record(before, Worker(Fail));
  }

  /**
   A registration: the descriptor of the item or sentinel goes into the wait set, if it is there and of the right type.
   */
  method Register(s: CrossDomainState, job: Job) returns (outcome: Outcome)
    requires s.Valid() && s.pc == Registering(job) && !job.HandleFence? && !job.Finish?
    modifies s
    ensures s.Valid() && s.ring == old(s.ring) && Passes(old(s.turn), s.turn, |s.script|)
    ensures outcome == Ok ==> s.pc == Idle && job.id in s.waitCtx && Registrable(s.View(), job)
    ensures outcome.Err? ==> s.pc == Halted(None, false)
    ensures outcome in {Ok, Err(InvalidItemId), Err(InvalidItemType), Err(SystemCallFailed)}
    // Each error if and only if its cause was found.
    ensures
      var t := TurnOf(s.script, old(s.turn));
      var found := AfterOthers(true, old(s.View()), t.others);
      && (outcome == Err(InvalidItemId) <==> !job.AddSentinel? && job.id !in found.items)
      && (outcome == Err(InvalidItemType) <==>
            && !job.AddSentinel? && job.id in found.items
            && found.items[job.id] != if job.AddReadPipe? then ReadPipe else EventItem)
      && (outcome == Err(SystemCallFailed) <==> Registrable(found, job) && t.fails)
      && (outcome == Ok ==>
            s.View() == found.(waitSet := found.waitSet + {job.id}, added := found.added + {job.id}, pc := Idle))
    ensures Did(s, [if outcome == Ok then WorkerStep.Register else Fail])
  {
    hide CrossDomainState.LeadsTo, AfterOthers;
    var t := s.TakeTurn(true);
    if !job.AddSentinel? {
      if job.id !in s.items {
        Halt(s);
        return Err(InvalidItemId);
      }
      if s.items[job.id] != if job.AddReadPipe? then ReadPipe else EventItem {
        Halt(s);
        return Err(InvalidItemType);
      }
    }
    if t.fails {
      Halt(s);
      return Err(SystemCallFailed);
    }
    AddToWaitSet(s, job);
    outcome := Ok;
  }

  method AddToWaitSet(s: CrossDomainState, job: Job)
    requires s.Valid() && s.pc == Registering(job) && !job.HandleFence? && !job.Finish? && Registrable(s.View(), job)
    modifies s
    ensures s.Valid() && s.turn == old(s.turn)
    ensures s.View() ==
            old(s.View()).(waitSet := old(s.waitCtx) + {job.id}, added := old(s.added) + {job.id}, pc := Idle)
    ensures Did(s, [WorkerStep.Register])
  {
    hide CrossDomainState.LeadsTo;
    ghost var before := s.View();
    s.waitCtx := s.waitCtx + {job.id};
    s.added := s.added + {job.id};
    s.pc := Idle;
    s.Record(before, Worker(WorkerStep.Register));
  }

  // ---------------------------------------------------------------------------
  // Small steps with a fence in hand
  // ---------------------------------------------------------------------------

  /** With a fence in hand the worker takes no job, so that the queue only grows. */
  twostate predicate GoesOn(s: CrossDomainState)
    reads s
  {
    s.Valid() && s.turn >= old(s.turn) && old(s.jobs) <= s.jobs
  }

  /** The fence is queued behind all the jobs that were there before. */
  predicate Requeued(before: seq<Job>, jobs: seq<Job>, fence: Fence) {
    before <= jobs && exists n :: |before| <= n < |jobs| && jobs[n] == HandleFence(fence)
  }

  /** The worker goes on to `phase` with the fence that it holds, and has not touched the ring. */
  twostate predicate Advances(s: CrossDomainState, phase: Phase)
    reads s
  {
    && GoesOn(s) && s.ring == old(s.ring)
    && old(s.pc).Holding? && s.pc == Holding(old(s.pc).fence, phase)
  }

  /** The worker has given up with its fence, and has not touched the ring. */
  twostate predicate GivesUp(s: CrossDomainState)
    reads s
  {
    && GoesOn(s) && s.ring == old(s.ring)
    && old(s.pc).Holding? && s.pc == Halted(Some(old(s.pc).fence), old(s.pc).phase.ClosingItem?)
  }

  /** A call into the system, which fails when the script says so; the others have had their share. */
  method Attempt(s: CrossDomainState) returns (outcome: Outcome, t: Turn)
    requires s.Valid() && s.pc.Holding? && !s.pc.phase.Requeuing? && !s.pc.phase.Signalling?
    modifies s
    ensures outcome == Ok ==> Advances(s, old(s.pc).phase) && Spares(true, old(s.View()), s.View())
    ensures outcome != Ok ==> outcome == Err(SystemCallFailed) && GivesUp(s)
    ensures t == TurnOf(s.script, old(s.turn)) && outcome == if t.fails then Err(SystemCallFailed) else Ok
    ensures outcome == Ok ==> s.View() == AfterOthers(true, old(s.View()), t.others)
    ensures s.turn == NextTurn(s, old(s.turn)) && s.descriptorId == Wrap32(old(s.descriptorId) + t.issued)
    ensures Did(s, if outcome == Ok then [] else [Fail])
  {
    hide CrossDomainState.LeadsTo, AfterOthers, Wrap32;
    t := s.TakeTurn(true);
    if t.fails {
      Halt(s);
      return Err(SystemCallFailed), t;
    }
    outcome := Ok;
  }

  /** The connection that turn `i` says is ready can be reported then. */
  predicate Found(s: State, script: seq<Turn>, first: nat, i: nat)
    requires i < |script|
  {
    Reportable(AfterTurns(true, s, script, first, i + 1), script[i].ready)
  }

  /** `wait`: reports a connection that is ready; None if none is before the script ends. */
  method Wait(s: CrossDomainState) returns (outcome: Option<Outcome>, id: nat)
    requires s.Valid() && s.pc.Holding? && s.pc.phase == Polling
    modifies s
    ensures outcome == None ==> Advances(s, Polling) && s.turn == |s.script|
    ensures outcome == Some(Ok) ==> Advances(s, Dispatch(id)) && Reportable(s.View(), id)
    ensures outcome.Some? && outcome != Some(Ok) ==> GivesUp(s)
    ensures Passes(old(s.turn), s.turn, |s.script|)
    // It reports the first connection that is found ready, unless a call fails before.
    ensures outcome in {None, Some(Ok), Some(Err(SystemCallFailed))}
    ensures outcome == Some(Ok) ==>
              && s.turn > old(s.turn) && !s.script[s.turn - 1].fails && id == s.script[s.turn - 1].ready
              && Found(old(s.View()), s.script, old(s.turn), s.turn - 1)
              && s.View() == AfterTurns(true, old(s.View()), s.script, old(s.turn), s.turn).(pc := s.pc)
    ensures outcome == Some(Err(SystemCallFailed)) ==> s.turn > old(s.turn) && s.script[s.turn - 1].fails
    ensures forall i :: old(s.turn) <= i < (if outcome == None then s.turn else s.turn - 1) ==>
              !s.script[i].fails && !Found(old(s.View()), s.script, old(s.turn), i)
    ensures Did(s, if outcome == None then [] else [if outcome == Some(Ok) then WorkerStep.Wait(id) else Fail])
  {
    hide CrossDomainState.LeadsTo, AfterOthers, AfterTurns, Reportable;
    AfterTurnsOn(true, s.View(), s.script, s.turn, s.turn);
    while s.turn < |s.script|
      invariant Advances(s, Polling) && s.turn <= |s.script| && Did(s, [])
                && (old(s.turn) < |s.script| && s.turn == old(s.turn) ==> s.turn < |s.script|)
      invariant s.View() == AfterTurns(true, old(s.View()), s.script, old(s.turn), s.turn)
      invariant forall i :: old(s.turn) <= i < s.turn ==>
                  !s.script[i].fails && !Found(old(s.View()), s.script, old(s.turn), i)
      decreases |s.script| - s.turn
    {
      AfterTurnsOn(true, old(s.View()), s.script, old(s.turn), s.turn);
      var t := s.TakeTurn(true);
      if t.fails {
        Halt(s);
        return Some(Err(SystemCallFailed)), 0;
      }
      if Reportable(s.View(), t.ready) {
        Report(s, t.ready);
        return Some(Ok), t.ready;
      }
    }
    return None, 0;
  }

  /** Connection `id` is what `wait` reports. */
  method Report(s: CrossDomainState, id: nat)
    requires s.Valid() && s.pc.Holding? && s.pc.phase == Polling && Reportable(s.View(), id)
    modifies s
    ensures Advances(s, Dispatch(id)) && Reportable(s.View(), id) && s.turn == old(s.turn)
    ensures s.View() == old(s.View()).(pc := s.pc) && Did(s, [WorkerStep.Wait(id)])
  {
    hide CrossDomainState.LeadsTo;
    ghost var before := s.View();
    s.pc := Holding(s.pc.fence, Dispatch(id));
    s.Record(before, Worker(WorkerStep.Wait(id)));
  }

  /** The fence handler is called for the fence in hand. */
  method SignalTheFence(s: CrossDomainState)
    requires s.Valid() && s.pc.Holding? && s.pc.phase.Signalling?
    modifies s
    ensures GoesOn(s) && s.pc == Idle
    ensures s.ring == old(s.ring) + [if old(s.pc).phase.written then Signal(old(s.pc).fence)
            else KillSignal(old(s.pc).fence)]
    ensures Did(s, [SignalFence])
  {
    hide CrossDomainState.LeadsTo, AfterOthers;
    var t := s.TakeTurn(true);
    ghost var before := s.View();
    s.ring := s.ring + [if s.pc.phase.written then Signal(s.pc.fence) else KillSignal(s.pc.fence)];
    s.pc := Idle;
    s.Record(before, Worker(SignalFence));
  }

  /** The fence in hand goes back to the end of the queue. */
  method RequeueTheFence(s: CrossDomainState)
    requires s.Valid() && s.pc.Holding? && s.pc.phase.Requeuing?
    modifies s
    ensures GoesOn(s) && s.ring == old(s.ring)
    ensures |s.jobs| > |old(s.jobs)| && s.jobs[|s.jobs| - 1] == HandleFence(old(s.pc).fence)
    ensures s.pc == if old(s.pc).phase.retired.Some? then RemovingWatcher(old(s.pc).phase.retired.value) else Idle
    ensures Did(s, [Requeue])
  {
    hide CrossDomainState.LeadsTo, AfterOthers;
    var t := s.TakeTurn(true);
    ghost var before := s.View();
    s.jobs := s.jobs + [HandleFence(s.pc.fence)];
    s.pc := if s.pc.phase.retired.Some? then RemovingWatcher(s.pc.phase.retired.value) else Idle;
    s.Record(before, Worker(Requeue));
  }

  /** The kinds of items that can arrive over the channel. */
  predicate Receivable(item: Item) {
    item in {EventItem, BlobItem, WritePipe, SocketItem}
  }

  // ---------------------------------------------------------------------------
  // The branches of handle_fence
  // ---------------------------------------------------------------------------

  /** A message from the host: its files become items, it is written to the ring, and the fence announces it. */
  method ProcessReceive(s: CrossDomainState) returns (outcome: Outcome)
    requires s.Valid() && s.pc.Holding? && s.pc.phase == Receiving
    modifies s
    ensures GoesOn(s)
    ensures outcome == Ok ==> s.pc == Idle && s.ring == old(s.ring) + [Write(Receive), Signal(old(s.pc).fence)]
    ensures outcome != Ok ==> GivesUp(s)
    // It succeeds exactly if no call fails and all files that came are of accepted kinds.
    ensures outcome in {Ok, Err(InvalidItemType), Err(SystemCallFailed)}
    ensures
      var t, first, files := TurnOf(s.script, old(s.turn)), NextTurn(s, old(s.turn)), Arrived(s.script, old(s.turn));
      && (outcome == Ok <==>
            !t.fails && Taken(s.script, first, files, |files|) && !FileTurn(s.script, first, |files|).fails)
      && (outcome == Err(InvalidItemType) <==> !t.fails && RefusesFile(s.script, first, files))
      // Then each of them has become an item, in order, under the next id, before the message was written.
      && (outcome == Ok ==>
            Did(s, [ReceiveFiles(|files|)]
                   + Filed(s.script, first, Wrap32(old(s.descriptorId) + t.issued), files, |files|)
                   + [WriteReceive, SignalFence]))
  {
    hide CrossDomainState.Valid, AfterOthers, Wrap32, TurnOf, FileTurn, Arrived, Taken, RefusesFile, Filed;
    var files;
    outcome, files := ReceiveMessage(s);
    if outcome != Ok { return; }
    outcome := TakeFiles(s, files);
    if outcome != Ok { return; }
    outcome := WriteMessage(s);
    if outcome != Ok { return; }
    SignalTheFence(s);
  }

  /** The files of a message, one after the other. */
  method TakeFiles(s: CrossDomainState, files: seq<Item>) returns (outcome: Outcome)
    requires s.Valid() && s.pc.Holding? && s.pc.phase == AddingItems(|files|)
    modifies s
    ensures outcome == Ok ==> Advances(s, AddingItems(0))
    ensures outcome != Ok ==> outcome in {Err(InvalidItemType), Err(SystemCallFailed)} && GivesUp(s)
    ensures outcome == Ok <==> Taken(s.script, old(s.turn), files, |files|)
    ensures outcome == Err(InvalidItemType) <==> RefusesFile(s.script, old(s.turn), files)
    ensures outcome == Ok ==>
              && Did(s, Filed(s.script, old(s.turn), old(s.descriptorId), files, |files|))
              && TurnOf(s.script, s.turn) == FileTurn(s.script, old(s.turn), |files|)
  {
    hide CrossDomainState.Valid, AfterOthers, Wrap32, Receivable, TurnOf, FileTurn;
    ghost var first, counter := s.turn, s.descriptorId;
    TurnBounded(s);
    for i := 0 to |files|
      invariant Advances(s, AddingItems(|files| - i)) && AtFile(s, first, i)
      invariant Taken(s.script, first, files, i) && s.descriptorId == CounterAfter(s.script, first, counter, i)
      invariant Did(s, Filed(s.script, first, counter, files, i))
    {
      AtFileTurn(s, first, i);
      outcome := TakeFile(s, files[i]);
      if outcome != Ok {
        assert outcome == Err(InvalidItemType) ==> RefusedAt(s.script, first, files, i);
        return;
      }
      FiledOn(s.script, first, counter, files, i);
    }
    AtFileTurn(s, first, |files|);
    outcome := Ok;
  }

  /** The files of the message of a turn, as many as there are places for identifiers. */
  function Arrived(script: seq<Turn>, turn: nat): (files: seq<Item>)
    ensures files <= TurnOf(script, turn).files && |files| == Min(MAX_IDENTIFIERS, |TurnOf(script, turn).files|)
  {
    var files := TurnOf(script, turn).files;
    if |files| > MAX_IDENTIFIERS then files[..MAX_IDENTIFIERS] else files
  }

  /** The turn on which file `k` is looked at, when the first one is on turn `first`. */
  function FileTurn(script: seq<Turn>, first: nat, k: nat): Turn {
    TurnOf(script, first + k)
  }

  /** Nothing stood in the way of the first `n` files. */
  predicate Taken(script: seq<Turn>, first: nat, files: seq<Item>, n: nat)
    requires n <= |files|
  {
    forall k :: 0 <= k < n ==> !FileTurn(script, first, k).fails && Receivable(files[k])
  }

  /** File `k` is the first in whose way something stood, and that was its kind. */
  predicate RefusedAt(script: seq<Turn>, first: nat, files: seq<Item>, k: nat)
    requires k < |files|
  {
    Taken(script, first, files, k) && !FileTurn(script, first, k).fails && !Receivable(files[k])
  }

  predicate RefusesFile(script: seq<Turn>, first: nat, files: seq<Item>) {
    exists k :: 0 <= k < |files| && RefusedAt(script, first, files, k)
  }

  /** The counter of descriptors after `n` files, and others' descriptors in between. */
  function CounterAfter(script: seq<Turn>, first: nat, counter: u32, n: nat): u32 {
    if n == 0 then counter
    else Wrap32(Wrap32(CounterAfter(script, first, counter, n - 1) + FileTurn(script, first, n - 1).issued) + 1)
  }

  /** With no others, the ids are consecutive. */
  lemma {:induction false} CountsOn(script: seq<Turn>, first: nat, counter: u32, n: nat)
    requires forall k :: 0 <= k < n ==> FileTurn(script, first, k).issued == 0
    ensures CounterAfter(script, first, counter, n) == Wrap32(counter + n)
  {
    if n > 0 {
      CountsOn(script, first, counter, n - 1);
      WrapOn(counter + (n - 1), 0);
      WrapOn(counter + (n - 1), 1);
      hide Wrap32;
    }
  }

  /** The first `n` files become items. */
  function Filed(script: seq<Turn>, first: nat, counter: u32, files: seq<Item>, n: nat): seq<WorkerStep>
    requires n <= |files|
  {
    seq(n, k requires 0 <= k < n => WorkerStep.AddItem(CounterAfter(script, first, counter, k + 1), files[k]))
  }

  lemma FiledOn(script: seq<Turn>, first: nat, counter: u32, files: seq<Item>, n: nat)
    requires n < |files|
    ensures Filed(script, first, counter, files, n + 1) ==
            Filed(script, first, counter, files, n) +
              [WorkerStep.AddItem(CounterAfter(script, first, counter, n + 1), files[n])]
  {
  }

  /** The program stands at the turn of file `k`, or at the end of the script before it. */
  predicate AtFile(s: CrossDomainState, first: nat, k: nat)
    reads s
  {
    s.turn == Min(first + k, |s.script|)
  }

  lemma AtFileTurn(s: CrossDomainState, first: nat, k: nat)
    requires AtFile(s, first, k)
    ensures FileTurn(s.script, first, k) == TurnOf(s.script, s.turn)
  {
  }

  /** The files that came with the message, as many as there are places for identifiers. */
  method ReceiveMessage(s: CrossDomainState) returns (outcome: Outcome, files: seq<Item>)
    requires s.Valid() && s.pc.Holding? && s.pc.phase == Receiving
    modifies s
    ensures outcome == Ok ==> |files| <= MAX_IDENTIFIERS && Advances(s, AddingItems(|files|))
    ensures outcome != Ok ==> GivesUp(s)
    ensures files == Arrived(s.script, old(s.turn))
    ensures outcome == if TurnOf(s.script, old(s.turn)).fails then Err(SystemCallFailed) else Ok
    ensures s.turn == NextTurn(s, old(s.turn))
    ensures s.descriptorId == Wrap32(old(s.descriptorId) + TurnOf(s.script, old(s.turn)).issued)
    ensures outcome == Ok ==> Did(s, [ReceiveFiles(|files|)])
  {
    hide CrossDomainState.LeadsTo, AfterOthers;
    var t;
    outcome, t := Attempt(s);
    files := if |t.files| > MAX_IDENTIFIERS then t.files[..MAX_IDENTIFIERS] else t.files;
    if outcome != Ok { return; }
    ghost var before := s.View();
    s.pc := Holding(s.pc.fence, AddingItems(|files|));
    s.Record(before, Worker(ReceiveFiles(|files|)));
  }

  method WriteMessage(s: CrossDomainState) returns (outcome: Outcome)
    requires s.Valid() && s.pc.Holding? && s.pc.phase == AddingItems(0)
    modifies s
    ensures GoesOn(s)
    ensures outcome == Ok ==>
            s.pc == Holding(old(s.pc).fence, Signalling(true)) && s.ring == old(s.ring) + [Write(Receive)]
    ensures outcome != Ok ==> GivesUp(s)
    ensures outcome == if TurnOf(s.script, old(s.turn)).fails then Err(SystemCallFailed) else Ok
    ensures outcome == Ok ==> Did(s, [WriteReceive])
  {
    hide CrossDomainState.Valid, AfterOthers;
    var t;
    outcome, t := Attempt(s);
    if outcome != Ok { return; }
    WriteReceived(s);
  }

  method WriteReceived(s: CrossDomainState)
    requires s.Valid() && s.pc.Holding? && s.pc.phase == AddingItems(0)
    modifies s
    ensures GoesOn(s) && s.turn == old(s.turn) && s.pc == Holding(old(s.pc).fence, Signalling(true))
    ensures s.ring == old(s.ring) + [Write(Receive)] && Did(s, [WriteReceive])
  {
    hide CrossDomainState.LeadsTo;
    ghost var before := s.View();
    s.ring := s.ring + [Write(Receive)];
    s.pc := Holding(s.pc.fence, Signalling(true));
    s.Record(before, Worker(WriteReceive));
  }

  /** One file of a message. */
  method TakeFile(s: CrossDomainState, item: Item) returns (outcome: Outcome)
    requires s.Valid() && s.pc.Holding? && s.pc.phase.AddingItems? && s.pc.phase.files > 0
    modifies s
    ensures outcome == Ok ==> Receivable(item) && Advances(s, AddingItems(old(s.pc).phase.files - 1))
    // The item is in the table, under the id issued last.
    ensures outcome == Ok ==> s.descriptorId in s.items && s.items[s.descriptorId] == item
    ensures outcome != Ok ==> outcome in {Err(InvalidItemType), Err(SystemCallFailed)} && GivesUp(s)
    ensures outcome == Err(SystemCallFailed) <==> TurnOf(s.script, old(s.turn)).fails
    ensures outcome == Err(InvalidItemType) <==> !TurnOf(s.script, old(s.turn)).fails && !Receivable(item)
    ensures s.turn == NextTurn(s, old(s.turn))
    ensures outcome == Ok ==>
              && s.descriptorId == Wrap32(Wrap32(old(s.descriptorId) + TurnOf(s.script, old(s.turn)).issued) + 1)
              && Did(s, [WorkerStep.AddItem(s.descriptorId, item)])
  {
    hide CrossDomainState.LeadsTo, AfterOthers;
    var t;
    outcome, t := Attempt(s);
    if outcome != Ok { return; }
    if !Receivable(item) {
      Halt(s);
      return Err(InvalidItemType);
    }
    FileItem(s, item);
  }

  method FileItem(s: CrossDomainState, item: Item)
    requires s.Valid() && s.pc.Holding? && s.pc.phase.AddingItems? && s.pc.phase.files > 0
    modifies s
    ensures Advances(s, AddingItems(old(s.pc).phase.files - 1))
    ensures item != ReadPipe ==>
            s.descriptorId == old(s.NextItemId(item)) && s.descriptorId in s.items && s.items[s.descriptorId] == item
    ensures s.turn == old(s.turn) && (item != ReadPipe ==> Did(s, [WorkerStep.AddItem(s.descriptorId, item)]))
  {
    hide CrossDomainState.LeadsTo, AfterOthers;
    ghost var before := s.View();
    var id := s.AddItem(item);
    s.pc := Holding(s.pc.fence, AddingItems(s.pc.phase.files - 1));
    s.Record(before, Worker(WorkerStep.AddItem(id, item)));
  }

  /** On some turn the resample event was found raised, and its counter could be read. */
  predicate Raised(s: CrossDomainState, before: State, first: nat, turn: nat) {
    !LastFails(s, first, turn) && AfterTurns(true, before, s.script, first, turn).resample > 0
  }

  /** A registration is waiting: the resample event is consumed and the fence goes behind it. */
  method Resample(s: CrossDomainState) returns (outcome: Option<Outcome>)
    requires s.Valid() && s.pc.Holding? && s.pc.phase == Resampling
    modifies s
    ensures GoesOn(s) && s.ring == old(s.ring)
    ensures outcome == Some(Ok) ==>
            s.pc == Idle && |s.jobs| > |old(s.jobs)| && s.jobs[|s.jobs| - 1] == HandleFence(old(s.pc).fence)
    ensures outcome.Some? && outcome != Some(Ok) ==> GivesUp(s)
    ensures outcome == None ==> Advances(s, Resampling) && s.turn == |s.script| && s.resample == 0
    ensures outcome in {None, Some(Ok), Some(Err(SystemCallFailed))}
    ensures outcome == Some(Err(SystemCallFailed)) ==> LastFails(s, old(s.turn), s.turn)
    ensures outcome == Some(Ok) ==>
              exists m :: old(s.turn) <= m <= s.turn && Raised(s, old(s.View()), old(s.turn), m)
    ensures Did(s, if outcome == None then [] else if outcome == Some(Ok) then [ConsumeResample, Requeue] else [Fail])
  {
    hide CrossDomainState.Valid, AfterOthers, AfterTurns;
    var fails := AwaitResample(s);
    if fails {
      Halt(s);
      return Some(Err(SystemCallFailed));
    }
    if s.resample == 0 {
      return None;
    }
    assert Raised(s, old(s.View()), old(s.turn), s.turn);
    ClearResample(s);
    RequeueTheFence(s);
    outcome := Some(Ok);
  }

  /** Reading the event's counter blocks while it is zero. */
  method AwaitResample(s: CrossDomainState) returns (fails: bool)
    requires s.Valid() && s.pc.Holding? && s.pc.phase == Resampling
    modifies s
    ensures Advances(s, Resampling) && Did(s, []) && fails == LastFails(s, old(s.turn), s.turn)
    ensures s.View() == AfterTurns(true, old(s.View()), s.script, old(s.turn), s.turn)
    ensures s.resample == 0 ==> s.turn == |s.script|
  {
    hide CrossDomainState.Valid, AfterOthers, AfterTurns;
    AfterTurnsOn(true, s.View(), s.script, s.turn, s.turn);
    TurnBounded(s);
    var t := s.TakeTurn(true);
    while s.resample == 0 && s.turn < |s.script|
      invariant Advances(s, Resampling) && Did(s, []) && t.fails == LastFails(s, old(s.turn), s.turn)
      invariant s.View() == AfterTurns(true, old(s.View()), s.script, old(s.turn), s.turn)
      decreases |s.script| - s.turn
    {
      AfterTurnsOn(true, old(s.View()), s.script, old(s.turn), s.turn);
      t := s.TakeTurn(true);
    }
    fails := t.fails;
    TurnBounded(s);
  }

  method ClearResample(s: CrossDomainState)
    requires s.Valid() && s.pc.Holding? && s.pc.phase == Resampling && s.resample > 0
    modifies s
    ensures Advances(s, Requeuing(None)) && s.resample == 0 && s.turn == old(s.turn) && Did(s, [ConsumeResample])
  {
    hide CrossDomainState.LeadsTo, AfterOthers;
    ghost var before := s.View();
    s.resample := 0;
    s.pc := Holding(s.pc.fence, Requeuing(None));
    s.Record(before, Worker(ConsumeResample));
  }

  /**
   A sentinel's event: of a sentinel that is shut down the worker lets go, and the fence goes back to the queue;
   else its signal is written to the ring and the fence announces it.
   */
  method WatchSentinel(s: CrossDomainState) returns (outcome: Option<Outcome>)
    requires s.Valid() && s.pc.Holding? && s.pc.phase.Deciding?
    modifies s
    ensures GoesOn(s)
    ensures outcome == Some(Ok) ==>
              && s.pc == Idle
              && if s.ring == old(s.ring) then Requeued(old(s.jobs), s.jobs, old(s.pc).fence)
                 && old(s.pc).phase.id !in s.watchers
                 else s.ring == old(s.ring) + [Write(SentinelSignal(old(s.pc).phase.id)), Signal(old(s.pc).fence)]
    ensures outcome.Some? && outcome != Some(Ok) ==> GivesUp(s)
    ensures outcome == None ==> Advances(s, old(s.pc).phase) && s.turn == |s.script|
    ensures outcome == Some(Ok) ==>
              Did(s, if s.ring == old(s.ring) then [Decide, Requeue, RemoveWatcher]
                else [Decide, WriteSentinel, SignalFence])
    ensures outcome in {None, Some(Ok), Some(Err(SystemCallFailed))}
    ensures outcome == Some(Err(SystemCallFailed)) ==> exists m :: LastFails(s, old(s.turn), m)
  {
    hide CrossDomainState.Valid, AfterOthers;
    var fails;
    outcome, fails := LockManager(s);
    if outcome != Some(Ok) { return; }
    var id := s.pc.phase.id;
    var isShutdown := id in s.watchers ==> s.watchers[id];
    if fails && id in s.watchers {
      assert LastFails(s, old(s.turn), s.turn);
      Halt(s);
      return Some(Err(SystemCallFailed));
    }
    DecideOn(s);
    if isShutdown {
      Retire(s);
      outcome := Some(Ok);
    } else {
      var sent := SendSentinel(s);
      assert sent != Ok ==> LastFails(s, old(s.turn), s.turn);
      outcome := Some(sent);
    }
  }

  /** The fence goes back to the queue, and the watcher out of the map. */
  method Retire(s: CrossDomainState)
    requires s.Valid() && s.pc.Holding? && s.pc.phase.Requeuing? && s.pc.phase.retired.Some?
    modifies s
    ensures GoesOn(s) && s.ring == old(s.ring) && s.pc == Idle && old(s.pc).phase.retired.value !in s.watchers
    ensures Requeued(old(s.jobs), s.jobs, old(s.pc).fence) && Did(s, [Requeue, RemoveWatcher])
  {
    hide CrossDomainState.Valid, AfterOthers;
    RequeueTheFence(s);
    ghost var last := |s.jobs| - 1;
    DropWatcher(s);
    assert s.jobs[last] == HandleFence(old(s.pc).fence);
  }

  /** Waits while the guest thread holds the manager's lock. */
  method LockManager(s: CrossDomainState) returns (outcome: Option<Outcome>, fails: bool)
    requires s.Valid() && s.pc.Holding? && s.pc.phase.Deciding?
    modifies s
    ensures Advances(s, old(s.pc).phase)
    ensures if s.guest.CreatingWatcher? then outcome == None && s.turn == |s.script| else outcome == Some(Ok)
    ensures s.View() == AfterTurns(true, old(s.View()), s.script, old(s.turn), s.turn) && Did(s, [])
    ensures fails == LastFails(s, old(s.turn), s.turn)
  {
    hide AfterOthers;
    var t := s.TakeTurn(true);
    while s.guest.CreatingWatcher? && s.turn < |s.script|
      invariant Advances(s, old(s.pc).phase) && Did(s, []) && t.fails == LastFails(s, old(s.turn), s.turn)
      invariant s.View() == AfterTurns(true, old(s.View()), s.script, old(s.turn), s.turn)
      decreases |s.script| - s.turn
    {
      t := s.TakeTurn(true);
    }
    outcome := if s.guest.CreatingWatcher? then None else Some(Ok);
    fails := t.fails;
  }

  /** Reads the shutdown flag; the event of a watcher that is shut down leaves the wait set. */
  method DecideOn(s: CrossDomainState)
    requires s.Valid() && s.pc.Holding? && s.pc.phase.Deciding? && !s.guest.CreatingWatcher?
    modifies s
    ensures s.turn == old(s.turn) && s.watchers == old(s.watchers) && Did(s, [Decide])
    ensures var id := old(s.pc).phase.id;
            && Advances(s, if id in s.watchers && !s.watchers[id] then WritingSentinel(id) else Requeuing(Some(id)))
            && s.waitCtx == if id in s.watchers && s.watchers[id] then old(s.waitCtx) - {id} else old(s.waitCtx)
  {
    hide CrossDomainState.LeadsTo, AfterOthers;
    var id := s.pc.phase.id;
    ghost var before := s.View();
    if id in s.watchers && !s.watchers[id] {
      s.pc := Holding(s.pc.fence, WritingSentinel(id));
    } else {
      if id in s.watchers {
        s.waitCtx := s.waitCtx - {id};
        s.dropped := s.dropped + {id};
      }
      s.pc := Holding(s.pc.fence, Requeuing(Some(id)));
    }
    s.Record(before, Worker(Decide));
  }

  method DropWatcher(s: CrossDomainState)
    requires s.Valid() && s.pc.RemovingWatcher?
    modifies s
    ensures GoesOn(s) && s.ring == old(s.ring)
    ensures s.pc == Idle && old(s.pc).id !in s.watchers && Did(s, [RemoveWatcher])
  {
    hide CrossDomainState.LeadsTo, AfterOthers;
    var t := s.TakeTurn(true);
    ghost var before := s.View();
    s.watchers := s.watchers - {s.pc.id};
    s.pc := Idle;
    s.Record(before, Worker(RemoveWatcher));
  }

  method SendSentinel(s: CrossDomainState) returns (outcome: Outcome)
    requires s.Valid() && s.pc.Holding? && s.pc.phase.WritingSentinel?
    modifies s
    ensures GoesOn(s)
    ensures outcome == Ok ==>
              s.pc == Idle && s.ring == old(s.ring) +
                [Write(SentinelSignal(old(s.pc).phase.id)), Signal(old(s.pc).fence)]
    ensures outcome != Ok ==> GivesUp(s)
    ensures outcome == if TurnOf(s.script, old(s.turn)).fails then Err(SystemCallFailed) else Ok
    ensures if outcome == Ok then Did(s, [WriteSentinel, SignalFence]) else s.turn == NextTurn(s, old(s.turn))
  {
    hide CrossDomainState.LeadsTo, AfterOthers;
    var t;
    outcome, t := Attempt(s);
    if outcome != Ok { return; }
    WriteSignal(s);
    SignalTheFence(s);
  }

  method WriteSignal(s: CrossDomainState)
    requires s.Valid() && s.pc.Holding? && s.pc.phase.WritingSentinel?
    modifies s
    ensures GoesOn(s) && s.turn == old(s.turn) && s.pc == Holding(old(s.pc).fence, Signalling(true))
    ensures s.ring == old(s.ring) + [Write(SentinelSignal(old(s.pc).phase.id))] && Did(s, [WriteSentinel])
  {
    hide CrossDomainState.LeadsTo, AfterOthers;
    ghost var before := s.View();
    s.ring := s.ring + [Write(SentinelSignal(s.pc.phase.id))];
    s.pc := Holding(s.pc.fence, Signalling(true));
    s.Record(before, Worker(WriteSentinel));
  }

  /**
   An item has something to read, or its other end is gone: a read is written to the ring and the fence announces it.
   */
  method ReadItem(s: CrossDomainState) returns (outcome: Outcome)
    requires s.Valid() && s.pc.Holding? && s.pc.phase.LookingUp?
    modifies s
    ensures GoesOn(s)
    ensures outcome == Ok ==>
            s.pc == Idle && s.ring == old(s.ring) + [Write(Read(old(s.pc).phase.id)), Signal(old(s.pc).fence)]
    ensures outcome != Ok ==>
              && s.pc.Halted? && s.pc.lost == Some(old(s.pc).fence)
              && s.ring == if s.pc.written then old(s.ring) + [Write(Read(old(s.pc).phase.id))] else old(s.ring)
    // Each error if and only if its cause was found; the item goes if and only if its other end is gone.
    ensures outcome in {Ok, Err(InvalidItemId), Err(InvalidItemType), Err(SystemCallFailed)}
    ensures
      var id, first := old(s.pc).phase.id, old(s.turn);
      var items := AfterOthers(true, old(s.View()), TurnOf(s.script, first).others).items;
      var write, close := TurnOf(s.script, NextTurn(s, first)), TurnOf(s.script, NextTurn(s, NextTurn(s, first)));
      && (outcome == Err(InvalidItemId) <==> id !in items)
      && (outcome == Err(InvalidItemType) <==> id in items && items[id] !in {ReadPipe, EventItem})
      && (outcome == Ok <==>
            && id in items && items[id] in {ReadPipe, EventItem} && !write.fails
            && (write.hungUp && items[id] == ReadPipe ==> !close.fails))
      && (outcome == Ok ==> Did(s, [LookUp, WriteItem(write.hungUp)] + (if write.hungUp then [CloseItem] else []) +
         [SignalFence]))
  {
    hide CrossDomainState.Valid, GuestEnabled, ApplyGuest, ApplyWorker, AfterOthers, TurnOf;
    var id := s.pc.phase.id;
    var t := s.TakeTurn(true);
    if id !in s.items {
      Halt(s);
      return Err(InvalidItemId);
    }
    if s.items[id] !in {ReadPipe, EventItem} {
      Halt(s);
      return Err(InvalidItemType);
    }
    LookUpItem(s);
    outcome := ReadFoundItem(s);
  }

  /** The read of an item that was found, its removal once its other end is gone, and the fence. */
  method ReadFoundItem(s: CrossDomainState) returns (outcome: Outcome)
    requires s.Valid() && s.pc.Holding? && s.pc.phase.WritingItem?
    modifies s
    ensures GoesOn(s)
    ensures outcome == Ok ==>
            s.pc == Idle && s.ring == old(s.ring) + [Write(Read(old(s.pc).phase.id)), Signal(old(s.pc).fence)]
    ensures outcome != Ok ==>
              && outcome == Err(SystemCallFailed) && s.pc.Halted? && s.pc.lost == Some(old(s.pc).fence)
              && s.ring == if s.pc.written then old(s.ring) + [Write(Read(old(s.pc).phase.id))] else old(s.ring)
    ensures
      var write, close := TurnOf(s.script, old(s.turn)), TurnOf(s.script, NextTurn(s, old(s.turn)));
      && (outcome == Ok <==> !write.fails && (write.hungUp && old(s.pc).phase.item == ReadPipe ==> !close.fails))
      && (outcome == Ok ==> Did(s, [WriteItem(write.hungUp)] + (if write.hungUp then [CloseItem] else []) +
         [SignalFence]))
  {
    hide CrossDomainState.Valid, AfterOthers, TurnOf;
    var hungUp;
    outcome, hungUp := WriteRead(s);
    if outcome != Ok { return; }
    if hungUp {
      outcome := CloseTheItem(s);
      if outcome != Ok { return; }
    }
    SignalTheFence(s);
  }

  method LookUpItem(s: CrossDomainState)
    requires s.Valid() && s.pc.Holding? && s.pc.phase.LookingUp?
    requires s.pc.phase.id in s.items && s.items[s.pc.phase.id] in {ReadPipe, EventItem}
    modifies s
    ensures Advances(s, WritingItem(old(s.pc).phase.id, old(s.items)[old(s.pc).phase.id]))
    ensures s.turn == old(s.turn) && Did(s, [LookUp])
  {
    hide CrossDomainState.LeadsTo, AfterOthers;
    ghost var before := s.View();
    s.pc := Holding(s.pc.fence, WritingItem(s.pc.phase.id, s.items[s.pc.phase.id]));
    s.Record(before, Worker(LookUp));
  }

  method WriteRead(s: CrossDomainState) returns (outcome: Outcome, hungUp: bool)
    requires s.Valid() && s.pc.Holding? && s.pc.phase.WritingItem?
    modifies s
    ensures GoesOn(s)
    ensures outcome == Ok ==>
              && s.ring == old(s.ring) + [Write(Read(old(s.pc).phase.id))]
              && s.pc == Holding(old(s.pc).fence, if hungUp then ClosingItem(old(s.pc).phase.id, old(s.pc).phase.item)
                 else Signalling(true))
    ensures outcome != Ok ==> GivesUp(s)
    ensures outcome == if TurnOf(s.script, old(s.turn)).fails then Err(SystemCallFailed) else Ok
    ensures hungUp == TurnOf(s.script, old(s.turn)).hungUp && s.turn == NextTurn(s, old(s.turn))
    ensures outcome == Ok ==> Did(s, [WriteItem(hungUp)])
  {
    hide CrossDomainState.LeadsTo, AfterOthers;
    var t;
    outcome, t := Attempt(s);
    hungUp := t.hungUp;
    if outcome != Ok { return; }
    ghost var before := s.View();
    var id, item := s.pc.phase.id, s.pc.phase.item;
    s.ring := s.ring + [Write(Read(id))];
    s.pc := Holding(s.pc.fence, if hungUp then ClosingItem(id, item) else Signalling(true));
    s.Record(before, Worker(WriteItem(hungUp)));
  }

  /** The item leaves the table; a pipe leaves the wait set first. */
  method CloseTheItem(s: CrossDomainState) returns (outcome: Outcome)
    requires s.Valid() && s.pc.Holding? && s.pc.phase.ClosingItem?
    modifies s
    ensures outcome == Ok ==> Advances(s, Signalling(true)) && old(s.pc).phase.id !in s.items
    ensures outcome == Ok && old(s.pc).phase.item == ReadPipe ==> old(s.pc).phase.id !in s.waitCtx
    ensures outcome != Ok ==> GivesUp(s)
    ensures outcome ==
            if old(s.pc).phase.item == ReadPipe && TurnOf(s.script, old(s.turn)).fails then Err(SystemCallFailed)
              else Ok
    ensures outcome == Ok ==> Did(s, [CloseItem])
  {
    hide CrossDomainState.LeadsTo, AfterOthers;
    var t := s.TakeTurn(true);
    if s.pc.phase.item == ReadPipe && t.fails {
      Halt(s);
      return Err(SystemCallFailed);
    }
    RemoveTheItem(s);
    outcome := Ok;
  }

  method RemoveTheItem(s: CrossDomainState)
    requires s.Valid() && s.pc.Holding? && s.pc.phase.ClosingItem?
    modifies s
    ensures Advances(s, Signalling(true)) && old(s.pc).phase.id !in s.items
    ensures old(s.pc).phase.item == ReadPipe ==> old(s.pc).phase.id !in s.waitCtx
    ensures Did(s, [CloseItem])
  {
    hide CrossDomainState.LeadsTo, AfterOthers;
    ghost var before := s.View();
    var id := s.pc.phase.id;
    var descriptors := if s.pc.phase.item == ReadPipe then {id} else {};
    Closing(before);
    hide Enabled, Apply;
    s.waitCtx := s.waitCtx - descriptors;
    s.dropped := s.dropped + descriptors;
    s.items := s.items - {id};
    s.pc := Holding(s.pc.fence, Signalling(true));
    s.Record(before, Worker(CloseItem));
  }

  lemma Closing(s: State)
    requires s.pc.Holding? && s.pc.phase.ClosingItem?
    ensures Enabled(s, Worker(CloseItem))
    ensures
      var ids := if s.pc.phase.item == ReadPipe then {s.pc.phase.id} else {};
      Apply(s, Worker(CloseItem)) ==
      s.(waitSet := s.waitSet - ids, dropped := s.dropped + ids, items := s.items - {s.pc.phase.id},
         pc := Holding(s.pc.fence, Signalling(true)))
  {
  }

  // ---------------------------------------------------------------------------
  // handle_fence and the thread
  // ---------------------------------------------------------------------------

  /** The fence was signalled for what the connection `id` had to say, or went back to the queue. */
  twostate predicate Answered(s: CrossDomainState, fence: Fence, id: nat)
    reads s
  {
    && GoesOn(s) && s.pc == Idle
    && if id == CHANNEL_ID then s.ring == old(s.ring) + [Write(Receive), Signal(fence)]
       else if id == RESAMPLE_ID then s.ring == old(s.ring) && |s.jobs| > |old(s.jobs)|
         && s.jobs[|s.jobs| - 1] == HandleFence(fence)
       else if id == KILL_ID then s.ring == old(s.ring) + [KillSignal(fence)]
       else if IsSentinelId(id) then
         if s.ring == old(s.ring) then Requeued(old(s.jobs), s.jobs, fence) && id !in s.watchers
         else s.ring == old(s.ring) + [Write(SentinelSignal(id)), Signal(fence)]
       else s.ring == old(s.ring) + [Write(Read(id)), Signal(fence)]
  }

  /** The worker has given up; if it had written for the fence, it had not signalled. */
  twostate predicate Abandoned(s: CrossDomainState, fence: Fence)
    reads s
  {
    && GoesOn(s) && s.pc.Halted? && s.pc.lost == Some(fence)
    && if s.pc.written then |s.ring| == |old(s.ring)| + 1 && old(s.ring) <= s.ring && s.ring[|s.ring| - 1].Write?
       else s.ring == old(s.ring)
  }

  lemma TurnBounded(s: CrossDomainState)
    requires s.Valid()
    ensures s.turn <= |s.script|
  {
  }

  /** One fence: one event is handled, and what it leads to is written at most once. */
  method HandleTheFence(s: CrossDomainState) returns (outcome: Option<Outcome>, id: nat)
    requires s.Valid() && s.pc.Holding? && s.pc.phase == Polling
    modifies s
    ensures outcome == Some(Ok) ==> Answered(s, old(s.pc).fence, id)
    ensures outcome.Some? && outcome != Some(Ok) ==> Abandoned(s, old(s.pc).fence)
    ensures outcome == None ==>
            s.Valid() && s.pc.Holding? && s.pc.fence == old(s.pc).fence && s.ring == old(s.ring) && s.turn == |s.script|
    ensures Passes(old(s.turn), s.turn, |s.script|)
    ensures outcome == Some(Ok) ==>
              exists rest :: Branch(id, rest) && s.workerDid == old(s.workerDid) + [WorkerStep.Wait(id)] + rest
  {
    hide CrossDomainState.Valid, AfterOthers, Found, Branch;
    outcome, id := Wait(s);
    if outcome != Some(Ok) { return; }
    ghost var steps;
    outcome, steps := HandleTheEvent(s, id);
    TurnBounded(s);
  }

  /** The branch for the connection that `wait` has reported. */
  method HandleTheEvent(s: CrossDomainState, id: nat) returns (outcome: Option<Outcome>, ghost steps: seq<WorkerStep>)
    requires s.Valid() && s.pc.Holding? && s.pc.phase == Dispatch(id)
    modifies s
    ensures outcome == Some(Ok) ==> Answered(s, old(s.pc).fence, id) && Branch(id, steps) && Did(s, steps)
    ensures outcome.Some? && outcome != Some(Ok) ==> Abandoned(s, old(s.pc).fence)
    ensures outcome == None ==>
            s.Valid() && s.pc.Holding? && s.pc.fence == old(s.pc).fence && s.ring == old(s.ring) && s.turn == |s.script|
    ensures s.Valid() && s.turn >= old(s.turn)
  {
    hide CrossDomainState.Valid, AfterOthers, TurnOf, Taken, RefusesFile, Arrived, FileTurn, Wrap32;
    if id == CHANNEL_ID {
      var r := ProcessReceive(s);
      outcome := Some(r);
      ghost var t, files := TurnOf(s.script, old(s.turn)), Arrived(s.script, old(s.turn));
      ghost var filed := Filed(s.script, NextTurn(s, old(s.turn)), Wrap32(old(s.descriptorId) + t.issued), files,
                               |files|);
      steps := [ReceiveFiles(|files|)] + filed + [WriteReceive, SignalFence];
      ReceiveBranch(filed);
      assert Branch(id, steps);
    } else if id == RESAMPLE_ID {
      outcome := Resample(s);
      steps := [ConsumeResample, Requeue];
    } else if id == KILL_ID {
      SignalTheFence(s);
      outcome, steps := Some(Ok), [SignalFence];
    } else if IsSentinelId(id) {
      outcome := WatchSentinel(s);
      steps := if s.ring == old(s.ring) then [Decide, Requeue, RemoveWatcher] else [Decide, WriteSentinel, SignalFence];
    } else {
      var r := ReadItem(s);
      outcome := Some(r);
      ghost var hungUp := TurnOf(s.script, NextTurn(s, old(s.turn))).hungUp;
      steps := [LookUp, WriteItem(hungUp)] + (if hungUp then [CloseItem] else []) + [SignalFence];
      ReadBranch(id, hungUp);
    }
  }

  lemma ReadBranch(id: nat, hungUp: bool)
    requires id !in {CHANNEL_ID, RESAMPLE_ID, KILL_ID} && !IsSentinelId(id)
    ensures Branch(id, [LookUp, WriteItem(hungUp)] + (if hungUp then [CloseItem] else []) + [SignalFence])
  {
    var steps := [LookUp, WriteItem(hungUp)] + (if hungUp then [CloseItem] else []) + [SignalFence];
    assert steps == if hungUp then [LookUp, WriteItem(true), CloseItem, SignalFence]
           else [LookUp, WriteItem(false), SignalFence];
  }

  lemma ReceiveBranch(filed: seq<WorkerStep>)
    requires forall k :: 0 <= k < |filed| ==> filed[k].AddItem?
    ensures Branch(CHANNEL_ID, [ReceiveFiles(|filed|)] + filed + [WriteReceive, SignalFence])
  {
    var steps := [ReceiveFiles(|filed|)] + filed + [WriteReceive, SignalFence];
    assert steps[|steps| - 2..] == [WriteReceive, SignalFence];
  }

  /** The steps that the worker takes for the fence once `wait` has reported connection `id`. */
  predicate Branch(id: nat, steps: seq<WorkerStep>) {
    if id == CHANNEL_ID then
      && |steps| >= 3 && steps[0] == ReceiveFiles(|steps| - 3) && steps[|steps| - 2..] == [WriteReceive, SignalFence]
      && forall k :: 1 <= k < |steps| - 2 ==> steps[k].AddItem?
    else if id == RESAMPLE_ID then
      steps == [ConsumeResample, Requeue]
    else if id == KILL_ID then
      steps == [SignalFence]
    else if IsSentinelId(id) then
      steps in {[Decide, Requeue, RemoveWatcher], [Decide, WriteSentinel, SignalFence]}
    else
      steps in {[LookUp, WriteItem(false), SignalFence], [LookUp, WriteItem(true), CloseItem, SignalFence]}
  }

  /**
   The thread: it takes jobs in order until it meets Finish.  Some(Ok): it returned; Some(Err(_)): it gave up; None: the
   script is used up and the thread is still there.
   */
  method RunWorker(s: CrossDomainState) returns (outcome: Option<Outcome>)
    requires s.Valid() && s.pc == Idle
    modifies s
    ensures s.Valid()
    ensures outcome == Some(Ok) ==> s.pc == Returned
    ensures outcome.Some? && outcome != Some(Ok) ==> s.pc.Halted?
    ensures outcome == None ==> s.turn == |s.script| && !s.pc.Halted? && s.pc != Returned
    ensures forall fence :: Conserved(s.View(), fence)
    ensures TakesTurns(s.View())
  {
    outcome := RunJobs(s);
    forall fence
      ensures Conserved(s.View(), fence)
    {
      ConservedRun(INIT, s.acts, fence);
    }
    TakesTurnsRun(INIT, s.acts);
  }

  method RunJobs(s: CrossDomainState) returns (outcome: Option<Outcome>)
    requires s.Valid() && s.pc == Idle
    modifies s
    ensures s.Valid()
    ensures outcome == Some(Ok) ==> s.pc == Returned
    ensures outcome.Some? && outcome != Some(Ok) ==> s.pc.Halted?
    ensures outcome == None ==> s.turn == |s.script| && !s.pc.Halted? && s.pc != Returned
  {
    hide CrossDomainState.Valid;
    while s.turn < |s.script|
      invariant s.Valid() && s.pc == Idle
      decreases |s.script| - s.turn
    {
      var job := WaitForJob(s);
      if job == None {
        return None;
      }
      match job.value
      case Finish =>
        return Some(Ok);
      case HandleFence(_) =>
        var id;
        outcome, id := HandleTheFence(s);
        if outcome != Some(Ok) { return; }
      case _ =>
        var r := Register(s, job.value);
        if r != Ok { return Some(r); }
    }
    TurnBounded(s);
    outcome := None;
  }
}
