/** How the worker lets go: of a sentinel that the guest destroys, and of its own thread. */
module WorkerShutdown {
  import opened Machine
  import opened WorkerProtocol
  import opened WorkerSafety
  import opened WorkerOrdering

  // ---------------------------------------------------------------------------
  // Sentinels
  // ---------------------------------------------------------------------------

  /** The worker is between taking watcher `id` out of the wait set and taking it out of the map. */
  predicate Retiring(pc: Pc, id: nat) {
    pc == RemovingWatcher(id) || (pc.Holding? && pc.phase == Requeuing(Some(id)))
  }

  /** In how many places the protocol knows sentinel `id`, its watcher aside. */
  function Places(s: State, id: nat): nat {
    Count(s.queue, AddSentinel(id)) + One(s.pc == Registering(AddSentinel(id))) + One(id in s.waitSet)
    + One(s.guest == CreatingWatcher(id)) + One(Retiring(s.pc, id))
  }

  /** A watcher is in exactly one place, unless the worker gave up; without a watcher there is none. */
  predicate SentinelPlaced(s: State, id: nat) {
    && Places(s, id) <= One(id in s.watchers)
    && (!s.pc.Halted? ==> Places(s, id) == One(id in s.watchers))
    && (s.pc.Holding? && s.pc.phase == Deciding(id) ==> id in s.waitSet)
  }

  lemma SentinelPlacedGuestStep(s: State, g: GuestStep, id: nat)
    requires IsSentinelId(id) && GuestEnabled(s, g) && SentinelPlaced(s, id)
    ensures SentinelPlaced(ApplyGuest(s, g), id)
  {
    hide Count;
    match g
    case SubmitFence(f) => CountAppend(s.queue, HandleFence(f), AddSentinel(id));
    case AnnouncePipe(p) => CountAppend(s.queue, AddReadPipe(p), AddSentinel(id));
    case AnnounceEvent(e) => CountAppend(s.queue, AddReadEvent(e), AddSentinel(id));
    case QueueWatcher => CountAppend(s.queue, AddSentinel(s.guest.id), AddSentinel(id));
    case QueueFinish => CountAppend(s.queue, Finish, AddSentinel(id));
    case _ =>
  }

  lemma SentinelPlacedFenceStep(s: State, w: WorkerStep, id: nat)
    requires IsSentinelId(id) && OwnIds(s) && SentinelPlaced(s, id)
    requires s.pc.Holding? && FenceEnabled(s, s.pc.phase, w)
    ensures SentinelPlaced(ApplyFence(s, s.pc.fence, s.pc.phase, w), id)
  {
    hide Count;
    if w.Requeue? {
      CountAppend(s.queue, HandleFence(s.pc.fence), AddSentinel(id));
    }
  }

  lemma SentinelPlacedWorkerStep(s: State, w: WorkerStep, id: nat)
    requires IsSentinelId(id) && OwnIds(s) && WorkerEnabled(s, w) && SentinelPlaced(s, id)
    ensures SentinelPlaced(ApplyWorker(s, w), id)
  {
    hide Count, FenceEnabled, ApplyFence;
    match w
    case Pop => CountPop(s.queue, AddSentinel(id));
    case Register =>
    case RemoveWatcher =>
    case Fail =>
    case _ => SentinelPlacedFenceStep(s, w, id);
  }

  lemma {:induction false} SentinelPlacedRun(s: State, acts: seq<Action>, id: nat)
    requires IsSentinelId(id) && Runs(s, acts) && GoodActions(acts) && OwnIds(s) && SentinelPlaced(s, id)
    ensures SentinelPlaced(Run(s, acts), id)
    decreases |acts|
  {
    if acts != [] {
      OwnIdsStep(s, acts[0]);
      match acts[0] {
        case Guest(g) => SentinelPlacedGuestStep(s, g, id);
        case Worker(w) => SentinelPlacedWorkerStep(s, w, id);
        case Unregister(_) =>
      }
      SentinelPlacedRun(Apply(s, acts[0]), acts[1..], id);
    }
  }

  /**
   A sentinel id can be used again only after the worker has let go of it everywhere: its descriptor is out of
   the wait set, no registration of it is on its way, and the worker is not about to remove its watcher.
   */
  lemma RecreationWaits(acts: seq<Action>, id: nat)
    requires Runs(INIT, acts) && GoodActions(acts) && IsSentinelId(id)
    requires Enabled(Run(INIT, acts), Guest(CreateWatcher(id)))
    ensures
      var s := Run(INIT, acts);
      id !in s.waitSet && Count(s.queue, AddSentinel(id)) == 0 && s.pc != Registering(AddSentinel(id))
        && !Retiring(s.pc, id)
  {
    SentinelPlacedRun(INIT, acts, id);
  }

  /** How many signal messages for sentinel `id` are on the ring. */
  function SentinelWrites(trace: seq<Obs>, id: nat): nat
    decreases |trace|
  {
    if trace == [] then 0
    else SentinelWrites(trace[..|trace| - 1], id) + One(trace[|trace| - 1] == Write(SentinelSignal(id)))
  }

  lemma SentinelWritesAppend(trace: seq<Obs>, o: Obs, id: nat)
    ensures SentinelWrites(trace + [o], id) == SentinelWrites(trace, id) + One(o == Write(SentinelSignal(id)))
  {
    assert (trace + [o])[..|trace|] == trace;
  }

  /** The worker writes a signal for a sentinel only while that sentinel's watcher is running. */
  predicate WritesLive(s: State) {
    s.pc.Holding? && s.pc.phase.WritingSentinel? ==> !IsShutdown(s, s.pc.phase.id)
  }

  lemma WritesLiveStep(s: State, a: Action)
    requires Enabled(s, a) && WritesLive(s)
    ensures WritesLive(Apply(s, a))
  {
  }

  lemma SilentFenceStep(s: State, w: WorkerStep, id: nat)
    requires s.pc.Holding? && FenceEnabled(s, s.pc.phase, w) && WritesLive(s) && IsShutdown(s, id)
    ensures SentinelWrites(ApplyFence(s, s.pc.fence, s.pc.phase, w).trace, id) == SentinelWrites(s.trace, id)
    ensures IsShutdown(ApplyFence(s, s.pc.fence, s.pc.phase, w), id)
  {
    hide SentinelWrites;
    match w
    case WriteReceive => SentinelWritesAppend(s.trace, Write(Receive), id);
    case WriteSentinel => SentinelWritesAppend(s.trace, Write(SentinelSignal(s.pc.phase.id)), id);
    case WriteItem(_) => SentinelWritesAppend(s.trace, Write(Read(s.pc.phase.id)), id);
    case SignalFence => SentinelWritesAppend(s.trace, if s.pc.phase.written then Signal(s.pc.fence)
      else KillSignal(s.pc.fence), id);
    case _ =>
  }

  lemma SilentStep(s: State, a: Action, id: nat)
    requires Enabled(s, a) && WritesLive(s) && IsShutdown(s, id) && a != Guest(CreateWatcher(id))
    ensures SentinelWrites(Apply(s, a).trace, id) == SentinelWrites(s.trace, id) && IsShutdown(Apply(s, a), id)
  {
    hide SentinelWrites, FenceEnabled, ApplyFence;
    if a.Worker? && s.pc.Holding? && !a.w.Fail? {
      SilentFenceStep(s, a.w, id);
    }
  }

  lemma {:induction false} SilentRun(s: State, acts: seq<Action>, id: nat)
    requires Runs(s, acts) && WritesLive(s) && IsShutdown(s, id)
    requires forall i :: 0 <= i < |acts| ==> acts[i] != Guest(CreateWatcher(id))
    ensures SentinelWrites(Run(s, acts).trace, id) == SentinelWrites(s.trace, id)
    decreases |acts|
  {
    if acts != [] {
      SilentStep(s, acts[0], id);
      WritesLiveStep(s, acts[0]);
      SilentRun(Apply(s, acts[0]), acts[1..], id);
    }
  }

  lemma {:induction false} WritesLiveRun(s: State, acts: seq<Action>)
    requires Runs(s, acts) && WritesLive(s)
    ensures WritesLive(Run(s, acts))
    decreases |acts|
  {
    if acts != [] {
      WritesLiveStep(s, acts[0]);
      WritesLiveRun(Apply(s, acts[0]), acts[1..]);
    }
  }

  /**
   Once a sentinel's watcher is shut down or gone, whatever happens next, no signal for it reaches the ring
   until the guest creates a watcher of that id again.
   */
  lemma RetiredStaysSilent(before: seq<Action>, after: seq<Action>, id: nat)
    requires Runs(INIT, before) && IsShutdown(Run(INIT, before), id) && Runs(Run(INIT, before), after)
    requires forall i :: 0 <= i < |after| ==> after[i] != Guest(CreateWatcher(id))
    ensures SentinelWrites(Run(Run(INIT, before), after).trace, id) == SentinelWrites(Run(INIT, before).trace, id)
  {
    WritesLiveRun(INIT, before);
    SilentRun(Run(INIT, before), after, id);
  }

  // ---------------------------------------------------------------------------
  // The end of the worker
  // ---------------------------------------------------------------------------

  predicate Done(pc: Pc) {
    pc.Returned? || pc.Halted?
  }

  /** Finish is queued once, by the drop of the context, and stays until the worker returns. */
  predicate Finishes(s: State) {
    && Count(s.queue, Finish) == One((s.guest == Dropping || s.guest == Dropped) && s.pc != Returned)
    && (s.guest == Dropped ==> s.killed)
  }

  lemma FinishesGuestStep(s: State, g: GuestStep)
    requires GuestEnabled(s, g) && Finishes(s) && (s.guest == Ready ==> s.pc != Returned)
    ensures Finishes(ApplyGuest(s, g))
  {
    hide Count;
    match g
    case SubmitFence(f) => CountAppend(s.queue, HandleFence(f), Finish);
    case AnnouncePipe(id) => CountAppend(s.queue, AddReadPipe(id), Finish);
    case AnnounceEvent(id) => CountAppend(s.queue, AddReadEvent(id), Finish);
    case QueueWatcher => CountAppend(s.queue, AddSentinel(s.guest.id), Finish);
    case QueueFinish => CountAppend(s.queue, Finish, Finish);
    case _ =>
  }

  lemma FinishesWorkerStep(s: State, w: WorkerStep)
    requires WorkerEnabled(s, w) && Finishes(s)
    ensures Finishes(ApplyWorker(s, w))
    ensures ApplyWorker(s, w).pc == Returned ==> s.guest == Dropping || s.guest == Dropped
  {
    hide Count;
    if w.Pop? {
      CountPop(s.queue, Finish);
    } else if w.Requeue? {
      CountAppend(s.queue, HandleFence(s.pc.fence), Finish);
    }
  }

  predicate FinishesWell(s: State) {
    Finishes(s) && (s.pc == Returned ==> s.guest == Dropping || s.guest == Dropped)
  }

  lemma {:induction false} FinishesRun(s: State, acts: seq<Action>)
    requires Runs(s, acts) && FinishesWell(s)
    ensures FinishesWell(Run(s, acts))
    decreases |acts|
  {
    if acts != [] {
      match acts[0] {
        case Guest(g) => FinishesGuestStep(s, g);
        case Worker(w) => FinishesWorkerStep(s, w);
        case Unregister(_) =>
      }
      FinishesRun(Apply(s, acts[0]), acts[1..]);
    }
  }

  /** How many jobs are ahead of Finish. */
  function AheadOfFinish(queue: seq<Job>): nat
    decreases |queue|
  {
    if queue == [] || queue[0] == Finish then 0 else 1 + AheadOfFinish(queue[1..])
  }

  lemma {:induction false} AheadAppend(queue: seq<Job>, job: Job)
    requires Count(queue, Finish) > 0
    ensures AheadOfFinish(queue + [job]) == AheadOfFinish(queue)
    decreases |queue|
  {
    if queue[0] != Finish {
      AheadAppend(queue[1..], job);
      assert (queue + [job])[1..] == queue[1..] + [job];
    }
  }

  /** An upper bound on the steps that the worker takes before it is idle again. */
  function Rank(pc: Pc): nat {
    match pc
    case Registering(_) => 1
    case RemovingWatcher(_) => 1
    case Holding(_, phase) => PhaseRank(phase)
    case _ => 0
  }

  function PhaseRank(phase: Phase): nat {
    match phase
    case Polling => MAX_IDENTIFIERS + 4
    case Receiving => MAX_IDENTIFIERS + 3
    case AddingItems(files) => files + 2
    case Resampling => 3
    case Requeuing(_) => 2
    case Deciding(_) => 3
    case WritingSentinel(_) => 2
    case LookingUp(_) => 4
    case WritingItem(_, _) => 3
    case ClosingItem(_, _) => 2
    case Signalling(_) => 1
  }

  /** The steps that the worker has left, at most: a fixed number for each job ahead of Finish. */
  function StepsLeft(s: State): nat {
    if Done(s.pc) then 0 else (MAX_IDENTIFIERS + 5) * AheadOfFinish(s.queue) + Rank(s.pc) + 1
  }

  /**
   Every step that the worker takes with a fence in hand brings it nearer to being idle, or behind Finish in the queue.
   */
  lemma FenceProgress(s: State, w: WorkerStep)
    requires s.pc.Holding? && FenceEnabled(s, s.pc.phase, w) && Count(s.queue, Finish) > 0
    ensures StepsLeft(ApplyFence(s, s.pc.fence, s.pc.phase, w)) < StepsLeft(s)
  {
    hide AheadOfFinish, Count;
    if w.Requeue? {
      AheadAppend(s.queue, HandleFence(s.pc.fence));
    }
  }

  /** Every step of the worker, whichever branch it takes, brings it nearer to the end. */
  lemma WorkerProgress(s: State, w: WorkerStep)
    requires WorkerEnabled(s, w) && Count(s.queue, Finish) > 0
    ensures StepsLeft(ApplyWorker(s, w)) < StepsLeft(s)
  {
    hide FenceEnabled, ApplyFence, Count;
    match w
    case Pop =>
    case Register =>
    case RemoveWatcher =>
    case Fail =>
    case _ => FenceProgress(s, w);
  }

  lemma ShutdownStep(s: State, w: WorkerStep)
    requires WorkerEnabled(s, w) && FinishesWell(s) && s.guest == Dropped
    ensures FinishesWell(ApplyWorker(s, w)) && ApplyWorker(s, w).guest == Dropped
    ensures StepsLeft(ApplyWorker(s, w)) < StepsLeft(s)
  {
    hide Count, StepsLeft;
    WorkerProgress(s, w);
    FinishesWorkerStep(s, w);
  }

  function WorkerSteps(acts: seq<Action>): nat
    decreases |acts|
  {
    if acts == [] then 0 else One(acts[0].Worker?) + WorkerSteps(acts[1..])
  }

  lemma {:induction false} ShutdownBoundedFrom(s: State, acts: seq<Action>)
    requires Runs(s, acts) && FinishesWell(s) && s.guest == Dropped
    ensures WorkerSteps(acts) + StepsLeft(Run(s, acts)) <= StepsLeft(s)
    decreases |acts|
  {
    hide AheadOfFinish, Rank, Count, ApplyWorker, WorkerEnabled;
    if acts != [] {
      match acts[0] {
        case Guest(g) =>
        case Worker(w) =>
          ShutdownStep(s, w);
        case Unregister(_) =>
      }
      ShutdownBoundedFrom(Apply(s, acts[0]), acts[1..]);
    }
  }

  /** The item that the worker is about to register or to read is missing or of the wrong type. */
  predicate MustFail(s: State) {
    || (s.pc.Registering? && !Registrable(s, s.pc.job))
    || (s.pc.Holding? && s.pc.phase.LookingUp?
       && !(s.pc.phase.id in s.items && s.items[s.pc.phase.id] in {ReadPipe, EventItem}))
  }

  /**
   After the drop of the context the worker comes to an end: in every continuation it takes no more steps than
   its place in the queue allows, and before the end it is never without a step to take.  That step is to give up only
   where an item is missing or of the wrong type.
   */
  lemma ShutdownTerminates(before: seq<Action>, after: seq<Action>) returns (w: WorkerStep)
    requires Runs(INIT, before) && GoodActions(before) && Run(INIT, before).guest == Dropped
    requires Runs(Run(INIT, before), after)
    ensures WorkerSteps(after) <= StepsLeft(Run(INIT, before))
    ensures !Done(Run(INIT, before).pc) ==>
            WorkerEnabled(Run(INIT, before), w) && (w.Fail? ==> MustFail(Run(INIT, before)))
  {
    var s := Run(INIT, before);
    FinishesRun(INIT, before);
    ShutdownBoundedFrom(s, after);
    OwnIdsRun(INIT, before);
    w := NextStep(s);
  }

  /** A step that the worker can take. */
  lemma NextStep(s: State) returns (w: WorkerStep)
    requires OwnIds(s) && Finishes(s) && s.guest == Dropped
    ensures !Done(s.pc) ==> WorkerEnabled(s, w) && (w.Fail? ==> MustFail(s))
  {
    match s.pc
    case Idle => w := Pop;
    case Registering(job) => w := if Registrable(s, job) then Register else Fail;
    case RemovingWatcher(_) => w := RemoveWatcher;
    case Holding(_, phase) =>
      match phase {
        case Polling => w := Wait(KILL_ID);
        case Receiving => w := ReceiveFiles(0);
        case AddingItems(files) => w := if files == 0 then WriteReceive else AddItem(0, BlobItem);
        case Resampling => w := ConsumeResample;
        case Requeuing(_) => w := Requeue;
        case Deciding(_) => w := Decide;
        case WritingSentinel(_) => w := WriteSentinel;
        case LookingUp(id) => w := if id in s.items && s.items[id] in {ReadPipe, EventItem} then LookUp else Fail;
        case WritingItem(_, _) => w := WriteItem(false);
        case ClosingItem(_, _) => w := CloseItem;
        case Signalling(_) => w := SignalFence;
      }
    case _ => w := Pop;
  }

  /** When the worker returns in good order, every fence that was not signalled was behind Finish in the queue. */
  lemma ReturnLeavesWhatIsBehind(acts: seq<Action>, f: Fence)
    requires Runs(INIT, acts) && Enabled(Run(INIT, acts), Worker(Pop)) && Run(INIT, acts).queue[0] == Finish
    ensures
      var s := Run(INIT, acts);
      && Apply(s, Worker(Pop)).pc == Returned
      && Submitted(s, f) == Count(s.queue[1..], HandleFence(f)) + Signalled(s.trace, f)
  {
    FenceConservation(acts, f);
    CountPop(Run(INIT, acts).queue, HandleFence(f));
  }
}
