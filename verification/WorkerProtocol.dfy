/**
 The protocol between the guest thread that owns a cross-domain context and the context's
 worker thread, as a machine over atomic steps.  A step is everything a thread does between two
 moments at which the other thread can see a difference.
 */
module WorkerProtocol {
  import opened Machine

  datatype Fence = Fence(flags: u32, fenceId: u64, ctxId: u32, ringIdx: nat)

  // Connection ids of the wait context.
  const CHANNEL_ID: nat := 1
  const RESAMPLE_ID: nat := 2
  const KILL_ID: nat := 3
  const SENTINEL_START: nat := 0x4000_0000
  const PIPE_READ_START: nat := 0x8000_0000

  predicate IsSentinelId(id: nat) {
    SENTINEL_START <= id < PIPE_READ_START
  }

  datatype Item = ReadPipe | WritePipe | EventItem | BlobItem | SocketItem | RegularFile | ImageRequirements

  datatype Job =
    | HandleFence(fence: Fence)
    | AddReadPipe(id: nat)
    | AddReadEvent(id: nat)
    | AddSentinel(id: nat)
    | Finish

  /** What the worker writes to the channel ring. */
  datatype Message = Receive | Read(id: nat) | SentinelSignal(id: nat)

  datatype Obs =
    | Write(message: Message)
    | Signal(fence: Fence)
    | KillSignal(fence: Fence)

  /** What the worker is doing for the fence it holds. */
  datatype Phase =
    | Polling
    | Receiving
    | AddingItems(files: nat)
    | Resampling
    | Requeuing(retired: Option<nat>)
    | Deciding(id: nat)
    | WritingSentinel(id: nat)
    | LookingUp(id: nat)
    | WritingItem(id: nat, item: Item)
    | ClosingItem(id: nat, item: Item)
    | Signalling(written: bool)

  /** Where the worker stands. */
  datatype Pc =
    | Idle
    | Registering(job: Job)
    | Holding(fence: Fence, phase: Phase)
    | RemovingWatcher(id: nat)
    | Returned
    | Halted(lost: Option<Fence>, written: bool)

  /** Where the guest thread stands between the two halves of a call. */
  datatype GuestPc = Ready | OwesResample | CreatingWatcher(id: nat) | Dropping | Dropped

  datatype State = State(
    queue: seq<Job>, pc: Pc, guest: GuestPc,
    waitSet: set<nat>, resample: nat, killed: bool,
    items: map<nat, Item>,
    watchers: map<nat, bool>,      // sentinel watchers; true once shut down
    // history
    submitted: seq<Fence>, trace: seq<Obs>,
    announced: set<nat>,           // ids of read pipes and events whose registration was queued
    added: set<nat>, dropped: set<nat>)  // ids put into the wait set, and taken out of it again

  /** A context right after its INIT command. */
  const INIT: State := State([], Idle, Ready, {CHANNEL_ID, RESAMPLE_ID, KILL_ID}, 0, false, map[], map[], [], [], {},
                             {}, {})

  /** Steps of the guest thread. */
  datatype GuestStep =
    | SubmitFence(fence: Fence)
    | AnnouncePipe(id: nat)
    | AnnounceEvent(id: nat)
    | SignalResample
    | InsertItem(id: nat, item: Item)
    | RemoveItem(id: nat)
    | CreateWatcher(id: nat)
    | QueueWatcher
    | DestroyWatcher(id: nat)
    | QueueFinish
    | RaiseKill

  /** Steps of the worker thread. */
  datatype WorkerStep =
    | Pop
    | Register
    | Wait(id: nat)
    | ReceiveFiles(files: nat)
    | AddItem(id: nat, item: Item)
    | WriteReceive
    | ConsumeResample
    | Requeue
    | RemoveWatcher
    | Decide
    | WriteSentinel
    | LookUp
    | WriteItem(eof: bool)
    | CloseItem
    | SignalFence
    | Fail

  /** A closed descriptor leaves the wait set on its own. */
  datatype Action = Guest(g: GuestStep) | Worker(w: WorkerStep) | Unregister(id: nat)

  /** The fence that the worker holds. */
  function Held(pc: Pc): Option<Fence> {
    if pc.Holding? then Some(pc.fence) else None
  }

  /** The worker is inside the section guarded by the sentinel manager's lock. */
  predicate HoldsManager(pc: Pc) {
    pc.RemovingWatcher?
    || (pc.Holding? && (pc.phase.WritingSentinel? || (pc.phase.Requeuing? && pc.phase.retired.Some?)))
  }

  predicate IsShutdown(s: State, id: nat) {
    id in s.watchers ==> s.watchers[id]
  }

  /** The item that a registration names is still in the table, with the right type. */
  predicate Registrable(s: State, job: Job) {
    && (job.AddReadPipe? ==> job.id in s.items && s.items[job.id] == ReadPipe)
    && (job.AddReadEvent? ==> job.id in s.items && s.items[job.id] == EventItem)
  }

  /**
   A connection that `wait` may report.  An item that was registered under one of the worker's own ids
   is reported under that id.
   */
  predicate Reportable(s: State, id: nat) {
    && id in s.waitSet
    && (id == RESAMPLE_ID ==> s.resample > 0 || id in s.added)
    && (id == KILL_ID ==> s.killed || id in s.added)
  }

  predicate GuestEnabled(s: State, g: GuestStep) {
    match g
    case SubmitFence(_) => s.guest == Ready
    case AnnouncePipe(_) => s.guest == Ready
    case AnnounceEvent(id) => s.guest == Ready && id in s.items && s.items[id] == EventItem
    case SignalResample => s.guest == OwesResample
    case InsertItem(_, _) => s.guest == Ready
    case RemoveItem(_) => s.guest == Ready
    case CreateWatcher(id) => s.guest == Ready && !HoldsManager(s.pc) && id !in s.watchers
    case QueueWatcher => s.guest.CreatingWatcher?
    case DestroyWatcher(id) => s.guest == Ready && !HoldsManager(s.pc) && id in s.watchers
    case QueueFinish => s.guest == Ready
    case RaiseKill => s.guest == Dropping
  }

  predicate WorkerEnabled(s: State, w: WorkerStep) {
    match w
    case Pop => s.pc == Idle && s.queue != []
    case Register => s.pc.Registering? && Registrable(s, s.pc.job)
    case RemoveWatcher => s.pc.RemovingWatcher?
    // Every fallible call of the worker ends its run.
    case Fail => s.pc.Registering? || (s.pc.Holding? && !s.pc.phase.Requeuing? && !s.pc.phase.Signalling?)
    case _ => s.pc.Holding? && FenceEnabled(s, s.pc.phase, w)
  }

  /** The steps that the worker takes with a fence in hand. */
  predicate FenceEnabled(s: State, phase: Phase, w: WorkerStep) {
    match w
    case Wait(id) => phase.Polling? && Reportable(s, id)
    case ReceiveFiles(files) => phase.Receiving? && files <= MAX_IDENTIFIERS
    case AddItem(id, item) => phase.AddingItems? && phase.files > 0
    case WriteReceive => phase == AddingItems(0)
    case ConsumeResample => phase.Resampling? && s.resample > 0
    case Requeue => phase.Requeuing?
    case Decide => phase.Deciding? && !s.guest.CreatingWatcher?
    case WriteSentinel => phase.WritingSentinel?
    case LookUp => phase.LookingUp? && phase.id in s.items && s.items[phase.id] in {ReadPipe, EventItem}
    case WriteItem(_) => phase.WritingItem?
    case CloseItem => phase.ClosingItem?
    case SignalFence => phase.Signalling?
    case _ => false
  }

  /** The branch that the worker takes for the connection that `wait` reported. */
  function Dispatch(id: nat): Phase {
    if id == CHANNEL_ID then Receiving
    else if id == RESAMPLE_ID then Resampling
    else if id == KILL_ID then Signalling(false)
    else if IsSentinelId(id) then Deciding(id)
    else LookingUp(id)
  }

  function ApplyGuest(s: State, g: GuestStep): State
    requires GuestEnabled(s, g)
  {
    match g
    case SubmitFence(f) => s.(queue := s.queue + [HandleFence(f)], submitted := s.submitted + [f])
    case AnnouncePipe(id) => s.(queue := s.queue + [AddReadPipe(id)], announced := s.announced + {id},
      guest := OwesResample)
    case AnnounceEvent(id) => s.(queue := s.queue + [AddReadEvent(id)], announced := s.announced + {id},
      guest := OwesResample)
    case SignalResample => s.(resample := s.resample + 1, guest := Ready)
    case InsertItem(id, item) => s.(items := s.items[id := item])
    case RemoveItem(id) => s.(items := s.items - {id})
    case CreateWatcher(id) => s.(watchers := s.watchers[id := false], guest := CreatingWatcher(id))
    case QueueWatcher => s.(queue := s.queue + [AddSentinel(s.guest.id)], guest := Ready)
    case DestroyWatcher(id) => s.(watchers := s.watchers[id := true])
    case QueueFinish => s.(queue := s.queue + [Finish], guest := Dropping)
    case RaiseKill => s.(killed := true, guest := Dropped)
  }

  function ApplyWorker(s: State, w: WorkerStep): State
    requires WorkerEnabled(s, w)
  {
    match w
    case Pop =>
      var job := s.queue[0];
      s.(queue := s.queue[1..],
         pc := if job.HandleFence? then Holding(job.fence, Polling) else if job.Finish? then Returned
           else Registering(job))
    case Register =>
      var ids := if s.pc.job.HandleFence? || s.pc.job.Finish? then {} else {s.pc.job.id};
      s.(waitSet := s.waitSet + ids, added := s.added + ids, pc := Idle)
    case RemoveWatcher => s.(watchers := s.watchers - {s.pc.id}, pc := Idle)
    case Fail => s.(pc := Halted(Held(s.pc), s.pc.Holding? && s.pc.phase.ClosingItem?))
    case _ => ApplyFence(s, s.pc.fence, s.pc.phase, w)
  }

  function ApplyFence(s: State, f: Fence, phase: Phase, w: WorkerStep): State
    requires FenceEnabled(s, phase, w)
  {
    match w
    case Wait(id) => s.(pc := Holding(f, Dispatch(id)))
    case ReceiveFiles(files) => s.(pc := Holding(f, AddingItems(files)))
    case AddItem(id, item) => s.(items := s.items[id := item], pc := Holding(f, AddingItems(phase.files - 1)))
    case WriteReceive => s.(trace := s.trace + [Write(Receive)], pc := Holding(f, Signalling(true)))
    case ConsumeResample => s.(resample := 0, pc := Holding(f, Requeuing(None)))
    case Requeue =>
      s.(queue := s.queue + [HandleFence(f)],
         pc := if phase.retired.Some? then RemovingWatcher(phase.retired.value) else Idle)
    case Decide =>
      var id := phase.id;
      if IsShutdown(s, id) then
        // The watcher's event is taken out of the wait set, if the watcher is still there.
        var ids := if id in s.watchers then {id} else {};
        s.(waitSet := s.waitSet - ids, dropped := s.dropped + ids, pc := Holding(f, Requeuing(Some(id))))
      else
        s.(pc := Holding(f, WritingSentinel(id)))
    case WriteSentinel => s.(trace := s.trace + [Write(SentinelSignal(phase.id))], pc := Holding(f, Signalling(true)))
    case LookUp => s.(pc := Holding(f, WritingItem(phase.id, s.items[phase.id])))
    case WriteItem(eof) =>
      s.(trace := s.trace + [Write(Read(phase.id))],
         pc := Holding(f, if eof then ClosingItem(phase.id, phase.item) else Signalling(true)))
    case CloseItem =>
      // Only a pipe leaves the wait set here.
      var ids := if phase.item == ReadPipe then {phase.id} else {};
      s.(waitSet := s.waitSet - ids, dropped := s.dropped + ids, items := s.items - {phase.id},
        pc := Holding(f, Signalling(true)))
    case SignalFence => s.(trace := s.trace + [if phase.written then Signal(f) else KillSignal(f)], pc := Idle)
  }

  predicate Enabled(s: State, a: Action) {
    match a
    case Guest(g) => GuestEnabled(s, g)
    case Worker(w) => WorkerEnabled(s, w)
    case Unregister(id) => id > KILL_ID && !IsSentinelId(id) && id in s.waitSet && id !in s.items
  }

  function Apply(s: State, a: Action): State
    requires Enabled(s, a)
  {
    match a
    case Guest(g) => ApplyGuest(s, g)
    case Worker(w) => ApplyWorker(s, w)
    case Unregister(id) => s.(waitSet := s.waitSet - {id}, dropped := s.dropped + {id})
  }

  /** A finite run: a list of actions, each enabled where it happens. */
  predicate Runs(s: State, acts: seq<Action>)
    decreases |acts|
  {
    acts != [] ==> Enabled(s, acts[0]) && Runs(Apply(s, acts[0]), acts[1..])
  }

  function Run(s: State, acts: seq<Action>): State
    requires Runs(s, acts)
    decreases |acts|
  {
    if acts == [] then s else Run(Apply(s, acts[0]), acts[1..])
  }
}
