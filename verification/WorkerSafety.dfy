/** What every run of the worker protocol keeps. */
module WorkerSafety {
  import opened Machine
  import opened WorkerProtocol

  // ---------------------------------------------------------------------------
  // Fence conservation
  // ---------------------------------------------------------------------------

  function One(b: bool): nat {
    if b then 1 else 0
  }

  /** How often `job` stands in the queue. */
  function Count(queue: seq<Job>, job: Job): nat
    decreases |queue|
  {
    if queue == [] then 0 else One(queue[0] == job) + Count(queue[1..], job)
  }

  /** How often fence `f` has been signalled. */
  function Signalled(trace: seq<Obs>, f: Fence): nat
    decreases |trace|
  {
    if trace == [] then 0
    else Signalled(trace[..|trace| - 1], f) + One(!trace[|trace| - 1].Write? && trace[|trace| - 1].fence == f)
  }

  function Submitted(s: State, f: Fence): nat {
    multiset(s.submitted)[f]
  }

  function Lost(pc: Pc): Option<Fence> {
    if pc.Halted? then pc.lost else None
  }

  /** Each submission of `f` is in exactly one place: queued, held, signalled, or lost by a worker that gave up. */
  predicate Conserved(s: State, f: Fence) {
    Submitted(s, f) == Count(s.queue, HandleFence(f)) + One(Held(s.pc) == Some(f)) + Signalled(s.trace, f) +
      One(Lost(s.pc) == Some(f))
  }

  lemma {:induction false} CountAppend(queue: seq<Job>, last: Job, job: Job)
    ensures Count(queue + [last], job) == Count(queue, job) + One(last == job)
    decreases |queue|
  {
    if queue == [] {
      assert queue + [last] == [last];
    } else {
      CountAppend(queue[1..], last, job);
      assert (queue + [last])[1..] == queue[1..] + [last];
    }
  }

  lemma CountPop(queue: seq<Job>, job: Job)
    requires queue != []
    ensures Count(queue, job) == One(queue[0] == job) + Count(queue[1..], job)
  {
  }

  lemma SignalledAppend(trace: seq<Obs>, o: Obs, f: Fence)
    ensures Signalled(trace + [o], f) == Signalled(trace, f) + One(!o.Write? && o.fence == f)
  {
    assert (trace + [o])[..|trace|] == trace;
  }

  lemma ConservedGuestStep(s: State, g: GuestStep, f: Fence)
    requires GuestEnabled(s, g) && Conserved(s, f)
    ensures Conserved(ApplyGuest(s, g), f)
  {
    hide Count, Signalled, Held, Lost;
    match g
    case SubmitFence(submitted) => CountAppend(s.queue, HandleFence(submitted), HandleFence(f));
    case AnnouncePipe(id) => CountAppend(s.queue, AddReadPipe(id), HandleFence(f));
    case AnnounceEvent(id) => CountAppend(s.queue, AddReadEvent(id), HandleFence(f));
    case QueueWatcher => CountAppend(s.queue, AddSentinel(s.guest.id), HandleFence(f));
    case QueueFinish => CountAppend(s.queue, Finish, HandleFence(f));
    case _ =>
  }

  lemma ConservedFenceStep(s: State, w: WorkerStep, f: Fence)
    requires s.pc.Holding? && FenceEnabled(s, s.pc.phase, w) && Conserved(s, f)
    ensures Conserved(ApplyFence(s, s.pc.fence, s.pc.phase, w), f)
  {
    hide Count, Signalled;
    match w
    case Requeue => CountAppend(s.queue, HandleFence(s.pc.fence), HandleFence(f));
    case WriteReceive => SignalledAppend(s.trace, Write(Receive), f);
    case WriteSentinel => SignalledAppend(s.trace, Write(SentinelSignal(s.pc.phase.id)), f);
    case WriteItem(_) => SignalledAppend(s.trace, Write(Read(s.pc.phase.id)), f);
    case SignalFence => SignalledAppend(s.trace, if s.pc.phase.written then Signal(s.pc.fence)
      else KillSignal(s.pc.fence), f);
    case _ =>
  }

  lemma ConservedWorkerStep(s: State, w: WorkerStep, f: Fence)
    requires WorkerEnabled(s, w) && Conserved(s, f)
    ensures Conserved(ApplyWorker(s, w), f)
  {
    hide Count, Signalled, FenceEnabled, ApplyFence;
    match w
    case Pop => CountPop(s.queue, HandleFence(f));
    case Register =>
    case RemoveWatcher =>
    case Fail =>
    case _ => ConservedFenceStep(s, w, f);
  }

  lemma ConservedStep(s: State, a: Action, f: Fence)
    requires Enabled(s, a) && Conserved(s, f)
    ensures Conserved(Apply(s, a), f)
  {
    match a
    case Guest(g) => ConservedGuestStep(s, g, f);
    case Worker(w) => ConservedWorkerStep(s, w, f);
    case Unregister(_) =>
  }

  lemma {:induction false} ConservedRun(s: State, acts: seq<Action>, f: Fence)
    requires Runs(s, acts) && Conserved(s, f)
    ensures Conserved(Run(s, acts), f)
    decreases |acts|
  {
    if acts != [] {
      ConservedStep(s, acts[0], f);
      ConservedRun(Apply(s, acts[0]), acts[1..], f);
    }
  }

  /**
   Fence conservation over all runs.  While the worker has not given up, nothing is lost; no fence is
   signalled more often than it was submitted.
   */
  lemma FenceConservation(acts: seq<Action>, f: Fence)
    requires Runs(INIT, acts)
    ensures
      var s := Run(INIT, acts);
      && Conserved(s, f)
      && (!s.pc.Halted? ==>
        Submitted(s, f) == Count(s.queue, HandleFence(f)) + One(Held(s.pc) == Some(f)) + Signalled(s.trace, f))
      && Signalled(s.trace, f) <= Submitted(s, f)
  {
    ConservedRun(INIT, acts, f);
  }

  // ---------------------------------------------------------------------------
  // One write for one signal
  // ---------------------------------------------------------------------------

  /** The trace without the signals that a kill event causes. */
  function WithoutKills(trace: seq<Obs>): seq<Obs>
    decreases |trace|
  {
    if trace == [] then []
    else
      var rest, last := WithoutKills(trace[..|trace| - 1]), trace[|trace| - 1];
      if last.KillSignal? then rest else rest + [last]
  }

  /** Writes and signals take turns, and a write comes first. */
  ghost predicate Alternates(trace: seq<Obs>) {
    forall i :: 0 <= i < |WithoutKills(trace)| ==> (WithoutKills(trace)[i].Write? <==> i % 2 == 0)
  }

  /** The worker has written to the ring and not yet signalled the fence that announces it. */
  predicate OwesSignal(pc: Pc) {
    (pc.Holding? && (pc.phase.ClosingItem? || pc.phase == Signalling(true))) || (pc.Halted? && pc.written)
  }

  ghost predicate TakesTurns(s: State) {
    Alternates(s.trace) && (OwesSignal(s.pc) <==> |WithoutKills(s.trace)| % 2 == 1)
  }

  lemma WithoutKillsAppend(trace: seq<Obs>, o: Obs)
    ensures WithoutKills(trace + [o]) == if o.KillSignal? then WithoutKills(trace) else WithoutKills(trace) + [o]
  {
    assert (trace + [o])[..|trace|] == trace;
  }

  lemma TakesTurnsWorkerStep(s: State, w: WorkerStep)
    requires WorkerEnabled(s, w) && TakesTurns(s)
    ensures TakesTurns(ApplyWorker(s, w))
  {
    hide WithoutKills;
    match w
    case WriteReceive => WithoutKillsAppend(s.trace, Write(Receive));
    case WriteSentinel => WithoutKillsAppend(s.trace, Write(SentinelSignal(s.pc.phase.id)));
    case WriteItem(_) => WithoutKillsAppend(s.trace, Write(Read(s.pc.phase.id)));
    case SignalFence => WithoutKillsAppend(s.trace, if s.pc.phase.written then Signal(s.pc.fence)
      else KillSignal(s.pc.fence));
    case _ =>
  }

  lemma TakesTurnsStep(s: State, a: Action)
    requires Enabled(s, a) && TakesTurns(s)
    ensures TakesTurns(Apply(s, a))
  {
    if a.Worker? {
      TakesTurnsWorkerStep(s, a.w);
    }
  }

  lemma {:induction false} TakesTurnsRun(s: State, acts: seq<Action>)
    requires Runs(s, acts) && TakesTurns(s)
    ensures TakesTurns(Run(s, acts))
    decreases |acts|
  {
    if acts != [] {
      TakesTurnsStep(s, acts[0]);
      TakesTurnsRun(Apply(s, acts[0]), acts[1..]);
    }
  }

  function Writes(trace: seq<Obs>): nat
    decreases |trace|
  {
    if trace == [] then 0 else Writes(trace[..|trace| - 1]) + (if trace[|trace| - 1].Write? then 1 else 0)
  }

  function Signals(trace: seq<Obs>): nat
    decreases |trace|
  {
    if trace == [] then 0 else Signals(trace[..|trace| - 1]) + (if trace[|trace| - 1].Signal? then 1 else 0)
  }

  lemma {:induction false} CountTurns(trace: seq<Obs>)
    requires Alternates(trace)
    ensures Writes(trace) == Signals(trace) + |WithoutKills(trace)| % 2
    decreases |trace|
  {
    if trace != [] {
      var before, last := trace[..|trace| - 1], trace[|trace| - 1];
      var kept := WithoutKills(before);
      assert WithoutKills(trace) == if last.KillSignal? then kept else kept + [last];
      forall i | 0 <= i < |kept|
        ensures kept[i].Write? <==> i % 2 == 0
      {
        assert kept[i] == WithoutKills(trace)[i];
      }
      CountTurns(before);
      if !last.KillSignal? {
        assert WithoutKills(trace)[|kept|] == last;
      }
    }
  }

  /**
   In every run, ring writes and fence signals alternate one for one, kill signals aside; a write without
   its signal exists only while the worker is between the two, so there is never more than one.
   */
  lemma OneWritePerFence(acts: seq<Action>)
    requires Runs(INIT, acts)
    ensures
      var s := Run(INIT, acts);
      && Alternates(s.trace)
      && Writes(s.trace) == Signals(s.trace) + (if OwesSignal(s.pc) then 1 else 0)
  {
    TakesTurnsRun(INIT, acts);
    CountTurns(Run(INIT, acts).trace);
  }
}
