/** Registrations, sentinels and shutdown: who waits for what, in every run of the worker protocol. */
module WorkerOrdering {
  import opened Machine
  import opened WorkerProtocol

  // ---------------------------------------------------------------------------
  // Identifiers that keep out of each other's way
  // ---------------------------------------------------------------------------

  predicate ItemId(id: nat) {
    id > KILL_ID && !IsSentinelId(id)
  }

  /** The guest registers items and watchers under ids of their own ranges. */
  predicate GoodAction(a: Action) {
    a.Guest? ==>
      && (a.g.AnnouncePipe? ==> ItemId(a.g.id))
      && (a.g.AnnounceEvent? ==> ItemId(a.g.id))
      && (a.g.CreateWatcher? ==> IsSentinelId(a.g.id))
  }

  predicate GoodActions(acts: seq<Action>) {
    forall i :: 0 <= i < |acts| ==> GoodAction(acts[i])
  }

  /** The id that a job registers is in its range. */
  predicate GoodJob(job: Job) {
    && (job.AddReadPipe? || job.AddReadEvent? ==> ItemId(job.id))
    && (job.AddSentinel? ==> IsSentinelId(job.id))
  }

  /** The worker's own connections stay in the wait set, and nothing else goes by their ids. */
  predicate OwnIds(s: State) {
    && (forall j :: 0 <= j < |s.queue| ==> GoodJob(s.queue[j]))
    && (s.pc.Registering? ==> GoodJob(s.pc.job))
    && (s.guest.CreatingWatcher? ==> IsSentinelId(s.guest.id))
    && (forall id :: id in s.added ==> id > KILL_ID)
    && (forall id :: id in s.waitSet ==> id in s.added || CHANNEL_ID <= id <= KILL_ID)
    && CHANNEL_ID in s.waitSet && RESAMPLE_ID in s.waitSet && KILL_ID in s.waitSet
    && (s.pc.Holding? ==>
        && (s.pc.phase.Resampling? ==> s.resample > 0)
        && (s.pc.phase.Deciding? ==> IsSentinelId(s.pc.phase.id))
        && (s.pc.phase.LookingUp? || s.pc.phase.WritingItem? || s.pc.phase.ClosingItem? ==> ItemId(s.pc.phase.id)))
  }

  lemma OwnIdsStep(s: State, a: Action)
    requires Enabled(s, a) && GoodAction(a) && OwnIds(s)
    ensures OwnIds(Apply(s, a))
  {
    match a
    case Guest(g) => OwnIdsGuestStep(s, g);
    case Worker(w) => OwnIdsWorkerStep(s, w);
    case Unregister(_) =>
  }

  lemma OwnIdsGuestStep(s: State, g: GuestStep)
    requires GuestEnabled(s, g) && GoodAction(Guest(g)) && OwnIds(s)
    ensures OwnIds(ApplyGuest(s, g))
  {
  }

  lemma OwnIdsFenceStep(s: State, w: WorkerStep)
    requires s.pc.Holding? && FenceEnabled(s, s.pc.phase, w) && OwnIds(s)
    ensures OwnIds(ApplyFence(s, s.pc.fence, s.pc.phase, w))
  {
  }

  lemma OwnIdsWorkerStep(s: State, w: WorkerStep)
    requires WorkerEnabled(s, w) && OwnIds(s)
    ensures OwnIds(ApplyWorker(s, w))
  {
    hide FenceEnabled, ApplyFence;
    match w
    case Pop =>
    case Register =>
    case RemoveWatcher =>
    case Fail =>
    case _ => OwnIdsFenceStep(s, w);
  }

  lemma {:induction false} OwnIdsRun(s: State, acts: seq<Action>)
    requires Runs(s, acts) && GoodActions(acts) && OwnIds(s)
    ensures OwnIds(Run(s, acts))
    decreases |acts|
  {
    if acts != [] {
      OwnIdsStep(s, acts[0]);
      OwnIdsRun(Apply(s, acts[0]), acts[1..]);
    }
  }

  // ---------------------------------------------------------------------------
  // Registrations and the resample event
  // ---------------------------------------------------------------------------

  predicate IsAnnouncement(job: Job) {
    job.AddReadPipe? || job.AddReadEvent?
  }

  /** The registration of item `id` is in the queue. */
  predicate Announced(queue: seq<Job>, id: nat) {
    AddReadPipe(id) in queue || AddReadEvent(id) in queue
  }

  /** Where an announced item can be, as long as the worker has not given up. */
  predicate Accounted(s: State, id: nat) {
    && (id in s.announced && !s.pc.Halted? ==>
          id in s.added || Announced(s.queue, id)
            || s.pc in {Registering(AddReadPipe(id)), Registering(AddReadEvent(id))})
    && (id in s.added ==> id in s.waitSet || id in s.dropped)
  }

  lemma AccountedWorkerStep(s: State, w: WorkerStep, id: nat)
    requires WorkerEnabled(s, w) && Accounted(s, id)
    ensures Accounted(ApplyWorker(s, w), id)
  {
    if w.Pop? {
      assert s.queue == [s.queue[0]] + s.queue[1..];
    }
  }

  lemma AccountedGuestStep(s: State, g: GuestStep, id: nat)
    requires GuestEnabled(s, g) && Accounted(s, id)
    ensures Accounted(ApplyGuest(s, g), id)
  {
  }

  lemma AccountedStep(s: State, a: Action, id: nat)
    requires Enabled(s, a) && Accounted(s, id)
    ensures Accounted(Apply(s, a), id)
  {
    match a
    case Guest(g) => AccountedGuestStep(s, g, id);
    case Worker(w) => AccountedWorkerStep(s, w, id);
    case Unregister(_) =>
  }

  lemma {:induction false} AccountedRun(s: State, acts: seq<Action>, id: nat)
    requires Runs(s, acts) && Accounted(s, id)
    ensures Accounted(Run(s, acts), id)
    decreases |acts|
  {
    if acts != [] {
      AccountedStep(s, acts[0], id);
      AccountedRun(Apply(s, acts[0]), acts[1..], id);
    }
  }

  /**
   Whenever the worker puts a fence back into the queue, whatever made it do so, every read pipe and
   event announced so far is in the wait set, has been taken out of it, or has its registration ahead of that fence.
   */
  lemma RequeueOrdering(acts: seq<Action>, id: nat)
    requires Runs(INIT, acts) && Enabled(Run(INIT, acts), Worker(Requeue)) && id in Run(INIT, acts).announced
    ensures
      var s := Run(INIT, acts);
      var s' := Apply(s, Worker(Requeue));
      && s'.queue == s.queue + [HandleFence(s.pc.fence)]
      && (id in s'.waitSet || id in s'.dropped || Announced(s'.queue[..|s'.queue| - 1], id))
  {
    AccountedRun(INIT, acts, id);
    var s := Run(INIT, acts);
    assert (s.queue + [HandleFence(s.pc.fence)])[..|s.queue|] == s.queue;
  }

  predicate NoFence(queue: seq<Job>) {
    forall j :: 0 <= j < |queue| ==> !queue[j].HandleFence?
  }

  predicate NoAnnouncement(queue: seq<Job>) {
    forall j :: 0 <= j < |queue| ==> !IsAnnouncement(queue[j])
  }

  /** A fence is queued or held. */
  predicate Outstanding(s: State) {
    s.pc.Holding? || !NoFence(s.queue)
  }

  /** The guest submits a channel fence only when none is outstanding. */
  predicate Polite(s: State, acts: seq<Action>)
    requires Runs(s, acts)
    decreases |acts|
  {
    acts != [] ==>
      && (acts[0].Guest? && acts[0].g.SubmitFence? ==> !Outstanding(s))
      && Polite(Apply(s, acts[0]), acts[1..])
  }

  /** The resample event is pending, or about to be raised by a guest that has queued a registration. */
  predicate ResamplePending(s: State) {
    s.resample > 0 || s.guest == OwesResample
  }

  /** With one fence about, a registration that waits behind it has the resample event pending. */
  predicate Resampled(s: State) {
    && (s.pc.Holding? ==> NoFence(s.queue))
    && (forall i, j :: 0 <= i < j < |s.queue| ==> !(s.queue[i].HandleFence? && s.queue[j].HandleFence?))
    && (!ResamplePending(s) ==>
        && (forall i, j :: 0 <= i < j < |s.queue| ==> !(s.queue[i].HandleFence? && IsAnnouncement(s.queue[j])))
        && (s.pc.Holding? && !s.pc.phase.Requeuing? ==> NoAnnouncement(s.queue)))
  }

  /** The worker polls, a registration waits in the queue, and no resample event will wake the worker. */
  predicate PollsPastAnnouncement(s: State) {
    s.pc.Holding? && s.pc.phase.Polling? && !NoAnnouncement(s.queue) && !ResamplePending(s)
  }

  lemma ResampledGuestStep(s: State, g: GuestStep)
    requires GuestEnabled(s, g) && Resampled(s)
    requires g.SubmitFence? ==> !Outstanding(s)
    ensures Resampled(ApplyGuest(s, g))
  {
  }

  lemma ResampledFenceStep(s: State, w: WorkerStep)
    requires s.pc.Holding? && FenceEnabled(s, s.pc.phase, w) && Resampled(s)
    ensures Resampled(ApplyFence(s, s.pc.fence, s.pc.phase, w))
  {
  }

  lemma ResampledWorkerStep(s: State, w: WorkerStep)
    requires WorkerEnabled(s, w) && Resampled(s)
    ensures Resampled(ApplyWorker(s, w))
  {
    hide ApplyFence, FenceEnabled;
    match w
    case Pop => ResampledPop(s);
    case Register =>
    case RemoveWatcher =>
    case Fail =>
    case _ => ResampledFenceStep(s, w);
  }

  lemma ResampledPop(s: State)
    requires s.pc == Idle && s.queue != [] && Resampled(s)
    ensures Resampled(ApplyWorker(s, Pop))
  {
    var rest := s.queue[1..];
    assert forall j :: 0 <= j < |rest| ==> rest[j] == s.queue[j + 1];
  }

  lemma ResampledStep(s: State, a: Action)
    requires Enabled(s, a) && Resampled(s)
    requires a.Guest? && a.g.SubmitFence? ==> !Outstanding(s)
    ensures Resampled(Apply(s, a))
  {
    match a
    case Guest(g) => ResampledGuestStep(s, g);
    case Worker(w) => ResampledWorkerStep(s, w);
    case Unregister(_) =>
  }

  lemma {:induction false} ResampledRun(s: State, acts: seq<Action>)
    requires Runs(s, acts) && Polite(s, acts) && Resampled(s)
    ensures Resampled(Run(s, acts))
    decreases |acts|
  {
    if acts != [] {
      ResampledStep(s, acts[0]);
      ResampledRun(Apply(s, acts[0]), acts[1..]);
    }
  }

  /**
   If at most one channel fence is ever outstanding, the worker never sits in a poll while the registration
   of an announced item waits in the queue, unless the resample event is pending and will wake it.
   */
  lemma NeverPollsPastAnnouncement(acts: seq<Action>)
    requires Runs(INIT, acts) && Polite(INIT, acts)
    ensures !PollsPastAnnouncement(Run(INIT, acts))
  {
    ResampledRun(INIT, acts);
  }

  // ---------------------------------------------------------------------------
  // What those conditions are for
  // ---------------------------------------------------------------------------

  lemma {:induction false} RunAppend(s: State, acts: seq<Action>, a: Action)
    requires Runs(s, acts) && Enabled(Run(s, acts), a)
    ensures Runs(s, acts + [a]) && Run(s, acts + [a]) == Apply(Run(s, acts), a)
    decreases |acts|
  {
    if acts == [] {
      assert acts + [a] == [a] && [a][1..] == [];
    } else {
      RunAppend(Apply(s, acts[0]), acts[1..], a);
      assert (acts + [a])[1..] == acts[1..] + [a];
    }
  }

  /** A run from `start`, extended by one step from `s` to `s'`. */
  lemma Then(start: State, acts: seq<Action>, s: State, a: Action, s': State) returns (acts': seq<Action>)
    requires Runs(start, acts) && s == Run(start, acts) && Enabled(s, a) && s' == Apply(s, a)
    ensures Runs(start, acts') && s' == Run(start, acts')
    ensures GoodActions(acts) && GoodAction(a) ==> GoodActions(acts')
  {
    RunAppend(start, acts, a);
    acts' := acts + [a];
  }

  /** A guest that submits `f` to a worker with nothing else to do, and a worker that starts to poll for it. */
  lemma ThenPoll(start: State, acts: seq<Action>, s: State, f: Fence) returns (acts': seq<Action>, s': State)
    requires Runs(start, acts) && s == Run(start, acts) && s.guest == Ready && s.pc == Idle && s.queue == []
    ensures Runs(start, acts') && s' == Run(start, acts')
    ensures GoodActions(acts) ==> GoodActions(acts')
    ensures s' == s.(submitted := s.submitted + [f], pc := Holding(f, Polling))
  {
    hide Run, Runs, GoodActions;
    var s1 := s.(queue := [HandleFence(f)], submitted := s.submitted + [f]);
    acts' := Then(start, acts, s, Guest(SubmitFence(f)), s1);
    s' := s1.(queue := [], pc := Holding(f, Polling));
    acts' := Then(start, acts', s1, Worker(Pop), s');
  }

  /** A guest that announces item `id`. */
  lemma ThenAnnounce(start: State, acts: seq<Action>, s: State, announce: GuestStep, job: Job)
    returns (acts': seq<Action>, s': State)
    requires Runs(start, acts) && s == Run(start, acts) && GuestEnabled(s, announce)
    requires (announce.AnnouncePipe? && job == AddReadPipe(announce.id))
             || (announce.AnnounceEvent? && job == AddReadEvent(announce.id))
    ensures Runs(start, acts') && s' == Run(start, acts')
    ensures GoodActions(acts) && GoodAction(Guest(announce)) ==> GoodActions(acts')
    ensures s' == s.(queue := s.queue + [job], announced := s.announced + {job.id}, resample := s.resample + 1,
            guest := Ready)
  {
    hide Run, Runs, GoodActions;
    var s1 := s.(queue := s.queue + [job], announced := s.announced + {job.id}, guest := OwesResample);
    acts' := Then(start, acts, s, Guest(announce), s1);
    s' := s1.(resample := s.resample + 1, guest := Ready);
    acts' := Then(start, acts', s1, Guest(SignalResample), s');
  }

  /** A guest that announces item `id` while the worker polls, up to the worker's next job. */
  lemma ThenResample(start: State, acts: seq<Action>, s: State, announce: GuestStep, job: Job)
    returns (acts': seq<Action>, s': State)
    requires Runs(start, acts) && s == Run(start, acts) && GuestEnabled(s, announce)
    requires (announce.AnnouncePipe? && job == AddReadPipe(announce.id))
             || (announce.AnnounceEvent? && job == AddReadEvent(announce.id))
    requires s.pc.Holding? && s.pc.phase == Polling && RESAMPLE_ID in s.waitSet
    ensures Runs(start, acts') && s' == Run(start, acts')
    ensures GoodActions(acts) && GoodAction(Guest(announce)) ==> GoodActions(acts')
    ensures s' == s.(queue := s.queue + [job] + [HandleFence(s.pc.fence)], announced := s.announced + {job.id},
            resample := 0, guest := Ready, pc := Idle)
  {
    hide Run, Runs, GoodActions;
    var f, s1 := s.pc.fence, s;
    acts', s1 := ThenAnnounce(start, acts, s, announce, job);
    var s2 := s1.(pc := Holding(f, Resampling));
    acts' := Then(start, acts', s1, Worker(Wait(RESAMPLE_ID)), s2);
    var s3 := s2.(resample := 0, pc := Holding(f, Requeuing(None)));
    acts' := Then(start, acts', s2, Worker(ConsumeResample), s3);
    s' := s3.(queue := s.queue + [job] + [HandleFence(f)], pc := Idle);
    acts' := Then(start, acts', s3, Worker(Requeue), s');
  }

  /** Nobody is in the middle of anything. */
  predicate Quiet(s: State) {
    s.guest == Ready && s.pc == Idle && s.queue == [] && RESAMPLE_ID in s.waitSet && CHANNEL_ID in s.waitSet
  }

  // ---------------------------------------------------------------------------
  // How many fences may be outstanding
  // ---------------------------------------------------------------------------

  function Fences(queue: seq<Job>): nat
    decreases |queue|
  {
    if queue == [] then 0 else (if queue[0].HandleFence? then 1 else 0) + Fences(queue[1..])
  }

  /** The fences that are queued or held. */
  function FencesOut(s: State): nat {
    Fences(s.queue) + (if s.pc.Holding? then 1 else 0)
  }

  /** At no moment of the run more than `n` fences are outstanding. */
  predicate AtMost(s: State, acts: seq<Action>, n: nat)
    requires Runs(s, acts)
    decreases |acts|
  {
    FencesOut(s) <= n && (acts != [] ==> AtMost(Apply(s, acts[0]), acts[1..], n))
  }

  lemma {:induction false} FencesAppend(queue: seq<Job>, job: Job)
    ensures Fences(queue + [job]) == Fences(queue) + (if job.HandleFence? then 1 else 0)
    decreases |queue|
  {
    if queue == [] {
      assert queue + [job] == [job];
    } else {
      FencesAppend(queue[1..], job);
      assert (queue + [job])[1..] == queue[1..] + [job];
    }
  }

  lemma {:induction false} SomeFence(queue: seq<Job>)
    requires !NoFence(queue)
    ensures Fences(queue) > 0
    decreases |queue|
  {
    if !queue[0].HandleFence? {
      SomeFence(queue[1..]);
    }
  }

  /** Only a submission adds to the fences that are outstanding. */
  lemma FencesGuestStep(s: State, g: GuestStep)
    requires GuestEnabled(s, g)
    ensures FencesOut(ApplyGuest(s, g)) == FencesOut(s) + |ApplyGuest(s, g).submitted| - |s.submitted|
    ensures |ApplyGuest(s, g).submitted| >= |s.submitted|
  {
    hide Fences;
    match g
    case SubmitFence(f) => FencesAppend(s.queue, HandleFence(f));
    case AnnouncePipe(id) => FencesAppend(s.queue, AddReadPipe(id));
    case AnnounceEvent(id) => FencesAppend(s.queue, AddReadEvent(id));
    case QueueWatcher => FencesAppend(s.queue, AddSentinel(s.guest.id));
    case QueueFinish => FencesAppend(s.queue, Finish);
    case _ =>
  }

  lemma FencesWorkerStep(s: State, w: WorkerStep)
    requires WorkerEnabled(s, w)
    ensures FencesOut(ApplyWorker(s, w)) <= FencesOut(s) && ApplyWorker(s, w).submitted == s.submitted
  {
    if w.Requeue? {
      hide Fences;
      FencesAppend(s.queue, HandleFence(s.pc.fence));
    } else if !w.Pop? {
      hide Fences;
    }
  }

  lemma FencesStep(s: State, a: Action)
    requires Enabled(s, a)
    ensures FencesOut(Apply(s, a)) <= FencesOut(s) + |Apply(s, a).submitted| - |s.submitted|
    ensures |Apply(s, a).submitted| >= |s.submitted|
  {
    hide Fences, ApplyGuest, ApplyWorker, GuestEnabled, WorkerEnabled;
    match a
    case Guest(g) => FencesGuestStep(s, g);
    case Worker(w) => FencesWorkerStep(s, w);
    case Unregister(_) =>
  }

  /** A run in which few fences are submitted has few outstanding. */
  lemma {:induction false} AtMostSubmitted(s: State, acts: seq<Action>, n: nat)
    requires Runs(s, acts) && FencesOut(s) + |Run(s, acts).submitted| - |s.submitted| <= n
    ensures AtMost(s, acts, n) && |Run(s, acts).submitted| >= |s.submitted|
    decreases |acts|
  {
    hide FencesOut, Apply;
    if acts != [] {
      FencesStep(s, acts[0]);
      AtMostSubmitted(Apply(s, acts[0]), acts[1..], n);
    }
  }

  lemma {:induction false} AtMostOneIsPolite(s: State, acts: seq<Action>)
    requires Runs(s, acts) && AtMost(s, acts, 1)
    ensures Polite(s, acts)
    decreases |acts|
  {
    if acts != [] {
      if acts[0].Guest? && acts[0].g.SubmitFence? {
        FencesGuestStep(s, acts[0].g);
        if !NoFence(s.queue) {
          SomeFence(s.queue);
        }
      }
      AtMostOneIsPolite(Apply(s, acts[0]), acts[1..]);
    }
  }

  /** No run with at most `n` outstanding fences polls past a registration. */
  ghost predicate NeverPollsPast(n: nat) {
    forall acts :: Runs(INIT, acts) && AtMost(INIT, acts, n) ==> !PollsPastAnnouncement(Run(INIT, acts))
  }

  /** The worker never polls past a registration exactly when at most one fence may be outstanding. */
  lemma NeverPollsPastIff(n: nat)
    ensures NeverPollsPast(n) <==> n <= 1
  {
    if n <= 1 {
      forall acts | Runs(INIT, acts) && AtMost(INIT, acts, n)
        ensures !PollsPastAnnouncement(Run(INIT, acts))
      {
        AtMostMonotone(INIT, acts, n, 1);
        AtMostOneIsPolite(INIT, acts);
        NeverPollsPastAnnouncement(acts);
      }
    } else {
      var acts := TwoFencesPollPast(INIT);
      AtMostMonotone(INIT, acts, 2, n);
    }
  }

  lemma {:induction false} AtMostMonotone(s: State, acts: seq<Action>, n: nat, m: nat)
    requires Runs(s, acts) && AtMost(s, acts, n) && n <= m
    ensures AtMost(s, acts, m)
    decreases |acts|
  {
    if acts != [] {
      AtMostMonotone(Apply(s, acts[0]), acts[1..], n, m);
    }
  }

  /**
   With two fences outstanding the worker can poll past a queued registration with no resample event pending.
   Such a run starts from any quiet state, so from INIT too.
   */
  lemma TwoFencesPollPast(start: State) returns (acts: seq<Action>)
    requires Quiet(start)
    ensures Runs(start, acts) && GoodActions(acts) && AtMost(start, acts, 2) && PollsPastAnnouncement(Run(start, acts))
  {
    var f, g, pipe := Fence(0, 1, 0, 1), Fence(0, 2, 0, 1), PIPE_READ_START + 1;
    assert Runs(start, []) && Run(start, []) == start && GoodActions([]) && FencesOut(start) == 0;
    hide Run, Runs, GoodActions, FencesOut;
    var s, s2, s3;
    acts, s := ThenPoll(start, [], start, f);
    acts, s2 := ThenSecondFence(start, acts, s, g, pipe);
    acts, s3 := ThenResample(start, acts, s2, AnnouncePipe(pipe), AddReadPipe(pipe));
    acts := PollsPast(start, acts, s3, g, AddReadPipe(pipe));
    AtMostSubmitted(start, acts, 2);
  }

  /** While the worker polls, the guest submits another fence and makes a pipe. */
  lemma ThenSecondFence(start: State, acts: seq<Action>, s: State, g: Fence, pipe: nat)
    returns (acts': seq<Action>, s': State)
    requires Runs(start, acts) && s == Run(start, acts) && GoodActions(acts) && s.guest == Ready && s.queue == []
    ensures Runs(start, acts') && s' == Run(start, acts') && GoodActions(acts')
    ensures s' == s.(queue := [HandleFence(g)], submitted := s.submitted + [g], items := s.items[pipe := ReadPipe])
  {
    hide Run, Runs, GoodActions;
    var s1 := s.(queue := [HandleFence(g)], submitted := s.submitted + [g]);
    acts' := Then(start, acts, s, Guest(SubmitFence(g)), s1);
    s' := s1.(items := s1.items[pipe := ReadPipe]);
    acts' := Then(start, acts', s1, Guest(InsertItem(pipe, ReadPipe)), s');
  }

  lemma PollsPast(start: State, acts: seq<Action>, s: State, g: Fence, job: Job) returns (acts': seq<Action>)
    requires Runs(start, acts) && s == Run(start, acts) && GoodActions(acts)
    requires s.pc == Idle && |s.queue| > 1 && s.queue[..2] == [HandleFence(g), job] && IsAnnouncement(job)
             && !ResamplePending(s)
    ensures Runs(start, acts') && GoodActions(acts') && Run(start, acts').submitted == s.submitted
    ensures PollsPastAnnouncement(Run(start, acts'))
  {
    hide Run, Runs, GoodActions;
    assert s.queue[0] == s.queue[..2][0] && s.queue[1] == s.queue[..2][1];
    var s' := s.(queue := s.queue[1..], pc := Holding(g, Polling));
    acts' := Then(start, acts, s, Worker(Pop), s');
    assert IsAnnouncement(s'.queue[0]);
  }

  /** A message with one file arrives while the worker polls, and its file becomes an item. */
  lemma ThenTakeFile(start: State, acts: seq<Action>, s: State, id: nat, item: Item)
    returns (acts': seq<Action>, s': State)
    requires Runs(start, acts) && s == Run(start, acts)
    requires s.pc.Holding? && s.pc.phase == Polling && CHANNEL_ID in s.waitSet
    ensures Runs(start, acts') && s' == Run(start, acts')
    ensures s' == s.(items := s.items[id := item], pc := Holding(s.pc.fence, AddingItems(0)))
  {
    hide Run, Runs, GoodActions;
    var f := s.pc.fence;
    var s1 := s.(pc := Holding(f, Receiving));
    acts' := Then(start, acts, s, Worker(Wait(CHANNEL_ID)), s1);
    var s2 := s1.(pc := Holding(f, AddingItems(1)));
    acts' := Then(start, acts', s1, Worker(ReceiveFiles(1)), s2);
    s' := s2.(items := s.items[id := item], pc := Holding(f, AddingItems(0)));
    acts' := Then(start, acts', s2, Worker(AddItem(id, item)), s');
  }

  /** The worker passes that message on. */
  lemma ThenReceive(start: State, acts: seq<Action>, s: State, id: nat, item: Item)
    returns (acts': seq<Action>, s': State)
    requires Runs(start, acts) && s == Run(start, acts)
    requires s.pc.Holding? && s.pc.phase == Polling && CHANNEL_ID in s.waitSet
    ensures Runs(start, acts') && s' == Run(start, acts')
    ensures s' == s.(items := s.items[id := item], trace := s.trace + [Write(Receive)] + [Signal(s.pc.fence)],
            pc := Idle)
  {
    hide Run, Runs, GoodActions;
    var f, s1 := s.pc.fence, s;
    acts', s1 := ThenTakeFile(start, acts, s, id, item);
    var s2 := s1.(trace := s.trace + [Write(Receive)], pc := Holding(f, Signalling(true)));
    acts' := Then(start, acts', s1, Worker(WriteReceive), s2);
    s' := s2.(trace := s.trace + [Write(Receive)] + [Signal(f)], pc := Idle);
    acts' := Then(start, acts', s2, Worker(SignalFence), s');
  }

  /**
   The first item received from the host gets id 2, the id of the resample event.  Once the guest asks to
   read it, the worker can be sent to consume a resample event that nobody raised, and blocks there.
   */
  lemma ItemIdCollides(start: State) returns (acts: seq<Action>)
    requires Quiet(start)
    ensures Runs(start, acts)
    ensures
      var s := Run(start, acts);
      s.pc.Holding? && s.pc.phase.Resampling? && s.resample == 0 && !Enabled(s, Worker(ConsumeResample))
  {
    var f, g := Fence(0, 1, 0, 1), Fence(0, 2, 0, 1);
    assert Runs(start, []) && Run(start, []) == start;
    hide Run, Runs, GoodActions;
    var s, s1, s2, s3;
    acts, s := ThenPoll(start, [], start, f);
    acts, s1 := ThenReceive(start, acts, s, 2, EventItem);
    acts, s2 := ThenPoll(start, acts, s1, g);
    acts, s3 := ThenResample(start, acts, s2, AnnounceEvent(2), AddReadEvent(2));
    acts := CollisionBlocks(start, acts, s3, g);
  }

  lemma CollisionBlocks(start: State, acts: seq<Action>, s: State, g: Fence) returns (acts': seq<Action>)
    requires Runs(start, acts) && s == Run(start, acts)
    requires s.pc == Idle && s.queue == [AddReadEvent(2), HandleFence(g)] && s.resample == 0
    requires 2 in s.items && s.items[2] == EventItem && RESAMPLE_ID in s.waitSet
    ensures Runs(start, acts')
    ensures
      var s := Run(start, acts');
      s.pc.Holding? && s.pc.phase.Resampling? && s.resample == 0
  {
    hide Run, Runs, GoodActions;
    var s1 := s.(queue := [HandleFence(g)], pc := Registering(AddReadEvent(2)));
    acts' := Then(start, acts, s, Worker(Pop), s1);
    var s2 := s1.(waitSet := s1.waitSet + {2}, added := s1.added + {2}, pc := Idle);
    acts' := Then(start, acts', s1, Worker(Register), s2);
    var s3 := s2.(queue := [], pc := Holding(g, Polling));
    acts' := Then(start, acts', s2, Worker(Pop), s3);
    var s4 := s3.(pc := Holding(g, Resampling));
    acts' := Then(start, acts', s3, Worker(Wait(RESAMPLE_ID)), s4);
  }

  /** The worker acts on its own event `id`, the resample or the kill event, although nobody has raised it. */
  predicate ActsUnraised(s: State, id: nat) {
    && s.pc.Holding?
    && ((id == RESAMPLE_ID && s.pc.phase.Resampling? && s.resample == 0)
       || (id == KILL_ID && s.pc.phase == Signalling(false) && !s.killed))
  }

  /** No item goes by the worker's own id `id`, nor will one. */
  predicate OnlyRaised(s: State, id: nat) {
    && id !in s.added && !ActsUnraised(s, id)
    && (forall j :: 0 <= j < |s.queue| ==> GoodJob(s.queue[j]))
    && (s.pc.Registering? ==> GoodJob(s.pc.job))
    && (s.guest.CreatingWatcher? ==> IsSentinelId(s.guest.id))
  }

  lemma OnlyRaisedGuestStep(s: State, g: GuestStep, id: nat)
    requires id in {RESAMPLE_ID, KILL_ID} && GuestEnabled(s, g) && GoodAction(Guest(g)) && OnlyRaised(s, id)
    ensures OnlyRaised(ApplyGuest(s, g), id)
  {
  }

  lemma OnlyRaisedWorkerStep(s: State, w: WorkerStep, id: nat)
    requires id in {RESAMPLE_ID, KILL_ID} && WorkerEnabled(s, w) && OnlyRaised(s, id)
    ensures OnlyRaised(ApplyWorker(s, w), id)
  {
  }

  lemma {:induction false} OnlyRaisedRun(s: State, acts: seq<Action>, id: nat)
    requires id in {RESAMPLE_ID, KILL_ID} && Runs(s, acts) && GoodActions(acts) && OnlyRaised(s, id)
    ensures OnlyRaised(Run(s, acts), id)
    decreases |acts|
  {
    if acts != [] {
      match acts[0] {
        case Guest(g) => OnlyRaisedGuestStep(s, g, id);
        case Worker(w) => OnlyRaisedWorkerStep(s, w, id);
        case Unregister(_) =>
      }
      OnlyRaisedRun(Apply(s, acts[0]), acts[1..], id);
    }
  }

  /**
   A run from `s`, with ids in their ranges, in which the worker acts on its event `id` without anybody having raised
   it.
   */
  ghost predicate CanActUnraised(s: State, id: nat) {
    exists acts :: Runs(s, acts) && GoodActions(acts) && ActsUnraised(Run(s, acts), id)
  }

  /**
   The worker can be sent to handle an event that nobody raised exactly when some item has been registered under that
   event's id.
   */
  lemma ActsUnraisedIff(s: State, id: nat)
    requires Quiet(s) && id in s.waitSet && ((id == RESAMPLE_ID && s.resample == 0) || (id == KILL_ID && !s.killed))
    ensures CanActUnraised(s, id) <==> id in s.added
  {
    if id in s.added {
      var f := Fence(0, 1, 0, 1);
      assert Runs(s, []) && Run(s, []) == s && GoodActions([]);
      hide Run, Runs, GoodActions;
      var acts, s1 := ThenPoll(s, [], s, f);
      var s2 := s1.(pc := Holding(f, Dispatch(id)));
      acts := Then(s, acts, s1, Worker(Wait(id)), s2);
      assert ActsUnraised(s2, id);
    } else if CanActUnraised(s, id) {
      var acts :| Runs(s, acts) && GoodActions(acts) && ActsUnraised(Run(s, acts), id);
      OnlyRaisedRun(s, acts, id);
    }
  }
}
