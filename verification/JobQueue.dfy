/**
 The job queue that any number of threads fill and the worker empties: one mutex, one condition variable.
 A step is one operation on either.
 */
module JobQueue {
  import WorkerProtocol

  type Job = WorkerProtocol.Job

  /** A thread inside `add_job`. */
  datatype Adder = Locking(job: Job) | Pushing(job: Job) | Notifying

  /** The worker's place in `wait_for_job`; the mutex is released while it sleeps and taken again after. */
  datatype Waiter = Outside | Entering | Popping | Asleep | Relocking

  datatype Owner = Free | Worker | Thread(id: nat)

  datatype Queue = Queue(
    jobs: seq<Job>, owner: Owner, waiter: Waiter, adders: map<nat, Adder>,
    // history
    added: seq<Job>, taken: seq<Job>)

  const EMPTY: Queue := Queue([], Free, Outside, map[], [], [])

  datatype Step =
    | BeginAdd(id: nat, job: Job)
    | LockAdd(id: nat)
    | Push(id: nat)
    | NotifyAndUnlock(id: nat)
    | BeginWait
    | Lock
    | Pop
    | Sleep
    | WakeUp      // for no reason

  predicate Enabled(q: Queue, a: Step) {
    match a
    case BeginAdd(id, _) => id !in q.adders
    case LockAdd(id) => id in q.adders && q.adders[id].Locking? && q.owner == Free
    case Push(id) => id in q.adders && q.adders[id].Pushing?
    case NotifyAndUnlock(id) => id in q.adders && q.adders[id].Notifying?
    case BeginWait => q.waiter == Outside
    case Lock => q.waiter in {Entering, Relocking} && q.owner == Free
    case Pop => q.waiter == Popping && q.jobs != []
    case Sleep => q.waiter == Popping && q.jobs == []
    case WakeUp => q.waiter == Asleep
  }

  function Apply(q: Queue, a: Step): Queue
    requires Enabled(q, a)
  {
    match a
    case BeginAdd(id, job) => q.(adders := q.adders[id := Locking(job)])
    case LockAdd(id) => q.(owner := Thread(id), adders := q.adders[id := Pushing(q.adders[id].job)])
    case Push(id) =>
      var job := q.adders[id].job;
      q.(jobs := q.jobs + [job], added := q.added + [job], adders := q.adders[id := Notifying])
    case NotifyAndUnlock(id) =>
      q.(owner := Free, adders := q.adders - {id}, waiter := if q.waiter == Asleep then Relocking else q.waiter)
    case BeginWait => q.(waiter := Entering)
    case Lock => q.(owner := Worker, waiter := Popping)
    case Pop => q.(jobs := q.jobs[1..], taken := q.taken + [q.jobs[0]], owner := Free, waiter := Outside)
    case Sleep => q.(owner := Free, waiter := Asleep)
    case WakeUp => q.(waiter := Relocking)
  }

  predicate Runs(q: Queue, acts: seq<Step>)
    decreases |acts|
  {
    acts != [] ==> Enabled(q, acts[0]) && Runs(Apply(q, acts[0]), acts[1..])
  }

  function Run(q: Queue, acts: seq<Step>): Queue
    requires Runs(q, acts)
    decreases |acts|
  {
    if acts == [] then q else Run(Apply(q, acts[0]), acts[1..])
  }

  /** The owner of the mutex is the one thread that is past taking it. */
  predicate Exclusive(q: Queue) {
    && (q.waiter == Popping <==> q.owner == Worker)
    && (forall id :: id in q.adders ==> (!q.adders[id].Locking? <==> q.owner == Thread(id)))
    && (q.owner.Thread? ==> q.owner.id in q.adders)
  }

  /** Some thread has pushed and will notify next. */
  predicate NotificationPending(q: Queue) {
    q.owner.Thread? && q.owner.id in q.adders && q.adders[q.owner.id].Notifying?
  }

  predicate Sound(q: Queue) {
    && Exclusive(q)
    && q.added == q.taken + q.jobs
    && (q.waiter == Asleep && !NotificationPending(q) ==> q.jobs == [])
  }

  lemma SoundStep(q: Queue, a: Step)
    requires Enabled(q, a) && Sound(q)
    ensures Sound(Apply(q, a))
  {
    if a.Pop? {
      assert q.jobs == [q.jobs[0]] + q.jobs[1..];
    }
  }

  lemma {:induction false} SoundRun(q: Queue, acts: seq<Step>)
    requires Runs(q, acts) && Sound(q)
    ensures Sound(Run(q, acts))
    decreases |acts|
  {
    if acts != [] {
      SoundStep(q, acts[0]);
      SoundRun(Apply(q, acts[0]), acts[1..]);
    }
  }

  /** In every interleaving the jobs come out exactly once and in the order in which they went in. */
  lemma JobsInOrder(acts: seq<Step>)
    requires Runs(EMPTY, acts)
    ensures Run(EMPTY, acts).taken <= Run(EMPTY, acts).added
    ensures Run(EMPTY, acts).added == Run(EMPTY, acts).taken + Run(EMPTY, acts).jobs
  {
    SoundRun(EMPTY, acts);
  }

  /** In every interleaving, a worker that is asleep while no notification is on its way has nothing to do. */
  lemma NoLostWakeup(acts: seq<Step>)
    requires Runs(EMPTY, acts)
    requires Run(EMPTY, acts).waiter == Asleep && !NotificationPending(Run(EMPTY, acts))
    ensures Run(EMPTY, acts).jobs == []
  {
    SoundRun(EMPTY, acts);
  }

  /**
   In every interleaving, while the worker is inside `wait_for_job` and there is a job, some thread in the middle of a
   call can go on: the owner of the mutex, or the worker.
   */
  lemma NeverStuck(acts: seq<Step>) returns (a: Step)
    requires Runs(EMPTY, acts) && Run(EMPTY, acts).waiter != Outside && Run(EMPTY, acts).jobs != []
    ensures Enabled(Run(EMPTY, acts), a) && !a.BeginAdd? && !a.BeginWait? && !a.WakeUp?
  {
    SoundRun(EMPTY, acts);
    var q := Run(EMPTY, acts);
    match q.owner
    case Free => a := Lock;
    case Worker => a := Pop;
    case Thread(id) => a := if q.adders[id].Pushing? then Push(id) else NotifyAndUnlock(id);
  }

  /**
   How many more steps of the worker and of the thread that owns the mutex stand between the worker and its next job.
   */
  function StepsToJob(q: Queue): nat {
    (match q.owner
     case Free => 0
     case Worker => 0
     case Thread(id) => if id in q.adders && q.adders[id].Pushing? then 2 else 1)
    + (match q.waiter
       case Outside => 0
       case Popping => 1
       case _ => 2)
  }

  /** Each step that `NeverStuck` finds brings the job nearer. */
  lemma JobComesNearer(acts: seq<Step>)
    requires Runs(EMPTY, acts) && Run(EMPTY, acts).waiter != Outside && Run(EMPTY, acts).jobs != []
    ensures
      var q := Run(EMPTY, acts);
      forall a :: Enabled(q, a) && (a.Lock? || a.Pop? || a.Push? || a.NotifyAndUnlock?) ==>
        StepsToJob(Apply(q, a)) < StepsToJob(q)
  {
    SoundRun(EMPTY, acts);
  }

  // ---------------------------------------------------------------------------
  // The queue as a single step
  // ---------------------------------------------------------------------------

  /** What a run does to the queue: only a push and a pop touch it. */
  datatype Op = Put(job: Job) | Take(job: Job)

  function Observed(q: Queue, acts: seq<Step>): seq<Op>
    requires Runs(q, acts)
    decreases |acts|
  {
    if acts == [] then []
    else
      (match acts[0]
       case Push(id) => [Put(q.adders[id].job)]
       case Pop => [Take(q.jobs[0])]
       case _ => [])
      + Observed(Apply(q, acts[0]), acts[1..])
  }

  /** The queue that adds a job at its end and takes one from its front, each in one step. */
  predicate AtomicRuns(jobs: seq<Job>, ops: seq<Op>)
    decreases |ops|
  {
    ops != [] ==>
      if ops[0].Put? then AtomicRuns(jobs + [ops[0].job], ops[1..])
      else jobs != [] && ops[0].job == jobs[0] && AtomicRuns(jobs[1..], ops[1..])
  }

  function AtomicRun(jobs: seq<Job>, ops: seq<Op>): seq<Job>
    requires AtomicRuns(jobs, ops)
    decreases |ops|
  {
    if ops == [] then jobs
    else if ops[0].Put? then AtomicRun(jobs + [ops[0].job], ops[1..])
    else AtomicRun(jobs[1..], ops[1..])
  }

  /**
   Read at its pushes and pops, every run of the threads, the mutex and the condition variable is a run of the queue
   with single steps, and ends with the same jobs in it.
   */
  lemma {:induction false} RunsAtomically(q: Queue, acts: seq<Step>)
    requires Runs(q, acts)
    ensures AtomicRuns(q.jobs, Observed(q, acts)) && AtomicRun(q.jobs, Observed(q, acts)) == Run(q, acts).jobs
    decreases |acts|
  {
    if acts != [] {
      var next := Apply(q, acts[0]);
      RunsAtomically(next, acts[1..]);
      var rest := Observed(next, acts[1..]);
      match acts[0]
      case Push(id) => assert ([Put(q.adders[id].job)] + rest)[1..] == rest;
      case Pop => assert ([Take(q.jobs[0])] + rest)[1..] == rest;
      case _ => assert [] + rest == rest;
    }
  }

  /** The jobs that a run of the single-step queue takes, in order. */
  function Taken(ops: seq<Op>): seq<Job>
    decreases |ops|
  {
    if ops == [] then [] else (if ops[0].Take? then [ops[0].job] else []) + Taken(ops[1..])
  }

  /** What the worker has been given is what it takes in the run with single steps. */
  lemma {:induction false} TakenAsObserved(q: Queue, acts: seq<Step>)
    requires Runs(q, acts)
    ensures Run(q, acts).taken == q.taken + Taken(Observed(q, acts))
    decreases |acts|
  {
    if acts == [] {
      assert q.taken + [] == q.taken;
    } else {
      var next := Apply(q, acts[0]);
      TakenAsObserved(next, acts[1..]);
      var rest := Observed(next, acts[1..]);
      match acts[0]
      case Push(id) => assert ([Put(q.adders[id].job)] + rest)[1..] == rest;
      case Pop =>
        assert ([Take(q.jobs[0])] + rest)[1..] == rest;
        assert q.taken + ([q.jobs[0]] + Taken(rest)) == (q.taken + [q.jobs[0]]) + Taken(rest);
      case _ => assert [] + rest == rest;
    }
  }
}
