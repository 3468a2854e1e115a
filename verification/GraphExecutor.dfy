/**
 * `GraphExecutor::execute` with a thread pool, one transition per shared access of the scheduling
 * loop, of a pool worker running a task, or of a caller of `cancel`.
 *
 * The graph does not change during the run and all its tasks start out pending. A run is any list
 * of actions; an action that cannot happen leaves the state unchanged. Running without a pool is
 * the special case in which each job is worked to its end before the scheduler moves on.
 */
module GraphExecutor {
  import opened Digraph
  import opened TaskStatus
  import TaskGraph

  /** What the executor reads of a task graph. */
  datatype Graph = Graph(tasks: set<Id>, edges: Adjacency, rev: Adjacency)

  /** The graphs that pass `is_valid`. */
  ghost predicate Runnable(g: Graph) {
    Mirrored(g.edges, g.rev) && Within(g.edges, g.tasks) && Acyclic(g.edges)
  }

  /** The life of a submitted job: queued, in its body, status not stored yet, not counted yet, done. */
  datatype Stage = Queued | InBody | Returned(ok: bool) | Stored(ok: bool) | Done(ok: bool)

  datatype Job = Job(id: Id, stage: Stage)

  datatype Event = Started(id: Id) | Finished(id: Id, ok: bool)

  /** The next access of the scheduling loop. */
  datatype Scheduler =
    | LoadCompleted
    | LoadCancelled
    | Scan(todo: set<Id>, ready: seq<Id>)
    | ScanDeps(todo: set<Id>, ready: seq<Id>, id: Id, deps: seq<Id>)
    | Dispatch(ready: seq<Id>)
    | Guard(id: Id, ready: seq<Id>)
    | CountRunning(id: Id, ready: seq<Id>)
    | Enqueue(id: Id, ready: seq<Id>)
    | LoadResult
    | ReturnedOk
    | ReturnedCancelled

  datatype Executor = Executor(
    graph: Graph,
    status: map<Id, Status>,
    scheduler: Scheduler,
    runningTasks: set<Id>,
    completedTasks: set<Id>,
    running: int,
    completed: nat,
    cancelled: bool,
    jobs: seq<Job>,
    log: seq<Event>)

  /** `pick` is the task that the unordered table yields next; `ok` is how a task body ends. */
  datatype Action = Schedule(pick: Id) | Work(job: nat, ok: bool) | Cancel

  function Initial(g: Graph): Executor {
    Executor(g, map id | id in g.tasks :: Pending, LoadCompleted, {}, {}, 0, 0, false, [], [])
  }

  function ScheduleStep(e: Executor, pick: Id): Executor {
    match e.scheduler
    case LoadCompleted =>
      e.(scheduler := if e.completed == |e.graph.tasks| then LoadResult else LoadCancelled)
    case LoadCancelled =>
      e.(scheduler := if e.cancelled then LoadResult else Scan(e.graph.tasks, []))
    case Scan(todo, ready) =>
      if todo == {} then e.(scheduler := Dispatch(ready))
      else if pick !in todo || pick !in e.status then e
      else if !e.status[pick].Pending? then e.(scheduler := Scan(todo - {pick}, ready))
      else e.(scheduler := ScanDeps(todo - {pick}, ready, pick, Next(e.graph.rev, pick)))
    case ScanDeps(todo, ready, id, deps) =>
      if deps == [] then e.(scheduler := Scan(todo, ready + [id]))
      else if deps[0] !in e.status || !e.status[deps[0]].Completed? then e.(scheduler := Scan(todo, ready))
      else e.(scheduler := ScanDeps(todo, ready, id, deps[1..]))
    case Dispatch(ready) =>
      e.(scheduler := if ready == [] || e.cancelled then LoadCompleted else Guard(ready[0], ready[1..]))
    case Guard(id, ready) =>
      if id in e.runningTasks || id in e.completedTasks then e.(scheduler := Dispatch(ready))
      else e.(scheduler := CountRunning(id, ready), runningTasks := e.runningTasks + {id})
    case CountRunning(id, ready) =>
      e.(scheduler := Enqueue(id, ready), running := e.running + 1)
    case Enqueue(id, ready) =>
      e.(scheduler := Dispatch(ready), jobs := e.jobs + [Job(id, Queued)])
    case LoadResult =>
      e.(scheduler := if e.cancelled then ReturnedCancelled else ReturnedOk)
    case ReturnedOk => e
    case ReturnedCancelled => e
  }

  function Outcome(ok: bool): Status {
    if ok then Completed else Failed
  }

  function WithStage(e: Executor, k: nat, stage: Stage): Executor
    requires k < |e.jobs|
  {
    e.(jobs := e.jobs[k := e.jobs[k].(stage := stage)])
  }

  /** The next step of the worker that runs job `k`: `FunctionalTask::execute`, then `mark_completed`. */
  function WorkStep(e: Executor, k: nat, ok: bool): Executor {
    if k >= |e.jobs| then e
    else
      var id := e.jobs[k].id;
      match e.jobs[k].stage
      case Queued => WithStage(e, k, InBody).(log := e.log + [Started(id)])
      case InBody => WithStage(e, k, Returned(ok)).(log := e.log + [Finished(id, ok)])
      case Returned(ok) => WithStage(e, k, Stored(ok)).(status := e.status[id := Outcome(ok)])
      case Stored(ok) =>
        WithStage(e, k, Done(ok)).(
        runningTasks := e.runningTasks - {id},
        completedTasks := e.completedTasks + {id},
        running := e.running - 1,
        completed := e.completed + 1)
      case Done(_) => e
  }

  function Step(e: Executor, a: Action): Executor {
    match a
    case Schedule(pick) => ScheduleStep(e, pick)
    case Work(k, ok) => WorkStep(e, k, ok)
    case Cancel => e.(cancelled := true)
  }

  function Run(e: Executor, actions: seq<Action>): Executor {
    if actions == [] then e
    else Step(Run(e, actions[..|actions| - 1]), actions[|actions| - 1])
  }

  // ---------------------------------------------------------------- invariant

  /** The tasks that were ever handed to the pool. */
  function JobIds(jobs: seq<Job>): set<Id> {
    set i | 0 <= i < |jobs| :: jobs[i].id
  }

  /** All dependencies of a task of the graph have completed. */
  ghost predicate Eligible(g: Graph, status: map<Id, Status>, id: Id) {
    && id in g.tasks
    && forall d | d in Next(g.rev, id) :: d in status && status[d].Completed?
  }

  ghost predicate AllEligible(g: Graph, status: map<Id, Status>, ids: seq<Id>) {
    forall i | 0 <= i < |ids| :: Eligible(g, status, ids[i])
  }

  /** The task between its insertion into `running_tasks_` and its hand-over to the pool. */
  function InHand(s: Scheduler): set<Id> {
    if s.CountRunning? || s.Enqueue? then {s.id} else {}
  }

  ghost predicate Placed(job: Job, running: set<Id>, completed: set<Id>, inHand: set<Id>) {
    && job.id !in inHand
    && (job.id in completed <==> job.stage.Done?)
    && (job.id in running <==> !job.stage.Done?)
  }

  /** No task has two jobs, and the two sets say which jobs are under way and which are done. */
  ghost predicate JobsInv(jobs: seq<Job>, running: set<Id>, completed: set<Id>, inHand: set<Id>) {
    && (forall i, j | 0 <= i < j < |jobs| :: jobs[i].id != jobs[j].id)
    && (forall i | 0 <= i < |jobs| :: Placed(jobs[i], running, completed, inHand))
    && completed <= JobIds(jobs)
    && running - inHand <= JobIds(jobs)
  }

  ghost predicate CountersInv(e: Executor) {
    && e.completedTasks <= e.graph.tasks
    && e.runningTasks <= e.graph.tasks
    && e.completedTasks !! e.runningTasks
    && InHand(e.scheduler) <= e.runningTasks
    && e.completed == |e.completedTasks| <= |e.graph.tasks|
    && e.running == |e.runningTasks| - if e.scheduler.CountRunning? then 1 else 0
  }

  ghost predicate Shown(status: map<Id, Status>, job: Job) {
    && job.id in status
    && status[job.id] == if job.stage.Stored? || job.stage.Done? then Outcome(job.stage.ok) else Pending
  }

  /** A status is pending until the job stores it. */
  ghost predicate StatusInv(g: Graph, status: map<Id, Status>, jobs: seq<Job>) {
    && status.Keys == g.tasks
    && (forall x | x in status && !status[x].Pending? :: x in JobIds(jobs))
    && (forall i | 0 <= i < |jobs| :: Eligible(g, status, jobs[i].id) && Shown(status, jobs[i]))
  }

  ghost predicate SchedulerInv(g: Graph, status: map<Id, Status>, s: Scheduler) {
    match s
    case Scan(todo, ready) => todo <= g.tasks && AllEligible(g, status, ready)
    case ScanDeps(todo, ready, id, deps) =>
      && todo <= g.tasks && AllEligible(g, status, ready)
      && id in g.tasks
      && (forall d | d in Next(g.rev, id) :: d in deps || (d in status && status[d].Completed?))
    case Dispatch(ready) => AllEligible(g, status, ready)
    case Guard(id, ready) => Eligible(g, status, id) && AllEligible(g, status, ready)
    case CountRunning(id, ready) => Eligible(g, status, id) && AllEligible(g, status, ready)
    case Enqueue(id, ready) => Eligible(g, status, id) && AllEligible(g, status, ready)
    case _ => true
  }

  ghost predicate ResultInv(e: Executor) {
    && (e.scheduler.LoadResult? ==> e.completed == |e.graph.tasks| || e.cancelled)
    && (e.scheduler.ReturnedOk? ==> e.completed == |e.graph.tasks|)
    && (e.scheduler.ReturnedCancelled? ==> e.cancelled)
  }

  /** Each body starts once, after the bodies of all its predecessors have returned success. */
  ghost predicate StartsInOrder(rev: Adjacency, log: seq<Event>) {
    forall k | 0 <= k < |log| && log[k].Started? ::
      && log[k] !in log[..k]
      && forall d | d in Next(rev, log[k].id) :: Finished(d, true) in log[..k]
  }

  /** The log knows exactly as much about a job as its stage says. */
  ghost predicate Recorded(log: seq<Event>, job: Job) {
    && (Started(job.id) in log <==> !job.stage.Queued?)
    && (forall ok :: Finished(job.id, ok) in log <==>
                     !job.stage.Queued? && !job.stage.InBody? && job.stage.ok == ok)
  }

  ghost predicate LogInv(rev: Adjacency, log: seq<Event>, jobs: seq<Job>) {
    && StartsInOrder(rev, log)
    && (forall k | 0 <= k < |log| :: log[k].id in JobIds(jobs))
    && (forall i | 0 <= i < |jobs| :: Recorded(log, jobs[i]))
  }

  ghost predicate Inv(e: Executor) {
    && JobsInv(e.jobs, e.runningTasks, e.completedTasks, InHand(e.scheduler))
    && CountersInv(e)
    && StatusInv(e.graph, e.status, e.jobs)
    && SchedulerInv(e.graph, e.status, e.scheduler)
    && ResultInv(e)
    && LogInv(e.graph.rev, e.log, e.jobs)
  }

  // ---------------------------------------------------------------- preservation

  /** Completed tasks stay completed, so what was eligible stays eligible. */
  lemma SchedulerInvKept(g: Graph, status: map<Id, Status>, status': map<Id, Status>, s: Scheduler)
    requires SchedulerInv(g, status, s)
    requires forall d | d in status && status[d].Completed? :: d in status' && status'[d].Completed?
    ensures SchedulerInv(g, status', s)
  {}

  lemma ScanDepsInv(g: Graph, status: map<Id, Status>, s: Scheduler, s': Scheduler)
    requires SchedulerInv(g, status, s) && s.ScanDeps?
    requires s' == if s.deps == [] then Scan(s.todo, s.ready + [s.id])
                   else if s.deps[0] !in status || !status[s.deps[0]].Completed? then Scan(s.todo, s.ready)
                   else ScanDeps(s.todo, s.ready, s.id, s.deps[1..])
    ensures SchedulerInv(g, status, s')
  {
    if s.deps != [] {
      assert forall d | d in s.deps :: d == s.deps[0] || d in s.deps[1..];
    }
  }

  lemma OwnPlace(e: Executor, pick: Id)
    requires CountersInv(e) && SchedulerInv(e.graph, e.status, e.scheduler) && ResultInv(e)
    requires !e.scheduler.Guard? && !e.scheduler.Enqueue?
    ensures var e' := ScheduleStep(e, pick);
            && e' == e.(scheduler := e'.scheduler, running := e'.running)
            && InHand(e'.scheduler) == InHand(e.scheduler)
            && CountersInv(e')
            && SchedulerInv(e.graph, e.status, e'.scheduler)
            && ResultInv(e')
  {
    match e.scheduler
    case ScanDeps(_, _, _, _) => ScanDepsInv(e.graph, e.status, e.scheduler, ScheduleStep(e, pick).scheduler);
    case _ =>
  }

  /** The loads of the scheduling loop change nothing but its own place. */
  lemma OwnPlaceInv(e: Executor, pick: Id)
    requires Inv(e) && !e.scheduler.Guard? && !e.scheduler.Enqueue?
    ensures Inv(ScheduleStep(e, pick))
  {
    var e' := ScheduleStep(e, pick);
    OwnPlace(e, pick);
    assert Inv(e.(scheduler := e'.scheduler, running := e'.running));
  }

  lemma GuardInv(e: Executor, pick: Id)
    requires Inv(e) && e.scheduler.Guard?
    ensures Inv(ScheduleStep(e, pick))
  {
    var e' := ScheduleStep(e, pick);
    var id := e.scheduler.id;
    if id !in e.runningTasks && id !in e.completedTasks {
      forall i | 0 <= i < |e.jobs|
        ensures Placed(e.jobs[i], e'.runningTasks, e'.completedTasks, InHand(e'.scheduler))
      {
        assert Placed(e.jobs[i], e.runningTasks, e.completedTasks, InHand(e.scheduler));
      }
    }
  }

  /** Appending a job for `id`. */
  lemma JobIdsAppend(jobs: seq<Job>, job: Job)
    ensures JobIds(jobs + [job]) == JobIds(jobs) + {job.id}
  {
    var more := jobs + [job];
    assert more[|jobs|] == job;
    forall x | x in JobIds(jobs) ensures x in JobIds(more) {
      var i :| 0 <= i < |jobs| && jobs[i].id == x;
      assert more[i] == jobs[i];
    }
  }

  lemma EnqueueInv(e: Executor, pick: Id)
    requires Inv(e) && e.scheduler.Enqueue?
    ensures Inv(ScheduleStep(e, pick))
  {
    var e' := ScheduleStep(e, pick);
    var id := e.scheduler.id;
    JobIdsAppend(e.jobs, Job(id, Queued));
    assert id !in JobIds(e.jobs);
    forall i | 0 <= i < |e'.jobs|
      ensures Placed(e'.jobs[i], e'.runningTasks, e'.completedTasks, InHand(e'.scheduler))
    {
      if i < |e.jobs| {
        assert Placed(e.jobs[i], e.runningTasks, e.completedTasks, InHand(e.scheduler));
      }
    }
    assert StatusInv(e'.graph, e'.status, e'.jobs);
    forall i | 0 <= i < |e'.jobs| ensures Recorded(e'.log, e'.jobs[i]) {
      if i < |e.jobs| {
        assert Recorded(e.log, e.jobs[i]);
      }
    }
  }

  lemma ScheduleStepInv(e: Executor, pick: Id)
    requires Inv(e)
    ensures Inv(ScheduleStep(e, pick))
  {
    if e.scheduler.Guard? {
      GuardInv(e, pick);
    } else if e.scheduler.Enqueue? {
      EnqueueInv(e, pick);
    } else {
      OwnPlaceInv(e, pick);
    }
  }

  /** Moving a job to another stage. */
  lemma JobIdsRestage(jobs: seq<Job>, k: nat, stage: Stage)
    requires k < |jobs|
    ensures JobIds(jobs[k := jobs[k].(stage := stage)]) == JobIds(jobs)
  {
    var more := jobs[k := jobs[k].(stage := stage)];
    forall x ensures x in JobIds(jobs) <==> x in JobIds(more) {
      if x in JobIds(jobs) {
        var i :| 0 <= i < |jobs| && jobs[i].id == x;
        assert more[i].id == x;
      }
    }
  }

  /** A job that is not done may move to any other stage that is not done. */
  lemma JobsInvRestage(e: Executor, k: nat, stage: Stage)
    requires Inv(e) && k < |e.jobs| && !e.jobs[k].stage.Done? && !stage.Done?
    ensures JobsInv(e.jobs[k := e.jobs[k].(stage := stage)], e.runningTasks, e.completedTasks, InHand(e.scheduler))
  {
    JobIdsRestage(e.jobs, k, stage);
    var jobs := e.jobs[k := e.jobs[k].(stage := stage)];
    forall i | 0 <= i < |jobs| ensures Placed(jobs[i], e.runningTasks, e.completedTasks, InHand(e.scheduler)) {
      assert Placed(e.jobs[i], e.runningTasks, e.completedTasks, InHand(e.scheduler));
    }
  }

  lemma StatusInvRestage(e: Executor, k: nat, stage: Stage)
    requires Inv(e) && k < |e.jobs|
    requires Shown(e.status, e.jobs[k].(stage := stage))
    ensures StatusInv(e.graph, e.status, e.jobs[k := e.jobs[k].(stage := stage)])
  {
    JobIdsRestage(e.jobs, k, stage);
    var jobs := e.jobs[k := e.jobs[k].(stage := stage)];
    forall i | 0 <= i < |jobs| ensures Eligible(e.graph, e.status, jobs[i].id) && Shown(e.status, jobs[i]) {
      assert Eligible(e.graph, e.status, e.jobs[i].id) && Shown(e.status, e.jobs[i]);
    }
  }

  /** Events about another task do not change what the log records about a job. */
  lemma RecordedKept(log: seq<Event>, log': seq<Event>, job: Job, other: Id)
    requires Recorded(log, job) && log <= log' && other != job.id
    requires forall j | |log| <= j < |log'| :: log'[j].id == other
    ensures Recorded(log', job)
  {
    forall ev: Event | ev.id == job.id ensures ev in log <==> ev in log' {
      if ev in log {
        var j :| 0 <= j < |log| && log[j] == ev;
        assert log'[j] == ev;
      }
    }
  }

  lemma LogInvRestage(e: Executor, k: nat, stage: Stage, log: seq<Event>)
    requires Inv(e) && k < |e.jobs|
    requires e.log <= log && StartsInOrder(e.graph.rev, log)
    requires forall j | |e.log| <= j < |log| :: log[j].id == e.jobs[k].id
    requires Recorded(log, e.jobs[k].(stage := stage))
    ensures LogInv(e.graph.rev, log, e.jobs[k := e.jobs[k].(stage := stage)])
  {
    JobIdsRestage(e.jobs, k, stage);
    var jobs := e.jobs[k := e.jobs[k].(stage := stage)];
    forall i | 0 <= i < |jobs| ensures Recorded(log, jobs[i]) {
      assert Recorded(e.log, e.jobs[i]);
      if i != k {
        RecordedKept(e.log, log, e.jobs[i], e.jobs[k].id);
      }
    }
  }

  lemma AppendStarted(rev: Adjacency, log: seq<Event>, id: Id)
    requires StartsInOrder(rev, log) && Started(id) !in log
    requires forall d | d in Next(rev, id) :: Finished(d, true) in log
    ensures StartsInOrder(rev, log + [Started(id)])
  {
    var log' := log + [Started(id)];
    forall k | 0 <= k < |log'| && log'[k].Started?
      ensures log'[k] !in log'[..k] && forall d | d in Next(rev, log'[k].id) :: Finished(d, true) in log'[..k]
    {
      assert log'[..k] == log[..k];
      assert k == |log| ==> log[..k] == log;
    }
  }

  lemma StartInv(e: Executor, k: nat, ok: bool)
    requires Inv(e) && k < |e.jobs| && e.jobs[k].stage.Queued?
    ensures Inv(WorkStep(e, k, ok))
  {
    var id := e.jobs[k].id;
    forall d | d in Next(e.graph.rev, id) ensures Finished(d, true) in e.log {
      assert Eligible(e.graph, e.status, id);
      assert e.status[d].Completed?;
      var i :| 0 <= i < |e.jobs| && e.jobs[i].id == d;
      assert Shown(e.status, e.jobs[i]) && Recorded(e.log, e.jobs[i]);
    }
    assert Recorded(e.log, e.jobs[k]);
    AppendStarted(e.graph.rev, e.log, id);
    JobsInvRestage(e, k, InBody);
    assert Shown(e.status, e.jobs[k]);
    StatusInvRestage(e, k, InBody);
    LogInvRestage(e, k, InBody, e.log + [Started(id)]);
  }

  lemma AppendFinished(rev: Adjacency, log: seq<Event>, id: Id, ok: bool)
    requires StartsInOrder(rev, log)
    ensures StartsInOrder(rev, log + [Finished(id, ok)])
  {
    var log' := log + [Finished(id, ok)];
    forall k | 0 <= k < |log'| && log'[k].Started?
      ensures log'[k] !in log'[..k] && forall d | d in Next(rev, log'[k].id) :: Finished(d, true) in log'[..k]
    {
      assert log'[..k] == log[..k];
    }
  }

  lemma FinishInv(e: Executor, k: nat, ok: bool)
    requires Inv(e) && k < |e.jobs| && e.jobs[k].stage.InBody?
    ensures Inv(WorkStep(e, k, ok))
  {
    var id := e.jobs[k].id;
    assert Recorded(e.log, e.jobs[k]) && Shown(e.status, e.jobs[k]);
    AppendFinished(e.graph.rev, e.log, id, ok);
    JobsInvRestage(e, k, Returned(ok));
    StatusInvRestage(e, k, Returned(ok));
    LogInvRestage(e, k, Returned(ok), e.log + [Finished(id, ok)]);
  }

  lemma StatusInvStore(g: Graph, status: map<Id, Status>, jobs: seq<Job>, k: nat)
    requires StatusInv(g, status, jobs) && k < |jobs| && jobs[k].stage.Returned?
    requires forall i, j | 0 <= i < j < |jobs| :: jobs[i].id != jobs[j].id
    ensures StatusInv(g, status[jobs[k].id := Outcome(jobs[k].stage.ok)],
                      jobs[k := jobs[k].(stage := Stored(jobs[k].stage.ok))])
  {
    var stage := Stored(jobs[k].stage.ok);
    var jobs' := jobs[k := jobs[k].(stage := stage)];
    var status' := status[jobs[k].id := Outcome(jobs[k].stage.ok)];
    JobIdsRestage(jobs, k, stage);
    assert Shown(status, jobs[k]);
    forall i | 0 <= i < |jobs'| ensures Eligible(g, status', jobs'[i].id) && Shown(status', jobs'[i]) {
      assert Eligible(g, status, jobs[i].id) && Shown(status, jobs[i]);
    }
  }

  lemma StoreInv(e: Executor, k: nat, ok: bool)
    requires Inv(e) && k < |e.jobs| && e.jobs[k].stage.Returned?
    ensures Inv(WorkStep(e, k, ok))
  {
    var e' := WorkStep(e, k, ok);
    var stage := Stored(e.jobs[k].stage.ok);
    assert Recorded(e.log, e.jobs[k]) && Shown(e.status, e.jobs[k]);
    JobIdsRestage(e.jobs, k, stage);
    JobsInvRestage(e, k, stage);
    LogInvRestage(e, k, stage, e.log);
    SchedulerInvKept(e.graph, e.status, e'.status, e.scheduler);
    StatusInvStore(e.graph, e.status, e.jobs, k);
  }

  lemma JobsInvDone(jobs: seq<Job>, running: set<Id>, completed: set<Id>, inHand: set<Id>, k: nat, stage: Stage)
    requires JobsInv(jobs, running, completed, inHand) && k < |jobs| && stage.Done?
    ensures JobsInv(jobs[k := jobs[k].(stage := stage)], running - {jobs[k].id}, completed + {jobs[k].id}, inHand)
  {
    JobIdsRestage(jobs, k, stage);
    var jobs' := jobs[k := jobs[k].(stage := stage)];
    forall i | 0 <= i < |jobs'|
      ensures Placed(jobs'[i], running - {jobs[k].id}, completed + {jobs[k].id}, inHand)
    {
      assert Placed(jobs[i], running, completed, inHand);
    }
  }

  lemma {:induction false} SubsetSize(a: set<Id>, b: set<Id>)
    requires a <= b
    ensures |a| <= |b|
    ensures |a| == |b| ==> a == b
  {
    if x :| x in a {
      SubsetSize(a - {x}, b - {x});
    }
  }

  lemma MarkInv(e: Executor, k: nat, ok: bool)
    requires Inv(e) && k < |e.jobs| && e.jobs[k].stage.Stored?
    ensures Inv(WorkStep(e, k, ok))
  {
    var e' := WorkStep(e, k, ok);
    var stage := Done(e.jobs[k].stage.ok);
    assert Recorded(e.log, e.jobs[k]) && Shown(e.status, e.jobs[k]);
    assert Placed(e.jobs[k], e.runningTasks, e.completedTasks, InHand(e.scheduler));
    StatusInvRestage(e, k, stage);
    LogInvRestage(e, k, stage, e.log);
    JobsInvDone(e.jobs, e.runningTasks, e.completedTasks, InHand(e.scheduler), k, stage);
    SubsetSize(e'.completedTasks, e.graph.tasks);
    assert CountersInv(e');
  }

  lemma WorkStepInv(e: Executor, k: nat, ok: bool)
    requires Inv(e)
    ensures Inv(WorkStep(e, k, ok))
  {
    if k < |e.jobs| {
      match e.jobs[k].stage
      case Queued => StartInv(e, k, ok);
      case InBody => FinishInv(e, k, ok);
      case Returned(_) => StoreInv(e, k, ok);
      case Stored(_) => MarkInv(e, k, ok);
      case Done(_) =>
    }
  }

  lemma {:induction false} Missing(a: set<Id>, b: set<Id>) returns (x: Id)
    requires |a| < |b|
    ensures x in b && x !in a
  {
    x :| x in b;
    if x in a {
      x := Missing(a - {x}, b - {x});
    }
  }

  lemma StepInv(e: Executor, a: Action)
    requires Inv(e)
    ensures Inv(Step(e, a))
  {
    match a
    case Schedule(pick) => ScheduleStepInv(e, pick);
    case Work(k, ok) => WorkStepInv(e, k, ok);
    case Cancel =>
  }

  lemma StepKeepsGraph(e: Executor, a: Action)
    ensures Step(e, a).graph == e.graph
  {}

  lemma InitialInv(g: Graph)
    ensures Inv(Initial(g))
  {}

  lemma {:induction false} RunInv(g: Graph, actions: seq<Action>)
    ensures Inv(Run(Initial(g), actions))
    ensures Run(Initial(g), actions).graph == g
  {
    if actions == [] {
      InitialInv(g);
    } else {
      var before := actions[..|actions| - 1];
      RunInv(g, before);
      StepInv(Run(Initial(g), before), actions[|actions| - 1]);
      StepKeepsGraph(Run(Initial(g), before), actions[|actions| - 1]);
    }
  }

  // ---------------------------------------------------------------- what every run guarantees

  /** Each body starts at most once, and only after every predecessor's body returned success. */
  lemma BodiesStartOnceAndInOrder(g: Graph, actions: seq<Action>)
    ensures StartsInOrder(g.rev, Run(Initial(g), actions).log)
  {
    RunInv(g, actions);
  }

  ghost predicate HasStarted(e: Executor, x: Id) {
    Started(x) in e.log
  }

  ghost predicate HasFailed(e: Executor, x: Id) {
    Finished(x, false) in e.log
  }

  /** A strict descendant of a failed task. */
  ghost predicate Doomed(e: Executor, x: Id) {
    exists f: Id :: HasFailed(e, f) && Leads(e.graph.edges, f, x)
  }

  lemma LoggedJob(e: Executor, ev: Event) returns (k: nat)
    requires Inv(e) && ev in e.log
    ensures k < |e.jobs| && e.jobs[k].id == ev.id
    ensures Recorded(e.log, e.jobs[k]) && Shown(e.status, e.jobs[k])
  {
    k :| 0 <= k < |e.jobs| && e.jobs[k].id == ev.id;
  }

  /** A body that has returned was started, and returned only one verdict. */
  ghost predicate OneVerdict(log: seq<Event>) {
    forall d: Id | Finished(d, true) in log :: Started(d) in log && Finished(d, false) !in log
  }

  lemma InvOneVerdict(e: Executor)
    requires Inv(e)
    ensures OneVerdict(e.log)
  {
    forall d: Id | Finished(d, true) in e.log ensures Started(d) in e.log && Finished(d, false) !in e.log {
      var k := LoggedJob(e, Finished(d, true));
    }
  }

  /** Every strict ancestor of a started task has returned success, and nothing else. */
  lemma {:induction false} AncestorsSucceeded(g: Graph, log: seq<Event>, p: seq<Id>, x: Id)
    requires StartsInOrder(g.rev, log) && OneVerdict(log) && Mirrored(g.edges, g.rev)
    requires IsPath(g.edges, p) && |p| >= 2 && p[|p| - 1] == x && Started(x) in log
    ensures Finished(p[0], true) in log && Finished(p[0], false) !in log
    decreases |p|
  {
    var d := p[|p| - 2];
    assert Edge(g.edges, p[|p| - 2], p[|p| - 2 + 1]);
    MirroredEdge(g.edges, g.rev, d, x);
    var k :| 0 <= k < |log| && log[k] == Started(x);
    assert Finished(d, true) in log[..k];
    if |p| > 2 {
      var q := p[..|p| - 1];
      forall i | 0 <= i < |q| - 1 ensures Edge(g.edges, q[i], q[i + 1]) {
        assert Edge(g.edges, p[i], p[i + 1]);
      }
      AncestorsSucceeded(g, log, q, d);
    }
  }

  /** No strict descendant of a failed task ever runs. */
  lemma DoomedNeverStart(g: Graph, actions: seq<Action>, x: Id)
    requires Mirrored(g.edges, g.rev)
    ensures var e := Run(Initial(g), actions);
            Doomed(e, x) ==> !HasStarted(e, x)
  {
    RunInv(g, actions);
    var e := Run(Initial(g), actions);
    InvOneVerdict(e);
    if Doomed(e, x) && HasStarted(e, x) {
      var f: Id :| HasFailed(e, f) && Leads(g.edges, f, x);
      var p: seq<Id> :| PathBetween(g.edges, p, f, x);
      AncestorsSucceeded(g, e.log, p, x);
      assert false;
    }
  }

  /**
   * Walking up from a pending task of an acyclic graph, one meets a task that is ready or one that
   * failed; `path` is the walk so far.
   */
  lemma {:induction false} ReadyOrBlocked(g: Graph, status: map<Id, Status>, path: seq<Id>) returns (y: Id)
    requires Runnable(g) && status.Keys == g.tasks
    requires forall d | d in status :: status[d].Pending? || status[d].Completed? || status[d].Failed?
    requires path != [] && IsPath(g.edges, path) && (forall i | 0 <= i < |path| :: path[i] in g.tasks)
    requires path[0] in status && status[path[0]].Pending?
    ensures y in status
    ensures status[y].Failed? || TaskGraph.IsReady(status, g.rev, y)
    ensures Leads(g.edges, y, path[|path| - 1]) || (TaskGraph.IsReady(status, g.rev, y) && y == path[|path| - 1])
    decreases |g.tasks| - |path|
  {
    var x := path[0];
    if TaskGraph.IsReady(status, g.rev, x) {
      y := x;
      if |path| > 1 {
        SubPath(g.edges, path, 0, |path| - 1);
      }
    } else {
      var d :| d in Next(g.rev, x) && !(d in status && status[d].Completed?);
      MirroredEdge(g.edges, g.rev, d, x);
      var longer := [d] + path;
      forall i | 0 <= i < |longer| - 1 ensures Edge(g.edges, longer[i], longer[i + 1]) {
        if i > 0 { assert Edge(g.edges, path[i - 1], path[i - 1 + 1]); }
      }
      AcyclicPathIsShort(g.edges, g.tasks, longer);
      if status[d].Failed? {
        y := d;
        SubPath(g.edges, longer, 0, |longer| - 1);
      } else {
        y := ReadyOrBlocked(g, status, longer);
      }
    }
  }

  /** Nothing runs, is queued or could be picked up. */
  ghost predicate Quiescent(e: Executor) {
    e.runningTasks == {} && forall id :: !TaskGraph.IsReady(e.status, e.graph.rev, id)
  }

  lemma StatusKinds(e: Executor)
    requires Inv(e)
    ensures forall d | d in e.status :: e.status[d].Pending? || e.status[d].Completed? || e.status[d].Failed?
    ensures forall d | d in e.status && e.status[d].Failed? :: HasFailed(e, d)
    ensures e.runningTasks == {} ==> forall d | d in e.status && !e.status[d].Pending? :: HasStarted(e, d)
  {
    forall d | d in e.status && !e.status[d].Pending?
      ensures e.status[d].Completed? || e.status[d].Failed?
      ensures e.status[d].Failed? ==> HasFailed(e, d)
      ensures HasStarted(e, d)
    {
      var k :| 0 <= k < |e.jobs| && e.jobs[k].id == d;
      assert Shown(e.status, e.jobs[k]) && Recorded(e.log, e.jobs[k]);
    }
  }

  /** Once nothing is running or ready, exactly the tasks that no failed task leads to have run. */
  lemma QuiescentRanAllButDoomed(g: Graph, actions: seq<Action>, x: Id)
    requires Runnable(g) && x in g.tasks
    ensures var e := Run(Initial(g), actions);
            Quiescent(e) ==> (HasStarted(e, x) <==> !Doomed(e, x))
  {
    RunInv(g, actions);
    var e := Run(Initial(g), actions);
    if Quiescent(e) {
      StatusKinds(e);
      if HasStarted(e, x) {
        DoomedNeverStart(g, actions, x);
      } else {
        var y := ReadyOrBlocked(g, e.status, [x]);
      }
    }
  }

  lemma StartedIfCompleted(e: Executor, x: Id)
    requires Inv(e) && x in e.completedTasks
    ensures HasStarted(e, x) && (Finished(x, true) in e.log <==> !HasFailed(e, x))
  {
    var k :| 0 <= k < |e.jobs| && e.jobs[k].id == x;
    assert Placed(e.jobs[k], e.runningTasks, e.completedTasks, InHand(e.scheduler));
    assert Recorded(e.log, e.jobs[k]);
  }

  /** When all tasks are counted, a failed one has no dependents: those would not have run. */
  lemma CompletedFailureIsFinal(g: Graph, actions: seq<Action>, f: Id, b: Id)
    requires Mirrored(g.edges, g.rev) && Within(g.edges, g.tasks)
    ensures var e := Run(Initial(g), actions);
            e.completed == |g.tasks| && HasFailed(e, f) ==> !Edge(g.edges, f, b)
  {
    RunInv(g, actions);
    var e := Run(Initial(g), actions);
    if e.completed == |g.tasks| && HasFailed(e, f) && Edge(g.edges, f, b) {
      SubsetSize(e.completedTasks, g.tasks);
      EdgeLeads(g.edges, f, b);
      StartedIfCompleted(e, b);
      DoomedNeverStart(g, actions, b);
      assert false;
    }
  }

  /**
   * `execute` returning Ok means that every task ran to its end, so that only tasks without
   * dependents can have failed.
   */
  lemma OkMeansAllRan(g: Graph, actions: seq<Action>, x: Id)
    requires Mirrored(g.edges, g.rev) && Within(g.edges, g.tasks) && x in g.tasks
    ensures var e := Run(Initial(g), actions);
            e.scheduler.ReturnedOk? ==>
              && HasStarted(e, x)
              && (Finished(x, true) in e.log <==> !HasFailed(e, x))
              && (HasFailed(e, x) ==> forall b: Id :: !Edge(g.edges, x, b))
  {
    RunInv(g, actions);
    var e := Run(Initial(g), actions);
    if e.scheduler.ReturnedOk? {
      SubsetSize(e.completedTasks, g.tasks);
      StartedIfCompleted(e, x);
      if HasFailed(e, x) {
        forall b: Id ensures !Edge(g.edges, x, b) {
          CompletedFailureIsFinal(g, actions, x, b);
        }
      }
    }
  }

  lemma PendingUnlessCompleted(e: Executor, x: Id)
    requires Inv(e) && e.runningTasks == {} && x in e.graph.tasks - e.completedTasks
    ensures e.status[x].Pending?
  {}

  lemma MissingIsDoomed(g: Graph, actions: seq<Action>, x: Id)
    requires Runnable(g)
    ensures var e := Run(Initial(g), actions);
            Quiescent(e) && x in g.tasks - e.completedTasks ==> Doomed(e, x)
  {
    RunInv(g, actions);
    var e := Run(Initial(g), actions);
    if Quiescent(e) && x in g.tasks - e.completedTasks {
      QuiescentRanAllButDoomed(g, actions, x);
      PendingUnlessCompleted(e, x);
      if HasStarted(e, x) {
        var k := LoggedJob(e, Started(x));
        assert false;
      }
    }
  }

  /**
   * Once nothing is running or ready, the loop's condition for returning Ok holds exactly when no
   * failed task has a dependent.
   */
  lemma CompleteIffFailuresAreFinal(g: Graph, actions: seq<Action>)
    requires Runnable(g)
    ensures var e := Run(Initial(g), actions);
            Quiescent(e) ==>
              (e.completed == |g.tasks| <==> forall f, b: Id :: HasFailed(e, f) ==> !Edge(g.edges, f, b))
  {
    RunInv(g, actions);
    var e := Run(Initial(g), actions);
    if Quiescent(e) {
      if e.completed == |g.tasks| {
        forall f, b: Id | HasFailed(e, f) ensures !Edge(g.edges, f, b) {
          CompletedFailureIsFinal(g, actions, f, b);
        }
      } else {
        var x := Missing(e.completedTasks, g.tasks);
        MissingIsDoomed(g, actions, x);
        var f: Id :| HasFailed(e, f) && Leads(g.edges, f, x);
        var b := FirstEdge(g.edges, f, x);
      }
    }
  }

  /** Walking up from a task that is missing, without failures on the way, one meets a ready task. */
  lemma WorkIsReady(e: Executor) returns (y: Id)
    requires Inv(e) && Runnable(e.graph)
    requires e.completed < |e.graph.tasks| && e.runningTasks == {} && forall f :: !HasFailed(e, f)
    ensures TaskGraph.IsReady(e.status, e.graph.rev, y) && !HasStarted(e, y)
  {
    StatusKinds(e);
    var x := Missing(e.completedTasks, e.graph.tasks);
    PendingUnlessCompleted(e, x);
    y := ReadyOrBlocked(e.graph, e.status, [x]);
    if HasStarted(e, y) {
      var k := LoggedJob(e, Started(y));
      assert false;
    }
  }

  /** Without failures there is always work: while tasks remain and none is running, one is ready. */
  lemma SomethingIsReady(g: Graph, actions: seq<Action>) returns (y: Id)
    requires Runnable(g)
    ensures var e := Run(Initial(g), actions);
            e.completed < |g.tasks| && e.runningTasks == {} && (forall f :: !HasFailed(e, f)) ==>
              TaskGraph.IsReady(e.status, g.rev, y) && !HasStarted(e, y)
  {
    RunInv(g, actions);
    var e := Run(Initial(g), actions);
    y := 0;
    if e.completed < |g.tasks| && e.runningTasks == {} && (forall f :: !HasFailed(e, f)) {
      y := WorkIsReady(e);
    }
  }
}
