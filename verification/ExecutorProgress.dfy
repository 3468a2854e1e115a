/**
 * What the executor with a pool brings about: the scheduling loop hands over every ready task,
 * `cancel` ends it, a worked job has its whole effect, and a run without failures can always be
 * brought to Ok.
 */
module ExecutorProgress {
  import opened Digraph
  import opened TaskStatus
  import opened GraphExecutor
  import TaskGraph

  /** The loop by itself; `picks` is how the table yields the tasks. */
  ghost function Looping(e: Executor, picks: seq<Id>): Executor
    decreases |picks|
  {
    if picks == [] then e else Looping(ScheduleStep(e, picks[0]), picks[1..])
  }

  lemma {:induction false} LoopingConcat(e: Executor, a: seq<Id>, b: seq<Id>)
    ensures Looping(e, a + b) == Looping(Looping(e, a), b)
    decreases |a|
  {
    if a == [] {
      assert a + b == b;
    } else {
      assert (a + b)[1..] == a[1..] + b;
      LoopingConcat(ScheduleStep(e, a[0]), a[1..], b);
    }
  }

  /** The loop leaves everything but its own place, the running tasks and the jobs alone. */
  lemma LoopStep(e: Executor, pick: Id)
    ensures var e' := ScheduleStep(e, pick);
            && e'.graph == e.graph && e'.status == e.status && e'.log == e.log
            && e'.completedTasks == e.completedTasks && e'.completed == e.completed && e'.cancelled == e.cancelled
            && (e'.jobs == e.jobs || (e.scheduler.Enqueue? && e'.jobs == e.jobs + [Job(e.scheduler.id, Queued)]))
  {
    match e.scheduler
    case LoadCompleted =>
    case LoadCancelled =>
    case Scan(todo, ready) =>
    case ScanDeps(todo, ready, id, deps) =>
    case Dispatch(ready) =>
    case Guard(id, ready) =>
    case CountRunning(id, ready) =>
    case Enqueue(id, ready) =>
    case LoadResult =>
    case ReturnedOk =>
    case ReturnedCancelled =>
  }

  lemma CancelStep(e: Executor, a: Action)
    ensures Step(e, a).cancelled <==> e.cancelled || a.Cancel?
    ensures Step(e, a).scheduler.ReturnedCancelled? ==> e.scheduler.ReturnedCancelled? || e.cancelled
  {
    match a
    case Schedule(pick) => LoopStep(e, pick);
    case Work(_, _) =>
    case Cancel =>
  }

  /** In every run the flag is up exactly after a call of `cancel`, and only then is the error returned. */
  lemma {:induction false} CancelledIff(g: Graph, actions: seq<Action>)
    ensures var e := Run(Initial(g), actions);
            && (e.cancelled <==> Cancel in actions)
            && (e.scheduler.ReturnedCancelled? ==> Cancel in actions)
  {
    if actions != [] {
      var before, a := actions[..|actions| - 1], actions[|actions| - 1];
      assert actions == before + [a];
      CancelledIff(g, before);
      CancelStep(Run(Initial(g), before), a);
    }
  }

  // ---------------------------------------------------------------- ready tasks are handed over

  ghost predicate Handed(e: Executor, x: Id) {
    x in JobIds(e.jobs)
  }

  /** The pass that is under way has handed `x` over or is going to. */
  ghost predicate OnTheWay(e: Executor, x: Id) {
    Handed(e, x) ||
    match e.scheduler
    case LoadCancelled => true
    case Scan(todo, ready) => x in todo || x in ready
    case ScanDeps(todo, ready, id, deps) =>
      x in todo || x in ready || (x == id && forall d | d in deps :: d in Next(e.graph.rev, x))
    case Dispatch(ready) => x in ready
    case Guard(id, ready) => x == id || x in ready
    case CountRunning(id, ready) => x == id || x in ready
    case Enqueue(id, ready) => x == id || x in ready
    case _ => false
  }

  lemma JobIdsGrow(jobs: seq<Job>, job: Job)
    ensures JobIds(jobs + [job]) == JobIds(jobs) + {job.id}
  {
    forall x | x in JobIds(jobs) + {job.id} ensures x in JobIds(jobs + [job]) {
      if x == job.id {
        assert (jobs + [job])[|jobs|].id == x;
      } else {
        var i :| 0 <= i < |jobs| && jobs[i].id == x;
        assert (jobs + [job])[i].id == x;
      }
    }
  }

  lemma HandedStays(e: Executor, pick: Id, x: Id)
    requires Handed(e, x)
    ensures Handed(ScheduleStep(e, pick), x)
  {
    LoopStep(e, pick);
    if e.scheduler.Enqueue? {
      JobIdsGrow(e.jobs, Job(e.scheduler.id, Queued));
    }
  }

  lemma OnTheWayStep(e: Executor, pick: Id, x: Id)
    requires Inv(e) && !e.cancelled && TaskGraph.IsReady(e.status, e.graph.rev, x) && OnTheWay(e, x)
    ensures OnTheWay(ScheduleStep(e, pick), x)
  {
    if Handed(e, x) {
      HandedStays(e, pick, x);
    } else {
      match e.scheduler
      case Scan(todo, ready) =>
      case ScanDeps(todo, ready, id, deps) => if deps != [] { assert forall d | d in deps[1..] :: d in deps; }
      case Dispatch(ready) => if ready != [] { assert ready == [ready[0]] + ready[1..]; }
      case Guard(id, ready) =>
      case Enqueue(id, ready) => JobIdsGrow(e.jobs, Job(id, Queued));
      case _ =>
    }
  }

  lemma {:induction false} OnTheWayRun(e: Executor, picks: seq<Id>, x: Id)
    requires Inv(e) && !e.cancelled && TaskGraph.IsReady(e.status, e.graph.rev, x) && OnTheWay(e, x)
    ensures OnTheWay(Looping(e, picks), x)
    decreases |picks|
  {
    if picks != [] {
      OnTheWayStep(e, picks[0], x);
      LoopStep(e, picks[0]);
      StepInv(e, Schedule(picks[0]));
      OnTheWayRun(ScheduleStep(e, picks[0]), picks[1..], x);
    }
  }

  lemma PassBegins(e: Executor, pick: Id, x: Id)
    requires Inv(e) && e.scheduler.LoadCompleted? && TaskGraph.IsReady(e.status, e.graph.rev, x)
    ensures OnTheWay(ScheduleStep(e, pick), x)
  {
    if e.completed == |e.graph.tasks| {
      SubsetSize(e.completedTasks, e.graph.tasks);
      assert x in e.completedTasks;
    }
  }

  /**
   * From every reachable uncancelled state between two passes: when the loop by itself is between
   * two passes again, it has handed over every task that was ready, in whatever order the table
   * yields the tasks.
   */
  lemma ReadyIsHandedOver(g: Graph, before: seq<Action>, picks: seq<Id>, x: Id)
    requires picks != []
    ensures var e := Run(Initial(g), before);
            var e' := Looping(e, picks);
            e.scheduler.LoadCompleted? && !e.cancelled && TaskGraph.IsReady(e.status, g.rev, x) ==>
              (e'.scheduler.LoadCompleted? ==> x in JobIds(e'.jobs))
  {
    RunInv(g, before);
    var e := Run(Initial(g), before);
    if e.scheduler.LoadCompleted? && !e.cancelled && TaskGraph.IsReady(e.status, g.rev, x) {
      PassBegins(e, picks[0], x);
      LoopStep(e, picks[0]);
      StepInv(e, Schedule(picks[0]));
      OnTheWayRun(ScheduleStep(e, picks[0]), picks[1..], x);
    }
  }

  // ---------------------------------------------------------------- passes end

  predicate InPass(s: Scheduler) {
    !s.LoadCompleted? && !s.LoadResult? && !s.ReturnedOk? && !s.ReturnedCancelled?
  }

  function Phase(s: Scheduler): nat {
    if s.LoadCancelled? then 2 else if s.Scan? || s.ScanDeps? then 1 else 0
  }

  function Todo(s: Scheduler): nat {
    match s
    case Scan(todo, _) => |todo|
    case ScanDeps(todo, _, _, _) => |todo|
    case Dispatch(ready) => 4 * |ready|
    case Guard(_, ready) => 4 * |ready| + 3
    case CountRunning(_, ready) => 4 * |ready| + 2
    case Enqueue(_, ready) => 4 * |ready| + 1
    case _ => 0
  }

  function DepsLeft(s: Scheduler): nat {
    if s.ScanDeps? then |s.deps| + 1 else 0
  }

  /** The pass is nearer to its end. */
  predicate Nearer(s: Scheduler, s': Scheduler) {
    || Phase(s') < Phase(s)
    || (Phase(s') == Phase(s) && Todo(s') < Todo(s))
    || (Phase(s') == Phase(s) && Todo(s') == Todo(s) && DepsLeft(s') < DepsLeft(s))
  }

  lemma ScanNearer(e: Executor) returns (pick: Id)
    requires e.scheduler.Scan? && e.scheduler.todo <= e.status.Keys
    ensures Nearer(e.scheduler, ScheduleStep(e, pick).scheduler)
  {
    pick := 0;
    var todo := e.scheduler.todo;
    if todo != {} {
      pick :| pick in todo;
      assert |todo - {pick}| == |todo| - 1;
    }
  }

  lemma OtherNearer(e: Executor, pick: Id)
    requires InPass(e.scheduler) && !e.scheduler.Scan?
    ensures var s' := ScheduleStep(e, pick).scheduler; InPass(s') ==> Nearer(e.scheduler, s')
  {
    match e.scheduler
    case LoadCancelled =>
    case ScanDeps(todo, ready, id, deps) =>
    case Dispatch(ready) =>
    case Guard(id, ready) =>
    case CountRunning(id, ready) =>
    case Enqueue(id, ready) =>
  }

  /** Some pick brings the pass nearer to its end. */
  lemma PassStep(e: Executor) returns (pick: Id)
    requires Inv(e) && InPass(e.scheduler)
    ensures var s' := ScheduleStep(e, pick).scheduler; InPass(s') ==> Nearer(e.scheduler, s')
  {
    pick := 0;
    if e.scheduler.Scan? {
      pick := ScanNearer(e);
    } else {
      OtherNearer(e, pick);
    }
  }

  /** The pass under way can be ended by the loop itself: back at the count, or cancelled, at the result. */
  lemma {:induction false} PassEnds(e: Executor) returns (picks: seq<Id>)
    requires Inv(e) && InPass(e.scheduler)
    ensures Inv(Looping(e, picks)) && Looping(e, picks).cancelled == e.cancelled
    ensures Looping(e, picks).scheduler.LoadCompleted? || (e.cancelled && Looping(e, picks).scheduler.LoadResult?)
    decreases Phase(e.scheduler), Todo(e.scheduler), DepsLeft(e.scheduler)
  {
    var pick := PassStep(e);
    var e' := ScheduleStep(e, pick);
    LoopStep(e, pick);
    StepInv(e, Schedule(pick));
    if InPass(e'.scheduler) {
      picks := PassEnds(e');
      picks := [pick] + picks;
    } else {
      picks := [pick];
      assert Looping(e', picks[1..]) == e';
    }
  }

  /**
   * From every reachable uncancelled state between two passes with tasks left to complete, one pass
   * of the loop by itself comes back to the count, and has handed over all tasks that were ready.
   */
  lemma OnePassHandsOver(g: Graph, before: seq<Action>) returns (picks: seq<Id>)
    ensures var e := Run(Initial(g), before);
            e.scheduler.LoadCompleted? && Cancel !in before && e.completed != |g.tasks| ==>
              var e' := Looping(e, picks);
              && e'.scheduler.LoadCompleted?
              && picks != [] && forall x | TaskGraph.IsReady(e.status, g.rev, x) :: Handed(e', x)
  {
    RunInv(g, before);
    CancelledIff(g, before);
    var e := Run(Initial(g), before);
    picks := [0];
    if e.scheduler.LoadCompleted? && !e.cancelled && e.completed != |g.tasks| {
      LoopStep(e, 0);
      StepInv(e, Schedule(0));
      var rest := PassEnds(ScheduleStep(e, 0));
      picks := [0] + rest;
      assert picks[1..] == rest;
      forall x | TaskGraph.IsReady(e.status, g.rev, x) ensures Handed(Looping(e, picks), x) {
        ReadyIsHandedOver(g, before, picks, x);
      }
    }
  }

  // ---------------------------------------------------------------- cancel

  /** A job that the loop is about to create whatever happens. */
  function UnderWay(s: Scheduler): nat {
    if s.Guard? || s.CountRunning? || s.Enqueue? then 1 else 0
  }

  lemma CancelledStep(e: Executor, a: Action)
    requires e.cancelled
    ensures var e' := Step(e, a);
            e'.cancelled && |e'.jobs| + UnderWay(e'.scheduler) <= |e.jobs| + UnderWay(e.scheduler)
  {
    match a
    case Schedule(pick) =>
      match e.scheduler {
        case LoadCompleted =>
        case LoadCancelled =>
        case Scan(todo, ready) =>
        case ScanDeps(todo, ready, id, deps) =>
        case Dispatch(ready) =>
        case Guard(id, ready) =>
        case CountRunning(id, ready) =>
        case Enqueue(id, ready) =>
        case LoadResult =>
        case ReturnedOk =>
        case ReturnedCancelled =>
      }
    case Work(k, ok) =>
    case Cancel =>
  }

  lemma {:induction false} CancelledRun(e: Executor, actions: seq<Action>)
    requires e.cancelled
    ensures var e' := Run(e, actions);
            e'.cancelled && |e'.jobs| + UnderWay(e'.scheduler) <= |e.jobs| + UnderWay(e.scheduler)
  {
    if actions != [] {
      CancelledRun(e, actions[..|actions| - 1]);
      CancelledStep(Run(e, actions[..|actions| - 1]), actions[|actions| - 1]);
    }
  }

  /** After `cancel` at most one more job is ever created. */
  lemma CancelStopsDispatch(g: Graph, before: seq<Action>, after: seq<Action>)
    ensures var e := Run(Initial(g), before);
            |Run(Step(e, Cancel), after).jobs| <= |e.jobs| + 1
  {
    CancelledRun(Step(Run(Initial(g), before), Cancel), after);
  }

  lemma CancelledResult(e: Executor) returns (picks: seq<Id>)
    requires e.cancelled && !InPass(e.scheduler) && !e.scheduler.ReturnedOk?
    ensures Looping(e, picks).scheduler.ReturnedCancelled?
  {
    var e1 := ScheduleStep(e, 0);
    var e2 := ScheduleStep(e1, 0);
    var e3 := ScheduleStep(e2, 0);
    picks := [0, 0, 0];
    assert picks[1..] == [0, 0] && [0, 0][1..] == [0] && [0][1..] == [];
    assert Looping(e2, [0]) == e3;
    assert Looping(e1, [0, 0]) == e3;
  }

  /** After `cancel` the loop by itself returns the error, unless it has returned already. */
  lemma CancelEndsLoop(g: Graph, before: seq<Action>) returns (picks: seq<Id>)
    ensures var e := Run(Initial(g), before);
            Cancel in before && !e.scheduler.ReturnedOk? ==> Looping(e, picks).scheduler.ReturnedCancelled?
  {
    RunInv(g, before);
    CancelledIff(g, before);
    var e := Run(Initial(g), before);
    picks := [];
    if e.cancelled && InPass(e.scheduler) {
      picks := PassEnds(e);
    }
    if e.cancelled && !e.scheduler.ReturnedOk? {
      var rest := CancelledResult(Looping(e, picks));
      LoopingConcat(e, picks, rest);
      picks := picks + rest;
    }
  }

  // ---------------------------------------------------------------- a job by itself

  /** `n` steps of the worker that runs job `k`. */
  ghost function Working(e: Executor, k: nat, ok: bool, n: nat): Executor
    decreases n
  {
    if n == 0 then e else Step(Working(e, k, ok, n - 1), Work(k, ok))
  }

  /** Four steps of its worker bring a queued job to its end, with all its effects. */
  lemma JobAlone(e: Executor, k: nat, ok: bool)
    requires k < |e.jobs| && e.jobs[k].stage.Queued?
    ensures var id := e.jobs[k].id;
            Working(e, k, ok, 4) == e.(
              jobs := e.jobs[k := Job(id, Done(ok))],
              log := e.log + [Started(id), Finished(id, ok)],
              status := e.status[id := if ok then Completed else Failed],
              runningTasks := e.runningTasks - {id}, completedTasks := e.completedTasks + {id},
              running := e.running - 1, completed := e.completed + 1)
  {
    var id := e.jobs[k].id;
    var e1 := e.(jobs := e.jobs[k := Job(id, InBody)], log := e.log + [Started(id)]);
    assert Working(e, k, ok, 0) == e;
    assert Working(e, k, ok, 1) == e1;
    var e2 := e.(jobs := e.jobs[k := Job(id, Returned(ok))], log := e.log + [Started(id), Finished(id, ok)]);
    assert e1.log + [Finished(id, ok)] == e2.log && e1.jobs[k := Job(id, Returned(ok))] == e2.jobs;
    assert Working(e, k, ok, 2) == e2;
    var e3 := e2.(jobs := e.jobs[k := Job(id, Stored(ok))], status := e.status[id := Outcome(ok)]);
    assert e2.jobs[k := Job(id, Stored(ok))] == e3.jobs;
    assert Working(e, k, ok, 3) == e3;
    assert e3.jobs[k := Job(id, Done(ok))] == e.jobs[k := Job(id, Done(ok))];
    assert Working(e, k, ok, 4) == Step(e3, Work(k, ok));
  }

  // ---------------------------------------------------------------- a run without failures can finish

  lemma {:induction false} RunConcat(e: Executor, a: seq<Action>, b: seq<Action>)
    ensures Run(e, a + b) == Run(Run(e, a), b)
    decreases |b|
  {
    if b == [] {
      assert a + b == a;
    } else {
      var n := |b| - 1;
      RunConcat(e, a, b[..n]);
      assert (a + b)[..|a + b| - 1] == a + b[..n];
    }
  }

  lemma RunOne(e: Executor, a: Action)
    ensures Run(e, [a]) == Step(e, a)
  {
    assert [a][..0] == [];
  }

  /** The loop by itself, as a list of actions. */
  lemma {:induction false} LoopActions(e: Executor, picks: seq<Id>) returns (actions: seq<Action>)
    ensures Run(e, actions) == Looping(e, picks)
    decreases |picks|
  {
    if picks == [] {
      actions := [];
    } else {
      var rest := LoopActions(ScheduleStep(e, picks[0]), picks[1..]);
      actions := [Schedule(picks[0])] + rest;
      RunOne(e, Schedule(picks[0]));
      RunConcat(e, [Schedule(picks[0])], rest);
    }
  }

  ghost predicate NoFailures(log: seq<Event>) {
    forall x: Id :: Finished(x, false) !in log
  }

  /** A reachable state on the way to Ok. */
  ghost predicate Hopeful(e: Executor) {
    Inv(e) && !e.cancelled && NoFailures(e.log)
  }

  function StepsLeft(stage: Stage): nat {
    match stage
    case Queued => 4
    case InBody => 3
    case Returned(_) => 2
    case Stored(_) => 1
    case Done(_) => 0
  }

  function AllStepsLeft(jobs: seq<Job>): nat {
    if jobs == [] then 0 else StepsLeft(jobs[0].stage) + AllStepsLeft(jobs[1..])
  }

  lemma {:induction false} StageMoves(jobs: seq<Job>, k: nat, job: Job)
    requires k < |jobs| && StepsLeft(job.stage) < StepsLeft(jobs[k].stage)
    ensures AllStepsLeft(jobs[k := job]) < AllStepsLeft(jobs)
  {
    if k == 0 {
      assert jobs[k := job][1..] == jobs[1..];
    } else {
      assert jobs[k := job][1..] == jobs[1..][k - 1 := job];
      StageMoves(jobs[1..], k - 1, job);
    }
  }

  ghost predicate AllDone(jobs: seq<Job>) {
    forall k | 0 <= k < |jobs| :: jobs[k].stage.Done?
  }

  lemma JobIdsStay(jobs: seq<Job>, k: nat, stage: Stage)
    requires k < |jobs|
    ensures JobIds(jobs[k := jobs[k].(stage := stage)]) == JobIds(jobs)
  {
    var jobs' := jobs[k := jobs[k].(stage := stage)];
    forall x ensures x in JobIds(jobs) <==> x in JobIds(jobs') {
      if x in JobIds(jobs) {
        var i :| 0 <= i < |jobs| && jobs[i].id == x;
        assert jobs'[i].id == x;
      }
    }
  }

  /** What one step of a worker leaves alone, if a body that ends now succeeds. */
  lemma WorkEffect(e: Executor, k: nat) returns (stage: Stage)
    requires k < |e.jobs| && !e.jobs[k].stage.Done?
    ensures var e' := Step(e, Work(k, true));
            && e'.scheduler == e.scheduler && e'.graph == e.graph && e'.cancelled == e.cancelled
            && e'.jobs == e.jobs[k := e.jobs[k].(stage := stage)] && StepsLeft(stage) < StepsLeft(e.jobs[k].stage)
            && (e'.log == e.log || (exists ev: Event :: e'.log == e.log + [ev] && (ev.Started? || ev.ok)))
            && e.completedTasks <= e'.completedTasks
  {
    var e' := Step(e, Work(k, true));
    stage := e'.jobs[k].stage;
    match e.jobs[k].stage
    case Queued => assert e'.log == e.log + [Started(e.jobs[k].id)];
    case InBody => assert e'.log == e.log + [Finished(e.jobs[k].id, true)];
    case Returned(ok) =>
    case Stored(ok) =>
  }

  /** One step of a worker whose body, if it ends now, succeeds. */
  lemma WorkOn(e: Executor, k: nat)
    requires Hopeful(e) && k < |e.jobs| && !e.jobs[k].stage.Done?
    ensures var e' := Step(e, Work(k, true));
            && Hopeful(e') && e'.scheduler == e.scheduler && e'.graph == e.graph
            && JobIds(e.jobs) <= JobIds(e'.jobs) && e.completedTasks <= e'.completedTasks
            && AllStepsLeft(e'.jobs) < AllStepsLeft(e.jobs)
  {
    StepInv(e, Work(k, true));
    var stage := WorkEffect(e, k);
    StageMoves(e.jobs, k, e.jobs[k].(stage := stage));
    JobIdsStay(e.jobs, k, stage);
  }

  /** With every body succeeding, the workers can bring all jobs to their end. */
  lemma {:induction false} Drain(e: Executor) returns (actions: seq<Action>)
    requires Hopeful(e)
    ensures var e' := Run(e, actions);
            && Hopeful(e') && e'.scheduler == e.scheduler && e'.graph == e.graph
            && AllDone(e'.jobs) && JobIds(e.jobs) <= JobIds(e'.jobs) && e.completedTasks <= e'.completedTasks
    decreases AllStepsLeft(e.jobs)
  {
    if AllDone(e.jobs) {
      actions := [];
    } else {
      var k :| 0 <= k < |e.jobs| && !e.jobs[k].stage.Done?;
      WorkOn(e, k);
      var rest := Drain(Step(e, Work(k, true)));
      actions := [Work(k, true)] + rest;
      RunOne(e, Work(k, true));
      RunConcat(e, [Work(k, true)], rest);
    }
  }

  lemma {:induction false} LoopKeeps(e: Executor, picks: seq<Id>)
    ensures var e' := Looping(e, picks);
            && e'.graph == e.graph && e'.log == e.log && e'.cancelled == e.cancelled
            && e'.completedTasks == e.completedTasks
    decreases |picks|
  {
    if picks != [] {
      LoopStep(e, picks[0]);
      LoopKeeps(ScheduleStep(e, picks[0]), picks[1..]);
    }
  }

  /** The loop by itself comes back to its count, if it has not seen the count complete. */
  lemma BackToCount(e: Executor) returns (actions: seq<Action>)
    requires Hopeful(e) && (InPass(e.scheduler) || e.scheduler.LoadCompleted?)
    ensures var e' := Run(e, actions);
            && Hopeful(e') && e'.scheduler.LoadCompleted? && e'.graph == e.graph
            && e'.completedTasks == e.completedTasks
  {
    if e.scheduler.LoadCompleted? {
      actions := [];
    } else {
      var picks := PassEnds(e);
      actions := LoopActions(e, picks);
      LoopKeeps(e, picks);
    }
  }

  /** One more pass hands over the ready task `y`. */
  lemma OnePass(e: Executor, y: Id) returns (actions: seq<Action>)
    requires Hopeful(e) && e.scheduler.LoadCompleted? && e.completed < |e.graph.tasks|
    requires TaskGraph.IsReady(e.status, e.graph.rev, y)
    ensures var e' := Run(e, actions);
            && Hopeful(e') && e'.scheduler.LoadCompleted? && e'.graph == e.graph
            && e'.completedTasks == e.completedTasks && y in JobIds(e'.jobs)
  {
    var e1 := ScheduleStep(e, 0);
    LoopStep(e, 0);
    StepInv(e, Schedule(0));
    PassBegins(e, 0, y);
    var picks := PassEnds(e1);
    OnTheWayRun(e1, picks, y);
    LoopKeeps(e1, picks);
    var rest := LoopActions(e1, picks);
    actions := [Schedule(0)] + rest;
    RunOne(e, Schedule(0));
    RunConcat(e, [Schedule(0)], rest);
  }

  /** With all jobs done and tasks missing, one pass and the work it brings complete another task. */
  lemma OneRound(e: Executor, y: Id) returns (actions: seq<Action>)
    requires Hopeful(e) && e.scheduler.LoadCompleted? && e.completed < |e.graph.tasks|
    requires TaskGraph.IsReady(e.status, e.graph.rev, y) && y !in e.completedTasks
    ensures var e' := Run(e, actions);
            && Hopeful(e') && e'.scheduler.LoadCompleted? && e'.graph == e.graph && AllDone(e'.jobs)
            && e'.completed > e.completed
  {
    var pass := OnePass(e, y);
    var work := Drain(Run(e, pass));
    actions := pass + work;
    RunConcat(e, pass, work);
    var e' := Run(e, actions);
    var k :| 0 <= k < |e'.jobs| && e'.jobs[k].id == y;
    assert Placed(e'.jobs[k], e'.runningTasks, e'.completedTasks, InHand(e'.scheduler));
    SubsetSize(e.completedTasks + {y}, e'.completedTasks);
  }

  lemma NothingRuns(e: Executor)
    requires Inv(e) && e.scheduler.LoadCompleted? && AllDone(e.jobs)
    ensures e.runningTasks == {}
  {
    forall x | x in e.runningTasks ensures false {
      assert x in JobIds(e.jobs);
      var k :| 0 <= k < |e.jobs| && e.jobs[k].id == x;
    }
  }

  /** A ready task that has not run yet. */
  lemma NextTask(e: Executor) returns (y: Id)
    requires Hopeful(e) && Runnable(e.graph) && e.scheduler.LoadCompleted? && AllDone(e.jobs)
    requires e.completed < |e.graph.tasks|
    ensures TaskGraph.IsReady(e.status, e.graph.rev, y) && y !in e.completedTasks
  {
    NothingRuns(e);
    y := WorkIsReady(e);
    if y in e.completedTasks {
      StartedIfCompleted(e, y);
      assert false;
    }
  }

  ghost predicate ReturnsOk(e: Executor, actions: seq<Action>) {
    Run(e, actions).scheduler.ReturnedOk? && NoFailures(Run(e, actions).log)
  }

  lemma ThenReturnsOk(e: Executor, a: seq<Action>, b: seq<Action>)
    requires ReturnsOk(Run(e, a), b)
    ensures ReturnsOk(e, a + b)
  {
    RunConcat(e, a, b);
  }

  /** With the count complete, the loop returns Ok. */
  lemma CountComplete(e: Executor) returns (actions: seq<Action>)
    requires Hopeful(e)
    requires (e.scheduler.LoadCompleted? && e.completed == |e.graph.tasks|) || e.scheduler.LoadResult?
    ensures ReturnsOk(e, actions)
  {
    var e1 := ScheduleStep(e, 0);
    RunOne(e, Schedule(0));
    if e.scheduler.LoadResult? {
      actions := [Schedule(0)];
    } else {
      RunOne(e1, Schedule(0));
      actions := [Schedule(0)] + [Schedule(0)];
      ThenReturnsOk(e, [Schedule(0)], [Schedule(0)]);
    }
  }

  /** Round after round, all tasks complete. */
  lemma {:induction false} RoundsFinish(e: Executor) returns (actions: seq<Action>)
    requires Hopeful(e) && Runnable(e.graph) && e.scheduler.LoadCompleted? && AllDone(e.jobs)
    ensures ReturnsOk(e, actions)
    decreases |e.graph.tasks| - e.completed
  {
    if e.completed == |e.graph.tasks| {
      actions := CountComplete(e);
    } else {
      var y := NextTask(e);
      var round := OneRound(e, y);
      var rest := RoundsFinish(Run(e, round));
      actions := round + rest;
      ThenReturnsOk(e, round, rest);
    }
  }

  lemma Finish(e: Executor) returns (actions: seq<Action>)
    requires Hopeful(e) && Runnable(e.graph)
    ensures ReturnsOk(e, actions)
  {
    if InPass(e.scheduler) || e.scheduler.LoadCompleted? {
      var back := BackToCount(e);
      var work := Drain(Run(e, back));
      var rest := RoundsFinish(Run(Run(e, back), work));
      ThenReturnsOk(Run(e, back), work, rest);
      actions := back + (work + rest);
      ThenReturnsOk(e, back, work + rest);
    } else if e.scheduler.LoadResult? {
      actions := CountComplete(e);
    } else {
      actions := [];
    }
  }

  /**
   * Every run that was not cancelled and in which nothing has failed can be continued to the end:
   * `execute` returns Ok, every task having run, if the bodies still to end succeed.
   */
  lemma EveryRunCanFinish(g: Graph, before: seq<Action>) returns (after: seq<Action>)
    requires Runnable(g)
    ensures var e := Run(Initial(g), before);
            Cancel !in before && NoFailures(e.log) ==> ReturnsOk(Initial(g), before + after)
  {
    CancelledIff(g, before);
    RunInv(g, before);
    var e := Run(Initial(g), before);
    after := [];
    if !e.cancelled && NoFailures(e.log) {
      after := Finish(e);
      ThenReturnsOk(Initial(g), before, after);
    }
  }
}
