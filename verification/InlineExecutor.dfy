/**
 * `GraphExecutor::execute` without a thread pool: every ready task runs on the calling thread.
 * `bodies(id)` says whether the body of task `id` returns success.
 */
module InlineExecutor {
  import opened Digraph
  import opened Sequences
  import opened TaskStatus
  import TaskGraph
  import Exec = GraphExecutor

  datatype Result = Ok | InvalidArgument | StillLooping

  /** The statuses when `execute` is called, and how the bodies end. */
  datatype Setup = Setup(initial: map<Id, Status>, bodies: Id -> bool)

  predicate CompletedBefore(w: Setup, x: Id) {
    x in w.initial && w.initial[x].Completed?
  }

  predicate PendingBefore(w: Setup, x: Id) {
    x in w.initial && w.initial[x].Pending?
  }

  ghost predicate AllPending(status: map<Id, Status>) {
    forall x | x in status :: status[x].Pending?
  }

  /** The edges that a task may have to wait for: those from tasks not completed beforehand. */
  ghost function OpenEdges(g: Exec.Graph, w: Setup): Adjacency {
    map a | a in g.edges && !CompletedBefore(w, a) :: g.edges[a]
  }

  /** A task that will never be completed, whatever it depends on. */
  predicate Blocks(w: Setup, f: Id) {
    f in w.initial && !CompletedBefore(w, f) && (PendingBefore(w, f) ==> !w.bodies(f))
  }

  /** The pending tasks that nothing blocks. */
  ghost function Unblocked(g: Exec.Graph, w: Setup): set<Id> {
    set x | x in g.tasks && PendingBefore(w, x) && !(exists f :: Blocks(w, f) && Leads(OpenEdges(g, w), f, x))
  }

  /** Nothing depends on a task whose body fails. */
  ghost predicate FailuresAreFinal(g: Exec.Graph, bodies: Id -> bool) {
    forall f, b: Id | f in g.tasks && Edge(g.edges, f, b) :: bodies(f)
  }

  /** Dependency `d` was completed beforehand, or has run and succeeded. */
  predicate Satisfied(w: Setup, done: set<Id>, d: Id) {
    CompletedBefore(w, d) || (d in done && w.bodies(d))
  }

  ghost predicate AllSatisfied(g: Exec.Graph, w: Setup, done: set<Id>, x: Id) {
    forall d | d in Next(g.rev, x) :: Satisfied(w, done, d)
  }

  /** Only pending tasks ran, after all their dependencies were satisfied. */
  ghost predicate Justified(g: Exec.Graph, w: Setup, done: set<Id>) {
    && done <= g.tasks == w.initial.Keys
    && (forall x | x in done :: PendingBefore(w, x))
    && (forall x | x in done :: AllSatisfied(g, w, done, x))
  }

  /** Between rounds a status says exactly whether its task ran, and how it ended. */
  ghost predicate StatusesShow(status: map<Id, Status>, w: Setup, done: set<Id>) {
    && status.Keys == w.initial.Keys
    && forall x | x in status :: status[x] == if x in done then Exec.Outcome(w.bodies(x)) else w.initial[x]
  }

  lemma {:induction false} AncestorsRan(g: Exec.Graph, w: Setup, done: set<Id>, p: seq<Id>)
    requires Mirrored(g.edges, g.rev) && Justified(g, w, done)
    requires IsPath(OpenEdges(g, w), p) && |p| >= 2 && p[|p| - 1] in done
    ensures p[0] in done && w.bodies(p[0])
    decreases |p|
  {
    var d := p[|p| - 2];
    assert Edge(OpenEdges(g, w), p[|p| - 2], p[|p| - 2 + 1]);
    MirroredEdge(g.edges, g.rev, d, p[|p| - 1]);
    assert AllSatisfied(g, w, done, p[|p| - 1]);
    assert Satisfied(w, done, d);
    if |p| > 2 {
      var q := p[..|p| - 1];
      forall i | 0 <= i < |q| - 1 ensures Edge(OpenEdges(g, w), q[i], q[i + 1]) {
        assert Edge(OpenEdges(g, w), p[i], p[i + 1]);
      }
      AncestorsRan(g, w, done, q);
    }
  }

  lemma JustifiedIsUnblocked(g: Exec.Graph, w: Setup, done: set<Id>)
    requires Mirrored(g.edges, g.rev) && Justified(g, w, done)
    ensures done <= Unblocked(g, w)
  {
    forall x, f | x in done && Blocks(w, f) && Leads(OpenEdges(g, w), f, x) ensures false {
      var p: seq<Id> :| PathBetween(OpenEdges(g, w), p, f, x);
      AncestorsRan(g, w, done, p);
    }
  }

  /** A dependency that is not completed now was not completed beforehand, and blocks or waits itself. */
  lemma OpenDependency(g: Exec.Graph, w: Setup, status: map<Id, Status>, done: set<Id>, d: Id, x: Id)
    requires Mirrored(g.edges, g.rev) && Within(g.edges, g.tasks)
    requires Justified(g, w, done) && StatusesShow(status, w, done)
    requires d in Next(g.rev, x) && !(d in status && status[d].Completed?)
    ensures Edge(g.edges, d, x) && Edge(OpenEdges(g, w), d, x) && d in g.tasks
    ensures Blocks(w, d) || (PendingBefore(w, d) && d !in done)
  {
    MirroredEdge(g.edges, g.rev, d, x);
  }

  lemma Prepend(m: Adjacency, d: Id, path: seq<Id>)
    requires path != [] && IsPath(m, path) && Edge(m, d, path[0])
    ensures IsPath(m, [d] + path)
  {
    var longer := [d] + path;
    forall i | 0 <= i < |longer| - 1 ensures Edge(m, longer[i], longer[i + 1]) {
      if i > 0 { assert Edge(m, path[i - 1], path[i - 1 + 1]); }
    }
  }

  /**
   * When no task is ready, walking up from a pending task that has not run one meets a task that
   * blocks it; `path` is the walk so far.
   */
  lemma {:induction false} BlockedAbove(g: Exec.Graph, w: Setup, status: map<Id, Status>, done: set<Id>, path: seq<Id>)
    returns (f: Id)
    requires Exec.Runnable(g) && Justified(g, w, done) && StatusesShow(status, w, done)
    requires forall x: Id :: !TaskGraph.IsReady(status, g.rev, x)
    requires path != [] && IsPath(g.edges, path) && IsPath(OpenEdges(g, w), path)
    requires (forall i | 0 <= i < |path| :: path[i] in g.tasks) && PendingBefore(w, path[0]) && path[0] !in done
    ensures Blocks(w, f) && Leads(OpenEdges(g, w), f, path[|path| - 1])
    decreases |g.tasks| - |path|
  {
    assert !TaskGraph.IsReady(status, g.rev, path[0]);
    var d :| d in Next(g.rev, path[0]) && !(d in status && status[d].Completed?);
    OpenDependency(g, w, status, done, d, path[0]);
    var longer := [d] + path;
    Prepend(g.edges, d, path);
    Prepend(OpenEdges(g, w), d, path);
    AcyclicPathIsShort(g.edges, g.tasks, longer);
    if Blocks(w, d) {
      f := d;
      assert PathBetween(OpenEdges(g, w), longer, d, path[|path| - 1]);
    } else {
      f := BlockedAbove(g, w, status, done, longer);
    }
  }

  /** When no task is ready, exactly the unblocked tasks have run. */
  lemma StuckRanAllUnblocked(g: Exec.Graph, status: map<Id, Status>, w: Setup, done: set<Id>)
    requires Exec.Runnable(g) && Justified(g, w, done) && StatusesShow(status, w, done)
    requires forall x: Id :: !TaskGraph.IsReady(status, g.rev, x)
    ensures done == Unblocked(g, w)
  {
    JustifiedIsUnblocked(g, w, done);
    forall x | x in Unblocked(g, w) ensures x in done {
      if x !in done {
        var f := BlockedAbove(g, w, status, done, [x]);
        assert false;
      }
    }
  }

  /** All tasks are unblocked exactly when all were pending and no failing task has a dependent. */
  lemma AllUnblocked(g: Exec.Graph, w: Setup)
    requires Within(g.edges, g.tasks) && g.tasks == w.initial.Keys
    ensures Unblocked(g, w) == g.tasks <==> AllPending(w.initial) && FailuresAreFinal(g, w.bodies)
  {
    if Unblocked(g, w) == g.tasks {
      forall x | x in w.initial ensures w.initial[x].Pending? {
        assert x in Unblocked(g, w);
      }
      forall f, b: Id | f in g.tasks && Edge(g.edges, f, b) ensures w.bodies(f) {
        EdgeLeads(OpenEdges(g, w), f, b);
        assert b in Unblocked(g, w);
      }
    }
    if AllPending(w.initial) && FailuresAreFinal(g, w.bodies) {
      forall f, x | Blocks(w, f) && Leads(OpenEdges(g, w), f, x) ensures false {
        var b := FirstEdge(OpenEdges(g, w), f, x);
        assert Edge(g.edges, f, b);
      }
    }
  }

  /** Task `x` was pending and has not run, and its dependencies are satisfied. */
  ghost predicate MayRun(g: Exec.Graph, w: Setup, done: set<Id>, x: Id) {
    x in g.tasks && PendingBefore(w, x) && x !in done && AllSatisfied(g, w, done, x)
  }

  ghost predicate AllMayRun(g: Exec.Graph, w: Setup, done: set<Id>, ready: seq<Id>) {
    NoDuplicates(ready) && forall i | 0 <= i < |ready| :: MayRun(g, w, done, ready[i])
  }

  /** What was satisfied stays so. */
  lemma SatisfiedGrows(g: Exec.Graph, w: Setup, done: set<Id>, y: Id, x: Id)
    requires AllSatisfied(g, w, done, x)
    ensures AllSatisfied(g, w, done + {y}, x)
  {
    forall d | d in Next(g.rev, x) ensures Satisfied(w, done + {y}, d) {
      assert Satisfied(w, done, d);
    }
  }

  /** Running the first task of a ready list leaves the others fit to run. */
  lemma RunFirst(g: Exec.Graph, w: Setup, done: set<Id>, ready: seq<Id>)
    requires AllMayRun(g, w, done, ready) && ready != []
    ensures MayRun(g, w, done, ready[0])
    ensures AllMayRun(g, w, done + {ready[0]}, ready[1..])
    ensures done + Elements(ready) == (done + {ready[0]}) + Elements(ready[1..])
  {
    forall i | 0 <= i < |ready[1..]| ensures MayRun(g, w, done + {ready[0]}, ready[1..][i]) {
      assert MayRun(g, w, done, ready[i + 1]);
      SatisfiedGrows(g, w, done, ready[0], ready[i + 1]);
    }
  }

  lemma JustifiedGrows(g: Exec.Graph, w: Setup, done: set<Id>, y: Id)
    requires Justified(g, w, done) && MayRun(g, w, done, y)
    ensures Justified(g, w, done + {y})
  {
    forall x | x in done + {y} ensures AllSatisfied(g, w, done + {y}, x) {
      SatisfiedGrows(g, w, done, y, x);
    }
  }

  /** Being ready is a matter of which tasks ran and how. */
  lemma ReadyIsMayRun(g: Exec.Graph, status: map<Id, Status>, w: Setup, done: set<Id>, x: Id)
    requires Justified(g, w, done) && StatusesShow(status, w, done)
    ensures TaskGraph.IsReady(status, g.rev, x) <==> MayRun(g, w, done, x)
  {}

  /** One round that runs the ready tasks, as seen from outside. */
  lemma RoundProgress(g: Exec.Graph, status: map<Id, Status>, w: Setup, done: set<Id>, done': set<Id>)
    requires Exec.Runnable(g) && Justified(g, w, done) && StatusesShow(status, w, done)
    requires forall x: Id :: x in done' <==> x in done || TaskGraph.IsReady(status, g.rev, x)
    ensures |done'| > |done| || (done' == done == Unblocked(g, w))
  {
    if x: Id :| TaskGraph.IsReady(status, g.rev, x) {
      ReadyIsMayRun(g, status, w, done, x);
      Exec.SubsetSize(done + {x}, done');
    } else {
      StuckRanAllUnblocked(g, status, w, done);
    }
  }

  /** What the counters say at the end about which tasks ran. */
  lemma Conclusion(g: Exec.Graph, w: Setup, done: set<Id>)
    requires Mirrored(g.edges, g.rev) && Within(g.edges, g.tasks) && Justified(g, w, done)
    ensures |done| <= |Unblocked(g, w)| <= |g.tasks|
    ensures |done| == |Unblocked(g, w)| ==> done == Unblocked(g, w)
    ensures |done| == |g.tasks| ==> done == g.tasks == Unblocked(g, w)
    ensures Unblocked(g, w) == g.tasks <==> AllPending(w.initial) && FailuresAreFinal(g, w.bodies)
  {
    JustifiedIsUnblocked(g, w, done);
    AllUnblocked(g, w);
    Exec.SubsetSize(done, Unblocked(g, w));
    Exec.SubsetSize(Unblocked(g, w), g.tasks);
    Exec.SubsetSize(done, g.tasks);
  }

  class Executor {
    var runningTasks: set<Id>
    var completedTasks: set<Id>
    var running: int
    var completed: nat

    constructor ()
      ensures runningTasks == {} && completedTasks == {} && running == 0 && completed == 0
    {
      runningTasks, completedTasks, running, completed := {}, {}, 0, 0;
    }

    ghost function GraphOf(graph: TaskGraph.TaskGraph): Exec.Graph
      reads graph
    {
      Exec.Graph(graph.tasks.Keys, graph.edges, graph.revEdges)
    }

    /** The state between two tasks. */
    ghost predicate Settled(graph: TaskGraph.TaskGraph, w: Setup)
      reads this, graph
    {
      && runningTasks == {} && running == 0
      && completed == |completedTasks|
      && Justified(GraphOf(graph), w, completedTasks)
      && StatusesShow(graph.tasks, w, completedTasks)
    }

    method MarkCompleted(id: Id)
      modifies this
      ensures runningTasks == old(runningTasks) - {id} && completedTasks == old(completedTasks) + {id}
      ensures running == old(running) - 1 && completed == old(completed) + 1
    {
      runningTasks := runningTasks - {id};
      completedTasks := completedTasks + {id};
      running := running - 1;
      completed := completed + 1;
    }

    /** Insertion into `running_tasks_`, the body, and the bookkeeping after it. */
    method RunTask(graph: TaskGraph.TaskGraph, w: Setup, id: Id)
      requires Settled(graph, w) && MayRun(GraphOf(graph), w, completedTasks, id)
      modifies this, graph`tasks
      ensures Settled(graph, w)
      ensures GraphOf(graph) == old(GraphOf(graph))
      ensures completedTasks == old(completedTasks) + {id}
    {
      runningTasks := runningTasks + {id};
      running := running + 1;
      graph.tasks := graph.tasks[id := Exec.Outcome(w.bodies(id))];
      assert GraphOf(graph) == old(GraphOf(graph));
      JustifiedGrows(GraphOf(graph), w, completedTasks, id);
      MarkCompleted(id);
    }

    /** The loop over a ready list that may be out of date when its later tasks are reached. */
    method RunTasks(graph: TaskGraph.TaskGraph, w: Setup, ready: seq<Id>, ghost g: Exec.Graph)
      requires Settled(graph, w) && GraphOf(graph) == g
      requires AllMayRun(g, w, completedTasks, ready)
      modifies this, graph`tasks
      ensures Settled(graph, w) && GraphOf(graph) == g
      ensures completedTasks == old(completedTasks) + Elements(ready)
    {
      for i := 0 to |ready|
        invariant Settled(graph, w) && GraphOf(graph) == g
        invariant AllMayRun(g, w, completedTasks, ready[i..])
        invariant completedTasks + Elements(ready[i..]) == old(completedTasks) + Elements(ready)
      {
        RunFirst(g, w, completedTasks, ready[i..]);
        assert ready[i..][1..] == ready[i + 1..];
        if ready[i] in runningTasks || ready[i] in completedTasks {
          assert false;
        }
        RunTask(graph, w, ready[i]);
      }
    }

    /** One round: it runs exactly the tasks that were ready when it began. */
    method ProcessReadyTasks(graph: TaskGraph.TaskGraph, w: Setup)
      requires Settled(graph, w)
      modifies this, graph`tasks
      ensures Settled(graph, w)
      ensures GraphOf(graph) == old(GraphOf(graph))
      ensures forall x: Id :: x in completedTasks <==>
                              x in old(completedTasks) || old(TaskGraph.IsReady(graph.tasks, graph.revEdges, x))
    {
      var ready := graph.GetReadyTasks();
      forall x | x in ready ensures MayRun(GraphOf(graph), w, completedTasks, x) {
        ReadyIsMayRun(GraphOf(graph), graph.tasks, w, completedTasks, x);
      }
      RunTasks(graph, w, ready, GraphOf(graph));
    }

    /** A round runs something new, unless there is nothing left that it could ever run. */
    method Round(graph: TaskGraph.TaskGraph, w: Setup, ghost g: Exec.Graph, ghost goal: nat)
      requires Settled(graph, w) && GraphOf(graph) == g && Exec.Runnable(g) && goal == |Unblocked(g, w)|
      modifies this, graph`tasks
      ensures Settled(graph, w) && GraphOf(graph) == g
      ensures completed > old(completed) || completed == goal
      ensures completed <= goal <= |g.tasks|
    {
      ghost var status, before := graph.tasks, completedTasks;
      ProcessReadyTasks(graph, w);
      RoundProgress(g, status, w, before, completedTasks);
      Conclusion(g, w, completedTasks);
    }

    /** The loop of `execute`, cut off after `budget` rounds. */
    method RunRounds(graph: TaskGraph.TaskGraph, w: Setup, budget: nat, ghost g: Exec.Graph, ghost goal: nat)
      returns (rounds: nat)
      requires Settled(graph, w) && GraphOf(graph) == g && Exec.Runnable(g) && completedTasks == {}
      requires goal == |Unblocked(g, w)| <= |g.tasks|
      modifies this, graph`tasks
      ensures Settled(graph, w) && GraphOf(graph) == g
      ensures rounds <= budget && (completed == |g.tasks| || rounds == budget)
      ensures rounds <= completed || completed == goal
      ensures completed == |g.tasks| ==> rounds <= |g.tasks|
    {
      rounds := 0;
      while completed != |graph.tasks.Keys| && rounds < budget
        invariant GraphOf(graph) == g && Settled(graph, w)
        invariant rounds <= budget && completed <= goal
        invariant rounds <= completed || completed == goal
        invariant completed == |g.tasks| ==> rounds <= |g.tasks|
        decreases budget - rounds
      {
        Round(graph, w, g, goal);
        rounds := rounds + 1;
      }
    }

    /**
     * `execute`, cut off after `budget` rounds of its loop. Within as many rounds as there are
     * tasks exactly the unblocked tasks have run. The loop ends with Ok if that is all of them:
     * all were pending, and no failing task has a dependent. Otherwise it never ends.
     */
    method Execute(graph: TaskGraph.TaskGraph, bodies: Id -> bool, budget: nat) returns (result: Result, rounds: nat)
      requires graph.Valid() && running == 0
      modifies this, graph`tasks
      ensures running == 0 && GraphOf(graph) == old(GraphOf(graph))
      ensures result.InvalidArgument? <==>
                !((forall a | a in graph.edges :: a in graph.tasks) && graph.Closed() && Acyclic(graph.edges))
      ensures result.InvalidArgument? ==> graph.tasks == old(graph.tasks)
      ensures result.Ok? ==> completedTasks == graph.tasks.Keys && rounds <= |graph.tasks.Keys|
      ensures result.Ok? ==> AllPending(old(graph.tasks)) && FailuresAreFinal(GraphOf(graph), bodies)
      ensures !result.InvalidArgument? ==>
                StatusesShow(graph.tasks, Setup(old(graph.tasks), bodies), completedTasks)
      ensures !result.InvalidArgument? && budget >= |graph.tasks.Keys| ==>
                && completedTasks == Unblocked(GraphOf(graph), Setup(old(graph.tasks), bodies))
                && (result.Ok? <==> AllPending(old(graph.tasks)) && FailuresAreFinal(GraphOf(graph), bodies))
    {
      completed := 0;
      runningTasks, completedTasks := {}, {};
      var valid := graph.IsValid();
      if !valid {
        return InvalidArgument, 0;
      }
      var w := Setup(graph.tasks, bodies);
      ghost var g := GraphOf(graph);
      Conclusion(g, w, {});
      rounds := RunRounds(graph, w, budget, g, |Unblocked(g, w)|);
      Conclusion(g, w, completedTasks);
      result := if completed == |graph.tasks.Keys| then Ok else StillLooping;
    }
  }
}
