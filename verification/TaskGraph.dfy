/** The status of one task. */
module TaskStatus {

  datatype Status = Pending | Ready | Running | Completed | Failed | Cancelled
}

/** The depth-first search that `topological_sort` and `is_dag` share. */
module DepthFirst {
  import opened Digraph
  import opened Sequences

  ghost predicate FromRoots(m: Adjacency, roots: set<Id>, x: Id) {
    x in roots || exists r | r in roots :: Leads(m, r, x)
  }

  /** Everything that a search from `roots` can meet. */
  ghost function AllFromRoots(m: Adjacency, roots: set<Id>, nodes: set<Id>): set<Id> {
    set x | x in nodes && FromRoots(m, roots, x)
  }

  lemma EndIsFromRoots(m: Adjacency, roots: set<Id>, p: seq<Id>)
    requires IsPath(m, p) && p != [] && p[0] in roots
    ensures FromRoots(m, roots, p[|p| - 1])
  {
    if |p| >= 2 {
      SubPath(m, p, 0, |p| - 1);
    }
  }

  lemma FinishedIsReachable(m: Adjacency, result: seq<Id>, roots: set<Id>, nodes: set<Id>)
    requires roots <= Elements(result) && roots <= nodes && ClosedUnder(m, nodes)
    requires EdgesPointBack(m, result)
    requires forall x | x in result :: FromRoots(m, roots, x)
    ensures Elements(result) == AllFromRoots(m, roots, nodes)
  {
    assert ClosedUnder(m, Elements(result));
    forall r, x | r in roots && Leads(m, r, x) ensures x in result && x in nodes {
      var p: seq<Id> :| PathBetween(m, p, r, x);
      PathStaysInside(m, Elements(result), p, |p| - 1);
      PathStaysInside(m, nodes, p, |p| - 1);
    }
  }

  /** `stack` is the path of unfinished nodes; `roots` is where paths may start. */
  ghost predicate SearchInv(m: Adjacency, roots: set<Id>, visited: set<Id>, inStack: set<Id>, result: seq<Id>,
                            stack: seq<Id>) {
    && IsPath(m, stack)
    && (stack != [] ==> stack[0] in roots)
    && inStack == Elements(stack)
    && inStack <= visited
    && NoDuplicates(result)
    && Elements(result) == visited - inStack
    && EdgesPointBack(m, result)
    && (forall x | x in visited :: FromRoots(m, roots, x))
  }

  /** The node `id` may follow the unfinished nodes. */
  predicate Continues(m: Adjacency, roots: set<Id>, stack: seq<Id>, id: Id) {
    if stack == [] then id in roots else Edge(m, stack[|stack| - 1], id)
  }

  /** A node that is met again while it is unfinished closes a cycle. */
  lemma MetAgain(m: Adjacency, roots: set<Id>, visited: set<Id>, inStack: set<Id>, result: seq<Id>, stack: seq<Id>,
                 id: Id)
    requires SearchInv(m, roots, visited, inStack, result, stack)
    requires Continues(m, roots, stack, id) && id in inStack
    ensures LassoFrom(m, roots)
  {
    assert IsPath(m, stack + [id]);
    assert IsLasso(m, stack + [id]);
  }

  /** Entering a node that was not met before. */
  lemma Enter(m: Adjacency, roots: set<Id>, visited: set<Id>, inStack: set<Id>, result: seq<Id>, stack: seq<Id>,
              id: Id)
    requires SearchInv(m, roots, visited, inStack, result, stack)
    requires Continues(m, roots, stack, id) && id !in visited
    ensures SearchInv(m, roots, visited + {id}, inStack + {id}, result, stack + [id])
  {
    var path := stack + [id];
    assert IsPath(m, path);
    EndIsFromRoots(m, roots, path);
    assert Elements(path) == inStack + {id};
  }

  /** Finishing a node whose successors are all finished. */
  lemma Leave(m: Adjacency, roots: set<Id>, visited: set<Id>, inStack: set<Id>, result: seq<Id>, stack: seq<Id>,
              id: Id)
    requires SearchInv(m, roots, visited, inStack, result, stack + [id]) && id !in stack
    requires forall b | b in Next(m, id) :: b in visited && b !in inStack
    ensures SearchInv(m, roots, visited, inStack - {id}, result + [id], stack)
  {
    var path := stack + [id];
    forall i | 0 <= i < |stack| - 1 ensures Edge(m, stack[i], stack[i + 1]) {
      assert Edge(m, path[i], path[i + 1]);
    }
    assert stack != [] ==> stack[0] == path[0];
    assert Elements(path) == Elements(stack) + {id};
    assert forall b: Id | Edge(m, id, b) :: b in Elements(result);
    assert id in Elements(path) && id !in Elements(result);
    ListNext(m, result, id);
  }

  class Search {
    const edges: Adjacency
    var visited: set<Id>
    var inStack: set<Id>
    var result: seq<Id>

    constructor (edges: Adjacency)
      ensures this.edges == edges && visited == {} && inStack == {} && result == []
    {
      this.edges := edges;
      visited, inStack, result := {}, {}, [];
    }

    ghost predicate Consistent(stack: seq<Id>, roots: set<Id>)
      reads this
    {
      SearchInv(edges, roots, visited, inStack, result, stack)
    }

    /** One call of the recursive lambda; `nodes` bounds the graph for termination. */
    method Visit(id: Id, ghost stack: seq<Id>, ghost roots: set<Id>, ghost nodes: set<Id>) returns (ok: bool)
      requires Consistent(stack, roots) && Continues(edges, roots, stack, id)
      requires id in nodes && ClosedUnder(edges, nodes)
      modifies this
      ensures ok ==> Consistent(stack, roots) && id in visited && id !in inStack
      ensures ok ==> inStack == old(inStack) && old(visited) <= visited
      ensures !ok ==> LassoFrom(edges, roots)
      decreases nodes - visited
    {
      if id in inStack {
        MetAgain(edges, roots, visited, inStack, result, stack, id);
        return false;
      }
      if id in visited {
        return true;
      }
      Enter(edges, roots, visited, inStack, result, stack, id);
      visited := visited + {id};
      inStack := inStack + {id};

      ghost var path := stack + [id];
      var successors := Next(edges, id);
      for i := 0 to |successors|
        invariant Consistent(path, roots)
        invariant visited >= old(visited) + {id} && inStack == old(inStack) + {id}
        invariant forall k | 0 <= k < i :: successors[k] in visited && successors[k] !in inStack
      {
        ok := Visit(successors[i], path, roots, nodes);
        if !ok {
          return;
        }
      }
      Leave(edges, roots, visited, inStack, result, stack, id);
      inStack := inStack - {id};
      result := result + [id];
      ok := true;
    }

    /** The outer loop over all tasks, in whatever order the table yields them. */
    method VisitAll(tasks: set<Id>, ghost nodes: set<Id>) returns (ok: bool)
      requires visited == {} && inStack == {} && result == []
      requires tasks <= nodes && ClosedUnder(edges, nodes)
      modifies this
      ensures ok <==> !LassoFrom(edges, tasks)
      ensures ok ==> NoDuplicates(result) && EdgesPointBack(edges, result)
      ensures ok ==> Elements(result) == AllFromRoots(edges, tasks, nodes)
    {
      var remaining := tasks;
      while remaining != {}
        invariant remaining <= tasks
        invariant Consistent([], tasks)
        invariant tasks - remaining <= visited
      {
        var id :| id in remaining;
        remaining := remaining - {id};
        if id !in visited {
          ok := Visit(id, [], tasks, nodes);
          if !ok {
            return;
          }
        }
      }
      OrderExcludesLasso(edges, result, tasks);
      assert forall x | x in result :: x in Elements(result);
      FinishedIsReachable(edges, result, tasks, nodes);
      ok := true;
    }
  }
}

module TaskGraph {
  import opened Digraph
  import opened Sequences
  import opened DepthFirst
  import opened TaskStatus

  /** The list `s` without any occurrence of `id`. */
  function Without(s: seq<Id>, id: Id): (r: seq<Id>)
    ensures multiset(r) == multiset(s)[id := 0]
  {
    if s == [] then []
    else
      assert s == [s[0]] + s[1..];
      if s[0] == id then Without(s[1..], id)
      else [s[0]] + Without(s[1..], id)
  }

  /** Erases `id` as a key and from every list. */
  function Erased(m: Adjacency, id: Id): Adjacency {
    map a | a in m && a != id :: Without(m[a], id)
  }

  lemma ErasedMultiplicity(m: Adjacency, id: Id, a: Id, b: Id)
    ensures Multiplicity(Erased(m, id), a, b) == if a == id || b == id then 0 else Multiplicity(m, a, b)
  {}

  /** The two loops of `remove_task`, for one of the two maps. */
  method Erase(m: Adjacency, id: Id) returns (r: Adjacency)
    ensures r == Erased(m, id)
  {
    r := m - {id};
    var keys := r.Keys;
    while keys != {}
      invariant keys <= r.Keys == m.Keys - {id}
      invariant forall a | a in r :: r[a] == if a in keys then m[a] else Without(m[a], id)
    {
      var a :| a in keys;
      r := r[a := Without(r[a], id)];
      keys := keys - {a};
    }
  }

  function WithEdge(m: Adjacency, a: Id, b: Id): Adjacency {
    m[a := Next(m, a) + [b]]
  }

  lemma WithEdgeMultiplicity(m: Adjacency, a: Id, b: Id, x: Id, y: Id)
    ensures Multiplicity(WithEdge(m, a, b), x, y) ==
            Multiplicity(m, x, y) + if x == a && y == b then 1 else 0
  {}

  lemma WithEdgeMirrored(m: Adjacency, r: Adjacency, a: Id, b: Id)
    requires Mirrored(m, r)
    ensures Mirrored(WithEdge(m, a, b), WithEdge(r, b, a))
    ensures forall x: Id, y: Id :: Multiplicity(WithEdge(m, a, b), x, y) ==
                                   Multiplicity(m, x, y) + if x == a && y == b then 1 else 0
    ensures forall s: set<Id> | Within(m, s) && a in s && b in s :: Within(WithEdge(m, a, b), s)
  {
    forall x: Id, y: Id
      ensures Multiplicity(WithEdge(m, a, b), x, y) == Multiplicity(m, x, y) + if x == a && y == b then 1 else 0
    {
      WithEdgeMultiplicity(m, a, b, x, y);
    }
    forall x: Id, y: Id
      ensures Multiplicity(WithEdge(m, a, b), x, y) == Multiplicity(WithEdge(r, b, a), y, x)
    {
      WithEdgeMultiplicity(r, b, a, y, x);
    }
    forall s: set<Id> | Within(m, s) && a in s && b in s ensures Within(WithEdge(m, a, b), s) {
      forall x: Id, y: Id | Edge(WithEdge(m, a, b), x, y) ensures x in s && y in s {
        assert Edge(m, x, y) || (x == a && y == b);
      }
    }
  }

  /** `m'` holds the edges of `m` and, for each entry of `tos`, one more edge from `a` to it. */
  ghost predicate Extended(m: Adjacency, m': Adjacency, a: Id, tos: seq<Id>) {
    forall x: Id, y: Id :: Multiplicity(m', x, y) == Multiplicity(m, x, y) + if x == a then multiset(tos)[y] else 0
  }

  lemma ExtendedOnce(m: Adjacency, m': Adjacency, m'': Adjacency, a: Id, tos: seq<Id>, i: nat)
    requires i < |tos| && Extended(m, m', a, tos[..i]) && Extended(m', m'', a, [tos[i]])
    ensures Extended(m, m'', a, tos[..i + 1])
  {
    assert tos[..i + 1] == tos[..i] + [tos[i]];
  }

  /** Nothing added yet, and all added. */
  lemma ExtendedEnds(m: Adjacency, m': Adjacency, a: Id, tos: seq<Id>)
    ensures Extended(m, m, a, tos[..0])
    ensures Extended(m, m', a, tos[..|tos|]) ==> Extended(m, m', a, tos)
  {
    assert tos[..|tos|] == tos;
  }

  lemma ErasedMirrored(m: Adjacency, r: Adjacency, id: Id)
    requires Mirrored(m, r)
    ensures Mirrored(Erased(m, id), Erased(r, id))
    ensures forall x: Id, y: Id :: Multiplicity(Erased(m, id), x, y) ==
                                   if x == id || y == id then 0 else Multiplicity(m, x, y)
    ensures forall s: set<Id> | Within(m, s) :: Within(Erased(m, id), s - {id})
  {
    forall x: Id, y: Id
      ensures Multiplicity(Erased(m, id), x, y) == if x == id || y == id then 0 else Multiplicity(m, x, y)
    {
      ErasedMultiplicity(m, id, x, y);
    }
    forall x: Id, y: Id ensures Multiplicity(Erased(m, id), x, y) == Multiplicity(Erased(r, id), y, x) {
      ErasedMultiplicity(r, id, y, x);
    }
    forall s: set<Id> | Within(m, s) ensures Within(Erased(m, id), s - {id}) {
      forall a: Id, b: Id | Edge(Erased(m, id), a, b) ensures a in s - {id} && b in s - {id} {
        assert Multiplicity(Erased(m, id), a, b) > 0;
        assert Edge(m, a, b);
      }
    }
  }

  /** All ids that occur anywhere in `m` or `tasks`: a bound for the searches. */
  function Nodes(m: Adjacency, tasks: set<Id>): set<Id> {
    tasks + m.Keys + (set a, b | a in m && b in m[a] :: b)
  }

  lemma NodesClosed(m: Adjacency, tasks: set<Id>)
    ensures ClosedUnder(m, Nodes(m, tasks))
  {}

  /** A task is ready when it is pending and each dependency is a completed task of the graph. */
  predicate IsReady(tasks: map<Id, Status>, rev: Adjacency, id: Id) {
    && id in tasks && tasks[id].Pending?
    && forall d | d in Next(rev, id) :: d in tasks && tasks[d].Completed?
  }

  /** Where both ends of every edge are tasks, a search from the tasks meets exactly the tasks. */
  lemma ReachableInClosed(m: Adjacency, tasks: set<Id>)
    requires Within(m, tasks)
    ensures AllFromRoots(m, tasks, Nodes(m, tasks)) == tasks
  {
    forall r, x | r in tasks && Leads(m, r, x) ensures x in tasks {
      var b := LastEdge(m, r, x);
    }
  }

  class TaskGraph {
    var tasks: map<Id, Status>
    var edges: Adjacency
    var revEdges: Adjacency

    ghost predicate Valid()
      reads this
    {
      Mirrored(edges, revEdges)
    }

    /** Both ends of every edge are tasks, which is what `is_valid` checks besides acyclicity. */
    ghost predicate Closed()
      reads this
    {
      Within(edges, tasks.Keys)
    }

    constructor ()
      ensures Valid() && tasks == map[] && edges == map[] && revEdges == map[]
    {
      tasks, edges, revEdges := map[], map[], map[];
    }

    method AddTask(id: Id, status: Status)
      requires Valid()
      modifies this`tasks
      ensures Valid() && tasks == old(tasks)[id := status]
    {
      tasks := tasks[id := status];
    }

    /** The two assertions on the ends are compiled out of release builds, so any ids are accepted. */
    method AddEdge(from: Id, to: Id)
      requires Valid()
      modifies this`edges, this`revEdges
      ensures Valid()
      ensures Extended(old(edges), edges, from, [to])
      ensures old(Closed()) && from in tasks && to in tasks ==> Closed()
    {
      WithEdgeMirrored(edges, revEdges, from, to);
      edges := WithEdge(edges, from, to);
      revEdges := WithEdge(revEdges, to, from);
    }

    method AddEdges(from: Id, tos: seq<Id>)
      requires Valid()
      modifies this`edges, this`revEdges
      ensures Valid()
      ensures Extended(old(edges), edges, from, tos)
      ensures old(Closed()) && from in tasks && (forall y | y in tos :: y in tasks) ==> Closed()
    {
      ExtendedEnds(edges, edges, from, tos);
      ghost var closed := Closed() && from in tasks && forall y | y in tos :: y in tasks;
      for i := 0 to |tos|
        invariant Valid()
        invariant Extended(old(edges), edges, from, tos[..i])
        invariant closed ==> Closed()
      {
        ghost var before := edges;
        AddEdge(from, tos[i]);
        ExtendedOnce(old(edges), before, edges, from, tos, i);
      }
      ExtendedEnds(old(edges), edges, from, tos);
    }

    method RemoveTask(id: Id)
      requires Valid()
      modifies this
      ensures Valid() && tasks == old(tasks) - {id}
      ensures forall x: Id, y: Id :: Multiplicity(edges, x, y) ==
                                     if x == id || y == id then 0 else old(Multiplicity(edges, x, y))
      ensures old(Closed()) ==> Closed()
    {
      ErasedMirrored(edges, revEdges, id);
      tasks := tasks - {id};
      edges := Erase(edges, id);
      revEdges := Erase(revEdges, id);
    }

    method Clear()
      modifies this
      ensures Valid() && Closed() && tasks == map[] && edges == map[] && revEdges == map[]
    {
      tasks, edges, revEdges := map[], map[], map[];
    }

    /** Breadth-first search over the reverse edges. The queue may hold the same id several times. */
    method DependsOn(a: Id, b: Id) returns (found: bool)
      requires Valid()
      ensures found <==> Leads(edges, b, a)
    {
      MirroredLeads(edges, revEdges, b, a);
      var visited: set<Id> := {};
      var queue := Next(revEdges, a);
      forall x | x in queue { EdgeLeads(revEdges, a, x); }
      while queue != []
        invariant forall x | x in queue || x in visited :: Leads(revEdges, a, x)
        invariant b !in visited
        invariant forall x | Edge(revEdges, a, x) :: x in visited || x in queue
        invariant forall v, x | v in visited && Edge(revEdges, v, x) :: x in visited || x in queue
        decreases revEdges.Keys - visited, |queue|
      {
        var current := queue[0];
        ghost var before := queue;
        queue := queue[1..];
        assert forall x | x in before :: x == current || x in queue;
        if current == b {
          return true;
        }
        if current in visited {
          continue;
        }
        visited := visited + {current};
        forall x | Edge(revEdges, current, x) ensures Leads(revEdges, a, x) {
          EdgeLeads(revEdges, current, x);
          LeadsTransitive(revEdges, a, current, x);
        }
        queue := queue + Next(revEdges, current);
      }
      if Leads(revEdges, a, b) {
        var c := FirstEdge(revEdges, a, b);
        var p: seq<Id> := if c == b then [b] else var q: seq<Id> :| PathBetween(revEdges, q, c, b); q;
        PathStaysInside(revEdges, visited, p, |p| - 1);
      }
      found := false;
    }

    method TopologicalSort() returns (order: seq<Id>)
      ensures LassoFrom(edges, tasks.Keys) ==> order == []
      ensures !LassoFrom(edges, tasks.Keys) ==>
                IsTopologicalOrder(edges, AllFromRoots(edges, tasks.Keys, Nodes(edges, tasks.Keys)), order)
      ensures Closed() && !Acyclic(edges) ==> order == []
      ensures Closed() && Acyclic(edges) ==> IsTopologicalOrder(edges, tasks.Keys, order)
    {
      NodesClosed(edges, tasks.Keys);
      var search := new Search(edges);
      var ok := search.VisitAll(tasks.Keys, Nodes(edges, tasks.Keys));
      if Closed() {
        LassoIsCycle(edges, tasks.Keys);
        ReachableInClosed(edges, tasks.Keys);
      }
      if !ok {
        return [];
      }
      ReversedOrder(edges, search.result);
      order := Reversed(search.result);
    }

    method IsDag() returns (dag: bool)
      ensures dag <==> !LassoFrom(edges, tasks.Keys)
      ensures Closed() ==> (dag <==> Acyclic(edges))
    {
      NodesClosed(edges, tasks.Keys);
      var search := new Search(edges);
      dag := search.VisitAll(tasks.Keys, Nodes(edges, tasks.Keys));
      if Closed() {
        LassoIsCycle(edges, tasks.Keys);
      }
    }

    method IsValid() returns (valid: bool)
      ensures valid <==> (forall a | a in edges :: a in tasks) && Closed() && Acyclic(edges)
    {
      var dag := IsDag();
      if !dag {
        if Closed() { LassoIsCycle(edges, tasks.Keys); }
        return false;
      }
      var keys := edges.Keys;
      while keys != {}
        invariant keys <= edges.Keys
        invariant forall a | a in edges.Keys - keys :: a in tasks && forall b | b in edges[a] :: b in tasks
      {
        var from :| from in keys;
        keys := keys - {from};
        if from !in tasks {
          return false;
        }
        var tos := edges[from];
        for i := 0 to |tos|
          invariant forall k | 0 <= k < i :: tos[k] in tasks
        {
          if tos[i] !in tasks {
            assert Edge(edges, from, tos[i]);
            return false;
          }
        }
      }
      valid := true;
    }

    /** Lists the ready tasks once each, in whatever order the table yields them. */
    method GetReadyTasks() returns (ready: seq<Id>)
      ensures NoDuplicates(ready)
      ensures forall id :: id in ready <==> IsReady(tasks, revEdges, id)
    {
      ready := [];
      var remaining := tasks.Keys;
      while remaining != {}
        invariant remaining <= tasks.Keys
        invariant NoDuplicates(ready)
        invariant forall id :: id in ready <==> id in tasks.Keys - remaining && IsReady(tasks, revEdges, id)
      {
        var id :| id in remaining;
        remaining := remaining - {id};
        if !tasks[id].Pending? {
          continue;
        }
        var deps := Next(revEdges, id);
        var allComplete := true;
        var i := 0;
        while i < |deps| && allComplete
          invariant 0 <= i <= |deps|
          invariant allComplete <==> forall k | 0 <= k < i :: deps[k] in tasks && tasks[deps[k]].Completed?
        {
          allComplete := deps[i] in tasks && tasks[deps[i]].Completed?;
          i := i + 1;
        }
        if allComplete {
          ListNext(map[], ready, id);
          ready := ready + [id];
        }
      }
    }
  }
}
