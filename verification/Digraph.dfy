/** Directed multigraphs kept as adjacency lists: paths, cycles, mirrored lists, orders. */
module Digraph {
  import opened Sequences

  type Id = nat

  type Adjacency = map<Id, seq<Id>>

  function Next(m: Adjacency, a: Id): seq<Id> {
    if a in m then m[a] else []
  }

  /** How many parallel edges lead from `a` to `b`. */
  function Multiplicity(m: Adjacency, a: Id, b: Id): nat {
    multiset(Next(m, a))[b]
  }

  predicate Edge(m: Adjacency, a: Id, b: Id) {
    b in Next(m, a)
  }

  ghost predicate IsPath(m: Adjacency, p: seq<Id>) {
    forall i | 0 <= i < |p| - 1 :: Edge(m, p[i], p[i + 1])
  }

  ghost predicate PathBetween(m: Adjacency, p: seq<Id>, a: Id, b: Id) {
    |p| >= 2 && IsPath(m, p) && p[0] == a && p[|p| - 1] == b
  }

  /** A path of at least one edge leads from `a` to `b`. */
  ghost predicate Leads(m: Adjacency, a: Id, b: Id) {
    exists p: seq<Id> :: PathBetween(m, p, a, b)
  }

  ghost predicate Acyclic(m: Adjacency) {
    forall a: Id :: !Leads(m, a, a)
  }

  /** `r` holds the same edges as `m`, turned round, with equal multiplicities. */
  ghost predicate Mirrored(m: Adjacency, r: Adjacency) {
    forall a: Id, b: Id :: Multiplicity(m, a, b) == Multiplicity(r, b, a)
  }

  /** No edge leaves `s`. */
  ghost predicate ClosedUnder(m: Adjacency, s: set<Id>) {
    forall a: Id, b: Id | a in s && Edge(m, a, b) :: b in s
  }

  /** Both ends of every edge are in `s`. */
  ghost predicate Within(m: Adjacency, s: set<Id>) {
    forall a: Id, b: Id | Edge(m, a, b) :: a in s && b in s
  }

  // ---------------------------------------------------------------- paths

  lemma EdgeLeads(m: Adjacency, a: Id, b: Id)
    requires Edge(m, a, b)
    ensures Leads(m, a, b)
  {
    assert PathBetween(m, [a, b], a, b);
  }

  lemma LeadsTransitive(m: Adjacency, a: Id, b: Id, c: Id)
    requires Leads(m, a, b) && Leads(m, b, c)
    ensures Leads(m, a, c)
  {
    var p: seq<Id> :| PathBetween(m, p, a, b);
    var q: seq<Id> :| PathBetween(m, q, b, c);
    assert PathBetween(m, p + q[1..], a, c);
  }

  lemma PathSuffix(m: Adjacency, p: seq<Id>, i: nat)
    requires IsPath(m, p) && i <= |p|
    ensures IsPath(m, p[i..])
  {
    forall k | 0 <= k < |p[i..]| - 1 ensures Edge(m, p[i..][k], p[i..][k + 1]) {
      assert Edge(m, p[i + k], p[i + k + 1]);
    }
  }

  lemma SubPath(m: Adjacency, p: seq<Id>, i: nat, j: nat)
    requires IsPath(m, p) && i < j < |p|
    ensures Leads(m, p[i], p[j])
  {
    var s := p[i..j + 1];
    forall k | 0 <= k < |s| - 1 ensures Edge(m, s[k], s[k + 1]) {
      assert Edge(m, p[i + k], p[i + k + 1]);
    }
    assert PathBetween(m, s, p[i], p[j]);
  }

  /** A non-empty path splits into its last edge and what comes before it. */
  lemma LastEdge(m: Adjacency, a: Id, c: Id) returns (b: Id)
    requires Leads(m, a, c)
    ensures Edge(m, b, c)
    ensures a == b || Leads(m, a, b)
  {
    var p: seq<Id> :| PathBetween(m, p, a, c);
    b := p[|p| - 2];
    assert Edge(m, p[|p| - 2], p[|p| - 2 + 1]);
    if |p| > 2 {
      SubPath(m, p, 0, |p| - 2);
    }
  }

  lemma FirstEdge(m: Adjacency, a: Id, c: Id) returns (b: Id)
    requires Leads(m, a, c)
    ensures Edge(m, a, b)
    ensures b == c || Leads(m, b, c)
  {
    var p: seq<Id> :| PathBetween(m, p, a, c);
    b := p[1];
    assert Edge(m, p[0], p[0 + 1]);
    if |p| > 2 {
      SubPath(m, p, 1, |p| - 1);
    }
  }

  lemma MirroredEdge(m: Adjacency, r: Adjacency, a: Id, b: Id)
    requires Mirrored(m, r)
    ensures Edge(m, a, b) <==> Edge(r, b, a)
  {
    assert Edge(m, a, b) <==> Multiplicity(m, a, b) > 0;
    assert Edge(r, b, a) <==> Multiplicity(r, b, a) > 0;
  }

  lemma LeadsBackwards(m: Adjacency, r: Adjacency, a: Id, b: Id)
    requires Mirrored(m, r) && Leads(m, a, b)
    ensures Leads(r, b, a)
  {
    var p: seq<Id> :| PathBetween(m, p, a, b);
    var q := seq(|p|, i requires 0 <= i < |p| => p[|p| - 1 - i]);
    forall i | 0 <= i < |q| - 1 ensures Edge(r, q[i], q[i + 1]) {
      var k := |p| - 2 - i;
      assert Edge(m, p[k], p[k + 1]);
      MirroredEdge(m, r, p[k], p[k + 1]);
    }
    assert PathBetween(r, q, b, a);
  }

  lemma MirroredLeads(m: Adjacency, r: Adjacency, a: Id, b: Id)
    requires Mirrored(m, r)
    ensures Leads(m, a, b) <==> Leads(r, b, a)
  {
    if Leads(m, a, b) {
      LeadsBackwards(m, r, a, b);
    }
    if Leads(r, b, a) {
      LeadsBackwards(r, m, b, a);
    }
  }

  /** A path from inside a closed set stays inside it. */
  lemma {:induction false} PathStaysInside(m: Adjacency, s: set<Id>, p: seq<Id>, i: nat)
    requires ClosedUnder(m, s) && IsPath(m, p) && i < |p| && p[0] in s
    ensures p[i] in s
  {
    if i > 0 {
      PathStaysInside(m, s, p, i - 1);
      assert Edge(m, p[i - 1], p[i - 1 + 1]);
    }
  }

  // ---------------------------------------------------------------- cycles that a search can meet

  /** A path that ends at a node which it already went through. */
  ghost predicate IsLasso(m: Adjacency, p: seq<Id>) {
    |p| >= 2 && IsPath(m, p) && p[|p| - 1] in p[..|p| - 1]
  }

  ghost predicate LassoFrom(m: Adjacency, roots: set<Id>) {
    exists p: seq<Id> :: IsLasso(m, p) && p[0] in roots
  }

  /** Where all edges stay between the roots, a reachable cycle is any cycle. */
  lemma LassoIsCycle(m: Adjacency, roots: set<Id>)
    requires Within(m, roots)
    ensures LassoFrom(m, roots) <==> !Acyclic(m)
  {
    if LassoFrom(m, roots) {
      var p: seq<Id> :| IsLasso(m, p) && p[0] in roots;
      var i :| 0 <= i < |p| - 1 && p[i] == p[|p| - 1];
      SubPath(m, p, i, |p| - 1);
    }
    if !Acyclic(m) {
      var a: Id :| Leads(m, a, a);
      var p: seq<Id> :| PathBetween(m, p, a, a);
      assert Edge(m, p[0], p[0 + 1]);
      assert p[..|p| - 1][0] == p[|p| - 1];
      assert IsLasso(m, p);
    }
  }

  // ---------------------------------------------------------------- orders

  /** All edges out of the i-th node go to nodes listed before it. */
  ghost predicate EdgesPointBack(m: Adjacency, s: seq<Id>) {
    forall i, b: Id | 0 <= i < |s| && Edge(m, s[i], b) :: b in s[..i]
  }

  /** All edges out of the i-th node go to nodes listed after it. */
  ghost predicate EdgesPointForward(m: Adjacency, s: seq<Id>) {
    forall i, b: Id | 0 <= i < |s| && Edge(m, s[i], b) :: b in s[i + 1..]
  }

  /** `s` lists the nodes of `nodes` once each, every edge pointing forward. */
  ghost predicate IsTopologicalOrder(m: Adjacency, nodes: set<Id>, s: seq<Id>) {
    NoDuplicates(s) && Elements(s) == nodes && EdgesPointForward(m, s)
  }

  /** A new node whose successors are all listed may be listed next. */
  lemma ListNext(m: Adjacency, s: seq<Id>, x: Id)
    requires NoDuplicates(s) && x !in s
    ensures NoDuplicates(s + [x])
    ensures Elements(s + [x]) == Elements(s) + {x}
    ensures EdgesPointBack(m, s) && (forall b: Id | Edge(m, x, b) :: b in s) ==> EdgesPointBack(m, s + [x])
  {
    var t := s + [x];
    if EdgesPointBack(m, s) && (forall b: Id | Edge(m, x, b) :: b in s) {
      forall i, b: Id | 0 <= i < |t| && Edge(m, t[i], b) ensures b in t[..i] {
        assert t[..i] == s[..i];
        assert i == |s| ==> s[..i] == s;
      }
    }
  }

  function Reversed(s: seq<Id>): (r: seq<Id>)
    ensures |r| == |s| && forall i | 0 <= i < |s| :: r[i] == s[|s| - 1 - i]
  {
    seq(|s|, i requires 0 <= i < |s| => s[|s| - 1 - i])
  }

  lemma ReversedOrder(m: Adjacency, s: seq<Id>)
    requires NoDuplicates(s) && EdgesPointBack(m, s)
    ensures IsTopologicalOrder(m, Elements(s), Reversed(s))
  {
    var r := Reversed(s);
    assert Elements(r) == Elements(s) by {
      forall x | x in s ensures x in r {
        var i :| 0 <= i < |s| && s[i] == x;
        assert r[|s| - 1 - i] == x;
      }
    }
    forall i, b: Id | 0 <= i < |r| && Edge(m, r[i], b) ensures b in r[i + 1..] {
      var j :| 0 <= j < |s| - 1 - i && s[j] == b;
      assert r[i + 1..][|s| - 1 - j - (i + 1)] == b;
    }
  }

  /** Along a path the listed positions go down. */
  lemma {:induction false} PathGoesDown(m: Adjacency, s: seq<Id>, p: seq<Id>, k: nat)
    requires NoDuplicates(s) && EdgesPointBack(m, s) && IsPath(m, p) && |p| >= 2
    requires k < |s| && p[0] == s[k]
    ensures p[|p| - 1] in s[..k]
  {
    assert Edge(m, p[0], p[0 + 1]);
    var j :| 0 <= j < k && s[j] == p[1];
    if |p| > 2 {
      PathSuffix(m, p, 1);
      PathGoesDown(m, s, p[1..], j);
    }
  }

  lemma OrderExcludes(m: Adjacency, s: seq<Id>, p: seq<Id>)
    requires NoDuplicates(s) && EdgesPointBack(m, s) && p != [] && p[0] in s
    ensures !IsLasso(m, p)
  {
    if IsLasso(m, p) {
      assert ClosedUnder(m, Elements(s));
      var i :| 0 <= i < |p| - 1 && p[i] == p[|p| - 1];
      PathStaysInside(m, Elements(s), p, i);
      var k :| 0 <= k < |s| && s[k] == p[i];
      PathSuffix(m, p, i);
      PathGoesDown(m, s, p[i..], k);
    }
  }

  /** A list with all edges pointing back admits no reachable cycle. */
  lemma OrderExcludesLasso(m: Adjacency, s: seq<Id>, roots: set<Id>)
    requires NoDuplicates(s) && EdgesPointBack(m, s) && roots <= Elements(s)
    ensures !LassoFrom(m, roots)
  {
    forall p: seq<Id> | IsLasso(m, p) && p[0] in roots ensures false {
      OrderExcludes(m, s, p);
    }
  }

  lemma {:induction false} Pigeonhole(p: seq<Id>, nodes: set<Id>)
    requires NoDuplicates(p) && (forall i | 0 <= i < |p| :: p[i] in nodes)
    ensures |p| <= |nodes|
  {
    if p != [] {
      Pigeonhole(p[1..], nodes - {p[0]});
    }
  }

  /** The nodes of a path in an acyclic graph are all different, so the path is short. */
  lemma AcyclicPathIsShort(m: Adjacency, nodes: set<Id>, p: seq<Id>)
    requires Acyclic(m) && IsPath(m, p) && (forall i | 0 <= i < |p| :: p[i] in nodes)
    ensures |p| <= |nodes|
  {
    forall i, j | 0 <= i < j < |p| ensures p[i] != p[j] {
      SubPath(m, p, i, j);
    }
    Pigeonhole(p, nodes);
  }
}
