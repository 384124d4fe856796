/**
 The graph operations that the package graph takes from its graph library, on a graph
 given by a node count and the list of its edges in insertion order.  Nodes are indices
 below the count.  Parallel edges are kept.
 */
module Petgraph {
  import opened Digraph
  import opened Wrappers

  type Edge = (int, int)

  predicate InRange(n: nat, es: seq<Edge>) {
    forall e | e in es :: 0 <= e.0 < n && 0 <= e.1 < n
  }

  /** The nodes of a graph with `n` nodes. */
  function Below(n: nat): (r: set<int>)
    ensures forall v :: v in r <==> 0 <= v < n
    ensures |r| == n
  {
    if n == 0 then {} else Below(n - 1) + {n - 1}
  }

  /** `t` lists every node once, and every edge points forward in it. */
  ghost predicate IsTopo(n: nat, es: set<Edge>, t: seq<int>) {
    && Distinct(t)
    && (forall v :: v in t <==> 0 <= v < n)
    && (forall i, j | 0 <= i < |t| && 0 <= j < |t| && (t[i], t[j]) in es :: i < j)
  }

  /** What is reachable from a node comes no earlier in a topological order. */
  lemma {:induction false} TopoReach(n: nat, es: seq<Edge>, t: seq<int>, i: nat, j: nat)
    requires InRange(n, es) && IsTopo(n, Rel(es), t)
    requires i < |t| && j < |t| && Reach(Rel(es), t[i], t[j])
    ensures i <= j
  {
    var p :| WalkFromTo(Rel(es), p, t[i], t[j]);
    TopoWalk(n, es, t, i, j, p);
  }

  lemma {:induction false} TopoWalk(n: nat, es: seq<Edge>, t: seq<int>, i: nat, j: nat, p: seq<int>)
    requires InRange(n, es) && IsTopo(n, Rel(es), t)
    requires i < |t| && j < |t| && WalkFromTo(Rel(es), p, t[i], t[j])
    ensures i <= j
    decreases |p|
  {
    if |p| > 1 {
      assert (p[0], p[1]) in es;
      assert p[1] in t;
      var k: nat :| k < |t| && t[k] == p[1];
      assert WalkFromTo(Rel(es), p[1..], t[k], t[j]);
      TopoWalk(n, es, t, k, j, p[1..]);
    }
  }

  /** A graph with a topological order is acyclic. */
  lemma TopoAcyclic(n: nat, es: seq<Edge>, t: seq<int>)
    requires InRange(n, es) && IsTopo(n, Rel(es), t)
    ensures Acyclic(Rel(es))
  {
    forall e | e in Rel(es)
      ensures !Reach(Rel(es), e.1, e.0)
    {
      assert e in es && e.0 in t && e.1 in t;
      var i: nat :| i < |t| && t[i] == e.0;
      var j: nat :| j < |t| && t[j] == e.1;
      if Reach(Rel(es), e.1, e.0) {
        TopoReach(n, es, t, j, i);
      }
    }
  }

  /** Orders the nodes topologically; fails exactly on cyclic graphs. */
  method TopoSort(n: nat, es: seq<Edge>) returns (r: Option<seq<int>>)
    requires InRange(n, es)
    ensures r.Some? <==> Acyclic(Rel(es))
    ensures r.Some? ==> IsTopo(n, Rel(es), r.value)
  {
    var left := Below(n);
    var t: seq<int> := [];
    while left != {}
      invariant Distinct(t)
      invariant forall v :: 0 <= v < n <==> v in left || v in t
      invariant forall v | v in t :: v !in left
      invariant forall e | e in es && e.1 in t :: e.0 in t
      invariant forall i, j | 0 <= i < |t| && 0 <= j < |t| && (t[i], t[j]) in es :: i < j
      decreases left
    {
      if v :| v in left && forall e | e in es :: e.1 == v ==> e.0 !in left {
        assert (v, v) !in es;
        assert forall e | e in es && e.1 == v :: e.0 in t;
        t := t + [v];
        left := left - {v};
      } else {
        if Acyclic(Rel(es)) {
          ghost var v :| v in left;
          ghost var source := SourceExists(Rel(es), left, v);
        }
        return None;
      }
    }
    TopoAcyclic(n, es, t);
    return Some(t);
  }

  method IsCyclic(n: nat, es: seq<Edge>) returns (cyclic: bool)
    requires InRange(n, es)
    ensures cyclic <==> !Acyclic(Rel(es))
  {
    var t := TopoSort(n, es);
    return t.None?;
  }

  /** A list of distinct numbers below `n` has at most `n` entries. */
  lemma {:induction false} DistinctBounded(n: nat, s: seq<int>)
    requires Distinct(s) && forall v | v in s :: 0 <= v < n
    ensures |s| <= n
  {
    var image := set v | v in s;
    DistinctCardinality(s);
    assert image <= Below(n);
    SubsetCardinality(image, Below(n));
  }

  lemma {:induction false} DistinctCardinality<T>(s: seq<T>)
    requires Distinct(s)
    ensures |set v | v in s| == |s|
  {
    if s != [] {
      var last := s[|s| - 1];
      var front := s[..|s| - 1];
      DistinctCardinality(front);
      assert (set v | v in s) == (set v | v in front) + {last};
    }
  }

  /** Breadth-first traversal: lists what is reachable from `start`, each node once. */
  method Bfs(n: nat, es: seq<Edge>, start: int) returns (order: seq<int>)
    requires InRange(n, es) && 0 <= start < n
    ensures Distinct(order) && start in order
    ensures forall v :: v in order <==> Reach(Rel(es), start, v)
  {
    ReachSelf(Rel(es), start);
    order := [start];
    var next := 0;
    while next < |order|
      invariant next <= |order| && Distinct(order) && start in order
      invariant forall v | v in order :: 0 <= v < n && Reach(Rel(es), start, v)
      invariant forall i, e | 0 <= i < next && e in es && e.0 == order[i] :: e.1 in order
      decreases n - next
    {
      order := Visit(n, es, start, order, order[next]);
      DistinctBounded(n, order);
      next := next + 1;
    }
    forall v | Reach(Rel(es), start, v)
      ensures v in order
    {
      ClosedUnderReach(Rel(es), (set x | x in order), start, v);
    }
  }

  /** Appends the unvisited successors of `v`. */
  method Visit(n: nat, es: seq<Edge>, start: int, seen: seq<int>, v: int) returns (order: seq<int>)
    requires InRange(n, es) && Distinct(seen) && v in seen
    requires forall x | x in seen :: 0 <= x < n && Reach(Rel(es), start, x)
    ensures seen <= order && Distinct(order)
    ensures forall x | x in order :: 0 <= x < n && Reach(Rel(es), start, x)
    ensures forall e | e in es && e.0 == v :: e.1 in order
  {
    order := seen;
    for k := 0 to |es|
      invariant seen <= order && Distinct(order)
      invariant forall x | x in order :: 0 <= x < n && Reach(Rel(es), start, x)
      invariant forall i | 0 <= i < k && es[i].0 == v :: es[i].1 in order
    {
      if es[k].0 == v && es[k].1 !in order {
        assert es[k] in es;
        ReachEdge(Rel(es), v, es[k].1);
        ReachTrans(Rel(es), start, v, es[k].1);
        order := order + [es[k].1];
      }
    }
  }
}
