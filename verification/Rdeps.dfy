/** Reverse dependencies of a node, in an order in which they can be rebuilt. */
module Rdeps {
  import opened Wrappers
  import opened Digraph
  import opened Petgraph

  datatype GraphErr = GraphCyclic

  /**
   `r` lists everything reachable from `n` except `n` itself, each once, and no entry
   depends on a later one.
   */
  ghost predicate ReverseDeps<V(!new)>(es: set<(V, V)>, n: V, r: seq<V>) {
    && Distinct(r)
    && (forall v :: v in r <==> v != n && Reach(es, n, v))
    && (forall i, j | 0 <= i < j < |r| :: !Reach(es, r[j], r[i]))
  }

  /** The position of every node in the topological order. */
  method Positions(t: seq<int>) returns (index: map<int, int>)
    requires Distinct(t)
    ensures forall i | 0 <= i < |t| :: t[i] in index && index[t[i]] == i
    ensures forall v | v in index :: v in t
  {
    index := map[];
    for i := 0 to |t|
      invariant forall k | 0 <= k < i :: t[k] in index && index[t[k]] == k
      invariant forall v | v in index :: v in t
    {
      index := index[t[i] := i];
    }
  }

  /**
   Walks the topological order from `start` on and collects the reachable nodes.  The walk
   has no bound of its own: it stays inside `t` because every reachable node comes after
   `start` in the order.
   */
  method CollectInOrder(n: nat, es: seq<Edge>, t: seq<int>, start: int, first: nat, bfs: seq<int>) returns (v: seq<int>)
    requires InRange(n, es) && IsTopo(n, Rel(es), t)
    requires first < |t| && t[first] == start
    requires forall x :: x in bfs <==> Reach(Rel(es), start, x)
    ensures Distinct(v)
    ensures forall x :: x in v <==> x in bfs && x != start
    ensures forall i, j | 0 <= i < j < |v| :: !Reach(Rel(es), v[j], v[i])
  {
    var curr := first;
    var left := set x | x in bfs;
    v := [];
    left := left - {start};
    assert forall x | x in left :: x in t[curr..] by {
      ReachableComesLater(n, es, t, first, left);
    }
    while left != {}
      invariant first <= curr <= |t|
      invariant forall x | x in left :: x in t[curr..]
      invariant forall x :: x in bfs && x != start <==> x in v || x in left
      invariant forall x | x in v :: x in t[..curr] && x !in left
      invariant Distinct(v)
      invariant forall i, j | 0 <= i < j < |v| :: !Reach(Rel(es), v[j], v[i])
      decreases |t| - curr
    {
      assert curr < |t| by {
        if curr == |t| {
          assert t[curr..] == [];
          assert forall x | x in left :: false;
        }
      }
      if t[curr] in left {
        forall i | 0 <= i < |v|
          ensures v[i] != t[curr] && !Reach(Rel(es), t[curr], v[i])
        {
          EarlierNotReached(n, es, t, curr, v[i]);
        }
        v := v + [t[curr]];
        left := left - {t[curr]};
      }
      assert t[curr..] == [t[curr]] + t[curr + 1..] && t[..curr + 1] == t[..curr] + [t[curr]];
      curr := curr + 1;
    }
  }

  lemma ReachableComesLater(n: nat, es: seq<Edge>, t: seq<int>, first: nat, s: set<int>)
    requires InRange(n, es) && IsTopo(n, Rel(es), t) && first < |t|
    requires forall x | x in s :: Reach(Rel(es), t[first], x)
    ensures forall x | x in s :: x in t[first..]
  {
    forall x | x in s
      ensures x in t[first..]
    {
      assert x in t by {
        if x != t[first] {
          var m := LastEdge(Rel(es), t[first], x);
          assert (m, x) in es;
        }
      }
      var j: nat :| j < |t| && t[j] == x;
      TopoReach(n, es, t, first, j);
      assert t[first..][j - first] == x;
    }
  }

  lemma EarlierNotReached(n: nat, es: seq<Edge>, t: seq<int>, curr: nat, x: int)
    requires InRange(n, es) && IsTopo(n, Rel(es), t) && curr < |t| && x in t[..curr]
    ensures x != t[curr] && !Reach(Rel(es), t[curr], x)
  {
    var i: nat :| i < curr && t[i] == x;
    if Reach(Rel(es), t[curr], x) {
      TopoReach(n, es, t, curr, i);
    }
  }

  /** The reverse dependencies of `start`, or an error exactly when the graph is cyclic. */
  method ReverseDependencies(n: nat, es: seq<Edge>, start: int) returns (r: Result<seq<int>, GraphErr>)
    requires InRange(n, es) && 0 <= start < n
    ensures r.Ok? <==> Acyclic(Rel(es))
    ensures r.Ok? ==> ReverseDeps(Rel(es), start, r.value)
  {
    var cyclic := IsCyclic(n, es);
    if cyclic {
      return Err(GraphCyclic);
    }
    var order := TopoSort(n, es);
    var t := order.value;
    var bfs := Bfs(n, es, start);
    var index := Positions(t);
    assert start in t;
    var first := index[start];
    var v := CollectInOrder(n, es, t, start, first, bfs);
    return Ok(v);
  }
}
