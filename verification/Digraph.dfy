/**
 Walks, reachability and acyclicity of a finite edge relation.

 An edge `(a, b)` says that `b` depends on `a`: the package graph points from a
 dependency to the packages that use it, so what is reachable from a node is its set
 of reverse dependencies.
 */
module Digraph {

  /** Consecutive nodes of `p` are joined by edges. */
  ghost predicate Walk<V>(es: set<(V, V)>, p: seq<V>) {
    |p| > 0 && forall i | 0 <= i < |p| - 1 :: (p[i], p[i + 1]) in es
  }

  ghost predicate WalkFromTo<V>(es: set<(V, V)>, p: seq<V>, a: V, b: V) {
    Walk(es, p) && p[0] == a && p[|p| - 1] == b
  }

  /** Reachability is reflexive: the walk `[a]` leads from `a` to `a`. */
  ghost predicate Reach<V(!new)>(es: set<(V, V)>, a: V, b: V) {
    exists p :: WalkFromTo(es, p, a, b)
  }

  /** No edge can be closed into a cycle. */
  ghost predicate Acyclic<V(!new)>(es: set<(V, V)>) {
    forall e | e in es :: !Reach(es, e.1, e.0)
  }

  /** The edge relation of a list of edges, forgetting order and multiplicity. */
  ghost function Rel<V>(es: seq<(V, V)>): set<(V, V)> {
    set e | e in es
  }

  lemma ReachSelf<V(!new)>(es: set<(V, V)>, a: V)
    ensures Reach(es, a, a)
  {
    assert WalkFromTo(es, [a], a, a);
  }

  lemma ReachEdge<V(!new)>(es: set<(V, V)>, a: V, b: V)
    requires (a, b) in es
    ensures Reach(es, a, b)
  {
    assert WalkFromTo(es, [a, b], a, b);
  }

  lemma ReachTrans<V(!new)>(es: set<(V, V)>, a: V, b: V, c: V)
    requires Reach(es, a, b) && Reach(es, b, c)
    ensures Reach(es, a, c)
  {
    var p :| WalkFromTo(es, p, a, b);
    var q :| WalkFromTo(es, q, b, c);
    var r := p + q[1..];
    forall i | 0 <= i < |r| - 1
      ensures (r[i], r[i + 1]) in es
    {
      if i >= |p| - 1 {
        assert r[i] == q[i - (|p| - 1)];
      }
    }
    assert WalkFromTo(es, r, a, c);
  }

  lemma ReachMono<V(!new)>(es: set<(V, V)>, fs: set<(V, V)>, a: V, b: V)
    requires es <= fs && Reach(es, a, b)
    ensures Reach(fs, a, b)
  {
    var p :| WalkFromTo(es, p, a, b);
    assert WalkFromTo(fs, p, a, b);
  }

  /** A walk between distinct nodes has a first edge. */
  lemma FirstEdge<V(!new)>(es: set<(V, V)>, a: V, b: V) returns (m: V)
    requires Reach(es, a, b) && a != b
    ensures (a, m) in es && Reach(es, m, b)
  {
    var p :| WalkFromTo(es, p, a, b);
    m := p[1];
    assert WalkFromTo(es, p[1..], m, b);
  }

  /** A walk between distinct nodes has a last edge. */
  lemma LastEdge<V(!new)>(es: set<(V, V)>, a: V, b: V) returns (m: V)
    requires Reach(es, a, b) && a != b
    ensures Reach(es, a, m) && (m, b) in es
  {
    var p :| WalkFromTo(es, p, a, b);
    m := p[|p| - 2];
    assert WalkFromTo(es, p[..|p| - 1], a, m);
  }

  /** A set that edges do not leave contains everything reachable from its members. */
  lemma {:induction false} ClosedUnderReach<V(!new)>(es: set<(V, V)>, s: set<V>, a: V, b: V)
    requires a in s && Reach(es, a, b)
    requires forall e | e in es && e.0 in s :: e.1 in s
    ensures b in s
  {
    var p :| WalkFromTo(es, p, a, b);
    WalkStaysInside(es, s, p);
  }

  lemma {:induction false} WalkStaysInside<V>(es: set<(V, V)>, s: set<V>, p: seq<V>)
    requires Walk(es, p) && p[0] in s
    requires forall e | e in es && e.0 in s :: e.1 in s
    ensures p[|p| - 1] in s
    decreases |p|
  {
    if |p| > 1 {
      assert (p[0], p[1]) in es;
      WalkStaysInside(es, s, p[1..]);
    }
  }

  /** Acyclicity is the absence of closed walks with at least one edge. */
  lemma AcyclicIffNoClosedWalk<V(!new)>(es: set<(V, V)>)
    ensures Acyclic(es) <==> forall p | Walk(es, p) && |p| > 1 :: p[0] != p[|p| - 1]
  {
    if Acyclic(es) {
      forall p | Walk(es, p) && |p| > 1
        ensures p[0] != p[|p| - 1]
      {
        assert (p[0], p[1]) in es;
        assert WalkFromTo(es, p[1..], p[1], p[|p| - 1]);
      }
    } else {
      var e :| e in es && Reach(es, e.1, e.0);
      var p :| WalkFromTo(es, p, e.1, e.0);
      assert Walk(es, [e.0] + p);
    }
  }

  /** In an acyclic relation reachability is antisymmetric. */
  lemma AcyclicAntisymmetric<V(!new)>(es: set<(V, V)>, a: V, b: V)
    requires Acyclic(es) && Reach(es, a, b) && Reach(es, b, a)
    ensures a == b
  {
    if a != b {
      var m := FirstEdge(es, a, b);
      ReachTrans(es, m, b, a);
      assert false;
    }
  }

  lemma AcyclicSubset<V(!new)>(es: set<(V, V)>, fs: set<(V, V)>)
    requires es <= fs && Acyclic(fs)
    ensures Acyclic(es)
  {
    forall e | e in es
      ensures !Reach(es, e.1, e.0)
    {
      if Reach(es, e.1, e.0) {
        ReachMono(es, fs, e.1, e.0);
      }
    }
  }

  /** A walk that may use the extra edge `(u, v)` either avoids it or passes through it. */
  lemma {:induction false} ReachAddEdge<V(!new)>(es: set<(V, V)>, u: V, v: V, a: V, b: V)
    requires Reach(es + {(u, v)}, a, b)
    ensures Reach(es, a, b) || (Reach(es, a, u) && Reach(es, v, b))
  {
    var p :| WalkFromTo(es + {(u, v)}, p, a, b);
    WalkAddEdge(es, u, v, p);
  }

  lemma {:induction false} WalkAddEdge<V(!new)>(es: set<(V, V)>, u: V, v: V, p: seq<V>)
    requires Walk(es + {(u, v)}, p)
    ensures Reach(es, p[0], p[|p| - 1]) || (Reach(es, p[0], u) && Reach(es, v, p[|p| - 1]))
    decreases |p|
  {
    if |p| == 1 {
      ReachSelf(es, p[0]);
    } else {
      WalkAddEdge(es, u, v, p[1..]);
      var b := p[|p| - 1];
      assert p[1..][|p[1..]| - 1] == b;
      if (p[0], p[1]) in es {
        ReachEdge(es, p[0], p[1]);
        if Reach(es, p[1], b) {
          ReachTrans(es, p[0], p[1], b);
        } else {
          ReachTrans(es, p[0], p[1], u);
        }
      } else {
        assert (p[0], p[1]) == (u, v);
        ReachSelf(es, u);
      }
    }
  }

  /** Adding an edge closes a cycle exactly when its head already reaches its tail. */
  lemma AcyclicAddEdge<V(!new)>(es: set<(V, V)>, u: V, v: V)
    requires Acyclic(es)
    ensures Acyclic(es + {(u, v)}) <==> !Reach(es, v, u)
  {
    var fs := es + {(u, v)};
    if Reach(es, v, u) {
      ReachMono(es, fs, v, u);
      assert (u, v) in fs;
    } else {
      forall e | e in fs
        ensures !Reach(fs, e.1, e.0)
      {
        if Reach(fs, e.1, e.0) {
          ReachAddEdge(es, u, v, e.1, e.0);
          if e in es {
            ReachEdge(es, e.0, e.1);
            ReachTrans(es, v, e.0, e.1);
            ReachTrans(es, v, e.1, u);
          }
        }
      }
    }
  }

  /** Edges into `v` are of no use on the way out of `v`. */
  lemma ReachIgnoresEdgesInto<V(!new)>(es: set<(V, V)>, fs: set<(V, V)>, v: V, u: V)
    requires es <= fs && Acyclic(fs)
    requires forall e | e in fs && e !in es :: e.1 == v
    ensures Reach(es, v, u) <==> Reach(fs, v, u)
  {
    if Reach(es, v, u) {
      ReachMono(es, fs, v, u);
    }
    if Reach(fs, v, u) {
      var p :| WalkFromTo(fs, p, v, u);
      forall i | 0 <= i < |p| - 1
        ensures (p[i], p[i + 1]) in es
      {
        if (p[i], p[i + 1]) !in es {
          assert (p[i], p[i + 1]) in fs;
          assert WalkFromTo(fs, p[..i + 1], v, p[i]);
        }
      }
      assert WalkFromTo(es, p, v, u);
    }
  }

  ghost function Ancestors<V(!new)>(es: set<(V, V)>, s: set<V>, v: V): set<V> {
    set x | x in s && Reach(es, x, v)
  }

  /** Every non-empty finite set of nodes of an acyclic graph has a member with no predecessor in it. */
  lemma {:induction false} SourceExists<V(!new)>(es: set<(V, V)>, s: set<V>, v: V) returns (r: V)
    requires Acyclic(es) && v in s
    ensures r in s && forall u | u in s :: (u, r) !in es
    decreases Ancestors(es, s, v)
  {
    if u :| u in s && (u, v) in es {
      forall x | x in s && Reach(es, x, u)
        ensures Reach(es, x, v)
      {
        ReachEdge(es, u, v);
        ReachTrans(es, x, u, v);
      }
      ReachSelf(es, v);
      assert !Reach(es, v, u);
      assert v in Ancestors(es, s, v) && v !in Ancestors(es, s, u);
      r := SourceExists(es, s, u);
    } else {
      r := v;
    }
  }

  /** A graph embedded by `f` into an acyclic graph is acyclic. */
  lemma AcyclicFromImage<V(!new), W(!new)>(es: set<(V, V)>, fs: set<(W, W)>, f: V -> W)
    requires Acyclic(fs)
    requires forall e | e in es :: (f(e.0), f(e.1)) in fs
    ensures Acyclic(es)
  {
    forall e | e in es
      ensures !Reach(es, e.1, e.0)
    {
      if Reach(es, e.1, e.0) {
        assert (f(e.0), f(e.1)) in fs;
        ReachImage(es, fs, f, e.1, e.0);
      }
    }
  }

  lemma ReachImage<V(!new), W(!new)>(es: set<(V, V)>, fs: set<(W, W)>, f: V -> W, a: V, b: V)
    requires Reach(es, a, b)
    requires forall e | e in es :: (f(e.0), f(e.1)) in fs
    ensures Reach(fs, f(a), f(b))
  {
    var p :| WalkFromTo(es, p, a, b);
    var q := seq(|p|, i requires 0 <= i < |p| => f(p[i]));
    assert forall i | 0 <= i < |p| - 1 :: (p[i], p[i + 1]) in es;
    assert WalkFromTo(fs, q, f(a), f(b));
  }
}
