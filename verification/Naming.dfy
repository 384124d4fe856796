/** Edges between node indices as edges between the names of the nodes. */
module Naming {
  import opened Wrappers
  import opened Digraph
  import opened EdgeLists
  import opened Petgraph

  function NameAt(names: seq<string>, i: int): string {
    if 0 <= i < |names| then names[i] else ""
  }

  function NamesAt(names: seq<string>, v: seq<int>): (r: seq<string>)
    ensures |r| == |v| && forall i | 0 <= i < |v| :: r[i] == NameAt(names, v[i])
  {
    seq(|v|, i requires 0 <= i < |v| => NameAt(names, v[i]))
  }

  function NameEdges(names: seq<string>, es: seq<Edge>): (r: seq<(string, string)>)
    ensures |r| == |es| && forall i | 0 <= i < |es| :: r[i] == (NameAt(names, es[i].0), NameAt(names, es[i].1))
  {
    seq(|es|, i requires 0 <= i < |es| => (NameAt(names, es[i].0), NameAt(names, es[i].1)))
  }

  /** A new name does not disturb the edges between old ones. */
  lemma NameEdgesGrow(names: seq<string>, more: seq<string>, es: seq<Edge>)
    requires names <= more && InRange(|names|, es)
    ensures NameEdges(names, es) == NameEdges(more, es)
  {
    forall i | 0 <= i < |es|
      ensures NameEdges(names, es)[i] == NameEdges(more, es)[i]
    {
      assert es[i] in es;
    }
  }

  lemma NameEdgesAppend(names: seq<string>, es: seq<Edge>, fs: seq<Edge>)
    ensures NameEdges(names, es + fs) == NameEdges(names, es) + NameEdges(names, fs)
  {
  }

  lemma {:induction false} NameWithout(names: seq<string>, es: seq<Edge>, v: int)
    requires Distinct(names) && InRange(|names|, es) && 0 <= v < |names|
    ensures NameEdges(names, Without(es, v)) == Without(NameEdges(names, es), names[v])
  {
    if es != [] {
      var front, last := es[..|es| - 1], es[|es| - 1];
      NameWithout(names, front, v);
      assert last in es;
      assert NameEdges(names, es)[..|es| - 1] == NameEdges(names, front);
    }
  }

  lemma {:induction false} NameIncoming(names: seq<string>, es: seq<Edge>, v: int)
    requires Distinct(names) && InRange(|names|, es) && 0 <= v < |names|
    ensures NamesAt(names, Incoming(es, v)) == Incoming(NameEdges(names, es), names[v])
  {
    if es != [] {
      var front, last := es[..|es| - 1], es[|es| - 1];
      NameIncoming(names, front, v);
      assert last in es;
      assert NameEdges(names, es)[..|es| - 1] == NameEdges(names, front);
    }
  }

  lemma NameEdgesTo(names: seq<string>, us: seq<int>, v: int)
    ensures NameEdges(names, EdgesTo(us, v)) == EdgesTo(NamesAt(names, us), NameAt(names, v))
  {
  }

  lemma RelNameEdges(names: seq<string>, es: seq<Edge>)
    ensures forall e | e in Rel(es) :: (NameAt(names, e.0), NameAt(names, e.1)) in Rel(NameEdges(names, es))
    ensures forall f | f in Rel(NameEdges(names, es)) ::
              exists e | e in Rel(es) :: f == (NameAt(names, e.0), NameAt(names, e.1))
  {
    forall e | e in Rel(es)
      ensures (NameAt(names, e.0), NameAt(names, e.1)) in Rel(NameEdges(names, es))
    {
      var i :| 0 <= i < |es| && es[i] == e;
      assert NameEdges(names, es)[i] in NameEdges(names, es);
    }
    forall f | f in Rel(NameEdges(names, es))
      ensures exists e | e in Rel(es) :: f == (NameAt(names, e.0), NameAt(names, e.1))
    {
      var i :| 0 <= i < |es| && NameEdges(names, es)[i] == f;
      assert es[i] in Rel(es);
    }
  }

  ghost function IndexOf(names: seq<string>, s: string): (i: int)
    ensures s in names ==> 0 <= i < |names| && names[i] == s
  {
    if s in names then var i :| 0 <= i < |names| && names[i] == s; i else -1
  }

  lemma IndexOfName(names: seq<string>, es: seq<Edge>)
    requires Distinct(names) && InRange(|names|, es)
    ensures forall f | f in Rel(NameEdges(names, es)) :: (IndexOf(names, f.0), IndexOf(names, f.1)) in Rel(es)
  {
    RelNameEdges(names, es);
    forall f | f in Rel(NameEdges(names, es))
      ensures (IndexOf(names, f.0), IndexOf(names, f.1)) in Rel(es)
    {
      var e :| e in Rel(es) && f == (NameAt(names, e.0), NameAt(names, e.1));
      assert e in es;
    }
  }

  lemma NamesReach(names: seq<string>, es: seq<Edge>, i: int, j: int)
    requires InRange(|names|, es) && 0 <= i < |names| && 0 <= j < |names| && Reach(Rel(es), i, j)
    ensures Reach(Rel(NameEdges(names, es)), names[i], names[j])
  {
    RelNameEdges(names, es);
    ReachImage(Rel(es), Rel(NameEdges(names, es)), k => NameAt(names, k), i, j);
  }

  lemma IndicesReach(names: seq<string>, es: seq<Edge>, s: string, t: string)
    requires Distinct(names) && InRange(|names|, es) && Reach(Rel(NameEdges(names, es)), s, t)
    ensures Reach(Rel(es), IndexOf(names, s), IndexOf(names, t))
  {
    IndexOfName(names, es);
    ReachImage(Rel(NameEdges(names, es)), Rel(es), x => IndexOf(names, x), s, t);
  }

  /** With distinct names, reachability between names is reachability between their indices. */
  lemma NameReach(names: seq<string>, es: seq<Edge>, i: int, j: int)
    requires Distinct(names) && InRange(|names|, es) && 0 <= i < |names| && 0 <= j < |names|
    ensures Reach(Rel(es), i, j) <==> Reach(Rel(NameEdges(names, es)), names[i], names[j])
  {
    if Reach(Rel(es), i, j) {
      NamesReach(names, es, i, j);
    }
    if Reach(Rel(NameEdges(names, es)), names[i], names[j]) {
      IndicesReach(names, es, names[i], names[j]);
    }
  }

  lemma NameAcyclic(names: seq<string>, es: seq<Edge>)
    requires Distinct(names) && InRange(|names|, es)
    ensures Acyclic(Rel(es)) <==> Acyclic(Rel(NameEdges(names, es)))
  {
    var fs := NameEdges(names, es);
    if Acyclic(Rel(fs)) {
      RelNameEdges(names, es);
      AcyclicFromImage(Rel(es), Rel(fs), k => NameAt(names, k));
    }
    if Acyclic(Rel(es)) {
      IndexOfName(names, es);
      AcyclicFromImage(Rel(fs), Rel(es), s => IndexOf(names, s));
    }
  }
}
