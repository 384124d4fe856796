/** What the queries on the package graph promise. */
module GraphQueries {
  import opened Wrappers
  import opened Digraph
  import opened Petgraph
  import opened Naming
  import opened Rdeps
  import opened GraphModel

  function Firsts<T>(r: seq<(string, T)>): (s: seq<string>)
    ensures |s| == |r| && forall i | 0 <= i < |r| :: s[i] == r[i].0
  {
    seq(|r|, i requires 0 <= i < |r| => r[i].0)
  }

  /** Whatever is reached through an edge has been added as a package. */
  lemma ReachedIsLatest(st: State, s: Name, t: Name)
    requires Inv(st) && Reach(Uses(st), s, t) && s != t
    ensures t in st.latest && t in st.names
  {
    var m := LastEdge(Uses(st), s, t);
    assert (m, t) in st.edges;
  }

  /** The packages that depend on `s`, directly or not. */
  ghost function Dependents(st: State, s: Name): set<Name> {
    set t | t in st.names && t != s && Reach(Uses(st), s, t)
  }

  lemma DependentsCount(st: State, s: Name, r: seq<Name>)
    requires Inv(st) && ReverseDeps(Uses(st), s, r)
    ensures |r| == |Dependents(st, s)|
  {
    DistinctCardinality(r);
    forall t
      ensures t in r <==> t in Dependents(st, s)
    {
      if t in r {
        ReachedIsLatest(st, s, t);
      }
    }
    assert (set v | v in r) == Dependents(st, s);
  }

  /** Node indices in rebuild order become names in rebuild order. */
  lemma NameReverseDeps(names: seq<string>, es: seq<Edge>, start: int, v: seq<int>)
    requires Distinct(names) && InRange(|names|, es) && 0 <= start < |names|
    requires ReverseDeps(Rel(es), start, v)
    ensures forall x | x in v :: 0 <= x < |names|
    ensures ReverseDeps(Rel(NameEdges(names, es)), names[start], NamesAt(names, v))
  {
    var fs, r := Rel(NameEdges(names, es)), NamesAt(names, v);
    forall x | x in v
      ensures 0 <= x < |names|
    {
      var m := LastEdge(Rel(es), start, x);
      assert (m, x) in es;
    }
    forall i, j | 0 <= i < j < |v|
      ensures r[i] != r[j] && !Reach(fs, r[j], r[i])
    {
      assert v[i] in v && v[j] in v;
      NameReach(names, es, v[j], v[i]);
    }
    forall s
      ensures s in r <==> s != names[start] && Reach(fs, names[start], s)
    {
      NamesReached(names, es, start, v, s);
    }
  }

  lemma NamesReached(names: seq<string>, es: seq<Edge>, start: int, v: seq<int>, s: string)
    requires Distinct(names) && InRange(|names|, es) && 0 <= start < |names|
    requires ReverseDeps(Rel(es), start, v) && forall x | x in v :: 0 <= x < |names|
    ensures s in NamesAt(names, v) <==> s != names[start] && Reach(Rel(NameEdges(names, es)), names[start], s)
  {
    var fs, r := Rel(NameEdges(names, es)), NamesAt(names, v);
    if s in r {
      var i :| 0 <= i < |r| && r[i] == s;
      assert v[i] in v;
      NameReach(names, es, start, v[i]);
    }
    if s != names[start] && Reach(fs, names[start], s) {
      var m := LastEdge(fs, names[start], s);
      RelNameEdges(names, es);
      var e :| e in Rel(es) && (m, s) == (NameAt(names, e.0), NameAt(names, e.1));
      assert e in es;
      NameReach(names, es, start, e.1);
      assert e.1 in v;
      var i :| 0 <= i < |v| && v[i] == e.1;
      assert r[i] == s;
    }
  }

  // ----- the most depended upon packages

  /** `r` is a list of the `max` packages with the most dependents, most first. */
  ghost predicate TopList(st: State, max: nat, r: seq<(Name, nat)>) {
    && |r| == (if max < |st.names| then max else |st.names|)
    && Distinct(Firsts(r))
    && (forall i | 0 <= i < |r| :: r[i].0 in st.names && r[i].1 == |Dependents(st, r[i].0)|)
    && (forall i, j | 0 <= i < j < |r| :: r[i].1 >= r[j].1)
    && (forall s, i | s in st.names && s !in Firsts(r) && 0 <= i < |r| :: |Dependents(st, s)| <= r[i].1)
  }

  /** A package has more dependents than anything that depends on it. */
  lemma DependentsFall(st: State, d: Name, s: Name)
    requires Inv(st) && Reach(Uses(st), d, s) && d != s
    ensures |Dependents(st, d)| > |Dependents(st, s)|
  {
    forall x | x in Dependents(st, s)
      ensures x in Dependents(st, d)
    {
      ReachTrans(Uses(st), d, s, x);
      if x == d {
        AcyclicAntisymmetric(Uses(st), d, s);
      }
    }
    ReachedIsLatest(st, d, s);
    assert s in Dependents(st, d) && s !in Dependents(st, s);
    SubsetCardinality(Dependents(st, s), Dependents(st, d));
  }

  /** Everything that a listed package depends on, directly or not, is listed before it. */
  lemma TopListClosed(st: State, max: nat, r: seq<(Name, nat)>, i: nat, d: Name)
    requires Inv(st) && TopList(st, max, r) && i < |r|
    requires d != r[i].0 && Reach(Uses(st), d, r[i].0)
    ensures exists j | 0 <= j < i :: r[j].0 == d
  {
    var next := FirstEdge(Uses(st), d, r[i].0);
    assert d in st.names;
    DependentsFall(st, d, r[i].0);
    assert d in Firsts(r);
    var j :| 0 <= j < |r| && Firsts(r)[j] == d;
    assert r[j].0 == d;
  }
}
