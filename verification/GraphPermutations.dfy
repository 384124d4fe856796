/** When the graph does not depend on the order in which packages arrive. */
module GraphPermutations {
  import opened Wrappers
  import opened Digraph
  import opened EdgeLists
  import opened PackageIdents
  import opened GraphModel
  import opened GraphTheorems
  import opened GraphHistory

  // ----- the order of arrival does not matter

  /** Every dependency that any of the packages declares. */
  ghost function Declared(ps: seq<Package>): set<(Name, Name)> {
    set p, d | p in ps && d in p.deps :: (d, p.short)
  }

  /** Different packages for one name are told apart by their identifiers. */
  ghost predicate Separated(ps: seq<Package>) {
    && (forall p, q | p in ps && q in ps && p.short == q.short ::
          p == q || Older(p.ident, q.ident) || Older(q.ident, p.ident))
    && (forall s :: Ranks(IdentsOf(ps, s)))
  }

  /** When all declared dependencies together are acyclic, none is ever rolled back. */
  lemma {:induction false} KeepAll(es: set<(Name, Name)>, all: set<(Name, Name)>, s: Name, deps: seq<Name>)
    requires es <= all && Acyclic(all) && forall d | d in deps :: (d, s) in all
    ensures Keep(es, s, deps) == deps
  {
    if deps != [] {
      var front, d := deps[..|deps| - 1], deps[|deps| - 1];
      KeepAll(es, all, s, front);
      assert (d, s) in all;
      if Reach(es, s, d) {
        ReachMono(es, all, s, d);
      }
      assert deps == front + [d];
    }
  }

  /** The graph never holds an edge that no package declared. */
  lemma {:induction false} UsesDeclared(ps: seq<Package>)
    ensures Uses(Build(ps)) <= Declared(ps)
  {
    if ps != [] {
      var front, p := ps[..|ps| - 1], ps[|ps| - 1];
      assert ps == front + [p];
      BuildInv(front);
      UsesDeclared(front);
      var st := Build(front);
      assert Declared(front) <= Declared(ps);
      if !Skipped(st, p) {
        ExtendEdges(st, p);
        WithoutMembers(st.edges, p.short);
        var base := Without(st.edges, p.short);
        RelEdgesTo(base, Keep(Rel(base), p.short, p.deps), p.short);
        forall e | e in Uses(Build(ps))
          ensures e in Declared(ps)
        {
          if e in Rel(base) {
            assert e in Uses(st);
          } else {
            assert p in ps && e.0 in p.deps;
          }
        }
      }
    }
  }

  /** Then the edges into a name are all the dependencies of its winner. */
  lemma SourcesOfWinner(ps: seq<Package>, s: Name)
    requires Acyclic(Declared(ps))
    ensures Sources(Build(ps).edges, s) == if Winner(ps, s).Some? then ps[Winner(ps, s).value].deps else []
  {
    EdgesFromWinner(ps, s);
    if Winner(ps, s).Some? {
      var w := Winner(ps, s).value;
      var st := Build(ps[..w]);
      UsesDeclared(ps[..w]);
      WithoutMembers(st.edges, s);
      assert Declared(ps[..w]) <= Declared(ps);
      forall d | d in ps[w].deps
        ensures (d, s) in Declared(ps)
      {
        assert ps[w] in ps;
      }
      assert Rel(Without(st.edges, s)) <= Uses(st);
      KeepAll(Rel(Without(st.edges, s)), Declared(ps), s, ps[w].deps);
    }
  }

  lemma {:induction false} SourcesCount<V>(es: seq<(V, V)>, e: (V, V))
    ensures multiset(es)[e] == multiset(Sources(es, e.1))[e.0]
  {
    if es != [] {
      var front, last := es[..|es| - 1], es[|es| - 1];
      SourcesCount(front, e);
      assert es == front + [last];
    }
  }

  lemma SameMembers<T>(ps: seq<T>, qs: seq<T>)
    requires multiset(ps) == multiset(qs)
    ensures forall p :: p in ps <==> p in qs
  {
    forall p
      ensures p in ps <==> p in qs
    {
      assert p in ps <==> p in multiset(ps);
      assert p in qs <==> p in multiset(qs);
    }
  }

  /** In both orders a name has the same winning package, or none. */
  lemma SameWinner(ps: seq<Package>, qs: seq<Package>, s: Name)
    requires multiset(ps) == multiset(qs) && Separated(ps)
    ensures Winner(ps, s).Some? <==> Winner(qs, s).Some?
    ensures Winner(ps, s).Some? ==> ps[Winner(ps, s).value] == qs[Winner(qs, s).value]
  {
    SameMembers(ps, qs);
    assert IdentsOf(ps, s) == IdentsOf(qs, s);
    WinnerIsGreatest(ps, s);
    WinnerIsGreatest(qs, s);
    if Winner(ps, s).Some? {
      var p := ps[Winner(ps, s).value];
      WinnerExists(qs, p);
      if Winner(qs, s).Some? {
        var q := qs[Winner(qs, s).value];
        assert q in ps;
      }
    }
    if Winner(qs, s).Some? {
      WinnerExists(ps, qs[Winner(qs, s).value]);
    }
  }

  /** Latest identifiers, dependencies in their order, and edges with multiplicity agree. */
  ghost predicate SameGraph(st: State, other: State) {
    && st.latest == other.latest
    && (forall s :: Sources(st.edges, s) == Sources(other.edges, s))
    && multiset(st.edges) == multiset(other.edges)
  }

  lemma SameLatest(ps: seq<Package>, qs: seq<Package>)
    requires multiset(ps) == multiset(qs) && Separated(ps)
    ensures Build(ps).latest == Build(qs).latest
  {
    forall s
      ensures s in Build(ps).latest <==> s in Build(qs).latest
      ensures s in Build(ps).latest ==> Build(ps).latest[s] == Build(qs).latest[s]
    {
      SameWinner(ps, qs, s);
      LatestFromWinner(ps, s);
      LatestFromWinner(qs, s);
    }
  }

  lemma SameSources(es: seq<(Name, Name)>, fs: seq<(Name, Name)>)
    requires forall s :: Sources(es, s) == Sources(fs, s)
    ensures multiset(es) == multiset(fs)
  {
    forall e
      ensures multiset(es)[e] == multiset(fs)[e]
    {
      SourcesCount(es, e);
      SourcesCount(fs, e);
    }
  }

  // ----- the exact condition

  /** The identifiers of every name can be ranked. */
  ghost predicate Ranked(ps: seq<Package>) {
    forall s :: Ranks(IdentsOf(ps, s))
  }

  /** No package for its name is newer than `w`. */
  ghost predicate Maximal(ps: seq<Package>, w: Package) {
    w in ps && forall p | p in ps && p.short == w.short :: !Older(w.ident, p.ident)
  }

  /** The newest packages of a name agree in their identifiers and dependencies, themselves left out. */
  ghost predicate Agreed(ps: seq<Package>) {
    forall w, v | Maximal(ps, w) && Maximal(ps, v) && w.short == v.short ::
      w.ident == v.ident && Others(w.deps, w.short) == Others(v.deps, v.short)
  }

  /** No dependency of `w` on another name is reachable from it along declared dependencies. */
  ghost predicate Undisputed(ps: seq<Package>, w: Package) {
    forall d | d in w.deps && d != w.short :: !Reach(Declared(ps), w.short, d)
  }

  ghost predicate Settled(ps: seq<Package>) {
    Agreed(ps) && forall w | Maximal(ps, w) :: Undisputed(ps, w)
  }

  /** Every permutation of the packages builds the same graph. */
  ghost predicate OrderIrrelevant(ps: seq<Package>) {
    forall qs: seq<Package> | multiset(qs) == multiset(ps) :: SameGraph(Build(qs), Build(ps))
  }

  lemma WinnerMaximal(ps: seq<Package>, s: Name)
    requires Ranked(ps) && Winner(ps, s).Some?
    ensures Maximal(ps, ps[Winner(ps, s).value])
  {
    WinnerIsGreatest(ps, s);
  }

  function Others(deps: seq<Name>, s: Name): seq<Name> {
    if deps == [] then []
    else
      var d := deps[|deps| - 1];
      Others(deps[..|deps| - 1], s) + if d == s then [] else [d]
  }

  lemma {:induction false} KeepOthers(es: set<(Name, Name)>, s: Name, deps: seq<Name>)
    requires forall d | d in deps && d != s :: !Reach(es, s, d)
    ensures Keep(es, s, deps) == Others(deps, s)
  {
    if deps != [] {
      KeepOthers(es, s, deps[..|deps| - 1]);
      ReachSelf(es, s);
      assert deps[|deps| - 1] in deps;
    }
  }

  lemma {:induction false} KeepMembers(es: set<(Name, Name)>, s: Name, deps: seq<Name>, d: Name)
    ensures d in Keep(es, s, deps) <==> d in deps && !Reach(es, s, d)
  {
    if deps != [] {
      KeepMembers(es, s, deps[..|deps| - 1], d);
      assert deps == deps[..|deps| - 1] + [deps[|deps| - 1]];
    }
  }

  lemma WithoutDeclared(ps: seq<Package>, i: nat, s: Name)
    requires i <= |ps|
    ensures Rel(Without(Build(ps[..i]).edges, s)) <= Declared(ps)
  {
    UsesDeclared(ps[..i]);
    WithoutMembers(Build(ps[..i]).edges, s);
    assert Declared(ps[..i]) <= Declared(ps);
  }

  /** An undisputed winner keeps all its dependencies but the one on itself. */
  lemma UndisputedSources(ps: seq<Package>, s: Name)
    requires Winner(ps, s).Some? && Undisputed(ps, ps[Winner(ps, s).value])
    ensures Sources(Build(ps).edges, s) == Others(ps[Winner(ps, s).value].deps, s)
  {
    EdgesFromWinner(ps, s);
    var i := Winner(ps, s).value;
    var es := Rel(Without(Build(ps[..i]).edges, s));
    WithoutDeclared(ps, i, s);
    forall d | d in ps[i].deps && d != s
      ensures !Reach(es, s, d)
    {
      if Reach(es, s, d) {
        ReachMono(es, Declared(ps), s, d);
      }
    }
    KeepOthers(es, s, ps[i].deps);
  }

  /** Under the condition a name always gets the dependencies of a newest package, itself left out. */
  lemma SettledSources(ps: seq<Package>, s: Name)
    requires Ranked(ps) && Settled(ps)
    ensures Sources(Build(ps).edges, s) ==
            if Winner(ps, s).Some? then Others(ps[Winner(ps, s).value].deps, s) else []
  {
    if Winner(ps, s).Some? {
      WinnerMaximal(ps, s);
      UndisputedSources(ps, s);
    } else {
      EdgesFromWinner(ps, s);
    }
  }

  lemma SettledPermuted(ps: seq<Package>, qs: seq<Package>)
    requires multiset(ps) == multiset(qs)
    ensures Ranked(ps) ==> Ranked(qs)
    ensures Declared(ps) == Declared(qs)
    ensures forall w :: Maximal(ps, w) <==> Maximal(qs, w)
  {
    SameMembers(ps, qs);
    forall s
      ensures IdentsOf(ps, s) == IdentsOf(qs, s)
    {
    }
  }

  /** Whichever newest package wins, identifier and dependencies come out the same. */
  lemma SettledAt(ps: seq<Package>, qs: seq<Package>, s: Name)
    requires multiset(ps) == multiset(qs) && Ranked(ps) && Settled(ps)
    ensures Sources(Build(qs).edges, s) == Sources(Build(ps).edges, s)
    ensures s in Build(ps).latest <==> s in Build(qs).latest
    ensures s in Build(ps).latest ==> Build(ps).latest[s] == Build(qs).latest[s]
  {
    SettledPermuted(ps, qs);
    SameMembers(ps, qs);
    SettledSources(ps, s);
    SettledSources(qs, s);
    LatestFromWinner(ps, s);
    LatestFromWinner(qs, s);
    if Winner(ps, s).Some? {
      WinnerExists(qs, ps[Winner(ps, s).value]);
      WinnerMaximal(ps, s);
    }
    if Winner(qs, s).Some? {
      WinnerExists(ps, qs[Winner(qs, s).value]);
      WinnerMaximal(qs, s);
    }
  }

  lemma SettledSame(ps: seq<Package>, qs: seq<Package>)
    requires multiset(ps) == multiset(qs) && Ranked(ps) && Settled(ps)
    ensures SameGraph(Build(qs), Build(ps))
  {
    forall s
      ensures Sources(Build(qs).edges, s) == Sources(Build(ps).edges, s)
      ensures s in Build(ps).latest <==> s in Build(qs).latest
      ensures s in Build(ps).latest ==> Build(ps).latest[s] == Build(qs).latest[s]
    {
      SettledAt(ps, qs, s);
    }
    SameSources(Build(qs).edges, Build(ps).edges);
  }

  // ----- walks that visit no node twice

  /** A walk can be shortened until it visits no node twice. */
  lemma {:induction false} Shorten<V(!new)>(es: set<(V, V)>, p: seq<V>, a: V, b: V) returns (q: seq<V>)
    requires WalkFromTo(es, p, a, b)
    ensures WalkFromTo(es, q, a, b) && Distinct(q)
    decreases |p|
  {
    q := p;
    if !Distinct(p) {
      var i, j :| 0 <= i < j < |p| && p[i] == p[j];
      var r := p[..i] + p[j..];
      forall m | 0 <= m < |r| - 1
        ensures (r[m], r[m + 1]) in es
      {
        if m >= i {
          assert r[m] == p[m + j - i] && r[m + 1] == p[m + 1 + j - i];
        } else if m == i - 1 {
          assert r[m] == p[m] && r[m + 1] == p[j] == p[m + 1];
        } else {
          assert r[m] == p[m] && r[m + 1] == p[m + 1];
        }
      }
      q := Shorten(es, r, a, b);
    }
  }

  lemma SimpleWalk<V(!new)>(es: set<(V, V)>, a: V, b: V) returns (q: seq<V>)
    requires Reach(es, a, b)
    ensures WalkFromTo(es, q, a, b) && Distinct(q)
  {
    var p :| WalkFromTo(es, p, a, b);
    q := Shorten(es, p, a, b);
  }

  // ----- two orders that differ

  /** A package for a name that is new keeps a dependency that nothing leads to. */
  lemma KeepsNew(ps: seq<Package>, p: Package, d: Name)
    requires d in p.deps && d != p.short
    requires forall q | q in ps :: q.short != p.short && q.short != d
    ensures d in Sources(Build(ps + [p]).edges, p.short)
    ensures forall s | s != p.short :: Sources(Build(ps + [p]).edges, s) == Sources(Build(ps).edges, s)
  {
    var st := Build(ps);
    assert (ps + [p])[..|ps|] == ps;
    BuildInv(ps);
    LatestFromWinner(ps, p.short);
    forall s
      ensures Sources(Extend(st, p).edges, s) ==
              if s == p.short && !Skipped(st, p) then Keep(Rel(Without(st.edges, s)), s, p.deps)
              else Sources(st.edges, s)
    {
      ExtendSources(st, p, s);
    }
    var es := Rel(Without(st.edges, p.short));
    assert ps[..|ps|] == ps;
    WithoutDeclared(ps, |ps|, p.short);
    assert forall e | e in Declared(ps) :: e.1 != d;
    if Reach(es, p.short, d) {
      var m := LastEdge(es, p.short, d);
    }
    KeepMembers(es, p.short, p.deps, d);
  }

  /** Packages that put the edges of a walk into the graph, given from its end to its start. */
  lemma {:induction false} Chain(ps: seq<Package>, v: seq<Name>) returns (qs: seq<Package>)
    requires Walk(Declared(ps), v) && Distinct(v)
    ensures |qs| == |v| - 1 && forall j | 0 <= j < |qs| :: qs[j] in ps && qs[j].short == v[|v| - 1 - j]
    ensures forall j | 0 <= j < |v| - 1 :: v[j] in Sources(Build(qs).edges, v[j + 1])
  {
    qs := [];
    if |v| > 1 {
      var rest := Chain(ps, v[1..]);
      assert (v[0], v[1]) in Declared(ps);
      var p :| p in ps && v[0] in p.deps && p.short == v[1];
      KeepsNew(rest, p, v[0]);
      qs := rest + [p];
      forall j | 0 <= j < |v| - 1
        ensures v[j] in Sources(Build(qs).edges, v[j + 1])
      {
        if j > 0 {
          assert v[j] == v[1..][j - 1] && v[j + 1] == v[1..][j];
        }
      }
    }
  }

  lemma {:induction false} Arrange<T>(m: multiset<T>) returns (s: seq<T>)
    ensures multiset(s) == m
    decreases |m|
  {
    s := [];
    if m != multiset{} {
      var x :| x in m;
      var front := Arrange(m - multiset{x});
      s := front + [x];
    }
  }

  function Own(ps: seq<Package>, s: Name): (r: seq<Package>)
    ensures forall p | p in r :: p.short == s
  {
    if ps == [] then []
    else Own(ps[..|ps| - 1], s) + if ps[|ps| - 1].short == s then [ps[|ps| - 1]] else []
  }

  function Foreign(ps: seq<Package>, s: Name): (r: seq<Package>)
    ensures forall p | p in r :: p.short != s
  {
    if ps == [] then []
    else Foreign(ps[..|ps| - 1], s) + if ps[|ps| - 1].short == s then [] else [ps[|ps| - 1]]
  }

  lemma {:induction false} OwnAndForeign(ps: seq<Package>, s: Name)
    ensures multiset(Own(ps, s)) + multiset(Foreign(ps, s)) == multiset(ps)
  {
    if ps != [] {
      OwnAndForeign(ps[..|ps| - 1], s);
      assert ps == ps[..|ps| - 1] + [ps[|ps| - 1]];
    }
  }

  /** An order that gives `front`, then the other packages for the name of `w`, then `w`, then the rest. */
  lemma LastOfItsName(ps: seq<Package>, front: seq<Package>, w: Package) returns (own: seq<Package>, rest: seq<Package>)
    requires multiset(front) <= multiset(ps) && w in ps && forall p | p in front :: p.short != w.short
    ensures multiset(front + own + [w] + rest) == multiset(ps)
    ensures (forall p | p in own :: p.short == w.short) && (forall p | p in rest :: p.short != w.short)
  {
    assert w !in multiset(front) && w in multiset(ps);
    var m := multiset(ps) - multiset(front) - multiset{w};
    var others := Arrange(m);
    own, rest := Own(others, w.short), Foreign(others, w.short);
    OwnAndForeign(others, w.short);
    assert multiset(front + own + [w] + rest) == multiset(front) + (multiset(own) + multiset(rest)) + multiset{w};
    assert multiset(front) + m + multiset{w} == multiset(ps);
  }

  lemma {:induction false} WinnerPast(ps: seq<Package>, rest: seq<Package>, s: Name)
    requires forall p | p in rest :: p.short != s
    ensures Winner(ps + rest, s) == Winner(ps, s)
  {
    if rest == [] {
      assert ps + rest == ps;
    } else {
      var all, front := ps + rest, rest[..|rest| - 1];
      assert all[..|all| - 1] == ps + front && all[|all| - 1] == rest[|rest| - 1];
      WinnerPast(ps, front, s);
    }
  }

  /** Given after all others of its name, a newest package wins. */
  lemma LastWins(ps: seq<Package>, before: seq<Package>, w: Package, rest: seq<Package>)
    requires multiset(before + [w] + rest) == multiset(ps) && Maximal(ps, w)
    requires forall p | p in rest :: p.short != w.short
    ensures Winner(before + [w] + rest, w.short) == Some(|before|)
  {
    WinnerPast(before + [w], rest, w.short);
    assert (before + [w])[..|before|] == before;
    LatestFromWinner(before, w.short);
    SameMembers(ps, before + [w] + rest);
    if Winner(before, w.short).Some? {
      var p := before[Winner(before, w.short).value];
      assert p in before && p in before + [w] + rest;
    }
  }

  /** Packages of one name leave the dependencies of all other names alone. */
  lemma {:induction false} OwnElsewhere(front: seq<Package>, own: seq<Package>, s: Name, t: Name)
    requires (forall p | p in own :: p.short == s) && t != s
    ensures Sources(Build(front + own).edges, t) == Sources(Build(front).edges, t)
  {
    if own == [] {
      assert front + own == front;
    } else {
      var most, p := own[..|own| - 1], own[|own| - 1];
      assert own == most + [p] && p in own;
      OwnElsewhere(front, most, s, t);
      Elsewhere(front + most, p, t);
      Regroup(front, most, p);
    }
  }

  lemma Regroup(front: seq<Package>, most: seq<Package>, p: Package)
    ensures front + most + [p] == front + (most + [p])
  {
  }

  lemma Elsewhere(ps: seq<Package>, p: Package, s: Name)
    requires s != p.short
    ensures Sources(Build(ps + [p]).edges, s) == Sources(Build(ps).edges, s)
  {
    assert (ps + [p])[..|ps|] == ps;
    BuildInv(ps);
    ExtendSources(Build(ps), p, s);
  }

  lemma {:induction false} DistinctWithin<T>(s: seq<T>, t: seq<T>)
    requires Distinct(s) && forall x | x in s :: x in t
    ensures multiset(s) <= multiset(t)
  {
    if s != [] {
      var front, x := s[..|s| - 1], s[|s| - 1];
      DistinctWithin(front, t);
      assert s == front + [x] && x in s;
      assert x in t && x !in front;
      assert multiset(t)[x] > 0 && multiset(front)[x] == 0;
    }
  }

  /** What a newest package keeps when it is given last of its name. */
  lemma KeepsLast(ps: seq<Package>, before: seq<Package>, w: Package, rest: seq<Package>)
    requires multiset(before + [w] + rest) == multiset(ps) && Maximal(ps, w)
    requires forall p | p in rest :: p.short != w.short
    ensures
      var st, es := Build(before + [w] + rest), Rel(Without(Build(before).edges, w.short));
      && w.short in st.latest && st.latest[w.short] == w.ident
      && Sources(st.edges, w.short) == Keep(es, w.short, w.deps)
  {
    var qs := before + [w] + rest;
    LastWins(ps, before, w, rest);
    EdgesFromWinner(qs, w.short);
    LatestFromWinner(qs, w.short);
    assert qs[..|before|] == before;
  }

  /** Given with only its own name before it, a newest package keeps a dependency on another. */
  lemma EarlyKeeps(ps: seq<Package>, w: Package, d: Name) returns (qs: seq<Package>)
    requires Maximal(ps, w) && d in w.deps && d != w.short
    ensures multiset(qs) == multiset(ps) && d in Sources(Build(qs).edges, w.short)
  {
    var own, rest := LastOfItsName(ps, [], w);
    var before := [] + own;
    qs := before + [w] + rest;
    KeepsLast(ps, before, w, rest);
    var edges := Build(before).edges;
    var es := Rel(Without(edges, w.short));
    WithoutMembers(edges, w.short);
    OwnElsewhere([], own, w.short, d);
    SourcesMembers(edges, d);
    assert forall u :: (u, d) !in es;
    if Reach(es, w.short, d) {
      var u := LastEdge(es, w.short, d);
    }
    KeepMembers(es, w.short, w.deps, d);
  }

  /** Given after the packages of a walk to the dependency, it loses it. */
  lemma LateLoses(ps: seq<Package>, w: Package, d: Name) returns (qs: seq<Package>)
    requires Maximal(ps, w) && d in w.deps && d != w.short && Reach(Declared(ps), w.short, d)
    ensures multiset(qs) == multiset(ps) && d !in Sources(Build(qs).edges, w.short)
  {
    var v := SimpleWalk(Declared(ps), w.short, d);
    var front := Chain(ps, v);
    assert Distinct(front);
    DistinctWithin(front, ps);
    var own, rest := LastOfItsName(ps, front, w);
    var before := front + own;
    qs := before + [w] + rest;
    KeepsLast(ps, before, w, rest);
    WalkRemains(front, own, w.short, v);
    KeepMembers(Rel(Without(Build(before).edges, w.short)), w.short, w.deps, d);
  }

  lemma WalkRemains(front: seq<Package>, own: seq<Package>, s: Name, v: seq<Name>)
    requires |v| > 0 && Distinct(v) && v[0] == s && forall p | p in own :: p.short == s
    requires forall j | 0 <= j < |v| - 1 :: v[j] in Sources(Build(front).edges, v[j + 1])
    ensures Reach(Rel(Without(Build(front + own).edges, s)), s, v[|v| - 1])
  {
    var edges := Build(front + own).edges;
    var es := Rel(Without(edges, s));
    WithoutMembers(edges, s);
    forall j | 0 <= j < |v| - 1
      ensures (v[j], v[j + 1]) in es
    {
      OwnElsewhere(front, own, s, v[j + 1]);
      SourcesMembers(edges, v[j + 1]);
    }
    assert WalkFromTo(es, v, s, v[|v| - 1]);
  }

  /** An undisputed newest package given last of its name decides identifier and dependencies. */
  lemma LastDecides(ps: seq<Package>, w: Package) returns (qs: seq<Package>)
    requires Maximal(ps, w) && Undisputed(ps, w)
    ensures multiset(qs) == multiset(ps) && w.short in Build(qs).latest && Build(qs).latest[w.short] == w.ident
    ensures Sources(Build(qs).edges, w.short) == Others(w.deps, w.short)
  {
    var own, rest := LastOfItsName(ps, [], w);
    qs := [] + own + [w] + rest;
    LastWins(ps, [] + own, w, rest);
    KeepsLast(ps, [] + own, w, rest);
    SettledPermuted(ps, qs);
    UndisputedSources(qs, w.short);
  }

  lemma Disputed(ps: seq<Package>, w: Package)
    requires Maximal(ps, w) && !Undisputed(ps, w)
    ensures !OrderIrrelevant(ps)
  {
    var d :| d in w.deps && d != w.short && Reach(Declared(ps), w.short, d);
    var early := EarlyKeeps(ps, w, d);
    var late := LateLoses(ps, w, d);
    assert Sources(Build(early).edges, w.short) != Sources(Build(late).edges, w.short);
    assert !(SameGraph(Build(early), Build(ps)) && SameGraph(Build(late), Build(ps)));
  }

  lemma Disagreed(ps: seq<Package>)
    requires !Agreed(ps) && forall w | Maximal(ps, w) :: Undisputed(ps, w)
    ensures !OrderIrrelevant(ps)
  {
    var w, v :| Maximal(ps, w) && Maximal(ps, v) && w.short == v.short
                && !(w.ident == v.ident && Others(w.deps, w.short) == Others(v.deps, v.short));
    var first := LastDecides(ps, w);
    var second := LastDecides(ps, v);
    assert !(SameGraph(Build(first), Build(ps)) && SameGraph(Build(second), Build(ps)));
  }

  /**
   Where identifiers can be ranked, every order of arrival builds the same graph if and only if
   the newest packages of every name agree in identifier and dependencies, itself left out, and
   none of these dependencies is reachable from the name along declared dependencies.
   */
  lemma OrderIrrelevantIff(ps: seq<Package>)
    requires Ranked(ps)
    ensures OrderIrrelevant(ps) <==> Settled(ps)
  {
    if Settled(ps) {
      forall qs: seq<Package> | multiset(qs) == multiset(ps)
        ensures SameGraph(Build(qs), Build(ps))
      {
        SettledSame(ps, qs);
      }
    } else if w :| Maximal(ps, w) && !Undisputed(ps, w) {
      Disputed(ps, w);
    } else {
      Disagreed(ps);
    }
  }

  /**
   In particular, if all declared dependencies together are acyclic, building from any
   permutation gives the same latest identifiers, the same dependencies of every package in
   the same order, and the same edges with multiplicity.
   */
  lemma BuildPermutation(ps: seq<Package>, qs: seq<Package>)
    requires multiset(ps) == multiset(qs) && Separated(ps) && Acyclic(Declared(ps))
    ensures SameGraph(Build(qs), Build(ps))
  {
    forall w | Maximal(ps, w)
      ensures Undisputed(ps, w)
    {
      forall d | d in w.deps
        ensures !Reach(Declared(ps), w.short, d)
      {
        assert (d, w.short) in Declared(ps);
      }
    }
    SettledSame(ps, qs);
  }

  // ----- the smallest case

  lemma FirstKeeps(p: Package, d: Name)
    requires p.short != d && p.deps == [d]
    ensures Inv(Extend(EMPTY, p)) && Sources(Extend(EMPTY, p).edges, p.short) == [d]
    ensures Extend(EMPTY, p).latest.Keys == {p.short}
  {
    BuildInv([]);
    ExtendInv(EMPTY, p);
    ExtendSources(EMPTY, p, p.short);
    ExtendLatest(EMPTY, p);
    var none := Rel(Without(EMPTY.edges, p.short));
    if Reach(none, p.short, d) {
      var m := FirstEdge(none, p.short, d);
    }
    assert [d][..0] == [];
  }

  /** A dependency on a package that already depends on the new one is not kept. */
  lemma LosesDependency(es: seq<(Name, Name)>, a: Name, b: Name)
    requires (b, a) in es && a != b
    ensures Keep(Rel(Without(es, b)), b, [a]) == []
  {
    WithoutMembers(es, b);
    ReachEdge(Rel(Without(es, b)), b, a);
    assert [a][..0] == [];
  }

  lemma SecondLoses(st: State, q: Package, a: Name)
    requires Inv(st) && q.short !in st.latest && q.deps == [a] && a != q.short
    requires Sources(st.edges, a) == [q.short]
    ensures Sources(Extend(st, q).edges, a) == [q.short] && Sources(Extend(st, q).edges, q.short) == []
  {
    ExtendSources(st, q, a);
    ExtendSources(st, q, q.short);
    assert q.short in Sources(st.edges, a);
    SourcesMembers(st.edges, a);
    LosesDependency(st.edges, a, q.short);
  }

  /**
   With cyclic dependencies the order does matter: of two packages that depend on each other,
   the one that arrives first keeps its dependency and the other loses it.
   */
  lemma FirstOfCycleWins(p: Package, q: Package)
    requires p.short != q.short && p.deps == [q.short] && q.deps == [p.short]
    ensures
      var st := Extend(Extend(EMPTY, p), q);
      Sources(st.edges, p.short) == [q.short] && Sources(st.edges, q.short) == []
  {
    FirstKeeps(p, q.short);
    SecondLoses(Extend(EMPTY, p), q, p.short);
  }
}
