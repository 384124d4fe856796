/** What the package graph remembers of the packages it was given, and what it forgets. */
module GraphHistory {
  import Strings
  import opened Wrappers
  import opened Digraph
  import opened EdgeLists
  import opened PackageIdents
  import opened VersionOrder
  import opened DigitStrings
  import opened IdentOrder
  import opened GraphModel
  import opened GraphTheorems

  // ----- the check predicts the extension

  /** Adding dependency `i` after those before it left the edges as they were. */
  ghost predicate RolledBack(st: State, s: Name, deps: seq<Name>, i: nat)
    requires i < |deps|
  {
    AddDeps(st, s, deps[..i + 1]).edges == AddDeps(st, s, deps[..i]).edges
  }

  lemma RolledBackIff(st: State, s: Name, deps: seq<Name>, i: nat)
    requires Acyclic(Uses(st)) && i < |deps|
    ensures RolledBack(st, s, deps, i) <==> Reach(Uses(st), s, deps[i])
  {
    AddDepsEdges(st, s, deps[..i]);
    AddDepsEdges(st, s, deps[..i + 1]);
    assert deps[..i + 1][..i] == deps[..i];
    var es := Uses(st);
    assert |Keep(es, s, deps[..i + 1])| == |Keep(es, s, deps[..i])| + if Reach(es, s, deps[i]) then 0 else 1;
    if Reach(es, s, deps[i]) {
      assert Keep(es, s, deps[..i + 1]) == Keep(es, s, deps[..i]);
    }
  }

  /** Only a name in the graph, or the package itself, can close a cycle. */
  lemma ClosesKnown(st: State, s: Name, d: Name)
    requires Inv(st) && Closes(st, s, d)
    ensures d == s || (s in st.names && d in st.names)
  {
    if d != s {
      WithoutMembers(st.edges, s);
      var base := Rel(Without(st.edges, s));
      var first := FirstEdge(base, s, d);
      var last := LastEdge(base, s, d);
      assert (s, first) in st.edges && (last, d) in st.edges;
    }
  }

  /**
   An extension that is not skipped rolls back exactly the dependencies that close a
   cycle.  For a known package the check therefore succeeds exactly when the extension
   rolls nothing back, and it fails first where the extension rolls back first.  For a
   brand new package the check always succeeds, and the extension rolls back exactly the
   dependencies of the package on itself.
   */
  lemma CheckPredictsExtend(st: State, p: Package)
    requires Inv(st) && !Skipped(st, p)
    ensures forall i | 0 <= i < |p.deps| ::
              RolledBack(Prepared(st, p), p.short, p.deps, i) <==> Closes(st, p.short, p.deps[i])
    ensures p.short in st.names ==>
              (CanExtend(st, p) <==>
               forall i | 0 <= i < |p.deps| :: !RolledBack(Prepared(st, p), p.short, p.deps, i))
    ensures p.short !in st.names ==>
              CanExtend(st, p) && forall i | 0 <= i < |p.deps| ::
                RolledBack(Prepared(st, p), p.short, p.deps, i) <==> p.deps[i] == p.short
  {
    PreparedEdges(st, p);
    PreparedInv(st, p);
    forall i | 0 <= i < |p.deps|
      ensures RolledBack(Prepared(st, p), p.short, p.deps, i) <==> Closes(st, p.short, p.deps[i])
      ensures Closes(st, p.short, p.deps[i]) ==> p.deps[i] == p.short || (p.short in st.names && p.deps[i] in st.names)
    {
      RolledBackIff(Prepared(st, p), p.short, p.deps, i);
      if Closes(st, p.short, p.deps[i]) {
        ClosesKnown(st, p.short, p.deps[i]);
      }
    }
    ReachSelf(Rel(Without(st.edges, p.short)), p.short);
  }

  /** The first rollback of the extension is at the dependency where the check broke off. */
  lemma FirstRollback(st: State, p: Package, stop: nat)
    requires Inv(st) && !Skipped(st, p) && p.short in st.names && StopsAt(st, p, stop)
    ensures RolledBack(Prepared(st, p), p.short, p.deps, stop)
    ensures forall j | 0 <= j < stop :: !RolledBack(Prepared(st, p), p.short, p.deps, j)
  {
    CheckPredictsExtend(st, p);
    forall j | 0 <= j < stop
      ensures !Closes(st, p.short, p.deps[j])
    {
      if Closes(st, p.short, p.deps[j]) {
        ClosesKnown(st, p.short, p.deps[j]);
      }
    }
  }

  // ----- which package supplied the edges of a name

  /** The last package for `s` that was not skipped. */
  ghost function Winner(ps: seq<Package>, s: Name): (r: Option<nat>)
    ensures r.Some? ==> r.value < |ps| && ps[r.value].short == s
  {
    if ps == [] then None
    else
      var front, p := ps[..|ps| - 1], ps[|ps| - 1];
      if p.short == s && !Skipped(Build(front), p) then Some(|front|) else Winner(front, s)
  }

  /** One extension replaces the edges into its own package, and no others. */
  lemma ExtendSources(st: State, p: Package, s: Name)
    requires Inv(st)
    ensures Sources(Extend(st, p).edges, s) ==
            if s == p.short && !Skipped(st, p)
            then Keep(Rel(Without(st.edges, s)), s, p.deps)
            else Sources(st.edges, s)
  {
    if !Skipped(st, p) {
      ExtendEdges(st, p);
      var base := Without(st.edges, p.short);
      var kept := Keep(Rel(base), p.short, p.deps);
      SourcesAppend(base, EdgesTo(kept, p.short), s);
      SourcesWithout(st.edges, p.short, s);
      SourcesEdgesTo(kept, p.short, s);
    }
  }

  lemma ExtendLatest(st: State, p: Package)
    requires Inv(st)
    ensures Extend(st, p).latest == if Skipped(st, p) then st.latest else st.latest[p.short := p.ident]
  {
    if !Skipped(st, p) {
      PreparedInv(st, p);
      AddDepsNames(Prepared(st, p), p.short, p.deps);
    }
  }

  /** The latest identifier of a name is its winner's. */
  lemma {:induction false} LatestFromWinner(ps: seq<Package>, s: Name)
    ensures s in Build(ps).latest <==> Winner(ps, s).Some?
    ensures Winner(ps, s).Some? ==> Build(ps).latest[s] == ps[Winner(ps, s).value].ident
  {
    if ps != [] {
      var front, p := ps[..|ps| - 1], ps[|ps| - 1];
      BuildInv(front);
      LatestFromWinner(front, s);
      ExtendLatest(Build(front), p);
    }
  }

  /** A name has a winner once any package was given for it. */
  lemma {:induction false} WinnerExists(ps: seq<Package>, p: Package)
    requires p in ps
    ensures Winner(ps, p.short).Some?
  {
    var front, last := ps[..|ps| - 1], ps[|ps| - 1];
    LatestFromWinner(front, p.short);
    if p in front {
      WinnerExists(front, p);
    } else {
      assert last == p;
    }
  }

  /**
   The edges into `s` are exactly the dependencies of its winner, in order, less those that
   closed a cycle at the time it was added.  Superseded and skipped packages leave no edge.
   */
  lemma {:induction false} EdgesFromWinner(ps: seq<Package>, s: Name)
    ensures Winner(ps, s).None? ==> Sources(Build(ps).edges, s) == []
    ensures Winner(ps, s).Some? ==>
              var w := Winner(ps, s).value;
              Sources(Build(ps).edges, s) == Keep(Rel(Without(Build(ps[..w]).edges, s)), s, ps[w].deps)
  {
    if ps != [] {
      var front, p := ps[..|ps| - 1], ps[|ps| - 1];
      BuildInv(front);
      EdgesFromWinner(front, s);
      ExtendSources(Build(front), p, s);
      if Winner(front, s).Some? {
        assert ps[..Winner(front, s).value] == front[..Winner(front, s).value];
      }
    }
  }

  // ----- the winner is the greatest

  ghost function IdentsOf(ps: seq<Package>, s: Name): set<PackageIdent> {
    set p | p in ps && p.short == s :: p.ident
  }

  /**
   When `Older` ranks the identifiers given for a name, the latest one is a greatest of
   them, and everything given after it is strictly older: ties go to the last.
   */
  lemma {:induction false} WinnerIsGreatest(ps: seq<Package>, s: Name)
    requires Ranks(IdentsOf(ps, s))
    ensures Winner(ps, s).Some? ==>
              var w := Winner(ps, s).value;
              forall j | 0 <= j < |ps| && ps[j].short == s ::
                && !Older(ps[w].ident, ps[j].ident)
                && (j > w ==> Older(ps[j].ident, ps[w].ident))
  {
    if ps != [] {
      var front, p := ps[..|ps| - 1], ps[|ps| - 1];
      assert ps == front + [p];
      assert IdentsOf(front, s) <= IdentsOf(ps, s);
      WinnerIsGreatest(front, s);
      LatestFromWinner(front, s);
      OlderAsymmetric(p.ident, p.ident);
      if p.short == s && !Skipped(Build(front), p) {
        forall j | 0 <= j < |front| && front[j].short == s
          ensures !Older(p.ident, front[j].ident)
        {
          WinnerExists(front, front[j]);
          var w := front[Winner(front, s).value];
          assert p in ps && w in ps && front[j] in ps;
          assert {p.ident, w.ident, front[j].ident} <= IdentsOf(ps, s);
        }
      } else if p.short == s {
        OlderAsymmetric(p.ident, front[Winner(front, s).value].ident);
      }
    }
  }

  /** Every package in `ps` is for `s`, with an identifier from `ids`. */
  ghost predicate Drawn(ps: seq<Package>, s: Name, ids: set<PackageIdent>) {
    forall p | p in ps :: p.short == s && p.ident in ids
  }

  /** However packages with identifiers from `ids` arrive, none is newer than the latest. */
  ghost predicate AlwaysGreatest(s: Name, ids: set<PackageIdent>) {
    forall ps, p: Package | Drawn(ps, s, ids) && p in ps ::
      s in Build(ps).latest && !Older(Build(ps).latest[s], p.ident)
  }

  /** The latest identifier is always a greatest one exactly when `Older` ranks the identifiers. */
  lemma LatestGreatestIff(s: Name, ids: set<PackageIdent>)
    ensures AlwaysGreatest(s, ids) <==> Ranks(ids)
  {
    if Ranks(ids) {
      forall ps, p: Package | Drawn(ps, s, ids) && p in ps
        ensures s in Build(ps).latest && !Older(Build(ps).latest[s], p.ident)
      {
        assert IdentsOf(ps, s) <= ids;
        LatestFromWinner(ps, s);
        WinnerExists(ps, p);
        WinnerIsGreatest(ps, s);
      }
    } else {
      var a, b, c :| a in ids && b in ids && c in ids && Older(a, c) && !Older(a, b) && !Older(b, c);
      var ps := [Package(s, c, []), Package(s, b, []), Package(s, a, [])];
      LastOfThree(s, a, b, c);
      assert Drawn(ps, s, ids);
      assert ps[0] in ps;
    }
  }

  /** For identifiers of one name it is so if and only if their versions agree with each other. */
  lemma LatestGreatestByVersion(s: Name, ids: set<PackageIdent>)
    requires forall i, j | i in ids && j in ids :: i.name == j.name
    ensures AlwaysGreatest(s, ids) <==> Agree(ids)
  {
    LatestGreatestIff(s, ids);
    IdentsRankIff(ids);
  }

  /** What is latest was given, and nothing given is newer, where identifiers can be ranked. */
  lemma LatestOf(ps: seq<Package>, s: Name, p: Package)
    requires Ranks(IdentsOf(ps, s)) && p in ps && p.short == s
    ensures s in Build(ps).latest && Build(ps).latest[s] in IdentsOf(ps, s) && !Older(Build(ps).latest[s], p.ident)
  {
    LatestFromWinner(ps, s);
    WinnerExists(ps, p);
    WinnerIsGreatest(ps, s);
    var i :| 0 <= i < |ps| && ps[i] == p;
  }

  /**
   Of packages with one version, whatever it is, the latest has a release that no other one
   follows at the first character that differs.
   */
  lemma LatestRelease(ps: seq<Package>, s: Name, p: Package, n: string, v: string)
    requires p in ps && p.short == s
    requires forall i | i in IdentsOf(ps, s) :: i.name == n && i.version == Some(v) && i.release.Some?
    ensures s in Build(ps).latest && Build(ps).latest[s].release.Some? && p.ident.release.Some?
    ensures !Before(Build(ps).latest[s].release.value, p.ident.release.value)
  {
    var ids := IdentsOf(ps, s);
    CompareVersionsSwap(v, v);
    assert forall u | u in VersionsOf(ids) :: u == v;
    IdentsRank(ids);
    LatestOf(ps, s, p);
    assert p.ident in ids;
    OlderRelease(Build(ps).latest[s], p.ident);
  }

  /** Of packages whose versions are all numbers that can be read, none has a version after that of the latest. */
  lemma LatestVersion(ps: seq<Package>, s: Name, p: Package, n: string)
    requires p in ps && p.short == s
    requires forall i | i in IdentsOf(ps, s) :: i.name == n && Full(i) && Numeric(i.version.value)
    ensures s in Build(ps).latest && Full(Build(ps).latest[s]) && Full(p.ident)
    ensures !VersionBefore(Build(ps).latest[s].version.value, p.ident.version.value)
  {
    var ids := IdentsOf(ps, s);
    forall a, x, b | a in ids && x in ids && b in ids
      ensures !Between(a.version.value, x.version.value, b.version.value)
    {
      NumberedAsStrings(a.version.value, x.version.value);
    }
    IdentsRankIff(ids);
    LatestOf(ps, s, p);
    assert p.ident in ids;
    OlderIff(Build(ps).latest[s], p.ident);
  }

  lemma LastOfThree(s: Name, a: PackageIdent, b: PackageIdent, c: PackageIdent)
    requires !Older(a, b) && !Older(b, c)
    ensures
      var st := Build([Package(s, c, []), Package(s, b, []), Package(s, a, [])]);
      s in st.latest && st.latest[s] == a
  {
    var p, q, r := Package(s, c, []), Package(s, b, []), Package(s, a, []);
    assert [p, q, r][..2] == [p, q] && [p, q][..1] == [p] && [p][..0] == [];
    assert Build([p]) == Extend(EMPTY, p);
    assert Build([p, q]) == Extend(Build([p]), q);
    BuildInv([]);
    BuildInv([p]);
    BuildInv([p, q]);
    ExtendLatest(EMPTY, p);
    ExtendLatest(Build([p]), q);
    ExtendLatest(Build([p, q]), r);
  }

  /** An identifier that differs from others in its version. */
  function Versioned(base: PackageIdent, v: string): PackageIdent {
    base.(version := Some(v))
  }

  /** Versions on a circle can arrive so that the last, and latest, is older than the first. */
  lemma LatestOnCircle(s: Name, base: PackageIdent, x: string, y: string, z: string)
    requires base.release.Some?
    requires Strings.Less == CompareVersions(x, y) == CompareVersions(y, z) == CompareVersions(z, x)
    ensures
      var first, second, third := Versioned(base, y), Versioned(base, z), Versioned(base, x);
      var st := Build([Package(s, first, []), Package(s, second, []), Package(s, third, [])]);
      s in st.latest && st.latest[s] == third && Older(third, first)
  {
    CompareVersionsSwap(y, z);
    CompareVersionsSwap(z, x);
    LastOfThree(s, Versioned(base, x), Versioned(base, z), Versioned(base, y));
  }

  /** So it is for beta, then beta9, then alpha10. */
  lemma LatestOlderThanFirst(s: Name, base: PackageIdent)
    requires base.release.Some?
    ensures
      var first, second, third := Versioned(base, "beta"), Versioned(base, "beta9"), Versioned(base, "alpha10");
      var st := Build([Package(s, first, []), Package(s, second, []), Package(s, third, [])]);
      s in st.latest && st.latest[s] == third && Older(third, first)
  {
    VersionCircle();
    LatestOnCircle(s, base, "alpha10", "beta", "beta9");
  }
}
