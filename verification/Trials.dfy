/** Adding dependency edges on trial: one that is taken back, or many that are undone. */
module Trials {
  import opened Wrappers
  import opened Digraph
  import opened EdgeLists
  import opened Petgraph
  import opened Naming
  import opened GraphModel
  import opened GraphTheorems
  import opened JobPackages

  /** Ids and nodes are positions in `names`, and `ids` finds them. */
  ghost predicate Inverse(names: seq<string>, ids: map<string, (nat, nat)>) {
    && (forall i | 0 <= i < |names| :: names[i] in ids && ids[names[i]] == (i, i))
    && (forall s | s in ids :: ids[s].0 < |names| && names[ids[s].0] == s)
  }

  lemma InverseDistinct(names: seq<string>, ids: map<string, (nat, nat)>)
    requires Inverse(names, ids)
    ensures Distinct(names)
    ensures forall s :: s in ids <==> s in names
    ensures forall s | s in ids :: ids[s].0 == ids[s].1
  {
    forall i, j | 0 <= i < j < |names|
      ensures names[i] != names[j]
    {
      assert ids[names[i]] == (i, i);
    }
    forall s | s in ids
      ensures ids[s].0 == ids[s].1
    {
      assert names[ids[s].0] == s;
    }
  }

  lemma InverseGrow(names: seq<string>, ids: map<string, (nat, nat)>, s: string)
    requires Inverse(names, ids) && s !in ids
    ensures Inverse(names + [s], ids[s := (|names|, |names|)])
  {
  }

  lemma AddEdgeNamed(names: seq<string>, es: seq<Edge>, u: nat, v: nat)
    requires Distinct(names) && InRange(|names|, es) && u < |names| && v < |names|
    ensures InRange(|names|, es + [(u, v)])
    ensures NameEdges(names, es + [(u, v)]) == NameEdges(names, es) + [(names[u], names[v])]
    ensures Acyclic(Rel(es + [(u, v)])) <==> Acyclic(Rel(NameEdges(names, es) + [(names[u], names[v])]))
  {
    NameEdgesAppend(names, es, [(u, v)]);
    NameAcyclic(names, es + [(u, v)]);
  }

  /** Each rollback removes the edge just added, even among parallel ones. */
  method AddUnlessCyclic(n: nat, es: seq<Edge>, u: int, v: int) returns (r: seq<Edge>)
    requires InRange(n, es) && 0 <= u < n && 0 <= v < n
    ensures r == if Acyclic(Rel(es + [(u, v)])) then es + [(u, v)] else es
  {
    r := es + [(u, v)];
    var cyclic := IsCyclic(n, r);
    if cyclic {
      var e := FindEdge(r, u, v);
      r := RemoveEdge(r, e.value);
    }
  }

  /** Following edges of `base` from `pkg` leads to the node of `s`. */
  ghost predicate Hits(ids: map<string, (nat, nat)>, base: seq<Edge>, pkg: int, s: string) {
    s in ids && Reach(Rel(base), pkg, ids[s].1 as int)
  }

  lemma TryEdge(base: seq<Edge>, nodes: seq<int>, pkg: int, d: int)
    requires Acyclic(Rel(base + EdgesTo(nodes, pkg)))
    ensures base + EdgesTo(nodes + [d], pkg) == base + EdgesTo(nodes, pkg) + [(d, pkg)]
    ensures Acyclic(Rel(base + EdgesTo(nodes, pkg) + [(d, pkg)])) <==> !Reach(Rel(base), pkg, d)
  {
    var es := base + EdgesTo(nodes, pkg);
    assert EdgesTo(nodes + [d], pkg) == EdgesTo(nodes, pkg) + [(d, pkg)];
    RelAppend(es, (d, pkg));
    AcyclicAddEdge(Rel(es), d, pkg);
    RelEdgesTo(base, nodes, pkg);
    ReachIgnoresEdgesInto(Rel(base), Rel(es), pkg, d);
  }

  /** None of the first `i` dependencies closes a cycle. */
  ghost predicate NoneHits(ids: map<string, (nat, nat)>, base: seq<Edge>, pkg: int, deps: seq<string>, i: nat)
    requires i <= |deps|
  {
    forall j | 0 <= j < i :: !Hits(ids, base, pkg, ShortNames(deps)[j])
  }

  lemma NoneHitsNext(ids: map<string, (nat, nat)>, base: seq<Edge>, pkg: int, deps: seq<string>, i: nat)
    requires i < |deps| && NoneHits(ids, base, pkg, deps, i) && !Hits(ids, base, pkg, ShortName(deps[i]))
    ensures NoneHits(ids, base, pkg, deps, i + 1)
  {
  }

  lemma StillRead(ids: map<string, (nat, nat)>, base: seq<Edge>, pkg: int, deps: seq<string>, read: nat, i: nat)
    requires i < |deps| && read <= |deps| && NoneHits(ids, base, pkg, deps, i)
    requires read < |deps| ==> read > 0 && Hits(ids, base, pkg, ShortName(deps[read - 1]))
    ensures i < read
  {
    assert read > 0 ==> ShortNames(deps)[read - 1] == ShortName(deps[read - 1]);
  }

  /**
   Adds edges from the known dependencies to `pkg` until one closes a cycle.  `stop` is the
   dependency that did; the first `n` dependencies are all that is read.
   */
  method TryDependencies(n: nat, ids: map<string, (nat, nat)>, base: seq<Edge>, pkg: int, deps: seq<string>,
                         ghost read: nat)
    returns (es: seq<Edge>, nodes: seq<int>, circular: bool, ghost stop: nat)
    requires InRange(n, base) && 0 <= pkg < n && Acyclic(Rel(base)) && forall e | e in base :: e.1 != pkg
    requires forall s | s in ids :: ids[s].1 < n
    requires read <= |deps| && forall i | 0 <= i < read :: HasShortName(deps[i])
    requires read < |deps| ==> read > 0 && Hits(ids, base, pkg, ShortName(deps[read - 1]))
    ensures es == base + EdgesTo(nodes, pkg)
    ensures stop <= |deps| && (circular <==> stop < |deps|) && NoneHits(ids, base, pkg, deps, stop)
    ensures circular ==> Hits(ids, base, pkg, ShortNames(deps)[stop])
  {
    es, nodes, circular, stop := base, [], false, |deps|;
    assert base + EdgesTo(nodes, pkg) == base;
    for i := 0 to |deps|
      invariant es == base + EdgesTo(nodes, pkg)
      invariant !circular && stop == |deps| && InRange(n, es) && Acyclic(Rel(es))
      invariant NoneHits(ids, base, pkg, deps, i)
    {
      StillRead(ids, base, pkg, deps, read, i);
      assert HasShortName(deps[i]);
      var short := ShortName(deps[i]);
      if short in ids {
        var depNode: int := ids[short].1;
        TryEdge(base, nodes, pkg, depNode);
        nodes := nodes + [depNode];
        es := es + [(depNode, pkg)];
        var cyclic := IsCyclic(n, es);
        if cyclic {
          circular, stop := true, i;
          break;
        }
      }
      NoneHitsNext(ids, base, pkg, deps, i);
    }
  }

  /** What the check finds by following edges between nodes is what closes a cycle between names. */
  lemma HitsMeaning(names: seq<string>, ids: map<string, (nat, nat)>, es: seq<Edge>, pkg: nat, s: string)
    requires Inverse(names, ids) && InRange(|names|, es) && pkg < |names|
    ensures Hits(ids, Without(es, pkg as int), pkg, s) <==>
            s in names && Reach(Rel(Without(NameEdges(names, es), names[pkg])), names[pkg], s)
  {
    InverseDistinct(names, ids);
    NameWithout(names, es, pkg);
    WithoutMembers(es, pkg as int);
    if s in ids {
      NameReach(names, Without(es, pkg as int), pkg, ids[s].1);
    }
  }

  /** A trial that ran through, or broke off at `stop`, tells which dependencies close a cycle. */
  lemma TrialMeaning(names: seq<string>, ids: map<string, (nat, nat)>, es: seq<Edge>, pkg: nat,
                     deps: seq<string>, stop: nat)
    requires Inverse(names, ids) && InRange(|names|, es) && pkg < |names| && stop <= |deps|
    requires forall j | 0 <= j < stop :: !Hits(ids, Without(es, pkg as int), pkg, deps[j])
    requires stop < |deps| ==> Hits(ids, Without(es, pkg as int), pkg, deps[stop])
    ensures forall j | 0 <= j < stop && deps[j] in names ::
              !Reach(Rel(Without(NameEdges(names, es), names[pkg])), names[pkg], deps[j])
    ensures stop < |deps| ==>
              deps[stop] in names && Reach(Rel(Without(NameEdges(names, es), names[pkg])), names[pkg], deps[stop])
  {
    forall j | 0 <= j < |deps|
      ensures Hits(ids, Without(es, pkg as int), pkg, deps[j]) <==>
              deps[j] in names && Reach(Rel(Without(NameEdges(names, es), names[pkg])), names[pkg], deps[j])
    {
      HitsMeaning(names, ids, es, pkg, deps[j]);
    }
  }

  /** The detached graph of a valid graph meets what trying dependencies asks for. */
  lemma DetachedReady(names: seq<string>, es: seq<Edge>, pkg: nat)
    requires Distinct(names) && InRange(|names|, es) && pkg < |names| && Acyclic(Rel(NameEdges(names, es)))
    ensures InRange(|names|, Without(es, pkg as int)) && Acyclic(Rel(Without(es, pkg as int)))
    ensures forall e | e in Without(es, pkg as int) :: e.1 != pkg
  {
    NameAcyclic(names, es);
    WithoutMembers(es, pkg as int);
    AcyclicSubset(Rel(Without(es, pkg as int)), Rel(es));
  }

  lemma ReattachedNames(names: seq<string>, es: seq<Edge>, pkg: nat)
    requires Distinct(names) && InRange(|names|, es) && pkg < |names|
    ensures
      var fs := Without(es, pkg as int) + EdgesTo(Incoming(es, pkg as int), pkg as int);
      && InRange(|names|, fs)
      && NameEdges(names, fs) == Without(NameEdges(names, es), names[pkg])
                                 + EdgesTo(Incoming(NameEdges(names, es), names[pkg]), names[pkg])
  {
    var v: int := pkg;
    var fs := Without(es, v) + EdgesTo(Incoming(es, v), v);
    NameWithout(names, es, v);
    NameIncoming(names, es, v);
    NameEdgesAppend(names, Without(es, v), EdgesTo(Incoming(es, v), v));
    NameEdgesTo(names, Incoming(es, v), v);
    SplitMultiset(es, v);
    forall e | e in fs
      ensures e in es
    {
      assert e in multiset(fs);
    }
  }

  /** What a trial that ended at dependency `stop` says about the package. */
  lemma TrialAnswer(st: State, p: Package, es: seq<Edge>, fs: seq<Edge>, pkg: nat, stop: nat)
    requires Inv(st) && InRange(|st.names|, es) && st.edges == NameEdges(st.names, es)
    requires pkg < |st.names| && st.names[pkg] == p.short
    requires fs == Without(es, pkg as int) + EdgesTo(Incoming(es, pkg as int), pkg as int)
    requires stop <= |p.deps|
    requires forall j | 0 <= j < stop && p.deps[j] in st.names :: !Closes(st, p.short, p.deps[j])
    requires stop < |p.deps| ==> p.deps[stop] in st.names && Closes(st, p.short, p.deps[stop])
    ensures InRange(|st.names|, fs) && Inv(Checked(st, p))
    ensures State(st.names, st.latest, NameEdges(st.names, fs)) == Checked(st, p)
    ensures CanExtend(st, p) <==> stop == |p.deps|
    ensures stop < |p.deps| ==> StopsAt(st, p, stop)
  {
    ReattachedNames(st.names, es, pkg);
    CheckedInv(st, p);
  }

  /**
   Takes out the edges into `pkg`, tries the dependencies, and undoes both.  The trial stops
   at the first known dependency that depends on `pkg`.
   */
  method Trial(ghost st: State, n: nat, ids: map<string, (nat, nat)>, es: seq<Edge>, pkg: nat,
               package: JobGraphPackage)
    returns (r: seq<Edge>, circular: bool, ghost stop: nat)
    requires Inv(st) && Inverse(st.names, ids) && n == |st.names| && InRange(n, es) && pkg < n
    requires st.edges == NameEdges(st.names, es) && st.names[pkg] == ShortName(package.ident)
    requires CanCheck(st, package)
    ensures r == Without(es, pkg as int) + EdgesTo(Incoming(es, pkg as int), pkg as int)
    ensures stop <= |package.deps| && (circular <==> stop < |package.deps|)
    ensures
      var p := Meaning(package);
      && (forall j | 0 <= j < stop && p.deps[j] in st.names :: !Closes(st, p.short, p.deps[j]))
      && (circular ==> p.deps[stop] in st.names && Closes(st, p.short, p.deps[stop]))
  {
    InverseDistinct(st.names, ids);
    DetachedReady(st.names, es, pkg);
    ghost var read: nat :| ReadTo(st, package, read);
    if read < |package.deps| {
      HitsMeaning(st.names, ids, es, pkg, ShortName(package.deps[read - 1]));
    }
    var saved, nodes;
    r, saved := Detach(es, pkg as int);
    ghost var base := r;
    r, nodes, circular, stop := TryDependencies(n, ids, r, pkg, package.deps, read);
    r := Undo(r, base, nodes, pkg as int);
    r := Attach(r, saved, pkg as int);
    TrialMeaning(st.names, ids, es, pkg, ShortNames(package.deps), stop);
  }
}
