/**
 The package graph of the build service: packages arrive with their dependencies, are kept
 under their short names, and are queried for what has to be rebuilt after them.
 */
module PackageGraphs {
  import opened Wrappers
  import opened EdgeLists
  import opened Petgraph
  import opened Naming
  import opened PackageIdents
  import opened Rdeps
  import opened GraphModel
  import opened GraphTheorems
  import opened GraphQueries
  import opened GraphHistory
  import opened JobPackages
  import opened Trials
  import opened TopEntries

  lemma NodesBehindEdges(n: nat, es: seq<Edge>)
    requires InRange(n, es) && es != []
    ensures n > 0
  {
    assert es[0] in es;
  }

  class PackageGraph {
    var packageMax: nat
    var packageMap: map<string, (nat, nat)>
    var latestMap: map<string, PackageIdent>
    var packageNames: seq<string>
    var nodeCount: nat
    var edges: seq<Edge>

    /** The maps between names, ids and nodes are inverse to each other. */
    ghost predicate Indexed()
      reads this
    {
      && packageMax == |packageNames| == nodeCount
      && Inverse(packageNames, packageMap)
      && InRange(nodeCount, edges)
    }

    ghost function Abs(): State
      reads this
    {
      State(packageNames, latestMap, NameEdges(packageNames, edges))
    }

    ghost predicate Valid()
      reads this
    {
      Indexed() && Inv(Abs())
    }

    constructor ()
      ensures Valid() && Abs() == EMPTY
    {
      packageMax := 0;
      packageMap := map[];
      latestMap := map[];
      packageNames := [];
      nodeCount := 0;
      edges := [];
      new;
      assert Abs() == EMPTY;
      assert Uses(EMPTY) == {};
    }

    /** Finds the node of a name, or creates one. */
    method GenerateId(name: string) returns (id: nat, node: nat)
      requires Indexed() && HasShortName(name)
      modifies `packageMax, `packageMap, `packageNames, `nodeCount
      ensures Indexed() && Abs() == Intern(old(Abs()), ShortName(name))
      ensures id == node < |packageNames| && packageNames[node] == ShortName(name)
    {
      var short := ShortName(name);
      InverseDistinct(packageNames, packageMap);
      if short in packageMap {
        var val := packageMap[short];
        id, node := val.0, val.1;
      } else {
        NameEdgesGrow(packageNames, packageNames + [short], edges);
        InverseGrow(packageNames, packageMap, short);
        packageNames := packageNames + [short];
        assert packageNames[packageMax] == short;
        node := nodeCount;
        nodeCount := nodeCount + 1;
        packageMap := packageMap[short := (packageMax, node)];
        packageMax := packageMax + 1;
        id := packageMax - 1;
      }
    }

    /** Adds one dependency edge and takes it back if the graph has become cyclic. */
    method AddDependency(dep: string, pkgNode: nat)
      requires Indexed() && pkgNode < |packageNames| && HasShortName(dep)
      modifies this
      ensures Indexed() && old(packageNames) <= packageNames
      ensures Abs() == AddDep(old(Abs()), old(packageNames)[pkgNode], ShortName(dep))
    {
      var _, depNode := GenerateId(dep);
      InverseDistinct(packageNames, packageMap);
      AddEdgeNamed(packageNames, edges, depNode, pkgNode);
      edges := AddUnlessCyclic(nodeCount, edges, depNode, pkgNode);
    }

    /**
     Says whether a package could be added without closing a cycle, by trying it out and
     undoing the changes.  `stop` is the dependency at which the trial broke off.
     */
    method CheckExtend(package: JobGraphPackage) returns (ok: bool, ghost stop: nat)
      requires Valid() && CanCheck(Abs(), package)
      modifies `edges
      ensures Valid() && Abs() == Checked(old(Abs()), Meaning(package))
      ensures ok <==> CanExtend(old(Abs()), Meaning(package))
      ensures !ok ==> StopsAt(old(Abs()), Meaning(package), stop)
    {
      var short := ShortName(package.ident);
      InverseDistinct(packageNames, packageMap);
      if short !in packageMap {
        return true, 0;
      }
      var pkgNode := packageMap[short].1;
      ghost var st, p, before := Abs(), Meaning(package), edges;
      var circular;
      edges, circular, stop := Trial(st, nodeCount, packageMap, edges, pkgNode, package);
      TrialAnswer(st, p, before, edges, pkgNode, stop);
      ok := !circular;
    }

    /** Unless the identifier is outdated, makes it the latest one and removes the old edges. */
    method Prepare(pkgNode: nat, pkgIdent: PackageIdent) returns (addDeps: bool)
      requires Indexed() && pkgNode < |packageNames|
      modifies `edges, `latestMap
      ensures Indexed()
      ensures addDeps <==>
              !(packageNames[pkgNode] in old(latestMap) && Older(pkgIdent, old(latestMap)[packageNames[pkgNode]]))
      ensures !addDeps ==> Abs() == old(Abs())
      ensures addDeps ==>
                var short := packageNames[pkgNode];
                Abs() == State(packageNames, old(latestMap)[short := pkgIdent],
                               if short in old(latestMap) then Without(old(Abs()).edges, short) else old(Abs()).edges)
    {
      var short := packageNames[pkgNode];
      if short in latestMap {
        if Older(pkgIdent, latestMap[short]) {
          return false;
        }
        InverseDistinct(packageNames, packageMap);
        NameWithout(packageNames, edges, pkgNode);
        WithoutSubset(edges, pkgNode as int);
        var rest, _ := Detach(edges, pkgNode as int);
        edges := rest;
      }
      latestMap := latestMap[short := pkgIdent];
      return true;
    }

    method AddDependencies(deps: seq<string>, pkgNode: nat)
      requires Indexed() && pkgNode < |packageNames| && forall d | d in deps :: HasShortName(d)
      modifies this
      ensures Indexed()
      ensures Abs() == AddDeps(old(Abs()), old(packageNames)[pkgNode], ShortNames(deps))
    {
      ghost var st, short := Abs(), packageNames[pkgNode];
      ghost var names := ShortNames(deps);
      assert names[..0] == [];
      for i := 0 to |deps|
        invariant Indexed() && pkgNode < |packageNames| && packageNames[pkgNode] == short
        invariant Abs() == AddDeps(st, short, names[..i])
      {
        assert deps[i] in deps;
        AddDepsNext(st, short, names, i);
        AddDependency(deps[i], pkgNode);
      }
      assert names[..|deps|] == names;
    }

    /** Adds a package, replacing what an older identifier of the same name had put in. */
    method Extend(package: JobGraphPackage) returns (nodes: nat, edgeCount: nat)
      requires Valid() && CanTake(Abs(), package)
      modifies this
      ensures Valid() && Abs() == GraphModel.Extend(old(Abs()), Meaning(package))
      ensures nodes == |Abs().names| && edgeCount == |Abs().edges|
    {
      ghost var st := Abs();
      ghost var p := Meaning(package);
      ParsedHasShortName(package.ident);
      var pkgId, pkgNode := GenerateId(package.ident);
      var pkgIdent := FromStr(package.ident).value;
      var addDeps := Prepare(pkgNode, pkgIdent);
      if addDeps {
        AddDependencies(package.deps, pkgNode);
      }
      assert Abs() == GraphModel.Extend(st, p);
      ExtendInv(st, p);
      nodes, edgeCount := nodeCount, |edges|;
    }

    /** The name and latest identifier of everything to rebuild after `name`, in order. */
    method Rdeps(name: string) returns (r: Option<seq<(string, string)>>)
      requires Valid()
      ensures r.None? <==> name !in Abs().names
      ensures r.Some? ==> ReverseDeps(Uses(Abs()), name, Firsts(r.value))
      ensures r.Some? ==> forall x | x in r.value :: x.0 in latestMap && x.1 == ToString(latestMap[x.0])
    {
      InverseDistinct(packageNames, packageMap);
      if name !in packageMap {
        return None;
      }
      var pkgNode := packageMap[name].1;
      NameAcyclic(packageNames, edges);
      var found := ReverseDependencies(nodeCount, edges, pkgNode);
      assert found.Ok?;
      var deps := found.value;
      NameReverseDeps(packageNames, edges, pkgNode, deps);
      var v: seq<(string, string)> := [];
      for k := 0 to |deps|
        invariant |v| == k && forall i | 0 <= i < k :: v[i].0 == NameAt(packageNames, deps[i])
        invariant forall x | x in v :: x.0 in latestMap && x.1 == ToString(latestMap[x.0])
      {
        assert deps[k] in deps;
        var n := packageNames[deps[k]];
        assert NamesAt(packageNames, deps)[k] == n;
        ReachedIsLatest(Abs(), name, n);
        v := v + [(n, ToString(latestMap[n]))];
      }
      assert Firsts(v) == NamesAt(packageNames, deps);
      return Some(v);
    }

    /** The full identifier of the latest package known under a short name. */
    method Resolve(name: string) returns (r: Option<string>)
      requires Valid()
      ensures r == if name in Abs().latest then Some(ToString(Abs().latest[name])) else None
    {
      if name in latestMap {
        return Some(ToString(latestMap[name]));
      }
      return None;
    }

    /** The `max` packages with the most reverse dependencies. */
    method Top(max: nat) returns (v: seq<(string, nat)>)
      requires Valid()
      ensures TopList(Abs(), max, v)
    {
      ghost var st := Abs();
      InverseDistinct(packageNames, packageMap);
      NameAcyclic(packageNames, edges);
      var heap: set<HeapEntry> := {};
      var left := packageMap.Keys;
      while left != {}
        invariant left <= packageMap.Keys
        invariant Counted(st, heap)
        invariant forall i: nat | i < |packageNames| && packageNames[i] !in left :: Entry(st, i) in heap
        decreases left
      {
        var s :| s in left;
        left := left - {s};
        var (index, node) := packageMap[s];
        var found := ReverseDependencies(nodeCount, edges, node);
        assert found.Ok?;
        NameReverseDeps(packageNames, edges, node, found.value);
        DependentsCount(st, s, NamesAt(packageNames, found.value));
        var he := HeapEntry(index, |found.value|);
        heap := heap + {he};
        assert he == Entry(st, index);
      }
      v := Drain(st, packageNames, heap, max);
    }

    method Build(packages: seq<JobGraphPackage>) returns (nodes: nat, edgeCount: nat)
      requires Valid() && packageMax == 0
      requires forall i | 0 <= i < |packages| :: CanTake(GraphModel.Build(Meanings(packages)[..i]), packages[i])
      modifies this
      ensures Valid() && Abs() == GraphModel.Build(Meanings(packages))
      ensures nodes == |Abs().names| && edgeCount == |Abs().edges|
    {
      if edges != [] {
        NodesBehindEdges(nodeCount, edges);
      }
      ghost var ps := Meanings(packages);
      assert ps[..0] == [];
      for i := 0 to |packages|
        invariant Valid() && Abs() == GraphModel.Build(ps[..i])
      {
        assert ps[..i + 1][..i] == ps[..i];
        var _, _ := Extend(packages[i]);
      }
      assert ps[..|packages|] == ps;
      nodes, edgeCount := nodeCount, |edges|;
    }
  }

  // ----- what resolving a name means

  /**
   After any stream of packages a name resolves exactly if a package of that name came, and
   then to the identifier of its winning package, letter by letter as it came.
   */
  lemma ResolvesToGiven(packages: seq<JobGraphPackage>, s: string)
    requires forall p | p in packages :: FromStr(p.ident).Some?
    ensures
      var ps := Meanings(packages);
      && (s in GraphModel.Build(ps).latest <==> exists p | p in packages :: ShortName(p.ident) == s)
      && (s in GraphModel.Build(ps).latest ==>
            && Winner(ps, s).Some?
            && ToString(GraphModel.Build(ps).latest[s]) == packages[Winner(ps, s).value].ident)
  {
    var ps := Meanings(packages);
    LatestFromWinner(ps, s);
    forall p | p in packages && ShortName(p.ident) == s
      ensures s in GraphModel.Build(ps).latest
    {
      var i :| 0 <= i < |packages| && packages[i] == p;
      assert ps[i] == Meaning(p) && ps[i] in ps;
      WinnerExists(ps, ps[i]);
    }
    if Winner(ps, s).Some? {
      var i := Winner(ps, s).value;
      assert packages[i] in packages;
      PrintParsed(packages[i].ident);
    }
  }
}
