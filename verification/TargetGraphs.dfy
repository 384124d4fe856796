/** One package graph per supported target platform. */
module TargetGraphs {
  import opened Wrappers
  import opened GraphModel
  import opened JobPackages
  import opened PackageGraphs
  import opened Targets

  const LINUX := PackageTarget(Linux, X86_64)
  const WINDOWS := PackageTarget(Windows, X86_64)

  /** The packages of a stream that are for target `t`, in order. */
  function ForTarget(ps: seq<JobGraphPackage>, t: PackageTarget): seq<JobGraphPackage> {
    if ps == [] then []
    else
      var front, p := ForTarget(ps[..|ps| - 1], t), ps[|ps| - 1];
      if ParseTarget(p.target) == Some(t) then front + [p] else front
  }

  /** Extends a state with packages one after the other. */
  ghost function ExtendAll(st: State, ps: seq<JobGraphPackage>): State {
    if ps == [] then st else Extend(ExtendAll(st, ps[..|ps| - 1]), Meaning(ps[|ps| - 1]))
  }

  /** What one package does to the graph of target `t`. */
  ghost function Step(st: State, t: PackageTarget, p: JobGraphPackage): State {
    if ParseTarget(p.target) == Some(t) then Extend(st, Meaning(p)) else st
  }

  ghost function Steps(st: State, t: PackageTarget, ps: seq<JobGraphPackage>): State {
    if ps == [] then st else Step(Steps(st, t, ps[..|ps| - 1]), t, ps[|ps| - 1])
  }

  /** What is read of the packages for `t` when the stream comes to them can be read. */
  ghost predicate Acceptable(st: State, t: PackageTarget, ps: seq<JobGraphPackage>) {
    forall i | 0 <= i < |ps| && ParseTarget(ps[i].target) == Some(t) :: CanTake(Steps(st, t, ps[..i]), ps[i])
  }

  /**
   A stream adds to the graph of a target exactly the packages for that target, in order, as
   if there were no others.
   */
  lemma {:induction false} StepsOfTarget(st: State, t: PackageTarget, ps: seq<JobGraphPackage>)
    ensures Steps(st, t, ps) == ExtendAll(st, ForTarget(ps, t))
  {
    if ps != [] {
      var p := ps[|ps| - 1];
      var front := ForTarget(ps[..|ps| - 1], t);
      StepsOfTarget(st, t, ps[..|ps| - 1]);
      if ParseTarget(p.target) == Some(t) {
        assert (front + [p])[..|front|] == front;
      }
    }
  }

  /** The packages for a supported target are the ones on which its name is written. */
  lemma {:induction false} ForTargetNames(ps: seq<JobGraphPackage>)
    ensures forall p :: p in ForTarget(ps, LINUX) <==> p in ps && Names(p.target, "linux")
    ensures forall p :: p in ForTarget(ps, WINDOWS) <==> p in ps && Names(p.target, "windows")
  {
    if ps != [] {
      var front, p := ps[..|ps| - 1], ps[|ps| - 1];
      ForTargetNames(front);
      TargetIff(p.target);
      assert ps == front + [p];
    }
  }

  class TargetGraph {
    var graphs: map<PackageTarget, PackageGraph>

    /** The supported targets have graphs of their own. */
    ghost predicate Valid()
      reads this, graphs.Values
    {
      && graphs.Keys == {LINUX, WINDOWS}
      && graphs[LINUX] != graphs[WINDOWS]
      && graphs[LINUX].Valid() && graphs[WINDOWS].Valid()
    }

    constructor ()
      ensures Valid() && fresh(graphs.Values)
      ensures graphs[LINUX].Abs() == EMPTY && graphs[WINDOWS].Abs() == EMPTY
    {
      var linux := new PackageGraph();
      var windows := new PackageGraph();
      graphs := map[LINUX := linux, WINDOWS := windows];
    }

    /** The graph for a target as written, if the target is supported. */
    method GraphMut(target: string) returns (g: PackageGraph?)
      requires Valid()
      ensures g != null <==> ParseTarget(target) == Some(LINUX) || ParseTarget(target) == Some(WINDOWS)
      ensures ParseTarget(target) == Some(LINUX) <==> g == graphs[LINUX]
      ensures ParseTarget(target) == Some(WINDOWS) <==> g == graphs[WINDOWS]
      ensures g == graphs[LINUX] <==> Names(target, "linux")
      ensures g == graphs[WINDOWS] <==> Names(target, "windows")
      ensures g == null <==> !Names(target, "linux") && !Names(target, "windows")
    {
      TargetIff(target);
      var t := ParseTarget(target);
      if t.Some? && t.value in graphs {
        return graphs[t.value];
      }
      return null;
    }

    /** Adds one package to the graph of its target, if there is one, and to no other. */
    method Add(p: JobGraphPackage)
      requires Valid()
      requires ParseTarget(p.target) == Some(LINUX) ==> CanTake(graphs[LINUX].Abs(), p)
      requires ParseTarget(p.target) == Some(WINDOWS) ==> CanTake(graphs[WINDOWS].Abs(), p)
      modifies graphs.Values
      ensures Valid() && graphs == old(graphs)
      ensures graphs[LINUX].Abs() == Step(old(graphs[LINUX].Abs()), LINUX, p)
      ensures graphs[WINDOWS].Abs() == Step(old(graphs[WINDOWS].Abs()), WINDOWS, p)
      ensures graphs[LINUX].Abs() ==
              if Names(p.target, "linux") then Extend(old(graphs[LINUX].Abs()), Meaning(p))
              else old(graphs[LINUX].Abs())
      ensures graphs[WINDOWS].Abs() ==
              if Names(p.target, "windows") then Extend(old(graphs[WINDOWS].Abs()), Meaning(p))
              else old(graphs[WINDOWS].Abs())
    {
      var g := GraphMut(p.target);
      if g != null {
        var _, _ := g.Extend(p);
      }
    }

    /** Sorts a stream of packages into the graphs, and counts their nodes and edges. */
    method Build(packages: seq<JobGraphPackage>) returns (stats: map<PackageTarget, (nat, nat)>)
      requires Valid() && Acceptable(graphs[LINUX].Abs(), LINUX, packages)
      requires Acceptable(graphs[WINDOWS].Abs(), WINDOWS, packages)
      modifies graphs.Values
      ensures Valid() && graphs == old(graphs)
      ensures graphs[LINUX].Abs() == ExtendAll(old(graphs[LINUX].Abs()), ForTarget(packages, LINUX))
      ensures graphs[WINDOWS].Abs() == ExtendAll(old(graphs[WINDOWS].Abs()), ForTarget(packages, WINDOWS))
      ensures stats == map[LINUX := Counts(graphs[LINUX]), WINDOWS := Counts(graphs[WINDOWS])]
    {
      ghost var linux, windows := graphs[LINUX].Abs(), graphs[WINDOWS].Abs();
      for i := 0 to |packages|
        invariant Valid() && graphs == old(graphs)
        invariant graphs[LINUX].Abs() == Steps(linux, LINUX, packages[..i])
        invariant graphs[WINDOWS].Abs() == Steps(windows, WINDOWS, packages[..i])
      {
        assert packages[..i + 1][..i] == packages[..i];
        Add(packages[i]);
      }
      assert packages[..|packages|] == packages;
      StepsOfTarget(linux, LINUX, packages);
      StepsOfTarget(windows, WINDOWS, packages);
      stats := Stats();
    }

    ghost function Counts(g: PackageGraph): (nat, nat)
      reads g
    {
      (|g.Abs().names|, |g.Abs().edges|)
    }

    method Stats() returns (stats: map<PackageTarget, (nat, nat)>)
      requires Valid()
      ensures stats == map[LINUX := Counts(graphs[LINUX]), WINDOWS := Counts(graphs[WINDOWS])]
    {
      var linux, windows := graphs[LINUX], graphs[WINDOWS];
      stats := map[LINUX := (linux.nodeCount, |linux.edges|), WINDOWS := (windows.nodeCount, |windows.edges|)];
    }
  }
}
