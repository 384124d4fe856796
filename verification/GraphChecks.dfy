/** Checks leave no trace in what later calls can see. */
module GraphChecks {
  import opened EdgeLists
  import opened GraphModel
  import opened GraphTheorems

  /** Equal up to the order of the edges. */
  ghost predicate Same(st: State, other: State) {
    st.names == other.names && st.latest == other.latest && multiset(st.edges) == multiset(other.edges)
  }

  /** The extensions of a run, without the checks. */
  ghost function Extensions(ops: seq<Op>): seq<Package> {
    if ops == [] then []
    else
      var front := Extensions(ops[..|ops| - 1]);
      match ops[|ops| - 1]
      case Extension(p) => front + [p]
      case Check(_) => front
  }

  lemma {:induction false} WithoutCount(es: seq<(Name, Name)>, v: Name, e: (Name, Name))
    ensures multiset(Without(es, v))[e] == if e.1 == v then 0 else multiset(es)[e]
  {
    if es != [] {
      var front, last := es[..|es| - 1], es[|es| - 1];
      WithoutCount(front, v, e);
      assert es == front + [last];
    }
  }

  lemma WithoutSame(es: seq<(Name, Name)>, fs: seq<(Name, Name)>, v: Name)
    requires multiset(es) == multiset(fs)
    ensures multiset(Without(es, v)) == multiset(Without(fs, v))
  {
    forall e
      ensures multiset(Without(es, v))[e] == multiset(Without(fs, v))[e]
    {
      WithoutCount(es, v, e);
      WithoutCount(fs, v, e);
    }
  }

  lemma {:induction false} AddDepsSameNames(st: State, other: State, s: Name, deps: seq<Name>)
    requires st.names == other.names && st.latest == other.latest
    ensures AddDeps(st, s, deps).names == AddDeps(other, s, deps).names
    ensures AddDeps(st, s, deps).latest == AddDeps(other, s, deps).latest
  {
    if deps != [] {
      AddDepsSameNames(st, other, s, deps[..|deps| - 1]);
    }
  }

  /** Extending does not look at the order of the edges. */
  lemma ExtendSame(st: State, other: State, p: Package)
    requires Inv(st) && Inv(other) && Same(st, other)
    ensures Same(Extend(st, p), Extend(other, p))
  {
    if !Skipped(st, p) {
      AddDepsSameNames(Prepared(st, p), Prepared(other, p), p.short, p.deps);
      ExtendEdges(st, p);
      ExtendEdges(other, p);
      WithoutSame(st.edges, other.edges, p.short);
      SameEdges(Without(st.edges, p.short), Without(other.edges, p.short));
    }
  }

  /**
   Any run of extensions and checks ends with the names, latest identifiers and edges, with
   their multiplicity, that the extensions alone would have left.
   */
  lemma {:induction false} ChecksInvisible(ops: seq<Op>)
    ensures Same(Run(ops), Build(Extensions(ops)))
  {
    if ops != [] {
      var front := ops[..|ops| - 1];
      var st, other := Run(front), Build(Extensions(front));
      ChecksInvisible(front);
      RunInv(front);
      BuildInv(Extensions(front));
      match ops[|ops| - 1]
      case Extension(p) =>
        ExtendSame(st, other, p);
        assert (Extensions(front) + [p])[..|Extensions(front)|] == Extensions(front);
      case Check(p) =>
        CheckedPure(st, p);
    }
  }
}
