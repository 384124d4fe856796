/** What every sequence of calls on the package graph keeps, and what each call does. */
module GraphTheorems {
  import opened Wrappers
  import opened Digraph
  import opened EdgeLists
  import opened GraphModel

  // ----- adding dependencies

  lemma RelAppend<V>(es: seq<(V, V)>, e: (V, V))
    ensures Rel(es + [e]) == Rel(es) + {e}
  {
  }

  lemma RelEdgesTo<V>(es: seq<(V, V)>, us: seq<V>, v: V)
    ensures Rel(es) <= Rel(es + EdgesTo(us, v))
    ensures forall e | e in Rel(es + EdgesTo(us, v)) && e !in Rel(es) :: e.1 == v && e.0 in us
  {
    var to := EdgesTo(us, v);
    forall e | e in Rel(es + to) && e !in Rel(es)
      ensures e.1 == v && e.0 in us
    {
      assert e in to;
    }
  }

  /** One dependency after `kept` others is kept exactly when it does not depend on the package. */
  lemma AddDepEdges(es: seq<(Name, Name)>, st: State, s: Name, kept: seq<Name>, d: Name)
    requires st.edges == es + EdgesTo(kept, s) && Acyclic(Uses(st))
    ensures
      var more := kept + if Reach(Rel(es), s, d) then [] else [d];
      AddDep(st, s, d).edges == es + EdgesTo(more, s) && Acyclic(Uses(AddDep(st, s, d)))
  {
    RelAppend(st.edges, (d, s));
    AcyclicAddEdge(Uses(st), d, s);
    RelEdgesTo(es, kept, s);
    ReachIgnoresEdgesInto(Rel(es), Uses(st), s, d);
    if Reach(Rel(es), s, d) {
      assert kept + [] == kept;
    } else {
      assert EdgesTo(kept + [d], s) == EdgesTo(kept, s) + [(d, s)];
      assert es + (EdgesTo(kept, s) + [(d, s)]) == es + EdgesTo(kept, s) + [(d, s)];
    }
  }

  lemma AddDepsNext(st: State, s: Name, deps: seq<Name>, i: nat)
    requires i < |deps|
    ensures AddDeps(st, s, deps[..i + 1]) == AddDep(AddDeps(st, s, deps[..i]), s, deps[i])
  {
    assert deps[..i + 1][..i] == deps[..i];
  }

  /**
   Adding dependencies one at a time, each with its own rollback, keeps exactly those that
   do not depend on the package, whatever their order.
   */
  lemma {:induction false} AddDepsEdges(st: State, s: Name, deps: seq<Name>)
    requires Acyclic(Uses(st))
    ensures AddDeps(st, s, deps).edges == st.edges + EdgesTo(Keep(Uses(st), s, deps), s)
    ensures Acyclic(Uses(AddDeps(st, s, deps)))
  {
    if deps == [] {
      assert st.edges + EdgesTo([], s) == st.edges;
    } else {
      var front, d := deps[..|deps| - 1], deps[|deps| - 1];
      AddDepsEdges(st, s, front);
      AddDepEdges(st.edges, AddDeps(st, s, front), s, Keep(Uses(st), s, front), d);
    }
  }

  /** Adding dependencies learns their names and nothing else. */
  lemma {:induction false} AddDepsNames(st: State, s: Name, deps: seq<Name>)
    requires Distinct(st.names)
    ensures Distinct(AddDeps(st, s, deps).names) && st.names <= AddDeps(st, s, deps).names
    ensures forall x :: x in AddDeps(st, s, deps).names <==> x in st.names || x in deps
    ensures AddDeps(st, s, deps).latest == st.latest
  {
    if deps != [] {
      var front, d := deps[..|deps| - 1], deps[|deps| - 1];
      assert deps == front + [d];
      AddDepsNames(st, s, front);
    }
  }

  // ----- the invariant over every run

  /** A name that was never added has no incoming edge, so its edges need no removal. */
  lemma PreparedEdges(st: State, p: Package)
    requires Inv(st)
    ensures Prepared(st, p).edges == Without(st.edges, p.short)
  {
    var into := Incoming(st.edges, p.short);
    if p.short !in st.latest && into != [] {
      assert into[0] in into;
      IncomingMembers(st.edges, p.short);
    }
    if into == [] {
      NothingIncoming(st.edges, p.short);
    }
  }

  lemma PreparedInv(st: State, p: Package)
    requires Inv(st)
    ensures Inv(Prepared(st, p))
  {
    var q := Prepared(st, p);
    PreparedEdges(st, p);
    WithoutSubset(st.edges, p.short);
    AcyclicSubset(Uses(q), Uses(st));
    forall e | e in q.edges
      ensures e.0 in q.names && e.1 in q.latest
    {
      assert e in st.edges;
    }
  }

  /**
   The edges after an extension that is not skipped: those of other packages untouched and
   in order, then the dependencies that close no cycle.
   */
  lemma ExtendEdges(st: State, p: Package)
    requires Inv(st) && !Skipped(st, p)
    ensures
      var base := Without(st.edges, p.short);
      Extend(st, p).edges == base + EdgesTo(Keep(Rel(base), p.short, p.deps), p.short)
  {
    PreparedEdges(st, p);
    PreparedInv(st, p);
    AddDepsEdges(Prepared(st, p), p.short, p.deps);
  }

  lemma ExtendInv(st: State, p: Package)
    requires Inv(st)
    ensures Inv(Extend(st, p))
  {
    if !Skipped(st, p) {
      var q := Prepared(st, p);
      PreparedInv(st, p);
      AddDepsNames(q, p.short, p.deps);
      AddDepsEdges(q, p.short, p.deps);
      RelEdgesTo(q.edges, Keep(Uses(q), p.short, p.deps), p.short);
      var r := Extend(st, p);
      forall e | e in r.edges
        ensures e.0 in r.names && e.1 in r.latest
      {
        assert e in Uses(r);
        if e !in Uses(q) {
          assert e.0 in p.deps;
        }
      }
    }
  }

  /** A check loses no edge, keeps parallel edges parallel and changes neither map. */
  lemma CheckedPure(st: State, p: Package)
    ensures multiset(Checked(st, p).edges) == multiset(st.edges)
    ensures Checked(st, p).names == st.names && Checked(st, p).latest == st.latest
  {
    SplitMultiset(st.edges, p.short);
  }

  lemma SameEdges<V>(es: seq<(V, V)>, fs: seq<(V, V)>)
    requires multiset(es) == multiset(fs)
    ensures Rel(es) == Rel(fs)
  {
    forall e
      ensures e in es <==> e in fs
    {
      assert e in es <==> e in multiset(es);
      assert e in fs <==> e in multiset(fs);
    }
  }

  lemma CheckedInv(st: State, p: Package)
    requires Inv(st)
    ensures Inv(Checked(st, p))
  {
    CheckedPure(st, p);
    SameEdges(st.edges, Checked(st, p).edges);
    forall e | e in Checked(st, p).edges
      ensures e in st.edges
    {
      assert e in Uses(Checked(st, p));
    }
  }

  /**
   After any sequence of extensions and checks from the empty graph the graph is acyclic,
   names are distinct, edges join known names, and a name without a latest identifier has
   no incoming edge.
   */
  lemma {:induction false} RunInv(ops: seq<Op>)
    ensures Inv(Run(ops))
  {
    if ops == [] {
    } else {
      var st := Run(ops[..|ops| - 1]);
      RunInv(ops[..|ops| - 1]);
      match ops[|ops| - 1]
      case Extension(p) => ExtendInv(st, p);
      case Check(p) => CheckedInv(st, p);
    }
  }

  lemma {:induction false} BuildInv(ps: seq<Package>)
    ensures Inv(Build(ps))
  {
    if ps != [] {
      BuildInv(ps[..|ps| - 1]);
      ExtendInv(Build(ps[..|ps| - 1]), ps[|ps| - 1]);
    }
  }
}
