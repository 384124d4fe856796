/**
 What the package graph means, on short names instead of node indices: the known names in
 the order they were met, the latest identifier of each package that was added, and the
 list of `(dependency, package)` edges.
 */
module GraphModel {
  import opened Wrappers
  import opened Digraph
  import opened EdgeLists
  import opened PackageIdents

  type Name = string

  datatype Package = Package(short: Name, ident: PackageIdent, deps: seq<Name>)

  datatype State = State(names: seq<Name>, latest: map<Name, PackageIdent>, edges: seq<(Name, Name)>)

  const EMPTY := State([], map[], [])

  /** The edge relation of a state. */
  ghost function Uses(st: State): set<(Name, Name)> {
    Rel(st.edges)
  }

  function Intern(st: State, s: Name): State {
    if s in st.names then st else st.(names := st.names + [s])
  }

  /** Adds the edge from `d` to `s`, and takes it back when it closes a cycle. */
  ghost function AddDep(st: State, s: Name, d: Name): State {
    var known := Intern(st, d);
    var es := known.edges + [(d, s)];
    if Acyclic(Rel(es)) then known.(edges := es) else known
  }

  ghost function AddDeps(st: State, s: Name, deps: seq<Name>): State {
    if deps == [] then st
    else AddDep(AddDeps(st, s, deps[..|deps| - 1]), s, deps[|deps| - 1])
  }

  /** An identifier older than the latest one known for its name is ignored. */
  predicate Skipped(st: State, p: Package) {
    p.short in st.latest && Older(p.ident, st.latest[p.short])
  }

  /** The state in which the dependencies of `p` are added. */
  function Prepared(st: State, p: Package): State {
    var known := Intern(st, p.short);
    State(known.names,
          known.latest[p.short := p.ident],
          if p.short in known.latest then Without(known.edges, p.short) else known.edges)
  }

  ghost function Extend(st: State, p: Package): State {
    if Skipped(st, p) then Intern(st, p.short) else AddDeps(Prepared(st, p), p.short, p.deps)
  }

  ghost function Build(ps: seq<Package>): State {
    if ps == [] then EMPTY else Extend(Build(ps[..|ps| - 1]), ps[|ps| - 1])
  }

  /**
   Making `s` depend on `d` would close a cycle: `d` already depends on `s`, not counting
   the dependencies that `s` has now.
   */
  ghost predicate Closes(st: State, s: Name, d: Name) {
    Reach(Rel(Without(st.edges, s)), s, d)
  }

  /** The answer of the check that precedes an extension. */
  ghost predicate CanExtend(st: State, p: Package) {
    p.short in st.names ==> forall d | d in p.deps && d in st.names :: !Closes(st, p.short, d)
  }

  /** Dependency `stop` of `p` is the first known one that would close a cycle. */
  ghost predicate StopsAt(st: State, p: Package, stop: nat) {
    && stop < |p.deps| && p.deps[stop] in st.names && Closes(st, p.short, p.deps[stop])
    && forall j | 0 <= j < stop && p.deps[j] in st.names :: !Closes(st, p.short, p.deps[j])
  }

  /** The state a check leaves behind: the edges into the package are last, oldest last. */
  function Checked(st: State, p: Package): State {
    if p.short !in st.names then st
    else st.(edges := Without(st.edges, p.short) + EdgesTo(Incoming(st.edges, p.short), p.short))
  }

  datatype Op = Extension(p: Package) | Check(p: Package)

  ghost function Run(ops: seq<Op>): State {
    if ops == [] then EMPTY
    else
      var st := Run(ops[..|ops| - 1]);
      match ops[|ops| - 1]
      case Extension(p) => Extend(st, p)
      case Check(p) => Checked(st, p)
  }

  /** The members of `deps` that do not depend on `s` in `es`. */
  ghost function Keep(es: set<(Name, Name)>, s: Name, deps: seq<Name>): (r: seq<Name>)
    ensures forall d | d in r :: d in deps
  {
    if deps == [] then []
    else
      var d := deps[|deps| - 1];
      Keep(es, s, deps[..|deps| - 1]) + (if Reach(es, s, d) then [] else [d])
  }

  /** What holds after every call. */
  ghost predicate Inv(st: State) {
    && Distinct(st.names)
    && (forall e | e in st.edges :: e.0 in st.names && e.1 in st.latest)
    && (forall s | s in st.latest :: s in st.names)
    && Acyclic(Uses(st))
  }
}
