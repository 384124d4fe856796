/** Packages as they arrive at the build service, and as the model sees them. */
module JobPackages {
  import opened Wrappers
  import opened Strings
  import opened PackageIdents
  import opened GraphModel

  datatype JobGraphPackage = JobGraphPackage(ident: string, deps: seq<string>, target: string)

  /** There are an origin and a name; the original panics on other strings. */
  predicate HasShortName(name: string) {
    |Split(name, '/')| >= 2
  }

  /** The first two components; strings that have no short name are never asked for it. */
  function ShortName(name: string): string {
    if HasShortName(name) then Split(name, '/')[0] + "/" + Split(name, '/')[1] else ""
  }

  /** A text has a short name exactly if it has a slash. */
  lemma HasShortNameIff(s: string)
    ensures HasShortName(s) <==> '/' in s
  {
    JoinSplit(s, '/');
    if |Split(s, '/')| == 1 {
      assert Split(s, '/') == [s];
      assert s in Split(s, '/');
    } else if '/' !in s {
      SplitFirst(s, '/', "");
    }
  }

  /** The short name is what comes before the second slash, or everything if there is none. */
  lemma ShortNameIs(origin: string, name: string, rest: string)
    requires '/' !in origin && '/' !in name
    ensures ShortName(origin + "/" + name) == origin + "/" + name
    ensures ShortName(origin + "/" + name + "/" + rest) == origin + "/" + name
  {
    SplitFirst(origin, '/', name);
    SplitFirst(name, '/', rest);
    SplitFirst(origin, '/', name + "/" + rest);
    assert origin + "/" + name + "/" + rest == origin + "/" + (name + "/" + rest);
  }

  function ShortNames(deps: seq<string>): (r: seq<string>)
    ensures |r| == |deps| && forall i | 0 <= i < |deps| :: r[i] == ShortName(deps[i])
  {
    seq(|deps|, i requires 0 <= i < |deps| => ShortName(deps[i]))
  }

  function Meaning(p: JobGraphPackage): Package {
    var ident := FromStr(p.ident);
    Package(ShortName(p.ident),
            if ident.Some? then ident.value else PackageIdent("", "", None, None),
            ShortNames(p.deps))
  }

  function Meanings(ps: seq<JobGraphPackage>): (r: seq<Package>)
    ensures |r| == |ps| && forall i | 0 <= i < |ps| :: r[i] == Meaning(ps[i])
  {
    seq(|ps|, i requires 0 <= i < |ps| => Meaning(ps[i]))
  }

  // ----- what a call reads

  /** The identifier parses, and so do the dependencies unless the package is outdated. */
  predicate CanTake(st: State, p: JobGraphPackage) {
    FromStr(p.ident).Some? && (!Skipped(st, Meaning(p)) ==> forall d | d in p.deps :: HasShortName(d))
  }

  /** The first `n` dependencies have short names, and they are all or the last of them closes a cycle. */
  ghost predicate ReadTo(st: State, p: JobGraphPackage, n: nat) {
    && n <= |p.deps| && (forall i | 0 <= i < n :: HasShortName(p.deps[i]))
    && (n < |p.deps| ==>
          n > 0 && ShortName(p.deps[n - 1]) in st.names && Closes(st, ShortName(p.ident), ShortName(p.deps[n - 1])))
  }

  /** The identifier has a short name; a known package has readable dependencies as far as they are tried. */
  ghost predicate CanCheck(st: State, p: JobGraphPackage) {
    HasShortName(p.ident) && (ShortName(p.ident) in st.names ==> exists n :: ReadTo(st, p, n))
  }

  lemma ParsedHasShortName(s: string)
    requires FromStr(s).Some?
    ensures HasShortName(s)
  {
  }
}
