/** What it means that an identifier is older than another, said of the characters they consist of. */
module IdentOrder {
  import opened Wrappers
  import opened Strings
  import opened PackageIdents
  import opened DigitStrings

  // ----- lists of numbers

  /** The i-th number of a version; missing ones are zero. */
  function Piece(parts: seq<string>, i: nat): string {
    if i < |parts| then parts[i] else "0"
  }

  /** The numbers that can be read. */
  type Numbers = seq<Option<nat>>

  function NumbersOf(parts: seq<string>): (r: Numbers)
    ensures |r| == |parts| && forall i | 0 <= i < |r| :: r[i] == ParseU64(parts[i])
  {
    seq(|parts|, i requires 0 <= i < |parts| => ParseU64(parts[i]))
  }

  function At(a: Numbers, i: nat): Option<nat> {
    if i < |a| then a[i] else Some(0)
  }

  function Rest(a: Numbers): Numbers {
    if a == [] then [] else a[1..]
  }

  function CompareNumbers(a: Numbers, b: Numbers): Option<Ordering>
    decreases |a| + |b|
  {
    if a == [] && b == [] then Some(Equal)
    else
      var x, y := At(a, 0), At(b, 0);
      if x.None? || y.None? then None
      else if x.value < y.value then Some(Less)
      else if x.value > y.value then Some(Greater)
      else CompareNumbers(Rest(a), Rest(b))
  }

  lemma NumbersTail(a: seq<string>)
    ensures Head(a) == At(NumbersOf(a), 0) && NumbersOf(Tail(a)) == Rest(NumbersOf(a))
  {
  }

  lemma {:induction false} PartsAreNumbers(a: seq<string>, b: seq<string>)
    ensures CompareParts(a, b) == CompareNumbers(NumbersOf(a), NumbersOf(b))
    decreases |a| + |b|
  {
    NumbersTail(a);
    NumbersTail(b);
    if a != [] || b != [] {
      PartsAreNumbers(Tail(a), Tail(b));
    }
  }

  ghost predicate DifferAt(a: Numbers, b: Numbers, i: nat) {
    && (forall j: nat | j <= i :: At(a, j).Some? && At(b, j).Some?)
    && (forall j: nat | j < i :: At(a, j) == At(b, j))
    && At(a, i).value < At(b, i).value
  }

  ghost predicate DifferNowhere(a: Numbers, b: Numbers) {
    forall i: nat :: At(a, i).Some? && At(a, i) == At(b, i)
  }

  lemma AtRest(a: Numbers)
    ensures forall i: nat :: At(Rest(a), i) == At(a, i + 1)
    ensures forall i: nat | i > 0 :: At(a, i) == At(Rest(a), i - 1)
  {
  }

  lemma {:induction false} LessDiffer(a: Numbers, b: Numbers) returns (i: nat)
    requires CompareNumbers(a, b) == Some(Less)
    ensures DifferAt(a, b, i)
    decreases |a| + |b|
  {
    i := 0;
    if At(a, 0) == At(b, 0) {
      var n := LessDiffer(Rest(a), Rest(b));
      AtRest(a);
      AtRest(b);
      i := n + 1;
    }
  }

  lemma {:induction false} DifferLess(a: Numbers, b: Numbers, i: nat)
    requires DifferAt(a, b, i)
    ensures CompareNumbers(a, b) == Some(Less)
    decreases i
  {
    if i > 0 {
      AtRest(a);
      AtRest(b);
      assert At(a, 0) == At(b, 0);
      DifferLess(Rest(a), Rest(b), i - 1);
    }
  }

  lemma {:induction false} EqualNowhere(a: Numbers, b: Numbers)
    ensures CompareNumbers(a, b) == Some(Equal) <==> DifferNowhere(a, b)
    decreases |a| + |b|
  {
    if a != [] || b != [] {
      EqualNowhere(Rest(a), Rest(b));
      AtRest(a);
      AtRest(b);
      assert DifferNowhere(a, b) ==> At(a, 0) == At(b, 0);
    }
  }

  /** Up to position `i` all numbers can be read, and they first differ there. */
  ghost predicate DecidedAt(a: seq<string>, b: seq<string>, i: nat) {
    && (forall j: nat | j <= i :: Readable(Piece(a, j)) && Readable(Piece(b, j)))
    && (forall j: nat | j < i :: Same(Piece(a, j), Piece(b, j)))
    && Smaller(Piece(a, i), Piece(b, i))
  }

  ghost predicate NumbersLess(a: seq<string>, b: seq<string>) {
    exists i: nat :: DecidedAt(a, b, i)
  }

  ghost predicate NumbersEqual(a: seq<string>, b: seq<string>) {
    forall i: nat :: Readable(Piece(a, i)) && Readable(Piece(b, i)) && Same(Piece(a, i), Piece(b, i))
  }

  lemma PieceAt(a: seq<string>, i: nat)
    ensures At(NumbersOf(a), i) == ParseU64(Piece(a, i))
  {
    assert Decimal("0") == 0;
  }

  /** The i-th numbers, read and compared. */
  lemma PiecesIff(a: seq<string>, b: seq<string>, i: nat)
    ensures At(NumbersOf(a), i).Some? <==> Readable(Piece(a, i))
    ensures At(NumbersOf(a), i).Some? && At(NumbersOf(b), i).Some? ==>
              && (At(NumbersOf(a), i).value < At(NumbersOf(b), i).value <==> Smaller(Piece(a, i), Piece(b, i)))
              && (At(NumbersOf(a), i) == At(NumbersOf(b), i) <==> Same(Piece(a, i), Piece(b, i)))
  {
    PieceAt(a, i);
    PieceAt(b, i);
    ReadableIff(Piece(a, i));
    if ParseU64(Piece(a, i)).Some? && ParseU64(Piece(b, i)).Some? {
      ReadableOrder(Piece(a, i), Piece(b, i));
    }
  }

  lemma DecidedIff(a: seq<string>, b: seq<string>, i: nat)
    ensures DifferAt(NumbersOf(a), NumbersOf(b), i) <==> DecidedAt(a, b, i)
  {
    var x, y := NumbersOf(a), NumbersOf(b);
    forall j: nat
      ensures At(x, j).Some? <==> Readable(Piece(a, j))
      ensures At(y, j).Some? <==> Readable(Piece(b, j))
      ensures At(x, j).Some? && At(y, j).Some? ==>
                && (At(x, j).value < At(y, j).value <==> Smaller(Piece(a, j), Piece(b, j)))
                && (At(x, j) == At(y, j) <==> Same(Piece(a, j), Piece(b, j)))
    {
      PiecesIff(a, b, j);
      PiecesIff(b, a, j);
    }
  }

  lemma NumbersEqualIff(a: seq<string>, b: seq<string>)
    ensures DifferNowhere(NumbersOf(a), NumbersOf(b)) <==> NumbersEqual(a, b)
  {
    var x, y := NumbersOf(a), NumbersOf(b);
    forall j: nat
      ensures At(x, j).Some? && At(x, j) == At(y, j) <==>
              Readable(Piece(a, j)) && Readable(Piece(b, j)) && Same(Piece(a, j), Piece(b, j))
    {
      PiecesIff(a, b, j);
      PiecesIff(b, a, j);
    }
  }

  /** The first position at which the numbers differ decides, the shorter version padded with zeros. */
  lemma NumbersIff(a: seq<string>, b: seq<string>)
    ensures CompareParts(a, b) == Some(Less) <==> NumbersLess(a, b)
    ensures CompareParts(a, b) == Some(Equal) <==> NumbersEqual(a, b)
  {
    var x, y := NumbersOf(a), NumbersOf(b);
    PartsAreNumbers(a, b);
    if CompareNumbers(x, y) == Some(Less) {
      var i := LessDiffer(x, y);
      DecidedIff(a, b, i);
    }
    if NumbersLess(a, b) {
      var i: nat :| DecidedAt(a, b, i);
      DecidedIff(a, b, i);
      DifferLess(x, y, i);
    }
    EqualNowhere(x, y);
    NumbersEqualIff(a, b);
  }

  // ----- versions

  /** The rest of the line after the numbers, less a leading dash, if there is anything. */
  ghost predicate Extension(rest: string, extension: Option<string>) {
    exists line: string ::
      && '\n' !in line && (rest == line || line + "\n" <= rest)
      && extension == if line == "" then None else if |line| > 1 && line[0] == '-' then Some(line[1..]) else Some(line)
  }

  ghost predicate Unversioned(s: string) {
    forall c | c in s :: !VersionChar(c)
  }

  ghost predicate Numerical(s: string) {
    s != "" && forall c | c in s :: VersionChar(c)
  }

  /** `run` is the first run of digits and dots in `v`. */
  ghost predicate FirstRun(v: string, before: string, run: string, rest: string) {
    && v == before + run + rest && Unversioned(before) && Numerical(run)
    && (rest == "" || !VersionChar(rest[0]))
  }

  /** `parts` is what stands between the dots of `run`. */
  ghost predicate Dotted(run: string, parts: seq<string>) {
    |parts| > 0 && Join(parts, '.') == run && forall p | p in parts :: '.' !in p
  }

  /** `v` has a first run of digits and dots, with the parts of `x` between the dots, and its extension follows. */
  ghost predicate Shape(v: string, x: Version) {
    exists before, run, rest ::
      FirstRun(v, before, run, rest) && Dotted(run, x.parts) && Extension(rest, x.extension)
  }

  lemma {:induction false} LineFirst(rest: string)
    ensures '\n' !in Line(rest) && (rest == Line(rest) || Line(rest) + "\n" <= rest)
  {
    if rest != "" && rest[0] != '\n' {
      LineFirst(rest[1..]);
      assert rest == [rest[0]] + rest[1..];
    }
  }

  lemma {:induction false} LineIs(rest: string, line: string)
    requires '\n' !in line && (rest == line || line + "\n" <= rest)
    ensures Line(rest) == line
  {
    if line == "" {
      assert rest != "" ==> rest[0] == ("" + "\n")[0];
    } else {
      assert rest[0] == line[0] && line[0] in line;
      assert line + "\n" <= rest ==> (line + "\n")[1..] == line[1..] + "\n" <= rest[1..];
      LineIs(rest[1..], line[1..]);
    }
  }

  lemma ExtensionIff(rest: string, extension: Option<string>)
    ensures Extension(rest, extension) <==>
            var e := Line(rest);
            extension == if e == [] then None else if |e| > 1 && e[0] == '-' then Some(e[1..]) else Some(e)
  {
    LineFirst(rest);
    if Extension(rest, extension) {
      var line: string :|
        && '\n' !in line && (rest == line || line + "\n" <= rest)
        && extension ==
           if line == "" then None else if |line| > 1 && line[0] == '-' then Some(line[1..]) else Some(line);
      LineIs(rest, line);
    }
  }

  lemma SpanIs(before: string, rest: string, inside: bool)
    requires (forall c | c in before :: VersionChar(c) == inside) && (rest == "" || VersionChar(rest[0]) != inside)
    ensures SpanLength(before + rest, inside) == |before|
  {
    var s := before + rest;
    assert forall i | 0 <= i < |before| :: s[i] == before[i] && before[i] in before;
    assert rest != "" ==> s[|before|] == rest[0];
  }

  lemma RunSpans(v: string, before: string, run: string, rest: string)
    requires FirstRun(v, before, run, rest)
    ensures SpanLength(v, false) == |before| && v[|before|..] == run + rest
    ensures SpanLength(run + rest, true) == |run| && (run + rest)[..|run|] == run && (run + rest)[|run|..] == rest
  {
    assert run[0] in run;
    assert v == before + (run + rest);
    SpanIs(before, run + rest, false);
    SpanIs(run, rest, true);
  }

  lemma ShapeSplit(v: string, before: string, run: string, rest: string, x: Version)
    requires FirstRun(v, before, run, rest) && Dotted(run, x.parts) && Extension(rest, x.extension)
    ensures SplitVersion(v) == Some(x)
  {
    RunSpans(v, before, run, rest);
    SplitJoin(x.parts, '.');
    ExtensionIff(rest, x.extension);
  }

  lemma RunOf(v: string) returns (before: string, run: string, rest: string)
    requires SplitVersion(v).Some?
    ensures FirstRun(v, before, run, rest)
  {
    var m := SpanLength(v, false);
    var tail := v[m..];
    var n := SpanLength(tail, true);
    before, run, rest := v[..m], tail[..n], tail[n..];
    assert tail[0] == v[m];
  }

  lemma SplitShape(v: string)
    requires SplitVersion(v).Some?
    ensures Shape(v, SplitVersion(v).value)
  {
    var before, run, rest := RunOf(v);
    RunSpans(v, before, run, rest);
    JoinSplit(run, '.');
    ExtensionIff(rest, SplitVersion(v).value.extension);
  }

  /** Versions are taken apart into their numbers and their extension. */
  lemma SplitIff(v: string, x: Version)
    ensures SplitVersion(v) == Some(x) <==> Shape(v, x)
  {
    if SplitVersion(v) == Some(x) {
      SplitShape(v);
    }
    if Shape(v, x) {
      var before, run, rest :|
        FirstRun(v, before, run, rest) && Dotted(run, x.parts) && Extension(rest, x.extension);
      ShapeSplit(v, before, run, rest, x);
    }
  }

  ghost predicate ExtensionBefore(e: Option<string>, f: Option<string>) {
    e.Some? && (f.None? || Before(e.value, f.value))
  }

  /** The numbers decide, or with equal numbers the extensions. */
  ghost predicate Precedes(x: Version, y: Version) {
    NumbersLess(x.parts, y.parts) || (NumbersEqual(x.parts, y.parts) && ExtensionBefore(x.extension, y.extension))
  }

  /** A number that would be needed to tell cannot be read. */
  ghost predicate Undecided(x: Version, y: Version) {
    !NumbersLess(x.parts, y.parts) && !NumbersLess(y.parts, x.parts) && !NumbersEqual(x.parts, y.parts)
  }

  /** The order on versions: by numbers and extensions, or as strings where that does not decide. */
  ghost predicate VersionBefore(a: string, b: string) {
    BeforeByNumbers(a, b) || (Unsorted(a, b) && Before(a, b))
  }

  ghost predicate BeforeByNumbers(a: string, b: string) {
    exists x, y :: Shape(a, x) && Shape(b, y) && Precedes(x, y)
  }

  ghost predicate Unsorted(a: string, b: string) {
    forall x, y | Shape(a, x) && Shape(b, y) :: Undecided(x, y)
  }

  lemma ExtensionsIff(e: Option<string>, f: Option<string>)
    ensures CompareExtensions(e, f) == Less <==> ExtensionBefore(e, f)
  {
    if e.Some? && f.Some? {
      BeforeIff(e.value, f.value);
    }
  }

  function SortParts(x: Version, y: Version): Option<Ordering> {
    var o := CompareParts(x.parts, y.parts);
    if o == Some(Equal) then Some(CompareExtensions(x.extension, y.extension)) else o
  }

  lemma Orderings(o: Option<Ordering>)
    ensures o.None? || o == Some(Less) || o == Some(Equal) || o == Some(Greater)
  {
    match o
    case None =>
    case Some(Less) =>
    case Some(Equal) =>
    case Some(Greater) =>
  }

  lemma PrecedesIff(x: Version, y: Version)
    ensures SortParts(x, y) == Some(Less) <==> Precedes(x, y)
    ensures SortParts(x, y).None? <==> Undecided(x, y)
  {
    NumbersIff(x.parts, y.parts);
    NumbersIff(y.parts, x.parts);
    ComparePartsSwap(y.parts, x.parts);
    ExtensionsIff(x.extension, y.extension);
    Orderings(CompareParts(x.parts, y.parts));
  }

  lemma OneShape(v: string, x: Version, y: Version)
    requires SplitVersion(v) == Some(x) && Shape(v, y)
    ensures x == y
  {
    SplitIff(v, y);
  }

  lemma ByNumbersIff(a: string, b: string, x: Version, y: Version)
    requires SplitVersion(a) == Some(x) && SplitVersion(b) == Some(y)
    ensures BeforeByNumbers(a, b) <==> Precedes(x, y)
  {
    SplitShape(a);
    SplitShape(b);
    if BeforeByNumbers(a, b) {
      var u, v :| Shape(a, u) && Shape(b, v) && Precedes(u, v);
      OneShape(a, x, u);
      OneShape(b, y, v);
    }
  }

  lemma UnsortedIff(a: string, b: string, x: Version, y: Version)
    requires SplitVersion(a) == Some(x) && SplitVersion(b) == Some(y)
    ensures Unsorted(a, b) <==> Undecided(x, y)
  {
    SplitShape(a);
    SplitShape(b);
    if Undecided(x, y) {
      forall u, v | Shape(a, u) && Shape(b, v)
        ensures Undecided(u, v)
      {
        OneShape(a, x, u);
        OneShape(b, y, v);
      }
    }
  }

  lemma NoShape(a: string, b: string)
    requires SplitVersion(a).None? || SplitVersion(b).None?
    ensures !BeforeByNumbers(a, b) && Unsorted(a, b)
  {
    forall u, v
      ensures !(Shape(a, u) && Shape(b, v))
    {
      SplitIff(a, u);
      SplitIff(b, v);
    }
  }

  lemma VersionsIff(a: string, b: string)
    ensures CompareVersions(a, b) == Less <==> VersionBefore(a, b)
  {
    BeforeIff(a, b);
    if SplitVersion(a).Some? && SplitVersion(b).Some? {
      var x, y := SplitVersion(a).value, SplitVersion(b).value;
      ByNumbersIff(a, b, x, y);
      UnsortedIff(a, b, x, y);
      PrecedesIff(x, y);
    } else {
      NoShape(a, b);
    }
  }

  /**
   Identifiers are compared if their names agree.  A missing version comes first, then a missing
   release; full ones are compared by version, and with versions of the same rank by release.
   */
  lemma OlderIff(a: PackageIdent, b: PackageIdent)
    ensures Older(a, b) <==>
            && a.name == b.name
            && if a.version.None? || b.version.None? then a.version.None? && b.version.Some?
               else if a.release.None? || b.release.None? then a.release.None? && b.release.Some?
               else
                 || VersionBefore(a.version.value, b.version.value)
                 || (!VersionBefore(b.version.value, a.version.value) && Before(a.release.value, b.release.value))
  {
    if a.version.Some? && b.version.Some? && a.release.Some? && b.release.Some? {
      VersionsIff(a.version.value, b.version.value);
      VersionsIff(b.version.value, a.version.value);
      CompareVersionsSwap(a.version.value, b.version.value);
      CompareVersionsSwap(b.version.value, a.version.value);
      BeforeIff(a.release.value, b.release.value);
    }
  }

  /** With one version, the release decides at the first character that differs. */
  lemma OlderRelease(a: PackageIdent, b: PackageIdent)
    requires a.name == b.name && a.version == b.version && a.version.Some? && a.release.Some? && b.release.Some?
    ensures Older(a, b) <==> Before(a.release.value, b.release.value)
  {
    OlderIff(a, b);
    CompareVersionsSwap(a.version.value, a.version.value);
    VersionsIff(a.version.value, a.version.value);
  }
}
