/** Package identifiers `origin/name[/version[/release]]` and the order on them. */
module PackageIdents {
  import opened Wrappers
  import opened Strings
  import opened Bits

  datatype PackageIdent = PackageIdent(origin: string, name: string, version: Option<string>, release: Option<string>)

  /** Parsing fails unless there are two, three or four components. */
  function FromStr(value: string): Option<PackageIdent> {
    var items := Split(value, '/');
    if |items| == 2 then Some(PackageIdent(items[0], items[1], None, None))
    else if |items| == 3 then Some(PackageIdent(items[0], items[1], Some(items[2]), None))
    else if |items| == 4 then Some(PackageIdent(items[0], items[1], Some(items[2]), Some(items[3])))
    else None
  }

  function ToString(i: PackageIdent): string {
    if i.version.Some? && i.release.Some? then
      i.origin + "/" + i.name + "/" + i.version.value + "/" + i.release.value
    else if i.version.Some? then i.origin + "/" + i.name + "/" + i.version.value
    else i.origin + "/" + i.name
  }

  predicate VersionChar(c: char) {
    '0' <= c <= '9' || c == '.'
  }

  /** The length of the longest prefix whose characters are all (or all not) version characters. */
  function SpanLength(s: string, inside: bool): (n: nat)
    ensures n <= |s|
    ensures forall i | 0 <= i < n :: VersionChar(s[i]) == inside
    ensures n < |s| ==> VersionChar(s[n]) != inside
  {
    if s == [] || VersionChar(s[0]) != inside then 0 else 1 + SpanLength(s[1..], inside)
  }

  function Line(s: string): string {
    if s == [] || s[0] == '\n' then [] else [s[0]] + Line(s[1..])
  }

  datatype Version = Version(parts: seq<string>, extension: Option<string>)

  /**
   The first run of digits and dots, split at the dots, and what follows it on the
   line, less a leading dash.  There is no such run in a version without digits and dots.
   */
  function SplitVersion(v: string): Option<Version> {
    var tail := v[SpanLength(v, false)..];
    if tail == [] then None
    else
      var n := SpanLength(tail, true);
      var e := Line(tail[n..]);
      var extension := if e == [] then None else if |e| > 1 && e[0] == '-' then Some(e[1..]) else Some(e);
      Some(Version(Split(tail[..n], '.'), extension))
  }

  function Decimal(s: string): nat {
    if s == [] then 0
    else
      var c := s[|s| - 1];
      10 * Decimal(s[..|s| - 1]) + if '0' <= c <= '9' then c as int - '0' as int else 0
  }

  /** A number that fits 64 bits; fails on the empty string and on overflow. */
  function ParseU64(s: string): (r: Option<nat>) {
    if s != [] && (forall c | c in s :: '0' <= c <= '9') && Decimal(s) < U64_SIZE then Some(Decimal(s)) else None
  }

  function Head(parts: seq<string>): Option<nat> {
    if parts == [] then Some(0) else ParseU64(parts[0])
  }

  function Tail(parts: seq<string>): seq<string> {
    if parts == [] then [] else parts[1..]
  }

  /** Compares number by number, padding with zeros; fails on reaching a piece that is no number. */
  function CompareParts(a: seq<string>, b: seq<string>): Option<Ordering>
    decreases |a| + |b|
  {
    if a == [] && b == [] then Some(Equal)
    else
      var x, y := Head(a), Head(b);
      if x.None? || y.None? then None
      else if x.value < y.value then Some(Less)
      else if x.value > y.value then Some(Greater)
      else CompareParts(Tail(a), Tail(b))
  }

  /** With equal numbers the version without an extension is the greater one. */
  function CompareExtensions(a: Option<string>, b: Option<string>): Ordering {
    match (a, b)
    case (None, None) => Equal
    case (Some(_), None) => Less
    case (None, Some(_)) => Greater
    case (Some(x), Some(y)) => Compare(x, y)
  }

  function VersionSort(a: string, b: string): Option<Ordering> {
    var x, y := SplitVersion(a), SplitVersion(b);
    if x.None? || y.None? then None
    else
      var o := CompareParts(x.value.parts, y.value.parts);
      if o == Some(Equal) then Some(CompareExtensions(x.value.extension, y.value.extension)) else o
  }

  /** Walks both lists of numbers until they differ or both are used up. */
  method SortVersions(a: string, b: string) returns (r: Option<Ordering>)
    ensures r == VersionSort(a, b)
  {
    var x, y := SplitVersion(a), SplitVersion(b);
    if x.None? || y.None? {
      return None;
    }
    var aIter, bIter := x.value.parts, y.value.parts;
    while aIter != [] || bIter != []
      invariant CompareParts(aIter, bIter) == CompareParts(x.value.parts, y.value.parts)
      decreases |aIter| + |bIter|
    {
      var aNum, bNum := Head(aIter), Head(bIter);
      if aNum.None? || bNum.None? {
        return None;
      }
      aIter, bIter := Tail(aIter), Tail(bIter);
      if aNum.value > bNum.value {
        return Some(Greater);
      } else if aNum.value < bNum.value {
        return Some(Less);
      }
    }
    var aExtension, bExtension := x.value.extension, y.value.extension;
    if aExtension.Some? && bExtension.None? {
      return Some(Less);
    } else if aExtension.None? && bExtension.Some? {
      return Some(Greater);
    } else if aExtension.None? && bExtension.None? {
      return Some(Equal);
    } else {
      return Some(Compare(aExtension.value, bExtension.value));
    }
  }

  /** Versions that cannot be sorted are compared as strings. */
  function CompareVersions(a: string, b: string): Ordering {
    match VersionSort(a, b)
    case Some(o) => o
    case None => Compare(a, b)
  }

  function PartialCompare(a: PackageIdent, b: PackageIdent): Option<Ordering> {
    if a.name != b.name then None
    else if a.version.None? && b.version.None? then None
    else if a.version.None? then Some(Less)
    else if b.version.None? then Some(Greater)
    else if a.release.None? && b.release.None? then None
    else if a.release.None? then Some(Less)
    else if b.release.None? then Some(Greater)
    else
      var o := CompareVersions(a.version.value, b.version.value);
      if o == Equal then Some(Compare(a.release.value, b.release.value)) else Some(o)
  }

  /** `a < b` on identifiers. */
  predicate Older(a: PackageIdent, b: PackageIdent) {
    PartialCompare(a, b) == Some(Less)
  }

  /**
   `Older` compares the members of `s` like positions in a ranking: being not older is
   transitive.
   */
  ghost predicate Ranks(s: set<PackageIdent>) {
    forall a, b, c | a in s && b in s && c in s && Older(a, c) :: Older(a, b) || Older(b, c)
  }

  lemma {:induction false} ComparePartsSwap(a: seq<string>, b: seq<string>)
    ensures CompareParts(a, b) == Some(Less) <==> CompareParts(b, a) == Some(Greater)
    ensures CompareParts(a, b) == Some(Equal) <==> CompareParts(b, a) == Some(Equal)
    ensures CompareParts(a, b).None? <==> CompareParts(b, a).None?
    decreases |a| + |b|
  {
    if a != [] || b != [] {
      ComparePartsSwap(Tail(a), Tail(b));
    }
  }

  lemma CompareVersionsSwap(a: string, b: string)
    ensures CompareVersions(a, b) == Less <==> CompareVersions(b, a) == Greater
    ensures CompareVersions(a, b) == Equal <==> CompareVersions(b, a) == Equal
  {
    CompareSwap(a, b);
    CompareSwap(b, a);
    var x, y := SplitVersion(a), SplitVersion(b);
    if x.Some? && y.Some? {
      ComparePartsSwap(x.value.parts, y.value.parts);
      ComparePartsSwap(y.value.parts, x.value.parts);
      if x.value.extension.Some? && y.value.extension.Some? {
        CompareSwap(x.value.extension.value, y.value.extension.value);
        CompareSwap(y.value.extension.value, x.value.extension.value);
      }
    }
  }

  lemma OlderAsymmetric(a: PackageIdent, b: PackageIdent)
    ensures Older(a, b) ==> !Older(b, a)
  {
    if a.version.Some? && b.version.Some? && a.release.Some? && b.release.Some? {
      CompareVersionsSwap(a.version.value, b.version.value);
      CompareSwap(a.release.value, b.release.value);
    }
  }

  /** What parses prints as it was. */
  lemma PrintParsed(s: string)
    requires FromStr(s).Some?
    ensures ToString(FromStr(s).value) == s
  {
    var items := Split(s, '/');
    JoinSplit(s, '/');
    if |items| == 2 {
      assert items == [items[0], items[1]];
      JoinFew(items[0], items[1], "", "", '/');
    } else if |items| == 3 {
      assert items == [items[0], items[1], items[2]];
      JoinFew(items[0], items[1], items[2], "", '/');
    } else {
      assert items == [items[0], items[1], items[2], items[3]];
      JoinFew(items[0], items[1], items[2], items[3], '/');
    }
  }

  /** The text of an identifier. */
  ghost predicate Reads(s: string, i: PackageIdent) {
    && '/' !in i.origin && '/' !in i.name
    && match (i.version, i.release)
       case (None, None) => s == i.origin + "/" + i.name
       case (Some(v), None) => '/' !in v && s == i.origin + "/" + i.name + "/" + v
       case (Some(v), Some(r)) => '/' !in v && '/' !in r && s == i.origin + "/" + i.name + "/" + v + "/" + r
       case (None, Some(_)) => false
  }

  lemma ReadsParsed(s: string, i: PackageIdent)
    requires Reads(s, i)
    ensures FromStr(s) == Some(i)
  {
    var v, r := if i.version.Some? then i.version.value else "", if i.release.Some? then i.release.value else "";
    JoinFew(i.origin, i.name, v, r, '/');
    if i.version.None? {
      SplitJoin([i.origin, i.name], '/');
    } else if i.release.None? {
      SplitJoin([i.origin, i.name, v], '/');
    } else {
      SplitJoin([i.origin, i.name, v, r], '/');
    }
  }

  lemma PiecesLack(s: string, c: char)
    ensures forall i | 0 <= i < |Split(s, c)| :: c !in Split(s, c)[i]
  {
    JoinSplit(s, c);
    assert forall i | 0 <= i < |Split(s, c)| :: Split(s, c)[i] in Split(s, c);
  }

  lemma ParsedReads(s: string)
    requires FromStr(s).Some?
    ensures Reads(s, FromStr(s).value)
  {
    PiecesLack(s, '/');
    PrintParsed(s);
  }

  /** An identifier is read off its text component by component, and no other text is read. */
  lemma ParsesIff(s: string, i: PackageIdent)
    ensures FromStr(s) == Some(i) <==> Reads(s, i)
  {
    if FromStr(s) == Some(i) {
      ParsedReads(s);
    }
    if Reads(s, i) {
      ReadsParsed(s, i);
    }
  }
}
