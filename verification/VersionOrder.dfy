/** When the order on package identifiers is one that a latest identifier can be taken in. */
module VersionOrder {
  import opened Wrappers
  import opened Strings
  import opened PackageIdents

  // ----- chains of comparisons

  lemma StringChain(a: string, b: string, c: string)
    requires Compare(a, b) != Greater && Compare(b, c) != Greater
    ensures Compare(a, c) != Greater
    ensures Compare(a, b) == Less || Compare(b, c) == Less ==> Compare(a, c) == Less
  {
    CompareSwap(a, b);
    CompareSwap(b, c);
    if Compare(a, b) == Less && Compare(b, c) == Less {
      CompareTrans(a, b, c);
    }
  }

  /** Number by number, lists that are in order are in order all along, as far as they are read. */
  lemma {:induction false} PartsChain(a: seq<string>, b: seq<string>, c: seq<string>)
    requires CompareParts(a, b).Some? && CompareParts(a, b).value != Greater
    requires CompareParts(b, c).Some? && CompareParts(b, c).value != Greater
    ensures CompareParts(a, c).Some? && CompareParts(a, c).value != Greater
    ensures CompareParts(a, c).value == Less <==> CompareParts(a, b).value == Less || CompareParts(b, c).value == Less
    decreases |a| + |b| + |c|
  {
    if a != [] || b != [] || c != [] {
      if Head(a) == Head(b) == Head(c) {
        PartsChain(Tail(a), Tail(b), Tail(c));
      }
    }
  }

  lemma ExtensionsChain(a: Option<string>, b: Option<string>, c: Option<string>)
    requires CompareExtensions(a, b) != Greater && CompareExtensions(b, c) != Greater
    ensures CompareExtensions(a, c) != Greater
    ensures CompareExtensions(a, b) == Less || CompareExtensions(b, c) == Less ==> CompareExtensions(a, c) == Less
  {
    if a.Some? && b.Some? && c.Some? {
      StringChain(a.value, b.value, c.value);
    }
  }

  /** Versions in order by numbers can be compared by numbers all along, and are in order. */
  lemma SortedChain(a: string, b: string, c: string)
    requires VersionSort(a, b).Some? && VersionSort(a, b).value != Greater
    requires VersionSort(b, c).Some? && VersionSort(b, c).value != Greater
    ensures VersionSort(a, c).Some? && VersionSort(a, c).value != Greater
    ensures VersionSort(a, b).value == Less || VersionSort(b, c).value == Less ==> VersionSort(a, c).value == Less
  {
    var x, y, z := SplitVersion(a).value, SplitVersion(b).value, SplitVersion(c).value;
    PartsChain(x.parts, y.parts, z.parts);
    if CompareParts(x.parts, z.parts) == Some(Equal) {
      ExtensionsChain(x.extension, y.extension, z.extension);
    }
  }

  /** The comparison by numbers fails, and the versions are compared as strings. */
  predicate AsStrings(a: string, b: string) {
    VersionSort(a, b).None?
  }

  lemma VersionSortSwap(a: string, b: string)
    ensures AsStrings(a, b) <==> AsStrings(b, a)
    ensures VersionSort(a, b) == Some(Less) <==> VersionSort(b, a) == Some(Greater)
    ensures VersionSort(a, b) == Some(Equal) <==> VersionSort(b, a) == Some(Equal)
  {
    var x, y := SplitVersion(a), SplitVersion(b);
    if x.Some? && y.Some? {
      ComparePartsSwap(x.value.parts, y.value.parts);
      ComparePartsSwap(y.value.parts, x.value.parts);
      if x.value.extension.Some? && y.value.extension.Some? {
        CompareSwap(x.value.extension.value, y.value.extension.value);
        CompareSwap(y.value.extension.value, x.value.extension.value);
      }
    }
  }

  // ----- identifiers

  predicate Full(i: PackageIdent) {
    i.version.Some? && i.release.Some?
  }

  /** `x` stands, as a string, between two versions that are compared by numbers with each other only. */
  predicate Between(a: string, x: string, b: string) {
    AsStrings(a, x) && AsStrings(x, b) && !AsStrings(a, b) && Compare(a, x) == Less && Compare(x, b) == Less
  }

  /** Identifiers with a version between theirs are in that order. */
  ghost predicate Agree(ids: set<PackageIdent>) {
    forall a, x, b | a in ids && x in ids && b in ids && Full(a) && Full(x) && Full(b)
                     && Between(a.version.value, x.version.value, b.version.value) ::
      Older(a, b)
  }

  /** `a` does not come after `b`, by versions. */
  predicate VersionUpTo(a: PackageIdent, b: PackageIdent)
    requires Full(a) && Full(b)
  {
    if AsStrings(a.version.value, b.version.value) then Compare(a.version.value, b.version.value) != Greater
    else VersionSort(a.version.value, b.version.value).value != Greater
  }

  lemma UpTo(a: PackageIdent, b: PackageIdent)
    requires Full(a) && Full(b) && a.name == b.name && !Older(b, a)
    ensures VersionUpTo(a, b)
  {
    VersionSortSwap(a.version.value, b.version.value);
    CompareSwap(b.version.value, a.version.value);
  }

  lemma OlderUpTo(a: PackageIdent, b: PackageIdent)
    requires Full(a) && Full(b) && Older(a, b)
    ensures VersionUpTo(a, b)
  {
    OlderAsymmetric(a, b);
    UpTo(a, b);
  }

  /** Three identifiers whose versions are all compared in the same way. */
  lemma SameKind(a: PackageIdent, b: PackageIdent, c: PackageIdent)
    requires Full(a) && Full(b) && Full(c) && a.name == b.name == c.name && !Older(b, a) && !Older(c, b)
    requires AsStrings(a.version.value, b.version.value) == AsStrings(b.version.value, c.version.value)
    requires AsStrings(a.version.value, b.version.value) == AsStrings(a.version.value, c.version.value)
    ensures !Older(c, a)
  {
    var u, v, w := a.version.value, b.version.value, c.version.value;
    UpTo(a, b);
    UpTo(b, c);
    if AsStrings(u, v) {
      StringChain(u, v, w);
    } else {
      SortedChain(u, v, w);
    }
    CompareVersionsSwap(u, v);
    CompareVersionsSwap(v, w);
    CompareVersionsSwap(u, w);
    CompareSwap(b.release.value, a.release.value);
    CompareSwap(c.release.value, b.release.value);
    CompareSwap(c.release.value, a.release.value);
    if CompareVersions(u, v) == Equal && CompareVersions(v, w) == Equal {
      StringChain(a.release.value, b.release.value, c.release.value);
    }
  }

  /** Two comparisons by numbers in a row make the third one by numbers, so this cannot be. */
  lemma NumbersAlongside(a: PackageIdent, b: PackageIdent, c: PackageIdent)
    requires Full(a) && Full(b) && Full(c) && VersionUpTo(a, b) && VersionUpTo(b, c)
    requires !AsStrings(a.version.value, b.version.value) && !AsStrings(b.version.value, c.version.value)
    ensures !AsStrings(a.version.value, c.version.value)
  {
    SortedChain(a.version.value, b.version.value, c.version.value);
  }

  /** Two comparisons as strings in a row, and the third by numbers. */
  lemma StringsAlongside(ids: set<PackageIdent>, a: PackageIdent, x: PackageIdent, b: PackageIdent)
    requires Agree(ids) && a in ids && x in ids && b in ids && Full(a) && Full(x) && Full(b)
    requires VersionUpTo(a, x) && VersionUpTo(x, b)
    requires AsStrings(a.version.value, x.version.value) && AsStrings(x.version.value, b.version.value)
    requires !AsStrings(a.version.value, b.version.value)
    ensures Older(a, b)
  {
    CompareSwap(a.version.value, x.version.value);
    CompareSwap(x.version.value, b.version.value);
  }

  /** Not coming after is transitive where the identifiers agree. */
  lemma UpToTrans(ids: set<PackageIdent>, a: PackageIdent, b: PackageIdent, c: PackageIdent)
    requires Agree(ids) && a in ids && b in ids && c in ids
    requires Full(a) && Full(b) && Full(c) && a.name == b.name == c.name && !Older(b, a) && !Older(c, b)
    ensures !Older(c, a)
  {
    var u, v, w := a.version.value, b.version.value, c.version.value;
    VersionSortSwap(u, v);
    VersionSortSwap(v, w);
    VersionSortSwap(u, w);
    UpTo(a, b);
    UpTo(b, c);
    if AsStrings(u, v) == AsStrings(v, w) == AsStrings(u, w) {
      SameKind(a, b, c);
    } else if AsStrings(u, v) == AsStrings(v, w) {
      if AsStrings(u, v) {
        StringsAlongside(ids, a, b, c);
        OlderAsymmetric(a, c);
      } else {
        NumbersAlongside(a, b, c);
      }
    } else if Older(c, a) {
      Rotated(ids, a, b, c);
      OlderUpTo(c, a);
    }
  }

  /** There is no way back from `c` to `a` when only one of the two steps to `c` is by numbers. */
  lemma Rotated(ids: set<PackageIdent>, a: PackageIdent, b: PackageIdent, c: PackageIdent)
    requires Agree(ids) && a in ids && b in ids && c in ids && Full(a) && Full(b) && Full(c)
    requires VersionUpTo(a, b) && VersionUpTo(b, c) && !Older(b, a) && !Older(c, b)
    requires AsStrings(a.version.value, b.version.value) != AsStrings(b.version.value, c.version.value)
    ensures !VersionUpTo(c, a)
  {
    var u, v, w := a.version.value, b.version.value, c.version.value;
    VersionSortSwap(u, v);
    VersionSortSwap(v, w);
    if VersionUpTo(c, a) {
      if AsStrings(w, u) && AsStrings(u, v) {
        StringsAlongside(ids, c, a, b);
      } else if AsStrings(w, u) {
        StringsAlongside(ids, b, c, a);
      } else if AsStrings(u, v) {
        NumbersAlongside(b, c, a);
      } else {
        NumbersAlongside(c, a, b);
      }
    }
  }

  lemma OlderAsStrings(a: PackageIdent, b: PackageIdent)
    requires Full(a) && Full(b) && a.name == b.name && AsStrings(a.version.value, b.version.value)
    ensures Compare(a.version.value, b.version.value) == Less ==> Older(a, b)
    ensures Compare(a.version.value, b.version.value) == Greater ==> !Older(a, b)
  {
  }

  /**
   Identifiers of one name, partial ones and any versions included, are ranked if and only if
   they agree: where a version stands between two as a string without being comparable to
   them by numbers, these two are in that order.
   */
  lemma IdentsRankIff(ids: set<PackageIdent>)
    requires forall i, j | i in ids && j in ids :: i.name == j.name
    ensures Ranks(ids) <==> Agree(ids)
  {
    if Agree(ids) {
      forall a, b, c | a in ids && b in ids && c in ids && Older(a, c)
        ensures Older(a, b) || Older(b, c)
      {
        assert a.name == b.name == c.name;
        if Full(a) && Full(b) && Full(c) && !Older(a, b) && !Older(b, c) {
          UpToTrans(ids, c, b, a);
        }
      }
    }
    if Ranks(ids) {
      forall a, x, b | a in ids && x in ids && b in ids && Full(a) && Full(x) && Full(b)
                       && Between(a.version.value, x.version.value, b.version.value)
        ensures Older(a, b)
      {
        VersionSortSwap(x.version.value, b.version.value);
        OlderAsStrings(a, x);
        OlderAsStrings(b, x);
        CompareSwap(x.version.value, b.version.value);
      }
    }
  }

  // ----- versions

  /** Being not less is transitive on `vs`. */
  ghost predicate VersionsRank(vs: set<string>) {
    forall a, b, c | a in vs && b in vs && c in vs && CompareVersions(a, c) == Less ::
      CompareVersions(a, b) == Less || CompareVersions(b, c) == Less
  }

  ghost predicate VersionsAgree(vs: set<string>) {
    forall a, x, b | a in vs && x in vs && b in vs && Between(a, x, b) :: VersionSort(a, b) == Some(Less)
  }

  function Stamped(v: string): PackageIdent {
    PackageIdent("", "", Some(v), Some(""))
  }

  lemma OlderStamped(a: string, b: string)
    ensures Older(Stamped(a), Stamped(b)) <==> CompareVersions(a, b) == Less
  {
  }

  /** Versions are ranked if and only if no other version stands between two of them out of order. */
  lemma VersionsRankIff(vs: set<string>)
    ensures VersionsRank(vs) <==> VersionsAgree(vs)
  {
    var ids := set v | v in vs :: Stamped(v);
    IdentsRankIff(ids);
    forall a, b
      ensures Older(Stamped(a), Stamped(b)) <==> CompareVersions(a, b) == Less
    {
      OlderStamped(a, b);
    }
    forall v | v in vs
      ensures Stamped(v) in ids
    {
    }
    forall i | i in ids
      ensures Full(i) && i.version.value in vs && i == Stamped(i.version.value)
    {
    }
    StampedRanks(vs, ids);
    StampedAgree(vs, ids);
  }

  ghost predicate Stamps(vs: set<string>, ids: set<PackageIdent>) {
    && (forall v | v in vs :: Stamped(v) in ids)
    && (forall i | i in ids :: Full(i) && i.version.value in vs && i == Stamped(i.version.value))
  }

  lemma StampedRanks(vs: set<string>, ids: set<PackageIdent>)
    requires Stamps(vs, ids)
    ensures Ranks(ids) <==> VersionsRank(vs)
  {
    if Ranks(ids) {
      forall a, b, c | a in vs && b in vs && c in vs && CompareVersions(a, c) == Less
        ensures CompareVersions(a, b) == Less || CompareVersions(b, c) == Less
      {
        OlderStamped(a, b);
        OlderStamped(b, c);
        OlderStamped(a, c);
      }
    }
    if VersionsRank(vs) {
      forall a, b, c | a in ids && b in ids && c in ids && Older(a, c)
        ensures Older(a, b) || Older(b, c)
      {
        OlderStamped(a.version.value, b.version.value);
        OlderStamped(b.version.value, c.version.value);
        OlderStamped(a.version.value, c.version.value);
      }
    }
  }

  lemma StampedAgree(vs: set<string>, ids: set<PackageIdent>)
    requires Stamps(vs, ids)
    ensures Agree(ids) <==> VersionsAgree(vs)
  {
    if Agree(ids) {
      forall a, x, b | a in vs && x in vs && b in vs && Between(a, x, b)
        ensures VersionSort(a, b) == Some(Less)
      {
        assert Stamped(a) in ids && Stamped(x) in ids && Stamped(b) in ids;
        OlderStamped(a, b);
      }
    }
    if VersionsAgree(vs) {
      forall a, x, b | a in ids && x in ids && b in ids && Full(a) && Full(x) && Full(b)
                       && Between(a.version.value, x.version.value, b.version.value)
        ensures Older(a, b)
      {
        OlderStamped(a.version.value, b.version.value);
      }
    }
  }

  ghost function VersionsOf(ids: set<PackageIdent>): set<string> {
    set i | i in ids && i.version.Some? :: i.version.value
  }

  /** Identifiers of one name are ranked when their versions are; partial ones come first. */
  lemma IdentsRank(ids: set<PackageIdent>)
    requires forall i, j | i in ids && j in ids :: i.name == j.name
    requires VersionsRank(VersionsOf(ids))
    ensures Ranks(ids)
  {
    VersionsRankIff(VersionsOf(ids));
    IdentsRankIff(ids);
    forall a, x, b | a in ids && x in ids && b in ids && Full(a) && Full(x) && Full(b)
                     && Between(a.version.value, x.version.value, b.version.value)
      ensures Older(a, b)
    {
      assert {a.version.value, x.version.value, b.version.value} <= VersionsOf(ids);
    }
  }

  /** Every number of the version can be read. */
  predicate Numeric(v: string) {
    SplitVersion(v).Some? && forall p | p in SplitVersion(v).value.parts :: ParseU64(p).Some?
  }

  /** The version has neither digits nor dots. */
  predicate Wordlike(v: string) {
    SplitVersion(v).None?
  }

  lemma {:induction false} NumbersCompare(a: seq<string>, b: seq<string>)
    requires (forall p | p in a :: ParseU64(p).Some?) && (forall p | p in b :: ParseU64(p).Some?)
    ensures CompareParts(a, b).Some?
    decreases |a| + |b|
  {
    if a != [] || b != [] {
      NumbersCompare(Tail(a), Tail(b));
    }
  }

  lemma NumberedAsStrings(a: string, b: string)
    requires (Numeric(a) || Wordlike(a)) && (Numeric(b) || Wordlike(b))
    ensures AsStrings(a, b) <==> Wordlike(a) || Wordlike(b)
  {
    if Numeric(a) && Numeric(b) {
      NumbersCompare(SplitVersion(a).value.parts, SplitVersion(b).value.parts);
    }
  }

  /** Where every number can be read, exactly words stand between numbered versions. */
  lemma BetweenNumbered(a: string, x: string, b: string)
    requires (Numeric(a) || Wordlike(a)) && (Numeric(x) || Wordlike(x)) && (Numeric(b) || Wordlike(b))
    ensures Between(a, x, b) <==>
            Numeric(a) && Wordlike(x) && Numeric(b) && Compare(a, x) == Less && Compare(x, b) == Less
  {
    NumberedAsStrings(a, x);
    NumberedAsStrings(x, b);
    NumberedAsStrings(a, b);
  }

  // ----- a circle

  lemma SplitAlpha10()
    ensures SplitVersion("alpha10") == Some(Version(["10"], None))
  {
    assert SpanLength("alpha10", false) == 5 && "alpha10"[5..] == "10";
    assert SpanLength("10", true) == 2 && "10"[..2] == "10" && "10"[2..] == "";
    SplitFirst("10", '.', "");
  }

  lemma SplitBeta9()
    ensures SplitVersion("beta9") == Some(Version(["9"], None))
  {
    assert SpanLength("beta9", false) == 4 && "beta9"[4..] == "9";
    assert SpanLength("9", true) == 1 && "9"[..1] == "9" && "9"[1..] == "";
    SplitFirst("9", '.', "");
  }

  lemma WordVersions()
    ensures SplitVersion("beta").None?
    ensures Compare("alpha10", "beta") == Less && Compare("beta", "beta9") == Less
  {
    assert SpanLength("beta", false) == 4;
  }

  lemma NineBeforeTen()
    ensures CompareParts(["9"], ["10"]) == Some(Less)
  {
    assert Decimal("9") == 9;
    assert "10"[..1] == "1" && Decimal("1") == 1 && Decimal("10") == 10;
  }

  lemma WordsAsStrings(a: string, b: string)
    requires Wordlike(a) || Wordlike(b)
    ensures CompareVersions(a, b) == Compare(a, b)
  {
  }

  lemma ByNumbers(a: string, b: string, x: Version, y: Version)
    requires SplitVersion(a) == Some(x) && SplitVersion(b) == Some(y) && CompareParts(x.parts, y.parts) == Some(Less)
    ensures CompareVersions(a, b) == Less
  {
  }

  lemma NineLess()
    ensures CompareVersions("beta9", "alpha10") == Less
  {
    SplitAlpha10();
    SplitBeta9();
    NineBeforeTen();
    ByNumbers("beta9", "alpha10", Version(["9"], None), Version(["10"], None));
  }

  /** Words among numbered versions can go round in a circle. */
  lemma VersionCircle()
    ensures CompareVersions("alpha10", "beta") == Less
    ensures CompareVersions("beta", "beta9") == Less
    ensures CompareVersions("beta9", "alpha10") == Less
    ensures !VersionsRank({"alpha10", "beta", "beta9"})
  {
    WordVersions();
    WordsAsStrings("alpha10", "beta");
    WordsAsStrings("beta", "beta9");
    NineLess();
    NotRanked("alpha10", "beta", "beta9");
  }

  lemma NotRanked(a: string, b: string, c: string)
    requires CompareVersions(a, b) == Less && CompareVersions(b, c) == Less && CompareVersions(c, a) == Less
    ensures !VersionsRank({a, b, c})
  {
    CompareVersionsSwap(b, c);
    CompareVersionsSwap(c, a);
  }
}
