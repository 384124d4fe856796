/** Package identifiers as they are stored, printed, listed and searched for. */
module OriginIdents {
  import opened Strings
  import JobPackages

  /** A component that is not set is empty. */
  datatype OriginIdent = OriginIdent(origin: string, name: string, version: string, release: string)

  /** The printed form leaves out an empty release, and a release without a version. */
  function Display(i: OriginIdent): string {
    if i.version != "" && i.release != "" then i.origin + "/" + i.name + "/" + i.version + "/" + i.release
    else if i.version != "" then i.origin + "/" + i.name + "/" + i.version
    else i.origin + "/" + i.name
  }

  function Part(parts: seq<string>, n: nat): string {
    if n < |parts| then parts[n] else ""
  }

  function FromStr(value: string): OriginIdent {
    var parts := Split(value, '/');
    OriginIdent(Part(parts, 0), Part(parts, 1), Part(parts, 2), Part(parts, 3))
  }

  /** Parses component by component; what is missing or empty stays unset. */
  method Parse(value: string) returns (ident: OriginIdent)
    ensures ident == FromStr(value)
  {
    var parts := Split(value, '/');
    ident := OriginIdent("", "", "", "");
    if |parts| > 0 && |parts[0]| > 0 {
      ident := ident.(origin := parts[0]);
    }
    if |parts| > 1 && |parts[1]| > 0 {
      ident := ident.(name := parts[1]);
    }
    if |parts| > 2 && |parts[2]| > 0 {
      ident := ident.(version := parts[2]);
    }
    if |parts| > 3 && |parts[3]| > 0 {
      ident := ident.(release := parts[3]);
    }
  }

  predicate Lacks(i: OriginIdent, c: char) {
    c !in i.origin && c !in i.name && c !in i.version && c !in i.release
  }

  /** The components that are printed. */
  function Components(i: OriginIdent): (r: seq<string>)
    ensures |r| >= 2
  {
    [i.origin, i.name] + if i.version == "" then [] else [i.version] + if i.release == "" then [] else [i.release]
  }

  lemma DisplayJoins(i: OriginIdent)
    ensures Display(i) == Join(Components(i), '/')
  {
    JoinFew(i.origin, i.name, i.version, i.release, '/');
    assert Components(i) == if i.version == "" then [i.origin, i.name]
                            else if i.release == "" then [i.origin, i.name, i.version]
                            else [i.origin, i.name, i.version, i.release];
  }

  lemma SplitDisplay(i: OriginIdent)
    requires Lacks(i, '/')
    ensures Split(Display(i), '/') == Components(i)
  {
    DisplayJoins(i);
    SplitJoin(Components(i), '/');
  }

  /** Characters of the pieces are characters of the whole. */
  lemma {:induction false} SplitChars(s: string, c: char, d: char)
    requires d !in s
    ensures forall p | p in Split(s, c) :: d !in p
  {
    if s != [] {
      SplitChars(s[1..], c, d);
    }
  }

  lemma FromStrLacks(value: string, d: char)
    requires d !in value || d == '/'
    ensures Lacks(FromStr(value), d)
  {
    var parts := Split(value, '/');
    if d == '/' {
      JoinSplit(value, '/');
    } else {
      SplitChars(value, '/', d);
    }
    assert forall n: nat | n < |parts| :: parts[n] in parts;
  }

  /**
   Printing and parsing give an identifier back exactly if no component has a slash and a
   release comes with a version.
   */
  lemma ParseDisplayIff(i: OriginIdent)
    ensures FromStr(Display(i)) == i <==> Lacks(i, '/') && (i.release != "" ==> i.version != "")
  {
    FromStrLacks(Display(i), '/');
    if Lacks(i, '/') {
      SplitDisplay(i);
    }
  }

  // ----- colon-delimited lists

  function Delimited(ids: seq<OriginIdent>): string {
    if ids == [] then "" else Delimited(ids[..|ids| - 1]) + Display(ids[|ids| - 1]) + ":"
  }

  method IntoDelimited(parts: seq<OriginIdent>) returns (buffer: string)
    ensures buffer == Delimited(parts)
  {
    buffer := "";
    for i := 0 to |parts|
      invariant buffer == Delimited(parts[..i])
    {
      assert parts[..i + 1][..i] == parts[..i];
      buffer := buffer + (Display(parts[i]) + ":");
    }
    assert parts[..|parts|] == parts;
  }

  /** The identifiers parsed from the non-empty pieces. */
  function ParseAll(pieces: seq<string>): seq<OriginIdent> {
    if pieces == [] then []
    else
      var front, p := ParseAll(pieces[..|pieces| - 1]), pieces[|pieces| - 1];
      if p == "" then front else front + [FromStr(p)]
  }

  method IntoIdents(column: string) returns (idents: seq<OriginIdent>)
    ensures idents == ParseAll(Split(column, ':'))
  {
    var pieces := Split(column, ':');
    idents := [];
    for i := 0 to |pieces|
      invariant idents == ParseAll(pieces[..i])
    {
      assert pieces[..i + 1][..i] == pieces[..i];
      if pieces[i] != "" {
        var ident := Parse(pieces[i]);
        idents := idents + [ident];
      }
    }
    assert pieces[..|pieces|] == pieces;
  }

  function Displays(ids: seq<OriginIdent>): (r: seq<string>)
    ensures |r| == |ids| && forall i | 0 <= i < |ids| :: r[i] == Display(ids[i])
  {
    seq(|ids|, i requires 0 <= i < |ids| => Display(ids[i]))
  }

  lemma {:induction false} SplitAppend(s: string, p: string, c: char)
    requires c !in p
    ensures Split(s + [c] + p, c) == Split(s, c) + [p]
  {
    if s == [] {
      assert s + [c] + p == [c] + p && ([c] + p)[1..] == p;
      SplitFirst(p, c, "");
    } else {
      assert (s + [c] + p)[1..] == s[1..] + [c] + p;
      SplitAppend(s[1..], p, c);
    }
  }

  lemma DisplaysLast(ids: seq<OriginIdent>)
    requires ids != []
    ensures Displays(ids) == Displays(ids[..|ids| - 1]) + [Display(ids[|ids| - 1])]
  {
  }

  /** Splitting a delimited list gives the printed identifiers and an empty last piece. */
  lemma {:induction false} SplitDelimited(ids: seq<OriginIdent>)
    requires forall i | i in ids :: Lacks(i, ':')
    ensures Split(Delimited(ids), ':') == Displays(ids) + [""]
  {
    if ids != [] {
      var front, last := ids[..|ids| - 1], ids[|ids| - 1];
      SplitDelimited(front);
      DisplayLacks(last);
      DisplaysLast(ids);
      LastPiece(Delimited(front), Displays(front), Display(last));
    }
  }

  lemma LastPiece(s: string, pieces: seq<string>, d: string)
    requires Split(s, ':') == pieces + [""] && ':' !in d
    ensures Split(s + d + ":", ':') == pieces + [d] + [""]
  {
    JoinSplit(s, ':');
    EndsWithEmpty(pieces, ':');
    if pieces == [] {
      assert Join([""], ':') == "";
      assert s == "" && s + d + ":" == d + [':'] + "";
      SplitFirst(d, ':', "");
    } else {
      var t := Join(pieces, ':');
      assert s == t + ":";
      assert forall p | p in pieces :: p in pieces + [""];
      SplitJoin(pieces, ':');
      assert s + d + ":" == (t + [':'] + d) + [':'] + "";
      SplitAppend(t, d, ':');
      SplitAppend(t + [':'] + d, "", ':');
    }
  }

  lemma {:induction false} EndsWithEmpty(pieces: seq<string>, c: char)
    ensures pieces != [] ==> Join(pieces + [""], c) == Join(pieces, c) + [c]
  {
    if |pieces| > 1 {
      assert (pieces + [""])[1..] == pieces[1..] + [""];
      EndsWithEmpty(pieces[1..], c);
    } else if |pieces| == 1 {
      assert (pieces + [""])[1..] == [""];
    }
  }

  lemma {:induction false} ParseDisplays(ids: seq<OriginIdent>)
    ensures |ParseAll(Displays(ids))| == |ids|
    ensures forall i | 0 <= i < |ids| :: ParseAll(Displays(ids))[i] == FromStr(Display(ids[i]))
  {
    if ids != [] {
      var front := ids[..|ids| - 1];
      ParseDisplays(front);
      assert Displays(ids)[..|ids| - 1] == Displays(front);
      DisplayNotEmpty(ids[|ids| - 1]);
    }
  }

  lemma DisplayNotEmpty(i: OriginIdent)
    ensures Display(i) != ""
  {
    assert '/' in Display(i);
  }

  lemma {:induction false} ParseAllLacks(pieces: seq<string>, d: char)
    requires forall p | p in pieces :: d !in p
    ensures forall i | i in ParseAll(pieces) :: Lacks(i, d)
  {
    if pieces != [] {
      ParseAllLacks(pieces[..|pieces| - 1], d);
      assert pieces[|pieces| - 1] in pieces;
      FromStrLacks(pieces[|pieces| - 1], d);
    }
  }

  /** Identifiers that survive being written to a list. */
  predicate Storable(i: OriginIdent) {
    Lacks(i, '/') && Lacks(i, ':') && (i.release != "" ==> i.version != "")
  }

  lemma DisplayLacks(i: OriginIdent)
    requires Lacks(i, ':')
    ensures ':' !in Display(i)
  {
  }

  /** A list of identifiers is read back as it was written exactly if every one of them is storable. */
  lemma ListRoundTripIff(ids: seq<OriginIdent>)
    ensures ParseAll(Split(Delimited(ids), ':')) == ids <==> forall i | i in ids :: Storable(i)
  {
    if ParseAll(Split(Delimited(ids), ':')) == ids {
      JoinSplit(Delimited(ids), ':');
      ParseAllLacks(Split(Delimited(ids), ':'), ':');
    }
    if forall i | i in ids :: Lacks(i, ':') {
      ColonFree(ids);
      forall i | i in ids
        ensures FromStr(Display(i)) == i <==> Storable(i)
      {
        ParseDisplayIff(i);
      }
      ListPointwise(ids);
    }
  }

  lemma ColonFree(ids: seq<OriginIdent>)
    requires forall i | i in ids :: Lacks(i, ':')
    ensures ParseAll(Split(Delimited(ids), ':')) == ParseAll(Displays(ids))
  {
    SplitDelimited(ids);
    assert (Displays(ids) + [""])[..|ids|] == Displays(ids);
  }

  lemma ListPointwise(ids: seq<OriginIdent>)
    ensures ParseAll(Displays(ids)) == ids <==> forall i | i in ids :: FromStr(Display(i)) == i
  {
    ParseDisplays(ids);
    if forall i | i in ids :: FromStr(Display(i)) == i {
      assert forall n | 0 <= n < |ids| :: ids[n] in ids;
    }
  }

  /** The dependency strings that synchronising a package sends to the job server. */
  method DependencyStrings(column: string) returns (deps: seq<string>)
    ensures deps == Displays(ParseAll(Split(column, ':')))
  {
    var pieces := Split(column, ':');
    deps := [];
    for i := 0 to |pieces|
      invariant deps == Displays(ParseAll(pieces[..i]))
    {
      assert pieces[..i + 1][..i] == pieces[..i];
      if pieces[i] != "" {
        var ident := Parse(pieces[i]);
        deps := deps + [Display(ident)];
      }
    }
    assert pieces[..|pieces|] == pieces;
  }

  /** A printed identifier prints the same after being parsed, even when its release was not printed. */
  lemma DisplayParseDisplay(i: OriginIdent)
    requires Lacks(i, '/')
    ensures Display(FromStr(Display(i))) == Display(i)
  {
    SplitDisplay(i);
  }

  /** The package graph files a printed identifier under its origin and name. */
  lemma PrintedShortName(i: OriginIdent)
    requires Lacks(i, '/')
    ensures JobPackages.HasShortName(Display(i))
    ensures JobPackages.ShortName(Display(i)) == i.origin + "/" + i.name
  {
    SplitDisplay(i);
  }

  /** The job server gets the dependencies as they are printed, in their order. */
  lemma SyncSendsDependencies(ids: seq<OriginIdent>)
    requires forall i | i in ids :: Lacks(i, '/') && Lacks(i, ':')
    ensures Displays(ParseAll(Split(Delimited(ids), ':'))) == Displays(ids)
  {
    ColonFree(ids);
    ParseDisplays(ids);
    forall n | 0 <= n < |ids|
      ensures Display(FromStr(Display(ids[n]))) == Display(ids[n])
    {
      DisplayParseDisplay(ids[n]);
    }
  }
}
