/** Searching for stored identifiers by their beginning, as strings and as patterns. */
module IdentSearches {
  import opened Strings
  import opened OriginIdents
  import opened LikePatterns

  // ----- starting with the search string

  /** The string a stored identifier has to start with. */
  function Searchable(i: OriginIdent): string {
    var s := Display(i);
    if |Split(s, '/')| < 4 && !(s != "" && s[|s| - 1] == '/') then s + "/" else s
  }

  lemma PrefixHead(c: char, d: char, r: string, s: string)
    ensures [c] + r <= [d] + s <==> c == d && r <= s
  {
    if c == d && r <= s {
      assert [d] + s == [c] + r + s[|r|..];
    }
    if [c] + r <= [d] + s {
      assert ([c] + r)[0] == ([d] + s)[0];
      assert r == ([c] + r)[1..] && s == ([d] + s)[1..];
    }
  }

  /** Comparing up to a slash compares the component before it. */
  lemma {:induction false} PrefixStep(p: string, q: string, r: string, s: string)
    requires '/' !in p && '/' !in q
    ensures p + "/" + r <= q + "/" + s <==> p == q && r <= s
  {
    var x, y := if p == "" then r else p[1..] + "/" + r, if q == "" then s else q[1..] + "/" + s;
    var c, d := if p == "" then '/' else p[0], if q == "" then '/' else q[0];
    assert p + "/" + r == [c] + x && q + "/" + s == [d] + y;
    PrefixHead(c, d, x, y);
    if p != "" && q != "" {
      PrefixStep(p[1..], q[1..], r, s);
    }
  }

  /** `a` names a beginning of the components of `b`; a release only a beginning of the release. */
  predicate Selects(a: OriginIdent, b: OriginIdent) {
    && a.origin == b.origin
    && (a.name == b.name || (a.name == "" && a.version == ""))
    && (a.version == b.version || a.version == "")
    && (a.version == "" || a.release <= b.release)
  }

  predicate Full(i: OriginIdent) {
    i.origin != "" && i.name != "" && i.version != "" && i.release != ""
  }

  /** What `a` searches for, by how much of it is given. */
  lemma SearchableForm(a: OriginIdent)
    requires Lacks(a, '/')
    ensures a.version == "" && a.name == "" ==> Searchable(a) == a.origin + "/" + ""
    ensures a.version == "" && a.name != "" ==> Searchable(a) == a.origin + "/" + (a.name + "/" + "")
    ensures a.version != "" && a.release == "" ==>
              Searchable(a) == a.origin + "/" + (a.name + "/" + (a.version + "/" + ""))
    ensures a.version != "" && a.release != "" ==>
              Searchable(a) == a.origin + "/" + (a.name + "/" + (a.version + "/" + a.release))
  {
    SplitDisplay(a);
    var d := Display(a);
    if a.version != "" && a.release == "" {
      assert d[|d| - 1] == a.version[|a.version| - 1];
      assert a.version[|a.version| - 1] in a.version;
    } else if a.version == "" && a.name != "" {
      assert d[|d| - 1] == a.name[|a.name| - 1];
      assert a.name[|a.name| - 1] in a.name;
    }
  }

  /** A search finds a full identifier exactly when it selects it. */
  lemma SearchFindsIff(a: OriginIdent, b: OriginIdent)
    requires Lacks(a, '/') && Lacks(b, '/') && Full(b)
    ensures Searchable(a) <= Display(b) <==> Selects(a, b)
  {
    SearchableForm(a);
    var br := b.version + "/" + b.release;
    var bn := b.name + "/" + br;
    assert Display(b) == b.origin + "/" + bn;
    if a.version == "" && a.name == "" {
      PrefixStep(a.origin, b.origin, "", bn);
    } else if a.version == "" {
      PrefixStep(a.origin, b.origin, a.name + "/" + "", bn);
      PrefixStep(a.name, b.name, "", br);
    } else {
      var last := if a.release == "" then "" else a.release;
      var ar := a.version + "/" + last;
      PrefixStep(a.origin, b.origin, a.name + "/" + ar, bn);
      PrefixStep(a.name, b.name, ar, br);
      PrefixStep(a.version, b.version, last, b.release);
    }
  }

  /** The search string finds, among full identifiers, exactly those that are selected. */
  method SearchableIdent(ident: OriginIdent) returns (search: string)
    ensures search == Searchable(ident)
    ensures Lacks(ident, '/') ==>
              forall b | Lacks(b, '/') && Full(b) :: search <= Display(b) <==> Selects(ident, b)
  {
    search := Display(ident);
    if |Split(search, '/')| < 4 {
      if search == "" || search[|search| - 1] != '/' {
        search := search + "/";
      }
    }
    if Lacks(ident, '/') {
      forall b | Lacks(b, '/') && Full(b)
        ensures search <= Display(b) <==> Selects(ident, b)
      {
        SearchFindsIff(ident, b);
      }
    }
  }

  /** Every given component is the one of `b`. */
  predicate Matches(a: OriginIdent, b: OriginIdent) {
    && a.origin == b.origin
    && (a.name == b.name || (a.name == "" && a.version == ""))
    && (a.version == b.version || a.version == "")
    && (a.version == "" || a.release == b.release || a.release == "")
  }

  /**
   A search finds exactly the identifiers that match it component by component, unless it
   gives a release that is a proper beginning of the one found.
   */
  lemma SearchMatchesIff(a: OriginIdent, b: OriginIdent)
    requires Lacks(a, '/') && Lacks(b, '/') && Full(b)
    ensures (Searchable(a) <= Display(b) <==> Matches(a, b)) <==>
            !(Full(a) && a.origin == b.origin && a.name == b.name && a.version == b.version && a.release < b.release)
  {
    SearchFindsIff(a, b);
  }

  /** A search for release 2017 also finds release 20171014. */
  lemma SearchFindsLongerRelease()
    ensures
      var a, b := OriginIdent("core", "redis", "3.2.4", "2017"), OriginIdent("core", "redis", "3.2.4", "20171014");
      Searchable(a) <= Display(b) && !Matches(a, b)
  {
    var a, b := OriginIdent("core", "redis", "3.2.4", "2017"), OriginIdent("core", "redis", "3.2.4", "20171014");
    assert b.release[..4] == a.release && |b.release| == 8;
    SearchFindsIff(a, b);
  }

  // ----- matching the search string as a pattern

  /** What a stored identifier is compared with. */
  function Pattern(a: OriginIdent): string {
    Searchable(a) + "%"
  }

  /** A component is missing before one that is given; no full identifier is like that. */
  predicate Gapped(a: OriginIdent) {
    a.origin == "" || (a.name == "" && a.version != "")
  }

  lemma {:induction false} SplitSlashes(s: string)
    ensures |Split(s, '/')| == Slashes(s) + 1
  {
    if s != "" {
      SplitSlashes(s[1..]);
    }
  }

  lemma {:induction false} PiecesNotEmpty(s: string, after: bool)
    requires Gapless(after, s) && (if s == "" then !after else s[|s| - 1] != '/')
    ensures forall i | 0 <= i < |Split(s, '/')| && (i > 0 || after) :: Split(s, '/')[i] != ""
  {
    if s != "" {
      PiecesNotEmpty(s[1..], s[0] == '/');
    }
  }

  /** Three slashes without gaps make a full identifier. */
  lemma FullFrom(t: string)
    requires Slashes(t) == 3 && Gapless(true, t) && t != "" && t[|t| - 1] != '/'
    ensures Full(FromStr(t)) && Lacks(FromStr(t), '/') && Display(FromStr(t)) == t
  {
    SplitSlashes(t);
    PiecesNotEmpty(t, true);
    FromStrLacks(t, '/');
    var parts := Split(t, '/');
    JoinSplit(t, '/');
    assert parts == [parts[0], parts[1], parts[2], parts[3]];
    JoinFew(parts[0], parts[1], parts[2], parts[3], '/');
  }

  lemma {:induction false} ComponentGapless(after: bool, c: string, rest: string)
    requires c != "" && '/' !in c && (rest == "" || Gapless(false, rest))
    ensures Gapless(after, c + rest)
  {
    assert (c + rest)[0] == c[0] && (c + rest)[1..] == c[1..] + rest && c[0] in c;
    if |c| > 1 {
      ComponentGapless(false, c[1..], rest);
    } else {
      assert c[1..] + rest == rest;
    }
  }

  lemma SlashGapless(c: string, rest: string)
    requires c != "" && '/' !in c && (rest == "" || Gapless(false, rest))
    ensures Gapless(false, "/" + (c + rest))
  {
    ComponentGapless(true, c, rest);
    assert ("/" + (c + rest))[1..] == c + rest;
  }

  lemma FullGapless(b: OriginIdent)
    requires Full(b) && Lacks(b, '/')
    ensures Gapless(true, Display(b))
  {
    SlashGapless(b.release, "");
    SlashGapless(b.version, "/" + (b.release + ""));
    SlashGapless(b.name, "/" + (b.version + ("/" + (b.release + ""))));
    ComponentGapless(true, b.origin, "/" + (b.name + ("/" + (b.version + ("/" + (b.release + ""))))));
    assert Display(b) == b.origin + ("/" + (b.name + ("/" + (b.version + ("/" + (b.release + ""))))));
  }

  lemma TwoSlashes(o: string, rest: string)
    ensures o + "/" + ("" + "/" + rest) == o + "//" + rest
  {
  }

  lemma GappedInstance(a: OriginIdent)
    requires Lacks(a, '/') && Gapped(a)
    ensures !Gapless(true, Instance(Searchable(a)))
  {
    SearchableForm(a);
    var p := Searchable(a);
    if a.origin == "" {
      assert p[0] == '/';
    } else {
      var rest := a.version + "/" + if a.release == "" then "" else a.release;
      assert p == a.origin + "/" + ("" + "/" + rest);
      TwoSlashes(a.origin, rest);
      InstanceGap(a.origin, rest, true);
    }
  }

  lemma GapFindsNothing(a: OriginIdent, b: OriginIdent)
    requires Lacks(b, '/') && Full(b) && !Gapless(true, Instance(Searchable(a)))
    ensures !Like(Pattern(a), Display(b))
  {
    FullGapless(b);
    if Like(Pattern(a), Display(b)) {
      InstanceGapless(Searchable(a), Display(b), true);
    }
  }

  /** A search for a gapped identifier finds nothing. */
  lemma GappedFindsNothing(a: OriginIdent, b: OriginIdent)
    requires Lacks(a, '/') && Lacks(b, '/') && Full(b) && Gapped(a)
    ensures !Like(Pattern(a), Display(b)) && !Selects(a, b)
  {
    GappedInstance(a);
    GapFindsNothing(a, b);
  }

  // ----- a full identifier that tells pattern and text apart

  /** Components of its own for those that are not given. */
  function Filled(a: OriginIdent): OriginIdent {
    OriginIdent(a.origin,
                if a.name == "" then "x" else a.name,
                if a.version == "" then "x" else a.version,
                if a.version == "" || a.release == "" then "x" else a.release)
  }

  lemma FilledMatches(a: OriginIdent)
    requires Lacks(a, '/') && !Gapped(a)
    ensures Full(Filled(a)) && Lacks(Filled(a), '/') && Matches(a, Filled(a)) && Selects(a, Filled(a))
  {
  }

  /** What makes an instance of the search string a full identifier. */
  function Completion(a: OriginIdent): string {
    if a.version == "" && a.name == "" then "x/x/x"
    else if a.version == "" then "x/x"
    else if a.release == "" then "x"
    else if OpenEnd(Searchable(a)) then "%"
    else ""
  }

  lemma CompletionSlashes(a: OriginIdent)
    requires Lacks(a, '/')
    ensures Slashes(Searchable(a)) + Slashes(Completion(a)) == 3
  {
    SearchableForm(a);
    NoSlashes(a.origin);
    NoSlashes(a.name);
    NoSlashes(a.version);
    NoSlashes(a.release);
    var last := if a.release == "" then "" else a.release;
    SlashesAppend(a.version + "/", last);
    SlashesAppend(a.version, "/");
    SlashesAppend(a.name + "/", a.version + "/" + last);
    SlashesAppend(a.name + "/", "");
    SlashesAppend(a.name, "/");
    SlashesAppend(a.origin + "/", a.name + "/" + (a.version + "/" + last));
    SlashesAppend(a.origin + "/", a.name + "/" + "");
    SlashesAppend(a.origin + "/", "");
    SlashesAppend(a.origin, "/");
    FewSlashes();
  }

  lemma FewSlashes()
    ensures Slashes("x/x/x") == 2 && Slashes("x/x") == 1 && Slashes("x") == 0 && Slashes("%") == 0 && Slashes("/") == 1
  {
    assert "x/x/x"[1..] == "/x/x" && "/x/x"[1..] == "x/x" && "x/x"[1..] == "/x" && "/x"[1..] == "x";
  }

  /** How the search string ends, by whether it is for a full identifier. */
  lemma SearchableEnd(a: OriginIdent)
    requires Lacks(a, '/')
    ensures
      var p := Searchable(a);
      && p != "" && (p[|p| - 1] == '/' <==> a.version == "" || a.release == "")
      && (p[|p| - 1] == '/' ==> !OpenEnd(p))
  {
    SearchableForm(a);
    InstanceLength(Searchable(a));
    if a.version != "" && a.release != "" {
      assert a.release[|a.release| - 1] in a.release;
    }
  }

  lemma CompletedGapless(p: string, t: string)
    requires Gapless(true, Instance(p)) && (t == "" || (t[0] != '/' && Gapless(false, t)))
    ensures Gapless(true, Instance(p) + t)
  {
    if t == "" {
      assert Instance(p) + t == Instance(p);
    } else {
      GaplessAppend(true, Instance(p), t);
    }
  }

  lemma CompletionGapless(a: OriginIdent)
    ensures Completion(a) == "" || (Completion(a)[0] != '/' && Gapless(false, Completion(a)))
  {
    assert "x/x/x"[1..] == "/x/x" && "/x/x"[1..] == "x/x" && "x/x"[1..] == "/x" && "/x"[1..] == "x";
  }

  lemma CompletedEnd(a: OriginIdent)
    requires Lacks(a, '/')
    ensures
      var t := Instance(Searchable(a)) + Completion(a);
      t != "" && t[|t| - 1] != '/'
  {
    SearchableEnd(a);
    if Completion(a) == "" {
      InstanceEnd(Searchable(a));
      assert Instance(Searchable(a)) + "" == Instance(Searchable(a));
    }
  }

  lemma PrefixOfBoth(p: string, i: string, c: string)
    requires p <= i + c && |i| <= |p|
    ensures |p| - |i| <= |c| && p == i + c[..|p| - |i|]
  {
  }

  /** What is added without a slash does not end in one. */
  lemma AddedEnd(i: string, d: string)
    requires d != "" && Slashes(i + d) == Slashes(i)
    ensures (i + d)[|i + d| - 1] == d[|d| - 1] != '/'
  {
    SlashesAppend(i, d);
    NoSlashes(d);
    assert d[|d| - 1] in d;
  }

  /** The completed instance does not start with the search string itself. */
  lemma CompletedDiffers(a: OriginIdent)
    requires Lacks(a, '/') && !Plain(Searchable(a))
    ensures !(Searchable(a) <= Instance(Searchable(a)) + Completion(a))
  {
    var p := Searchable(a);
    var i, c := Instance(p), Completion(a);
    InstanceLength(p);
    InstanceSlashes(p);
    SearchableEnd(a);
    assert i != p && i + "" == i;
    if p <= i + c {
      PrefixOfBoth(p, i, c);
      AddedEnd(i, c[..|p| - |i|]);
    }
  }

  /** With wild characters, a full identifier that the pattern matches and the text does not, or conversely. */
  lemma WildWitness(a: OriginIdent) returns (b: OriginIdent)
    requires Lacks(a, '/') && !Gapped(a) && !Plain(Searchable(a))
    ensures Full(b) && Lacks(b, '/')
    ensures if Like(Pattern(a), Display(b)) then !Selects(a, b) else Matches(a, b)
  {
    var p := Searchable(a);
    if Gapless(true, Instance(p)) {
      var t := Instance(p) + Completion(a);
      CompletionSlashes(a);
      InstanceSlashes(p);
      SlashesAppend(Instance(p), Completion(a));
      CompletionGapless(a);
      CompletedGapless(p, Completion(a));
      CompletedEnd(a);
      FullFrom(t);
      b := FromStr(t);
      SearchableEnd(a);
      InstanceLike(p, Completion(a));
      CompletedDiffers(a);
      SearchFindsIff(a, b);
    } else {
      b := Filled(a);
      FilledMatches(a);
      GapFindsNothing(a, b);
    }
  }

  /** The search finds the full identifiers that are selected. */
  ghost predicate FindsSelected(a: OriginIdent) {
    forall b | Lacks(b, '/') && Full(b) :: Like(Pattern(a), Display(b)) <==> Selects(a, b)
  }

  /** The search finds the full identifiers that match component by component. */
  ghost predicate FindsMatches(a: OriginIdent) {
    forall b | Lacks(b, '/') && Full(b) :: Like(Pattern(a), Display(b)) <==> Matches(a, b)
  }

  /**
   The pattern finds what starts with the search string if and only if no printed component
   has an underscore, a percent sign or a backslash, or the search is gapped and finds nothing.
   */
  lemma FindsSelectedIff(a: OriginIdent)
    requires Lacks(a, '/')
    ensures FindsSelected(a) <==> Plain(Searchable(a)) || Gapped(a)
  {
    if Plain(Searchable(a)) || Gapped(a) {
      forall b | Lacks(b, '/') && Full(b)
        ensures Like(Pattern(a), Display(b)) <==> Selects(a, b)
      {
        FindsSelectedAt(a, b);
      }
    } else {
      var b := WildWitness(a);
    }
  }

  lemma FindsSelectedAt(a: OriginIdent, b: OriginIdent)
    requires Lacks(a, '/') && Lacks(b, '/') && Full(b) && (Plain(Searchable(a)) || Gapped(a))
    ensures Like(Pattern(a), Display(b)) <==> Selects(a, b)
  {
    if Gapped(a) {
      GappedFindsNothing(a, b);
    } else {
      PlainLike(Searchable(a), Display(b));
      SearchFindsIff(a, b);
    }
  }

  /** It finds exactly the component-wise matches if and only if, besides, the search gives no release. */
  lemma FindsMatchesIff(a: OriginIdent)
    requires Lacks(a, '/')
    ensures FindsMatches(a) <==> (Plain(Searchable(a)) && (a.version == "" || a.release == "")) || Gapped(a)
  {
    if Gapped(a) || (Plain(Searchable(a)) && (a.version == "" || a.release == "")) {
      forall b | Lacks(b, '/') && Full(b)
        ensures Like(Pattern(a), Display(b)) <==> Matches(a, b)
      {
        FindsSelectedAt(a, b);
      }
    } else if Plain(Searchable(a)) {
      var b := a.(release := a.release + "x");
      FindsSelectedAt(a, b);
      assert a.release <= b.release && a.release != b.release;
    } else {
      var b := WildWitness(a);
    }
  }

  /** An underscore in the origin finds every origin with another character in its place. */
  lemma SearchFindsOtherOrigin(x: string, y: string, c: char, b: OriginIdent)
    requires Plain(x + y + b.name) && Full(b) && Lacks(b, '/') && b.origin == x + [c] + y && c != '_'
    ensures
      var a := OriginIdent(x + "_" + y, b.name, "", "");
      Like(Pattern(a), Display(b)) && !Matches(a, b)
  {
    var a := OriginIdent(x + "_" + y, b.name, "", "");
    assert Lacks(a, '/') by {
      assert forall d | d in x || d in y :: d in b.origin;
    }
    SearchableForm(a);
    var s := b.version + "/" + b.release;
    UnderscoreLike(x, y, c, b.name, s);
    assert Pattern(a) == x + "_" + y + "/" + (b.name + "/" + "") + "%";
    assert Display(b) == x + [c] + y + "/" + (b.name + "/" + s);
    assert a.origin[|x|] == '_' && b.origin[|x|] == c;
  }

  lemma UnderscoreLike(x: string, y: string, c: char, n: string, s: string)
    requires Plain(x + y + n)
    ensures Like(x + "_" + y + "/" + (n + "/" + "") + "%", x + [c] + y + "/" + (n + "/" + s))
  {
    var q := y + "/" + n + "/";
    AnythingLike(s);
    assert Plain(q) && Plain(x) by {
      assert forall d | d in x || d in y || d in n :: d in x + y + n;
    }
    LikePlain(q, "%", s);
    var p, t := "_" + (q + "%"), [c] + (q + s);
    assert p[1..] == q + "%" && t[1..] == q + s;
    LikeHead(p, t);
    LikePlain(x, p, t);
    Regroup(x, '_', y, n, "", "%");
    Regroup(x, c, y, n, s, "");
    assert "" + "%" == "%" && s + "" == s && x + ['_'] + y == x + "_" + y;
    assert x + "_" + y + "/" + (n + "/" + "") + "%" == x + p;
    assert x + [c] + y + "/" + (n + "/" + s) + "" == x + [c] + y + "/" + (n + "/" + s) == x + t;
  }

  lemma Regroup(x: string, c: char, y: string, n: string, s: string, e: string)
    ensures x + [c] + y + "/" + (n + "/" + s) + e == x + ([c] + (y + "/" + n + "/" + (s + e)))
  {
  }
}
