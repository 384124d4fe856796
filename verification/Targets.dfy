/** Target platforms as they are written. */
module Targets {
  import opened Wrappers
  import opened Strings

  datatype Architecture = X86_64

  datatype Platform = Linux | Windows | Darwin

  datatype PackageTarget = PackageTarget(platform: Platform, architecture: Architecture)

  /** The characters with the Unicode White_Space property. */
  predicate Whitespace(c: char) {
    || '\U{9}' <= c <= '\U{d}' || c == ' ' || c == '\U{85}' || c == '\U{a0}' || c == '\U{1680}'
    || '\U{2000}' <= c <= '\U{200a}' || c == '\U{2028}' || c == '\U{2029}' || c == '\U{202f}'
    || c == '\U{205f}' || c == '\U{3000}'
  }

  function TrimLeft(s: string): string {
    if s != [] && Whitespace(s[0]) then TrimLeft(s[1..]) else s
  }

  function Trim(s: string): string
    decreases |s|
  {
    if s != [] && Whitespace(s[|s| - 1]) then Trim(s[..|s| - 1]) else TrimLeft(s)
  }

  function Lower(s: string): string {
    seq(|s|, i requires 0 <= i < |s| => if 'A' <= s[i] <= 'Z' then s[i] - 'A' + 'a' else s[i])
  }

  function ParseArchitecture(s: string): Option<Architecture> {
    if Lower(Trim(s)) == "x86_64" then Some(X86_64) else None
  }

  function ParsePlatform(s: string): Option<Platform> {
    var p := Lower(Trim(s));
    if p == "linux" then Some(Linux)
    else if p == "windows" then Some(Windows)
    else if p == "darwin" then Some(Darwin)
    else None
  }

  /** A target is written `architecture-platform`. */
  function ParseTarget(s: string): Option<PackageTarget> {
    var items := Split(s, '-');
    if |items| != 2 then None
    else
      var a, p := ParseArchitecture(items[0]), ParsePlatform(items[1]);
      if a.Some? && p.Some? then Some(PackageTarget(p.value, a.value)) else None
  }

  // ----- what a written target means

  /** All of `s` is white space. */
  predicate Blank(s: string) {
    forall c | c in s :: Whitespace(c)
  }

  /** `s` is `w` letter by letter, in lower or upper case. */
  predicate Spells(s: string, w: string) {
    |s| == |w| && forall k | 0 <= k < |w| :: s[k] == w[k] || ('a' <= w[k] <= 'z' && s[k] == w[k] - 'a' + 'A')
  }

  /** `s` is `w` in any case, between white space. */
  ghost predicate Written(s: string, w: string) {
    exists before, x, after :: s == before + x + after && Blank(before) && Spells(x, w) && Blank(after)
  }

  /** The text starts and ends with something that is no white space. */
  predicate Tight(s: string) {
    s != "" && !Whitespace(s[0]) && !Whitespace(s[|s| - 1])
  }

  lemma {:induction false} TrimLeftBlank(before: string, x: string)
    requires Blank(before) && Tight(x)
    ensures TrimLeft(before + x) == x
  {
    if before == "" {
      assert before + x == x;
    } else {
      assert (before + x)[1..] == before[1..] + x;
      assert before[0] in before;
      TrimLeftBlank(before[1..], x);
    }
  }

  lemma {:induction false} TrimBlank(before: string, x: string, after: string)
    requires Blank(before) && Tight(x) && Blank(after)
    ensures Trim(before + x + after) == x
    decreases |after|
  {
    var s := before + x + after;
    if after == "" {
      assert s == before + x && s[|s| - 1] == x[|x| - 1];
      TrimLeftBlank(before, x);
    } else {
      assert s[..|s| - 1] == before + x + after[..|after| - 1] && s[|s| - 1] == after[|after| - 1];
      assert after[|after| - 1] in after;
      TrimBlank(before, x, after[..|after| - 1]);
    }
  }

  lemma {:induction false} TrimLeftParts(s: string) returns (i: nat)
    ensures i <= |s| && TrimLeft(s) == s[i..] && Blank(s[..i])
  {
    if s != "" && Whitespace(s[0]) {
      var n := TrimLeftParts(s[1..]);
      i := n + 1;
      assert s[..i] == [s[0]] + s[1..][..n];
    } else {
      i := 0;
    }
  }

  lemma {:induction false} TrimParts(s: string) returns (i: nat, j: nat)
    ensures i <= j <= |s| && Trim(s) == s[i..j] && Blank(s[..i]) && Blank(s[j..])
    decreases |s|
  {
    if s != "" && Whitespace(s[|s| - 1]) {
      var front := s[..|s| - 1];
      i, j := TrimParts(front);
      assert front[i..j] == s[i..j] && front[..i] == s[..i] && s[j..] == front[j..] + [s[|s| - 1]];
    } else {
      i := TrimLeftParts(s);
      j := |s|;
    }
  }

  lemma LowerSpells(s: string, w: string)
    requires forall c | c in w :: !('A' <= c <= 'Z')
    ensures Lower(s) == w <==> Spells(s, w)
  {
    if Spells(s, w) {
      forall k | 0 <= k < |w|
        ensures Lower(s)[k] == w[k]
      {
        assert w[k] in w;
      }
    }
    if Lower(s) == w {
      forall k | 0 <= k < |w|
        ensures s[k] == w[k] || ('a' <= w[k] <= 'z' && s[k] == w[k] - 'a' + 'A')
      {
        assert w[k] == Lower(s)[k];
      }
    }
  }

  /** A word of lower-case letters, digits and underscores. */
  predicate Word(w: string) {
    w != "" && forall c | c in w :: 'a' <= c <= 'z' || '0' <= c <= '9' || c == '_'
  }

  lemma SpellsTight(s: string, w: string)
    requires Word(w) && Spells(s, w)
    ensures Tight(s)
  {
    assert w[0] in w && w[|w| - 1] in w;
  }

  lemma WrittenParsed(before: string, x: string, after: string, w: string)
    requires Word(w) && Blank(before) && Spells(x, w) && Blank(after)
    ensures Lower(Trim(before + x + after)) == w
  {
    SpellsTight(x, w);
    TrimBlank(before, x, after);
    LowerSpells(x, w);
  }

  lemma ParsedWritten(s: string, w: string)
    requires Word(w) && Lower(Trim(s)) == w
    ensures Written(s, w)
  {
    var i, j := TrimParts(s);
    LowerSpells(s[i..j], w);
    assert s == s[..i] + s[i..j] + s[j..];
  }

  lemma WrittenIff(s: string, w: string)
    requires Word(w)
    ensures Lower(Trim(s)) == w <==> Written(s, w)
  {
    if Written(s, w) {
      var before, x, after :| s == before + x + after && Blank(before) && Spells(x, w) && Blank(after);
      WrittenParsed(before, x, after, w);
    }
    if Lower(Trim(s)) == w {
      ParsedWritten(s, w);
    }
  }

  /** A platform as it is written. */
  function PlatformName(p: Platform): (r: string) {
    match p
    case Linux => "linux"
    case Windows => "windows"
    case Darwin => "darwin"
  }

  lemma PlatformIff(s: string, p: Platform)
    ensures ParsePlatform(s) == Some(p) <==> Written(s, PlatformName(p))
  {
    assert Word("linux") && Word("windows") && Word("darwin");
    WrittenIff(s, "linux");
    WrittenIff(s, "windows");
    WrittenIff(s, "darwin");
    assert |"linux"| == 5 && |"windows"| == 7 && |"darwin"| == 6;
  }

  lemma ArchitectureIff(s: string)
    ensures ParseArchitecture(s) == Some(X86_64) <==> Written(s, "x86_64")
  {
    WrittenIff(s, "x86_64");
  }

  /** The text is two pieces without dashes around a dash, the architecture and the platform. */
  ghost predicate Names(s: string, platform: string) {
    exists u, v :: s == u + "-" + v && '-' !in u && '-' !in v && Written(u, "x86_64") && Written(v, platform)
  }

  lemma TwoPieces(u: string, v: string)
    requires '-' !in u && '-' !in v
    ensures Split(u + "-" + v, '-') == [u, v]
  {
    SplitFirst(u, '-', v);
    SplitFirst(v, '-', "");
  }

  lemma PiecesOf(s: string) returns (u: string, v: string)
    requires |Split(s, '-')| == 2
    ensures s == u + "-" + v && '-' !in u && '-' !in v && Split(s, '-') == [u, v]
  {
    var items := Split(s, '-');
    u, v := items[0], items[1];
    JoinSplit(s, '-');
    assert items == [u, v];
    JoinFew(u, v, "", "", '-');
    assert u in items && v in items;
  }

  lemma PiecesParse(s: string, u: string, v: string, p: Platform)
    requires Split(s, '-') == [u, v]
    ensures ParseTarget(s) == Some(PackageTarget(p, X86_64)) <==> Written(u, "x86_64") && Written(v, PlatformName(p))
  {
    ArchitectureIff(u);
    PlatformIff(v, p);
  }

  lemma NamesIff(s: string, p: Platform)
    ensures ParseTarget(s) == Some(PackageTarget(p, X86_64)) <==> Names(s, PlatformName(p))
  {
    if Names(s, PlatformName(p)) {
      var u, v :| s == u + "-" + v && '-' !in u && '-' !in v && Written(u, "x86_64") && Written(v, PlatformName(p));
      TwoPieces(u, v);
      PiecesParse(s, u, v, p);
    }
    if ParseTarget(s) == Some(PackageTarget(p, X86_64)) {
      var u, v := PiecesOf(s);
      PiecesParse(s, u, v, p);
    }
  }

  /**
   A text is a target exactly if it is `x86_64`, a dash and the name of the platform, in any case
   and with white space around either.
   */
  lemma TargetIff(s: string)
    ensures ParseTarget(s) == Some(PackageTarget(Linux, X86_64)) <==> Names(s, "linux")
    ensures ParseTarget(s) == Some(PackageTarget(Windows, X86_64)) <==> Names(s, "windows")
    ensures ParseTarget(s) == Some(PackageTarget(Darwin, X86_64)) <==> Names(s, "darwin")
  {
    NamesIff(s, Linux);
    NamesIff(s, Windows);
    NamesIff(s, Darwin);
  }

  lemma AsWritten(w: string)
    ensures Written(w, w)
  {
    assert w == "" + w + "" && Blank("") && Spells(w, w);
  }

  /** In particular a target is read as it is usually written. */
  lemma UsualTarget(s: string, p: Platform)
    requires s == "x86_64" + "-" + PlatformName(p)
    ensures ParseTarget(s) == Some(PackageTarget(p, X86_64))
  {
    AsWritten("x86_64");
    AsWritten(PlatformName(p));
    assert '-' !in "x86_64" && '-' !in PlatformName(p);
    assert Names(s, PlatformName(p));
    NamesIff(s, p);
  }

  /** The targets as they are usually written. */
  lemma UsualTargets(s: string)
    ensures s == "x86_64-linux" ==> ParseTarget(s) == Some(PackageTarget(Linux, X86_64))
    ensures s == "x86_64-windows" ==> ParseTarget(s) == Some(PackageTarget(Windows, X86_64))
    ensures s == "x86_64-darwin" ==> ParseTarget(s) == Some(PackageTarget(Darwin, X86_64))
  {
    if s == "x86_64-linux" {
      UsualTarget(s, Linux);
    } else if s == "x86_64-windows" {
      UsualTarget(s, Windows);
    } else if s == "x86_64-darwin" {
      UsualTarget(s, Darwin);
    }
  }
}
