/** Patterns of the SQL operator LIKE, and what they match besides their own text. */
module LikePatterns {
  import opened Wrappers

  /** The characters that do not stand for themselves in a pattern. */
  predicate Wild(c: char) {
    c == '_' || c == '%' || c == '\\'
  }

  predicate Plain(p: string) {
    forall c | c in p :: !Wild(c)
  }

  /** Underscores match one character, percent signs any string; a backslash escapes what follows it. */
  predicate Like(p: string, s: string)
    decreases |p| + |s|
  {
    if p == "" then s == ""
    else if p[0] == '%' then Like(p[1..], s) || (s != "" && Like(p, s[1..]))
    else if p[0] == '\\' then |p| > 1 && s != "" && s[0] == p[1] && Like(p[2..], s[1..])
    else s != "" && (p[0] == '_' || s[0] == p[0]) && Like(p[1..], s[1..])
  }

  // ----- what it means to match

  /** A token of a pattern stands for any text, any one character, or the one given. */
  datatype Token = Any | One | Exactly(c: char)

  /** The tokens of a pattern; there are none if it ends in a backslash that escapes nothing. */
  function Tokens(p: string): Option<seq<Token>> {
    if p == "" then Some([])
    else if p == "\\" then None
    else
      var rest := Tokens(p[if p[0] == '\\' then 2 else 1..]);
      if rest.None? then None
      else
        Some([if p[0] == '\\' then Exactly(p[1]) else if p[0] == '%' then Any else if p[0] == '_' then One
              else Exactly(p[0])] + rest.value)
  }

  predicate Fits(t: Token, piece: string) {
    match t
    case Any => true
    case One => |piece| == 1
    case Exactly(c) => piece == [c]
  }

  function Concat(pieces: seq<string>): string {
    if pieces == [] then "" else pieces[0] + Concat(pieces[1..])
  }

  /** The text is in pieces, one for each token, that fit. */
  ghost predicate InPieces(ts: seq<Token>, s: string, pieces: seq<string>) {
    |pieces| == |ts| && Concat(pieces) == s && forall i | 0 <= i < |ts| :: Fits(ts[i], pieces[i])
  }

  lemma PieceFirst(t: Token, ts: seq<Token>, piece: string, s: string, pieces: seq<string>)
    requires Fits(t, piece) && InPieces(ts, s, pieces)
    ensures InPieces([t] + ts, piece + s, [piece] + pieces)
  {
    assert ([piece] + pieces)[1..] == pieces;
  }

  lemma PieceGrows(c: char, ts: seq<Token>, s: string, pieces: seq<string>)
    requires ts != [] && ts[0] == Any && InPieces(ts, s, pieces)
    ensures InPieces(ts, [c] + s, [[c] + pieces[0]] + pieces[1..])
  {
    var more := [[c] + pieces[0]] + pieces[1..];
    assert more[1..] == pieces[1..];
    assert [c] + s == more[0] + Concat(pieces[1..]);
  }

  lemma {:induction false} LikePieces(p: string, s: string) returns (pieces: seq<string>)
    requires Like(p, s)
    ensures Tokens(p).Some? && InPieces(Tokens(p).value, s, pieces)
    decreases |p| + |s|
  {
    if p == "" {
      pieces := [];
    } else if p[0] == '%' && !Like(p[1..], s) {
      var rest := LikePieces(p, s[1..]);
      PieceGrows(s[0], Tokens(p).value, s[1..], rest);
      assert s == [s[0]] + s[1..];
      pieces := [[s[0]] + rest[0]] + rest[1..];
    } else {
      var step, n := if p[0] == '\\' then 2 else 1, if p[0] == '%' then 0 else 1;
      var rest := LikePieces(p[step..], s[n..]);
      assert s == s[..n] + s[n..];
      PieceFirst(Tokens(p).value[0], Tokens(p[step..]).value, s[..n], s[n..], rest);
      pieces := [s[..n]] + rest;
    }
  }

  lemma {:induction false} PiecesLike(p: string, s: string, pieces: seq<string>)
    requires Tokens(p).Some? && InPieces(Tokens(p).value, s, pieces)
    ensures Like(p, s)
    decreases |p| + |s|
  {
    if p != "" {
      var ts, first, rest := Tokens(p).value, pieces[0], pieces[1..];
      assert s == first + Concat(rest);
      if p[0] == '%' && first != "" {
        var shorter := [first[1..]] + rest;
        assert shorter[1..] == rest && s[1..] == first[1..] + Concat(rest);
        PiecesLike(p, s[1..], shorter);
      } else {
        var step := if p[0] == '\\' then 2 else 1;
        assert ts[1..] == Tokens(p[step..]).value && s[|first|..] == Concat(rest);
        assert Fits(ts[0], first);
        PiecesLike(p[step..], s[|first|..], rest);
      }
    }
  }

  /** A text matches exactly if it is in pieces that fit the tokens of the pattern, in order. */
  lemma LikeIff(p: string, s: string)
    ensures Like(p, s) <==> Tokens(p).Some? && exists pieces :: InPieces(Tokens(p).value, s, pieces)
  {
    if Like(p, s) {
      var pieces := LikePieces(p, s);
    }
    if Tokens(p).Some? && exists pieces :: InPieces(Tokens(p).value, s, pieces) {
      var pieces :| InPieces(Tokens(p).value, s, pieces);
      PiecesLike(p, s, pieces);
    }
  }

  // ----- patterns without wild characters

  lemma {:induction false} AnythingLike(s: string)
    ensures Like("%", s)
  {
    if s != "" {
      AnythingLike(s[1..]);
    }
  }

  lemma {:induction false} LikePlain(q: string, p: string, s: string)
    requires Plain(q)
    ensures Like(q + p, q + s) <==> Like(p, s)
  {
    if q == "" {
      assert q + p == p && q + s == s;
    } else {
      assert (q + p)[0] == q[0] && (q + p)[1..] == q[1..] + p && (q + s)[1..] == q[1..] + s;
      assert q[0] in q;
      LikePlain(q[1..], p, s);
    }
  }

  /** Without wild characters a pattern that ends in a percent sign matches what starts with it. */
  lemma {:induction false} PlainLike(p: string, s: string)
    requires Plain(p)
    ensures Like(p + "%", s) <==> p <= s
  {
    if p == "" {
      assert p + "%" == "%";
      AnythingLike(s);
    } else {
      assert (p + "%")[0] == p[0] && (p + "%")[1..] == p[1..] + "%";
      assert p[0] in p;
      if s != "" {
        PlainLike(p[1..], s[1..]);
        assert p <= s <==> p[0] == s[0] && p[1..] <= s[1..];
      }
    }
  }

  // ----- another text that a pattern matches

  /** The pattern with an x for every underscore and percent sign, and without its escapes. */
  function Instance(p: string): string {
    if p == "" then ""
    else if p[0] == '\\' then (if |p| == 1 then "" else [p[1]] + Instance(p[2..]))
    else [if Wild(p[0]) then 'x' else p[0]] + Instance(p[1..])
  }

  /** The pattern ends in a backslash that would escape what comes after it. */
  predicate OpenEnd(p: string) {
    if p == "" then false
    else if p[0] == '\\' then |p| == 1 || OpenEnd(p[2..])
    else OpenEnd(p[1..])
  }

  lemma LikeHead(p: string, s: string)
    requires p != "" && p[0] != '\\' && s != "" && (Wild(p[0]) || s[0] == p[0]) && Like(p[1..], s[1..])
    ensures Like(p, s)
  {
    if p[0] == '%' {
      assert Like(p, s[1..]);
    }
  }

  lemma {:induction false} InstanceLike(p: string, tail: string)
    requires OpenEnd(p) ==> tail == "%"
    ensures Like(p + "%", Instance(p) + tail)
  {
    var q, t := p + "%", Instance(p) + tail;
    if p == "" {
      assert q == "%" && t == tail;
      AnythingLike(tail);
    } else if p == "\\" {
      assert q[1] == '%' && q[2..] == "" && t == "%" && t[1..] == "";
    } else if p[0] == '\\' {
      assert q[2..] == p[2..] + "%" && t[1..] == Instance(p[2..]) + tail;
      InstanceLike(p[2..], tail);
    } else {
      assert q[1..] == p[1..] + "%" && t[1..] == Instance(p[1..]) + tail;
      InstanceLike(p[1..], tail);
      LikeHead(q, t);
    }
  }

  lemma {:induction false} InstanceLength(p: string)
    ensures |Instance(p)| <= |p|
    ensures OpenEnd(p) ==> |Instance(p)| < |p| && p[|p| - 1] == '\\'
    ensures Instance(p) == p ==> Plain(p)
  {
    if p != "" {
      var step := if p[0] == '\\' && |p| > 1 then 2 else 1;
      InstanceLength(p[step..]);
      if p[0] != '\\' && Instance(p) == p {
        assert Instance(p)[1..] == Instance(p[1..]);
        assert p == [p[0]] + p[1..];
      }
    }
  }

  // ----- slashes

  function Slashes(s: string): nat {
    if s == "" then 0 else (if s[0] == '/' then 1 else 0) + Slashes(s[1..])
  }

  lemma {:induction false} SlashesAppend(s: string, t: string)
    ensures Slashes(s + t) == Slashes(s) + Slashes(t)
  {
    if s == "" {
      assert s + t == t;
    } else {
      assert (s + t)[1..] == s[1..] + t;
      SlashesAppend(s[1..], t);
    }
  }

  lemma {:induction false} NoSlashes(s: string)
    ensures Slashes(s) == 0 <==> '/' !in s
  {
    if s != "" {
      NoSlashes(s[1..]);
    }
  }

  lemma {:induction false} InstanceSlashes(p: string)
    ensures Slashes(Instance(p)) == Slashes(p)
  {
    if p != "" {
      var step := if p[0] == '\\' && |p| > 1 then 2 else 1;
      InstanceSlashes(p[step..]);
      if step == 2 {
        assert p[1..][1..] == p[2..];
      }
    }
  }

  /** No slash follows another, or comes first after one. */
  predicate Gapless(after: bool, s: string)
    decreases |s|
  {
    s != "" ==> if s[0] == '/' then !after && Gapless(true, s[1..]) else Gapless(false, s[1..])
  }

  lemma {:induction false} GaplessAppend(after: bool, s: string, t: string)
    requires Gapless(after, s) && t != "" && t[0] != '/' && Gapless(false, t)
    ensures Gapless(after, s + t)
    decreases |s|
  {
    if s == "" {
      assert s + t == t;
    } else {
      assert (s + t)[1..] == s[1..] + t;
      GaplessAppend(s[0] == '/', s[1..], t);
    }
  }

  /** A pattern that matches a text without gaps has an instance without gaps. */
  lemma {:induction false} InstanceGapless(p: string, s: string, after: bool)
    requires Like(p + "%", s) && Gapless(after, s)
    ensures Gapless(after, Instance(p))
    decreases |p| + |s|
  {
    var q := p + "%";
    if p == "" || p == "\\" {
    } else if p[0] == '%' {
      assert q[1..] == p[1..] + "%";
      if Like(q[1..], s) {
        InstanceGapless(p[1..], s, after);
      } else {
        InstanceGapless(p, s[1..], s[0] == '/');
      }
    } else if p[0] == '\\' {
      assert q[2..] == p[2..] + "%";
      InstanceGapless(p[2..], s[1..], s[0] == '/');
    } else {
      assert q[1..] == p[1..] + "%";
      InstanceGapless(p[1..], s[1..], s[0] == '/');
    }
  }

  /** Two slashes in a row are two slashes in a row in the instance, whatever comes before them. */
  lemma {:induction false} InstanceGap(p: string, rest: string, after: bool)
    requires '/' !in p
    ensures !Gapless(after, Instance(p + "//" + rest))
  {
    var q := p + "//" + rest;
    if p == "" {
      assert q[0] == '/' && q[1..][0] == '/';
    } else if p == "\\" {
      assert q[1] == '/' && q[2..][0] == '/';
    } else if p[0] == '\\' {
      assert q[2..] == p[2..] + "//" + rest && q[1] == p[1] && p[1] in p;
      InstanceGap(p[2..], rest, false);
    } else {
      assert q[1..] == p[1..] + "//" + rest && p[0] in p;
      InstanceGap(p[1..], rest, false);
    }
  }

  lemma {:induction false} InstanceEnd(p: string)
    requires p != "" && p[|p| - 1] != '/' && !OpenEnd(p)
    ensures Instance(p) != "" && Instance(p)[|Instance(p)| - 1] != '/'
  {
    var step := if p[0] == '\\' then 2 else 1;
    if |p| > step {
      InstanceEnd(p[step..]);
    }
  }
}
