/** Splitting, joining and comparing strings. */
module Strings {

  datatype Ordering = Less | Equal | Greater

  /** The pieces of `s` between occurrences of `c`; always at least one. */
  function Split(s: string, c: char): (r: seq<string>)
    ensures |r| > 0
  {
    if s == [] then [[]]
    else
      var rest := Split(s[1..], c);
      if s[0] == c then [[]] + rest else [[s[0]] + rest[0]] + rest[1..]
  }

  function Join(parts: seq<string>, c: char): string
    requires |parts| > 0
  {
    if |parts| == 1 then parts[0] else parts[0] + [c] + Join(parts[1..], c)
  }

  /** Lexicographic order by code point, which is Rust's order on strings. */
  function Compare(a: string, b: string): Ordering {
    if a == [] then (if b == [] then Equal else Less)
    else if b == [] then Greater
    else if a[0] < b[0] then Less
    else if a[0] > b[0] then Greater
    else Compare(a[1..], b[1..])
  }

  /** A piece without the separator, followed by the separator, is the first piece. */
  lemma {:induction false} SplitFirst(p: string, c: char, rest: string)
    requires c !in p
    ensures Split(p, c) == [p]
    ensures Split(p + [c] + rest, c) == [p] + Split(rest, c)
  {
    var s := p + [c] + rest;
    if p == [] {
      assert s[1..] == rest;
    } else {
      SplitFirst(p[1..], c, rest);
      assert s[1..] == p[1..] + [c] + rest;
      assert [p[0]] + p[1..] == p;
    }
  }

  /** Splitting undoes joining when no piece contains the separator. */
  lemma {:induction false} SplitJoin(parts: seq<string>, c: char)
    requires |parts| > 0 && forall p | p in parts :: c !in p
    ensures Split(Join(parts, c), c) == parts
  {
    if |parts| == 1 {
      SplitFirst(parts[0], c, "");
    } else {
      SplitJoin(parts[1..], c);
      SplitFirst(parts[0], c, Join(parts[1..], c));
    }
  }

  /** Joining undoes splitting, and no piece contains the separator. */
  lemma {:induction false} JoinSplit(s: string, c: char)
    ensures Join(Split(s, c), c) == s
    ensures forall p | p in Split(s, c) :: c !in p
  {
    if s != [] {
      var rest := Split(s[1..], c);
      JoinSplit(s[1..], c);
      if s[0] == c {
        assert Split(s, c)[1..] == rest;
      } else {
        assert Split(s, c)[1..] == rest[1..];
      }
    }
  }

  /** Comparison is antisymmetric, and equal only on equal strings. */
  lemma {:induction false} CompareSwap(a: string, b: string)
    ensures Compare(a, b) == Less <==> Compare(b, a) == Greater
    ensures Compare(a, b) == Equal <==> a == b
  {
    if a != [] && b != [] {
      CompareSwap(a[1..], b[1..]);
      assert a == [a[0]] + a[1..] && b == [b[0]] + b[1..];
    }
  }

  lemma {:induction false} CompareTrans(a: string, b: string, c: string)
    requires Compare(a, b) == Less && Compare(b, c) == Less
    ensures Compare(a, c) == Less
  {
    if a != [] && b != [] && c != [] && a[0] == b[0] == c[0] {
      CompareTrans(a[1..], b[1..], c[1..]);
    }
  }

  /** Up to four components, as they are printed. */
  lemma JoinFew(a: string, b: string, c: string, d: string, x: char)
    ensures Join([a, b], x) == a + [x] + b
    ensures Join([a, b, c], x) == a + [x] + b + [x] + c
    ensures Join([a, b, c, d], x) == a + [x] + b + [x] + c + [x] + d
  {
    assert [a, b][1..] == [b] && [a, b, c][1..] == [b, c] && [b, c][1..] == [c];
    assert [a, b, c, d][1..] == [b, c, d] && [b, c, d][1..] == [c, d] && [c, d][1..] == [d];
    assert Join([b, c], x) == b + [x] + c && Join([c, d], x) == c + [x] + d;
    assert Join([b, c, d], x) == b + [x] + (c + [x] + d);
  }
}
