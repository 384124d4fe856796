/** The order on strings, and on numbers written in digits, said of their characters. */
module DigitStrings {
  import opened Strings
  import opened Bits
  import opened PackageIdents

  // ----- strings

  /** Where `a` and `b` first differ, `a` has ended or has the smaller character. */
  ghost predicate Before(a: string, b: string) {
    exists i | 0 <= i <= |a| && i < |b| :: a[..i] == b[..i] && (i == |a| || a[i] < b[i])
  }

  lemma BeforeAt(a: string, b: string, i: nat)
    requires i <= |a| && i < |b| && a[..i] == b[..i] && (i == |a| || a[i] < b[i])
    ensures Before(a, b)
  {
  }

  lemma {:induction false} LessBefore(a: string, b: string) returns (i: nat)
    requires Compare(a, b) == Less
    ensures i <= |a| && i < |b| && a[..i] == b[..i] && (i == |a| || a[i] < b[i])
  {
    if a == "" || a[0] < b[0] {
      i := 0;
    } else {
      var n := LessBefore(a[1..], b[1..]);
      i := n + 1;
      assert a[..i] == [a[0]] + a[1..][..n] && b[..i] == [b[0]] + b[1..][..n];
    }
  }

  lemma {:induction false} BeforeLess(a: string, b: string, i: nat)
    requires i <= |a| && i < |b| && a[..i] == b[..i] && (i == |a| || a[i] < b[i])
    ensures Compare(a, b) == Less
  {
    if i > 0 {
      assert a[0] == a[..i][0] == b[..i][0] == b[0];
      assert a[1..][..i - 1] == a[..i][1..] == b[..i][1..] == b[1..][..i - 1];
      BeforeLess(a[1..], b[1..], i - 1);
    }
  }

  lemma BeforeIff(a: string, b: string)
    ensures Compare(a, b) == Less <==> Before(a, b)
  {
    if Compare(a, b) == Less {
      var i := LessBefore(a, b);
      BeforeAt(a, b, i);
    }
    if Before(a, b) {
      var i :| 0 <= i <= |a| && i < |b| && a[..i] == b[..i] && (i == |a| || a[i] < b[i]);
      BeforeLess(a, b, i);
    }
  }

  // ----- numbers

  predicate AllDigits(p: string) {
    forall c | c in p :: '0' <= c <= '9'
  }

  /** The digit of `p` for the i-th power of ten; there are zeros before the first one. */
  function DigitAt(p: string, i: nat): int {
    if i < |p| then p[|p| - 1 - i] as int - '0' as int else 0
  }

  /** `p` has the smaller digit at the highest power of ten at which they differ. */
  ghost predicate Smaller(p: string, q: string) {
    exists i: nat :: DigitAt(p, i) < DigitAt(q, i) && forall j: nat | j > i :: DigitAt(p, j) == DigitAt(q, j)
  }

  /** The digits agree, zeros before the first one left out. */
  ghost predicate Same(p: string, q: string) {
    forall i: nat :: DigitAt(p, i) == DigitAt(q, i)
  }

  function Chop(p: string): string {
    if p == "" then "" else p[..|p| - 1]
  }

  lemma ChopDigits(p: string)
    requires AllDigits(p)
    ensures AllDigits(Chop(p)) && Decimal(p) == 10 * Decimal(Chop(p)) + DigitAt(p, 0) && 0 <= DigitAt(p, 0) <= 9
    ensures forall i: nat :: DigitAt(p, i + 1) == DigitAt(Chop(p), i)
  {
    if p != "" {
      assert p == Chop(p) + [p[|p| - 1]];
      assert p[|p| - 1] in p && forall c | c in Chop(p) :: c in p;
    }
  }

  lemma SameChop(p: string, q: string)
    requires AllDigits(p) && AllDigits(q)
    ensures Same(p, q) <==> Same(Chop(p), Chop(q)) && DigitAt(p, 0) == DigitAt(q, 0)
  {
    ChopDigits(p);
    ChopDigits(q);
    if Same(Chop(p), Chop(q)) && DigitAt(p, 0) == DigitAt(q, 0) {
      forall i: nat
        ensures DigitAt(p, i) == DigitAt(q, i)
      {
        if i > 0 {
          assert DigitAt(p, (i - 1) + 1) == DigitAt(Chop(p), i - 1);
          assert DigitAt(q, (i - 1) + 1) == DigitAt(Chop(q), i - 1);
        }
      }
    }
    if Same(p, q) {
      forall i: nat
        ensures DigitAt(Chop(p), i) == DigitAt(Chop(q), i)
      {
        assert DigitAt(p, i + 1) == DigitAt(q, i + 1);
      }
    }
  }

  lemma SmallerChop(p: string, q: string)
    requires AllDigits(p) && AllDigits(q)
    ensures Smaller(p, q) ==> Smaller(Chop(p), Chop(q)) || (Same(Chop(p), Chop(q)) && DigitAt(p, 0) < DigitAt(q, 0))
  {
    ChopDigits(p);
    ChopDigits(q);
    if Smaller(p, q) {
      var i: nat :| DigitAt(p, i) < DigitAt(q, i) && forall j: nat | j > i :: DigitAt(p, j) == DigitAt(q, j);
      forall j: nat | j + 1 > i
        ensures DigitAt(Chop(p), j) == DigitAt(Chop(q), j)
      {
        assert DigitAt(p, j + 1) == DigitAt(q, j + 1);
      }
      if i > 0 {
        assert DigitAt(p, (i - 1) + 1) == DigitAt(Chop(p), i - 1) && DigitAt(q, (i - 1) + 1) == DigitAt(Chop(q), i - 1);
      }
    }
  }

  lemma SmallerAbove(p: string, q: string)
    requires AllDigits(p) && AllDigits(q)
    requires Smaller(Chop(p), Chop(q)) || (Same(Chop(p), Chop(q)) && DigitAt(p, 0) < DigitAt(q, 0))
    ensures Smaller(p, q)
  {
    ChopDigits(p);
    ChopDigits(q);
    var i: nat := 0;
    if Smaller(Chop(p), Chop(q)) {
      var n: nat :| DigitAt(Chop(p), n) < DigitAt(Chop(q), n)
                    && forall j: nat | j > n :: DigitAt(Chop(p), j) == DigitAt(Chop(q), j);
      i := n + 1;
      assert DigitAt(p, n + 1) < DigitAt(q, n + 1);
    }
    forall j: nat | j > i
      ensures DigitAt(p, j) == DigitAt(q, j)
    {
      assert DigitAt(p, (j - 1) + 1) == DigitAt(Chop(p), j - 1) && DigitAt(q, (j - 1) + 1) == DigitAt(Chop(q), j - 1);
    }
  }

  /** Numbers are compared by their highest differing digit, however many zeros come first. */
  lemma {:induction false} DecimalOrder(p: string, q: string)
    requires AllDigits(p) && AllDigits(q)
    ensures Decimal(p) < Decimal(q) <==> Smaller(p, q)
    ensures Decimal(p) == Decimal(q) <==> Same(p, q)
    decreases |p| + |q|
  {
    if p != "" || q != "" {
      ChopDigits(p);
      ChopDigits(q);
      DecimalOrder(Chop(p), Chop(q));
      SameChop(p, q);
      SmallerChop(p, q);
      if Smaller(Chop(p), Chop(q)) || (Same(Chop(p), Chop(q)) && DigitAt(p, 0) < DigitAt(q, 0)) {
        SmallerAbove(p, q);
      }
    }
  }

  /** 2^64, in groups of four digits. */
  function Limit(): string {
    "1844" + "6744" + "0737" + "0955" + "1616"
  }

  /** A number that fits 64 bits. */
  ghost predicate Readable(p: string) {
    p != "" && AllDigits(p) && Smaller(p, Limit())
  }

  lemma AppendDigit(front: string, c: char)
    requires '0' <= c <= '9'
    ensures Decimal(front + [c]) == 10 * Decimal(front) + (c as int - '0' as int)
  {
    assert (front + [c])[..|front|] == front;
  }

  lemma AppendPair(front: string, a: char, b: char)
    requires '0' <= a <= '9' && '0' <= b <= '9'
    ensures Decimal(front + [a, b]) == 100 * Decimal(front) + 10 * (a as int - 48) + (b as int - 48)
  {
    AppendDigit(front, a);
    AppendDigit(front + [a], b);
    assert front + [a, b] == front + [a] + [b];
  }

  lemma AppendGroup(front: string, a: char, b: char, c: char, d: char)
    requires '0' <= a <= '9' && '0' <= b <= '9' && '0' <= c <= '9' && '0' <= d <= '9'
    ensures Decimal(front + [a, b, c, d]) ==
            10000 * Decimal(front) + 1000 * (a as int - 48) + 100 * (b as int - 48)
            + 10 * (c as int - 48) + (d as int - 48)
  {
    AppendPair(front, a, b);
    AppendPair(front + [a, b], c, d);
    assert front + [a, b, c, d] == front + [a, b] + [c, d];
  }

  lemma LimitDigits()
    ensures AllDigits(Limit())
  {
  }

  lemma LimitValue()
    ensures Decimal(Limit()) == U64_SIZE
  {
    var one := "1844";
    var two := one + "6744";
    var three := two + "0737";
    var four := three + "0955";
    assert one == "" + ['1', '8', '4', '4'];
    AppendGroup("", '1', '8', '4', '4');
    AppendGroup(one, '6', '7', '4', '4');
    AppendGroup(two, '0', '7', '3', '7');
    AppendGroup(three, '0', '9', '5', '5');
    AppendGroup(four, '1', '6', '1', '6');
  }

  lemma ReadableIff(p: string)
    ensures ParseU64(p).Some? <==> Readable(p)
  {
    LimitDigits();
    LimitValue();
    if AllDigits(p) {
      DecimalOrder(p, Limit());
    }
  }

  lemma ReadableOrder(p: string, q: string)
    requires ParseU64(p).Some? && ParseU64(q).Some?
    ensures ParseU64(p).value < ParseU64(q).value <==> Smaller(p, q)
    ensures ParseU64(p).value == ParseU64(q).value <==> Same(p, q)
  {
    DecimalOrder(p, q);
  }
}
