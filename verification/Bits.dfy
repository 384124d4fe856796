/** Bitwise operations on unsigned numbers. */
module Bits {

  /** Unsigned 64-bit numbers are below it. */
  const U64_SIZE := 0x1_0000_0000_0000_0000

  function Pow2(n: nat): (r: nat)
    ensures r > 0
  {
    if n == 0 then 1 else 2 * Pow2(n - 1)
  }

  /** Bitwise or. */
  function Or(x: nat, y: nat): nat {
    if x == 0 then y
    else if y == 0 then x
    else 2 * Or(x / 2, y / 2) + if x % 2 == 1 || y % 2 == 1 then 1 else 0
  }

  /** Bitwise and. */
  function And(x: nat, y: nat): nat {
    if x == 0 || y == 0 then 0
    else 2 * And(x / 2, y / 2) + if x % 2 == 1 && y % 2 == 1 then 1 else 0
  }

  /** Numbers without common bits are or-ed by adding them. */
  lemma {:induction false} OrDisjoint(x: nat, y: nat, k: nat)
    requires y < Pow2(k)
    ensures Or(x * Pow2(k), y) == x * Pow2(k) + y
  {
    if k > 0 && x > 0 && y > 0 {
      var z := x * Pow2(k - 1);
      assert x * Pow2(k) == 2 * z by {
        assert Pow2(k) == 2 * Pow2(k - 1);
      }
      assert z > 0;
      OrDisjoint(x, y / 2, k - 1);
      OrEven(z, y);
    } else if x == 0 {
      assert x * Pow2(k) == 0;
    }
  }

  lemma OrEven(z: nat, y: nat)
    requires z > 0 && y > 0
    ensures Or(2 * z, y) == 2 * Or(z, y / 2) + y % 2
  {
    assert (2 * z) / 2 == z;
  }

  /** Masking with k one bits is the remainder modulo 2^k. */
  lemma {:induction false} AndMask(x: nat, k: nat)
    ensures And(x, Pow2(k) - 1) == x % Pow2(k)
  {
    if k == 0 {
      assert Pow2(k) == 1;
    } else if x == 0 {
      assert 0 % Pow2(k) == 0;
    } else {
      var m := Pow2(k - 1);
      AndMask(x / 2, k - 1);
      HalfRemainder(x, m);
      AndOdd(x, m - 1);
    }
  }

  lemma AndOdd(x: nat, z: nat)
    requires x > 0
    ensures And(x, 2 * z + 1) == 2 * And(x / 2, z) + x % 2
  {
    assert (2 * z + 1) / 2 == z && (2 * z + 1) % 2 == 1;
  }

  lemma HalfRemainder(x: nat, m: nat)
    requires m > 0
    ensures x % (2 * m) == 2 * (x / 2 % m) + x % 2
  {
    var q, r := x / 2 / m, x / 2 % m;
    assert x / 2 == q * m + r;
    assert x == q * (2 * m) + (2 * r + x % 2) by {
      assert q * (2 * m) == 2 * (q * m);
    }
    RemainderUnique(x, 2 * m, q, 2 * r + x % 2);
  }

  lemma RemainderUnique(x: nat, m: nat, q: nat, r: nat)
    requires x == q * m + r && r < m
    ensures x % m == r && x / m == q
  {
    var p, s := x / m, x % m;
    assert x == p * m + s;
    assert (q - p) * m == q * m - p * m == s - r;
    if q > p {
      AtLeast(q - p, m);
    } else if q < p {
      assert (p - q) * m == -((q - p) * m);
      AtLeast(p - q, m);
    }
  }

  lemma AtLeast(d: nat, m: nat)
    requires d > 0
    ensures d * m >= m
  {
  }

  lemma Powers()
    ensures Pow2(10) == 0x400 && Pow2(13) == 0x2000 && Pow2(23) == 0x80_0000
    ensures Pow2(56) == 0x100_0000_0000_0000 && Pow2(57) == 0x200_0000_0000_0000
  {
    assert Pow2(8) == 0x100;
    assert Pow2(16) == 0x1_0000;
    assert Pow2(24) == 0x100_0000;
    assert Pow2(32) == 0x1_0000_0000;
    assert Pow2(40) == 0x100_0000_0000;
    assert Pow2(48) == 0x1_0000_0000_0000;
  }
}
