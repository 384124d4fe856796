/** The delay before a failed event is tried again, with the machine arithmetic it is computed in. */
module Backoff {
  import opened Bits

  const BACKOFF_SLOT_TIME_MS := 100
  const FAILURE_COUNT_UPPER_BOUND := 10
  const I64_SIZE := 0x8000_0000_0000_0000

  /** The constant named an upper bound is in fact a lower bound for the exponent. */
  function Exponent(failures: nat): nat {
    if failures >= FAILURE_COUNT_UPPER_BOUND then failures else FAILURE_COUNT_UPPER_BOUND
  }

  /** The number of slots to draw from is a 64-bit power; from 2^64 on there is none. */
  predicate CanDraw(failures: nat) {
    Exponent(failures) < 64
  }

  function AsI64(n: nat): int {
    var m := n % U64_SIZE;
    if m < I64_SIZE then m else m - U64_SIZE
  }

  /** The delay in milliseconds for a draw, multiplied in 64 bits and cast to a signed number. */
  function Delay(cycles: nat): int {
    AsI64((cycles * BACKOFF_SLOT_TIME_MS) % U64_SIZE)
  }

  /** The delay is the product up to a multiple of 2^64, as a signed 64-bit number. */
  lemma DelayWraps(cycles: nat)
    ensures -0x8000_0000_0000_0000 <= Delay(cycles) < 0x8000_0000_0000_0000
    ensures (100 * cycles - Delay(cycles)) % 0x1_0000_0000_0000_0000 == 0
  {
    var p := cycles * BACKOFF_SLOT_TIME_MS;
    assert p == p / U64_SIZE * U64_SIZE + p % U64_SIZE;
  }

  lemma {:induction false} Pow2Mono(m: nat, n: nat)
    requires m <= n
    ensures Pow2(m) <= Pow2(n)
    decreases n - m
  {
    if m < n {
      Pow2Mono(m, n - 1);
    }
  }

  /**
   Every possible draw after `failures` failures gives the delay it stands for, and so one in
   [0, 100 * 2^max(failures, 10)), exactly up to 56 failures.  From 57 on some draws are cast
   to delays in the past.
   */
  lemma DelayExactIff(failures: nat)
    ensures (forall cycles: nat | cycles < Pow2(if failures >= 10 then failures else 10) ::
               Delay(cycles) == cycles * 100) <==> failures <= 56
  {
    Powers();
    var n := Exponent(failures);
    if failures <= 56 {
      Pow2Mono(n, 56);
      forall cycles: nat | cycles < Pow2(n)
        ensures Delay(cycles) == cycles * BACKOFF_SLOT_TIME_MS
      {
        assert cycles * BACKOFF_SLOT_TIME_MS < I64_SIZE;
      }
    } else {
      Pow2Mono(57, n);
      var cycles := Pow2(57) - 1;
      assert I64_SIZE <= cycles * BACKOFF_SLOT_TIME_MS < U64_SIZE;
      assert Delay(cycles) < 0;
    }
  }
}
