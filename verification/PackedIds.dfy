/**
 The 64-bit identifiers of stored entities: milliseconds since an epoch in the upper 41 bits,
 a sequence number modulo 1024 in 10 bits, and the shard in the lower 13 bits.
 */
module PackedIds {
  import opened Wrappers
  import opened Strings
  import opened Bits

  const TIME_SIZE := 0x200_0000_0000
  const SHARD_COUNT := 128
  const ID_MASK := 0x3FF
  const SHARD_MASK := 0x1FFF

  /** Shifts in 64 bits. */
  function Shl(x: nat, factor: nat): nat {
    x * factor % U64_SIZE
  }

  function Pack(time: nat, id: nat, shard: nat): nat {
    Or(Or(Shl(time, 0x80_0000), Shl(id, 0x2000)), shard)
  }

  /** The identifier made from a counter at a time; the shard is derived from the counter. */
  function Generate(time: nat, autoId: nat): nat {
    var id := autoId % 1024;
    Pack(time, id, id % SHARD_COUNT)
  }

  function InnerId(iid: nat): nat {
    And(iid / 0x2000, ID_MASK)
  }

  function Shard(iid: nat): nat {
    And(iid, SHARD_MASK)
  }

  function Timestamp(iid: nat): nat {
    iid / 0x80_0000
  }

  lemma ShiftedFields(time: nat, id: nat)
    requires id < 1024
    ensures Shl(time, 0x80_0000) == (time % TIME_SIZE) * 0x80_0000
    ensures Shl(id, 0x2000) == id * 0x2000
  {
    assert time == time / TIME_SIZE * TIME_SIZE + time % TIME_SIZE;
  }

  /** Times beyond 41 bits lose their upper bits; the fields do not overlap. */
  lemma PackSum(time: nat, id: nat, shard: nat)
    requires id < 1024 && shard < 8192
    ensures Pack(time, id, shard) == (time % TIME_SIZE) * 0x80_0000 + id * 0x2000 + shard
  {
    ShiftedFields(time, id);
    OrFields(time % TIME_SIZE, id, shard);
  }

  lemma OrFields(t: nat, id: nat, shard: nat)
    requires id < 1024 && shard < 8192
    ensures Or(Or(t * 0x80_0000, id * 0x2000), shard) == t * 0x80_0000 + id * 0x2000 + shard
  {
    Powers();
    OrDisjoint(t, id * 0x2000, 23);
    OrDisjoint(t * 0x400 + id, shard, 13);
  }

  lemma Masks(x: nat)
    ensures And(x, ID_MASK) == x % 0x400 && And(x, SHARD_MASK) == x % 0x2000
  {
    Powers();
    AndMask(x, 10);
    AndMask(x, 13);
  }

  /** Timestamp and counter are the two parts of what is above the shard. */
  lemma UpperParts(n: nat)
    ensures Timestamp(n) == n / 0x2000 / 0x400 && InnerId(n) == n / 0x2000 % 0x400 && Shard(n) == n % 0x2000
  {
    Masks(n / 0x2000);
    Masks(n);
  }

  lemma FieldsOf(n: nat, t: nat, id: nat, shard: nat)
    requires n == t * 0x80_0000 + id * 0x2000 + shard && id < 1024 && shard < 8192
    ensures n / 0x2000 == t * 0x400 + id && n % 0x2000 == shard
    ensures n / 0x2000 / 0x400 == t && n / 0x2000 % 0x400 == id
  {
  }

  /** The fields of a packed identifier can be taken out again. */
  lemma UnpackPack(time: nat, id: nat, shard: nat)
    requires id < 1024 && shard < 8192
    ensures InnerId(Pack(time, id, shard)) == id && Shard(Pack(time, id, shard)) == shard
    ensures Timestamp(Pack(time, id, shard)) == time % TIME_SIZE
  {
    PackSum(time, id, shard);
    var n := Pack(time, id, shard);
    FieldsOf(n, time % TIME_SIZE, id, shard);
    UpperParts(n);
  }

  /**
   Counter and shard always decode from a generated identifier, and the time exactly when it
   fits 41 bits.
   */
  lemma DecodeGenerate(time: nat, autoId: nat)
    ensures InnerId(Generate(time, autoId)) == autoId % 1024
    ensures Shard(Generate(time, autoId)) == autoId % 128
    ensures Timestamp(Generate(time, autoId)) == time <==> time < 0x200_0000_0000
  {
    UnpackPack(time, autoId % 1024, autoId % 1024 % SHARD_COUNT);
    ShardOfCounter(autoId);
    TimeFits(time);
  }

  lemma ShardOfCounter(autoId: nat)
    ensures autoId % 1024 % SHARD_COUNT == autoId % SHARD_COUNT
  {
    assert autoId == autoId / 1024 * 1024 + autoId % 1024;
  }

  lemma TimeFits(time: nat)
    ensures time % TIME_SIZE == time <==> time < TIME_SIZE
  {
  }

  function CompareWords(a: nat, b: nat): Ordering {
    if a < b then Less else if a > b then Greater else Equal
  }

  /** The order on identifiers: by time, then by counter; without an answer when both agree. */
  function PartialCompare(a: nat, b: nat): Option<Ordering> {
    var t := CompareWords(Timestamp(a), Timestamp(b));
    if t != Equal then Some(t)
    else
      var i := CompareWords(InnerId(a), InnerId(b));
      if i != Equal then Some(i) else None
  }

  /** The order is the numeric order of everything above the shard. */
  lemma PartialCompareIgnoresShard(a: nat, b: nat)
    ensures PartialCompare(a, b) == Some(Less) <==> a / 0x2000 < b / 0x2000
    ensures PartialCompare(a, b) == Some(Greater) <==> a / 0x2000 > b / 0x2000
    ensures PartialCompare(a, b).None? <==> a / 0x2000 == b / 0x2000
  {
    UpperParts(a);
    UpperParts(b);
    CompareByParts(a / 0x2000, b / 0x2000);
  }

  lemma CompareByParts(x: nat, y: nat)
    ensures CompareWords(x, y) ==
            if x / 0x400 != y / 0x400 then CompareWords(x / 0x400, y / 0x400) else CompareWords(x % 0x400, y % 0x400)
  {
  }

  /** On generated identifiers the order is the numeric one, and only equal ones are unordered. */
  lemma GeneratedOrder(t: nat, i: nat, u: nat, j: nat)
    ensures
      var a, b := Generate(t, i), Generate(u, j);
      && (PartialCompare(a, b) == Some(Less) <==> a < b) && (PartialCompare(a, b) == Some(Greater) <==> a > b)
      && (PartialCompare(a, b).None? <==> a == b)
  {
    var a, b := Generate(t, i), Generate(u, j);
    GeneratedUpper(t, i);
    GeneratedUpper(u, j);
    PartialCompareIgnoresShard(a, b);
    CompareByShard(a, b);
  }

  /** What is above the shard of a generated identifier determines the shard. */
  lemma GeneratedUpper(time: nat, autoId: nat)
    ensures Generate(time, autoId) % 0x2000 == Generate(time, autoId) / 0x2000 % 0x400 % SHARD_COUNT
  {
    var id := autoId % 1024;
    PackSum(time, id, id % SHARD_COUNT);
    FieldsOf(Generate(time, autoId), time % TIME_SIZE, id, id % SHARD_COUNT);
  }

  lemma CompareByShard(a: nat, b: nat)
    requires a % 0x2000 == a / 0x2000 % 0x400 % SHARD_COUNT && b % 0x2000 == b / 0x2000 % 0x400 % SHARD_COUNT
    ensures a / 0x2000 == b / 0x2000 <==> a == b
    ensures a != b ==> CompareWords(a / 0x2000, b / 0x2000) == CompareWords(a, b)
  {
  }

  // ----- identifiers issued by the database

  /** One call of the sequence function: elapsed milliseconds, the next sequence value, the shard. */
  datatype Call = Call(elapsed: nat, sequence: nat, shard: nat)

  predicate InBounds(c: Call) {
    c.shard < 8192
  }

  function NextId(c: Call): nat {
    Pack(c.elapsed, c.sequence % 1024, c.shard)
  }

  lemma NextIdSum(c: Call)
    requires InBounds(c)
    ensures NextId(c) == (c.elapsed % TIME_SIZE) * 0x80_0000 + (c.sequence % 1024) * 0x2000 + c.shard
  {
    PackSum(c.elapsed, c.sequence % 1024, c.shard);
  }

  lemma SignBit(t: nat, id: nat, shard: nat)
    requires id < 1024 && shard < 8192
    ensures t * 0x80_0000 + id * 0x2000 + shard < 0x8000_0000_0000_0000 <==> t < 0x100_0000_0000
  {
  }

  /** As a signed 64-bit number the identifier is non-negative exactly in the first half of every 2^41 milliseconds. */
  lemma NextIdNonNegative(c: Call)
    requires InBounds(c)
    ensures NextId(c) < 0x8000_0000_0000_0000 <==> c.elapsed % TIME_SIZE < 0x100_0000_0000
  {
    NextIdSum(c);
    SignBit(c.elapsed % TIME_SIZE, c.sequence % 1024, c.shard);
  }

  /** Two calls collide exactly when they agree in shard, time modulo 2^41 and sequence value modulo 1024. */
  lemma NextIdCollides(c: Call, d: Call)
    requires InBounds(c) && InBounds(d)
    ensures NextId(c) == NextId(d) <==>
            && c.elapsed % TIME_SIZE == d.elapsed % TIME_SIZE
            && c.shard == d.shard
            && c.sequence % 1024 == d.sequence % 1024
  {
    NextIdSum(c);
    NextIdSum(d);
    SumsDiffer(c.elapsed % TIME_SIZE, c.sequence % 1024, c.shard, d.elapsed % TIME_SIZE, d.sequence % 1024, d.shard);
  }

  lemma SumsDiffer(t: nat, i: nat, s: nat, u: nat, j: nat, r: nat)
    requires i < 1024 && j < 1024 && s < 8192 && r < 8192
    ensures t * 0x80_0000 + i * 0x2000 + s == u * 0x80_0000 + j * 0x2000 + r <==> t == u && i == j && s == r
  {
  }

  /** Calls for one sequence: values one after the other, on a clock that does not go back. */
  ghost predicate Issued(calls: seq<Call>) {
    && (forall c | c in calls :: InBounds(c) && c.elapsed < TIME_SIZE)
    && (forall i | 0 <= i < |calls| :: calls[i].shard == calls[0].shard && calls[i].sequence == calls[0].sequence + i)
    && (forall i, j | 0 <= i < j < |calls| :: calls[i].elapsed <= calls[j].elapsed)
  }

  lemma SameRemainder(n: nat, d: nat)
    ensures n % 1024 == (n + d) % 1024 <==> d % 1024 == 0
  {
    var q, r := d / 1024, d % 1024;
    assert n + d == q * 1024 + (n + r);
  }

  /**
   Whatever the clock does, two identifiers of a sequence are equal exactly when a multiple of
   1024 calls apart the clock shows the same time, modulo 2^41 milliseconds.
   */
  lemma SequenceCollides(calls: seq<Call>, i: nat, j: nat)
    requires i < j < |calls| && InBounds(calls[i]) && calls[j].shard == calls[i].shard
    requires calls[j].sequence == calls[i].sequence + (j - i)
    ensures NextId(calls[i]) == NextId(calls[j]) <==>
            (j - i) % 1024 == 0 && calls[i].elapsed % TIME_SIZE == calls[j].elapsed % TIME_SIZE
  {
    NextIdCollides(calls[i], calls[j]);
    SameRemainder(calls[i].sequence, j - i);
  }

  /** The calls made in one millisecond. */
  ghost function During(calls: seq<Call>, ms: nat): set<int> {
    set i | 0 <= i < |calls| && calls[i].elapsed == ms
  }

  function Interval(i: int, j: int): (r: set<int>)
    requires i <= j
    ensures |r| == j - i && forall x :: x in r <==> i <= x < j
    decreases j - i
  {
    if i == j then {} else Interval(i, j - 1) + {j - 1}
  }

  lemma SameMillisecond(calls: seq<Call>, i: nat, j: nat)
    requires Issued(calls) && i < j < |calls| && calls[i].elapsed == calls[j].elapsed
    ensures j - i < |During(calls, calls[i].elapsed)|
  {
    var ms := calls[i].elapsed;
    forall x | x in Interval(i, j + 1)
      ensures x in During(calls, ms)
    {
      assert calls[i].elapsed <= calls[x].elapsed <= calls[j].elapsed;
    }
    SubsetCardinality(Interval(i, j + 1), During(calls, ms));
  }

  /** The identifiers of a sequence are pairwise distinct exactly with at most 1024 calls in every millisecond. */
  lemma SequenceDistinctIff(calls: seq<Call>)
    requires Issued(calls)
    ensures (forall i, j | 0 <= i < j < |calls| :: NextId(calls[i]) != NextId(calls[j]))
            <==> forall ms: nat :: |During(calls, ms)| <= 1024
  {
    if forall ms: nat :: |During(calls, ms)| <= 1024 {
      forall i, j | 0 <= i < j < |calls|
        ensures NextId(calls[i]) != NextId(calls[j])
      {
        NotCrowded(calls, i, j);
      }
    } else {
      var ms: nat :| |During(calls, ms)| > 1024;
      Crowded(calls, ms);
    }
  }

  lemma NotCrowded(calls: seq<Call>, i: nat, j: nat)
    requires Issued(calls) && i < j < |calls| && |During(calls, calls[i].elapsed)| <= 1024
    ensures NextId(calls[i]) != NextId(calls[j])
  {
    assert calls[i] in calls && calls[j] in calls;
    NextIdCollides(calls[i], calls[j]);
    TimeFits(calls[i].elapsed);
    TimeFits(calls[j].elapsed);
    if calls[i].elapsed == calls[j].elapsed {
      SameMillisecond(calls, i, j);
      Apart(calls[i].sequence, j - i);
    }
  }

  lemma Apart(n: nat, d: nat)
    requires 0 < d < 1024
    ensures n % 1024 != (n + d) % 1024
  {
  }

  lemma Around(n: nat)
    ensures (n + 1024) % 1024 == n % 1024
  {
  }

  lemma Crowded(calls: seq<Call>, ms: nat)
    requires Issued(calls) && |During(calls, ms)| > 1024
    ensures exists i, j | 0 <= i < j < |calls| :: NextId(calls[i]) == NextId(calls[j])
  {
    var i, j := Extremes(calls, ms);
    Repeated(calls, i, j);
  }

  /** The counter is back where it was after 1024 calls. */
  lemma Repeated(calls: seq<Call>, i: nat, j: nat)
    requires Issued(calls) && i + 1024 <= j < |calls| && calls[i].elapsed == calls[j].elapsed
    ensures NextId(calls[i]) == NextId(calls[i + 1024])
  {
    var c, d := calls[i], calls[i + 1024];
    assert c in calls && d in calls;
    assert c.elapsed <= d.elapsed && (i + 1024 < j ==> d.elapsed <= calls[j].elapsed);
    Around(c.sequence);
    NextIdCollides(c, d);
  }

  /** More than 1024 calls in a millisecond include two that are 1024 apart. */
  lemma Extremes(calls: seq<Call>, ms: nat) returns (i: nat, j: nat)
    requires Issued(calls) && |During(calls, ms)| > 1024
    ensures i + 1024 <= j < |calls| && calls[i].elapsed == ms && calls[j].elapsed == ms
  {
    var s := During(calls, ms);
    i, j := Bounds(s);
    SubsetCardinality(s, Interval(i, j + 1));
  }

  lemma Member<T>(s: set<T>) returns (x: T)
    requires s != {}
    ensures x in s
  {
    x :| x in s;
  }

  lemma {:induction false} Bounds(s: set<int>) returns (i: int, j: int)
    requires s != {}
    ensures i in s && j in s && forall x | x in s :: i <= x <= j
    decreases |s|
  {
    var y := Member(s);
    i, j := y, y;
    if s != {y} {
      assert s - {y} != {};
      var k, l := Bounds(s - {y});
      assert forall x | x in s :: x == y || x in s - {y};
      j := if l > y then l else y;
      i := if k < y then k else y;
    }
  }

  /** Calls on different shards never collide. */
  lemma ShardsDistinct(c: Call, d: Call)
    requires InBounds(c) && InBounds(d) && c.shard != d.shard
    ensures NextId(c) != NextId(d)
  {
    NextIdCollides(c, d);
  }
}
