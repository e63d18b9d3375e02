/** The log-linear latency histogram and its percentile. */
module LatencyHistogram {
  import opened Bits
  import opened ModularArithmetic

  const SUB_BUCKET_BITS: nat := 3
  const SUB_BUCKET_COUNT: nat := 8
  const FIRST_LOG_BUCKET: nat := 8
  const BUCKET_COUNT: nat := 496

  /** A 64-bit unsigned value. */
  predicate IsWord(ns: nat) {
    ns < WORD_LIMIT
  }

  // ---------------------------------------------------------------- the buckets

  function BucketIndex(ns: nat): nat {
    if ns < FIRST_LOG_BUCKET then ns
    else
      BitLengthBounds(ns);
      var leadingZeros := 64 - BitLength(ns);
      var exponent := 63 - leadingZeros;
      var shift := exponent - SUB_BUCKET_BITS;
      var subBucket := (ns / Pow2(shift)) % SUB_BUCKET_COUNT;
      FIRST_LOG_BUCKET + (exponent - SUB_BUCKET_BITS) * SUB_BUCKET_COUNT + subBucket
  }

  function BucketUpperBound(idx: int): nat {
    if idx <= 0 then 0
    else if idx < FIRST_LOG_BUCKET then idx
    else
      var offset := idx - FIRST_LOG_BUCKET;
      var exponent := SUB_BUCKET_BITS + offset / SUB_BUCKET_COUNT;
      var subBucket := offset % SUB_BUCKET_COUNT;
      var shift := exponent - SUB_BUCKET_BITS;
      var step := Pow2(shift);
      var lower := Pow2(exponent) + subBucket * Pow2(shift);
      Or(lower, step - 1)
  }

  /** The width of a bucket. */
  function Step(idx: nat): nat {
    if idx < FIRST_LOG_BUCKET then 1 else Pow2((idx - FIRST_LOG_BUCKET) / SUB_BUCKET_COUNT)
  }

  /** The smallest value of a bucket, counted in bucket widths. */
  function Lower(idx: nat): nat {
    if idx < FIRST_LOG_BUCKET then idx else (8 + (idx - FIRST_LOG_BUCKET) % SUB_BUCKET_COUNT) * Step(idx)
  }

  lemma {:induction false} Pow2Monotone(a: nat, b: nat)
    requires a <= b
    ensures 1 <= Pow2(a) <= Pow2(b)
  {
    if b > 0 {
      if a == b { Pow2Monotone(a - 1, b - 1); } else { Pow2Monotone(a, b - 1); }
    }
  }

  lemma {:induction false} BitLengthBounds(w: nat)
    ensures w < Pow2(BitLength(w))
    ensures w > 0 ==> BitLength(w) > 0 && Pow2(BitLength(w) - 1) <= w
    ensures w >= 8 ==> BitLength(w) >= 4
  {
    if w > 0 {
      BitLengthBounds(w / 2);
    }
  }

  /** The upper bound is the last value of the bucket, and the bucket is at most an eighth of its first. */
  lemma BucketShape(idx: nat)
    ensures BucketUpperBound(idx) == Lower(idx) + Step(idx) - 1
    ensures Step(idx) >= 1 && 8 * (Step(idx) - 1) <= Lower(idx)
  {
    if idx >= FIRST_LOG_BUCKET {
      var shift := (idx - FIRST_LOG_BUCKET) / SUB_BUCKET_COUNT;
      var sub := (idx - FIRST_LOG_BUCKET) % SUB_BUCKET_COUNT;
      LowerAddsUp(shift, sub);
      OrLowBits(8 + sub, shift, Pow2(shift) - 1);
      EightFold(8 + sub, Pow2(shift));
    }
  }

  lemma LowerAddsUp(shift: nat, sub: nat)
    ensures Pow2(3 + shift) + sub * Pow2(shift) == (8 + sub) * Pow2(shift)
  {
    Pow2Add(3, shift);
    assert Pow2(3) == 8;
  }

  lemma EightFold(units: nat, step: nat)
    requires units >= 8
    ensures units * step >= 8 * step
  {
  }

  /** The buckets leave no gap. */
  lemma BucketsTouch(idx: nat)
    ensures Lower(idx + 1) == Lower(idx) + Step(idx)
  {
    if idx >= FIRST_LOG_BUCKET {
      var offset := idx - FIRST_LOG_BUCKET;
      var sub := offset % 8;
      if sub == 7 {
        assert (offset + 1) / 8 == offset / 8 + 1 && (offset + 1) % 8 == 0;
        assert Step(idx + 1) == 2 * Step(idx);
      } else {
        assert (offset + 1) / 8 == offset / 8 && (offset + 1) % 8 == sub + 1;
        assert (8 + sub + 1) * Step(idx) == (8 + sub) * Step(idx) + Step(idx);
      }
    }
  }

  lemma LowerIs(idx: nat, shift: nat, sub: nat)
    requires idx == 8 + (shift * 8 + sub) && sub < 8
    ensures Step(idx) == Pow2(shift) && Lower(idx) == (8 + sub) * Pow2(shift)
  {
    DivModEight(shift, sub);
    assert (idx - FIRST_LOG_BUCKET) / SUB_BUCKET_COUNT == shift;
    assert (idx - FIRST_LOG_BUCKET) % SUB_BUCKET_COUNT == sub;
  }

  lemma DivModEight(shift: nat, sub: nat)
    requires sub < 8
    ensures (shift * 8 + sub) / 8 == shift && (shift * 8 + sub) % 8 == sub
  {
  }

  lemma TopUnits(shift: nat)
    ensures Pow2(shift + 3) == 8 * Pow2(shift) && Pow2(shift + 4) == 16 * Pow2(shift)
  {
    Pow2Add(3, shift);
    Pow2Add(4, shift);
    assert Pow2(3) == 8 && Pow2(4) == 16;
  }

  /** The exponent of a value and its eighth within the power of two. */
  lemma UnitsOf(ns: nat)
    requires ns >= FIRST_LOG_BUCKET
    ensures BitLength(ns) >= 4
    ensures var step := Pow2(BitLength(ns) - 4);
      8 <= ns / step < 16 && (ns / step) * step <= ns < (ns / step) * step + step
  {
    BitLengthBounds(ns);
    var shift := BitLength(ns) - 4;
    TopUnits(shift);
    UnitsInRange(ns, Pow2(shift));
  }

  lemma WordBitLength(ns: nat)
    requires IsWord(ns)
    ensures BitLength(ns) <= 64
  {
    BitLengthBounds(ns);
    if BitLength(ns) > 64 {
      WordLimitIsPow2();
      Pow2Monotone(64, BitLength(ns) - 1);
    }
  }

  /** A value lies in its own bucket. */
  lemma InOwnBucket(ns: nat)
    ensures Lower(BucketIndex(ns)) <= ns < Lower(BucketIndex(ns)) + Step(BucketIndex(ns))
    ensures IsWord(ns) ==> BucketIndex(ns) < BUCKET_COUNT
  {
    if ns >= FIRST_LOG_BUCKET {
      UnitsOf(ns);
      var shift := BitLength(ns) - 4;
      var units := ns / Pow2(shift);
      assert units % 8 == units - 8;
      assert BucketIndex(ns) == 8 + shift * 8 + (units - 8);
      LowerIs(BucketIndex(ns), shift, units - 8);
      if IsWord(ns) { WordBitLength(ns); }
    }
  }

  lemma UnitsInRange(ns: nat, step: nat)
    requires step > 0 && 8 * step <= ns < 16 * step
    ensures 8 <= ns / step < 16
    ensures (ns / step) * step <= ns < (ns / step) * step + step
  {
    var units := ns / step;
    assert ns == units * step + ns % step;
    assert units < 8 ==> units * step <= 7 * step;
    assert units >= 16 ==> units * step >= 16 * step;
  }

  lemma {:induction false} LowerGrows(i: nat, j: nat)
    requires i <= j
    ensures Lower(i) <= Lower(j)
    ensures i < j ==> Lower(i) + Step(i) <= Lower(j)
    decreases j - i
  {
    if i < j {
      BucketsTouch(i);
      LowerGrows(i + 1, j);
    }
  }

  /** The buckets are a monotone partition: a value's bucket is at most i exactly when the value is at most i's upper bound. */
  lemma BucketsPartition(ns: nat, i: nat)
    ensures BucketIndex(ns) <= i <==> ns <= BucketUpperBound(i)
  {
    var b := BucketIndex(ns);
    InOwnBucket(ns);
    BucketShape(i);
    BucketShape(b);
    if b <= i {
      LowerGrows(b, i);
      BucketsTouch(b);
      BucketsTouch(i);
      LowerGrows(b + 1, i + 1);
    } else {
      LowerGrows(i, b);
    }
  }

  /** The layout: small values have a bucket each, and every power of two above them is split into eight equal ones. */
  lemma EightBuckets(ns: nat, exponent: nat, k: nat)
    requires exponent >= 3 && k < 8
    requires Pow2(exponent) + k * Pow2(exponent - 3) <= ns < Pow2(exponent) + (k + 1) * Pow2(exponent - 3)
    ensures BucketIndex(ns) == 8 * (exponent - 2) + k
    ensures BucketUpperBound(BucketIndex(ns)) == Pow2(exponent) + (k + 1) * Pow2(exponent - 3) - 1
  {
    var shift, idx, b := exponent - 3, 8 * (exponent - 2) + k, BucketIndex(ns);
    LowerIs(idx, shift, k);
    LowerAddsUp(shift, k);
    assert (k + 1) * Pow2(shift) == k * Pow2(shift) + Pow2(shift);
    BucketShape(idx);
    InOwnBucket(ns);
    if b < idx {
      LowerGrows(b, idx);
    } else if b > idx {
      LowerGrows(idx, b);
    }
  }

  lemma SmallValuesAreExact(ns: nat)
    requires ns < 8
    ensures BucketIndex(ns) == ns && BucketUpperBound(ns) == ns
  {
  }

  // ---------------------------------------------------------------- ranks

  function CountAtMost(samples: seq<nat>, x: int): nat {
    if samples == [] then 0
    else CountAtMost(samples[..|samples| - 1], x) + (if samples[|samples| - 1] <= x then 1 else 0)
  }

  function CountInBucket(samples: seq<nat>, i: nat): nat {
    if samples == [] then 0
    else CountInBucket(samples[..|samples| - 1], i) + (if BucketIndex(samples[|samples| - 1]) == i then 1 else 0)
  }

  /** q is the k-th smallest sample. */
  ghost predicate IsRank(samples: seq<nat>, k: nat, q: nat) {
    q in samples && CountAtMost(samples, q - 1) < k <= CountAtMost(samples, q)
  }

  lemma {:induction false} CountMonotone(samples: seq<nat>, x: int, y: int)
    requires x <= y
    ensures CountAtMost(samples, x) <= CountAtMost(samples, y) <= |samples|
  {
    if samples != [] { CountMonotone(samples[..|samples| - 1], x, y); }
  }

  /** Every rank from 1 to the number of samples is taken. */
  lemma RankExists(samples: seq<nat>, k: nat) returns (q: nat)
    requires 1 <= k <= |samples|
    ensures IsRank(samples, k, q)
  {
    var bound := MaxSample(samples);
    q := 0;
    NoneBelowZero(samples);
    while CountAtMost(samples, q) < k
      invariant q <= bound && CountAtMost(samples, q - 1) < k
      decreases bound - q
    {
      if q == bound { assert false; }
      q := q + 1;
    }
    SomeSampleBetween(samples, q);
  }

  lemma {:induction false} NoneBelowZero(samples: seq<nat>)
    ensures CountAtMost(samples, -1) == 0
  {
    if samples != [] { NoneBelowZero(samples[..|samples| - 1]); }
  }

  lemma {:induction false} MaxSample(samples: seq<nat>) returns (bound: nat)
    ensures CountAtMost(samples, bound) == |samples|
  {
    if samples == [] {
      bound := 0;
    } else {
      var before := samples[..|samples| - 1];
      var b := MaxSample(before);
      bound := if samples[|samples| - 1] > b then samples[|samples| - 1] else b;
      CountMonotone(before, b, bound);
    }
  }

  lemma {:induction false} SomeSampleBetween(samples: seq<nat>, q: nat)
    requires CountAtMost(samples, q - 1) < CountAtMost(samples, q)
    ensures q in samples
  {
    if samples[|samples| - 1] != q {
      SomeSampleBetween(samples[..|samples| - 1], q);
    }
  }

  /** How many samples lie in the first n buckets. */
  function Cumulative(samples: seq<nat>, n: nat): nat {
    if n == 0 then 0 else CountAtMost(samples, BucketUpperBound(n - 1))
  }

  /** The counts of the buckets add up to the samples at most the last one's upper bound. */
  lemma {:induction false} BucketsUpTo(samples: seq<nat>, i: nat)
    ensures Cumulative(samples, i + 1) == Cumulative(samples, i) + CountInBucket(samples, i)
  {
    if samples != [] {
      BucketsUpTo(samples[..|samples| - 1], i);
      BucketsPartition(samples[|samples| - 1], i);
      if i > 0 { BucketsPartition(samples[|samples| - 1], i - 1); }
    }
  }

  lemma {:induction false} AllInTheBuckets(samples: seq<nat>)
    requires forall x :: x in samples ==> IsWord(x)
    ensures Cumulative(samples, BUCKET_COUNT) == |samples|
  {
    if samples != [] {
      var last := samples[|samples| - 1];
      AllInTheBuckets(samples[..|samples| - 1]);
      InOwnBucket(last);
      BucketsPartition(last, BUCKET_COUNT - 1);
    }
  }

  /** The percentile bound: the bucket that holds the k-th smallest sample reports it at most one eighth too high. */
  lemma PercentileBound(samples: seq<nat>, k: nat, i: nat, q: nat)
    requires IsRank(samples, k, q) && Cumulative(samples, i) < k <= Cumulative(samples, i + 1)
    ensures var v := BucketUpperBound(i); q <= v && 8 * (v - q) <= q
  {
    var v := BucketUpperBound(i);
    assert q <= v by {
      if q > v { CountMonotone(samples, v, q - 1); }
    }
    assert i > 0 ==> q > BucketUpperBound(i - 1) by {
      if i > 0 && q <= BucketUpperBound(i - 1) { CountMonotone(samples, q, BucketUpperBound(i - 1)); }
    }
    BucketsPartition(q, i);
    if i > 0 { BucketsPartition(q, i - 1); }
    InOwnBucket(q);
    BucketShape(i);
  }

  // ---------------------------------------------------------------- the histogram object

  function Ceil(x: real): int {
    if x.Floor as real == x then x.Floor else x.Floor + 1
  }

  /** The rank a percentile asks for. */
  function Target(total: nat, p: real): int {
    Ceil(total as real * p)
  }

  function Max(samples: seq<nat>): (r: nat)
    ensures forall x :: x in samples ==> x <= r
    ensures if samples == [] then r == 0 else r in samples
  {
    if samples == [] then 0
    else
      assert samples == samples[..|samples| - 1] + [samples[|samples| - 1]];
      var before := Max(samples[..|samples| - 1]);
      if samples[|samples| - 1] > before then samples[|samples| - 1] else before
  }

  function Total(samples: seq<nat>): nat {
    if samples == [] then 0 else Total(samples[..|samples| - 1]) + samples[|samples| - 1]
  }

  /** The counts reach the rank in bucket i. */
  ghost predicate IsBucketOf(samples: seq<nat>, rank: nat, i: nat) {
    Cumulative(samples, i) < rank <= Cumulative(samples, i + 1)
  }

  /**
    At least `share` samples are at most v, fewer lie below v's bucket, and v is at most an eighth above the
    smallest sample that has `share` samples at or below it.
   */
  ghost predicate IsShareBound(samples: seq<nat>, share: real, v: nat) {
    && CountAtMost(samples, v) as real >= share
    && (exists i: nat :: v == BucketUpperBound(i) && Cumulative(samples, i) as real < share)
    && (exists q: nat :: IsSmallestShare(samples, share, q) && q <= v && 8 * (v - q) <= q)
  }

  /** v is the p-th percentile of the samples, up to the width of its bucket. */
  ghost predicate IsPercentile(samples: seq<nat>, p: real, v: nat) {
    IsShareBound(samples, |samples| as real * p, v)
  }

  /** q is the smallest sample with at least `share` samples at or below it. */
  ghost predicate IsSmallestShare(samples: seq<nat>, share: real, q: nat) {
    q in samples && CountAtMost(samples, q) as real >= share && CountAtMost(samples, q - 1) as real < share
  }

  lemma ShareReached(samples: seq<nat>, share: real, rank: nat, i: nat)
    requires share <= rank as real < share + 1.0 && IsBucketOf(samples, rank, i)
    ensures CountAtMost(samples, BucketUpperBound(i)) as real >= share
    ensures Cumulative(samples, i) as real < share
  {
    assert Cumulative(samples, i + 1) == CountAtMost(samples, BucketUpperBound(i));
    BelowRank(Cumulative(samples, i), rank, share);
  }

  lemma RankIsShare(samples: seq<nat>, share: real, rank: nat, q: nat)
    requires share <= rank as real < share + 1.0 && IsRank(samples, rank, q)
    ensures IsSmallestShare(samples, share, q)
  {
    BelowRank(CountAtMost(samples, q - 1), rank, share);
  }

  lemma RankIsPercentile(samples: seq<nat>, share: real, rank: nat, i: nat, v: nat)
    requires share <= rank as real < share + 1.0 && IsBucketOf(samples, rank, i) && v == BucketUpperBound(i)
    requires 1 <= rank <= |samples|
    ensures IsShareBound(samples, share, v)
  {
    ShareReached(samples, share, rank, i);
    var q := RankExists(samples, rank);
    RankIsShare(samples, share, rank, q);
    PercentileBound(samples, rank, i, q);
  }

  lemma TargetIsPercentile(samples: seq<nat>, p: real, rank: nat, i: nat)
    requires samples != [] && 0.0 < p <= 1.0 && rank == Target(|samples|, p) && IsBucketOf(samples, rank, i)
    ensures IsPercentile(samples, p, BucketUpperBound(i))
  {
    TargetInRange(|samples|, p);
    RankIsPercentile(samples, |samples| as real * p, rank, i, BucketUpperBound(i));
  }

  /** A count below the rank is below the share the rank rounds up. */
  lemma BelowRank(count: nat, rank: nat, share: real)
    requires count < rank && rank as real < share + 1.0
    ensures count as real < share
  {
  }

  class LatencyStats {
    const buckets: array<nat>
    var count: nat
    var totalDelayNs: nat
    var maxDelayNs: nat
    ghost var samples: seq<nat>

    /** The counters describe the samples; the total wraps around at 64 bits. */
    ghost predicate Valid()
      reads this, buckets
    {
      && buckets.Length == BUCKET_COUNT
      && (forall x :: x in samples ==> IsWord(x))
      && (forall i :: 0 <= i < BUCKET_COUNT ==> buckets[i] == CountInBucket(samples, i))
      && count == |samples|
      && totalDelayNs == Total(samples) % WORD_LIMIT
      && maxDelayNs == Max(samples)
    }

    constructor ()
      ensures Valid() && fresh(buckets) && samples == []
    {
      buckets := new nat[BUCKET_COUNT](_ => 0);
      count, totalDelayNs, maxDelayNs, samples := 0, 0, 0, [];
      new;
    }

    method Record(delayNs: nat)
      requires Valid() && IsWord(delayNs)
      modifies this, buckets
      ensures Valid() && samples == old(samples) + [delayNs]
    {
      InOwnBucket(delayNs);
      samples := samples + [delayNs];
      assert samples[..|samples| - 1] == old(samples);
      var i := BucketIndex(delayNs);
      buckets[i] := buckets[i] + 1;
      totalDelayNs := (totalDelayNs + delayNs) % WORD_LIMIT;
      WrapAdds(Total(old(samples)), delayNs, WORD_LIMIT);
      if delayNs > maxDelayNs {
        maxDelayNs := delayNs;
      }
      count := count + 1;
    }

    method Percentile(p: real) returns (v: nat)
      requires Valid()
      ensures !(0.0 < p <= 1.0) || samples == [] ==> v == 0
      ensures 0.0 < p <= 1.0 && samples != [] ==> IsPercentile(samples, p, v)
    {
      if !(0.0 < p <= 1.0) {
        return 0;
      }
      var snapshot, total := TakeSnapshot();
      if total == 0 {
        return 0;
      }
      v := ValueAtRank(snapshot, total, p);
    }

    /** The first loop of Percentile: the bucket counts and their total. */
    method TakeSnapshot() returns (snapshot: array<nat>, total: nat)
      requires Valid()
      ensures fresh(snapshot) && snapshot.Length == BUCKET_COUNT
      ensures forall j :: 0 <= j < BUCKET_COUNT ==> snapshot[j] == CountInBucket(samples, j)
      ensures total == |samples|
    {
      snapshot := new nat[BUCKET_COUNT](_ => 0);
      total := 0;
      var i := 0;
      while i < BUCKET_COUNT
        modifies snapshot
        invariant 0 <= i <= BUCKET_COUNT
        invariant forall j :: 0 <= j < i ==> snapshot[j] == CountInBucket(samples, j)
        invariant total == Cumulative(samples, i)
      {
        snapshot[i] := buckets[i];
        total := total + snapshot[i];
        BucketsUpTo(samples, i);
        i := i + 1;
      }
      AllInTheBuckets(samples);
    }

    /** The second loop of Percentile: the upper bound of the bucket where the counts reach the target. */
    method ValueAtRank(snapshot: array<nat>, total: nat, p: real) returns (v: nat)
      requires Valid() && snapshot.Length == BUCKET_COUNT && 0 < total == |samples| && 0.0 < p <= 1.0
      requires forall j :: 0 <= j < BUCKET_COUNT ==> snapshot[j] == CountInBucket(samples, j)
      ensures IsPercentile(samples, p, v)
    {
      TargetInRange(total, p);
      var target: nat := Target(total, p);
      var cumulative := 0;
      var i := 0;
      while i < BUCKET_COUNT
        invariant 0 <= i <= BUCKET_COUNT
        invariant cumulative == Cumulative(samples, i) && cumulative < target
      {
        cumulative := cumulative + snapshot[i];
        BucketsUpTo(samples, i);
        if cumulative >= target {
          TargetIsPercentile(samples, p, target, i);
          return BucketUpperBound(i);
        }
        i := i + 1;
      }
      AllInTheBuckets(samples);
      return BucketUpperBound(BUCKET_COUNT - 1);
    }
  }

  lemma WrapAdds(a: nat, b: nat, n: nat)
    requires n > 0
    ensures (a % n + b) % n == (a + b) % n
  {
    assert a == n * (a / n) + a % n;
    ModMultiple(a % n + b, a / n, n);
  }

  lemma TargetInRange(total: nat, p: real)
    requires total > 0 && 0.0 < p <= 1.0
    ensures 1 <= Target(total, p) <= total
    ensures total as real * p <= Target(total, p) as real < total as real * p + 1.0
  {
    var x := total as real * p;
    assert 0.0 < x <= total as real;
  }
}
