/** Queue dwell times: a fixed table of bucket bounds, a histogram over it, and
    percentiles read off the histogram. */
module DwellHistogram {
  import opened Bytes

  const DWELL_BUCKETS: seq<U64> := [
    10, 25, 50, 100, 250, 500, 1_000, 2_500, 5_000, 10_000, 25_000, 50_000,
    100_000, 250_000, 500_000, 1_000_000, U64_MAX]

  const OVERFLOW: nat := 16

  lemma TableAscends(i: nat, j: nat)
    requires i < j <= OVERFLOW
    ensures DWELL_BUCKETS[i] < DWELL_BUCKETS[j]
    decreases j - i
  {
  }

  function FirstBucketFrom(x: U64, i: nat): (k: nat)
    requires i <= OVERFLOW
    ensures i <= k <= OVERFLOW && x <= DWELL_BUCKETS[k]
    ensures forall j | i <= j < k :: DWELL_BUCKETS[j] < x
    decreases OVERFLOW - i
  {
    if i == OVERFLOW || x <= DWELL_BUCKETS[i] then i else FirstBucketFrom(x, i + 1)
  }

  /** The bucket of a dwell time: the first bound that is not below it. */
  function BucketIndex(x: U64): (k: nat)
    ensures k <= OVERFLOW && x <= DWELL_BUCKETS[k]
    ensures forall j | 0 <= j < k :: DWELL_BUCKETS[j] < x
  {
    FirstBucketFrom(x, 0)
  }

  function Max(samples: seq<U64>): (m: U64)
    ensures forall k | 0 <= k < |samples| :: samples[k] <= m
    ensures samples != [] ==> m in samples
  {
    if samples == [] then 0
    else
      var rest := Max(samples[1..]);
      assert forall k | 0 < k < |samples| :: samples[k] == samples[1..][k - 1];
      if samples[0] > rest then samples[0] else rest
  }

  // ---- Counting ----

  /** Samples at most `bound`. */
  function CountUpTo(samples: seq<U64>, bound: U64): (n: nat)
    ensures n <= |samples|
  {
    if samples == [] then 0
    else (if samples[0] <= bound then 1 else 0) + CountUpTo(samples[1..], bound)
  }

  /** Samples in bucket `i`. */
  function CountIn(samples: seq<U64>, i: nat): (n: nat)
    ensures n <= |samples|
  {
    if samples == [] then 0
    else (if BucketIndex(samples[0]) == i then 1 else 0) + CountIn(samples[1..], i)
  }

  /** The histogram of the samples. */
  ghost predicate IsHistogram(buckets: seq<nat>, samples: seq<U64>) {
    |buckets| == OVERFLOW + 1 && forall i | 0 <= i <= OVERFLOW :: buckets[i] == CountIn(samples, i)
  }

  function Sum(buckets: seq<nat>): nat {
    if buckets == [] then 0 else Sum(buckets[..|buckets| - 1]) + buckets[|buckets| - 1]
  }

  /** Samples in the first `k + 1` buckets are those at most the k-th bound. */
  lemma {:induction false} BucketsUpTo(samples: seq<U64>, k: nat)
    requires k <= OVERFLOW
    ensures CountUpTo(samples, DWELL_BUCKETS[k]) == (if k == 0 then 0 else CountUpTo(samples, DWELL_BUCKETS[k - 1])) + CountIn(samples, k)
    decreases |samples|
  {
    hide BucketIndex;
    if samples != [] {
      BucketsUpTo(samples[1..], k);
      var x := samples[0];
      if k > 0 {
        TableAscends(k - 1, k);
      }
      if BucketIndex(x) > k {
        assert DWELL_BUCKETS[k] < x;
      } else if BucketIndex(x) < k {
        if BucketIndex(x) < k - 1 {
          TableAscends(BucketIndex(x), k - 1);
        }
        assert x <= DWELL_BUCKETS[k - 1];
      }
    }
  }

  lemma {:induction false} CumulativeCount(buckets: seq<nat>, samples: seq<U64>, k: nat)
    requires IsHistogram(buckets, samples) && k <= OVERFLOW
    ensures Sum(buckets[..k + 1]) == CountUpTo(samples, DWELL_BUCKETS[k])
    decreases k
  {
    BucketsUpTo(samples, k);
    assert buckets[..k + 1][..k] == buckets[..k];
    if k > 0 {
      CumulativeCount(buckets, samples, k - 1);
    } else {
      assert buckets[..0] == [];
    }
  }

  // ---- Percentiles ----

  function SaturatingAdd(a: nat, b: nat): nat {
    if a + b > U64_MAX then U64_MAX else a + b
  }

  /** Nearest rank; the product is a 64-bit multiplication. */
  function Rank(total: nat, percentile: nat): (rank: nat)
    ensures 1 <= rank <= U64_MAX
  {
    var rank := SaturatingAdd((total * percentile) % (U64_MAX + 1), 99) / 100;
    if rank < 1 then 1 else rank
  }

  /** Without overflow it is the usual nearest rank: the least rank that covers
      the percentile. */
  lemma RankIsNearest(total: nat, percentile: nat)
    requires 0 < total && percentile <= 100 && total * percentile + 99 <= U64_MAX
    ensures Rank(total, percentile) <= total
    ensures percentile > 0 ==> 100 * (Rank(total, percentile) - 1) < total * percentile <= 100 * Rank(total, percentile)
    ensures percentile == 0 ==> Rank(total, percentile) == 1
  {
    ProductBounds(total, percentile);
    RankOfProduct(total * percentile);
  }

  lemma ProductBounds(total: nat, percentile: nat)
    requires percentile <= 100
    ensures (if percentile > 0 then total else 0) <= total * percentile <= 100 * total
  {
  }

  lemma RankOfProduct(product: nat)
    requires product + 99 <= U64_MAX
    ensures var rank := SaturatingAdd(product % (U64_MAX + 1), 99) / 100;
            100 * rank - 100 < product <= 100 * rank || rank == product == 0
  {
    assert product % (U64_MAX + 1) == product;
  }

  /** The bound the scan over the histogram stops at. */
  function FirstBound(samples: seq<U64>, rank: nat, i: nat): U64
    requires i <= OVERFLOW
    decreases OVERFLOW - i
  {
    if i == OVERFLOW then Max(samples)
    else if CountUpTo(samples, DWELL_BUCKETS[i]) >= rank then DWELL_BUCKETS[i]
    else FirstBound(samples, rank, i + 1)
  }

  function PercentileOf(samples: seq<U64>, percentile: nat): U64 {
    if samples == [] then 0 else FirstBound(samples, Rank(|samples|, percentile), 0)
  }

  /** The same scan over a histogram. */
  function ScanFrom(buckets: seq<nat>, rank: nat, overflowValue: U64, i: nat): U64
    requires |buckets| == OVERFLOW + 1 && i <= OVERFLOW
    decreases OVERFLOW - i
  {
    if i == OVERFLOW then overflowValue
    else if Sum(buckets[..i + 1]) >= rank then DWELL_BUCKETS[i]
    else ScanFrom(buckets, rank, overflowValue, i + 1)
  }

  method Percentile(buckets: seq<nat>, total: nat, percentile: nat, overflowValue: U64) returns (value: U64)
    requires |buckets| == OVERFLOW + 1
    ensures value == if total == 0 then 0 else ScanFrom(buckets, Rank(total, percentile), overflowValue, 0)
  {
    if total == 0 {
      return 0;
    }
    var rank := Rank(total, percentile);
    var cumulative := 0;
    assert buckets[..0] == [];
    for index := 0 to |buckets|
      invariant cumulative == SaturatingAdd(Sum(buckets[..index]), 0)
      invariant ScanFrom(buckets, rank, overflowValue, 0)
             == if index <= OVERFLOW then ScanFrom(buckets, rank, overflowValue, index) else overflowValue
    {
      assert buckets[..index + 1][..index] == buckets[..index];
      cumulative := SaturatingAdd(cumulative, buckets[index]);
      if cumulative >= rank {
        if index == OVERFLOW {
          return overflowValue;
        }
        return DWELL_BUCKETS[index];
      }
    }
    return overflowValue;
  }

  /** On the histogram of some samples, with their maximum for the overflow
      bucket, the scan finds the percentile of the samples. */
  lemma {:induction false} ScanOfHistogram(buckets: seq<nat>, samples: seq<U64>, rank: nat, i: nat)
    requires IsHistogram(buckets, samples) && i <= OVERFLOW
    ensures ScanFrom(buckets, rank, Max(samples), i) == FirstBound(samples, rank, i)
    decreases OVERFLOW - i
  {
    if i < OVERFLOW {
      CumulativeCount(buckets, samples, i);
      ScanOfHistogram(buckets, samples, rank, i + 1);
    }
  }

  // ---- Refinement of sorted nearest rank ----

  predicate Sorted(s: seq<U64>) {
    forall i, j | 0 <= i < j < |s| :: s[i] <= s[j]
  }

  lemma {:induction false} CountAppend(a: seq<U64>, b: seq<U64>, bound: U64)
    ensures CountUpTo(a + b, bound) == CountUpTo(a, bound) + CountUpTo(b, bound)
  {
    if a == [] {
      assert a + b == b;
    } else {
      CountAppend(a[1..], b, bound);
      assert (a + b)[1..] == a[1..] + b;
    }
  }

  lemma TakeOut(s: seq<U64>, k: nat, bound: U64)
    requires k < |s|
    ensures CountUpTo(s, bound) == CountUpTo(s[..k] + s[k + 1..], bound) + if s[k] <= bound then 1 else 0
  {
    var front, back := s[..k], s[k + 1..];
    assert s == front + ([s[k]] + back);
    CountAppend(front, back, bound);
    CountAppend([s[k]], back, bound);
    CountAppend(front, [s[k]] + back, bound);
  }

  lemma RemoveAt(s: seq<U64>, k: nat)
    requires k < |s|
    ensures multiset(s) == multiset{s[k]} + multiset(s[..k] + s[k + 1..])
  {
    assert s == s[..k] + ([s[k]] + s[k + 1..]);
  }

  lemma Cancel(x: U64, m: multiset<U64>, n: multiset<U64>)
    requires multiset{x} + m == multiset{x} + n
    ensures m == n
  {
    assert m == multiset{x} + m - multiset{x};
    assert n == multiset{x} + n - multiset{x};
  }

  lemma FindFirst(a: seq<U64>, b: seq<U64>) returns (k: nat)
    requires multiset(a) == multiset(b) && a != []
    ensures k < |b| && b[k] == a[0] && multiset(a[1..]) == multiset(b[..k] + b[k + 1..])
  {
    assert a[0] in multiset(b);
    k :| 0 <= k < |b| && b[k] == a[0];
    var rest, other := a[..0] + a[1..], b[..k] + b[k + 1..];
    assert rest == a[1..];
    RemoveAt(a, 0);
    RemoveAt(b, k);
    Cancel(a[0], multiset(rest), multiset(other));
  }

  /** Counting does not depend on the order. */
  lemma {:induction false} CountOfPermutation(a: seq<U64>, b: seq<U64>, bound: U64)
    requires multiset(a) == multiset(b)
    ensures CountUpTo(a, bound) == CountUpTo(b, bound)
    decreases |a|
  {
    if a == [] {
      assert b == [] by {
        assert |b| == |multiset(b)| == 0;
      }
    } else {
      var k := FindFirst(a, b);
      TakeOut(b, k, bound);
      CountOfPermutation(a[1..], b[..k] + b[k + 1..], bound);
    }
  }

  /** In a sorted list at least `rank` samples are within the bound exactly when
      the rank-th one is. */
  lemma {:induction false} CountOfSorted(s: seq<U64>, rank: nat, bound: U64)
    requires Sorted(s) && 1 <= rank <= |s|
    ensures CountUpTo(s, bound) >= rank <==> s[rank - 1] <= bound
    decreases |s|
  {
    if rank > 1 {
      CountOfSorted(s[1..], rank - 1, bound);
    } else if s[0] > bound {
      NoneWithin(s, bound);
    }
  }

  lemma {:induction false} NoneWithin(s: seq<U64>, bound: U64)
    requires forall k | 0 <= k < |s| :: s[k] > bound
    ensures CountUpTo(s, bound) == 0
  {
    if s != [] {
      NoneWithin(s[1..], bound);
    }
  }

  lemma {:induction false} FirstBoundOfSorted(samples: seq<U64>, sorted: seq<U64>, rank: nat, i: nat)
    requires Sorted(sorted) && multiset(sorted) == multiset(samples) && 1 <= rank <= |sorted|
    requires i <= BucketIndex(sorted[rank - 1])
    ensures FirstBound(samples, rank, i)
         == if BucketIndex(sorted[rank - 1]) < OVERFLOW then DWELL_BUCKETS[BucketIndex(sorted[rank - 1])] else Max(samples)
    decreases OVERFLOW - i
  {
    if i < OVERFLOW {
      CountOfPermutation(samples, sorted, DWELL_BUCKETS[i]);
      CountOfSorted(sorted, rank, DWELL_BUCKETS[i]);
      if i < BucketIndex(sorted[rank - 1]) {
        FirstBoundOfSorted(samples, sorted, rank, i + 1);
      }
    }
  }

  /** The least bound of the table that is not below `x`. */
  ghost predicate IsLeastBound(value: U64, x: U64) {
    && value in DWELL_BUCKETS && x <= value
    && forall bound | bound in DWELL_BUCKETS && x <= bound :: value <= bound
  }

  /** The percentile read off the histogram is the nearest-rank percentile of the
      sorted samples, rounded up to the next bound of the table; beyond the last
      finite bound it is the largest sample observed. */
  lemma PercentileRefinesNearestRank(samples: seq<U64>, sorted: seq<U64>, percentile: nat)
    requires samples != [] && Sorted(sorted) && multiset(sorted) == multiset(samples)
    requires percentile <= 100 && |samples| * percentile + 99 <= U64_MAX
    ensures |sorted| == |samples| && 1 <= Rank(|samples|, percentile) <= |sorted|
    ensures var x := sorted[Rank(|samples|, percentile) - 1];
            var value := PercentileOf(samples, percentile);
            if x > 1_000_000 then value == Max(samples) else IsLeastBound(value, x)
  {
    hide FirstBound, CountUpTo, IsLeastBound, Rank;
    RankIsNearest(|samples|, percentile);
    ScanAtRank(samples, sorted, Rank(|samples|, percentile));
  }

  lemma ScanAtRank(samples: seq<U64>, sorted: seq<U64>, rank: nat)
    requires Sorted(sorted) && multiset(sorted) == multiset(samples) && 1 <= rank <= |samples|
    ensures |sorted| == |samples|
    ensures var x := sorted[rank - 1];
            var value := FirstBound(samples, rank, 0);
            if x > 1_000_000 then value == Max(samples) else IsLeastBound(value, x)
  {
    hide FirstBound, CountUpTo, BucketIndex, IsLeastBound;
    assert |sorted| == |multiset(sorted)| == |multiset(samples)| == |samples|;
    FirstBoundOfSorted(samples, sorted, rank, 0);
    LeastBound(sorted[rank - 1]);
  }

  /** The bucket bound of a sample is the least bound not below it, and the
      overflow bucket starts above 1,000,000. */
  lemma LeastBound(x: U64)
    ensures BucketIndex(x) == OVERFLOW <==> x > 1_000_000
    ensures IsLeastBound(DWELL_BUCKETS[BucketIndex(x)], x)
  {
    hide BucketIndex;
    var k := BucketIndex(x);
    assert DWELL_BUCKETS[15] == 1_000_000;
    if k < 15 {
      TableAscends(k, 15);
    }
    forall bound | bound in DWELL_BUCKETS && x <= bound
      ensures DWELL_BUCKETS[k] <= bound
    {
      var j :| 0 <= j < |DWELL_BUCKETS| && DWELL_BUCKETS[j] == bound;
      if k < j {
        TableAscends(k, j);
      }
    }
  }

  // ---- Order ----

  lemma {:induction false} FirstBoundGrowsWithRank(samples: seq<U64>, low: nat, high: nat, i: nat)
    requires low <= high <= |samples| && i <= OVERFLOW
    ensures FirstBound(samples, low, i) <= FirstBound(samples, high, i)
    decreases OVERFLOW - i
  {
    if i < OVERFLOW {
      FirstBoundGrowsWithRank(samples, low, high, i + 1);
      if CountUpTo(samples, DWELL_BUCKETS[i]) < high {
        FirstBoundBeyond(samples, high, i);
      }
    }
  }

  /** A rank not covered by a bound lies beyond it. */
  lemma {:induction false} FirstBoundBeyond(samples: seq<U64>, rank: nat, i: nat)
    requires i < OVERFLOW && CountUpTo(samples, DWELL_BUCKETS[i]) < rank <= |samples|
    ensures FirstBound(samples, rank, i + 1) >= DWELL_BUCKETS[i]
    decreases OVERFLOW - i
  {
    if i + 1 == OVERFLOW {
      if Max(samples) < DWELL_BUCKETS[i] {
        AllWithin(samples, DWELL_BUCKETS[i]);
      }
    } else {
      TableAscends(i, i + 1);
      if CountUpTo(samples, DWELL_BUCKETS[i + 1]) < rank {
        FirstBoundBeyond(samples, rank, i + 1);
      }
    }
  }

  lemma {:induction false} AllWithin(samples: seq<U64>, bound: U64)
    requires forall k | 0 <= k < |samples| :: samples[k] <= bound
    ensures CountUpTo(samples, bound) == |samples|
  {
    if samples != [] {
      AllWithin(samples[1..], bound);
    }
  }

  /** Percentiles are ordered: p50 <= p95 <= p99. */
  lemma PercentilesAreOrdered(samples: seq<U64>, low: nat, high: nat)
    requires low <= high <= 100 && |samples| * 100 + 99 <= U64_MAX
    ensures PercentileOf(samples, low) <= PercentileOf(samples, high)
  {
    hide Rank;
    if samples != [] {
      var n := |samples|;
      assert n * low <= n * high <= n * 100;
      RankIsNearest(n, low);
      RankIsNearest(n, high);
      FirstBoundGrowsWithRank(samples, Rank(n, low), Rank(n, high), 0);
    }
  }

  /** Sample by sample at most. */
  predicate Below(a: seq<U64>, b: seq<U64>) {
    |a| == |b| && forall i | 0 <= i < |a| :: a[i] <= b[i]
  }

  lemma {:induction false} CountFalls(a: seq<U64>, b: seq<U64>, bound: U64)
    requires Below(a, b)
    ensures CountUpTo(b, bound) <= CountUpTo(a, bound)
  {
    if a != [] {
      CountFalls(a[1..], b[1..], bound);
    }
  }

  lemma {:induction false} MaxGrows(a: seq<U64>, b: seq<U64>)
    requires Below(a, b)
    ensures Max(a) <= Max(b)
  {
  }

  lemma {:induction false} FirstBoundGrows(a: seq<U64>, b: seq<U64>, rank: nat, i: nat)
    requires Below(a, b) && rank <= |a| && i <= OVERFLOW
    ensures FirstBound(a, rank, i) <= FirstBound(b, rank, i)
    decreases OVERFLOW - i
  {
    if i == OVERFLOW {
      MaxGrows(a, b);
    } else {
      CountFalls(a, b, DWELL_BUCKETS[i]);
      FirstBoundGrows(a, b, rank, i + 1);
      if CountUpTo(b, DWELL_BUCKETS[i]) < rank {
        FirstBoundBeyond(b, rank, i);
      }
    }
  }

  /** Raising samples never lowers a percentile. */
  lemma PercentileGrows(a: seq<U64>, b: seq<U64>, percentile: nat)
    requires Below(a, b) && percentile <= 100 && |a| * percentile + 99 <= U64_MAX
    ensures PercentileOf(a, percentile) <= PercentileOf(b, percentile)
  {
    hide Rank;
    if a != [] {
      RankIsNearest(|a|, percentile);
      FirstBoundGrows(a, b, Rank(|a|, percentile), 0);
    }
  }

  /** No percentile of anything is below the first bound. */
  lemma AtLeastFirstBound(samples: seq<U64>, percentile: nat)
    requires samples != [] && percentile <= 100 && |samples| * percentile + 99 <= U64_MAX
    ensures PercentileOf(samples, percentile) >= DWELL_BUCKETS[0]
  {
    hide Rank;
    var rank := Rank(|samples|, percentile);
    RankIsNearest(|samples|, percentile);
    if CountUpTo(samples, DWELL_BUCKETS[0]) < rank {
      FirstBoundBeyond(samples, rank, 0);
    }
  }

  /** The percentiles of a single sample at either end of the range. */
  lemma SingleSamples(percentile: nat)
    requires percentile <= 100
    ensures PercentileOf([0], percentile) == DWELL_BUCKETS[0] && PercentileOf([U64_MAX], percentile) == U64_MAX
  {
    hide Rank;
    RankIsNearest(1, percentile);
    assert CountUpTo([0], DWELL_BUCKETS[0]) == 1;
    NeverReached(0);
  }

  lemma {:induction false} NeverReached(i: nat)
    requires i <= OVERFLOW
    ensures FirstBound([U64_MAX], 1, i) == U64_MAX
    decreases OVERFLOW - i
  {
    if i < OVERFLOW {
      TableAscends(i, OVERFLOW);
      assert CountUpTo([U64_MAX], DWELL_BUCKETS[i]) == 0;
      NeverReached(i + 1);
    }
  }

  /** Of fewer than twenty samples the 95th percentile is the largest one, rounded up
      to the table. */
  lemma P95OfFew(samples: seq<U64>)
    requires samples != [] && |samples| < 20
    ensures var p95 := PercentileOf(samples, 95);
            if Max(samples) > 1_000_000 then p95 == Max(samples) else IsLeastBound(p95, Max(samples))
  {
    hide FirstBound, IsLeastBound, Rank, BucketIndex, Max;
    RankOfFew(|samples|);
    FirstBoundOfAll(samples, 0);
    LeastBound(Max(samples));
  }

  lemma RankOfFew(n: nat)
    requires 0 < n < 20
    ensures Rank(n, 95) == n
  {
    hide Rank;
    RankIsNearest(n, 95);
  }

  lemma {:induction false} FirstBoundOfAll(samples: seq<U64>, i: nat)
    requires samples != [] && i <= BucketIndex(Max(samples))
    ensures FirstBound(samples, |samples|, i)
         == if BucketIndex(Max(samples)) == OVERFLOW then Max(samples) else DWELL_BUCKETS[BucketIndex(Max(samples))]
    decreases OVERFLOW - i
  {
    hide BucketIndex;
    if i < OVERFLOW {
      AllWithinIff(samples, DWELL_BUCKETS[i]);
      if i < BucketIndex(Max(samples)) {
        FirstBoundOfAll(samples, i + 1);
      }
    }
  }

  lemma {:induction false} AllWithinIff(samples: seq<U64>, bound: U64)
    ensures CountUpTo(samples, bound) == |samples| <==> forall k | 0 <= k < |samples| :: samples[k] <= bound
  {
    if samples != [] {
      var rest := samples[1..];
      AllWithinIff(rest, bound);
      assert forall k | 0 < k < |samples| :: samples[k] == rest[k - 1];
      assert forall k | 0 <= k < |rest| :: rest[k] == samples[k + 1];
    }
  }
}
