/** The adaptive batch limit: a window of recent dwell times, its percentiles,
    the relay batch policy and the clamp of the drain loop. */
module BatchLimit {
  import opened Bytes
  import opened DwellHistogram

  const RECENT_SAMPLES: nat := 16
  const FRAME_BATCH_LIMIT: nat := 64

  datatype Snapshot = Snapshot(frames: nat, microsTotal: nat, microsMax: U64, p50: U64, p95: U64, p99: U64)

  /** The samples a window keeps of a history: the last sixteen. */
  function Window(history: seq<U64>): (w: seq<U64>)
    ensures |w| <= RECENT_SAMPLES
  {
    if |history| <= RECENT_SAMPLES then history else history[|history| - RECENT_SAMPLES..]
  }

  function Total(samples: seq<U64>): nat {
    if samples == [] then 0 else Total(samples[..|samples| - 1]) + samples[|samples| - 1]
  }

  class RecentDwell {
    var samples: seq<U64>

    /** Everything recorded so far. */
    ghost var history: seq<U64>

    ghost predicate Valid()
      reads this
    {
      samples == Window(history)
    }

    constructor ()
      ensures Valid() && history == []
    {
      samples := [];
      history := [];
    }

    method Record(elapsedMicros: U64)
      requires Valid()
      modifies this
      ensures Valid() && history == old(history) + [elapsedMicros]
    {
      if |samples| >= RECENT_SAMPLES {
        samples := samples[1..];
      }
      samples := samples + [elapsedMicros];
      history := history + [elapsedMicros];
    }

    method TakeSnapshot() returns (s: Snapshot)
      requires Valid()
      ensures var w := Window(history);
              && s.frames == |w|
              && s.microsTotal == SaturatingAdd(Total(w), 0) && s.microsMax == Max(w)
              && s.p50 == PercentileOf(w, 50) && s.p95 == PercentileOf(w, 95) && s.p99 == PercentileOf(w, 99)
      ensures s.p50 <= s.p95 <= s.p99
    {
      var buckets, total, max := Tally(samples);
      s := SnapshotOf(buckets, total, max, samples);
    }
  }

  /** One pass over the samples: histogram, saturating total and maximum. */
  method Tally(samples: seq<U64>) returns (buckets: seq<nat>, total: nat, max: U64)
    ensures IsHistogram(buckets, samples) && total == SaturatingAdd(Total(samples), 0) && max == Max(samples)
  {
    hide BucketIndex, CountIn, IsHistogram, Max;
    buckets := seq(OVERFLOW + 1, _ => 0);
    total, max := 0, 0;
    EmptyHistogram(buckets);
    assert samples[..0] == [];
    for i := 0 to |samples|
      invariant |buckets| == OVERFLOW + 1 && IsHistogram(buckets, samples[..i])
      invariant total == SaturatingAdd(Total(samples[..i]), 0)
      invariant max == Max(samples[..i])
    {
      assert samples[..i + 1] == samples[..i] + [samples[i]];
      assert samples[..i + 1][..i] == samples[..i];
      total := SaturatingAdd(total, samples[i]);
      MaxAppend(samples[..i], samples[i]);
      max := if samples[i] > max then samples[i] else max;
      HistogramAppend(buckets, samples[..i], samples[i]);
      var k := BucketIndex(samples[i]);
      buckets := buckets[k := buckets[k] + 1];
    }
    assert samples[..|samples|] == samples;
  }

  method SnapshotOf(buckets: seq<nat>, total: nat, max: U64, samples: seq<U64>) returns (s: Snapshot)
    requires IsHistogram(buckets, samples) && max == Max(samples) && |samples| <= RECENT_SAMPLES
    ensures s == Snapshot(|samples|, total, max, PercentileOf(samples, 50), PercentileOf(samples, 95), PercentileOf(samples, 99))
    ensures s.p50 <= s.p95 <= s.p99
  {
    hide Rank, FirstBound, ScanFrom;
    var n := |samples|;
    var p50 := Percentile(buckets, n, 50, max);
    var p95 := Percentile(buckets, n, 95, max);
    var p99 := Percentile(buckets, n, 99, max);
    ScanOfHistogram(buckets, samples, Rank(n, 50), 0);
    ScanOfHistogram(buckets, samples, Rank(n, 95), 0);
    ScanOfHistogram(buckets, samples, Rank(n, 99), 0);
    PercentilesAreOrdered(samples, 50, 95);
    PercentilesAreOrdered(samples, 95, 99);
    return Snapshot(n, total, max, p50, p95, p99);
  }

  lemma EmptyHistogram(buckets: seq<nat>)
    requires |buckets| == OVERFLOW + 1 && forall i | 0 <= i <= OVERFLOW :: buckets[i] == 0
    ensures IsHistogram(buckets, []) && Max([]) == 0
  {
  }

  lemma {:induction false} MaxAppend(samples: seq<U64>, x: U64)
    ensures Max(samples + [x]) == if x > Max(samples) then x else Max(samples)
  {
    if samples == [] {
      assert samples + [x] == [x];
    } else {
      MaxAppend(samples[1..], x);
      assert (samples + [x])[1..] == samples[1..] + [x];
    }
  }

  lemma {:induction false} CountInAppend(samples: seq<U64>, x: U64, i: nat)
    ensures CountIn(samples + [x], i) == CountIn(samples, i) + if BucketIndex(x) == i then 1 else 0
  {
    if samples == [] {
      assert samples + [x] == [x];
    } else {
      CountInAppend(samples[1..], x, i);
      assert (samples + [x])[1..] == samples[1..] + [x];
    }
  }

  lemma HistogramAppend(buckets: seq<nat>, samples: seq<U64>, x: U64)
    requires IsHistogram(buckets, samples)
    ensures var k := BucketIndex(x); IsHistogram(buckets[k := buckets[k] + 1], samples + [x])
  {
    forall i | 0 <= i <= OVERFLOW
      ensures CountIn(samples + [x], i) == CountIn(samples, i) + if BucketIndex(x) == i then 1 else 0
    {
      CountInAppend(samples, x, i);
    }
  }

  // ---- Policy ----

  datatype Policy = Fixed | Adaptive

  datatype Tuning = Tuning(
    highSessionThreshold: nat,
    elevatedDwellP95: U64,
    severeDwellP95: U64,
    elevatedBatchCap: nat,
    severeBatchCap: nat)

  /** The configuration check on a tuning. */
  predicate ValidTuning(t: Tuning) {
    t.severeDwellP95 >= t.elevatedDwellP95 && t.severeBatchCap <= t.elevatedBatchCap
  }

  function AtLeastOne(n: nat): nat {
    if n < 1 then 1 else n
  }

  function Least(a: nat, b: nat): nat {
    if a <= b then a else b
  }

  function EffectiveBatchFrames(policy: Policy, configured: nat, activeSessions: nat, p95: U64, t: Tuning): nat
  {
    var configured := AtLeastOne(configured);
    if policy.Fixed? then configured
    else if p95 >= t.severeDwellP95 then Least(configured, AtLeastOne(t.severeBatchCap))
    else if p95 >= t.elevatedDwellP95 then Least(configured, AtLeastOne(t.elevatedBatchCap))
    else if activeSessions >= AtLeastOne(t.highSessionThreshold) then Least(configured, AtLeastOne(t.elevatedBatchCap))
    else configured
  }

  function Clamp(n: nat, low: nat, high: nat): nat {
    if n < low then low else if n > high then high else n
  }

  /** The limit the drain loop works with, from everything that was recorded. */
  function DrainLimit(policy: Policy, history: seq<U64>, activeSessions: nat, t: Tuning): nat {
    var p95 := PercentileOf(Window(history), 95);
    Clamp(EffectiveBatchFrames(policy, FRAME_BATCH_LIMIT, activeSessions, p95, t), 1, FRAME_BATCH_LIMIT)
  }

  method ComputeDrainLimit(policy: Policy, recent: RecentDwell, activeSessions: nat, t: Tuning) returns (limit: nat)
    requires recent.Valid()
    ensures limit == DrainLimit(policy, recent.history, activeSessions, t)
    ensures 1 <= limit <= FRAME_BATCH_LIMIT
    ensures policy.Fixed? ==> limit == 64
    ensures policy.Adaptive? && SomeReach(recent.history, t.severeDwellP95) ==> limit == Least(64, AtLeastOne(t.severeBatchCap))
    ensures policy.Adaptive? && AllWellBelow(recent.history, t.severeDwellP95) ==>
              if SomeReach(recent.history, t.elevatedDwellP95) || activeSessions >= AtLeastOne(t.highSessionThreshold)
              then limit == Least(64, AtLeastOne(t.elevatedBatchCap))
              else AllWellBelow(recent.history, t.elevatedDwellP95) ==> limit == 64
  {
    hide SomeReach, AllWellBelow, PercentileOf, Window;
    P95Reaches(recent.history, t.severeDwellP95);
    P95Reaches(recent.history, t.elevatedDwellP95);
    var snapshot := recent.TakeSnapshot();
    var effective := EffectiveBatchFrames(policy, FRAME_BATCH_LIMIT, activeSessions, snapshot.p95, t);
    limit := Clamp(effective, 1, FRAME_BATCH_LIMIT);
  }

  lemma WindowsBelow(a: seq<U64>, b: seq<U64>)
    requires Below(a, b)
    ensures Below(Window(a), Window(b))
  {
  }

  /** What each load level allows of the batch, and whether more load allows less. */
  predicate CapsFall(t: Tuning) {
    Least(FRAME_BATCH_LIMIT, AtLeastOne(t.severeBatchCap)) <= Least(FRAME_BATCH_LIMIT, AtLeastOne(t.elevatedBatchCap))
  }

  lemma PolicyFalls(low: nat, high: nat, p: U64, q: U64, t: Tuning)
    requires low <= high && p <= q
    requires CapsFall(t) || p == q || p >= t.severeDwellP95
    ensures EffectiveBatchFrames(Adaptive, FRAME_BATCH_LIMIT, high, q, t) <= EffectiveBatchFrames(Adaptive, FRAME_BATCH_LIMIT, low, p, t)
  {
  }

  /** Raising any recorded dwell times and the number of active sessions never
      raises the limit. */
  ghost predicate LoadNeverRaises(policy: Policy, t: Tuning) {
    forall a, b, low, high | Below(a, b) && low <= high :: DrainLimit(policy, b, high, t) <= DrainLimit(policy, a, low, t)
  }

  lemma LimitFalls(a: seq<U64>, b: seq<U64>, low: nat, high: nat, t: Tuning)
    requires Below(a, b) && low <= high
    requires CapsFall(t) || t.severeDwellP95 <= DWELL_BUCKETS[0]
    ensures DrainLimit(Adaptive, b, high, t) <= DrainLimit(Adaptive, a, low, t)
  {
    hide PercentileOf, CapsFall;
    WindowsBelow(a, b);
    var w, v := Window(a), Window(b);
    PercentileGrows(w, v, 95);
    if w != [] {
      AtLeastFirstBound(w, 95);
    }
    PolicyFalls(low, high, PercentileOf(w, 95), PercentileOf(v, 95), t);
  }

  /** Under the adaptive policy load never raises the limit if and only if the severe
      cap does not exceed the elevated one, both cut off at the frame limit, or every
      sample counts as severe. The order of the two thresholds does not matter. */
  lemma LoadNeverRaisesIff(t: Tuning)
    ensures LoadNeverRaises(Adaptive, t) <==> CapsFall(t) || t.severeDwellP95 <= DWELL_BUCKETS[0]
  {
    hide DrainLimit, CapsFall;
    if CapsFall(t) || t.severeDwellP95 <= DWELL_BUCKETS[0] {
      forall a, b, low, high | Below(a, b) && low <= high
        ensures DrainLimit(Adaptive, b, high, t) <= DrainLimit(Adaptive, a, low, t)
      {
        LimitFalls(a, b, low, high, t);
      }
    }
    if LoadNeverRaises(Adaptive, t) && t.severeDwellP95 > DWELL_BUCKETS[0] {
      var busy := AtLeastOne(t.highSessionThreshold);
      assert Below([0], [U64_MAX]);
      LimitsAtTheEnds(t, busy);
    }
  }

  lemma LimitsAtTheEnds(t: Tuning, busy: nat)
    requires t.severeDwellP95 > DWELL_BUCKETS[0] && busy == AtLeastOne(t.highSessionThreshold)
    ensures DrainLimit(Adaptive, [U64_MAX], busy, t) <= DrainLimit(Adaptive, [0], busy, t) ==> CapsFall(t)
  {
    hide PercentileOf;
    SingleSamples(95);
  }

  /** The limit lies in 1..64, and under a tuning that passes validation more load
      never raises it. */
  lemma LoadNeverRaisesLimit(policy: Policy, a: seq<U64>, b: seq<U64>, low: nat, high: nat, t: Tuning)
    requires ValidTuning(t) && Below(a, b) && low <= high
    ensures 1 <= DrainLimit(policy, b, high, t) <= DrainLimit(policy, a, low, t) <= FRAME_BATCH_LIMIT
  {
    hide PercentileOf;
    LoadNeverRaisesIff(t);
  }

  // ---- The limit, from the samples themselves ----

  /** Some recent sample reaches the threshold. */
  predicate SomeReach(history: seq<U64>, threshold: U64) {
    exists k | |history| - RECENT_SAMPLES <= k < |history| && 0 <= k :: history[k] >= threshold
  }

  /** Every recent sample stays within a bound of the table below the threshold. */
  predicate AllWellBelow(history: seq<U64>, threshold: U64) {
    exists bound | bound in DWELL_BUCKETS[..OVERFLOW] && bound < threshold ::
      forall k | |history| - RECENT_SAMPLES <= k < |history| && 0 <= k :: history[k] <= bound
  }

  /** A recent sample that reaches a threshold takes the 95th percentile there. */
  lemma SomeReachP95(history: seq<U64>, threshold: U64)
    requires SomeReach(history, threshold)
    ensures PercentileOf(Window(history), 95) >= threshold
  {
    hide PercentileOf, Max;
    var w := Window(history);
    var k :| |history| - RECENT_SAMPLES <= k < |history| && 0 <= k && history[k] >= threshold;
    assert w[k - (|history| - |w|)] == history[k];
    P95OfFew(w);
  }

  /** Samples well below a threshold leave it below. */
  lemma WellBelowP95(history: seq<U64>, threshold: U64)
    requires AllWellBelow(history, threshold)
    ensures PercentileOf(Window(history), 95) < threshold
  {
    hide PercentileOf, Max;
    var w := Window(history);
    var bound :| && bound in DWELL_BUCKETS[..OVERFLOW] && bound < threshold
                 && (forall k | |history| - RECENT_SAMPLES <= k < |history| && 0 <= k :: history[k] <= bound);
    TableTop(bound);
    if w == [] {
      EmptyPercentile(95);
    } else {
      var i :| 0 <= i < |w| && w[i] == Max(w);
      assert w[i] == history[|history| - |w| + i];
      P95OfFew(w);
    }
  }

  lemma P95Reaches(history: seq<U64>, threshold: U64)
    ensures SomeReach(history, threshold) ==> PercentileOf(Window(history), 95) >= threshold
    ensures AllWellBelow(history, threshold) ==> PercentileOf(Window(history), 95) < threshold
  {
    hide PercentileOf, Window, SomeReach, AllWellBelow;
    if SomeReach(history, threshold) {
      SomeReachP95(history, threshold);
    }
    if AllWellBelow(history, threshold) {
      WellBelowP95(history, threshold);
    }
  }

  lemma EmptyPercentile(percentile: nat)
    ensures PercentileOf([], percentile) == 0
  {
  }

  lemma TableTop(bound: U64)
    requires bound in DWELL_BUCKETS[..OVERFLOW]
    ensures bound in DWELL_BUCKETS && 10 <= bound <= 1_000_000
  {
  }

  /** A severe sample brings the limit to the severe cap, whatever else holds. */
  lemma SevereSampleCaps(history: seq<U64>, activeSessions: nat, t: Tuning)
    requires SomeReach(history, t.severeDwellP95)
    ensures DrainLimit(Adaptive, history, activeSessions, t) == Least(64, AtLeastOne(t.severeBatchCap))
  {
    hide PercentileOf, Window;
    P95Reaches(history, t.severeDwellP95);
  }

  /** Without a severe sample, an elevated one or too many sessions bring it to the
      elevated cap. */
  lemma ElevatedLoadCaps(history: seq<U64>, activeSessions: nat, t: Tuning)
    requires AllWellBelow(history, t.severeDwellP95)
    requires SomeReach(history, t.elevatedDwellP95) || activeSessions >= AtLeastOne(t.highSessionThreshold)
    ensures DrainLimit(Adaptive, history, activeSessions, t) == Least(64, AtLeastOne(t.elevatedBatchCap))
  {
    hide PercentileOf, Window;
    P95Reaches(history, t.severeDwellP95);
    P95Reaches(history, t.elevatedDwellP95);
  }

  /** Under a valid tuning either kind of load keeps the limit within the elevated cap. */
  lemma LoadKeepsWithinCap(history: seq<U64>, activeSessions: nat, t: Tuning)
    requires ValidTuning(t)
    requires SomeReach(history, t.elevatedDwellP95) || activeSessions >= AtLeastOne(t.highSessionThreshold)
    ensures DrainLimit(Adaptive, history, activeSessions, t) <= AtLeastOne(t.elevatedBatchCap)
  {
    hide PercentileOf, Window;
    P95Reaches(history, t.elevatedDwellP95);
  }

  /** Without load, or under the fixed policy, the limit is the full batch. */
  lemma NoLoadNoCap(history: seq<U64>, activeSessions: nat, t: Tuning)
    ensures DrainLimit(Fixed, history, activeSessions, t) == 64
    ensures && AllWellBelow(history, t.severeDwellP95) && AllWellBelow(history, t.elevatedDwellP95)
            && activeSessions < AtLeastOne(t.highSessionThreshold)
            ==> DrainLimit(Adaptive, history, activeSessions, t) == 64
  {
    hide PercentileOf, Window;
    P95Reaches(history, t.severeDwellP95);
    P95Reaches(history, t.elevatedDwellP95);
  }
}
