/**
 Latency histograms: bucketing, merging and the interpolated percentile, over exact reals.
 */
module Percentiles {
  import opened Text

  const BoundsMs: seq<real> :=
    [0.25, 0.5, 1.0, 2.0, 5.0, 10.0, 25.0, 50.0, 100.0, 250.0, 500.0, 1000.0, 2500.0, 5000.0, 10000.0, 30000.0]

  const LAST: nat := 16
  const BUCKET_COUNT: nat := 17
  const LEGACY_BUCKET_COUNT: nat := 15

  function Low(i: nat): real
    requires i <= LAST
  {
    if i == 0 then 0.0 else BoundsMs[i - 1]
  }

  /** The last bucket has no upper bound; it is reported as if it were twice the highest one. */
  function High(i: nat): real
    requires i <= LAST
  {
    if i == LAST then BoundsMs[i - 1] * 2.0 else BoundsMs[i]
  }

  // ----- bucketing

  predicate InBucket(ms: real, i: nat) {
    i <= LAST && (i > 0 ==> ms > BoundsMs[i - 1]) && (i < LAST ==> ms <= BoundsMs[i])
  }

  function IndexFrom(ms: real, i: nat): nat
    requires i <= LAST
    decreases LAST - i
  {
    if i == LAST || ms <= BoundsMs[i] then i else IndexFrom(ms, i + 1)
  }

  function IndexOf(ms: real): nat { IndexFrom(ms, 0) }

  lemma {:induction false} BoundsRise(i: nat, j: nat)
    requires i <= j < LAST
    ensures BoundsMs[i] <= BoundsMs[j]
    decreases j
  {
    if i < j { BoundsRise(i, j - 1); BoundStep(j); }
  }

  lemma BoundStep(j: nat)
    requires 0 < j < LAST
    ensures BoundsMs[j - 1] < BoundsMs[j]
  {
  }

  lemma {:induction false} IndexFromPlaces(ms: real, i: nat)
    requires i <= LAST && (i > 0 ==> ms > BoundsMs[i - 1])
    ensures InBucket(ms, IndexFrom(ms, i))
    decreases LAST - i
  {
    if i < LAST && ms > BoundsMs[i] { IndexFromPlaces(ms, i + 1); }
  }

  /** A duration falls in one bucket only. */
  lemma BucketUnique(ms: real, i: nat, j: nat)
    requires InBucket(ms, i) && InBucket(ms, j)
    ensures i == j
  {
    if i < j { BoundsRise(i, j - 1); }
    if j < i { BoundsRise(j, i - 1); }
  }

  method BucketIndex(ms: real) returns (r: nat)
    ensures r == IndexOf(ms) && InBucket(ms, r)
  {
    for i := 0 to LAST
      invariant IndexOf(ms) == IndexFrom(ms, i) && (i > 0 ==> ms > BoundsMs[i - 1])
    {
      if ms <= BoundsMs[i] { return i; }
    }
    return LAST;
  }

  // ----- histograms

  type Buckets = seq<nat>

  function Get(b: Buckets, i: nat): nat { if i < |b| then b[i] else 0 }

  function Sum(b: Buckets): nat { if b == [] then 0 else Sum(b[..|b| - 1]) + b[|b| - 1] }

  /** How many of the first i buckets' samples there are. */
  function Before(b: Buckets, i: nat): nat { if i == 0 then 0 else Before(b, i - 1) + Get(b, i - 1) }

  function Tally(samples: seq<real>, i: nat): nat {
    if samples == [] then 0
    else
      Tally(samples[..|samples| - 1], i)
      + (if IndexOf(samples[|samples| - 1]) == i then 1 else 0)
  }

  function Histogram(samples: seq<real>): Buckets
  {
    seq(BUCKET_COUNT, i requires 0 <= i < BUCKET_COUNT => Tally(samples, i))
  }

  function Widened(from: Buckets): Buckets { if |from| == LEGACY_BUCKET_COUNT then [0, 0] + from else from }

  /** Position by position over the buckets there are; a shorter row is filled up, a longer one keeps its rest. */
  function Added(into: Buckets, from: Buckets): Buckets {
    seq(if |into| > BUCKET_COUNT then |into| else BUCKET_COUNT, i requires 0 <= i =>
      if i < BUCKET_COUNT then Get(into, i) + Get(Widened(from), i) else Get(into, i))
  }

  /** A row of counts that later reports are added to. */
  class Row {
    var counts: Buckets

    constructor ()
      ensures counts == Histogram([])
    {
      counts := seq(BUCKET_COUNT, i => 0);
    }

    method AddBuckets(from: Buckets)
      modifies this
      ensures counts == Added(old(counts), from)
    {
      var source := Widened(from);
      for i := 0 to BUCKET_COUNT
        invariant |counts| == if |old(counts)| > i then |old(counts)| else i
        invariant forall k :: 0 <= k < |counts| ==>
                    counts[k] == if k < i then Get(old(counts), k) + Get(source, k) else Get(old(counts), k)
      {
        var sum := Get(counts, i) + Get(source, i);
        counts := if i < |counts| then counts[i := sum] else counts + [sum];
      }
    }
  }

  // ----- the percentile

  /** The nearest thousandth, halves up. */
  function RoundMs(ms: real): real { (ms * 1000.0 + 0.5).Floor as real / 1000.0 }

  /** The first bucket from i on at which the running count reaches the target. */
  function Stop(b: Buckets, target: real, i: nat): (r: nat)
    requires i <= BUCKET_COUNT
    ensures i <= r <= BUCKET_COUNT
    decreases BUCKET_COUNT - i
  {
    if i == BUCKET_COUNT || Before(b, i + 1) as real >= target then i else Stop(b, target, i + 1)
  }

  function Between(low: real, high: real, within: real): real { low + (high - low) * within }

  function Share(target: real, cumulative: nat, count: nat): real
    requires count > 0
  {
    (target - cumulative as real) / count as real
  }

  function ValueAt(b: Buckets, target: real, i: nat): real {
    if i >= BUCKET_COUNT then BoundsMs[LAST - 1]
    else if Get(b, i) == 0 then High(i)
    else RoundMs(Between(Low(i), High(i), Share(target, Before(b, i), Get(b, i))))
  }

  function Target(q: real, total: nat): real { q * total as real }

  function PercentileOf(b: Buckets, q: real): Option<real> {
    if Sum(b) == 0 then None else Some(ValueAt(b, Target(q, Sum(b)), Stop(b, Target(q, Sum(b)), 0)))
  }

  method Percentile(b: Buckets, q: real) returns (r: Option<real>)
    ensures r == PercentileOf(b, q)
  {
    hide RoundMs, ValueAt, Target;
    var total := Total(b);
    if total == 0 { return None; }
    var ms := Interpolate(b, Target(q, total));
    return Some(ms);
  }

  method Total(b: Buckets) returns (total: nat)
    ensures total == Sum(b)
  {
    total := 0;
    for i := 0 to |b|
      invariant total == Sum(b[..i])
    {
      assert b[..i + 1][..i] == b[..i];
      total := total + b[i];
    }
    assert b[..|b|] == b;
  }

  method Interpolate(b: Buckets, target: real) returns (ms: real)
    ensures ms == ValueAt(b, target, Stop(b, target, 0))
  {
    hide RoundMs, Between, Share, Low, High;
    var cumulative := 0;
    for i := 0 to BUCKET_COUNT
      invariant cumulative == Before(b, i)
      invariant Stop(b, target, 0) == Stop(b, target, i)
    {
      var count := Get(b, i);
      if (cumulative + count) as real >= target {
        if count == 0 { return High(i); }
        return RoundMs(Between(Low(i), High(i), Share(target, cumulative, count)));
      }
      cumulative := cumulative + count;
    }
    return BoundsMs[LAST - 1];
  }
}
