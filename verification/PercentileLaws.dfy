/**
 What a reported percentile means: it lies in the bucket of the exact nearest-rank quantile, it
 never falls as q grows, and it does not depend on how the samples were split across reports.
 */
module PercentileLaws {
  import opened Text
  import opened Percentiles

  // ----- rounding

  lemma FloorRises(x: real, y: real)
    requires x <= y
    ensures x.Floor <= y.Floor
  {
  }

  lemma RoundRises(x: real, y: real)
    requires x <= y
    ensures RoundMs(x) <= RoundMs(y)
  {
    FloorRises(x * 1000.0 + 0.5, y * 1000.0 + 0.5);
  }

  lemma RoundKeeps(n: int)
    ensures RoundMs(n as real / 1000.0) == n as real / 1000.0
  {
    assert ((n as real / 1000.0) * 1000.0 + 0.5).Floor == n;
  }

  /** Bucket bounds are whole thousandths, so rounding cannot leave a bucket. */
  function Thousandths(i: nat): int
    requires i <= LAST
  {
    if i == 0 then 0 else (BoundsMs[i - 1] * 1000.0).Floor
  }

  lemma LowKept(i: nat)
    requires i <= LAST
    ensures RoundMs(Low(i)) == Low(i)
  {
    RoundKeeps(Thousandths(i));
    assert Low(i) == Thousandths(i) as real / 1000.0;
  }

  lemma HighKept(i: nat)
    requires i <= LAST
    ensures RoundMs(High(i)) == High(i)
  {
    if i == LAST {
      RoundKeeps(60000000);
    } else {
      LowKept(i + 1);
      assert High(i) == Low(i + 1);
    }
  }

  lemma LowBelowHigh(i: nat)
    requires i <= LAST
    ensures 0.0 <= Low(i) <= High(i)
  {
  }

  /** A bucket ends no higher than a later one begins. */
  lemma {:induction false} BucketsApart(i: nat, j: nat)
    requires i < j <= LAST
    ensures High(i) <= Low(j)
  {
    BoundsRise(i, j - 1);
  }

  // ----- interpolation stays in its bucket

  lemma Positive(a: real, b: real)
    requires a >= 0.0 && b >= 0.0
    ensures a * b >= 0.0
  {
  }

  lemma Distribute(a: real, b: real, c: real)
    ensures a * (b - c) == a * b - a * c
  {
  }

  lemma MixInside(low: real, high: real, within: real)
    requires low <= high && 0.0 <= within <= 1.0
    ensures low <= Between(low, high, within) <= high
  {
    Positive(high - low, within);
    Positive(high - low, 1.0 - within);
    Distribute(high - low, 1.0, within);
  }

  lemma MixRises(low: real, high: real, v: real, w: real)
    requires low <= high && v <= w
    ensures Between(low, high, v) <= Between(low, high, w)
  {
    Positive(high - low, w - v);
    Distribute(high - low, w, v);
  }

  lemma ShareInside(target: real, cumulative: nat, count: nat)
    requires count > 0 && cumulative as real <= target <= (cumulative + count) as real
    ensures 0.0 <= Share(target, cumulative, count) <= 1.0
  {
  }

  lemma ShareRises(s: real, t: real, cumulative: nat, count: nat)
    requires count > 0 && s <= t
    ensures Share(s, cumulative, count) <= Share(t, cumulative, count)
  {
    QuotientRises(s - cumulative as real, t - cumulative as real, count as real);
  }

  lemma QuotientRises(a: real, b: real, c: real)
    requires a <= b && c > 0.0
    ensures a / c <= b / c
  {
  }

  /** The target is reached in bucket i and not before. */
  predicate Reached(b: Buckets, target: real, i: nat) {
    i <= LAST && (Before(b, i) as real) < target <= Before(b, i + 1) as real
  }

  lemma ValueInside(b: Buckets, target: real, i: nat)
    requires Reached(b, target, i)
    ensures Low(i) <= ValueAt(b, target, i) <= High(i)
  {
    hide RoundMs, Low, High, Between, Share;
    ShareInside(target, Before(b, i), Get(b, i));
    LowBelowHigh(i);
    MixInside(Low(i), High(i), Share(target, Before(b, i), Get(b, i)));
    var x := Between(Low(i), High(i), Share(target, Before(b, i), Get(b, i)));
    RoundRises(Low(i), x);
    RoundRises(x, High(i));
    LowKept(i);
    HighKept(i);
  }

  lemma ValueRises(b: Buckets, s: real, t: real, i: nat)
    requires Reached(b, s, i) && Reached(b, t, i) && s <= t
    ensures ValueAt(b, s, i) <= ValueAt(b, t, i)
  {
    hide RoundMs, Low, High, Between, Share;
    ShareRises(s, t, Before(b, i), Get(b, i));
    LowBelowHigh(i);
    var v, w := Share(s, Before(b, i), Get(b, i)), Share(t, Before(b, i), Get(b, i));
    MixRises(Low(i), High(i), v, w);
    RoundRises(Between(Low(i), High(i), v), Between(Low(i), High(i), w));
  }

  // ----- where the loop stops

  lemma {:induction false} BeforeRises(b: Buckets, i: nat, j: nat)
    requires i <= j
    ensures Before(b, i) <= Before(b, j)
    decreases j
  {
    if i < j { BeforeRises(b, i, j - 1); }
  }

  lemma {:induction false} StopIs(b: Buckets, target: real, i: nat, from: nat)
    requires Reached(b, target, i) && from <= i
    ensures Stop(b, target, from) == i
    decreases i - from
  {
    if from < i {
      BeforeRises(b, from + 1, i);
      StopIs(b, target, i, from + 1);
    }
  }

  lemma {:induction false} StopReached(b: Buckets, target: real, from: nat)
    requires from <= LAST && (Before(b, from) as real) < target <= Before(b, BUCKET_COUNT) as real
    ensures Reached(b, target, Stop(b, target, from))
    decreases LAST - from
  {
    if (Before(b, from + 1) as real) < target { StopReached(b, target, from + 1); }
  }

  lemma StopsInOrder(b: Buckets, s: real, i: nat, t: real, j: nat)
    requires Reached(b, s, i) && Reached(b, t, j) && s <= t
    ensures i <= j
  {
    hide Before;
    if j < i { BeforeRises(b, j + 1, i); }
  }

  lemma {:induction false} BeforeAll(b: Buckets, n: nat)
    requires n >= |b|
    ensures Before(b, n) == Sum(b)
    decreases n
  {
    if n > |b| {
      BeforeAll(b, n - 1);
    } else if n > 0 {
      BeforeAll(b[..n - 1], n - 1);
      BeforeFront(b, n - 1, n - 1);
    }
  }

  lemma {:induction false} BeforeFront(b: Buckets, n: nat, i: nat)
    requires i <= n <= |b|
    ensures Before(b[..n], i) == Before(b, i)
  {
    if i > 0 { BeforeFront(b, n, i - 1); }
  }

  lemma TargetInRange(total: nat, q: real)
    requires total > 0 && 0.0 < q <= 1.0
    ensures 0.0 < Target(q, total) <= total as real
  {
    Positive(total as real, 1.0 - q);
    Distribute(total as real, 1.0, q);
  }

  lemma TargetRises(p: real, q: real, total: nat)
    requires p <= q
    ensures Target(p, total) <= Target(q, total)
  {
    Positive(total as real, q - p);
    Distribute(total as real, q, p);
  }

  lemma PercentileStops(b: Buckets, q: real) returns (target: real, i: nat)
    requires |b| <= BUCKET_COUNT && Sum(b) > 0 && 0.0 < q <= 1.0
    ensures target == Target(q, Sum(b)) && Reached(b, target, i) && PercentileOf(b, q) == Some(ValueAt(b, target, i))
  {
    hide Target, ValueAt;
    target := Target(q, Sum(b));
    TargetInRange(Sum(b), q);
    BeforeAll(b, BUCKET_COUNT);
    StopReached(b, target, 0);
    i := Stop(b, target, 0);
  }

  /** A higher q never gives a lower percentile. */
  lemma PercentileRises(b: Buckets, p: real, q: real)
    requires |b| <= BUCKET_COUNT && Sum(b) > 0 && 0.0 < p <= q <= 1.0
    ensures PercentileOf(b, p).Some? && PercentileOf(b, q).Some?
    ensures PercentileOf(b, p).value <= PercentileOf(b, q).value
  {
    hide ValueAt, PercentileOf, Low, High, Target;
    var s, i := PercentileStops(b, p);
    var t, j := PercentileStops(b, q);
    TargetRises(p, q, Sum(b));
    if i == j {
      ValueRises(b, s, t, i);
    } else {
      StopsInOrder(b, s, i, t, j);
      ValueInside(b, s, i);
      ValueInside(b, t, j);
      BucketsApart(i, j);
    }
  }

  // ----- the exact quantile

  function AtMost(samples: seq<real>, x: real): nat {
    if samples == [] then 0 else AtMost(samples[..|samples| - 1], x) + (if samples[|samples| - 1] <= x then 1 else 0)
  }

  function Below(samples: seq<real>, x: real): nat {
    if samples == [] then 0 else Below(samples[..|samples| - 1], x) + (if samples[|samples| - 1] < x then 1 else 0)
  }

  /** The nearest-rank quantile: the sample at which the count of samples up to it reaches q of them all. */
  predicate IsQuantile(samples: seq<real>, q: real, x: real) {
    x in samples && (Below(samples, x) as real) < Target(q, |samples|) <= AtMost(samples, x) as real
  }

  /** Samples in buckets before the i-th. */
  function Earlier(samples: seq<real>, i: nat): nat {
    if samples == [] then 0
    else
      Earlier(samples[..|samples| - 1], i)
      + (if IndexOf(samples[|samples| - 1]) < i then 1 else 0)
  }

  lemma {:induction false} EarlierSums(samples: seq<real>, i: nat)
    requires i <= BUCKET_COUNT
    ensures Before(Histogram(samples), i) == Earlier(samples, i)
  {
    hide IndexOf;
    if i == 0 {
      NoneEarlier(samples);
    } else {
      EarlierSums(samples, i - 1);
      EarlierNext(samples, i - 1);
    }
  }

  lemma {:induction false} NoneEarlier(samples: seq<real>)
    ensures Earlier(samples, 0) == 0
  {
    if samples != [] { NoneEarlier(samples[..|samples| - 1]); }
  }

  lemma {:induction false} EarlierNext(samples: seq<real>, i: nat)
    ensures Earlier(samples, i + 1) == Earlier(samples, i) + Tally(samples, i)
  {
    hide IndexOf;
    if samples != [] { EarlierNext(samples[..|samples| - 1], i); }
  }

  lemma IndexPlaces(ms: real)
    ensures InBucket(ms, IndexOf(ms))
  {
    IndexFromPlaces(ms, 0);
  }

  /** A smaller duration is in no later bucket. */
  lemma IndexRises(x: real, y: real)
    requires x <= y
    ensures IndexOf(x) <= IndexOf(y)
  {
    hide IndexOf;
    IndexPlaces(x);
    IndexPlaces(y);
    if IndexOf(y) < IndexOf(x) { BoundsRise(IndexOf(y), IndexOf(x) - 1); }
  }

  lemma {:induction false} CountsAround(samples: seq<real>, x: real)
    ensures Earlier(samples, IndexOf(x)) <= Below(samples, x) && AtMost(samples, x) <= Earlier(samples, IndexOf(x) + 1)
  {
    hide IndexOf;
    if samples != [] {
      var y := samples[|samples| - 1];
      CountsAround(samples[..|samples| - 1], x);
      if x <= y { IndexRises(x, y); }
      if y <= x { IndexRises(y, x); }
    }
  }

  lemma {:induction false} EarlierAll(samples: seq<real>)
    ensures Earlier(samples, BUCKET_COUNT) == |samples|
  {
    hide IndexOf;
    if samples != [] {
      EarlierAll(samples[..|samples| - 1]);
      IndexPlaces(samples[|samples| - 1]);
    }
  }

  /** The reported percentile lies within the bounds of the bucket the exact quantile is in. */
  lemma PercentileNearQuantile(samples: seq<real>, q: real, x: real)
    requires IsQuantile(samples, q, x)
    ensures PercentileOf(Histogram(samples), q).Some?
    ensures IndexOf(x) <= LAST && Low(IndexOf(x)) <= PercentileOf(Histogram(samples), q).value <= High(IndexOf(x))
  {
    hide IndexOf, ValueAt, Low, High, Histogram, Target;
    var b, i := Histogram(samples), IndexOf(x);
    IndexPlaces(x);
    HistogramTotal(samples);
    CountsAround(samples, x);
    EarlierSums(samples, i);
    EarlierSums(samples, i + 1);
    var target := Target(q, Sum(b));
    assert Reached(b, target, i);
    StopIs(b, target, i, 0);
    ValueInside(b, target, i);
    assert PercentileOf(b, q) == Some(ValueAt(b, target, i));
  }

  lemma HistogramTotal(samples: seq<real>)
    ensures |Histogram(samples)| == BUCKET_COUNT && Sum(Histogram(samples)) == |samples|
  {
    BeforeAll(Histogram(samples), BUCKET_COUNT);
    EarlierSums(samples, BUCKET_COUNT);
    EarlierAll(samples);
  }

  // ----- every q has its quantile, so the statement above is about every call

  lemma {:induction false} QuantileExists(samples: seq<real>, q: real)
    requires samples != [] && 0.0 < q <= 1.0
    ensures exists x :: IsQuantile(samples, q, x)
  {
    hide Target;
    TargetInRange(|samples|, q);
    var top := Largest(samples);
    AllAtMost(samples, top);
    var x := Descend(samples, Target(q, |samples|), top);
    assert IsQuantile(samples, q, x);
  }

  lemma {:induction false} Largest(samples: seq<real>) returns (x: real)
    requires samples != []
    ensures x in samples && forall k :: 0 <= k < |samples| ==> samples[k] <= x
  {
    var n := |samples| - 1;
    x := samples[n];
    if n > 0 {
      var y := Largest(samples[..n]);
      if y > x { x := y; }
    }
  }

  lemma {:induction false} AllAtMost(samples: seq<real>, x: real)
    requires forall k :: 0 <= k < |samples| ==> samples[k] <= x
    ensures AtMost(samples, x) == |samples|
  {
    if samples != [] { AllAtMost(samples[..|samples| - 1], x); }
  }

  /** Going down from a sample whose count suffices reaches one below which it no longer does. */
  lemma {:induction false} Descend(samples: seq<real>, target: real, x: real) returns (y: real)
    requires x in samples && 0.0 < target <= AtMost(samples, x) as real
    ensures y in samples && (Below(samples, y) as real) < target <= AtMost(samples, y) as real
    decreases Below(samples, x)
  {
    y := x;
    if target <= Below(samples, x) as real {
      var z := NextBelow(samples, x);
      y := Descend(samples, target, z);
    }
  }

  lemma {:induction false} NextBelow(samples: seq<real>, x: real) returns (z: real)
    requires Below(samples, x) > 0
    ensures z in samples && z < x && AtMost(samples, z) == Below(samples, x) && Below(samples, z) < Below(samples, x)
  {
    var n := |samples| - 1;
    var last, front := samples[n], samples[..n];
    if Below(front, x) == 0 {
      z := last;
      NoneBelow(front, x, z);
    } else {
      var y := NextBelow(front, x);
      z := y;
      if y < last < x {
        z := last;
        Gap(front, y, last, x);
      }
    }
  }

  lemma {:induction false} NoneBelow(samples: seq<real>, x: real, z: real)
    requires z < x && Below(samples, x) == 0
    ensures AtMost(samples, z) == 0 && Below(samples, z) == 0
  {
    if samples != [] { NoneBelow(samples[..|samples| - 1], x, z); }
  }

  /** With as many samples up to y as below x, none lies strictly between. */
  lemma {:induction false} Gap(samples: seq<real>, y: real, z: real, x: real)
    requires y < z < x && AtMost(samples, y) >= Below(samples, x)
    ensures AtMost(samples, z) == Below(samples, x) && Below(samples, z) == AtMost(samples, y)
  {
    Counts(samples, y, z, x);
  }

  lemma {:induction false} Counts(samples: seq<real>, y: real, z: real, x: real)
    requires y < z < x
    ensures AtMost(samples, y) <= Below(samples, z) <= AtMost(samples, z) <= Below(samples, x)
  {
    if samples != [] { Counts(samples[..|samples| - 1], y, z, x); }
  }

  // ----- merging

  lemma {:induction false} TallyAppend(a: seq<real>, b: seq<real>, i: nat)
    ensures Tally(a + b, i) == Tally(a, i) + Tally(b, i)
  {
    hide IndexOf;
    if b == [] {
      assert a + b == a;
    } else {
      assert (a + b)[..|a + b| - 1] == a + b[..|b| - 1];
      TallyAppend(a, b[..|b| - 1], i);
    }
  }

  lemma HistogramAppend(a: seq<real>, b: seq<real>)
    ensures Added(Histogram(a), Histogram(b)) == Histogram(a + b)
  {
    hide Tally;
    forall i: nat | i < BUCKET_COUNT ensures Tally(a + b, i) == Tally(a, i) + Tally(b, i) { TallyAppend(a, b, i); }
  }

  function Merged(reports: seq<seq<real>>): Buckets {
    if reports == [] then Histogram([]) else Added(Merged(reports[..|reports| - 1]), Histogram(reports[|reports| - 1]))
  }

  function Concat(reports: seq<seq<real>>): seq<real> {
    if reports == [] then [] else Concat(reports[..|reports| - 1]) + reports[|reports| - 1]
  }

  lemma {:induction false} MergedIsConcat(reports: seq<seq<real>>)
    ensures Merged(reports) == Histogram(Concat(reports))
  {
    hide Histogram, Added;
    if reports != [] {
      var n := |reports| - 1;
      MergedIsConcat(reports[..n]);
      HistogramAppend(Concat(reports[..n]), reports[n]);
    }
  }

  lemma {:induction false} TallyPermutes(a: seq<real>, b: seq<real>, i: nat)
    requires multiset(a) == multiset(b)
    ensures Tally(a, i) == Tally(b, i)
    decreases |a|
  {
    hide IndexOf;
    if a == [] {
      assert |b| == |multiset(b)| == |multiset(a)| == 0;
    } else {
      var n, x := |a| - 1, a[|a| - 1];
      var others := Without(a, b);
      TallyPermutes(a[..n], others.0 + others.1, i);
      TallyAppend(others.0, [x] + others.1, i);
      TallyAppend([x], others.1, i);
      TallyAppend(others.0, others.1, i);
    }
  }

  /** The other sequence split around one occurrence of this one's last element. */
  lemma Without(a: seq<real>, b: seq<real>) returns (r: (seq<real>, seq<real>))
    requires a != [] && multiset(a) == multiset(b)
    ensures b == r.0 + ([a[|a| - 1]] + r.1) && multiset(a[..|a| - 1]) == multiset(r.0 + r.1)
  {
    var n, x := |a| - 1, a[|a| - 1];
    assert a == a[..n] + [x];
    assert x in multiset(b);
    var k :| 0 <= k < |b| && b[k] == x;
    r := (b[..k], b[k + 1..]);
    assert b == b[..k] + ([x] + b[k + 1..]);
    OneMore(a[..n], x, []);
    OneMore(r.0, x, r.1);
    assert a[..n] + ([x] + []) == a && a[..n] + [] == a[..n];
    Cancel(multiset(a[..n]), multiset(r.0 + r.1), x);
  }

  lemma OneMore(l: seq<real>, x: real, r: seq<real>)
    ensures multiset(l + ([x] + r)) == multiset(l + r) + multiset{x}
  {
    assert multiset(l + ([x] + r)) == multiset(l) + (multiset{x} + multiset(r));
  }

  lemma Cancel(a: multiset<real>, b: multiset<real>, x: real)
    requires a + multiset{x} == b + multiset{x}
    ensures a == b
  {
    assert (a + multiset{x}) - multiset{x} == a && (b + multiset{x}) - multiset{x} == b;
  }

  /** However the same samples were split, ordered and merged, every percentile is the same. */
  lemma SplitIrrelevant(reports: seq<seq<real>>, other: seq<seq<real>>, q: real)
    requires multiset(Concat(reports)) == multiset(Concat(other))
    ensures Merged(reports) == Merged(other) && PercentileOf(Merged(reports), q) == PercentileOf(Merged(other), q)
  {
    hide Tally;
    MergedIsConcat(reports);
    MergedIsConcat(other);
    forall i: nat | i < BUCKET_COUNT ensures Tally(Concat(reports), i) == Tally(Concat(other), i) {
      TallyPermutes(Concat(reports), Concat(other), i);
    }
  }

  // ----- the reported value itself

  /** Where bucket i begins and ends: the bounds, 0 below them and twice the last one above. */
  function Edges(i: nat): (real, real)
    requires i <= 16
  {
    var bounds :=
      [0.0, 0.25, 0.5, 1.0, 2.0, 5.0, 10.0, 25.0, 50.0, 100.0, 250.0, 500.0, 1000.0, 2500.0, 5000.0, 10000.0, 30000.0,
       60000.0];
    (bounds[i], bounds[i + 1])
  }

  /** How many samples are at or below the end of bucket i. */
  function UpTo(samples: seq<real>, i: nat): nat
    requires i <= 16
  {
    if i == 16 then |samples| else AtMost(samples, Edges(i).1)
  }

  function UpToPrevious(samples: seq<real>, i: nat): nat
    requires i <= 16
  {
    if i == 0 then 0 else UpTo(samples, i - 1)
  }

  /** `v` is the thousandth nearest to `x`, the higher of two. */
  predicate Nearest(v: real, x: real) {
    (v * 1000.0).Floor as real == v * 1000.0 && v - 0.0005 <= x < v + 0.0005
  }

  /** Nearest to the point that divides `low..high` as `wanted` divides `there`. */
  ghost predicate Interpolated(v: real, low: real, high: real, wanted: real, there: real) {
    exists x: real :: Nearest(v, x) && (x - low) * there == (high - low) * wanted
  }

  lemma EarlierIsUpTo(samples: seq<real>, i: nat)
    requires i <= 16
    ensures Earlier(samples, i + 1) == UpTo(samples, i)
    ensures Earlier(samples, i) == UpToPrevious(samples, i)
  {
    hide AtMost;
    if i < 16 { EarlierIsAtMost(samples, i); } else { EarlierAll(samples); }
    if i == 0 { NoneEarlier(samples); } else { EarlierIsAtMost(samples, i - 1); }
  }

  lemma {:induction false} EarlierIsAtMost(samples: seq<real>, i: nat)
    requires i < 16
    ensures Earlier(samples, i + 1) == AtMost(samples, BoundsMs[i])
  {
    hide IndexOf;
    if samples != [] {
      var y := samples[|samples| - 1];
      EarlierIsAtMost(samples[..|samples| - 1], i);
      IndexPlaces(y);
      if IndexOf(y) <= i {
        if IndexOf(y) < i { BoundsRise(IndexOf(y), i); }
      } else {
        BoundsRise(i, IndexOf(y) - 1);
      }
    }
  }

  lemma RoundNearest(x: real)
    ensures Nearest(RoundMs(x), x)
  {
    var n := (x * 1000.0 + 0.5).Floor;
    assert RoundMs(x) == n as real / 1000.0;
  }

  /**
   The value lies in its bucket as far from the lower end, of the bucket's width, as the samples
   still wanted there are of the bucket's samples; to the nearest thousandth.
   */
  lemma PercentileInterpolates(samples: seq<real>, q: real, i: nat)
    requires samples != [] && i <= 16
    requires (UpToPrevious(samples, i) as real) < q * |samples| as real <= UpTo(samples, i) as real
    ensures PercentileOf(Histogram(samples), q).Some?
    ensures var before := UpToPrevious(samples, i);
            Interpolated(PercentileOf(Histogram(samples), q).value, Edges(i).0, Edges(i).1,
                         q * |samples| as real - before as real, (UpTo(samples, i) - before) as real)
  {
    hide IndexOf, Histogram, AtMost, Interpolated, ValueAt, Before;
    var b := Histogram(samples);
    HistogramTotal(samples);
    EarlierSums(samples, i);
    EarlierSums(samples, i + 1);
    EarlierIsUpTo(samples, i);
    var target := Target(q, Sum(b));
    assert Before(b, i + 1) == Before(b, i) + Get(b, i) by { BeforeNext(b, i); }
    hide Target, UpTo, UpToPrevious, Edges, Sum, Earlier, Get;
    assert Reached(b, target, i);
    StopIs(b, target, i, 0);
    ValueShape(b, target, i);
  }

  lemma BeforeNext(b: Buckets, i: nat)
    ensures Before(b, i + 1) == Before(b, i) + Get(b, i)
  {
  }

  lemma ValueShape(b: Buckets, target: real, i: nat)
    requires i <= 16 && Get(b, i) > 0
    ensures Interpolated(ValueAt(b, target, i), Edges(i).0, Edges(i).1, target - Before(b, i) as real,
                         Get(b, i) as real)
  {
    hide RoundMs, Nearest, Before, Get, Share, Interpolated;
    assert Low(i) == Edges(i).0 && High(i) == Edges(i).1;
    hide Low, High, Edges;
    var x := Between(Low(i), High(i), Share(target, Before(b, i), Get(b, i)));
    RoundNearest(x);
    BetweenLess(Low(i), High(i), Share(target, Before(b, i), Get(b, i)));
    ShareTimes(target, Before(b, i), Get(b, i), High(i) - Low(i));
    hide Between;
    var there, wanted := Get(b, i) as real, target - Before(b, i) as real;
    FoundBetween(RoundMs(x), Edges(i).0, Edges(i).1, wanted, there, x);
    assert ValueAt(b, target, i) == RoundMs(x);
  }

  lemma FoundBetween(v: real, low: real, high: real, wanted: real, there: real, x: real)
    requires Nearest(v, x) && (x - low) * there == (high - low) * wanted
    ensures Interpolated(v, low, high, wanted, there)
  {
    hide Nearest;
  }

  lemma BetweenLess(low: real, high: real, within: real)
    ensures Between(low, high, within) - low == (high - low) * within
  {
  }

  lemma ShareTimes(target: real, cumulative: nat, count: nat, width: real)
    requires count > 0
    ensures (width * Share(target, cumulative, count)) * count as real == width * (target - cumulative as real)
  {
    Undivided(target - cumulative as real, count as real, width);
  }

  lemma Undivided(a: real, b: real, c: real)
    requires b != 0.0
    ensures (c * (a / b)) * b == c * a
  {
    assert (a / b) * b == a;
  }

  // ----- adding rows

  /**
   Adding is place by place, and a row of fifteen is one whose first three buckets were one: what it
   counted up to each of its bounds is still counted up to the same bound.
   */
  lemma LegacyKept(into: Buckets, from: Buckets, i: nat)
    requires |from| == 15 && |into| <= 17 && i < 15
    ensures Before(Added(into, from), i + 3) == Before(into, i + 3) + Before(from, i + 1)
  {
    hide Before;
    AddedBefore(into, from, i + 3);
    ShiftedBefore(from, i + 1);
  }

  lemma {:induction false} AddedBefore(into: Buckets, from: Buckets, n: nat)
    requires n <= 17
    ensures Before(Added(into, from), n) == Before(into, n) + Before(Widened(from), n)
  {
    if n > 0 { AddedBefore(into, from, n - 1); }
  }

  lemma {:induction false} ShiftedBefore(from: Buckets, n: nat)
    requires |from| == 15 && n <= 15
    ensures Before(Widened(from), n + 2) == Before(from, n)
  {
    if n > 0 {
      ShiftedBefore(from, n - 1);
    } else {
      assert Widened(from)[0] == 0 && Widened(from)[1] == 0;
      assert Before(Widened(from), 1) == 0;
    }
  }

  /** Rows of any other length are added as they are. */
  lemma RowsAdded(into: Buckets, from: Buckets, n: nat)
    requires |from| != 15 && n <= 17
    ensures Before(Added(into, from), n) == Before(into, n) + Before(from, n)
  {
    hide Before;
    AddedBefore(into, from, n);
  }
}
