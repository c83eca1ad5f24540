/** The latency histogram: fixed-width buckets against the exact order statistics of the samples. */
module LatencyHistograms {
  import opened Types
  import opened Arithmetic

  /** The 64-bit range latencies are recorded in. */
  const INT64_MIN := -0x8000_0000_0000_0000
  const INT64_MAX := 0x7fff_ffff_ffff_ffff
  type Nanos = x: int | INT64_MIN <= x <= INT64_MAX

  // ---------- Order statistics ----------

  ghost predicate Ascending(s: seq<int>) {
    forall i, j | 0 <= i < j < |s| :: s[i] <= s[j]
  }

  ghost function InsertSorted(s: seq<int>, x: int): (r: seq<int>) {
    var n := |s| - 1;
    if n < 0 || s[n] <= x then s + [x] else InsertSorted(s[..n], x) + [s[n]]
  }

  lemma {:induction false} InsertKeepsElements(s: seq<int>, x: int)
    ensures multiset(InsertSorted(s, x)) == multiset(s) + multiset{x}
  {
    var n := |s| - 1;
    if n >= 0 && s[n] > x {
      InsertKeepsElements(s[..n], x);
      assert s == s[..n] + [s[n]];
    }
  }

  lemma {:induction false} InsertKeepsAscending(s: seq<int>, x: int)
    requires Ascending(s)
    ensures Ascending(InsertSorted(s, x))
  {
    var n := |s| - 1;
    if n >= 0 && s[n] > x {
      var r := InsertSorted(s[..n], x);
      InsertKeepsAscending(s[..n], x);
      InsertKeepsElements(s[..n], x);
      forall i | 0 <= i < |r| ensures r[i] <= s[n] {
        assert r[i] in multiset(r);
        assert r[i] == x || r[i] in s[..n];
      }
    }
  }

  ghost function Sort(s: seq<int>): (r: seq<int>)
    ensures Ascending(r) && multiset(r) == multiset(s) && |r| == |s|
  {
    if |s| == 0 then []
    else
      var n := |s| - 1;
      InsertKeepsElements(Sort(s[..n]), s[n]);
      InsertKeepsAscending(Sort(s[..n]), s[n]);
      assert s == s[..n] + [s[n]];
      var r := InsertSorted(Sort(s[..n]), s[n]);
      assert |r| == |multiset(r)| && |s| == |multiset(s)|;
      r
  }

  /** The k-th smallest sample, counting from one. */
  ghost function KthSmallest(s: seq<int>, k: nat): int
    requires 1 <= k <= |s|
  {
    Sort(s)[k - 1]
  }

  ghost function Count(s: seq<int>, p: int -> bool): (c: nat)
    ensures c <= |s|
  {
    if |s| == 0 then 0 else Count(s[..|s| - 1], p) + if p(s[|s| - 1]) then 1 else 0
  }

  ghost predicate DownClosed(p: int -> bool) {
    forall x, y | x <= y :: p(y) ==> p(x)
  }

  lemma CountAppend(s: seq<int>, x: int, p: int -> bool)
    ensures Count(s + [x], p) == Count(s, p) + if p(x) then 1 else 0
  {
    assert (s + [x])[..|s|] == s;
  }

  lemma {:induction false} CountInsert(s: seq<int>, x: int, p: int -> bool)
    ensures Count(InsertSorted(s, x), p) == Count(s, p) + if p(x) then 1 else 0
  {
    var n := |s| - 1;
    if n < 0 || s[n] <= x {
      CountAppend(s, x, p);
    } else {
      CountInsert(s[..n], x, p);
      CountAppend(InsertSorted(s[..n], x), s[n], p);
    }
  }

  lemma {:induction false} SortKeepsCount(s: seq<int>, p: int -> bool)
    ensures Count(Sort(s), p) == Count(s, p)
  {
    if |s| > 0 {
      var n := |s| - 1;
      SortKeepsCount(s[..n], p);
      CountInsert(Sort(s[..n]), s[n], p);
    }
  }

  lemma {:induction false} AllCounted(s: seq<int>, p: int -> bool)
    requires Ascending(s) && DownClosed(p) && (|s| > 0 ==> p(s[|s| - 1]))
    ensures Count(s, p) == |s|
  {
    if |s| > 1 {
      assert p(s[|s| - 2]);
    }
    if |s| > 0 {
      AllCounted(s[..|s| - 1], p);
    }
  }

  lemma {:induction false} CountOfAscending(s: seq<int>, p: int -> bool, k: nat)
    requires Ascending(s) && DownClosed(p) && k < |s|
    ensures p(s[k]) <==> k < Count(s, p)
  {
    var n := |s| - 1;
    if k < n {
      CountOfAscending(s[..n], p, k);
      assert p(s[n]) ==> p(s[k]);
    } else if p(s[n]) {
      AllCounted(s, p);
    }
  }

  /** The k-th smallest sample has a downward closed property exactly when at least k samples have it. */
  lemma KthSmallestHas(s: seq<int>, k: nat, p: int -> bool)
    requires 1 <= k <= |s| && DownClosed(p)
    ensures p(KthSmallest(s, k)) <==> k <= Count(s, p)
  {
    hide Sort, Count, Ascending, DownClosed;
    SortKeepsCount(s, p);
    CountOfAscending(Sort(s), p, k - 1);
  }

  /** Fewer than k samples lie strictly below the k-th smallest, at least k at or below it, and no other
      value is like that. */
  lemma KthSmallestIff(s: seq<int>, k: nat, x: int)
    requires 1 <= k <= |s|
    ensures x == KthSmallest(s, k) <==> Count(s, y => y < x) < k <= Count(s, y => y <= x)
  {
    var below, upTo := (y: int) => y < x, (y: int) => y <= x;
    KthSmallestHas(s, k, below);
    KthSmallestHas(s, k, upTo);
    assert below(KthSmallest(s, k)) <==> KthSmallest(s, k) < x;
    assert upTo(KthSmallest(s, k)) <==> KthSmallest(s, k) <= x;
  }

  // ---------- Buckets ----------

  function BucketOf(x: int, buckets: int, width: int): (b: int)
    requires buckets > 0 && width > 0
    ensures 0 <= b < buckets
  {
    var clamped := if x < 0 then 0 else x;
    if clamped / width >= buckets then buckets - 1 else clamped / width
  }

  lemma BucketMonotone(x: int, y: int, buckets: int, width: int)
    requires x <= y && buckets > 0 && width > 0
    ensures BucketOf(x, buckets, width) <= BucketOf(y, buckets, width)
  {
    QuotientMonotone(if x < 0 then 0 else x, if y < 0 then 0 else y, width);
  }

  function Below(i: int, buckets: int, width: int): int -> bool
    requires buckets > 0 && width > 0
  {
    x => BucketOf(x, buckets, width) < i
  }

  function In(i: int, buckets: int, width: int): int -> bool
    requires buckets > 0 && width > 0
  {
    x => BucketOf(x, buckets, width) == i
  }

  lemma BelowDownClosed(i: int, buckets: int, width: int)
    requires buckets > 0 && width > 0
    ensures DownClosed(Below(i, buckets, width))
  {
    hide BucketOf;
    forall x, y | x <= y ensures Below(i, buckets, width)(y) ==> Below(i, buckets, width)(x) {
      BucketMonotone(x, y, buckets, width);
    }
  }

  lemma {:induction false} BelowNext(s: seq<int>, i: int, buckets: int, width: int)
    requires buckets > 0 && width > 0
    ensures Count(s, Below(i + 1, buckets, width)) ==
            Count(s, Below(i, buckets, width)) + Count(s, In(i, buckets, width))
  {
    if |s| > 0 {
      BelowNext(s[..|s| - 1], i, buckets, width);
    }
  }

  lemma {:induction false} NoneBelow(s: seq<int>, buckets: int, width: int)
    requires buckets > 0 && width > 0
    ensures Count(s, Below(0, buckets, width)) == 0 && Count(s, Below(buckets, buckets, width)) == |s|
  {
    if |s| > 0 {
      NoneBelow(s[..|s| - 1], buckets, width);
    }
  }

  /** The first bucket at which the cumulative count reaches k is the bucket of the k-th smallest sample. */
  lemma FirstReachingIsKth(s: seq<int>, k: nat, i: int, buckets: int, width: int)
    requires buckets > 0 && width > 0 && 1 <= k <= |s|
    ensures Count(s, Below(i, buckets, width)) < k <= Count(s, Below(i + 1, buckets, width)) <==>
            i == BucketOf(KthSmallest(s, k), buckets, width)
  {
    hide BucketOf;
    BelowDownClosed(i, buckets, width);
    BelowDownClosed(i + 1, buckets, width);
    KthSmallestHas(s, k, Below(i, buckets, width));
    KthSmallestHas(s, k, Below(i + 1, buckets, width));
  }

  // ---------- Percentiles ----------

  function Ceil(x: real): (c: int)
    ensures c as real - 1.0 < x <= c as real
  {
    -((-x).Floor)
  }

  /** The rank a percentile asks for: the least one that covers n * p samples, but at least one. */
  function Rank(n: nat, p: real): (k: nat)
    requires p >= 0.0
    ensures k >= 1 && k as real >= n as real * p
    ensures k > 1 ==> (k - 1) as real < n as real * p
  {
    var target := Ceil(n as real * p);
    if target <= 0 then 1 else target
  }

  lemma RankMonotone(n: nat, p: real, q: real)
    requires 0.0 <= p <= q
    ensures Rank(n, p) <= Rank(n, q)
  {
    assert n as real * p <= n as real * q;
    assert Ceil(n as real * p) <= Ceil(n as real * q);
  }

  /** The rank stays among the samples exactly for p up to one. */
  lemma RankFitsIff(n: nat, p: real)
    requires p >= 0.0 && n > 0
    ensures Rank(n, p) <= n <==> p <= 1.0
  {
    if p <= 1.0 {
      assert n as real * p <= n as real;
    } else {
      assert n as real * p > n as real;
    }
  }

  /** What a percentile is: the midpoint of the bucket of the nearest-rank sample. */
  ghost function PercentileOf(s: seq<int>, p: real, buckets: int, width: int): int
    requires buckets > 0 && width > 0 && p >= 0.0
  {
    if |s| == 0 then 0
    else if Rank(|s|, p) > |s| then buckets * width
    else BucketOf(KthSmallest(s, Rank(|s|, p)), buckets, width) * width + width / 2
  }

  /** Samples outside the histogram's range count as its ends. */
  function Clamped(x: int, limit: int): int {
    if x < 0 then 0 else if x >= limit then limit - 1 else x
  }

  lemma Midpoint(x: int, c: int, start: int, low: int, limit: int, width: int)
    requires width > 0 && c == (if x < 0 then 0 else x) && start <= c < start + width && limit >= width
    requires 0 <= low == if start >= limit then limit - width else start
    requires start < limit ==> start + width <= limit
    ensures Abs(low + width / 2 - Clamped(x, limit)) <= width / 2 && 0 <= low + width / 2 < limit
  {
  }

  lemma MidpointIsNear(x: int, buckets: int, width: int)
    requires buckets > 0 && width > 0
    ensures Abs(BucketOf(x, buckets, width) * width + width / 2 - Clamped(x, buckets * width)) <= width / 2
    ensures 0 <= BucketOf(x, buckets, width) * width + width / 2 < buckets * width
  {
    var c := if x < 0 then 0 else x;
    var q, b := c / width, BucketOf(x, buckets, width);
    Quotient(c, width);
    Products(q, buckets, width);
    Products(buckets, q, width);
    Products(0, b, width);
    assert b == if q >= buckets then buckets - 1 else q;
    assert (buckets - 1) * width == buckets * width - width;
    Midpoint(x, c, q * width, b * width, buckets * width, width);
  }

  /** For p in [0, 1] a percentile is within half a bucket of the nearest-rank sample, clamped to the range;
      in particular of the sample itself when that lies in the range. */
  lemma PercentileIsNear(s: seq<int>, p: real, buckets: int, width: int)
    requires buckets > 0 && width > 0 && 0.0 <= p <= 1.0 && |s| > 0
    ensures Rank(|s|, p) <= |s|
    ensures var x, r := KthSmallest(s, Rank(|s|, p)), PercentileOf(s, p, buckets, width);
            && Abs(r - Clamped(x, buckets * width)) <= width / 2
            && (0 <= x < buckets * width ==> Abs(r - x) <= width / 2)
  {
    hide BucketOf, Rank;
    RankFitsIff(|s|, p);
    MidpointIsNear(KthSmallest(s, Rank(|s|, p)), buckets, width);
  }

  /** The value past the last bucket is returned exactly for p above one. */
  lemma FallsThroughIff(s: seq<int>, p: real, buckets: int, width: int)
    requires buckets > 0 && width > 0 && p >= 0.0 && |s| > 0
    ensures PercentileOf(s, p, buckets, width) == buckets * width <==> p > 1.0
  {
    hide BucketOf, Rank, Clamped;
    RankFitsIff(|s|, p);
    if p <= 1.0 {
      MidpointIsNear(KthSmallest(s, Rank(|s|, p)), buckets, width);
    }
  }

  lemma PercentileMonotone(s: seq<int>, p: real, q: real, buckets: int, width: int)
    requires buckets > 0 && width > 0 && 0.0 <= p <= q
    ensures PercentileOf(s, p, buckets, width) <= PercentileOf(s, q, buckets, width)
  {
    hide BucketOf, Rank, Clamped;
    RankMonotone(|s|, p, q);
    var k, l := Rank(|s|, p), Rank(|s|, q);
    if |s| > 0 && l <= |s| {
      var x, y := KthSmallest(s, k), KthSmallest(s, l);
      assert x <= y;
      BucketMonotone(x, y, buckets, width);
      assert BucketOf(x, buckets, width) * width <= BucketOf(y, buckets, width) * width;
    } else if |s| > 0 && k <= |s| {
      MidpointIsNear(KthSmallest(s, k), buckets, width);
    }
  }

  // ---------- Totals ----------

  ghost function Total(s: seq<int>): int {
    if |s| == 0 then 0 else Total(s[..|s| - 1]) + s[|s| - 1]
  }

  ghost function Least(s: seq<int>): int {
    if |s| == 0 then INT64_MAX else Types.Min(Least(s[..|s| - 1]), s[|s| - 1])
  }

  ghost function Greatest(s: seq<int>): int {
    if |s| == 0 then INT64_MIN
    else if s[|s| - 1] > Greatest(s[..|s| - 1]) then s[|s| - 1] else Greatest(s[..|s| - 1])
  }

  /** The extremes are samples, and every sample lies between them. */
  lemma {:induction false} ExtremesAre(s: seq<int>)
    requires |s| > 0 && forall i | 0 <= i < |s| :: INT64_MIN <= s[i] <= INT64_MAX
    ensures Least(s) in s && Greatest(s) in s
    ensures forall i | 0 <= i < |s| :: Least(s) <= s[i] <= Greatest(s)
  {
    var n := |s| - 1;
    if n > 0 {
      ExtremesAre(s[..n]);
      assert s == s[..n] + [s[n]];
    }
  }

  lemma BoundsGrow(n: nat, total: int, x: int, lo: int, lo': int, hi': int, hi: int)
    requires n * lo <= total <= n * hi && lo' <= lo && lo' <= x <= hi' && hi <= hi'
    ensures (n + 1) * lo' <= total + x <= (n + 1) * hi'
  {
    Products(lo', lo, n);
    Products(hi, hi', n);
    assert (n + 1) * lo' == lo' * n + lo';
    assert (n + 1) * hi' == hi' * n + hi';
  }

  lemma {:induction false} TotalBounds(s: seq<int>)
    ensures |s| * Least(s) <= Total(s) <= |s| * Greatest(s)
  {
    if |s| > 0 {
      var n := |s| - 1;
      TotalBounds(s[..n]);
      BoundsGrow(n, Total(s[..n]), s[n], Least(s[..n]), Least(s), Greatest(s), Greatest(s[..n]));
    }
  }

  /** The mean, cut towards zero, lies between the least and the greatest sample. */
  lemma MeanBetween(s: seq<int>)
    requires |s| > 0
    ensures Least(s) <= TruncDiv(Total(s), |s|) <= Greatest(s)
  {
    hide Least, Greatest, Total;
    TotalBounds(s);
    TruncatedBetween(Total(s), |s|, Least(s), Greatest(s));
  }

  /** One more sample moves the totals and exactly one bucket count. */
  lemma Appended(s: seq<int>, x: int, buckets: int, width: int)
    requires buckets > 0 && width > 0
    ensures var s' := s + [x];
            && Total(s') == Total(s) + x
            && Least(s') == (if x < Least(s) then x else Least(s))
            && Greatest(s') == (if x > Greatest(s) then x else Greatest(s))
            && forall i :: Count(s', In(i, buckets, width)) ==
                           Count(s, In(i, buckets, width)) + if BucketOf(x, buckets, width) == i then 1 else 0
  {
    hide BucketOf, Count;
    assert (s + [x])[..|s|] == s;
    forall i
      ensures Count(s + [x], In(i, buckets, width)) ==
              Count(s, In(i, buckets, width)) + if BucketOf(x, buckets, width) == i then 1 else 0
    {
      CountAppend(s, x, In(i, buckets, width));
    }
  }

  // ---------- The histogram ----------

  datatype LatencyStats = LatencyStats(
    min: int, max: int, mean: int, median: int,
    p50: int, p90: int, p95: int, p99: int, p999: int, samples: nat)

  /** The integer part of a real, as a conversion to an integer type cuts it. */
  function Truncated(x: real): int {
    if x >= 0.0 then x.Floor else -((-x).Floor)
  }

  lemma ProductAsReal(q: int, n: int)
    ensures (q * n) as real == q as real * n as real
    ensures (q * n + n) as real == (q as real + 1.0) * n as real
  {
  }

  lemma RealQuotient(a: real, n: real)
    requires n > 0.0
    ensures a / n * n == a
  {
  }

  lemma Cancels(x: real, y: real, n: real)
    requires n > 0.0
    ensures x * n <= y * n <==> x <= y
  {
    if x <= y {
      assert (y - x) * n >= 0.0;
    } else {
      assert (x - y) * n > 0.0;
    }
  }

  lemma FloorIs(x: real, q: int, a: int, n: int)
    requires n > 0 && x * n as real == a as real
    requires q as real * n as real <= a as real < (q as real + 1.0) * n as real
    ensures x.Floor == q
  {
    Cancels(q as real, x, n as real);
    Cancels(q as real + 1.0, x, n as real);
  }

  lemma FloorQuotient(a: nat, n: nat)
    requires n > 0
    ensures (a as real / n as real).Floor == a / n
  {
    var q := a / n;
    Quotient(a, n);
    ProductAsReal(q, n);
    RealQuotient(a as real, n as real);
    FloorIs(a as real / n as real, q, a, n);
  }

  lemma TruncatedQuotient(total: int, n: nat)
    requires n > 0
    ensures Truncated(total as real / n as real) == TruncDiv(total, n)
  {
    FloorQuotient(Abs(total), n);
    assert (-total) as real / n as real == -(total as real / n as real);
  }

  class LatencyHistogram {
    const numBuckets: int
    const width: int
    const buckets: array<nat>
    var totalSamples: nat
    var sum: real
    var min: int
    var max: int
    ghost var samples: seq<int>

    ghost predicate Valid()
      reads this, buckets
    {
      && numBuckets > 0 && width > 0 && buckets.Length == numBuckets
      && totalSamples == |samples| && sum == Total(samples) as real
      && min == Least(samples) && max == Greatest(samples)
      && forall i | 0 <= i < numBuckets :: buckets[i] == Count(samples, In(i, numBuckets, width))
    }

    constructor (numBuckets: int, width: int)
      requires numBuckets > 0 && width > 0
      ensures Valid() && fresh(buckets) && samples == []
      ensures this.numBuckets == numBuckets && this.width == width
    {
      this.numBuckets, this.width := numBuckets, width;
      buckets := new nat[numBuckets](_ => 0);
      totalSamples, sum, min, max := 0, 0.0, INT64_MAX, INT64_MIN;
      samples := [];
    }

    method Reset()
      requires Valid()
      modifies this, buckets
      ensures Valid() && samples == []
    {
      for i := 0 to numBuckets
        invariant forall j | 0 <= j < i :: buckets[j] == 0
      {
        buckets[i] := 0;
      }
      totalSamples, sum, min, max := 0, 0.0, INT64_MAX, INT64_MIN;
      samples := [];
    }

    method Record(latency: Nanos)
      requires Valid()
      modifies this, buckets
      ensures Valid() && samples == old(samples) + [latency]
    {
      hide BucketOf, Count, In, Total, Least, Greatest;
      totalSamples := totalSamples + 1;
      sum := sum + latency as real;
      if latency < min { min := latency; }
      if latency > max { max := latency; }
      var bucket := Bucket(latency);
      buckets[bucket] := buckets[bucket] + 1;
      Appended(samples, latency, numBuckets, width);
      samples := samples + [latency];
    }

    /** Where a latency is counted: negative ones first, those past the end last. */
    method Bucket(latency: Nanos) returns (bucket: int)
      requires numBuckets > 0 && width > 0
      ensures bucket == BucketOf(latency, numBuckets, width)
    {
      var clamped := latency as int;
      if clamped < 0 { clamped := 0; }
      bucket := clamped / width;
      if bucket >= numBuckets { bucket := numBuckets - 1; }
    }

    method Percentile(p: real) returns (r: int)
      requires Valid() && p >= 0.0
      ensures r == PercentileOf(samples, p, numBuckets, width)
    {
      hide BucketOf, Sort, KthSmallest, Count, In, Below, Total, Least, Greatest;
      if totalSamples == 0 { return 0; }
      var target := Ceil(totalSamples as real * p);
      if target <= 0 { target := 1; }
      assert target == Rank(|samples|, p);
      var cumulative := 0;
      NoneBelow(samples, numBuckets, width);
      for i := 0 to numBuckets
        invariant cumulative == Count(samples, Below(i, numBuckets, width)) < target
      {
        BelowNext(samples, i, numBuckets, width);
        cumulative := cumulative + buckets[i];
        if cumulative >= target {
          FirstReachingIsKth(samples, target, i, numBuckets, width);
          return i * width + width / 2;
        }
      }
      return numBuckets * width;
    }

    /** The summary: percentiles never decrease from one to the next, and the mean lies between the extremes. */
    method Stats() returns (s: LatencyStats)
      requires Valid()
      ensures s.samples == |samples| && s.min == Least(samples) && s.max == Greatest(samples)
      ensures s.mean == if |samples| > 0 then TruncDiv(Total(samples), |samples|) else 0
      ensures s.p50 == PercentileOf(samples, 0.50, numBuckets, width) == s.median
      ensures s.p90 == PercentileOf(samples, 0.90, numBuckets, width)
      ensures s.p95 == PercentileOf(samples, 0.95, numBuckets, width)
      ensures s.p99 == PercentileOf(samples, 0.99, numBuckets, width)
      ensures s.p999 == PercentileOf(samples, 0.999, numBuckets, width)
      ensures s.p50 <= s.p90 <= s.p95 <= s.p99 <= s.p999
      ensures |samples| > 0 ==> s.min <= s.mean <= s.max
    {
      hide PercentileOf, TruncDiv, Total, Least, Greatest;
      var mean := 0;
      if totalSamples > 0 {
        mean := Truncated(sum / totalSamples as real);
        TruncatedQuotient(Total(samples), totalSamples);
        MeanBetween(samples);
      }
      var p50 := Percentile(0.50);
      var p90 := Percentile(0.90);
      var p95 := Percentile(0.95);
      var p99 := Percentile(0.99);
      var p999 := Percentile(0.999);
      PercentileMonotone(samples, 0.50, 0.90, numBuckets, width);
      PercentileMonotone(samples, 0.90, 0.95, numBuckets, width);
      PercentileMonotone(samples, 0.95, 0.99, numBuckets, width);
      PercentileMonotone(samples, 0.99, 0.999, numBuckets, width);
      s := LatencyStats(min, max, mean, p50, p50, p90, p95, p99, p999, totalSamples);
    }
  }
}
