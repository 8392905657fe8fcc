/**
  The latency histogram, as an exact distribution: an ascending sequence of
  integer millisecond values (the multiset of recorded samples) queried by
  nearest-rank percentiles. It stands in for the bucketed HDR histogram the
  statistics collector builds (packages/backend/src/stats/histogram.ts).
 */
module Histogram {
  import opened Types

  predicate Sorted(s: seq<int>) {
    forall i, j :: 0 <= i < j < |s| ==> s[i] <= s[j]
  }

  /** Records one sample, keeping the samples in ascending order. */
  function Insert(s: seq<int>, x: int): (r: seq<int>)
    requires Sorted(s)
    ensures |r| == |s| + 1
    ensures multiset(r) == multiset(s) + multiset{x}
    ensures Sorted(r)
    ensures r[0] == (if |s| == 0 || x <= s[0] then x else s[0])
  {
    if |s| == 0 || x <= s[0] then
      SortedCons(x, s);
      [x] + s
    else
      SortedTail(s);
      var rest := Insert(s[1..], x);
      assert s == [s[0]] + s[1..];
      SortedCons(s[0], rest);
      assert multiset([s[0]] + rest) == multiset{s[0]} + multiset(rest);
      [s[0]] + rest
  }

  lemma SortedTail(s: seq<int>)
    requires Sorted(s) && |s| > 0
    ensures Sorted(s[1..])
  {
    forall i, j | 0 <= i < j < |s| - 1
      ensures s[1..][i] <= s[1..][j]
    {
      assert s[1..][i] == s[i + 1] && s[1..][j] == s[j + 1];
    }
  }

  lemma SortedCons(x: int, s: seq<int>)
    requires Sorted(s) && (|s| == 0 || x <= s[0])
    ensures Sorted([x] + s)
  {
    forall i, j | 0 <= i < j < |s| + 1
      ensures ([x] + s)[i] <= ([x] + s)[j]
    {
      if i > 0 {
        assert ([x] + s)[i] == s[i - 1];
      }
    }
  }

  /** The histogram holding exactly the given samples. */
  function FromValues(vs: seq<int>): (r: seq<int>)
    ensures Sorted(r)
    ensures multiset(r) == multiset(vs)
  {
    if |vs| == 0 then []
    else
      assert vs == vs[..|vs| - 1] + [vs[|vs| - 1]];
      Insert(FromValues(vs[..|vs| - 1]), vs[|vs| - 1])
  }

  /** Position of the nearest-rank sample for percentile `p` among `n` samples. */
  function RankIndex(p: real, n: nat): (k: nat)
    requires n > 0 && 0.0 < p <= 100.0
    ensures k < n
    ensures (k + 1) as real * 100.0 >= p * n as real
    ensures k as real * 100.0 < p * n as real
  {
    var t := p * n as real;
    ProductInRange(p, n as real);
    var x := t / 100.0;
    assert 0.0 < x <= n as real;
    Ceil(x) - 1
  }

  lemma ProductInRange(p: real, m: real)
    requires 0.0 < p <= 100.0 && m > 0.0
    ensures 0.0 < p * m <= 100.0 * m
  {
    assert (100.0 - p) * m >= 0.0;
  }

  lemma RankIndexMonotonic(p: real, q: real, n: nat)
    requires n > 0 && 0.0 < p <= q <= 100.0
    ensures RankIndex(p, n) <= RankIndex(q, n)
  {
    var x := p * n as real / 100.0;
    var y := q * n as real / 100.0;
    assert x <= y by {
      ScaleMonotonic(p, q, n as real);
    }
    CeilMonotonic(x, y);
  }

  lemma CeilMonotonic(x: real, y: real)
    requires x <= y
    ensures Ceil(x) <= Ceil(y)
  {
  }

  lemma ScaleMonotonic(a: real, b: real, c: real)
    requires a <= b && 0.0 <= c
    ensures a * c <= b * c
  {
  }

  /** Number of samples at most `v`. */
  function CountAtMost(s: seq<int>, v: int): nat {
    if |s| == 0 then 0 else (if s[0] <= v then 1 else 0) + CountAtMost(s[1..], v)
  }

  /** Number of samples strictly below `v`. */
  function CountBelow(s: seq<int>, v: int): nat {
    if |s| == 0 then 0 else (if s[0] < v then 1 else 0) + CountBelow(s[1..], v)
  }

  lemma {:induction false} CountAtMostFromIndex(s: seq<int>, i: nat)
    requires Sorted(s) && i < |s|
    ensures CountAtMost(s, s[i]) >= i + 1
  {
    if i > 0 {
      CountAtMostFromIndex(s[1..], i - 1);
      assert s[1..][i - 1] == s[i];
    }
  }

  lemma {:induction false} CountBelowAtIndex(s: seq<int>, i: nat)
    requires Sorted(s) && i < |s|
    ensures CountBelow(s, s[i]) <= i
  {
    if i == 0 {
      NoneBelow(s, s[0]);
    } else {
      CountBelowAtIndex(s[1..], i - 1);
      assert s[1..][i - 1] == s[i];
    }
  }

  lemma {:induction false} NoneBelow(s: seq<int>, v: int)
    requires forall k :: 0 <= k < |s| ==> v <= s[k]
    ensures CountBelow(s, v) == 0
  {
    if |s| > 0 {
      NoneBelow(s[1..], v);
    }
  }

  /**
    The value at percentile `p`, 0 for an empty histogram; for a non-empty one
    a recorded sample, between the smallest and the largest.
   */
  function ValueAtPercentile(s: seq<int>, p: real): (v: int)
    requires Sorted(s) && 0.0 < p <= 100.0
    ensures |s| == 0 ==> v == 0
    ensures |s| > 0 ==> v in multiset(s) && s[0] <= v <= s[|s| - 1]
  {
    if |s| == 0 then 0 else s[RankIndex(p, |s|)]
  }

  /**
    `v` is the nearest-rank p-th percentile of the samples `s`, in any order:
    at least p% of them are at most `v`, and fewer than p% are below it.
   */
  predicate NearestRank(s: seq<int>, p: real, v: int) {
    && CountAtMost(s, v) as real * 100.0 >= p * |s| as real
    && CountBelow(s, v) as real * 100.0 < p * |s| as real
  }

  /** The reported value is the nearest-rank p-th percentile. */
  lemma PercentileIsNearestRank(s: seq<int>, p: real)
    requires Sorted(s) && |s| > 0 && 0.0 < p <= 100.0
    ensures NearestRank(s, p, ValueAtPercentile(s, p))
  {
    var k := RankIndex(p, |s|);
    assert ValueAtPercentile(s, p) == s[k];
    NearestRankAt(s, k, p * |s| as real);
  }

  /** Fewer values are at most `v` than are below a larger `w`, or as many. */
  lemma {:induction false} CountAtMostBelow(s: seq<int>, v: int, w: int)
    requires v < w
    ensures CountAtMost(s, v) <= CountBelow(s, w)
  {
    if |s| > 0 {
      CountAtMostBelow(s[1..], v, w);
    }
  }

  /** At most one value is the nearest-rank p-th percentile of a collection of samples. */
  lemma NearestRankUnique(s: seq<int>, p: real, v: int, w: int)
    requires NearestRank(s, p, v) && NearestRank(s, p, w)
    ensures v == w
  {
    if v < w {
      CountAtMostBelow(s, v, w);
    } else if w < v {
      CountAtMostBelow(s, w, v);
    }
  }

  /** The sample at index `k` of an ascending sequence has at least k + 1 samples at most it and at most k below it. */
  lemma NearestRankAt(s: seq<int>, k: nat, target: real)
    requires Sorted(s) && k < |s|
    requires (k + 1) as real * 100.0 >= target && k as real * 100.0 < target
    ensures CountAtMost(s, s[k]) as real * 100.0 >= target
    ensures CountBelow(s, s[k]) as real * 100.0 < target
  {
    CountAtMostFromIndex(s, k);
    CountBelowAtIndex(s, k);
  }

  /** A higher percentile never reports a lower latency. */
  lemma PercentileMonotonic(s: seq<int>, p: real, q: real)
    requires Sorted(s) && 0.0 < p <= q <= 100.0
    ensures ValueAtPercentile(s, p) <= ValueAtPercentile(s, q)
  {
    if |s| > 0 {
      RankIndexMonotonic(p, q, |s|);
    }
  }

  /** In ascending order the first and last samples bound all others. */
  lemma SortedEnds(s: seq<int>)
    requires Sorted(s) && |s| > 0
    ensures forall k :: 0 <= k < |s| ==> s[0] <= s[k] <= s[|s| - 1]
  {
  }

  function Sum(s: seq<int>): int {
    if |s| == 0 then 0 else s[0] + Sum(s[1..])
  }

  /** The sum of `g` over the samples. */
  function SumOf(s: seq<int>, g: int -> int): int {
    if |s| == 0 then 0 else g(s[0]) + SumOf(s[1..], g)
  }

  lemma {:induction false} SumOfAppend(a: seq<int>, b: seq<int>, g: int -> int)
    ensures SumOf(a + b, g) == SumOf(a, g) + SumOf(b, g)
  {
    if |a| > 0 {
      SumOfAppend(a[1..], b, g);
      assert (a + b)[1..] == a[1..] + b;
    } else {
      assert a + b == b;
    }
  }

  /** A sum over the samples does not depend on their order. */
  lemma {:induction false} SumOfPermutation(a: seq<int>, b: seq<int>, g: int -> int)
    requires multiset(a) == multiset(b)
    ensures SumOf(a, g) == SumOf(b, g)
    decreases |a|
  {
    if |a| == 0 {
      assert |b| == |multiset(b)| == 0;
    } else {
      var x := a[0];
      assert x in multiset(b);
      var i :| 0 <= i < |b| && b[i] == x;
      var rest := b[..i] + b[i + 1..];
      assert b == b[..i] + [x] + b[i + 1..];
      assert multiset(b) == multiset(b[..i]) + multiset{x} + multiset(b[i + 1..]);
      assert multiset(rest) == multiset(b[..i]) + multiset(b[i + 1..]);
      assert a == [x] + a[1..];
      assert multiset(a) == multiset{x} + multiset(a[1..]);
      assert multiset(a[1..]) == multiset(a) - multiset{x};
      assert multiset(rest) == multiset(b) - multiset{x};
      SumOfPermutation(a[1..], rest, g);
      SumOfAppend(b[..i] + [x], b[i + 1..], g);
      SumOfAppend(b[..i], [x], g);
      SumOfAppend(b[..i], b[i + 1..], g);
      assert [x][1..] == [];
    }
  }

  function AtMostIndicator(v: int): int -> int {
    x => if x <= v then 1 else 0
  }

  function BelowIndicator(v: int): int -> int {
    x => if x < v then 1 else 0
  }

  function Identity(x: int): int {
    x
  }

  lemma {:induction false} CountsAreSums(s: seq<int>, v: int)
    ensures CountAtMost(s, v) == SumOf(s, AtMostIndicator(v))
    ensures CountBelow(s, v) == SumOf(s, BelowIndicator(v))
    ensures Sum(s) == SumOf(s, Identity)
  {
    if |s| > 0 {
      CountsAreSums(s[1..], v);
    }
  }

  /** Counts, totals and nearest ranks are properties of the multiset of samples, not of their order. */
  lemma PermutationInvariant(a: seq<int>, b: seq<int>, v: int)
    requires multiset(a) == multiset(b)
    ensures |a| == |b| && Sum(a) == Sum(b)
    ensures CountAtMost(a, v) == CountAtMost(b, v) && CountBelow(a, v) == CountBelow(b, v)
  {
    assert |a| == |multiset(a)| == |multiset(b)| == |b|;
    CountsAreSums(a, v);
    CountsAreSums(b, v);
    SumOfPermutation(a, b, AtMostIndicator(v));
    SumOfPermutation(a, b, BelowIndicator(v));
    SumOfPermutation(a, b, Identity);
  }

  /**
    `l` summarises the samples `s`, taken in any order: with no samples every
    field is 0; otherwise min and max are the smallest and the largest
    sample, the mean times the count is the total, and each percentile is the
    nearest-rank one.
   */
  predicate Describes(s: seq<int>, l: LatencySummary) {
    if |s| == 0 then l == LatencySummary(0, 0, 0.0, 0, 0, 0, 0, 0, 0)
    else Extremes(s, l.min, l.max) && l.mean == Mean(s) && Ranks(s, l)
  }

  /** `lo` and `hi` are the smallest and the largest sample. */
  predicate Extremes(s: seq<int>, lo: int, hi: int) {
    lo in s && hi in s && forall x :: x in s ==> lo <= x <= hi
  }

  /** The six percentiles of `l` are the nearest-rank ones of `s`. */
  predicate Ranks(s: seq<int>, l: LatencySummary) {
    && NearestRank(s, 50.0, l.p50) && NearestRank(s, 75.0, l.p75) && NearestRank(s, 90.0, l.p90)
    && NearestRank(s, 95.0, l.p95) && NearestRank(s, 99.0, l.p99) && NearestRank(s, 99.9, l.p999)
  }

  /** The samples determine their summary: two summaries of the same samples are equal. */
  lemma DescribesUnique(s: seq<int>, l: LatencySummary, l': LatencySummary)
    requires Describes(s, l) && Describes(s, l')
    ensures l == l'
  {
    if |s| > 0 {
      NearestRankUnique(s, 50.0, l.p50, l'.p50);
      NearestRankUnique(s, 75.0, l.p75, l'.p75);
      NearestRankUnique(s, 90.0, l.p90, l'.p90);
      NearestRankUnique(s, 95.0, l.p95, l'.p95);
      NearestRankUnique(s, 99.0, l.p99, l'.p99);
      NearestRankUnique(s, 99.9, l.p999, l'.p999);
    }
  }

  /** Reordering the samples does not change what describes them. */
  lemma DescribesPermutation(a: seq<int>, b: seq<int>, l: LatencySummary)
    requires multiset(a) == multiset(b)
    ensures Describes(a, l) <==> Describes(b, l)
  {
    if Describes(a, l) {
      DescribesTransfer(a, b, l);
    }
    if Describes(b, l) {
      DescribesTransfer(b, a, l);
    }
  }

  lemma DescribesTransfer(a: seq<int>, b: seq<int>, l: LatencySummary)
    requires multiset(a) == multiset(b) && Describes(a, l)
    ensures Describes(b, l)
  {
    PermutationInvariant(a, b, l.p50);
    if |a| > 0 {
      assert Mean(a) == Mean(b);
      ExtremesTransfer(a, b, l.min, l.max);
      RanksTransfer(a, b, l);
    }
  }

  lemma ExtremesTransfer(a: seq<int>, b: seq<int>, lo: int, hi: int)
    requires multiset(a) == multiset(b) && Extremes(a, lo, hi)
    ensures Extremes(b, lo, hi)
  {
    forall x | x in b
      ensures lo <= x <= hi
    {
      assert x in multiset(a);
      assert x in a;
    }
    assert lo in multiset(b) && hi in multiset(b);
  }

  lemma RanksTransfer(a: seq<int>, b: seq<int>, l: LatencySummary)
    requires multiset(a) == multiset(b) && Ranks(a, l)
    ensures Ranks(b, l)
  {
    PercentileTransfer(a, b, 50.0, l.p50);
    PercentileTransfer(a, b, 75.0, l.p75);
    PercentileTransfer(a, b, 90.0, l.p90);
    PercentileTransfer(a, b, 95.0, l.p95);
    PercentileTransfer(a, b, 99.0, l.p99);
    PercentileTransfer(a, b, 99.9, l.p999);
  }

  lemma PercentileTransfer(a: seq<int>, b: seq<int>, p: real, v: int)
    requires multiset(a) == multiset(b) && NearestRank(a, p, v)
    ensures NearestRank(b, p, v)
  {
    PermutationInvariant(a, b, v);
    var n := |a| as real;
    assert n == |b| as real;
    assert CountAtMost(a, v) as real == CountAtMost(b, v) as real;
    assert CountBelow(a, v) as real == CountBelow(b, v) as real;
  }

  /** The arithmetic mean of a non-empty collection of samples. */
  function Mean(s: seq<int>): real
    requires |s| > 0
  {
    Sum(s) as real / |s| as real
  }

  /** The mean times the number of samples is their total. */
  lemma MeanTimesCount(s: seq<int>)
    requires |s| > 0
    ensures Mean(s) * |s| as real == Sum(s) as real
  {
  }

  /** Minimum, maximum, mean and the six reported percentiles of a histogram. */
  function Summarize(s: seq<int>): (l: LatencySummary)
    requires Sorted(s)
    ensures |s| == 0 ==> l == LatencySummary(0, 0, 0.0, 0, 0, 0, 0, 0, 0)
    ensures |s| > 0 ==> l.min in multiset(s) && l.max in multiset(s)
    ensures forall k :: 0 <= k < |s| ==> l.min <= s[k] <= l.max
    ensures l.min <= l.p50 <= l.p75 <= l.p90 <= l.p95 <= l.p99 <= l.p999 <= l.max
    ensures |s| > 0 ==>
      && l.p50 == ValueAtPercentile(s, 50.0) && l.p75 == ValueAtPercentile(s, 75.0)
      && l.p90 == ValueAtPercentile(s, 90.0) && l.p95 == ValueAtPercentile(s, 95.0)
      && l.p99 == ValueAtPercentile(s, 99.0) && l.p999 == ValueAtPercentile(s, 99.9)
    ensures Describes(s, l)
  {
    if |s| == 0 then LatencySummary(0, 0, 0.0, 0, 0, 0, 0, 0, 0)
    else
      var p50 := ValueAtPercentile(s, 50.0);
      var p75 := ValueAtPercentile(s, 75.0);
      var p90 := ValueAtPercentile(s, 90.0);
      var p95 := ValueAtPercentile(s, 95.0);
      var p99 := ValueAtPercentile(s, 99.0);
      var p999 := ValueAtPercentile(s, 99.9);
      PercentileMonotonic(s, 50.0, 75.0);
      PercentileMonotonic(s, 75.0, 90.0);
      PercentileMonotonic(s, 90.0, 95.0);
      PercentileMonotonic(s, 95.0, 99.0);
      PercentileMonotonic(s, 99.0, 99.9);
      SortedEnds(s);
      PercentileIsNearestRank(s, 50.0);
      PercentileIsNearestRank(s, 75.0);
      PercentileIsNearestRank(s, 90.0);
      PercentileIsNearestRank(s, 95.0);
      PercentileIsNearestRank(s, 99.0);
      PercentileIsNearestRank(s, 99.9);
      LatencySummary(s[0], s[|s| - 1], Mean(s), p50, p75, p90, p95, p99, p999)
  }
}
