/** Per-carrier load counts and their quartiles, computed the way pandas'
    `Series.quantile` (linear interpolation between order statistics) and
    `Series.median` compute them. */
module Quantiles {
  import opened Wrappers
  import opened Seqs
  import opened Records

  /** The index of the order statistic at or just below the virtual index
      `h`, found by stepping up from `from`: the floor of `h`. */
  function LowerIndexFrom(h: real, from: nat, n: nat): (lo: nat)
    requires from < n && from as real <= h <= (n - 1) as real
    ensures from <= lo < n
    ensures lo as real <= h < (lo + 1) as real
    decreases n - from
  {
    if (from + 1) as real <= h then LowerIndexFrom(h, from + 1, n) else from
  }

  function LowerIndex(h: real, n: nat): (lo: nat)
    requires 0 < n && 0.0 <= h <= (n - 1) as real
    ensures lo < n && lo as real <= h < (lo + 1) as real
  {
    LowerIndexFrom(h, 0, n)
  }

  /** `LowerIndex` is the floor of the virtual index. */
  lemma LowerIndexIsFloor(h: real, n: nat)
    requires 0 < n && 0.0 <= h <= (n - 1) as real
    ensures LowerIndex(h, n) == h.Floor
  {
  }

  /** The point a fraction `t` of the way from `a` to `b`. */
  function Lerp(a: real, b: real, t: real): (r: real)
    requires a <= b && 0.0 <= t <= 1.0
    ensures a <= r <= b
    ensures t == 0.0 ==> r == a
  {
    FractionOfGap(t, b - a);
    assert t * (b - a) <= b - a;
    assert a + t * (b - a) <= b;
    a + t * (b - a)
  }

  lemma LerpMonotone(a: real, b: real, t1: real, t2: real)
    requires a <= b && 0.0 <= t1 <= t2 <= 1.0
    ensures Lerp(a, b, t1) <= Lerp(a, b, t2)
  {
    ScaleMonotone(b - a, t1, t2);
    assert t1 * (b - a) <= t2 * (b - a);
  }

  /** Linear interpolation between the order statistics around the virtual
      index `h`: with `lo = floor(h)`, `xs[lo] + (h - lo) * (xs[lo+1] - xs[lo])`,
      or `xs[lo]` itself when `lo` is the last index. The result is at least
      every order statistic at or below `h` and at most every one at or
      above it (so it hits `xs[h]` when `h` is a whole index). */
  function Interpolate(xs: seq<real>, h: real): (r: real)
    requires |xs| > 0 && Sorted(xs)
    requires 0.0 <= h <= (|xs| - 1) as real
    ensures forall k :: 0 <= k < |xs| && k as real <= h ==> xs[k] <= r
    ensures forall k :: 0 <= k < |xs| && h <= k as real ==> r <= xs[k]
  {
    var lo := LowerIndex(h, |xs|);
    var r := if lo + 1 < |xs| then Lerp(xs[lo], xs[lo + 1], h - lo as real) else xs[lo];
    forall k | 0 <= k < |xs| && k as real <= h
      ensures xs[k] <= r
    {
      assert k <= lo;
    }
    forall k | 0 <= k < |xs| && h <= k as real
      ensures r <= xs[k]
    {
      assert k >= lo + 1 || (k == lo && h == lo as real);
    }
    r
  }

  /** The virtual index `(n - 1) * p` of the `p`-quantile among `n` sorted values. */
  function VirtualIndex(n: nat, p: real): (h: real)
    requires 0 < n && 0.0 <= p <= 1.0
    ensures 0.0 <= h <= (n - 1) as real
  {
    FractionOfGap(p, (n - 1) as real);
    assert p * (n - 1) as real == (n - 1) as real * p;
    (n - 1) as real * p
  }

  /** The `p`-quantile of `xs`. Missing (pandas: NaN) for an empty series;
      pandas rejects `p` outside [0, 1], which is missing here as well. Any
      quantile lies between the smallest and the largest value. */
  function Quantile(xs: seq<real>, p: real): (r: Option<real>)
    ensures r.None? <==> |xs| == 0 || p < 0.0 || 1.0 < p
    ensures r.Some? ==> exists i :: 0 <= i < |xs| && xs[i] <= r.value
    ensures r.Some? ==> exists j :: 0 <= j < |xs| && r.value <= xs[j]
  {
    if |xs| == 0 || p < 0.0 || 1.0 < p then None
    else
      var s := Sort(xs);
      var n := |xs|;
      var r := Interpolate(s, VirtualIndex(n, p));
      assert s[0] <= r <= s[n - 1];
      assert s[0] in multiset(xs) && s[n - 1] in multiset(xs);
      Some(r)
  }

  /** A fraction in [0, 1] of a non-negative gap lies within the gap. */
  lemma FractionOfGap(frac: real, gap: real)
    requires 0.0 <= frac <= 1.0 && 0.0 <= gap
    ensures 0.0 <= frac * gap <= gap
  {
    assert gap - frac * gap == (1.0 - frac) * gap;
  }

  /** Scaling by a non-negative factor keeps order. */
  lemma ScaleMonotone(c: real, a: real, b: real)
    requires 0.0 <= c && a <= b
    ensures c * a <= c * b && a * c <= b * c
  {
    assert c * b - c * a == c * (b - a);
  }

  /** Interpolation is monotone in the virtual index. */
  lemma InterpolateMonotone(xs: seq<real>, h1: real, h2: real)
    requires |xs| > 0 && Sorted(xs)
    requires 0.0 <= h1 <= h2 <= (|xs| - 1) as real
    ensures Interpolate(xs, h1) <= Interpolate(xs, h2)
  {
    var n := |xs|;
    var lo1, lo2 := LowerIndex(h1, n), LowerIndex(h2, n);
    if lo1 == lo2 {
      if lo1 + 1 < n {
        assert Interpolate(xs, h1) == Lerp(xs[lo1], xs[lo1 + 1], h1 - lo1 as real);
        assert Interpolate(xs, h2) == Lerp(xs[lo1], xs[lo1 + 1], h2 - lo1 as real);
        LerpMonotone(xs[lo1], xs[lo1 + 1], h1 - lo1 as real, h2 - lo1 as real);
      }
    } else {
      assert lo1 < lo2;
      assert Interpolate(xs, h1) <= xs[lo1 + 1] <= xs[lo2] <= Interpolate(xs, h2);
    }
  }

  /** Quantiles are ordered like their probabilities. */
  lemma {:induction false} QuantileMonotone(xs: seq<real>, p1: real, p2: real)
    requires |xs| > 0
    requires 0.0 <= p1 <= p2 <= 1.0
    ensures Quantile(xs, p1).value <= Quantile(xs, p2).value
  {
    var s := Sort(xs);
    var n := |xs|;
    VirtualIndexMonotone(n, p1, p2);
    InterpolateMonotone(s, VirtualIndex(n, p1), VirtualIndex(n, p2));
  }

  lemma VirtualIndexMonotone(n: nat, p1: real, p2: real)
    requires 0 < n && 0.0 <= p1 <= p2 <= 1.0
    ensures VirtualIndex(n, p1) <= VirtualIndex(n, p2)
  {
    ScaleMonotone((n - 1) as real, p1, p2);
  }

  /** `Series.median`: the middle value of the sorted series, or the mean of
      the two middle values when the length is even; missing when empty. */
  function Median(xs: seq<real>): (r: Option<real>)
    ensures r.None? <==> |xs| == 0
    ensures r.Some? ==> exists i :: 0 <= i < |xs| && xs[i] <= r.value
    ensures r.Some? ==> exists j :: 0 <= j < |xs| && r.value <= xs[j]
    ensures r.Some? && |xs| % 2 == 1 ==> r.value in xs
  {
    if |xs| == 0 then None
    else
      var s := Sort(xs);
      var n := |s|;
      var m := Middle(s);
      assert s[0] <= s[n / 2] <= s[n - 1];
      assert n / 2 > 0 ==> s[0] <= s[n / 2 - 1] <= s[n - 1];
      assert s[0] <= m <= s[n - 1];
      assert s[0] in multiset(xs) && s[n - 1] in multiset(xs);
      assert n % 2 == 1 ==> s[n / 2] in multiset(xs);
      Some(m)
  }

  /** The middle value of a non-empty sequence, or the mean of the two
      middle values when its length is even. */
  function Middle(s: seq<real>): real
    requires |s| > 0
  {
    var n := |s|;
    if n % 2 == 1 then s[n / 2] else (s[n / 2 - 1] + s[n / 2]) / 2.0
  }

  /** The median is the 0.5-quantile under linear interpolation. */
  lemma {:induction false} MedianIsHalfQuantile(xs: seq<real>)
    ensures Median(xs) == Quantile(xs, 0.5)
  {
    if |xs| > 0 {
      var s := Sort(xs);
      var n := |s|;
      var k := n / 2;
      if n % 2 == 1 {
        assert n == 2 * k + 1;
        MiddleOdd(s, k);
      } else {
        assert n == 2 * k;
        MiddleEven(s, k);
      }
    }
  }

  lemma MiddleOdd(s: seq<real>, k: nat)
    requires Sorted(s) && |s| == 2 * k + 1
    ensures Interpolate(s, VirtualIndex(|s|, 0.5)) == s[k]
  {
    assert VirtualIndex(|s|, 0.5) == k as real;
  }

  lemma MiddleEven(s: seq<real>, k: nat)
    requires Sorted(s) && |s| == 2 * k && k > 0
    ensures Interpolate(s, VirtualIndex(|s|, 0.5)) == (s[k - 1] + s[k]) / 2.0
  {
    var h := VirtualIndex(|s|, 0.5);
    assert h == (k - 1) as real + 0.5;
    assert LowerIndex(h, |s|) == k - 1;
    assert Interpolate(s, h) == Lerp(s[k - 1], s[k], 0.5);
  }

  /** Sorting a sorted series leaves it as it is. */
  lemma {:induction false} SortSorted(xs: seq<real>)
    requires Sorted(xs)
    ensures Sort(xs) == xs
  {
    if |xs| > 0 {
      SortSorted(xs[1..]);
      assert xs == [xs[0]] + xs[1..];
    }
  }

  // ---------------------------------------------------------------------
  // Quartiles of the carrier load counts

  datatype Quartiles = Quartiles(q1: real, q2: real, q3: real)

  /** `quantile(0.25)`, `median()` and `quantile(0.75)` of a count series:
      missing when the series is empty, otherwise ordered, with Q2 the
      0.5-quantile and min <= Q1 and Q3 <= max. */
  function QuartilesOf(xs: seq<real>): (q: Option<Quartiles>)
    ensures q.None? <==> |xs| == 0
    ensures q.Some? ==> q.value.q1 <= q.value.q2 <= q.value.q3
    ensures q.Some? ==> q.value.q1 == Quantile(xs, 0.25).value
    ensures q.Some? ==> q.value.q2 == Quantile(xs, 0.5).value
    ensures q.Some? ==> q.value.q3 == Quantile(xs, 0.75).value
    ensures q.Some? ==> exists i :: 0 <= i < |xs| && xs[i] <= q.value.q1
    ensures q.Some? ==> exists j :: 0 <= j < |xs| && q.value.q3 <= xs[j]
  {
    if |xs| == 0 then None
    else
      MedianIsHalfQuantile(xs);
      QuantileMonotone(xs, 0.25, 0.5);
      QuantileMonotone(xs, 0.5, 0.75);
      Some(Quartiles(Quantile(xs, 0.25).value, Median(xs).value, Quantile(xs, 0.75).value))
  }

  /** `value_counts()` of the carrier column: one count per distinct carrier,
      listed against the carriers in order of first appearance. Each entry is
      that carrier's number of rows (so at least 1), and they add up to the
      number of rows that name a carrier. */
  function CarrierFrequencies(rows: seq<LoadRecord>): (f: seq<real>)
    ensures |f| == |Distinct(CarrierKeys(rows))| == |Elements(CarrierKeys(rows))|
    ensures forall i :: 0 <= i < |f| ==> f[i] == CarrierCount(rows, Distinct(CarrierKeys(rows))[i]) as real
    ensures forall i :: 0 <= i < |f| ==> f[i] >= 1.0
    ensures Sum(f) == |CarrierKeys(rows)| as real
  {
    var keys := CarrierKeys(rows);
    DistinctCard(keys);
    CarrierHistogram(rows);
    Histogram(keys, Distinct(keys))
  }

  /** The histogram of carrier keys over their distinct values counts each
      carrier's rows, each count is positive and they add up to the keys. */
  lemma CarrierHistogram(rows: seq<LoadRecord>)
    ensures var keys := CarrierKeys(rows);
      var h := Histogram(keys, Distinct(keys));
      && (forall i :: 0 <= i < |h| ==> h[i] == CarrierCount(rows, Distinct(keys)[i]) as real && h[i] >= 1.0)
      && Sum(h) == |keys| as real
  {
    var keys := CarrierKeys(rows);
    var carriers := Distinct(keys);
    SumHistogramCovering(keys, carriers);
    forall i | 0 <= i < |carriers|
      ensures Occ(keys, carriers[i]) == CarrierCount(rows, carriers[i])
    {
      OccCarrierKeys(rows, carriers[i]);
    }
  }

  /** The three thresholds of the segmentation: the 0.25-, 0.5- and
      0.75-quantiles of the per-carrier load counts, missing when no row
      names a carrier. They are ordered, Q1 is at least 1 and Q3 is at most
      the largest count. */
  function CarrierQuartiles(rows: seq<LoadRecord>): (q: Option<Quartiles>)
    ensures q.None? <==> CarrierKeys(rows) == []
    ensures q.Some? ==> q.value.q1 <= q.value.q2 <= q.value.q3
    ensures q.Some? ==> var f := CarrierFrequencies(rows);
      && q.value.q1 == Quantile(f, 0.25).value
      && q.value.q2 == Quantile(f, 0.5).value
      && q.value.q3 == Quantile(f, 0.75).value
    ensures q.Some? ==> 1.0 <= q.value.q1
    ensures q.Some? ==> exists j :: 0 <= j < |CarrierFrequencies(rows)| && q.value.q3 <= CarrierFrequencies(rows)[j]
  {
    var f := CarrierFrequencies(rows);
    assert |f| == 0 <==> CarrierKeys(rows) == [] by {
      if CarrierKeys(rows) != [] {
        assert CarrierKeys(rows)[0] in Elements(CarrierKeys(rows));
      }
    }
    QuartilesOf(f)
  }

  /** Between two whole indices the interpolation is the straight line
      joining their order statistics. */
  lemma InterpolateBetween(xs: seq<real>, h: real, lo: nat)
    requires |xs| > 0 && Sorted(xs)
    requires lo + 1 < |xs| && lo as real <= h < (lo + 1) as real
    ensures Interpolate(xs, h) == Lerp(xs[lo], xs[lo + 1], h - lo as real)
  {
    assert LowerIndex(h, |xs|) == lo;
  }

  /** On an already sorted series the quantile is read off directly. */
  lemma {:induction false} QuantileOfSorted(xs: seq<real>, p: real)
    requires |xs| > 0 && Sorted(xs) && 0.0 <= p <= 1.0
    ensures Quantile(xs, p) == Some(Interpolate(xs, VirtualIndex(|xs|, p)))
  {
    SortSorted(xs);
  }

  /** A quantile depends only on the values, not on their order: any
      rearrangement of the series (such as the count-descending order of
      `value_counts`) has the same quantiles. */
  lemma {:induction false} QuantileOfPermutation(xs: seq<real>, ys: seq<real>, p: real)
    requires multiset(xs) == multiset(ys)
    ensures Quantile(xs, p) == Quantile(ys, p)
  {
    assert |xs| == |multiset(xs)| == |multiset(ys)| == |ys|;
    SortedUnique(Sort(xs), Sort(ys));
  }

  /** For any series, the quantile is the interpolation at index (n-1)p
      among the values put in ascending order. */
  lemma {:induction false} QuantileOfAnyOrder(xs: seq<real>, ys: seq<real>, p: real)
    requires Sorted(ys) && multiset(ys) == multiset(xs)
    requires |xs| > 0 && 0.0 <= p <= 1.0
    ensures |ys| == |xs|
    ensures Quantile(xs, p) == Some(Interpolate(ys, VirtualIndex(|ys|, p)))
  {
    assert |xs| == |multiset(xs)| == |multiset(ys)| == |ys|;
    QuantileOfPermutation(xs, ys, p);
    QuantileOfSorted(ys, p);
  }

  /** The load counts {1, 5, 10, 50} have quartiles 4, 7.5 and 20. */
  lemma {:induction false} ExampleQuartiles(xs: seq<real>)
    requires |xs| == 4 && xs[0] == 1.0 && xs[1] == 5.0 && xs[2] == 10.0 && xs[3] == 50.0
    ensures QuartilesOf(xs) == Some(Quartiles(4.0, 7.5, 20.0))
  {
    ExampleFirstQuartile(xs);
    ExampleThirdQuartile(xs);
    ExampleMedian(xs);
  }

  lemma {:induction false} ExampleFirstQuartile(xs: seq<real>)
    requires |xs| == 4 && xs[0] == 1.0 && xs[1] == 5.0 && xs[2] == 10.0 && xs[3] == 50.0
    ensures Quantile(xs, 0.25) == Some(4.0)
  {
    assert Sorted(xs);
    QuantileOfSorted(xs, 0.25);
    assert VirtualIndex(|xs|, 0.25) == 0.75;
    InterpolateBetween(xs, 0.75, 0);
    assert Lerp(xs[0], xs[1], 0.75) == 4.0;
  }

  lemma {:induction false} ExampleThirdQuartile(xs: seq<real>)
    requires |xs| == 4 && xs[0] == 1.0 && xs[1] == 5.0 && xs[2] == 10.0 && xs[3] == 50.0
    ensures Quantile(xs, 0.75) == Some(20.0)
  {
    assert Sorted(xs);
    QuantileOfSorted(xs, 0.75);
    assert VirtualIndex(|xs|, 0.75) == 2.25;
    InterpolateBetween(xs, 2.25, 2);
    assert Lerp(xs[2], xs[3], 0.25) == 20.0;
  }

  lemma {:induction false} ExampleMedian(xs: seq<real>)
    requires |xs| == 4 && xs[0] == 1.0 && xs[1] == 5.0 && xs[2] == 10.0 && xs[3] == 50.0
    ensures Median(xs) == Some(7.5)
  {
    assert Sorted(xs);
    SortSorted(xs);
    assert Median(xs) == Some(Middle(xs));
  }
}
