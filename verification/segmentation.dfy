/** Segmentation of the load rows by how many loads their carrier took:
    four buckets cut at the quartiles of the carrier load counts, then a
    filter that keeps only rows with both linehaul prices above 100. */
module Segmentation {
  import opened Wrappers
  import opened Seqs
  import opened Records
  import opened Quantiles

  datatype Bucket = First | Second | Third | Fourth

  /** The bucket bounds as the analysis draws them, or as they evidently
      should be drawn (see `InBucket`). */
  datatype Rule = AsWritten | Corrected

  predicate Ordered(q: Quartiles) {
    q.q1 <= q.q2 <= q.q3
  }

  /** The bounds as written: inclusive `between(1, Q1)`, `between(Q1+1, Q2)`,
      `between(Q2+1, Q3)`, and `> Q3`. */
  predicate AsWrittenBucket(b: Bucket, n: real, q: Quartiles) {
    match b
    case First => 1.0 <= n <= q.q1
    case Second => q.q1 + 1.0 <= n <= q.q2
    case Third => q.q2 + 1.0 <= n <= q.q3
    case Fourth => q.q3 < n
  }

  /** The bounds with strict lower ends `Q1 < n` and `Q2 < n`, so that the
      buckets cover every count of at least 1 even when the quartiles are
      fractional. */
  predicate InBucket(b: Bucket, n: real, q: Quartiles) {
    1.0 <= n &&
    match b
    case First => n <= q.q1
    case Second => q.q1 < n <= q.q2
    case Third => q.q2 < n <= q.q3
    case Fourth => q.q3 < n
  }

  predicate Admits(rule: Rule, b: Bucket, n: real, q: Quartiles) {
    match rule
    case AsWritten => AsWrittenBucket(b, n, q)
    case Corrected => InBucket(b, n, q)
  }

  /** A count that the as-written bounds step over: strictly between a
      quartile and that quartile plus one, and not above Q3. */
  predicate InGap(n: real, q: Quartiles) {
    n <= q.q3 && (q.q1 < n < q.q1 + 1.0 || q.q2 < n < q.q2 + 1.0)
  }

  /** The one corrected bucket of a count: none below 1, and otherwise the
      bucket `k` holds `n` exactly when the result is `k`, so the corrected
      buckets are pairwise disjoint and cover every count of at least 1. */
  function BucketOf(n: real, q: Quartiles): (r: Option<Bucket>)
    requires Ordered(q)
    ensures r.None? <==> n < 1.0
    ensures forall k :: InBucket(k, n, q) <==> r == Some(k)
  {
    if n < 1.0 then None
    else if n <= q.q1 then Some(First)
    else if n <= q.q2 then Some(Second)
    else if n <= q.q3 then Some(Third)
    else Some(Fourth)
  }

  /** The as-written buckets are the corrected ones with the gap cut out. */
  lemma AsWrittenIsCorrectedOutsideGap(k: Bucket, n: real, q: Quartiles)
    requires Ordered(q) && 1.0 <= n
    ensures AsWrittenBucket(k, n, q) <==> InBucket(k, n, q) && !InGap(n, q)
  {
  }

  /** The as-written buckets are pairwise disjoint, and a count of at least 1
      is in none of them exactly when it lies in the gap. */
  lemma AsWrittenCoverage(n: real, q: Quartiles)
    requires Ordered(q) && 1.0 <= n
    ensures forall k, l :: AsWrittenBucket(k, n, q) && AsWrittenBucket(l, n, q) ==> k == l
    ensures (forall k :: !AsWrittenBucket(k, n, q)) <==> InGap(n, q)
  {
    var b := BucketOf(n, q);
    forall k
      ensures AsWrittenBucket(k, n, q) <==> b == Some(k) && !InGap(n, q)
    {
      AsWrittenIsCorrectedOutsideGap(k, n, q);
    }
    assert InBucket(b.value, n, q);
  }

  // ---------------------------------------------------------------------
  // Rows of a bucket

  /** The group size of the row's carrier in `all` falls in bucket `b`; a
      row without a carrier maps to a missing count and is in no bucket. */
  predicate Selected(all: seq<LoadRecord>, rule: Rule, q: Quartiles, b: Bucket, x: LoadRecord) {
    x.carrier.Some? && Admits(rule, b, CarrierCount(all, x.carrier.value) as real, q)
  }

  /** `rows[mask]` with the mask "the carrier's group size in `all` lies in
      bucket `b`", keeping row order. */
  function Select(all: seq<LoadRecord>, rows: seq<LoadRecord>, rule: Rule, q: Quartiles, b: Bucket): (r: seq<LoadRecord>)
    ensures |r| <= |rows|
    ensures forall x :: x in r <==> x in rows && Selected(all, rule, q, b, x)
  {
    if |rows| == 0 then []
    else if Selected(all, rule, q, b, rows[0]) then [rows[0]] + Select(all, rows[1..], rule, q, b)
    else Select(all, rows[1..], rule, q, b)
  }

  /** A row of `all` with a carrier has a group size of at least 1. */
  lemma GroupSizeAtLeastOne(all: seq<LoadRecord>, x: LoadRecord)
    requires x in all && x.carrier.Some?
    ensures CarrierCount(all, x.carrier.value) >= 1
  {
    CarrierCountPositive(all, x.carrier.value);
    var i :| 0 <= i < |all| && all[i] == x;
  }

  /** With the corrected bounds every row that names a carrier lands in
      exactly one bucket, so the bucket sizes add up to the number of such
      rows. */
  lemma {:induction false} CorrectedBucketsPartition(all: seq<LoadRecord>, rows: seq<LoadRecord>, q: Quartiles)
    requires Ordered(q)
    requires forall x :: x in rows ==> x in all
    ensures |Select(all, rows, Corrected, q, First)| + |Select(all, rows, Corrected, q, Second)|
          + |Select(all, rows, Corrected, q, Third)| + |Select(all, rows, Corrected, q, Fourth)|
         == |CarrierKeys(rows)|
  {
    if |rows| > 0 {
      CorrectedBucketsPartition(all, rows[1..], q);
      var x := rows[0];
      if x.carrier.Some? {
        GroupSizeAtLeastOne(all, x);
        var b := BucketOf(CarrierCount(all, x.carrier.value) as real, q);
        assert b.Some?;
      }
    }
  }

  // ---------------------------------------------------------------------
  // Linehaul filter

  /** `> 100` on a cell; a missing cell compares false. */
  predicate Above100(v: Option<real>) {
    v.Some? && v.value > 100.0
  }

  predicate CarriesLinehaul(x: LoadRecord) {
    Above100(x.contractLinehaul) && Above100(x.paidLinehaul)
  }

  /** Drops the rows whose contract or paid linehaul is missing or at most
      100. */
  function DropDegenerate(rows: seq<LoadRecord>): (r: seq<LoadRecord>)
    ensures |r| <= |rows|
    ensures forall i :: 0 <= i < |r| ==> r[i].contractLinehaul.Some? && r[i].contractLinehaul.value > 100.0
    ensures forall i :: 0 <= i < |r| ==> r[i].paidLinehaul.Some? && r[i].paidLinehaul.value > 100.0
    ensures forall x :: x in r <==> x in rows && CarriesLinehaul(x)
  {
    Filter(rows, CarriesLinehaul)
  }

  /** Filtering twice is filtering once. */
  lemma {:induction false} DropDegenerateIdempotent(rows: seq<LoadRecord>)
    ensures DropDegenerate(DropDegenerate(rows)) == DropDegenerate(rows)
  {
    FilterFilter(rows, CarriesLinehaul, CarriesLinehaul, CarriesLinehaul);
  }

  /** The rows of bucket `b` that survive the linehaul filter; empty when no
      row names a carrier (the quartiles are then undefined and every
      comparison with them fails). */
  function Segment(rows: seq<LoadRecord>, rule: Rule, b: Bucket): (r: seq<LoadRecord>)
    ensures |r| <= |rows|
    ensures CarrierQuartiles(rows).None? ==> r == []
    ensures forall x :: x in r <==>
              (x in rows && CarriesLinehaul(x) && CarrierQuartiles(rows).Some?
               && Selected(rows, rule, CarrierQuartiles(rows).value, b, x))
  {
    match CarrierQuartiles(rows)
    case None => []
    case Some(q) =>
      var picked := Select(rows, rows, rule, q, b);
      DropDegenerate(picked)
  }

  /** Every row of a segment has both linehauls above 100 and a carrier whose
      group size lies within the segment's bounds; no row is in two
      segments. */
  lemma {:induction false} SegmentMembers(rows: seq<LoadRecord>, rule: Rule, b: Bucket, x: LoadRecord)
    requires x in Segment(rows, rule, b)
    ensures Above100(x.contractLinehaul) && Above100(x.paidLinehaul)
    ensures x.carrier.Some?
    ensures Admits(rule, b, CarrierCount(rows, x.carrier.value) as real, CarrierQuartiles(rows).value)
    ensures forall k :: k != b ==> x !in Segment(rows, rule, k)
  {
    var q := CarrierQuartiles(rows).value;
    var n := CarrierCount(rows, x.carrier.value) as real;
    GroupSizeAtLeastOne(rows, x);
    AsWrittenCoverage(n, q);
    var c := BucketOf(n, q);
  }

  /** Some row names a carrier exactly when the quartiles are defined. */
  lemma {:induction false} QuartilesDefined(rows: seq<LoadRecord>, x: LoadRecord)
    requires x in rows && x.carrier.Some?
    ensures CarrierQuartiles(rows).Some?
  {
    GroupSizeAtLeastOne(rows, x);
    OccCarrierKeys(rows, x.carrier.value);
    assert x.carrier.value in CarrierKeys(rows);
  }

  /** Under the corrected bounds a row that names a carrier and carries both
      linehauls is in exactly the segment of its carrier's bucket. */
  lemma {:induction false} CorrectedSegmentOfRow(rows: seq<LoadRecord>, x: LoadRecord)
    requires x in rows && x.carrier.Some? && CarriesLinehaul(x)
    ensures CarrierQuartiles(rows).Some?
    ensures forall k :: x in Segment(rows, Corrected, k)
                  <==> InBucket(k, CarrierCount(rows, x.carrier.value) as real, CarrierQuartiles(rows).value)
    ensures exists k :: x in Segment(rows, Corrected, k)
  {
    QuartilesDefined(rows, x);
    GroupSizeAtLeastOne(rows, x);
    var b := BucketOf(CarrierCount(rows, x.carrier.value) as real, CarrierQuartiles(rows).value);
    assert x in Segment(rows, Corrected, b.value);
  }

  /** Under the bounds as written, a row whose carrier's group size lies in
      the gap is in no segment at all. */
  lemma {:induction false} AsWrittenLosesGapRows(rows: seq<LoadRecord>, x: LoadRecord, b: Bucket)
    requires x in rows && x.carrier.Some? && CarrierQuartiles(rows).Some?
    requires InGap(CarrierCount(rows, x.carrier.value) as real, CarrierQuartiles(rows).value)
    ensures x !in Segment(rows, AsWritten, b)
  {
    GroupSizeAtLeastOne(rows, x);
    AsWrittenCoverage(CarrierCount(rows, x.carrier.value) as real, CarrierQuartiles(rows).value);
  }

  /** Each as-written segment is contained in the corrected one. */
  lemma {:induction false} AsWrittenWithinCorrected(rows: seq<LoadRecord>, b: Bucket, x: LoadRecord)
    requires x in Segment(rows, AsWritten, b)
    ensures x in Segment(rows, Corrected, b)
  {
    AsWrittenIsCorrectedOutsideGap(b, CarrierCount(rows, x.carrier.value) as real, CarrierQuartiles(rows).value);
  }

  // ---------------------------------------------------------------------
  // Worked cases

  /** With the quartiles of the data set (232.75, 823.5, 2088.75), a carrier
      with 233 loads is in no as-written bucket; the corrected bounds put it
      in the second. */
  lemma GapAt233(q: Quartiles)
    requires q == Quartiles(232.75, 823.5, 2088.75)
    ensures forall k :: !AsWrittenBucket(k, 233.0, q)
    ensures BucketOf(233.0, q) == Some(Second)
  {
    AsWrittenCoverage(233.0, q);
  }

  /** Load counts {1, 2, 3} have quartiles 1.5, 2 and 2.5: the carrier with
      2 loads falls between every pair of as-written bounds. */
  lemma {:induction false} GapForThreeCarriers(xs: seq<real>)
    requires |xs| == 3 && xs[0] == 1.0 && xs[1] == 2.0 && xs[2] == 3.0
    ensures QuartilesOf(xs) == Some(Quartiles(1.5, 2.0, 2.5))
    ensures forall k :: !AsWrittenBucket(k, 2.0, QuartilesOf(xs).value)
    ensures BucketOf(2.0, QuartilesOf(xs).value) == Some(Second)
  {
    ThreeCountsLower(xs);
    ThreeCountsUpper(xs);
    ThreeCountsMedian(xs);
    AsWrittenCoverage(2.0, Quartiles(1.5, 2.0, 2.5));
  }

  lemma {:induction false} ThreeCountsLower(xs: seq<real>)
    requires |xs| == 3 && xs[0] == 1.0 && xs[1] == 2.0 && xs[2] == 3.0
    ensures Quantile(xs, 0.25) == Some(1.5)
  {
    assert Sorted(xs);
    QuantileOfSorted(xs, 0.25);
    assert VirtualIndex(|xs|, 0.25) == 0.5;
    InterpolateBetween(xs, 0.5, 0);
    assert Lerp(xs[0], xs[1], 0.5) == 1.5;
  }

  lemma {:induction false} ThreeCountsUpper(xs: seq<real>)
    requires |xs| == 3 && xs[0] == 1.0 && xs[1] == 2.0 && xs[2] == 3.0
    ensures Quantile(xs, 0.75) == Some(2.5)
  {
    assert Sorted(xs);
    QuantileOfSorted(xs, 0.75);
    assert VirtualIndex(|xs|, 0.75) == 1.5;
    InterpolateBetween(xs, 1.5, 1);
    assert Lerp(xs[1], xs[2], 0.5) == 2.5;
  }

  lemma {:induction false} ThreeCountsMedian(xs: seq<real>)
    requires |xs| == 3 && xs[0] == 1.0 && xs[1] == 2.0 && xs[2] == 3.0
    ensures Median(xs) == Some(2.0)
  {
    assert Sorted(xs);
    SortSorted(xs);
    assert Median(xs) == Some(Middle(xs));
  }

  /** Load counts {1, 5, 10, 50}: the carrier with 1 load is in the first
      bucket and the one with 50 loads in the fourth, under either rule, and
      no count of this series falls in the gap. */
  lemma {:induction false} FourCarriersBuckets(xs: seq<real>)
    requires |xs| == 4 && xs[0] == 1.0 && xs[1] == 5.0 && xs[2] == 10.0 && xs[3] == 50.0
    ensures QuartilesOf(xs) == Some(Quartiles(4.0, 7.5, 20.0))
    ensures AsWrittenBucket(First, 1.0, QuartilesOf(xs).value) && BucketOf(1.0, QuartilesOf(xs).value) == Some(First)
    ensures AsWrittenBucket(Second, 5.0, QuartilesOf(xs).value) && BucketOf(5.0, QuartilesOf(xs).value) == Some(Second)
    ensures AsWrittenBucket(Third, 10.0, QuartilesOf(xs).value) && BucketOf(10.0, QuartilesOf(xs).value) == Some(Third)
    ensures AsWrittenBucket(Fourth, 50.0, QuartilesOf(xs).value) && BucketOf(50.0, QuartilesOf(xs).value) == Some(Fourth)
  {
    ExampleQuartiles(xs);
  }
}
