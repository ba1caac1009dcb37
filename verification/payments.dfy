/** Average payment per carrier for Primary and for Waterfall #2 loads, and
    the inner merge of the two aggregates on the carrier key. */
module Payments {
  import opened Wrappers
  import opened Seqs
  import opened Records

  const Primary: string := "Primary"
  const Waterfall2: string := "Waterfall #2"
  const AwardsOfInterest: seq<string> := [Primary, Waterfall2]

  predicate IsAwardOfInterest(r: LoadRecord) {
    r.awardType.Some? && r.awardType.value in AwardsOfInterest
  }

  predicate IsPrimary(r: LoadRecord) {
    r.awardType == Some(Primary)
  }

  predicate IsWaterfall2(r: LoadRecord) {
    r.awardType == Some(Waterfall2)
  }

  /** The Primary loads: the award types of interest, then those equal to Primary. */
  function PrimaryLoads(rows: seq<LoadRecord>): (r: seq<LoadRecord>)
    ensures forall x :: x in r <==> x in rows && x.awardType == Some(Primary)
  {
    Filter(Filter(rows, IsAwardOfInterest), IsPrimary)
  }

  /** The Waterfall #2 loads, selected the same way. */
  function WaterfallLoads(rows: seq<LoadRecord>): (r: seq<LoadRecord>)
    ensures forall x :: x in r <==> x in rows && x.awardType == Some(Waterfall2)
  {
    Filter(Filter(rows, IsAwardOfInterest), IsWaterfall2)
  }

  /** Pre-selecting the award types of interest changes nothing: both subsets
      are the single-mask selections of their award type, in row order. */
  lemma AwardSubsetsAreOnePass(rows: seq<LoadRecord>)
    ensures PrimaryLoads(rows) == Filter(rows, IsPrimary)
    ensures WaterfallLoads(rows) == Filter(rows, IsWaterfall2)
  {
    FilterFilter(rows, IsAwardOfInterest, IsPrimary, IsPrimary);
    FilterFilter(rows, IsAwardOfInterest, IsWaterfall2, IsWaterfall2);
  }

  /** Total payment of the rows of carrier `c`. */
  function PaymentSum(rows: seq<LoadRecord>, c: CarrierKey): real {
    if |rows| == 0 then 0.0
    else (if rows[0].carrier == Some(c) then rows[0].totalPayment else 0.0) + PaymentSum(rows[1..], c)
  }

  /** Running (sum of payments, number of loads) per carrier, accumulated row
      by row as a group-by does; rows without a carrier are skipped. */
  function Tally(rows: seq<LoadRecord>): (t: map<CarrierKey, (real, nat)>)
    ensures forall c :: c in t <==> CarrierCount(rows, c) > 0
    ensures forall c :: c in t ==> t[c] == (PaymentSum(rows, c), CarrierCount(rows, c))
    ensures forall c :: c !in t ==> PaymentSum(rows, c) == 0.0
  {
    if |rows| == 0 then map[]
    else
      var rest := Tally(rows[1..]);
      match rows[0].carrier
      case None => rest
      case Some(c) =>
        var pay := rows[0].totalPayment;
        if c in rest then rest[c := (rest[c].0 + pay, rest[c].1 + 1)]
        else rest[c := (pay, 1)]
  }

  /** `groupby('CARRIER_SKEY').agg(avg_payment=('TOTAL_PAYMENT_AMOUNT', 'mean'))`:
      a carrier is present exactly when it has at least one row, and its
      value is the total payment over its rows divided by their number. */
  function MeanPayment(rows: seq<LoadRecord>): (m: map<CarrierKey, real>)
    ensures forall c :: c in m <==> CarrierCount(rows, c) > 0
    ensures forall c :: c in m ==> m[c] == PaymentSum(rows, c) / CarrierCount(rows, c) as real
  {
    var t := Tally(rows);
    map c | c in t :: t[c].0 / t[c].1 as real
  }

  /** The mean payments of one carrier under both award types. */
  datatype PaymentPair = PaymentPair(avgPrimary: real, avgWaterfall: real)

  /** Inner merge on the carrier key: only carriers present in both. */
  function MergeInner(primary: map<CarrierKey, real>, waterfall: map<CarrierKey, real>): (r: map<CarrierKey, PaymentPair>)
    ensures r.Keys == primary.Keys * waterfall.Keys
    ensures forall c :: c in r ==> r[c] == PaymentPair(primary[c], waterfall[c])
  {
    map c | c in primary.Keys * waterfall.Keys :: PaymentPair(primary[c], waterfall[c])
  }

  /** The table behind the primary-versus-waterfall scatter plot: one entry
      per carrier with both a Primary and a Waterfall #2 load, holding the
      carrier's mean payment over its Primary loads and over its Waterfall #2
      loads. */
  function PrimaryVsWaterfall(rows: seq<LoadRecord>): (r: map<CarrierKey, PaymentPair>)
    ensures forall c :: c in r <==>
      CarrierCount(PrimaryLoads(rows), c) > 0 && CarrierCount(WaterfallLoads(rows), c) > 0
    ensures forall c :: c in r ==> r[c] == PaymentPair(
      PaymentSum(PrimaryLoads(rows), c) / CarrierCount(PrimaryLoads(rows), c) as real,
      PaymentSum(WaterfallLoads(rows), c) / CarrierCount(WaterfallLoads(rows), c) as real)
  {
    MergeInner(MeanPayment(PrimaryLoads(rows)), MeanPayment(WaterfallLoads(rows)))
  }

  /** A carrier is in the merged table exactly when it delivered at least one
      Primary load and at least one Waterfall #2 load. */
  lemma {:induction false} PrimaryVsWaterfallCarriers(rows: seq<LoadRecord>, c: CarrierKey)
    ensures c in PrimaryVsWaterfall(rows) <==>
      (exists i :: 0 <= i < |rows| && rows[i].carrier == Some(c) && rows[i].awardType == Some(Primary)) &&
      (exists j :: 0 <= j < |rows| && rows[j].carrier == Some(c) && rows[j].awardType == Some(Waterfall2))
  {
    var p := PrimaryLoads(rows);
    var w := WaterfallLoads(rows);
    assert c in PrimaryVsWaterfall(rows) <==> CarrierCount(p, c) > 0 && CarrierCount(w, c) > 0;
    AwardCarrier(rows, p, Primary, c);
    AwardCarrier(rows, w, Waterfall2, c);
  }

  /** A carrier has rows in an award subset exactly when it has a row of
      that award type in the full table. */
  lemma {:induction false} AwardCarrier(rows: seq<LoadRecord>, subset: seq<LoadRecord>, award: string, c: CarrierKey)
    requires forall x :: x in subset <==> x in rows && x.awardType == Some(award)
    ensures CarrierCount(subset, c) > 0 <==>
      exists i :: 0 <= i < |rows| && rows[i].carrier == Some(c) && rows[i].awardType == Some(award)
  {
    CarrierCountPositive(subset, c);
    if exists i :: 0 <= i < |rows| && rows[i].carrier == Some(c) && rows[i].awardType == Some(award) {
      var i :| 0 <= i < |rows| && rows[i].carrier == Some(c) && rows[i].awardType == Some(award);
      assert rows[i] in subset;
    }
    if exists i :: 0 <= i < |subset| && subset[i].carrier == Some(c) {
      var i :| 0 <= i < |subset| && subset[i].carrier == Some(c);
      assert subset[i] in rows;
    }
  }
}
