/** The two input tables: shipment-level load records and service
    performance records, one Dafny value per row. */
module Records {
  import opened Wrappers
  import opened Seqs

  type LoadId = int
  type CarrierKey = int

  /** One row of the load-level table, restricted to the columns the
      analysis reads. Missing cells are `None`; money and mileage are exact
      reals. The total payment is never missing in the data. */
  datatype LoadRecord = LoadRecord(
    loadId: LoadId,
    carrier: Option<CarrierKey>,
    temperatureZone: Option<string>,
    onTimePick: Option<real>,
    onTimeDrop: Option<real>,
    awardType: Option<string>,
    contractLinehaul: Option<real>,
    paidLinehaul: Option<real>,
    totalPayment: real,
    mileage: Option<real>)

  /** One row of the service-performance table: its join key and the
      remaining numeric columns, which the analysis only carries along. */
  datatype ServiceRecord = ServiceRecord(loadId: LoadId, measures: seq<Option<real>>)

  /** Number of rows whose carrier is `c` (the group size of `c`). */
  function CarrierCount(rows: seq<LoadRecord>, c: CarrierKey): (n: nat)
    ensures n <= |rows|
  {
    if |rows| == 0 then 0
    else (if rows[0].carrier == Some(c) then 1 else 0) + CarrierCount(rows[1..], c)
  }

  /** A carrier has a positive group size exactly when some row names it. */
  lemma {:induction false} CarrierCountPositive(rows: seq<LoadRecord>, c: CarrierKey)
    ensures CarrierCount(rows, c) > 0 <==> exists i :: 0 <= i < |rows| && rows[i].carrier == Some(c)
  {
    if |rows| > 0 {
      CarrierCountPositive(rows[1..], c);
      if exists i :: 0 <= i < |rows| && rows[i].carrier == Some(c) {
        var i :| 0 <= i < |rows| && rows[i].carrier == Some(c);
        if i > 0 {
          assert rows[1..][i - 1].carrier == Some(c);
        }
      }
      if exists i :: 0 <= i < |rows[1..]| && rows[1..][i].carrier == Some(c) {
        var i :| 0 <= i < |rows[1..]| && rows[1..][i].carrier == Some(c);
        assert rows[i + 1].carrier == Some(c);
      }
    }
  }

  /** The non-missing `CARRIER_SKEY` values of `rows`, in row order: the
      column that `value_counts` and `groupby('CARRIER_SKEY')` work on. */
  function CarrierKeys(rows: seq<LoadRecord>): (r: seq<CarrierKey>)
    ensures |r| <= |rows|
  {
    if |rows| == 0 then []
    else if rows[0].carrier.Some? then [rows[0].carrier.value] + CarrierKeys(rows[1..])
    else CarrierKeys(rows[1..])
  }

  /** Counting a key in the carrier column is counting the carrier's rows. */
  lemma {:induction false} OccCarrierKeys(rows: seq<LoadRecord>, c: CarrierKey)
    ensures Occ(CarrierKeys(rows), c) == CarrierCount(rows, c)
  {
    if |rows| > 0 {
      OccCarrierKeys(rows[1..], c);
      if rows[0].carrier.Some? {
        var k := [rows[0].carrier.value] + CarrierKeys(rows[1..]);
        assert k[1..] == CarrierKeys(rows[1..]);
      }
    }
  }
}
