/** Loads per carrier and temperature zone: the absolute-count crosstab of
    `CARRIER_SKEY` against `TEMPERATURE_ZONE`. */
module TemperatureZones {
  import opened Wrappers
  import opened Seqs
  import opened Records
  import opened Contingency

  predicate HasCarrierAndZone(r: LoadRecord) {
    r.carrier.Some? && r.temperatureZone.Some?
  }

  /** The (carrier, zone) pairs of the rows where both are present. */
  function ZonePairs(rows: seq<LoadRecord>): (r: seq<(CarrierKey, string)>)
    ensures |r| == |Filter(rows, HasCarrierAndZone)|
  {
    if |rows| == 0 then []
    else if HasCarrierAndZone(rows[0]) then
      [(rows[0].carrier.value, rows[0].temperatureZone.value)] + ZonePairs(rows[1..])
    else ZonePairs(rows[1..])
  }

  /** Number of loads of carrier `c` whose zone is recorded. */
  function ZonedLoads(rows: seq<LoadRecord>, c: CarrierKey): nat {
    if |rows| == 0 then 0
    else (if rows[0].carrier == Some(c) && rows[0].temperatureZone.Some? then 1 else 0) + ZonedLoads(rows[1..], c)
  }

  lemma {:induction false} ZonePairsOfCarrier(rows: seq<LoadRecord>, c: CarrierKey)
    ensures Occ(Firsts(ZonePairs(rows)), c) == ZonedLoads(rows, c)
  {
    if |rows| > 0 {
      ZonePairsOfCarrier(rows[1..], c);
      var rest := ZonePairs(rows[1..]);
      if HasCarrierAndZone(rows[0]) {
        var p := (rows[0].carrier.value, rows[0].temperatureZone.value);
        assert Firsts([p] + rest) == [p.0] + Firsts(rest);
      }
    }
  }

  /** The carrier-by-zone count table. */
  function CarrierZoneTable(rows: seq<LoadRecord>): (t: Table<CarrierKey, string>)
    ensures WellShaped(t)
    ensures NoDup(t.rowLabels) && forall c :: c in t.rowLabels <==>
      exists x :: x in rows && x.carrier == Some(c) && x.temperatureZone.Some?
    ensures NoDup(t.colLabels) && forall z :: z in t.colLabels <==>
      exists x :: x in rows && x.temperatureZone == Some(z) && x.carrier.Some?
    ensures forall i, j :: 0 <= i < |t.rowLabels| && 0 <= j < |t.colLabels| ==>
      t.cells[i][j] == Occ(ZonePairs(rows), (t.rowLabels[i], t.colLabels[j])) as real
  {
    forall c
      ensures c in Firsts(ZonePairs(rows)) <==> exists x :: x in rows && x.carrier == Some(c) && x.temperatureZone.Some?
    {
      CarrierLabel(rows, c);
    }
    forall z
      ensures z in Seconds(ZonePairs(rows)) <==> exists x :: x in rows && x.temperatureZone == Some(z) && x.carrier.Some?
    {
      ZoneLabel(rows, z);
    }
    CrossTab(ZonePairs(rows))
  }

  /** A carrier occurs among the pairs exactly when one of its rows has a zone. */
  lemma {:induction false} CarrierLabel(rows: seq<LoadRecord>, c: CarrierKey)
    ensures c in Firsts(ZonePairs(rows)) <==> exists x :: x in rows && x.carrier == Some(c) && x.temperatureZone.Some?
  {
    if |rows| > 0 {
      CarrierLabel(rows[1..], c);
      var rest := ZonePairs(rows[1..]);
      if HasCarrierAndZone(rows[0]) {
        var p := (rows[0].carrier.value, rows[0].temperatureZone.value);
        assert Firsts([p] + rest) == [p.0] + Firsts(rest);
      }
      if exists x :: x in rows && x.carrier == Some(c) && x.temperatureZone.Some? {
        var x :| x in rows && x.carrier == Some(c) && x.temperatureZone.Some?;
        assert x == rows[0] || x in rows[1..];
      }
    }
  }

  /** A zone occurs among the pairs exactly when one of its rows has a carrier. */
  lemma {:induction false} ZoneLabel(rows: seq<LoadRecord>, z: string)
    ensures z in Seconds(ZonePairs(rows)) <==> exists x :: x in rows && x.temperatureZone == Some(z) && x.carrier.Some?
  {
    if |rows| > 0 {
      ZoneLabel(rows[1..], z);
      var rest := ZonePairs(rows[1..]);
      if HasCarrierAndZone(rows[0]) {
        var p := (rows[0].carrier.value, rows[0].temperatureZone.value);
        assert Seconds([p] + rest) == [p.1] + Seconds(rest);
      }
      if exists x :: x in rows && x.temperatureZone == Some(z) && x.carrier.Some? {
        var x :| x in rows && x.temperatureZone == Some(z) && x.carrier.Some?;
        assert x == rows[0] || x in rows[1..];
      }
    }
  }

  /** A carrier's row of the table adds up to that carrier's loads with a
      recorded zone, and the carriers labelling rows are exactly those with
      at least one such load. */
  lemma {:induction false} CarrierRowTotal(rows: seq<LoadRecord>, i: nat)
    requires i < |CarrierZoneTable(rows).rowLabels|
    ensures Sum(CarrierZoneTable(rows).cells[i]) == ZonedLoads(rows, CarrierZoneTable(rows).rowLabels[i]) as real
    ensures ZonedLoads(rows, CarrierZoneTable(rows).rowLabels[i]) > 0
  {
    var pairs := ZonePairs(rows);
    CrossTabRowSum(pairs, i);
    ZonePairsOfCarrier(rows, CrossTab(pairs).rowLabels[i]);
  }

  /** The whole table adds up to the number of loads with both a carrier and
      a zone. */
  lemma {:induction false} ZoneGrandTotal(rows: seq<LoadRecord>)
    ensures Total(CarrierZoneTable(rows).cells) == |Filter(rows, HasCarrierAndZone)| as real
  {
    CrossTabTotal(ZonePairs(rows));
  }
}
