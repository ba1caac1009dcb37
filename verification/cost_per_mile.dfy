/** Cost per mile: total payment divided by mileage, with the infinities a
    zero mileage produces turned into missing values, and the missing-value
    counts printed about the three columns. */
module CostPerMile {
  import opened Wrappers
  import opened Records

  /** `TOTAL_PAYMENT_AMOUNT / MILEAGE` after `replace([inf, -inf], nan)`.
      A missing mileage gives a missing quotient; a zero mileage gives
      `inf`, `-inf` or (for a zero payment) `NaN`, all missing afterwards.
      Otherwise the result times the mileage is the payment. */
  function CostPerMile(payment: real, mileage: Option<real>): (r: Option<real>)
    ensures r.None? <==> mileage.None? || mileage.value == 0.0
    ensures r.Some? ==> r.value * mileage.value == payment
  {
    match mileage
    case None => None
    case Some(m) => if m == 0.0 then None else Some(payment / m)
  }

  /** The derived column, one cell per row. */
  function CostColumn(rows: seq<LoadRecord>): (col: seq<Option<real>>)
    ensures |col| == |rows|
    ensures forall i :: 0 <= i < |rows| ==> col[i] == CostPerMile(rows[i].totalPayment, rows[i].mileage)
  {
    if |rows| == 0 then [] else [CostPerMile(rows[0].totalPayment, rows[0].mileage)] + CostColumn(rows[1..])
  }

  function MileageColumn(rows: seq<LoadRecord>): (col: seq<Option<real>>)
    ensures |col| == |rows|
    ensures forall i :: 0 <= i < |rows| ==> col[i] == rows[i].mileage
  {
    if |rows| == 0 then [] else [rows[0].mileage] + MileageColumn(rows[1..])
  }

  /** `isna().sum()`. */
  function MissingCount(col: seq<Option<real>>): (n: nat)
    ensures n <= |col|
    ensures n == 0 <==> forall i :: 0 <= i < |col| ==> col[i].Some?
  {
    if |col| == 0 then 0
    else
      var rest := MissingCount(col[1..]);
      assert forall i :: 1 <= i < |col| ==> col[i] == col[1..][i - 1];
      (if col[0].None? then 1 else 0) + rest
  }

  /** `dropna()`: the present values, in order. */
  function DropMissing(col: seq<Option<real>>): (r: seq<real>)
    ensures |r| + MissingCount(col) == |col|
    ensures forall v :: v in r <==> Some(v) in col
  {
    if |col| == 0 then []
    else
      var rest := DropMissing(col[1..]);
      assert forall v :: Some(v) in col <==> col[0] == Some(v) || Some(v) in col[1..];
      match col[0]
      case None => rest
      case Some(v) => [v] + rest
  }

  /** Rows with a recorded mileage of exactly zero. */
  function ZeroMileageCount(rows: seq<LoadRecord>): (n: nat)
    ensures n <= |rows|
  {
    if |rows| == 0 then 0
    else (if rows[0].mileage == Some(0.0) then 1 else 0) + ZeroMileageCount(rows[1..])
  }

  /** The cost column misses exactly the rows whose mileage is missing plus
      those whose mileage is zero; in particular it misses at least as many
      as the mileage column does. */
  lemma {:induction false} MissingCostCount(rows: seq<LoadRecord>)
    ensures MissingCount(CostColumn(rows)) == MissingCount(MileageColumn(rows)) + ZeroMileageCount(rows)
    ensures MissingCount(CostColumn(rows)) >= MissingCount(MileageColumn(rows))
  {
    if |rows| > 0 {
      MissingCostCount(rows[1..]);
      assert CostColumn(rows)[1..] == CostColumn(rows[1..]);
      assert MileageColumn(rows)[1..] == MileageColumn(rows[1..]);
    }
  }

  /** A zero payment over a zero mileage (pandas: `NaN`), a positive one
      (`inf`) and a negative one (`-inf`) all end up missing; 500 over 100
      miles is 5 per mile. */
  lemma CostPerMileCases()
    ensures CostPerMile(0.0, Some(0.0)).None?
    ensures CostPerMile(500.0, Some(0.0)).None?
    ensures CostPerMile(-500.0, Some(0.0)).None?
    ensures CostPerMile(500.0, None).None?
    ensures CostPerMile(500.0, Some(100.0)) == Some(5.0)
  {
  }
}
