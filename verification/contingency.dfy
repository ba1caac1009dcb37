/** Cross-tabulation of two categorical columns (`pd.crosstab`): one row per
    distinct value of the first column, one column per distinct value of the
    second, each cell the number of input rows carrying that value pair;
    optionally divided by the grand total (`normalize='all'`). Rows with a
    missing value in either column never reach the table: callers pass only
    complete pairs. */
module Contingency {
  import opened Seqs

  /** A labelled matrix: `cells[i][j]` belongs to `(rowLabels[i], colLabels[j])`. */
  datatype Table<R, C> = Table(rowLabels: seq<R>, colLabels: seq<C>, cells: seq<seq<real>>)

  predicate WellShaped<R, C>(t: Table<R, C>) {
    && |t.cells| == |t.rowLabels|
    && forall i :: 0 <= i < |t.cells| ==> |t.cells[i]| == |t.colLabels|
  }

  function Firsts<R, C>(pairs: seq<(R, C)>): (r: seq<R>)
    ensures |r| == |pairs|
    ensures forall i :: 0 <= i < |pairs| ==> r[i] == pairs[i].0
  {
    if |pairs| == 0 then [] else [pairs[0].0] + Firsts(pairs[1..])
  }

  function Seconds<R, C>(pairs: seq<(R, C)>): (r: seq<C>)
    ensures |r| == |pairs|
    ensures forall i :: 0 <= i < |pairs| ==> r[i] == pairs[i].1
  {
    if |pairs| == 0 then [] else [pairs[0].1] + Seconds(pairs[1..])
  }

  /** The second components of the pairs whose first component is `row`. */
  function SecondsOf<R(==), C>(pairs: seq<(R, C)>, row: R): (r: seq<C>)
    ensures |r| == Occ(Firsts(pairs), row)
    ensures forall i :: 0 <= i < |r| ==> r[i] in Seconds(pairs)
  {
    if |pairs| == 0 then []
    else
      var rest := SecondsOf(pairs[1..], row);
      assert Firsts(pairs) == [pairs[0].0] + Firsts(pairs[1..]);
      assert Seconds(pairs) == [pairs[0].1] + Seconds(pairs[1..]);
      if pairs[0].0 == row then [pairs[0].1] + rest else rest
  }

  lemma {:induction false} OccSecondsOf<R, C>(pairs: seq<(R, C)>, row: R, col: C)
    ensures Occ(SecondsOf(pairs, row), col) == Occ(pairs, (row, col))
  {
    if |pairs| > 0 {
      OccSecondsOf(pairs[1..], row, col);
    }
  }

  /** One histogram row per label of `rows`, over the labels `cols`. */
  function CountMatrix<R(==), C(==)>(pairs: seq<(R, C)>, rows: seq<R>, cols: seq<C>): (m: seq<seq<real>>)
    ensures |m| == |rows|
    ensures forall i :: 0 <= i < |rows| ==> m[i] == Histogram(SecondsOf(pairs, rows[i]), cols)
  {
    if |rows| == 0 then [] else [Histogram(SecondsOf(pairs, rows[0]), cols)] + CountMatrix(pairs, rows[1..], cols)
  }

  /** The absolute-count contingency table of `pairs`. Its labels are the
      distinct observed values (in first-occurrence order) and every cell
      counts the pairs equal to its label pair; unobserved combinations of
      observed labels hold 0. */
  function CrossTab<R(==,!new), C(==,!new)>(pairs: seq<(R, C)>): (t: Table<R, C>)
    ensures WellShaped(t)
    ensures NoDup(t.rowLabels) && forall r :: r in t.rowLabels <==> r in Firsts(pairs)
    ensures NoDup(t.colLabels) && forall c :: c in t.colLabels <==> c in Seconds(pairs)
    ensures forall i, j :: 0 <= i < |t.rowLabels| && 0 <= j < |t.colLabels| ==>
      t.cells[i][j] == Occ(pairs, (t.rowLabels[i], t.colLabels[j])) as real
  {
    var rows := Distinct(Firsts(pairs));
    var cols := Distinct(Seconds(pairs));
    OccSecondsOfAll(pairs);
    Table(rows, cols, CountMatrix(pairs, rows, cols))
  }

  lemma {:induction false} OccSecondsOfAll<R, C>(pairs: seq<(R, C)>)
    ensures forall row, col :: Occ(SecondsOf(pairs, row), col) == Occ(pairs, (row, col))
  {
    forall row, col
      ensures Occ(SecondsOf(pairs, row), col) == Occ(pairs, (row, col))
    {
      OccSecondsOf(pairs, row, col);
    }
  }

  // ---------------------------------------------------------------------
  // Margins

  function RowSums(cells: seq<seq<real>>): (r: seq<real>)
    ensures |r| == |cells|
    ensures forall i :: 0 <= i < |cells| ==> r[i] == Sum(cells[i])
  {
    if |cells| == 0 then [] else [Sum(cells[0])] + RowSums(cells[1..])
  }

  /** The grand total of a matrix. */
  function Total(cells: seq<seq<real>>): real {
    Sum(RowSums(cells))
  }

  /** A row of the count table adds up to the number of pairs carrying that
      row label. */
  lemma {:induction false} CrossTabRowSum<R(!new), C(!new)>(pairs: seq<(R, C)>, i: nat)
    requires i < |CrossTab(pairs).rowLabels|
    ensures Sum(CrossTab(pairs).cells[i]) == Occ(Firsts(pairs), CrossTab(pairs).rowLabels[i]) as real
  {
    var t := CrossTab(pairs);
    var s := SecondsOf(pairs, t.rowLabels[i]);
    SumHistogramCovering(s, t.colLabels);
  }

  /** The count table adds up to the number of pairs. */
  lemma {:induction false} CrossTabTotal<R(!new), C(!new)>(pairs: seq<(R, C)>)
    ensures Total(CrossTab(pairs).cells) == |pairs| as real
  {
    var t := CrossTab(pairs);
    forall i | 0 <= i < |t.rowLabels|
      ensures RowSums(t.cells)[i] == Histogram(Firsts(pairs), t.rowLabels)[i]
    {
      CrossTabRowSum(pairs, i);
    }
    assert RowSums(t.cells) == Histogram(Firsts(pairs), t.rowLabels);
    SumHistogramCovering(Firsts(pairs), t.rowLabels);
  }

  // ---------------------------------------------------------------------
  // Normalisation over the whole table

  function ScaleRows(cells: seq<seq<real>>, d: real): (r: seq<seq<real>>)
    requires d != 0.0
    ensures |r| == |cells|
    ensures forall i :: 0 <= i < |cells| ==> r[i] == Scale(cells[i], d)
  {
    if |cells| == 0 then [] else [Scale(cells[0], d)] + ScaleRows(cells[1..], d)
  }

  /** Every cell divided by `total` (`normalize='all'`). */
  function NormalizeAll<R, C>(t: Table<R, C>, total: real): (n: Table<R, C>)
    requires total != 0.0
    ensures n.rowLabels == t.rowLabels && n.colLabels == t.colLabels
    ensures WellShaped(t) ==> WellShaped(n)
    ensures WellShaped(t) ==> forall i, j :: 0 <= i < |t.rowLabels| && 0 <= j < |t.colLabels| ==>
      n.cells[i][j] == t.cells[i][j] / total
  {
    Table(t.rowLabels, t.colLabels, ScaleRows(t.cells, total))
  }

  /** The `normalize='all'` table of `pairs`: the count table with every cell
      divided by the number of pairs, so that each cell is the share of the
      pairs equal to its label pair. Without pairs the table is empty. */
  function JointShares<R(==,!new), C(==,!new)>(pairs: seq<(R, C)>): (t: Table<R, C>)
    ensures WellShaped(t)
    ensures NoDup(t.rowLabels) && forall r :: r in t.rowLabels <==> r in Firsts(pairs)
    ensures NoDup(t.colLabels) && forall c :: c in t.colLabels <==> c in Seconds(pairs)
    ensures |pairs| > 0 ==> forall i, j :: 0 <= i < |t.rowLabels| && 0 <= j < |t.colLabels| ==>
      t.cells[i][j] == Occ(pairs, (t.rowLabels[i], t.colLabels[j])) as real / |pairs| as real
    ensures |pairs| == 0 ==> t.rowLabels == [] && t.colLabels == []
  {
    var counts := CrossTab(pairs);
    if |pairs| == 0 then counts else NormalizeAll(counts, |pairs| as real)
  }

  lemma {:induction false} TotalScaleRows(cells: seq<seq<real>>, d: real)
    requires d != 0.0
    ensures Total(ScaleRows(cells, d)) == Total(cells) / d
  {
    if |cells| > 0 {
      var sr := ScaleRows(cells, d);
      TotalScaleRows(cells[1..], d);
      SumScale(cells[0], d);
      assert sr[1..] == ScaleRows(cells[1..], d);
      TotalCons(sr);
      TotalCons(cells);
      DivAdd(Sum(cells[0]), Total(cells[1..]), d);
    }
  }

  lemma TotalCons(cells: seq<seq<real>>)
    requires |cells| > 0
    ensures Total(cells) == Sum(cells[0]) + Total(cells[1..])
  {
    assert RowSums(cells)[1..] == RowSums(cells[1..]);
  }

  lemma DivAdd(a: real, b: real, d: real)
    requires d != 0.0
    ensures a / d + b / d == (a + b) / d
  {
  }

  /** Dividing by the grand total yields a table that adds up to 1. */
  lemma TotalNormalize<R, C>(t: Table<R, C>, total: real)
    requires total != 0.0 && Total(t.cells) == total
    ensures Total(NormalizeAll(t, total).cells) == 1.0
  {
    TotalScaleRows(t.cells, total);
  }

  /** The normalised count table is a joint distribution: its cells add up
      to 1 whenever there is at least one pair. */
  lemma {:induction false} JointSharesTotal<R(!new), C(!new)>(pairs: seq<(R, C)>)
    requires |pairs| > 0
    ensures Total(JointShares(pairs).cells) == 1.0
  {
    CrossTabTotal(pairs);
    TotalNormalize(CrossTab(pairs), |pairs| as real);
  }
}
