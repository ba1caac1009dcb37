/** On-time pick-up versus on-time drop-off: the sentinel filter and the
    joint-probability contingency table of the two flags. */
module Timeliness {
  import opened Wrappers
  import opened Seqs
  import opened Records
  import opened Contingency

  /** The placeholder meaning "not applicable / unknown" in both flags. */
  const Sentinel: real := 2.0

  /** Membership in the exclusion list `[2.0]`; a missing cell is never in it. */
  predicate IsSentinel(v: Option<real>) {
    v == Some(Sentinel)
  }

  predicate PickKept(r: LoadRecord) {
    !IsSentinel(r.onTimePick)
  }

  predicate DropKept(r: LoadRecord) {
    !IsSentinel(r.onTimeDrop)
  }

  predicate NoSentinel(r: LoadRecord) {
    !IsSentinel(r.onTimePick) && !IsSentinel(r.onTimeDrop)
  }

  /** Drops the rows whose pick flag is the sentinel, then, of the rest, the
      rows whose drop flag is the sentinel. Rows with a missing flag stay. */
  function TimelinessFilter(rows: seq<LoadRecord>): (r: seq<LoadRecord>)
    ensures forall i :: 0 <= i < |r| ==> !IsSentinel(r[i].onTimePick) && !IsSentinel(r[i].onTimeDrop)
    ensures forall x :: x in r <==> x in rows && !IsSentinel(x.onTimePick) && !IsSentinel(x.onTimeDrop)
  {
    Filter(Filter(rows, PickKept), DropKept)
  }

  /** The two successive masks select exactly what one mask on "neither flag
      is the sentinel" selects. */
  lemma TimelinessFilterIsOnePass(rows: seq<LoadRecord>)
    ensures TimelinessFilter(rows) == Filter(rows, NoSentinel)
  {
    FilterFilter(rows, PickKept, DropKept, NoSentinel);
  }

  /** Every row without the sentinel is kept, and in its original order:
      the filter works row by row and distributes over concatenation. */
  lemma {:induction false} TimelinessFilterKeepsOrder(a: seq<LoadRecord>, b: seq<LoadRecord>, x: LoadRecord)
    ensures TimelinessFilter(a + b) == TimelinessFilter(a) + TimelinessFilter(b)
    ensures TimelinessFilter([x]) == if NoSentinel(x) then [x] else []
  {
    TimelinessFilterIsOnePass(a + b);
    TimelinessFilterIsOnePass(a);
    TimelinessFilterIsOnePass(b);
    TimelinessFilterIsOnePass([x]);
    FilterAppend(a, b, NoSentinel);
    assert [x][1..] == [];
  }

  predicate BothFlags(r: LoadRecord) {
    r.onTimePick.Some? && r.onTimeDrop.Some?
  }

  function FlagPair(x: LoadRecord): (real, real)
    requires BothFlags(x)
  {
    (x.onTimePick.value, x.onTimeDrop.value)
  }

  /** The (pick, drop) pair of every row, in row order. */
  function FlagPairsOf(rows: seq<LoadRecord>): (r: seq<(real, real)>)
    requires forall i :: 0 <= i < |rows| ==> BothFlags(rows[i])
    ensures |r| == |rows|
    ensures forall i :: 0 <= i < |rows| ==> r[i] == FlagPair(rows[i])
  {
    if |rows| == 0 then [] else [FlagPair(rows[0])] + FlagPairsOf(rows[1..])
  }

  /** The observations the crosstab counts: the (pick, drop) pairs of the
      rows where both flags are present (crosstab skips a row with a missing
      value in either column). */
  function FlagPairs(rows: seq<LoadRecord>): seq<(real, real)> {
    FlagPairsOf(Filter(rows, BothFlags))
  }

  /** The `normalize='all'` contingency table of the filtered flags: one row
      per observed pick value, one column per observed drop value, each cell
      the share of complete filtered rows with that pair. The sentinel never
      labels a row or a column. With no complete row the table is empty. */
  function TimelinessTable(rows: seq<LoadRecord>): (t: Table<real, real>)
    ensures WellShaped(t)
    ensures Sentinel !in t.rowLabels && Sentinel !in t.colLabels
    ensures NoDup(t.rowLabels) && forall v :: v in t.rowLabels <==>
      exists x :: x in TimelinessFilter(rows) && x.onTimePick == Some(v) && x.onTimeDrop.Some?
    ensures NoDup(t.colLabels) && forall v :: v in t.colLabels <==>
      exists x :: x in TimelinessFilter(rows) && x.onTimeDrop == Some(v) && x.onTimePick.Some?
    ensures var pairs := FlagPairs(TimelinessFilter(rows));
      |pairs| > 0 ==> forall i, j :: 0 <= i < |t.rowLabels| && 0 <= j < |t.colLabels| ==>
        t.cells[i][j] == Occ(pairs, (t.rowLabels[i], t.colLabels[j])) as real / |pairs| as real
    ensures FlagPairs(TimelinessFilter(rows)) == [] ==> t.rowLabels == [] && t.colLabels == []
  {
    var kept := TimelinessFilter(rows);
    var complete := Filter(kept, BothFlags);
    var pairs := FlagPairs(kept);
    forall i | 0 <= i < |pairs|
      ensures pairs[i].0 != Sentinel && pairs[i].1 != Sentinel
    {
      assert complete[i] in kept;
    }
    assert Sentinel !in Firsts(pairs) && Sentinel !in Seconds(pairs);
    FlagPairsLabels(kept);
    JointShares(pairs)
  }

  /** A value labels a row (a column) of the crosstab exactly when some row
      carries it as pick (drop) flag and has the other flag as well. */
  lemma {:induction false} FlagPairsLabels(rows: seq<LoadRecord>)
    ensures forall v :: v in Firsts(FlagPairs(rows)) <==>
      exists x :: x in rows && x.onTimePick == Some(v) && x.onTimeDrop.Some?
    ensures forall v :: v in Seconds(FlagPairs(rows)) <==>
      exists x :: x in rows && x.onTimeDrop == Some(v) && x.onTimePick.Some?
  {
    forall v
      ensures v in Firsts(FlagPairs(rows)) <==> exists x :: x in rows && x.onTimePick == Some(v) && x.onTimeDrop.Some?
    {
      PickLabel(rows, v);
    }
    forall v
      ensures v in Seconds(FlagPairs(rows)) <==> exists x :: x in rows && x.onTimeDrop == Some(v) && x.onTimePick.Some?
    {
      DropLabel(rows, v);
    }
  }

  lemma {:induction false} PickLabel(rows: seq<LoadRecord>, v: real)
    ensures v in Firsts(FlagPairs(rows)) <==> exists x :: x in rows && x.onTimePick == Some(v) && x.onTimeDrop.Some?
  {
    var complete := Filter(rows, BothFlags);
    var fs := Firsts(FlagPairsOf(complete));
    assert |fs| == |complete|;
    assert forall i :: 0 <= i < |complete| ==> fs[i] == complete[i].onTimePick.value;
    if v in fs {
      var i :| 0 <= i < |fs| && fs[i] == v;
      assert complete[i] in rows;
    }
    if exists x :: x in rows && x.onTimePick == Some(v) && x.onTimeDrop.Some? {
      var x :| x in rows && x.onTimePick == Some(v) && x.onTimeDrop.Some?;
      assert x in complete;
      var i :| 0 <= i < |complete| && complete[i] == x;
      assert fs[i] == v;
    }
  }

  lemma {:induction false} DropLabel(rows: seq<LoadRecord>, v: real)
    ensures v in Seconds(FlagPairs(rows)) <==> exists x :: x in rows && x.onTimeDrop == Some(v) && x.onTimePick.Some?
  {
    var complete := Filter(rows, BothFlags);
    var ss := Seconds(FlagPairsOf(complete));
    assert |ss| == |complete|;
    assert forall i :: 0 <= i < |complete| ==> ss[i] == complete[i].onTimeDrop.value;
    if v in ss {
      var i :| 0 <= i < |ss| && ss[i] == v;
      assert complete[i] in rows;
    }
    if exists x :: x in rows && x.onTimeDrop == Some(v) && x.onTimePick.Some? {
      var x :| x in rows && x.onTimeDrop == Some(v) && x.onTimePick.Some?;
      assert x in complete;
      var i :| 0 <= i < |complete| && complete[i] == x;
      assert ss[i] == v;
    }
  }

  /** Whenever at least one filtered row has both flags, the shares add up to 1. */
  lemma {:induction false} TimelinessTableTotal(rows: seq<LoadRecord>)
    requires |Filter(TimelinessFilter(rows), BothFlags)| > 0
    ensures Total(TimelinessTable(rows).cells) == 1.0
  {
    JointSharesTotal(FlagPairs(TimelinessFilter(rows)));
  }

  // ---------------------------------------------------------------------
  // Worked example: three rows, one carrying the placeholder. The lemmas
  // after `ThreeRowExample` are its steps (filter, labels, cells), split so
  // that each stays small for the solver.

  /** Rows (pick 1, drop 1), (pick 0, drop 1) and (pick 2, drop 1): the third
      row is dropped, and the table has the two observed pick values as rows
      but only the one observed drop value as its column, each cell holding
      one half. */
  lemma {:induction false} ThreeRowExample(rows: seq<LoadRecord>)
    requires |rows| == 3
    requires rows[0].onTimePick == Some(1.0) && rows[0].onTimeDrop == Some(1.0)
    requires rows[1].onTimePick == Some(0.0) && rows[1].onTimeDrop == Some(1.0)
    requires rows[2].onTimePick == Some(2.0) && rows[2].onTimeDrop == Some(1.0)
    ensures TimelinessFilter(rows) == rows[..2]
    ensures TimelinessTable(rows).rowLabels == [1.0, 0.0]
    ensures TimelinessTable(rows).colLabels == [1.0]
    ensures TimelinessTable(rows).cells == [[0.5], [0.5]]
  {
    ThreeRowFilter(rows);
    var kept := rows[..2];
    assert Filter(kept, BothFlags) == kept by {
      assert kept == [kept[0]] + [kept[1]];
      FilterAppend([kept[0]], [kept[1]], BothFlags);
    }
    var pairs := FlagPairs(kept);
    assert |pairs| == 2 && pairs[0] == (1.0, 1.0) && pairs[1] == (0.0, 1.0);
    TwoPairTable(pairs);
  }

  lemma {:induction false} ThreeRowFilter(rows: seq<LoadRecord>)
    requires |rows| == 3
    requires rows[0].onTimePick == Some(1.0) && rows[0].onTimeDrop == Some(1.0)
    requires rows[1].onTimePick == Some(0.0) && rows[1].onTimeDrop == Some(1.0)
    requires rows[2].onTimePick == Some(2.0) && rows[2].onTimeDrop == Some(1.0)
    ensures TimelinessFilter(rows) == rows[..2]
  {
    TimelinessFilterIsOnePass(rows);
    var a, b, c := [rows[0]], [rows[1]], [rows[2]];
    assert rows == a + b + c;
    FilterAppend(a + b, c, NoSentinel);
    FilterAppend(a, b, NoSentinel);
    assert Filter(a, NoSentinel) == a;
    assert Filter(b, NoSentinel) == b;
    assert Filter(c, NoSentinel) == [];
  }

  lemma {:induction false} TwoPairTable(pairs: seq<(real, real)>)
    requires |pairs| == 2 && pairs[0] == (1.0, 1.0) && pairs[1] == (0.0, 1.0)
    ensures JointShares(pairs).rowLabels == [1.0, 0.0]
    ensures JointShares(pairs).colLabels == [1.0]
    ensures JointShares(pairs).cells == [[0.5], [0.5]]
  {
    TwoPairLabels(pairs);
    TwoPairCells(pairs);
    HalfColumn(JointShares(pairs));
  }

  lemma {:induction false} TwoPairCells(pairs: seq<(real, real)>)
    requires |pairs| == 2 && pairs[0] == (1.0, 1.0) && pairs[1] == (0.0, 1.0)
    requires JointShares(pairs).rowLabels == [1.0, 0.0]
    requires JointShares(pairs).colLabels == [1.0]
    ensures JointShares(pairs).cells[0][0] == 0.5
    ensures JointShares(pairs).cells[1][0] == 0.5
  {
    var t := JointShares(pairs);
    assert t.rowLabels[0] == 1.0 && t.rowLabels[1] == 0.0 && t.colLabels[0] == 1.0;
    OccTwo(pairs, (1.0, 1.0));
    OccTwo(pairs, (0.0, 1.0));
    assert t.cells[0][0] == Occ(pairs, (t.rowLabels[0], t.colLabels[0])) as real / |pairs| as real;
    assert t.cells[1][0] == Occ(pairs, (t.rowLabels[1], t.colLabels[0])) as real / |pairs| as real;
  }

  /** A well-shaped two-by-one table whose two cells are one half. */
  lemma HalfColumn(t: Table<real, real>)
    requires WellShaped(t) && |t.rowLabels| == 2 && |t.colLabels| == 1
    requires t.cells[0][0] == 0.5 && t.cells[1][0] == 0.5
    ensures t.cells == [[0.5], [0.5]]
  {
    assert t.cells[0] == [0.5];
    assert t.cells[1] == [0.5];
  }

  /** Occurrences in a two-element sequence. */
  lemma {:induction false} OccTwo<T>(s: seq<T>, x: T)
    requires |s| == 2
    ensures Occ(s, x) == (if s[0] == x then 1 else 0) + (if s[1] == x then 1 else 0)
  {
    assert s[1..][1..] == [];
  }

  lemma {:induction false} TwoPairLabels(pairs: seq<(real, real)>)
    requires |pairs| == 2 && pairs[0] == (1.0, 1.0) && pairs[1] == (0.0, 1.0)
    ensures JointShares(pairs).rowLabels == [1.0, 0.0]
    ensures JointShares(pairs).colLabels == [1.0]
  {
    var f, g := Firsts(pairs), Seconds(pairs);
    assert |f| == 2 && f[0] == 1.0 && f[1] == 0.0;
    assert |g| == 2 && g[0] == 1.0 && g[1] == 1.0;
    DistinctTwo(f);
    DistinctTwo(g);
  }

  /** `Distinct` of a two-element sequence. */
  lemma {:induction false} DistinctTwo(s: seq<real>)
    requires |s| == 2
    ensures Distinct(s) == if s[0] == s[1] then [s[0]] else [s[0], s[1]]
  {
    var init := s[..1];
    assert init[..0] == [];
    assert Distinct(init[..0]) == [];
    assert Distinct(init) == [s[0]];
    assert s[..|s| - 1] == init;
    assert s[1] in init <==> s[0] == s[1];
  }
}
