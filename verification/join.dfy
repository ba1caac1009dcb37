/** The inner join of the load-level table with the service-performance
    table on `LOAD_ID`, and the `duplicated().sum()` diagnostics printed
    about the two inputs and the result. */
module Join {
  import opened Seqs
  import opened Records

  /** One row of the joined table: a load row next to a service row with
      the same id. */
  datatype JoinedRow = JoinedRow(load: LoadRecord, service: ServiceRecord)

  function LoadIds(ls: seq<LoadRecord>): (r: seq<LoadId>)
    ensures |r| == |ls|
    ensures forall i :: 0 <= i < |ls| ==> r[i] == ls[i].loadId
  {
    if |ls| == 0 then [] else [ls[0].loadId] + LoadIds(ls[1..])
  }

  function ServiceIds(rs: seq<ServiceRecord>): (r: seq<LoadId>)
    ensures |r| == |rs|
    ensures forall i :: 0 <= i < |rs| ==> r[i] == rs[i].loadId
  {
    if |rs| == 0 then [] else [rs[0].loadId] + ServiceIds(rs[1..])
  }

  function JoinIds(js: seq<JoinedRow>): (r: seq<LoadId>)
    ensures |r| == |js|
    ensures forall i :: 0 <= i < |js| ==> r[i] == js[i].load.loadId
  {
    if |js| == 0 then [] else [js[0].load.loadId] + JoinIds(js[1..])
  }

  /** The service rows sharing the id of load row `l`, each paired with `l`,
      in service-table order: one joined row per matching service row. */
  function MatchesOf(l: LoadRecord, rs: seq<ServiceRecord>): (r: seq<JoinedRow>)
    ensures |r| == Occ(ServiceIds(rs), l.loadId)
    ensures forall j :: j in r <==> j.load == l && j.service in rs && j.service.loadId == l.loadId
  {
    if |rs| == 0 then []
    else
      assert ServiceIds(rs)[1..] == ServiceIds(rs[1..]);
      var rest := MatchesOf(l, rs[1..]);
      if rs[0].loadId == l.loadId then [JoinedRow(l, rs[0])] + rest else rest
  }

  /** `sum_i Occ(others, ids[i])`: how many (left, right) position pairs
      carry equal ids. */
  function MatchCount(ids: seq<LoadId>, others: seq<LoadId>): nat {
    if |ids| == 0 then 0 else Occ(others, ids[0]) + MatchCount(ids[1..], others)
  }

  /** `merge(how='inner', on='LOAD_ID')`: every pair of a load row and a
      service row with equal ids, in load-table order and, within one load
      row, in service-table order. A pair is in the result exactly when
      both rows come from their tables and their ids agree, and there is
      one result row per pair of positions. */
  function InnerJoin(ls: seq<LoadRecord>, rs: seq<ServiceRecord>): (r: seq<JoinedRow>)
    ensures forall j :: j in r <==> j.load in ls && j.service in rs && j.load.loadId == j.service.loadId
    ensures |r| == MatchCount(LoadIds(ls), ServiceIds(rs))
  {
    if |ls| == 0 then []
    else
      assert LoadIds(ls)[1..] == LoadIds(ls[1..]);
      MatchesOf(ls[0], rs) + InnerJoin(ls[1..], rs)
  }

  // ---------------------------------------------------------------------
  // Size of the join

  /** `sum over k in keys of Occ(ids, k) * Occ(others, k)`: the join size
      counted key by key. */
  function KeyProducts(ids: seq<LoadId>, others: seq<LoadId>, keys: seq<LoadId>): nat {
    if |keys| == 0 then 0
    else Occ(ids, keys[0]) * Occ(others, keys[0]) + KeyProducts(ids, others, keys[1..])
  }

  lemma {:induction false} KeyProductsEmpty(others: seq<LoadId>, keys: seq<LoadId>)
    ensures KeyProducts([], others, keys) == 0
  {
    if |keys| > 0 {
      KeyProductsEmpty(others, keys[1..]);
    }
  }

  /** One more left id `x` adds its multiplicity on the right, once, when
      it is among the (distinct) keys. */
  lemma {:induction false} KeyProductsCons(x: LoadId, ids: seq<LoadId>, others: seq<LoadId>, keys: seq<LoadId>)
    requires NoDup(keys)
    ensures KeyProducts([x] + ids, others, keys)
         == KeyProducts(ids, others, keys) + (if x in keys then Occ(others, x) else 0)
  {
    if |keys| > 0 {
      var k := keys[0];
      assert NoDup(keys[1..]);
      KeyProductsCons(x, ids, others, keys[1..]);
      assert ([x] + ids)[1..] == ids;
      var c := Occ(others, k);
      if x == k {
        assert x !in keys[1..];
        assert Occ([x] + ids, k) == 1 + Occ(ids, k);
        assert (1 + Occ(ids, k)) * c == c + Occ(ids, k) * c;
      } else {
        assert Occ([x] + ids, k) == Occ(ids, k);
        assert x in keys <==> x in keys[1..];
      }
    }
  }

  /** The join size is the sum, over distinct keys that include every id
      the two tables share, of the key's multiplicity in the load table
      times its multiplicity in the service table. */
  lemma {:induction false} MatchCountByKey(ids: seq<LoadId>, others: seq<LoadId>, keys: seq<LoadId>)
    requires NoDup(keys)
    requires forall x :: x in ids && x in others ==> x in keys
    ensures MatchCount(ids, others) == KeyProducts(ids, others, keys)
  {
    if |ids| == 0 {
      KeyProductsEmpty(others, keys);
    } else {
      var x := ids[0];
      MatchCountByKey(ids[1..], others, keys);
      assert ids == [x] + ids[1..];
      KeyProductsCons(x, ids[1..], others, keys);
    }
  }

  /** The join has as many rows as the key-by-key products over the
      distinct load ids (an id missing from the service table adds 0). */
  lemma {:induction false} JoinSize(ls: seq<LoadRecord>, rs: seq<ServiceRecord>)
    ensures |InnerJoin(ls, rs)| == KeyProducts(LoadIds(ls), ServiceIds(rs), Distinct(LoadIds(ls)))
  {
    var ids := LoadIds(ls);
    var keys := Distinct(ids);
    assert forall x :: x in ids ==> x in keys;
    MatchCountByKey(ids, ServiceIds(rs), keys);
  }

  /** When no id appears more than `m` times in the service table, the join
      has at most `m` rows per load row; in particular a service table with
      unique ids never grows the load table. */
  lemma {:induction false} JoinSizeBound(ls: seq<LoadRecord>, rs: seq<ServiceRecord>, m: nat)
    requires forall x :: Occ(ServiceIds(rs), x) <= m
    ensures |InnerJoin(ls, rs)| <= |ls| * m
  {
    MatchCountBound(LoadIds(ls), ServiceIds(rs), m);
  }

  lemma {:induction false} MatchCountBound(ids: seq<LoadId>, others: seq<LoadId>, m: nat)
    requires forall x :: Occ(others, x) <= m
    ensures MatchCount(ids, others) <= |ids| * m
  {
    if |ids| > 0 {
      MatchCountBound(ids[1..], others, m);
      assert MatchCount(ids, others) == Occ(others, ids[0]) + MatchCount(ids[1..], others);
      assert Occ(others, ids[0]) <= m;
      assert |ids| * m == m + (|ids| - 1) * m;
    }
  }

  /** The join is empty exactly when the tables share no id. */
  lemma EmptyJoinIffNoSharedId(ls: seq<LoadRecord>, rs: seq<ServiceRecord>)
    ensures InnerJoin(ls, rs) == [] <==> Elements(LoadIds(ls)) * Elements(ServiceIds(rs)) == {}
  {
    if InnerJoin(ls, rs) != [] {
      var j := InnerJoin(ls, rs)[0];
      SharedId(ls, rs, j);
      assert j.load.loadId in Elements(LoadIds(ls)) * Elements(ServiceIds(rs));
    }
    if Elements(LoadIds(ls)) * Elements(ServiceIds(rs)) != {} {
      var x :| x in Elements(LoadIds(ls)) * Elements(ServiceIds(rs));
      JoinIdsAreShared(ls, rs);
      assert x in Elements(JoinIds(InnerJoin(ls, rs)));
    }
  }

  /** A joined row's id occurs in both input id columns. */
  lemma {:induction false} SharedId(ls: seq<LoadRecord>, rs: seq<ServiceRecord>, j: JoinedRow)
    requires j in InnerJoin(ls, rs)
    ensures j.load.loadId in LoadIds(ls) && j.load.loadId in ServiceIds(rs)
  {
    var i :| 0 <= i < |ls| && ls[i] == j.load;
    var k :| 0 <= k < |rs| && rs[k] == j.service;
    assert LoadIds(ls)[i] == j.load.loadId;
    assert ServiceIds(rs)[k] == j.load.loadId;
  }

  /** The distinct ids of the join are exactly the ids the two tables
      share. */
  lemma {:induction false} JoinIdsAreShared(ls: seq<LoadRecord>, rs: seq<ServiceRecord>)
    ensures Elements(JoinIds(InnerJoin(ls, rs))) == Elements(LoadIds(ls)) * Elements(ServiceIds(rs))
  {
    forall x | x in JoinIds(InnerJoin(ls, rs))
      ensures x in LoadIds(ls) && x in ServiceIds(rs)
    {
      JoinIdShared(ls, rs, x);
    }
    forall x | x in LoadIds(ls) && x in ServiceIds(rs)
      ensures x in JoinIds(InnerJoin(ls, rs))
    {
      SharedIdJoined(ls, rs, x);
    }
  }

  lemma {:induction false} JoinIdShared(ls: seq<LoadRecord>, rs: seq<ServiceRecord>, x: LoadId)
    requires x in JoinIds(InnerJoin(ls, rs))
    ensures x in LoadIds(ls) && x in ServiceIds(rs)
  {
    var js := InnerJoin(ls, rs);
    var i :| 0 <= i < |js| && JoinIds(js)[i] == x;
    SharedId(ls, rs, js[i]);
  }

  lemma {:induction false} SharedIdJoined(ls: seq<LoadRecord>, rs: seq<ServiceRecord>, x: LoadId)
    requires x in LoadIds(ls) && x in ServiceIds(rs)
    ensures x in JoinIds(InnerJoin(ls, rs))
  {
    var js := InnerJoin(ls, rs);
    var i :| 0 <= i < |ls| && LoadIds(ls)[i] == x;
    var k :| 0 <= k < |rs| && ServiceIds(rs)[k] == x;
    var j := JoinedRow(ls[i], rs[k]);
    assert ls[i] in ls && rs[k] in rs && ls[i].loadId == rs[k].loadId;
    assert j in js;
    IdOfMember(js, j);
  }

  lemma IdOfMember(js: seq<JoinedRow>, j: JoinedRow)
    requires j in js
    ensures j.load.loadId in JoinIds(js)
  {
    var p :| 0 <= p < |js| && js[p] == j;
    assert JoinIds(js)[p] == j.load.loadId;
  }

  // ---------------------------------------------------------------------
  // Duplicate diagnostics

  /** `Series.duplicated()` with the default `keep='first'`: one flag per
      position, set exactly when the value at that position already occurred
      earlier, so the first occurrence of every value is left unflagged. */
  function Duplicated<T(==)>(s: seq<T>): (r: seq<bool>)
    ensures |r| == |s|
    ensures forall i :: 0 <= i < |s| ==> (r[i] <==> s[i] in s[..i])
  {
    if |s| == 0 then []
    else
      var init := s[..|s| - 1];
      var d := Duplicated(init);
      forall i | 0 <= i < |init|
        ensures init[..i] == s[..i]
      {
      }
      d + [s[|s| - 1] in init]
  }

  /** The number of `true` flags: `.sum()` of a boolean mask. */
  function CountTrue(bs: seq<bool>): nat {
    if |bs| == 0 then 0 else CountTrue(bs[..|bs| - 1]) + (if bs[|bs| - 1] then 1 else 0)
  }

  /** `duplicated().sum()` is the number of rows minus the number of
      distinct values. */
  lemma {:induction false} DuplicatedCount<T>(s: seq<T>)
    ensures CountTrue(Duplicated(s)) == |s| - |Elements(s)|
    ensures |Elements(s)| <= |s|
  {
    if |s| > 0 {
      var init := s[..|s| - 1];
      var x := s[|s| - 1];
      DuplicatedCount(init);
      var d := Duplicated(s);
      assert d == Duplicated(init) + [x in init];
      assert d[..|d| - 1] == Duplicated(init);
      assert CountTrue(d) == CountTrue(Duplicated(init)) + (if x in init then 1 else 0);
      ElementsSnoc(init, x);
      assert s == init + [x];
      assert |Elements(s)| == |Elements(init)| + (if x in init then 0 else 1);
    }
  }

  /** Appending `x` adds one distinct value unless `x` was already there. */
  lemma ElementsSnoc<T>(s: seq<T>, x: T)
    ensures |Elements(s + [x])| == |Elements(s)| + (if x in s then 0 else 1)
  {
    assert Elements(s + [x]) == Elements(s) + {x};
    if x in s {
      assert Elements(s + [x]) == Elements(s);
    } else {
      assert x !in Elements(s);
    }
  }

  /** The sizes printed about the join. */
  datatype JoinReport = JoinReport(
    loadRows: nat,
    serviceRows: nat,
    joinRows: nat,
    joinDuplicates: nat,
    loadDuplicates: nat,
    serviceDuplicates: nat)

  /** The three lengths and the three duplicate counts. Each duplicate count
      is its table's length minus its number of distinct ids, and for the
      join that number of distinct ids is the number of ids both inputs
      share. */
  function Report(ls: seq<LoadRecord>, rs: seq<ServiceRecord>): (r: JoinReport)
    ensures r.loadRows == |ls| && r.serviceRows == |rs|
    ensures r.joinRows == MatchCount(LoadIds(ls), ServiceIds(rs))
    ensures r.loadDuplicates == |ls| - |Elements(LoadIds(ls))|
    ensures r.serviceDuplicates == |rs| - |Elements(ServiceIds(rs))|
    ensures r.joinDuplicates == r.joinRows - |Elements(LoadIds(ls)) * Elements(ServiceIds(rs))|
  {
    var js := InnerJoin(ls, rs);
    DuplicatedCount(LoadIds(ls));
    DuplicatedCount(ServiceIds(rs));
    DuplicatedCount(JoinIds(js));
    JoinIdsAreShared(ls, rs);
    JoinReport(
      |ls|,
      |rs|,
      |js|,
      CountTrue(Duplicated(JoinIds(js))),
      CountTrue(Duplicated(LoadIds(ls))),
      CountTrue(Duplicated(ServiceIds(rs))))
  }
}
