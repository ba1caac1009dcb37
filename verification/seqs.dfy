/** Sequence helpers shared by every stage of the pipeline: boolean-mask
    selection, occurrence counting, de-duplication, summation and sorting. */
module Seqs {

  /** The elements of `s` as a set. */
  function Elements<T>(s: seq<T>): set<T> {
    set x | x in s
  }

  /** No value occurs twice in `s`. */
  predicate NoDup<T(==)>(s: seq<T>) {
    forall i, j :: 0 <= i < j < |s| ==> s[i] != s[j]
  }

  // ---------------------------------------------------------------------
  // Selection

  /** Keeps the elements of `s` that satisfy `p`, in their original order
      (the `df[mask]` selection). */
  function Filter<T(!new)>(s: seq<T>, p: T -> bool): (r: seq<T>)
    ensures |r| <= |s|
    ensures forall i :: 0 <= i < |r| ==> p(r[i])
    ensures forall x :: x in r <==> x in s && p(x)
  {
    if |s| == 0 then []
    else if p(s[0]) then [s[0]] + Filter(s[1..], p)
    else Filter(s[1..], p)
  }

  /** Selection distributes over concatenation: relative order is kept. */
  lemma {:induction false} FilterAppend<T(!new)>(a: seq<T>, b: seq<T>, p: T -> bool)
    ensures Filter(a + b, p) == Filter(a, p) + Filter(b, p)
  {
    if |a| == 0 {
      assert a + b == b;
    } else {
      assert (a + b)[0] == a[0];
      assert (a + b)[1..] == a[1..] + b;
      FilterAppend(a[1..], b, p);
    }
  }

  /** Two selections in a row are one selection by the conjunction. */
  lemma {:induction false} FilterFilter<T(!new)>(s: seq<T>, p: T -> bool, q: T -> bool, both: T -> bool)
    requires forall x :: both(x) == (p(x) && q(x))
    ensures Filter(Filter(s, p), q) == Filter(s, both)
  {
    if |s| > 0 {
      FilterFilter(s[1..], p, q, both);
      if p(s[0]) {
        var rest := Filter(s[1..], p);
        assert ([s[0]] + rest)[0] == s[0];
        assert ([s[0]] + rest)[1..] == rest;
      }
    }
  }

  // ---------------------------------------------------------------------
  // Counting

  /** Number of occurrences of `x` in `s`. */
  function Occ<T(==)>(s: seq<T>, x: T): (n: nat)
    ensures n <= |s|
    ensures n > 0 <==> x in s
  {
    if |s| == 0 then 0 else (if s[0] == x then 1 else 0) + Occ(s[1..], x)
  }

  lemma {:induction false} OccAppend<T>(a: seq<T>, b: seq<T>, x: T)
    ensures Occ(a + b, x) == Occ(a, x) + Occ(b, x)
  {
    if |a| == 0 {
      assert a + b == b;
    } else {
      assert (a + b)[1..] == a[1..] + b;
      OccAppend(a[1..], b, x);
    }
  }

  /** Number of elements of `s` that occur among `keys`. */
  function OccIn<T(==)>(s: seq<T>, keys: seq<T>): (n: nat)
    ensures n <= |s|
  {
    if |s| == 0 then 0 else (if s[0] in keys then 1 else 0) + OccIn(s[1..], keys)
  }

  lemma {:induction false} OccInCons<T>(s: seq<T>, k: T, keys: seq<T>)
    requires k !in keys
    ensures OccIn(s, [k] + keys) == Occ(s, k) + OccIn(s, keys)
  {
    if |s| > 0 {
      OccInCons(s[1..], k, keys);
    }
  }

  /** When every element of `s` is among `keys`, all of `s` is counted. */
  lemma {:induction false} OccInCovering<T>(s: seq<T>, keys: seq<T>)
    requires forall x :: x in s ==> x in keys
    ensures OccIn(s, keys) == |s|
  {
    if |s| > 0 {
      OccInCovering(s[1..], keys);
    }
  }

  /** The count of each key of `keys` in `s`, in the order of `keys`
      (a `value_counts` restricted to the given labels). */
  function Histogram<T(==)>(s: seq<T>, keys: seq<T>): (r: seq<real>)
    ensures |r| == |keys|
    ensures forall i :: 0 <= i < |keys| ==> r[i] == Occ(s, keys[i]) as real
  {
    if |keys| == 0 then [] else [Occ(s, keys[0]) as real] + Histogram(s, keys[1..])
  }

  // ---------------------------------------------------------------------
  // Summation

  function Sum(xs: seq<real>): real {
    if |xs| == 0 then 0.0 else xs[0] + Sum(xs[1..])
  }

  /** Counting each of a list of distinct keys and adding up the counts
      counts every element that is one of the keys, once. */
  lemma {:induction false} SumHistogram<T>(s: seq<T>, keys: seq<T>)
    requires NoDup(keys)
    ensures Sum(Histogram(s, keys)) == OccIn(s, keys) as real
  {
    if |keys| > 0 {
      assert keys == [keys[0]] + keys[1..];
      assert NoDup(keys[1..]);
      var h := Histogram(s, keys);
      assert h == [Occ(s, keys[0]) as real] + Histogram(s, keys[1..]);
      assert h[1..] == Histogram(s, keys[1..]);
      SumHistogram(s, keys[1..]);
      assert Sum(h) == Occ(s, keys[0]) as real + Sum(h[1..]);
      OccInCons(s, keys[0], keys[1..]);
      assert OccIn(s, keys) == Occ(s, keys[0]) + OccIn(s, keys[1..]);
    } else {
      OccInEmpty(s);
    }
  }

  lemma {:induction false} OccInEmpty<T>(s: seq<T>)
    ensures OccIn(s, []) == 0
  {
    if |s| > 0 {
      OccInEmpty(s[1..]);
    }
  }

  /** Corollary: the counts of distinct keys covering `s` add up to `|s|`. */
  lemma {:induction false} SumHistogramCovering<T>(s: seq<T>, keys: seq<T>)
    requires NoDup(keys)
    requires forall x :: x in s ==> x in keys
    ensures Sum(Histogram(s, keys)) == |s| as real
  {
    SumHistogram(s, keys);
    OccInCovering(s, keys);
  }

  /** Every element divided by `d`. */
  function Scale(xs: seq<real>, d: real): (r: seq<real>)
    requires d != 0.0
    ensures |r| == |xs|
    ensures forall i :: 0 <= i < |xs| ==> r[i] == xs[i] / d
  {
    if |xs| == 0 then [] else [xs[0] / d] + Scale(xs[1..], d)
  }

  lemma {:induction false} SumScale(xs: seq<real>, d: real)
    requires d != 0.0
    ensures Sum(Scale(xs, d)) == Sum(xs) / d
  {
    if |xs| > 0 {
      SumScale(xs[1..], d);
    }
  }

  // ---------------------------------------------------------------------
  // De-duplication

  /** The values of `s`, each kept at its first occurrence. */
  function Distinct<T(==,!new)>(s: seq<T>): (r: seq<T>)
    ensures NoDup(r)
    ensures forall x :: x in r <==> x in s
    ensures |r| <= |s|
  {
    if |s| == 0 then []
    else
      var init := s[..|s| - 1];
      assert s == init + [s[|s| - 1]];
      var d := Distinct(init);
      if s[|s| - 1] in init then d else d + [s[|s| - 1]]
  }

  /** A duplicate-free sequence has as many elements as its set. */
  lemma {:induction false} NoDupCard<T>(s: seq<T>)
    requires NoDup(s)
    ensures |s| == |Elements(s)|
  {
    if |s| > 0 {
      var init := s[..|s| - 1];
      assert s == init + [s[|s| - 1]];
      assert NoDup(init);
      NoDupCard(init);
      assert Elements(s) == Elements(init) + {s[|s| - 1]};
      assert s[|s| - 1] !in Elements(init);
    }
  }

  /** `Distinct` keeps exactly one copy of every value. */
  lemma DistinctCard<T(!new)>(s: seq<T>)
    ensures |Distinct(s)| == |Elements(s)|
  {
    NoDupCard(Distinct(s));
    assert Elements(Distinct(s)) == Elements(s);
  }

  // ---------------------------------------------------------------------
  // Sorting

  predicate Sorted(xs: seq<real>) {
    forall i, j :: 0 <= i <= j < |xs| ==> xs[i] <= xs[j]
  }

  function Insert(x: real, xs: seq<real>): (r: seq<real>)
    requires Sorted(xs)
    ensures Sorted(r)
    ensures |r| == |xs| + 1
    ensures multiset(r) == multiset(xs) + multiset{x}
    ensures r[0] == x || (|xs| > 0 && r[0] == xs[0])
  {
    if |xs| == 0 then [x]
    else if x <= xs[0] then [x] + xs
    else
      var rest := Insert(x, xs[1..]);
      assert xs == [xs[0]] + xs[1..];
      assert xs[0] <= rest[0];
      var r := [xs[0]] + rest;
      assert Sorted(r) by {
        forall i, j | 0 <= i <= j < |r|
          ensures r[i] <= r[j]
        {
          if i > 0 {
            assert r[i] == rest[i - 1] && r[j] == rest[j - 1];
          } else if j > 0 {
            assert r[j] == rest[j - 1];
          }
        }
      }
      r
  }

  /** Two sorted sequences with the same elements are equal: the sorted
      arrangement of a multiset is unique. */
  lemma {:induction false} SortedUnique(a: seq<real>, b: seq<real>)
    requires Sorted(a) && Sorted(b) && multiset(a) == multiset(b)
    ensures a == b
  {
    assert |a| == |multiset(a)| == |multiset(b)| == |b|;
    if |a| > 0 {
      SortedFirstIsLeast(a, b[0]);
      SortedFirstIsLeast(b, a[0]);
      MultisetTail(a, b);
      SortedTail(a);
      SortedTail(b);
      SortedUnique(a[1..], b[1..]);
      assert a == [a[0]] + a[1..] && b == [b[0]] + b[1..];
    }
  }

  lemma SortedFirstIsLeast(a: seq<real>, x: real)
    requires Sorted(a) && x in multiset(a)
    ensures a[0] <= x
  {
    var i :| 0 <= i < |a| && a[i] == x;
  }

  /** Removing an equal first element from two sequences with the same
      elements leaves the same elements. */
  lemma MultisetTail(a: seq<real>, b: seq<real>)
    requires |a| > 0 && |b| > 0 && a[0] == b[0] && multiset(a) == multiset(b)
    ensures multiset(a[1..]) == multiset(b[1..])
  {
    assert a == [a[0]] + a[1..] && b == [b[0]] + b[1..];
    forall x
      ensures multiset(a[1..])[x] == multiset(b[1..])[x]
    {
      assert multiset(a)[x] == multiset([a[0]])[x] + multiset(a[1..])[x];
      assert multiset(b)[x] == multiset([b[0]])[x] + multiset(b[1..])[x];
    }
  }

  lemma SortedTail(a: seq<real>)
    requires Sorted(a) && |a| > 0
    ensures Sorted(a[1..])
  {
    forall i, j | 0 <= i <= j < |a| - 1
      ensures a[1..][i] <= a[1..][j]
    {
      assert a[1..][i] == a[i + 1] && a[1..][j] == a[j + 1];
    }
  }

  /** Ascending order, as `Series.sort_values` leaves the values. */
  function Sort(xs: seq<real>): (r: seq<real>)
    ensures Sorted(r)
    ensures |r| == |xs|
    ensures multiset(r) == multiset(xs)
  {
    if |xs| == 0 then []
    else
      assert xs == [xs[0]] + xs[1..];
      Insert(xs[0], Sort(xs[1..]))
  }
}
