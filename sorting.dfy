/** The stable sort the snapshot handler applies (`Array.prototype.sort` with the
    comparator), given as insertion sort, and the three facts that pin it down:
    the result is a permutation of the input, ordered by the comparator, and
    records with equal sort values keep their input order. */
module StableSort {
  import opened Products
  import opened Comparator

  /** `s` is ordered: no record is after a later one under `order`. */
  predicate SortedBy(s: seq<Product>, order: SortOrder)
  {
    forall i, j :: 0 <= i < j < |s| ==> Compare(s[i], s[j], order) <= 0
  }

  /** The records of `s` whose sort-column value is `k`, in their order in `s`. */
  function WithKey(s: seq<Product>, column: Column, k: Key): (r: seq<Product>)
    ensures |r| <= |s|
  {
    if s == [] then []
    else (if KeyOf(s[0], column) == k then [s[0]] else []) + WithKey(s[1..], column, k)
  }

  /** Puts `x` in front of the first record it is not after. */
  function Insert(x: Product, s: seq<Product>, order: SortOrder): (r: seq<Product>)
  {
    if s == [] then [x]
    else if Compare(x, s[0], order) <= 0 then [x] + s
    else [s[0]] + Insert(x, s[1..], order)
  }

  /** The sorted copy of `s`. */
  function SortBy(s: seq<Product>, order: SortOrder): (r: seq<Product>)
  {
    if s == [] then [] else Insert(s[0], SortBy(s[1..], order), order)
  }

  lemma {:induction false} InsertPermutation(x: Product, s: seq<Product>, order: SortOrder)
    ensures multiset(Insert(x, s, order)) == multiset(s) + multiset{x}
  {
    if s != [] && Compare(x, s[0], order) > 0 {
      InsertPermutation(x, s[1..], order);
      assert s == [s[0]] + s[1..];
    }
  }

  /** A record not after the head of an ordered sequence can lead it. */
  lemma PrependSorted(x: Product, s: seq<Product>, order: SortOrder)
    requires SortedBy(s, order)
    requires forall j :: 0 <= j < |s| ==> Compare(x, s[j], order) <= 0
    ensures SortedBy([x] + s, order)
  {
  }

  lemma {:induction false} InsertSorted(x: Product, s: seq<Product>, order: SortOrder)
    requires SortedBy(s, order)
    ensures SortedBy(Insert(x, s, order), order)
  {
    if s == [] {
    } else if Compare(x, s[0], order) <= 0 {
      forall j | 0 <= j < |s| ensures Compare(x, s[j], order) <= 0 {
        if j > 0 { CompareTransitive(x, s[0], s[j], order); }
      }
      PrependSorted(x, s, order);
    } else {
      var t := Insert(x, s[1..], order);
      assert SortedBy(s[1..], order);
      InsertSorted(x, s[1..], order);
      InsertPermutation(x, s[1..], order);
      CompareAntisymmetric(x, s[0], order);
      forall j | 0 <= j < |t| ensures Compare(s[0], t[j], order) <= 0 {
        assert t[j] in multiset(t);
        if t[j] != x {
          assert t[j] in multiset(s[1..]);
          var k :| 0 <= k < |s[1..]| && s[1..][k] == t[j];
          assert s[k + 1] == t[j];
        }
      }
      PrependSorted(s[0], t, order);
    }
  }

  /** Inserting `x` adds it in front of the records with its sort value and leaves the
      relative order of every group of equal-valued records as it was. */
  lemma {:induction false} InsertWithKey(x: Product, s: seq<Product>, order: SortOrder, k: Key)
    ensures WithKey(Insert(x, s, order), order.column, k)
         == (if KeyOf(x, order.column) == k then [x] else []) + WithKey(s, order.column, k)
  {
    var c := order.column;
    var fx := if KeyOf(x, c) == k then [x] else [];
    if s == [] {
    } else if Compare(x, s[0], order) <= 0 {
      assert WithKey([x] + s, c, k) == fx + WithKey(s, c, k) by { assert ([x] + s)[1..] == s; }
    } else {
      var f0 := if KeyOf(s[0], c) == k then [s[0]] else [];
      var t := Insert(x, s[1..], order);
      assert Insert(x, s, order) == [s[0]] + t;
      InsertWithKey(x, s[1..], order, k);
      assert WithKey([s[0]] + t, c, k) == f0 + WithKey(t, c, k) by { assert ([s[0]] + t)[1..] == t; }
      assert WithKey(s, c, k) == f0 + WithKey(s[1..], c, k);
      assert f0 == [] || fx == [] by { assert KeyOf(x, c) != KeyOf(s[0], c); }
    }
  }

  /** The sort only reorders: it is a permutation of its input. */
  lemma {:induction false} SortByPermutation(s: seq<Product>, order: SortOrder)
    ensures multiset(SortBy(s, order)) == multiset(s)
  {
    if s != [] {
      SortByPermutation(s[1..], order);
      InsertPermutation(s[0], SortBy(s[1..], order), order);
      assert s == [s[0]] + s[1..];
    }
  }

  /** The sort's result is ordered by the comparator. */
  lemma {:induction false} SortBySorted(s: seq<Product>, order: SortOrder)
    ensures SortedBy(SortBy(s, order), order)
  {
    if s != [] {
      SortBySorted(s[1..], order);
      InsertSorted(s[0], SortBy(s[1..], order), order);
    }
  }

  /** The sort is stable: for every value of the sort column, the records holding it
      appear in the result in the same order as in the input. */
  lemma {:induction false} SortByStable(s: seq<Product>, order: SortOrder, k: Key)
    ensures WithKey(SortBy(s, order), order.column, k) == WithKey(s, order.column, k)
  {
    if s != [] {
      SortByStable(s[1..], order, k);
      InsertWithKey(s[0], SortBy(s[1..], order), order, k);
    }
  }
}
