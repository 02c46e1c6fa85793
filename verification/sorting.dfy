/**
 `Array.prototype.sort`, modelled as a stable insertion sort over a strict
 "sorts before" relation, and the default string order it uses when no
 comparator is given (code-unit by code-unit comparison).
 */
module Sorting {

  /** `less` is irreflexive and transitive. */
  ghost predicate StrictOrder<T(!new)>(less: (T, T) -> bool) {
    && (forall a :: !less(a, a))
    && (forall a, b, c :: less(a, b) && less(b, c) ==> less(a, c))
  }

  /** No element sorts strictly before an earlier one. */
  predicate SortedBy<T>(xs: seq<T>, less: (T, T) -> bool) {
    forall i, j :: 0 <= i < j < |xs| ==> !less(xs[j], xs[i])
  }

  /** Puts `x` in front of the first element it sorts strictly before, so after all its equals. */
  function Insert<T>(x: T, ys: seq<T>, less: (T, T) -> bool): (r: seq<T>)
    ensures multiset(r) == multiset(ys) + multiset{x}
  {
    if ys == [] then [x]
    else if less(x, ys[0]) then [x] + ys
    else
      assert ys == [ys[0]] + ys[1..];
      [ys[0]] + Insert(x, ys[1..], less)
  }

  /** Inserts the elements one by one, in order. */
  function InsertionSort<T>(xs: seq<T>, less: (T, T) -> bool): (r: seq<T>)
    ensures multiset(r) == multiset(xs)
  {
    if xs == [] then []
    else
      assert xs == xs[..|xs| - 1] + [xs[|xs| - 1]];
      Insert(xs[|xs| - 1], InsertionSort(xs[..|xs| - 1], less), less)
  }

  lemma {:induction false} InsertSorted<T(!new)>(x: T, ys: seq<T>, less: (T, T) -> bool)
    requires StrictOrder(less)
    requires SortedBy(ys, less)
    ensures SortedBy(Insert(x, ys, less), less)
    decreases |ys|
  {
    if ys != [] && !less(x, ys[0]) {
      var tail := ys[1..];
      InsertSorted(x, tail, less);
      var rt := Insert(x, tail, less);
      forall j | 0 <= j < |rt|
        ensures !less(rt[j], ys[0])
      {
        assert rt[j] in multiset(rt);
        if rt[j] != x {
          assert rt[j] in multiset(tail);
          var k :| 0 <= k < |tail| && tail[k] == rt[j];
          assert ys[k + 1] == rt[j];
        }
      }
      SortedCons(ys[0], rt, less);
    } else if ys != [] {
      forall j | 0 <= j < |ys|
        ensures !less(ys[j], x)
      {
        if j > 0 {
          assert !less(ys[j], ys[0]);
        }
      }
      SortedCons(x, ys, less);
    }
  }

  /** An element that nothing in a sorted sequence sorts before can go in front of it. */
  lemma SortedCons<T>(h: T, rt: seq<T>, less: (T, T) -> bool)
    requires SortedBy(rt, less)
    requires forall j :: 0 <= j < |rt| ==> !less(rt[j], h)
    ensures SortedBy([h] + rt, less)
  {
    var r := [h] + rt;
    forall i, j | 0 <= i < j < |r|
      ensures !less(r[j], r[i])
    {
      assert r[j] == rt[j - 1];
      if i > 0 {
        assert r[i] == rt[i - 1];
      }
    }
  }

  /** The result of the sort is ordered by `less`. */
  lemma {:induction false} InsertionSortSorted<T(!new)>(xs: seq<T>, less: (T, T) -> bool)
    requires StrictOrder(less)
    ensures SortedBy(InsertionSort(xs, less), less)
    decreases |xs|
  {
    if xs != [] {
      InsertionSortSorted(xs[..|xs| - 1], less);
      InsertSorted(xs[|xs| - 1], InsertionSort(xs[..|xs| - 1], less), less);
    }
  }

  /** The default order of `sort()`: code unit by code unit, a proper prefix first. */
  predicate StringLess(a: string, b: string) {
    if a == [] then b != []
    else if b == [] then false
    else if a[0] != b[0] then a[0] < b[0]
    else StringLess(a[1..], b[1..])
  }

  lemma {:induction false} StringLessIrreflexive(a: string)
    ensures !StringLess(a, a)
    decreases |a|
  {
    if a != [] {
      StringLessIrreflexive(a[1..]);
    }
  }

  lemma {:induction false} StringLessTransitive(a: string, b: string, c: string)
    requires StringLess(a, b) && StringLess(b, c)
    ensures StringLess(a, c)
    decreases |a|
  {
    if a != [] && b != [] && c != [] && a[0] == b[0] && b[0] == c[0] {
      StringLessTransitive(a[1..], b[1..], c[1..]);
    }
  }

  /** The default string order is a strict order, so the default sort sorts. */
  lemma StringLessIsStrictOrder()
    ensures StrictOrder(StringLess)
  {
    forall a ensures !StringLess(a, a) {
      StringLessIrreflexive(a);
    }
    forall a, b, c | StringLess(a, b) && StringLess(b, c)
      ensures StringLess(a, c)
    {
      StringLessTransitive(a, b, c);
    }
  }

  /** `xs.sort()` on strings. */
  function SortStrings(xs: seq<string>): (r: seq<string>)
    ensures multiset(r) == multiset(xs)
  {
    InsertionSort(xs, StringLess)
  }

  /** The default sort leaves its strings in ascending order. */
  lemma SortStringsSorted(xs: seq<string>)
    ensures SortedBy(SortStrings(xs), StringLess)
  {
    StringLessIsStrictOrder();
    InsertionSortSorted(xs, StringLess);
  }
}
