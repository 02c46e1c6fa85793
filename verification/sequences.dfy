/**
 Sequence shapes the scripts build with nested loops and `Set`s: the
 line-major cross product of two tables, and `Array.from(new Set(xs))`.
 */
module Sequences {

  /** What is in neither part is not in their concatenation. */
  lemma NotInAppend<T>(x: T, a: seq<T>, b: seq<T>)
    requires x !in a && x !in b
    ensures x !in a + b
  {
  }

  /** The first `|a|` entries of `a + b` are `a`. */
  lemma PrefixOfAppend<T>(a: seq<T>, b: seq<T>)
    ensures (a + b)[..|a|] == a
  {
  }

  /** Behind a prefix `head`, entry `|head| + i * |ys| + j` of the cross product pairs the `i`-th `x` with the `j`-th `y`. */
  lemma CrossAt<A, B, C>(head: seq<C>, xs: seq<A>, ys: seq<B>, f: (A, B) -> C, n: nat, m: nat, i: int, j: int)
    requires |head| == n && |ys| == m
    requires 0 <= i < |xs| && 0 <= j < m
    ensures n + m * i + j < |head + Cross(xs, ys, f)|
    ensures (head + Cross(xs, ys, f))[n + m * i + j] == f(xs[i], ys[j])
  {
    CrossIndex(xs, ys, f, i, j);
    var k := i * |ys| + j;
    assert n + m * i + j == |head| + k;
    assert (head + Cross(xs, ys, f))[|head| + k] == Cross(xs, ys, f)[k];
  }

  /** One row of the cross product: `f(x, y)` for each `y` in order. */
  function MapRow<A, B, C>(x: A, ys: seq<B>, f: (A, B) -> C): (r: seq<C>)
    ensures |r| == |ys|
    ensures forall j :: 0 <= j < |ys| ==> r[j] == f(x, ys[j])
  {
    seq(|ys|, j requires 0 <= j < |ys| => f(x, ys[j]))
  }

  /** `for (x of xs) for (y of ys) out.push(f(x, y))`: the cross product in x-major order. */
  function Cross<A, B, C>(xs: seq<A>, ys: seq<B>, f: (A, B) -> C): (r: seq<C>)
    ensures |r| == |xs| * |ys|
  {
    if xs == [] then [] else MapRow(xs[0], ys, f) + Cross(xs[1..], ys, f)
  }

  /** Entry `i * |ys| + j` of the cross product pairs the `i`-th `x` with the `j`-th `y`. */
  lemma {:induction false} CrossIndex<A, B, C>(xs: seq<A>, ys: seq<B>, f: (A, B) -> C, i: int, j: int)
    requires 0 <= i < |xs| && 0 <= j < |ys|
    ensures 0 <= i * |ys| + j < |xs| * |ys|
    ensures Cross(xs, ys, f)[i * |ys| + j] == f(xs[i], ys[j])
    decreases i
  {
    var m := |ys|;
    assert i * m + j < (i + 1) * m <= |xs| * m;
    if i > 0 {
      assert i * m + j == m + ((i - 1) * m + j);
      CrossIndex(xs[1..], ys, f, i - 1, j);
    }
  }

  /** No element occurs twice. */
  predicate Distinct<T(==)>(xs: seq<T>) {
    forall i, j :: 0 <= i < j < |xs| ==> xs[i] != xs[j]
  }

  /** Different (x, y) positions give different results. */
  ghost predicate InjectiveOn<A, B, C>(xs: seq<A>, ys: seq<B>, f: (A, B) -> C) {
    forall a, b, c, d ::
      0 <= a < |xs| && 0 <= b < |ys| && 0 <= c < |xs| && 0 <= d < |ys| && f(xs[a], ys[b]) == f(xs[c], ys[d])
      ==> a == c && b == d
  }

  /** Everything in the cross product comes from some pair. */
  lemma {:induction false} CrossMember<A, B, C>(xs: seq<A>, ys: seq<B>, f: (A, B) -> C, z: C)
    requires z in Cross(xs, ys, f)
    ensures exists a, b :: 0 <= a < |xs| && 0 <= b < |ys| && z == f(xs[a], ys[b])
    decreases |xs|
  {
    if z in MapRow(xs[0], ys, f) {
      var b :| 0 <= b < |ys| && MapRow(xs[0], ys, f)[b] == z;
      assert z == f(xs[0], ys[b]);
    } else {
      CrossMember(xs[1..], ys, f, z);
      var a, b :| 0 <= a < |xs[1..]| && 0 <= b < |ys| && z == f(xs[1..][a], ys[b]);
      assert z == f(xs[a + 1], ys[b]);
    }
  }

  lemma InjectiveOnTail<A, B, C>(xs: seq<A>, ys: seq<B>, f: (A, B) -> C)
    requires xs != [] && InjectiveOn(xs, ys, f)
    ensures InjectiveOn(xs[1..], ys, f)
  {
    forall a, b, c, d |
      0 <= a < |xs| - 1 && 0 <= b < |ys| && 0 <= c < |xs| - 1 && 0 <= d < |ys|
      && f(xs[1..][a], ys[b]) == f(xs[1..][c], ys[d])
      ensures a == c && b == d
    {
      assert f(xs[a + 1], ys[b]) == f(xs[c + 1], ys[d]);
    }
  }

  lemma FirstRowDistinct<A, B, C>(xs: seq<A>, ys: seq<B>, f: (A, B) -> C)
    requires xs != [] && InjectiveOn(xs, ys, f)
    ensures Distinct(MapRow(xs[0], ys, f))
  {
    var row := MapRow(xs[0], ys, f);
    forall i, j | 0 <= i < j < |row| ensures row[i] != row[j] {
      assert row[i] == f(xs[0], ys[i]) && row[j] == f(xs[0], ys[j]);
    }
  }

  lemma FirstRowApart<A, B, C>(xs: seq<A>, ys: seq<B>, f: (A, B) -> C, z: C)
    requires xs != [] && InjectiveOn(xs, ys, f)
    requires z in Cross(xs[1..], ys, f)
    ensures z !in MapRow(xs[0], ys, f)
  {
    CrossMember(xs[1..], ys, f, z);
    var a, b :| 0 <= a < |xs| - 1 && 0 <= b < |ys| && z == f(xs[1..][a], ys[b]);
    assert z == f(xs[a + 1], ys[b]);
    var row := MapRow(xs[0], ys, f);
    forall k | 0 <= k < |row| ensures row[k] != z {
      assert row[k] == f(xs[0], ys[k]);
    }
  }

  /** The cross product of an injective `f` has no repetitions. */
  lemma {:induction false} CrossDistinct<A, B, C>(xs: seq<A>, ys: seq<B>, f: (A, B) -> C)
    requires InjectiveOn(xs, ys, f)
    ensures Distinct(Cross(xs, ys, f))
    decreases |xs|
  {
    if xs != [] {
      var row := MapRow(xs[0], ys, f);
      var rest := Cross(xs[1..], ys, f);
      InjectiveOnTail(xs, ys, f);
      CrossDistinct(xs[1..], ys, f);
      FirstRowDistinct(xs, ys, f);
      forall j | 0 <= j < |rest| ensures rest[j] !in row {
        FirstRowApart(xs, ys, f, rest[j]);
      }
      DistinctConcat(row, rest);
    }
  }

  /** Two repetition-free sequences with nothing in common concatenate to a repetition-free one. */
  lemma DistinctConcat<T>(a: seq<T>, b: seq<T>)
    requires Distinct(a) && Distinct(b)
    requires forall j :: 0 <= j < |b| ==> b[j] !in a
    ensures Distinct(a + b)
  {
    var ab := a + b;
    forall i, j | 0 <= i < j < |ab| ensures ab[i] != ab[j] {
      if i < |a| && j >= |a| {
        assert ab[j] == b[j - |a|];
      }
    }
  }

  /** `Array.from(new Set(xs))`: each element at its first occurrence, in order. */
  function Dedup<T(==)>(xs: seq<T>): (r: seq<T>)
    ensures Distinct(r)
    ensures forall i :: 0 <= i < |r| ==> r[i] in xs
    ensures forall i :: 0 <= i < |xs| ==> xs[i] in r
  {
    if xs == [] then []
    else
      var r := Dedup(xs[..|xs| - 1]);
      var x := xs[|xs| - 1];
      assert xs == xs[..|xs| - 1] + [x];
      if x in r then r else r + [x]
  }

  /** `xs.indexOf(x)` for an element of `xs`: the position of its first occurrence. */
  function FirstIndex<T(==)>(xs: seq<T>, x: T): (k: nat)
    requires x in xs
    ensures k < |xs| && xs[k] == x
    ensures forall j :: 0 <= j < k ==> xs[j] != x
  {
    if xs[0] == x then 0 else 1 + FirstIndex(xs[1..], x)
  }

  /** Appending leaves the first occurrence of an element already present where it was. */
  lemma FirstIndexSnoc<T>(xs: seq<T>, x: T, y: T)
    requires y in xs
    ensures FirstIndex(xs + [x], y) == FirstIndex(xs, y)
  {
    var k := FirstIndex(xs, y);
    var k' := FirstIndex(xs + [x], y);
    assert (xs + [x])[k] == y;
  }

  /** `Dedup` lists the distinct elements in the order of their first occurrences. */
  lemma {:induction false} DedupFirstOccurrenceOrder<T>(xs: seq<T>)
    ensures forall i, j :: 0 <= i < j < |Dedup(xs)| ==> FirstIndex(xs, Dedup(xs)[i]) < FirstIndex(xs, Dedup(xs)[j])
    decreases |xs|
  {
    if xs != [] {
      var init := xs[..|xs| - 1];
      var x := xs[|xs| - 1];
      var r := Dedup(init);
      DedupFirstOccurrenceOrder(init);
      assert xs == init + [x];
      forall y | y in r ensures FirstIndex(xs, y) == FirstIndex(init, y) {
        FirstIndexSnoc(init, x, y);
      }
      if x !in r {
        assert Dedup(xs) == r + [x];
        assert x !in init;
        assert FirstIndex(xs, x) == |init|;
      }
    }
  }

  /** The elements of `xs` that are not in `s`, in order. */
  function Without<T(==)>(xs: seq<T>, s: set<T>): (r: seq<T>)
    ensures forall i :: 0 <= i < |r| ==> r[i] in xs && r[i] !in s
    ensures forall i :: 0 <= i < |xs| ==> xs[i] in s || xs[i] in r
  {
    if xs == [] then []
    else if xs[|xs| - 1] in s then Without(xs[..|xs| - 1], s)
    else Without(xs[..|xs| - 1], s) + [xs[|xs| - 1]]
  }

  /** De-duplicating `a + b` lists `a`'s distinct elements first, then `b`'s new ones in their order. */
  lemma {:induction false} DedupAppend<T>(a: seq<T>, b: seq<T>)
    ensures Dedup(a + b) == Dedup(a) + Without(Dedup(b), set x | x in a)
    decreases |b|
  {
    var s := set x | x in a;
    if b == [] {
      assert a + b == a;
    } else {
      var b' := b[..|b| - 1];
      var x := b[|b| - 1];
      assert (a + b)[..|a + b| - 1] == a + b';
      assert (a + b)[|a + b| - 1] == x;
      DedupAppend(a, b');
      assert b[..|b| - 1] == b';
      if x in Dedup(b') {
        assert Dedup(b) == Dedup(b');
      } else {
        assert Dedup(b) == Dedup(b') + [x];
        assert Dedup(b)[..|Dedup(b)| - 1] == Dedup(b');
      }
    }
  }

  /** A sequence without repetitions is its own de-duplication. */
  lemma {:induction false} DedupOfDistinct<T>(xs: seq<T>)
    requires Distinct(xs)
    ensures Dedup(xs) == xs
    decreases |xs|
  {
    if xs != [] {
      var init := xs[..|xs| - 1];
      assert Distinct(init);
      DedupOfDistinct(init);
      assert xs[|xs| - 1] !in init;
      assert xs == init + [xs[|xs| - 1]];
    }
  }

  /** `xs.filter(keep)`: the elements satisfying `keep`, in order. */
  function Where<T>(xs: seq<T>, keep: T -> bool): (r: seq<T>)
    ensures |r| <= |xs|
    ensures forall k :: 0 <= k < |r| ==> keep(r[k]) && r[k] in xs
    ensures forall k :: 0 <= k < |xs| && keep(xs[k]) ==> xs[k] in r
  {
    if xs == [] then []
    else (if keep(xs[0]) then [xs[0]] else []) + Where(xs[1..], keep)
  }

  /** Filtering distributes over concatenation. */
  lemma {:induction false} WhereAppend<T>(a: seq<T>, b: seq<T>, keep: T -> bool)
    ensures Where(a + b, keep) == Where(a, keep) + Where(b, keep)
    decreases |a|
  {
    if a != [] {
      WhereAppend(a[1..], b, keep);
      assert (a + b)[0] == a[0];
      assert (a + b)[1..] == a[1..] + b;
    } else {
      assert a + b == b;
    }
  }

  /** Filtering twice is filtering once by both conditions. */
  lemma {:induction false} WhereWhere<T>(xs: seq<T>, p: T -> bool, q: T -> bool, both: T -> bool)
    requires forall x :: both(x) == (p(x) && q(x))
    ensures Where(Where(xs, p), q) == Where(xs, both)
    decreases |xs|
  {
    if xs != [] {
      WhereWhere(xs[1..], p, q, both);
      var rest := Where(xs[1..], p);
      if p(xs[0]) {
        assert Where(xs, p) == [xs[0]] + rest;
        assert ([xs[0]] + rest)[1..] == rest;
      } else {
        assert Where(xs, p) == rest;
      }
    }
  }
}
