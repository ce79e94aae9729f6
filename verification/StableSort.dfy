/** OrderByDescending: the stable descending order of keyed values. */
module StableSort {
  datatype Keyed<+T> = Keyed(key: int, value: T)

  /** `x` goes after every element whose key is at least its own. */
  function Insert<T>(sorted: seq<Keyed<T>>, x: Keyed<T>): seq<Keyed<T>> {
    var n := |sorted| - 1;
    if n < 0 || sorted[n].key >= x.key then sorted + [x] else Insert(sorted[..n], x) + [sorted[n]]
  }

  function SortDescending<T>(xs: seq<Keyed<T>>): seq<Keyed<T>> {
    if xs == [] then [] else Insert(SortDescending(xs[..|xs| - 1]), xs[|xs| - 1])
  }

  ghost predicate Descending<T>(xs: seq<Keyed<T>>) {
    forall i, j :: 0 <= i < j < |xs| ==> xs[i].key >= xs[j].key
  }

  /** The elements with key `k`, in order. */
  function WithKey<T>(xs: seq<Keyed<T>>, k: int): seq<Keyed<T>> {
    if xs == [] then []
    else
      var n := |xs| - 1;
      WithKey(xs[..n], k) + if xs[n].key == k then [xs[n]] else []
  }

  lemma {:induction false} InsertMultiset<T>(sorted: seq<Keyed<T>>, x: Keyed<T>)
    ensures multiset(Insert(sorted, x)) == multiset(sorted) + multiset{x}
  {
    var n := |sorted| - 1;
    if n >= 0 && sorted[n].key < x.key {
      InsertMultiset(sorted[..n], x);
      assert sorted == sorted[..n] + [sorted[n]];
    }
  }

  lemma {:induction false} InsertKeeps<T>(sorted: seq<Keyed<T>>, x: Keyed<T>)
    requires Descending(sorted)
    ensures Descending(Insert(sorted, x))
  {
    var n := |sorted| - 1;
    if n >= 0 && sorted[n].key < x.key {
      InsertKeeps(sorted[..n], x);
      forall y | y in Insert(sorted[..n], x) ensures y.key >= sorted[n].key { InsertMembers(sorted[..n], x, y); }
      DescendingLast(Insert(sorted[..n], x), sorted[n]);
    }
  }

  lemma InsertMembers<T>(sorted: seq<Keyed<T>>, x: Keyed<T>, y: Keyed<T>)
    requires y in Insert(sorted, x)
    ensures y == x || y in sorted
  {
    InsertMultiset(sorted, x);
    assert y in multiset(Insert(sorted, x));
  }

  lemma DescendingLast<T>(xs: seq<Keyed<T>>, y: Keyed<T>)
    requires Descending(xs) && forall x :: x in xs ==> x.key >= y.key
    ensures Descending(xs + [y])
  {
  }

  lemma WithKeyLast<T>(xs: seq<Keyed<T>>, x: Keyed<T>, k: int)
    ensures WithKey(xs + [x], k) == WithKey(xs, k) + if x.key == k then [x] else []
  {
    assert (xs + [x])[..|xs|] == xs;
  }

  lemma {:induction false} InsertStable<T>(sorted: seq<Keyed<T>>, x: Keyed<T>, k: int)
    requires Descending(sorted)
    ensures WithKey(Insert(sorted, x), k) == WithKey(sorted, k) + if x.key == k then [x] else []
  {
    var n := |sorted| - 1;
    if n < 0 || sorted[n].key >= x.key {
      WithKeyLast(sorted, x, k);
    } else {
      InsertStable(sorted[..n], x, k);
      WithKeyLast(Insert(sorted[..n], x), sorted[n], k);
      WithKeyLast(sorted[..n], sorted[n], k);
      assert sorted[..n] + [sorted[n]] == sorted;
    }
  }

  /** The sort is a descending permutation ... */
  lemma {:induction false} SortDescendingSpec<T>(xs: seq<Keyed<T>>)
    ensures Descending(SortDescending(xs))
    ensures multiset(SortDescending(xs)) == multiset(xs)
    ensures |SortDescending(xs)| == |xs|
  {
    if xs != [] {
      var n := |xs| - 1;
      SortDescendingSpec(xs[..n]);
      InsertKeeps(SortDescending(xs[..n]), xs[n]);
      InsertMultiset(SortDescending(xs[..n]), xs[n]);
      assert xs == xs[..n] + [xs[n]];
      assert |multiset(SortDescending(xs))| == |SortDescending(xs)|;
    }
  }

  /** ... that keeps the order of equal keys. */
  lemma {:induction false} SortDescendingStable<T>(xs: seq<Keyed<T>>, k: int)
    ensures WithKey(SortDescending(xs), k) == WithKey(xs, k)
  {
    if xs != [] {
      var n := |xs| - 1;
      SortDescendingStable(xs[..n], k);
      SortDescendingSpec(xs[..n]);
      InsertStable(SortDescending(xs[..n]), xs[n], k);
    }
  }

  lemma {:induction false} IntoWithKey<T>(xs: seq<Keyed<T>>, k: int, i: nat) returns (p: nat)
    requires i < |xs| && xs[i].key == k
    ensures p < |WithKey(xs, k)| && WithKey(xs, k)[p] == xs[i]
  {
    var n := |xs| - 1;
    if i == n { p := |WithKey(xs[..n], k)|; } else { p := IntoWithKey(xs[..n], k, i); }
  }

  lemma {:induction false} IntoWithKeyInOrder<T>(xs: seq<Keyed<T>>, k: int, i: nat, j: nat) returns (p: nat, q: nat)
    requires i < j < |xs| && xs[i].key == xs[j].key == k
    ensures p < q < |WithKey(xs, k)| && WithKey(xs, k)[p] == xs[i] && WithKey(xs, k)[q] == xs[j]
  {
    var n := |xs| - 1;
    if j == n {
      p := IntoWithKey(xs[..n], k, i);
      q := |WithKey(xs[..n], k)|;
    } else {
      p, q := IntoWithKeyInOrder(xs[..n], k, i, j);
    }
  }

  lemma {:induction false} FromWithKey<T>(xs: seq<Keyed<T>>, k: int, p: nat) returns (i: nat)
    requires p < |WithKey(xs, k)|
    ensures i < |xs| && xs[i] == WithKey(xs, k)[p]
  {
    var n := |xs| - 1;
    if p < |WithKey(xs[..n], k)| { i := FromWithKey(xs[..n], k, p); } else { i := n; }
  }

  lemma {:induction false} FromWithKeyInOrder<T>(xs: seq<Keyed<T>>, k: int, p: nat, q: nat) returns (i: nat, j: nat)
    requires p < q < |WithKey(xs, k)|
    ensures i < j < |xs| && xs[i] == WithKey(xs, k)[p] && xs[j] == WithKey(xs, k)[q]
  {
    var n := |xs| - 1;
    if q < |WithKey(xs[..n], k)| {
      i, j := FromWithKeyInOrder(xs[..n], k, p, q);
    } else {
      i := FromWithKey(xs[..n], k, p);
      j := n;
    }
  }

  /** Elements with equal keys stand in the order they came in. */
  lemma EqualKeysInOrder<T>(xs: seq<Keyed<T>>, p: nat, q: nat) returns (i: nat, j: nat)
    requires p < q < |SortDescending(xs)| && SortDescending(xs)[p].key == SortDescending(xs)[q].key
    ensures i < j < |xs| && xs[i] == SortDescending(xs)[p] && xs[j] == SortDescending(xs)[q]
  {
    var k := SortDescending(xs)[p].key;
    SortDescendingStable(xs, k);
    var u, v := IntoWithKeyInOrder(SortDescending(xs), k, p, q);
    i, j := FromWithKeyInOrder(xs, k, u, v);
  }

  // ----- permutations -----

  ghost predicate DistinctValues<T>(xs: seq<Keyed<T>>) {
    forall i, j :: 0 <= i < j < |xs| ==> xs[i].value != xs[j].value
  }

  lemma SameMembers<T>(xs: seq<Keyed<T>>, ys: seq<Keyed<T>>)
    requires multiset(xs) == multiset(ys)
    ensures forall x :: x in xs ==> x in ys
    ensures forall y :: y in ys ==> y in xs
  {
    forall x | x in xs ensures x in ys { assert x in multiset(xs); }
    forall y | y in ys ensures y in xs { assert y in multiset(ys); }
  }

  lemma {:induction false} AtMostOnce<T>(xs: seq<Keyed<T>>, x: Keyed<T>)
    requires DistinctValues(xs)
    ensures multiset(xs)[x] <= 1
  {
    if xs != [] {
      var n := |xs| - 1;
      var init := xs[..n];
      AtMostOnce(init, x);
      assert xs == init + [xs[n]];
      if x == xs[n] { assert x !in init; }
    }
  }

  lemma Twice<T>(ys: seq<Keyed<T>>, i: nat, j: nat)
    requires i < j < |ys| && ys[i] == ys[j]
    ensures multiset(ys)[ys[i]] >= 2
  {
    assert ys == ys[..j] + [ys[j]] + ys[j + 1..];
    assert ys[i] in ys[..j];
  }

  /** A permutation of elements with distinct values has distinct values. */
  lemma PermutedDistinct<T>(xs: seq<Keyed<T>>, ys: seq<Keyed<T>>)
    requires multiset(xs) == multiset(ys) && DistinctValues(xs)
    ensures DistinctValues(ys)
  {
    SameMembers(xs, ys);
    forall i, j | 0 <= i < j < |ys| ensures ys[i].value != ys[j].value {
      if ys[i].value == ys[j].value {
        assert ys[i] in ys && ys[j] in ys;
        var p :| 0 <= p < |xs| && xs[p] == ys[i];
        var q :| 0 <= q < |xs| && xs[q] == ys[j];
        assert p == q;
        Twice(ys, i, j);
        AtMostOnce(xs, ys[i]);
      }
    }
  }
}
