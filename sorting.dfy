/** Descending sort by a real-valued key, the model of the `sort.Slice` calls
    of the vector store (`a[i].key > a[j].key`). Go's `sort.Slice` is not
    stable; the model orders equal keys as an insertion sort does, and what is
    proved about it holds for any order of equal keys: the result is sorted
    and is a permutation of the input. */
module Sorting {

  predicate SortedDesc<T>(xs: seq<T>, key: T -> real) {
    forall i, j :: 0 <= i < j < |xs| ==> key(xs[i]) >= key(xs[j])
  }

  /** `x` placed before the first element of `ys` whose key is smaller. */
  function Insert<T>(x: T, ys: seq<T>, key: T -> real): (r: seq<T>)
    ensures |r| == |ys| + 1
  {
    if ys == [] || key(x) >= key(ys[0]) then [x] + ys
    else [ys[0]] + Insert(x, ys[1..], key)
  }

  function SortDesc<T>(xs: seq<T>, key: T -> real): (r: seq<T>)
    ensures |r| == |xs|
  {
    if xs == [] then [] else Insert(xs[0], SortDesc(xs[1..], key), key)
  }

  /** An element no smaller than any of a sorted sequence can go in front. */
  lemma PrependSorted<T>(x: T, ys: seq<T>, key: T -> real)
    requires SortedDesc(ys, key)
    requires forall y :: y in ys ==> key(y) <= key(x)
    ensures SortedDesc([x] + ys, key)
  {
    var all := [x] + ys;
    forall i, j | 0 <= i < j < |all|
      ensures key(all[i]) >= key(all[j])
    {
      assert all[j] == ys[j - 1];
      if i > 0 {
        assert all[i] == ys[i - 1];
      }
    }
  }

  lemma {:induction false} InsertPermutes<T>(x: T, ys: seq<T>, key: T -> real)
    ensures multiset(Insert(x, ys, key)) == multiset(ys) + multiset{x}
  {
    if ys != [] && key(x) < key(ys[0]) {
      InsertPermutes(x, ys[1..], key);
      assert ys == [ys[0]] + ys[1..];
    }
  }

  lemma {:induction false} InsertSorted<T>(x: T, ys: seq<T>, key: T -> real)
    requires SortedDesc(ys, key)
    ensures SortedDesc(Insert(x, ys, key), key)
  {
    if ys != [] && key(x) < key(ys[0]) {
      InsertSorted(x, ys[1..], key);
      InsertPermutes(x, ys[1..], key);
      var r := Insert(x, ys[1..], key);
      forall k | 0 <= k < |r|
        ensures key(ys[0]) >= key(r[k])
      {
        assert r[k] in multiset(r);
        assert r[k] in multiset(ys[1..]) + multiset{x};
        if r[k] != x {
          assert r[k] in ys[1..];
        }
      }
    }
  }

  /** The sort yields a descending sequence. */
  lemma {:induction false} SortDescSorted<T>(xs: seq<T>, key: T -> real)
    ensures SortedDesc(SortDesc(xs, key), key)
  {
    if xs != [] {
      SortDescSorted(xs[1..], key);
      InsertSorted(xs[0], SortDesc(xs[1..], key), key);
    }
  }

  /** The sort neither loses nor adds elements. */
  lemma {:induction false} SortDescPermutes<T>(xs: seq<T>, key: T -> real)
    ensures multiset(SortDesc(xs, key)) == multiset(xs)
  {
    if xs != [] {
      SortDescPermutes(xs[1..], key);
      InsertPermutes(xs[0], SortDesc(xs[1..], key), key);
      assert xs == [xs[0]] + xs[1..];
    }
  }

  function Min(a: int, b: int): int {
    if a <= b then a else b
  }

  function Max(a: int, b: int): int {
    if a >= b then a else b
  }

  /** `r` is a choice of the `n` best elements of `xs` (all of them when there
      are fewer), best first: nothing left out beats anything kept. */
  ghost predicate IsTopN<T>(r: seq<T>, xs: seq<T>, n: nat, key: T -> real) {
    |r| == Min(n, |xs|) &&
    SortedDesc(r, key) &&
    multiset(r) <= multiset(xs) &&
    forall x, y :: x in multiset(xs) - multiset(r) && y in r ==> key(x) <= key(y)
  }

  /** The first `n` elements of the sorted input, the way the vector store cuts
      its ranking. */
  function TakeBest<T>(xs: seq<T>, n: nat, key: T -> real): seq<T> {
    SortDesc(xs, key)[..Min(n, |xs|)]
  }

  lemma SortedTail<T>(s: seq<T>, m: nat, key: T -> real, x: T, y: T)
    requires SortedDesc(s, key) && m <= |s|
    requires x in s[m..] && y in s[..m]
    ensures key(x) <= key(y)
  {
    var i :| 0 <= i < |s[m..]| && s[m..][i] == x;
    var j :| 0 <= j < m && s[..m][j] == y;
    assert s[m + i] == x && s[j] == y;
  }

  /** Cutting the sorted input after `n` elements keeps the `n` best. */
  lemma TakeBestIsTopN<T>(xs: seq<T>, n: nat, key: T -> real)
    ensures IsTopN(TakeBest(xs, n, key), xs, n, key)
  {
    var s := SortDesc(xs, key);
    var m := Min(n, |xs|);
    SortDescSorted(xs, key);
    SortDescPermutes(xs, key);
    assert s == s[..m] + s[m..];
    assert multiset(s) == multiset(s[..m]) + multiset(s[m..]);
    forall x, y | x in multiset(xs) - multiset(s[..m]) && y in s[..m]
      ensures key(x) <= key(y)
    {
      assert x in multiset(s[m..]);
      SortedTail(s, m, key, x, y);
    }
  }
}
