/**
 * Python's `sorted(xs, key=...)` (a stable ascending sort) and the
 * "4th from the top" read `sorted(...)[-4]`, over any element type and an
 * integer sort key.
 */
module Sorting {
  import opened Outcomes

  /** `s` is ascending by `key`. */
  ghost predicate SortedBy<T>(s: seq<T>, key: T -> int) {
    forall i, j :: 0 <= i < j < |s| ==> key(s[i]) <= key(s[j])
  }

  /** Puts `x` in front of the first element of `s` whose key is at least `key(x)`. */
  function Insert<T>(x: T, s: seq<T>, key: T -> int): (r: seq<T>)
    ensures |r| == |s| + 1
    ensures multiset(r) == multiset(s) + multiset{x}
    ensures forall k :: 0 <= k < |r| ==> r[k] == x || r[k] in s
    ensures SortedBy(s, key) ==> SortedBy(r, key)
  {
    if s == [] || key(x) <= key(s[0]) then
      InsertFrontSorted(x, s, key);
      [x] + s
    else
      var rest := Insert(x, s[1..], key);
      assert s == [s[0]] + s[1..];
      InsertBehindSorted(s[0], rest, s[1..], key, x);
      [s[0]] + rest
  }

  lemma {:induction false} InsertFrontSorted<T>(x: T, s: seq<T>, key: T -> int)
    requires s == [] || key(x) <= key(s[0])
    ensures SortedBy(s, key) ==> SortedBy([x] + s, key)
  {
  }

  lemma {:induction false} InsertBehindSorted<T>(y: T, rest: seq<T>, tail: seq<T>, key: T -> int, x: T)
    requires key(y) < key(x)
    requires forall k :: 0 <= k < |rest| ==> rest[k] == x || rest[k] in tail
    requires SortedBy([y] + tail, key) ==> SortedBy(rest, key)
    ensures SortedBy([y] + tail, key) ==> SortedBy([y] + rest, key)
  {
    if SortedBy([y] + tail, key) {
      forall k | 0 <= k < |rest| ensures key(y) <= key(rest[k]) {
        if rest[k] != x {
          var j :| 0 <= j < |tail| && tail[j] == rest[k];
          assert ([y] + tail)[0] == y && ([y] + tail)[j + 1] == tail[j];
        }
      }
    }
  }

  /**
   * Stable ascending sort by `key`: the result is the input rearranged, in
   * ascending key order (see also SortByIsStable).
   */
  function SortBy<T>(xs: seq<T>, key: T -> int): (r: seq<T>)
    ensures |r| == |xs|
    ensures multiset(r) == multiset(xs)
    ensures SortedBy(r, key)
  {
    if xs == [] then []
    else
      assert xs == [xs[0]] + xs[1..];
      Insert(xs[0], SortBy(xs[1..], key), key)
  }

  /** The elements of `s` whose key is exactly `k`, in their order in `s`. */
  function WithKey<T>(s: seq<T>, key: T -> int, k: int): seq<T> {
    if s == [] then []
    else (if key(s[0]) == k then [s[0]] else []) + WithKey(s[1..], key, k)
  }

  lemma {:induction false} WithKeyCons<T>(y: T, t: seq<T>, key: T -> int, k: int)
    ensures WithKey([y] + t, key, k) == (if key(y) == k then [y] else []) + WithKey(t, key, k)
  {
    assert ([y] + t)[0] == y && ([y] + t)[1..] == t;
  }

  lemma {:induction false} InsertKeepsEqualKeysInOrder<T>(x: T, s: seq<T>, key: T -> int, k: int)
    ensures WithKey(Insert(x, s, key), key, k) == (if key(x) == k then [x] else []) + WithKey(s, key, k)
  {
    if s == [] || key(x) <= key(s[0]) {
      assert Insert(x, s, key) == [x] + s;
      WithKeyCons(x, s, key, k);
    } else {
      var rest := Insert(x, s[1..], key);
      assert Insert(x, s, key) == [s[0]] + rest;
      InsertKeepsEqualKeysInOrder(x, s[1..], key, k);
      WithKeyCons(s[0], rest, key, k);
      WithKeyCons(s[0], s[1..], key, k);
      assert [s[0]] + s[1..] == s;
    }
  }

  /**
   * Stability: among elements with equal keys, the sort keeps the input
   * order (Python's sort is guaranteed stable).
   */
  lemma {:induction false} SortByIsStable<T>(xs: seq<T>, key: T -> int, k: int)
    ensures WithKey(SortBy(xs, key), key, k) == WithKey(xs, key, k)
  {
    if xs != [] {
      SortByIsStable(xs[1..], key, k);
      InsertKeepsEqualKeysInOrder(xs[0], SortBy(xs[1..], key), key, k);
    }
  }

  /** How many elements of `s` have a key of at least `c`. */
  function NumAtLeast<T>(s: seq<T>, key: T -> int, c: int): (n: nat)
    ensures n <= |s|
  {
    if s == [] then 0
    else (if key(s[0]) >= c then 1 else 0) + NumAtLeast(s[1..], key, c)
  }

  lemma {:induction false} NumAtLeastInsert<T>(x: T, s: seq<T>, key: T -> int, c: int)
    ensures NumAtLeast(Insert(x, s, key), key, c) == (if key(x) >= c then 1 else 0) + NumAtLeast(s, key, c)
  {
    if s == [] || key(x) <= key(s[0]) {
      assert ([x] + s)[1..] == s;
    } else {
      var rest := Insert(x, s[1..], key);
      NumAtLeastInsert(x, s[1..], key, c);
      assert ([s[0]] + rest)[1..] == rest;
    }
  }

  /** Sorting does not change how many elements reach a given key. */
  lemma {:induction false} NumAtLeastSortBy<T>(xs: seq<T>, key: T -> int, c: int)
    ensures NumAtLeast(SortBy(xs, key), key, c) == NumAtLeast(xs, key, c)
  {
    if xs != [] {
      NumAtLeastSortBy(xs[1..], key, c);
      NumAtLeastInsert(xs[0], SortBy(xs[1..], key), key, c);
    }
  }

  /** Raising the bar never admits more elements. */
  lemma {:induction false} NumAtLeastAntitone<T>(s: seq<T>, key: T -> int, c: int, d: int)
    requires c <= d
    ensures NumAtLeast(s, key, d) <= NumAtLeast(s, key, c)
  {
    if s != [] {
      NumAtLeastAntitone(s[1..], key, c, d);
    }
  }

  /** A key that is pointwise larger admits at least as many elements. */
  lemma {:induction false} NumAtLeastMonotone<T>(s: seq<T>, lower: T -> int, upper: T -> int, c: int)
    requires forall x :: x in s ==> lower(x) <= upper(x)
    ensures NumAtLeast(s, lower, c) <= NumAtLeast(s, upper, c)
  {
    if s != [] {
      assert s[0] in s;
      assert forall x :: x in s[1..] ==> x in s;
      NumAtLeastMonotone(s[1..], lower, upper, c);
    }
  }

  /**
   * In an ascending sequence, the element at index `i` is reached by the
   * `|s| - i` elements from `i` on, and strictly exceeded by at most the
   * `|s| - i - 1` elements after it.
   */
  lemma {:induction false} SortedRank<T>(s: seq<T>, key: T -> int, i: nat)
    requires SortedBy(s, key) && i < |s|
    ensures NumAtLeast(s, key, key(s[i])) >= |s| - i
    ensures NumAtLeast(s, key, key(s[i]) + 1) <= |s| - i - 1
  {
    assert SortedBy(s[1..], key);
    if i == 0 {
      if |s| > 1 {
        SortedRank(s[1..], key, 0);
        NumAtLeastAntitone(s[1..], key, key(s[0]), key(s[1]));
      }
    } else {
      SortedRank(s[1..], key, i - 1);
    }
  }

  /** `c` is the 4th-largest key in `xs`: at most 3 keys exceed it and at least 4 reach it. */
  ghost predicate IsFourthLargest<T>(xs: seq<T>, key: T -> int, c: int) {
    NumAtLeast(xs, key, c + 1) <= 3 && NumAtLeast(xs, key, c) >= 4
  }

  /** In a sorted rearrangement of `xs`, the element 4th from the top has the 4th-largest key. */
  lemma {:induction false} FourthOfSortedIsFourthLargest<T>(xs: seq<T>, sorted: seq<T>, key: T -> int)
    requires |sorted| == |xs| >= 4 && SortedBy(sorted, key)
    requires forall c :: NumAtLeast(sorted, key, c) == NumAtLeast(xs, key, c)
    ensures IsFourthLargest(xs, key, key(sorted[|xs| - 4]))
  {
    SortedRank(sorted, key, |xs| - 4);
  }

  /** Sorting keeps every count. */
  lemma {:induction false} SortByKeepsCounts<T>(xs: seq<T>, key: T -> int)
    ensures forall c :: NumAtLeast(SortBy(xs, key), key, c) == NumAtLeast(xs, key, c)
  {
    forall c {
      NumAtLeastSortBy(xs, key, c);
    }
  }

  /** `sorted(xs, key=key)[-4]`, read through `key`; `IndexError` below four elements. */
  function FourthFromTop<T>(xs: seq<T>, key: T -> int): (r: Result<int>)
    ensures r.Ok? <==> |xs| >= 4
    ensures r.Err? ==> r.error == IndexError
    ensures r.Ok? ==> IsFourthLargest(xs, key, r.value)
  {
    var sorted := SortBy(xs, key);
    if |sorted| < 4 then Err(IndexError)
    else
      SortByKeepsCounts(xs, key);
      FourthOfSortedIsFourthLargest(xs, sorted, key);
      Ok(key(sorted[|sorted| - 4]))
  }

  /** The two counting conditions pin the 4th-largest key down uniquely. */
  lemma {:induction false} FourthLargestIsUnique<T>(xs: seq<T>, key: T -> int, c: int, d: int)
    requires IsFourthLargest(xs, key, c) && IsFourthLargest(xs, key, d)
    ensures c == d
  {
    if c < d {
      NumAtLeastAntitone(xs, key, c + 1, d);
    } else if d < c {
      NumAtLeastAntitone(xs, key, d + 1, c);
    }
  }

  /** Under a pointwise larger key, the 4th-largest value cannot be smaller. */
  lemma {:induction false} FourthLargestMonotone<T>(xs: seq<T>, lower: T -> int, upper: T -> int, c: int, d: int)
    requires forall x :: x in xs ==> lower(x) <= upper(x)
    requires IsFourthLargest(xs, lower, c) && IsFourthLargest(xs, upper, d)
    ensures c <= d
  {
    NumAtLeastMonotone(xs, lower, upper, c);
    if d < c {
      NumAtLeastAntitone(xs, upper, d + 1, c);
    }
  }

  /** A pointwise larger key gives a 4th-from-top value at least as large. */
  lemma {:induction false} FourthFromTopMonotone<T>(xs: seq<T>, lower: T -> int, upper: T -> int)
    requires forall x :: x in xs ==> lower(x) <= upper(x)
    ensures FourthFromTop(xs, lower).Ok? ==> FourthFromTop(xs, lower).value <= FourthFromTop(xs, upper).value
  {
    var r, q := FourthFromTop(xs, lower), FourthFromTop(xs, upper);
    if r.Ok? {
      FourthLargestMonotone(xs, lower, upper, r.value, q.value);
    }
  }
}
