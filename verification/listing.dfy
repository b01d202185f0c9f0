/**
 * The list operations the bridge's listings are built from: Python's
 * `list.sort(key=..., reverse=True)`, which is stable (elements with equal
 * keys keep their original order), and the slice `xs[:n]`.
 */
module Listing {

  /** `xs[:n]`: a negative `n` drops that many elements from the end. */
  function Prefix<T>(xs: seq<T>, n: int): (r: seq<T>)
    ensures r <= xs
    ensures n >= 0 ==> |r| == if n <= |xs| then n else |xs|
    ensures n < 0 ==> |r| == if -n <= |xs| then |xs| + n else 0
  {
    if n >= 0 then (if n <= |xs| then xs[..n] else xs)
    else if -n <= |xs| then xs[..|xs| + n]
    else []
  }

  /** How many elements of `xs` satisfy `p`. */
  function CountWhere<T>(xs: seq<T>, p: T -> bool): nat {
    if xs == [] then 0
    else CountWhere(xs[..|xs| - 1], p) + (if p(xs[|xs| - 1]) then 1 else 0)
  }

  /** Keys never increase from left to right. */
  ghost predicate SortedDesc<T>(xs: seq<T>, key: T -> real) {
    forall i, j :: 0 <= i < j < |xs| ==> key(xs[i]) >= key(xs[j])
  }

  /**
   * Places `x`, which came after every element of `sorted` in the original
   * list, behind all elements whose key is at least its own.
   */
  function InsertDesc<T>(sorted: seq<T>, x: T, key: T -> real): (r: seq<T>)
    ensures |r| == |sorted| + 1
  {
    if sorted == [] then [x]
    else if key(sorted[0]) >= key(x) then [sorted[0]] + InsertDesc(sorted[1..], x, key)
    else [x] + sorted
  }

  /** `sorted(xs, key=key, reverse=True)`, built by stable insertion. */
  function SortDesc<T>(xs: seq<T>, key: T -> real): (r: seq<T>)
    ensures |r| == |xs|
  {
    if xs == [] then []
    else InsertDesc(SortDesc(xs[..|xs| - 1], key), xs[|xs| - 1], key)
  }

  /** Where `InsertDesc` puts `x`: after the leading elements whose key is at least its own. */
  function InsertPos<T>(sorted: seq<T>, x: T, key: T -> real): (p: nat)
    ensures p <= |sorted|
    ensures forall i :: 0 <= i < p ==> key(sorted[i]) >= key(x)
    ensures p < |sorted| ==> key(sorted[p]) < key(x)
  {
    if sorted == [] || key(sorted[0]) < key(x) then 0
    else
      var p := 1 + InsertPos(sorted[1..], x, key);
      assert forall i :: 1 <= i < p ==> sorted[i] == sorted[1..][i - 1];
      p
  }

  /** `InsertDesc` splits the list at `InsertPos` and puts `x` in between. */
  lemma {:induction false} InsertDescSplit<T>(sorted: seq<T>, x: T, key: T -> real)
    ensures var p := InsertPos(sorted, x, key); InsertDesc(sorted, x, key) == sorted[..p] + [x] + sorted[p..]
    decreases |sorted|
  {
    if sorted != [] && key(sorted[0]) >= key(x) {
      var tail := sorted[1..];
      InsertDescSplit(tail, x, key);
      var q := InsertPos(tail, x, key);
      assert InsertPos(sorted, x, key) == q + 1;
      assert InsertDesc(sorted, x, key) == [sorted[0]] + (tail[..q] + [x] + tail[q..]);
      assert sorted == [sorted[0]] + tail;
      ConsSplit(sorted[0], tail, q, x);
    } else {
      assert InsertPos(sorted, x, key) == 0;
      assert InsertDesc(sorted, x, key) == [x] + sorted;
      assert sorted[..0] == [] && sorted[0..] == sorted;
    }
  }

  /** Splitting after the head moves the split point by one. */
  lemma ConsSplit<T>(h: T, tail: seq<T>, q: nat, x: T)
    requires q <= |tail|
    ensures [h] + (tail[..q] + [x] + tail[q..]) == ([h] + tail)[..q + 1] + [x] + ([h] + tail)[q + 1..]
  {
    var s := [h] + tail;
    assert s[..q + 1] == [h] + tail[..q];
    assert s[q + 1..] == tail[q..];
  }

  /** Inserting adds exactly `x` to the elements. */
  lemma InsertDescMultiset<T>(sorted: seq<T>, x: T, key: T -> real)
    ensures multiset(InsertDesc(sorted, x, key)) == multiset(sorted) + multiset{x}
  {
    var p := InsertPos(sorted, x, key);
    InsertDescSplit(sorted, x, key);
    var before, after := sorted[..p], sorted[p..];
    assert sorted == before + after;
    assert multiset(sorted) == multiset(before) + multiset(after);
    assert multiset(before + [x]) == multiset(before) + multiset{x};
    assert multiset(before + [x] + after) == multiset(before + [x]) + multiset(after);
  }

  lemma InsertDescSorted<T>(sorted: seq<T>, x: T, key: T -> real)
    requires SortedDesc(sorted, key)
    ensures SortedDesc(InsertDesc(sorted, x, key), key)
  {
    var p := InsertPos(sorted, x, key);
    InsertDescSplit(sorted, x, key);
    var r := sorted[..p] + [x] + sorted[p..];
    assert forall i :: 0 <= i < p ==> r[i] == sorted[i];
    assert r[p] == x;
    assert forall i :: p < i < |r| ==> r[i] == sorted[i - 1];
    forall i, j | 0 <= i < j < |r| ensures key(r[i]) >= key(r[j]) {
      if j == p {
        assert key(r[i]) >= key(x);
      } else if i == p {
        assert key(sorted[p]) >= key(sorted[j - 1]);
      }
    }
  }

  /** The result of `SortDesc` is ordered by non-increasing key and is a permutation of its input. */
  lemma {:induction false} SortDescSorted<T>(xs: seq<T>, key: T -> real)
    ensures SortedDesc(SortDesc(xs, key), key)
    ensures multiset(SortDesc(xs, key)) == multiset(xs)
    decreases |xs|
  {
    if xs != [] {
      var init, last := xs[..|xs| - 1], xs[|xs| - 1];
      SortDescSorted(init, key);
      InsertDescSorted(SortDesc(init, key), last, key);
      InsertDescMultiset(SortDesc(init, key), last, key);
      assert xs == init + [last];
    }
  }

  /** The elements of `xs` whose key is `k`, in order. */
  function WithKey<T>(xs: seq<T>, key: T -> real, k: real): seq<T>
  {
    if xs == [] then []
    else (if key(xs[0]) == k then [xs[0]] else []) + WithKey(xs[1..], key, k)
  }

  lemma {:induction false} WithKeyAppend<T>(xs: seq<T>, ys: seq<T>, key: T -> real, k: real)
    ensures WithKey(xs + ys, key, k) == WithKey(xs, key, k) + WithKey(ys, key, k)
    decreases |xs|
  {
    if xs == [] {
      assert xs + ys == ys;
    } else {
      var s := xs + ys;
      assert s[0] == xs[0];
      assert s[1..] == xs[1..] + ys;
      WithKeyAppend(xs[1..], ys, key, k);
      var h := if key(xs[0]) == k then [xs[0]] else [];
      assert WithKey(s, key, k) == h + WithKey(s[1..], key, k);
      assert WithKey(xs, key, k) == h + WithKey(xs[1..], key, k);
    }
  }

  lemma {:induction false} WithKeyBelow<T>(xs: seq<T>, key: T -> real, k: real)
    requires forall i :: 0 <= i < |xs| ==> key(xs[i]) < k
    ensures WithKey(xs, key, k) == []
    decreases |xs|
  {
    if xs != [] {
      WithKeyBelow(xs[1..], key, k);
    }
  }

  /** In a sorted list, everything from the insertion point on has a smaller key than `x`. */
  lemma AfterInsertPos<T>(sorted: seq<T>, x: T, key: T -> real)
    requires SortedDesc(sorted, key)
    ensures forall i :: InsertPos(sorted, x, key) <= i < |sorted| ==> key(sorted[i]) < key(x)
  {
    var p := InsertPos(sorted, x, key);
    forall i | p <= i < |sorted| ensures key(sorted[i]) < key(x) {
      assert key(sorted[p]) >= key(sorted[i]);
    }
  }

  /** Putting `x` in front of elements with smaller keys does not reorder the elements with any one key. */
  /** Filtering by key distributes over the three parts of an insertion. */
  lemma WithKeyThree<T>(before: seq<T>, x: T, after: seq<T>, key: T -> real, k: real)
    ensures WithKey(before + [x] + after, key, k) == WithKey(before, key, k) + WithKey([x], key, k) + WithKey(after, key, k)
  {
    WithKeyAppend(before + [x], after, key, k);
    WithKeyAppend(before, [x], key, k);
  }

  lemma InsertBeforeSmaller<T>(before: seq<T>, x: T, after: seq<T>, key: T -> real, k: real)
    requires forall i :: 0 <= i < |after| ==> key(after[i]) < key(x)
    ensures WithKey(before + [x] + after, key, k) == WithKey(before + after, key, k) + WithKey([x], key, k)
  {
    if key(x) == k {
      InsertSameKey(before, x, after, key, k);
    } else {
      InsertOtherKey(before, x, after, key, k);
    }
  }

  /** With `x` of key `k`, nothing after it has key `k`, so it stays last among them. */
  lemma InsertSameKey<T>(before: seq<T>, x: T, after: seq<T>, key: T -> real, k: real)
    requires forall i :: 0 <= i < |after| ==> key(after[i]) < key(x)
    requires key(x) == k
    ensures WithKey(before + [x] + after, key, k) == WithKey(before + after, key, k) + WithKey([x], key, k)
  {
    WithKeyThree(before, x, after, key, k);
    WithKeyAppend(before, after, key, k);
    WithKeyBelow(after, key, k);
    var wb, wx, wa := WithKey(before, key, k), WithKey([x], key, k), WithKey(after, key, k);
    assert wa == [];
    assert wb + wx + wa == wb + wx;
    assert wb + wa == wb;
  }

  /** An `x` of another key does not show among the elements of key `k`. */
  lemma InsertOtherKey<T>(before: seq<T>, x: T, after: seq<T>, key: T -> real, k: real)
    requires key(x) != k
    ensures WithKey(before + [x] + after, key, k) == WithKey(before + after, key, k) + WithKey([x], key, k)
  {
    WithKeyThree(before, x, after, key, k);
    WithKeyAppend(before, after, key, k);
    WithKeyOther(x, key, k);
    var wb, wx, wa := WithKey(before, key, k), WithKey([x], key, k), WithKey(after, key, k);
    assert wx == [];
    assert wb + wx + wa == wb + wa;
    assert wb + wa + wx == wb + wa;
  }

  lemma WithKeyOther<T>(x: T, key: T -> real, k: real)
    requires key(x) != k
    ensures WithKey([x], key, k) == []
  {
    assert [x][1..] == [];
  }

  lemma InsertDescStable<T>(sorted: seq<T>, x: T, key: T -> real, k: real)
    requires SortedDesc(sorted, key)
    ensures WithKey(InsertDesc(sorted, x, key), key, k) == WithKey(sorted, key, k) + WithKey([x], key, k)
  {
    var p := InsertPos(sorted, x, key);
    InsertDescSplit(sorted, x, key);
    AfterInsertPos(sorted, x, key);
    var before, after := sorted[..p], sorted[p..];
    assert forall i :: 0 <= i < |after| ==> after[i] == sorted[p + i];
    InsertBeforeSmaller(before, x, after, key, k);
    assert sorted == before + after;
  }

  /** Stability: for every key, the elements with that key keep their relative order. */
  lemma {:induction false} SortDescStable<T>(xs: seq<T>, key: T -> real, k: real)
    ensures WithKey(SortDesc(xs, key), key, k) == WithKey(xs, key, k)
    decreases |xs|
  {
    if xs != [] {
      var init, last := xs[..|xs| - 1], xs[|xs| - 1];
      SortDescSorted(init, key);
      InsertDescStable(SortDesc(init, key), last, key, k);
      SortDescStable(init, key, k);
      assert xs == init + [last];
      WithKeyAppend(init, [last], key, k);
    }
  }

  lemma PrefixMultiset<T>(xs: seq<T>, n: int)
    ensures multiset(Prefix(xs, n)) <= multiset(xs)
  {
    var r := Prefix(xs, n);
    assert xs == r + xs[|r|..];
  }

  /**
   * Sorting newest first and keeping the first `n`: the result is sorted,
   * drawn from the input, no longer than `n`, and everything after it in
   * the sorted list has a key no larger than any key it keeps.
   */
  lemma TopN<T>(xs: seq<T>, key: T -> real, n: int)
    ensures var full := SortDesc(xs, key); var r := Prefix(full, n);
      && SortedDesc(r, key)
      && multiset(r) <= multiset(xs)
      && (n >= 0 ==> |r| <= n)
      && (forall i, j :: 0 <= i < |r| <= j < |full| ==> key(full[j]) <= key(r[i]))
  {
    var full := SortDesc(xs, key);
    SortDescSorted(xs, key);
    PrefixMultiset(full, n);
    var r := Prefix(full, n);
    forall i, j | 0 <= i < |r| <= j < |full| ensures key(full[j]) <= key(r[i]) {
      assert r[i] == full[i];
    }
  }

  /** An element of the input missing from the first `n` sorted elements is no larger than any of them. */
  lemma OutsidePrefixNoNewer<T>(xs: seq<T>, key: T -> real, n: int, x: T)
    requires x in xs && x !in Prefix(SortDesc(xs, key), n)
    ensures forall i :: 0 <= i < |Prefix(SortDesc(xs, key), n)| ==> key(x) <= key(Prefix(SortDesc(xs, key), n)[i])
  {
    var full := SortDesc(xs, key);
    var r := Prefix(full, n);
    TopN(xs, key, n);
    SortDescSorted(xs, key);
    assert x in multiset(full);
    var j :| 0 <= j < |full| && full[j] == x;
    assert j >= |r| by {
      assert r == full[..|r|];
      assert forall m :: 0 <= m < |r| ==> full[m] == r[m];
    }
  }
}
