/**
 * Python dictionaries with string keys, as insertion-ordered association
 * lists: a new key goes at the end, an existing key keeps its place.
 */
module Dicts {
  import opened Wrappers

  type Dict<V> = seq<(string, V)>

  function Keys<V>(d: Dict<V>): seq<string> {
    if d == [] then [] else [d[0].0] + Keys(d[1..])
  }

  /** `d.get(k)`. */
  function Get<V>(d: Dict<V>, k: string): Option<V> {
    if d == [] then None
    else if d[0].0 == k then Some(d[0].1)
    else Get(d[1..], k)
  }

  /** `d.get(k, default)`. */
  function GetOr<V>(d: Dict<V>, k: string, default: V): V {
    match Get(d, k)
    case Some(v) => v
    case None => default
  }

  /** `d[k] = v`. */
  function Put<V>(d: Dict<V>, k: string, v: V): Dict<V> {
    if d == [] then [(k, v)]
    else if d[0].0 == k then [(k, v)] + d[1..]
    else [d[0]] + Put(d[1..], k, v)
  }

  /** After `d[k] = v`, `k` maps to `v` and every other key keeps its value. */
  lemma {:induction false} PutGet<V>(d: Dict<V>, k: string, v: V)
    ensures Get(Put(d, k, v), k) == Some(v)
    ensures forall k' :: k' != k ==> Get(Put(d, k, v), k') == Get(d, k')
    decreases |d|
  {
    if d != [] && d[0].0 != k {
      PutGet(d[1..], k, v);
    }
  }

  /** A new key goes at the end; an existing key keeps its place. */
  lemma {:induction false} PutKeys<V>(d: Dict<V>, k: string, v: V)
    ensures Keys(Put(d, k, v)) == if k in Keys(d) then Keys(d) else Keys(d) + [k]
    decreases |d|
  {
    if d != [] && d[0].0 != k {
      PutKeys(d[1..], k, v);
    }
  }

  /** No key occurs twice. */
  predicate DistinctKeys<V>(d: Dict<V>) {
    forall i, j :: 0 <= i < j < |d| ==> d[i].0 != d[j].0
  }

  lemma {:induction false} PutDistinct<V>(d: Dict<V>, k: string, v: V)
    requires DistinctKeys(d)
    ensures DistinctKeys(Put(d, k, v))
    decreases |d|
  {
    if d != [] && d[0].0 != k {
      PutDistinct(d[1..], k, v);
      var r := Put(d, k, v);
      var rest := Put(d[1..], k, v);
      assert r == [d[0]] + rest;
      forall j | 1 <= j < |r| ensures r[0].0 != r[j].0 {
        assert r[j].0 in Keys(rest) by {
          KeysIndex(rest, j - 1);
        }
        PutKeys(d[1..], k, v);
        KeysMembers(d[1..], r[j].0);
        if r[j].0 in Keys(d[1..]) {
          var m :| 0 <= m < |d[1..]| && d[1..][m].0 == r[j].0;
          assert d[m + 1].0 == r[j].0;
        }
      }
    } else if d != [] {
      var r := Put(d, k, v);
      forall i, j | 0 <= i < j < |r| ensures r[i].0 != r[j].0 {
        assert r[j] == d[j];
        if i > 0 {
          assert r[i] == d[i];
        }
      }
    }
  }

  lemma {:induction false} KeysIndex<V>(d: Dict<V>, j: nat)
    requires j < |d|
    ensures d[j].0 in Keys(d)
    decreases j
  {
    if j > 0 {
      KeysIndex(d[1..], j - 1);
    }
  }

  lemma {:induction false} KeysMembers<V>(d: Dict<V>, k: string)
    ensures k in Keys(d) <==> exists m :: 0 <= m < |d| && d[m].0 == k
    decreases |d|
  {
    if d != [] {
      KeysMembers(d[1..], k);
      if k in Keys(d[1..]) {
        var m :| 0 <= m < |d[1..]| && d[1..][m].0 == k;
        assert d[m + 1].0 == k;
      }
      forall m | 1 <= m < |d| && d[m].0 == k ensures k in Keys(d[1..]) {
        assert d[1..][m - 1].0 == k;
      }
    }
  }

  /** The sum of a measure over the values. */
  function SumBy<V>(d: Dict<V>, f: V -> nat): nat {
    if d == [] then 0 else f(d[0].1) + SumBy(d[1..], f)
  }

  /** Overwriting a value changes the sum by the difference. */
  lemma {:induction false} SumByPut<V>(d: Dict<V>, k: string, v: V, f: V -> nat)
    ensures SumBy(Put(d, k, v), f) == SumBy(d, f) + f(v) - (match Get(d, k) case Some(u) => f(u) case None => 0)
    decreases |d|
  {
    if d != [] && d[0].0 != k {
      SumByPut(d[1..], k, v, f);
    }
  }
}
