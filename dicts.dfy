/** Python's insertion-ordered `dict` with string keys, as a sequence of key/value pairs. */
module Dicts {
  import opened Results

  function Keys<V>(d: seq<(string, V)>): (ks: seq<string>)
    ensures |ks| == |d|
    ensures forall i :: 0 <= i < |d| ==> ks[i] == d[i].0
  {
    if d == [] then [] else [d[0].0] + Keys(d[1..])
  }

  /** No key occurs twice: every dict satisfies this. */
  ghost predicate DistinctKeys<V>(d: seq<(string, V)>)
  {
    forall i, j :: 0 <= i < j < |d| ==> d[i].0 != d[j].0
  }

  /** `d.get(k)`: the value stored under the first occurrence of `k`. */
  function Get<V>(d: seq<(string, V)>, k: string): (r: Option<V>)
    ensures r.None? <==> k !in Keys(d)
    ensures r.Some? ==> (k, r.value) in d
  {
    if d == [] then None
    else if d[0].0 == k then Some(d[0].1)
    else Get(d[1..], k)
  }

  /**
   * `d[k] = v`: overwrites the value of an existing key where it stands,
   * or appends a new key at the end.
   */
  function Put<V>(d: seq<(string, V)>, k: string, v: V): (r: seq<(string, V)>)
    ensures Get(r, k) == Some(v)
    ensures forall k' :: k' != k ==> Get(r, k') == Get(d, k')
  {
    if d == [] then [(k, v)]
    else if d[0].0 == k then [(k, v)] + d[1..]
    else [d[0]] + Put(d[1..], k, v)
  }

  /** A new key goes at the end; an existing key keeps its place. */
  lemma {:induction false} PutShape<V>(d: seq<(string, V)>, k: string, v: V)
    ensures k !in Keys(d) ==> Put(d, k, v) == d + [(k, v)]
    ensures k in Keys(d) ==> Keys(Put(d, k, v)) == Keys(d)
  {
    if d != [] && d[0].0 != k {
      PutShape(d[1..], k, v);
      assert Keys(d) == [d[0].0] + Keys(d[1..]);
      assert Keys(Put(d, k, v)) == [d[0].0] + Keys(Put(d[1..], k, v));
    }
  }

  /** Assigning a key keeps the keys of a dict distinct. */
  lemma {:induction false} PutDistinct<V>(d: seq<(string, V)>, k: string, v: V)
    requires DistinctKeys(d)
    ensures DistinctKeys(Put(d, k, v))
  {
    PutShape(d, k, v);
    var r := Put(d, k, v);
    if k in Keys(d) {
      assert Keys(r) == Keys(d);
    } else {
      assert forall i :: 0 <= i < |d| ==> d[i].0 != k;
    }
  }

  /** Assigning a key adds that pair and keeps only pairs already there. */
  lemma {:induction false} PutEntries<V>(d: seq<(string, V)>, k: string, v: V)
    ensures forall x :: x in Put(d, k, v) ==> x in d || x == (k, v)
  {
    if d != [] && d[0].0 != k {
      PutEntries(d[1..], k, v);
    }
  }

  lemma GetDistinct<V>(d: seq<(string, V)>, i: nat)
    requires DistinctKeys(d) && i < |d|
    ensures Get(d, d[i].0) == Some(d[i].1)
  {
    if i > 0 {
      GetDistinct(d[1..], i - 1);
    }
  }
}
