/** A Python dict as the code uses it: lookups, `d[k] = v` and iteration in
    insertion order. It is a sequence of entries whose keys are distinct;
    storing under a key already present replaces the value in place. */
module PyDict {
  import opened Wrappers

  type Dict<K, V> = seq<(K, V)>

  predicate DistinctKeys<K(==), V>(d: Dict<K, V>)
  {
    forall i, j :: 0 <= i < j < |d| ==> d[i].0 != d[j].0
  }

  function Keys<K, V>(d: Dict<K, V>): (r: seq<K>)
    ensures |r| == |d| && forall i :: 0 <= i < |d| ==> r[i] == d[i].0
  {
    if d == [] then [] else [d[0].0] + Keys(d[1..])
  }

  function Values<K, V>(d: Dict<K, V>): (r: seq<V>)
    ensures |r| == |d| && forall i :: 0 <= i < |d| ==> r[i] == d[i].1
  {
    if d == [] then [] else [d[0].1] + Values(d[1..])
  }

  /** d.get(k): the value of the entry with key k, if there is one. */
  function Get<K(==), V>(d: Dict<K, V>, k: K): (r: Option<V>)
    ensures r.Some? <==> k in Keys(d)
    ensures r.Some? ==> exists i :: 0 <= i < |d| && d[i] == (k, r.value)
  {
    if d == [] then None
    else if d[0].0 == k then Some(d[0].1)
    else Get(d[1..], k)
  }

  /** d[k] = v. */
  function Put<K(==), V>(d: Dict<K, V>, k: K, v: V): (r: Dict<K, V>)
    ensures k in Keys(d) ==> Keys(r) == Keys(d)
    ensures k !in Keys(d) ==> Keys(r) == Keys(d) + [k]
  {
    if d == [] then [(k, v)]
    else if d[0].0 == k then [(k, v)] + d[1..]
    else [d[0]] + Put(d[1..], k, v)
  }

  lemma {:induction false} GetPut<K, V>(d: Dict<K, V>, k: K, v: V, k': K)
    ensures Get(Put(d, k, v), k') == if k' == k then Some(v) else Get(d, k')
  {
    if d != [] && d[0].0 != k {
      GetPut(d[1..], k, v, k');
    }
  }

  lemma {:induction false} PutDistinct<K, V>(d: Dict<K, V>, k: K, v: V)
    requires DistinctKeys(d)
    ensures DistinctKeys(Put(d, k, v))
  {
    if d != [] && d[0].0 != k {
      var t := Put(d[1..], k, v);
      PutDistinct(d[1..], k, v);
      assert d[0].0 !in Keys(d[1..]);
      assert d[0].0 !in Keys(t);
      ConsDistinct(d[0], t);
    }
  }

  lemma ConsDistinct<K, V>(e: (K, V), t: Dict<K, V>)
    requires DistinctKeys(t) && e.0 !in Keys(t)
    ensures DistinctKeys([e] + t)
  {
    var r := [e] + t;
    forall i, j | 0 <= i < j < |r|
      ensures r[i].0 != r[j].0
    {
      assert r[j] == t[j - 1] && Keys(t)[j - 1] == t[j - 1].0;
    }
  }

  /** A dict with distinct keys is determined by its entries: looking a key
      up finds the entry listing it. */
  lemma GetAt<K, V>(d: Dict<K, V>, i: nat)
    requires DistinctKeys(d) && i < |d|
    ensures Get(d, d[i].0) == Some(d[i].1)
  {
    if i > 0 {
      GetAt(d[1..], i - 1);
    }
  }
}
