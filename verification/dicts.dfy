/** Python's `dict` as the assembler uses it: key/value pairs in insertion order,
    lookup, and assignment `d[k] = v` (which keeps an existing key in place). */
module Dicts {
  import opened Options
  import Order

  type Dict<K, V> = seq<(K, V)>

  function Keys<K, V>(d: Dict<K, V>): (ks: seq<K>)
    ensures |ks| == |d|
    ensures forall i :: 0 <= i < |d| ==> ks[i] == d[i].0
  {
    if |d| == 0 then [] else [d[0].0] + Keys(d[1..])
  }

  function Values<K, V>(d: Dict<K, V>): (vs: seq<V>)
    ensures |vs| == |d|
    ensures forall i :: 0 <= i < |d| ==> vs[i] == d[i].1
  {
    if |d| == 0 then [] else [d[0].1] + Values(d[1..])
  }

  /** Each key at most once, as in every real dict. */
  predicate Wf<K(==), V>(d: Dict<K, V>) {
    Order.NoDuplicates(Keys(d))
  }

  /** `d.get(k)`. */
  function Get<K(==), V>(d: Dict<K, V>, k: K): (r: Option<V>)
    ensures r.Some? <==> k in Keys(d)
  {
    if |d| == 0 then None
    else if d[0].0 == k then
      assert Keys(d)[0] == k;
      Some(d[0].1)
    else Get(d[1..], k)
  }

  /** `d[k] = v`: a present key keeps its position and takes the new value,
      a new key is appended. */
  function Put<K(==,!new), V>(d: Dict<K, V>, k: K, v: V): (r: Dict<K, V>)
    ensures Get(r, k) == Some(v)
    ensures forall k' :: k' != k ==> Get(r, k') == Get(d, k')
    ensures Keys(r) == if k in Keys(d) then Keys(d) else Keys(d) + [k]
  {
    if |d| == 0 then [(k, v)]
    else if d[0].0 == k then
      var r := [(k, v)] + d[1..];
      assert r[1..] == d[1..];
      assert Keys(r) == [k] + Keys(d[1..]) == Keys(d);
      r
    else
      var rest := Put(d[1..], k, v);
      var r := [d[0]] + rest;
      PutBehindHead(d, k, rest);
      r
  }

  /** The inductive step of Put: the head stays in front of the updated tail. */
  lemma PutBehindHead<K, V>(d: Dict<K, V>, k: K, rest: Dict<K, V>)
    requires |d| > 0 && d[0].0 != k
    requires forall k' :: k' != k ==> Get(rest, k') == Get(d[1..], k')
    requires Keys(rest) == if k in Keys(d[1..]) then Keys(d[1..]) else Keys(d[1..]) + [k]
    ensures var r := [d[0]] + rest;
      && Get(r, k) == Get(rest, k)
      && (forall k' :: k' != k ==> Get(r, k') == Get(d, k'))
      && Keys(r) == if k in Keys(d) then Keys(d) else Keys(d) + [k]
  {
    var r := [d[0]] + rest;
    assert r[1..] == rest;
    forall k' | k' != k ensures Get(r, k') == Get(d, k') {
      if d[0].0 != k' {
        assert Get(r, k') == Get(rest, k');
      }
    }
    KeysBehindHead(d, k, rest);
  }

  lemma KeysBehindHead<K, V>(d: Dict<K, V>, k: K, rest: Dict<K, V>)
    requires |d| > 0 && d[0].0 != k
    requires Keys(rest) == if k in Keys(d[1..]) then Keys(d[1..]) else Keys(d[1..]) + [k]
    ensures Keys([d[0]] + rest) == if k in Keys(d) then Keys(d) else Keys(d) + [k]
  {
    var r := [d[0]] + rest;
    assert r[1..] == rest;
    var h, t := d[0].0, Keys(d[1..]);
    assert Keys(r) == [h] + Keys(rest);
    assert Keys(d) == [h] + t;
    ConsKeys(h, t, Keys(rest), k);
  }

  lemma ConsKeys<K>(h: K, t: seq<K>, rt: seq<K>, k: K)
    requires h != k
    requires rt == if k in t then t else t + [k]
    ensures [h] + rt == if k in [h] + t then [h] + t else [h] + t + [k]
  {
    assert k in [h] + t <==> k in t;
    if k !in t {
      assert [h] + (t + [k]) == [h] + t + [k];
    }
  }

  lemma PutKeepsWf<K(!new), V>(d: Dict<K, V>, k: K, v: V)
    requires Wf(d)
    ensures Wf(Put(d, k, v))
  {
  }
}
