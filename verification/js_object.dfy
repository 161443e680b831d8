/** Plain JavaScript objects with string keys, as the pipeline builds and reads them:
    own properties in insertion order, a key written again keeping its place. */
module JsObject {
  import opened Wrappers

  /** One own property: a key and its value. */
  datatype Entry<V> = Entry(key: string, value: V)

  /** An object as its own properties in enumeration order. */
  type Obj<V> = seq<Entry<V>>

  /** No element occurs twice. */
  predicate Distinct<T(==)>(s: seq<T>) {
    forall a, b :: 0 <= a < b < |s| ==> s[a] != s[b]
  }

  /** `Object.keys(m)` */
  function Keys<V>(m: Obj<V>): seq<string> {
    seq(|m|, i requires 0 <= i < |m| => m[i].key)
  }

  /** `Object.values(m)` */
  function Values<V>(m: Obj<V>): seq<V> {
    seq(|m|, i requires 0 <= i < |m| => m[i].value)
  }

  /** No key occurs twice: `Distinct(Keys(m))`, stated on the entries themselves so that the
      quantifier matches `m[a].key` directly instead of going through the `Keys` comprehension. */
  predicate DistinctKeys<V>(m: Obj<V>) {
    forall a, b :: 0 <= a < b < |m| ==> m[a].key != m[b].key
  }

  /** `m[k]`, with `None` for a missing property. */
  function Get<V>(m: Obj<V>, k: string): Option<V> {
    if |m| == 0 then None
    else if m[0].key == k then Some(m[0].value)
    else Get(m[1..], k)
  }

  lemma KeysCons<V>(m: Obj<V>)
    requires |m| > 0
    ensures Keys(m) == [m[0].key] + Keys(m[1..])
  {
  }

  lemma DistinctKeysMeansDistinct<V>(m: Obj<V>)
    ensures DistinctKeys(m) <==> Distinct(Keys(m))
  {
    if Distinct(Keys(m)) {
      forall a, b | 0 <= a < b < |m| ensures m[a].key != m[b].key {
        assert Keys(m)[a] == m[a].key && Keys(m)[b] == m[b].key;
      }
    }
  }

  lemma KeysSnoc<V>(m: Obj<V>, e: Entry<V>)
    ensures Keys(m + [e]) == Keys(m) + [e.key]
  {
  }

  /** `{...m, [k]: v}`: the property `k` is set to `v`; an existing property keeps its
      position, a new one goes last. */
  function Put<V(==)>(m: Obj<V>, k: string, v: V): (r: Obj<V>)
    ensures Get(r, k) == Some(v)
    ensures forall k' :: k' != k ==> Get(r, k') == Get(m, k')
    ensures k in Keys(m) ==> Keys(r) == Keys(m)
    ensures k !in Keys(m) ==> r == m + [Entry(k, v)]
    ensures DistinctKeys(m) ==> DistinctKeys(r)
  {
    if |m| == 0 then [Entry(k, v)]
    else if m[0].key == k then
      var r := [Entry(k, v)] + m[1..];
      PutHeadFacts(m, k, v, r);
      r
    else
      var rest := Put(m[1..], k, v);
      var r := [m[0]] + rest;
      PutTailFacts(m, k, v, rest, r);
      r
  }

  lemma PutHeadFacts<V>(m: Obj<V>, k: string, v: V, r: Obj<V>)
    requires |m| > 0 && m[0].key == k && r == [Entry(k, v)] + m[1..]
    ensures Get(r, k) == Some(v)
    ensures forall k' :: k' != k ==> Get(r, k') == Get(m, k')
    ensures k in Keys(m) && Keys(r) == Keys(m)
    ensures DistinctKeys(m) ==> DistinctKeys(r)
  {
    KeysCons(m);
    KeysCons(r);
    assert Keys(m)[0] == k;
    assert r[1..] == m[1..];
  }

  lemma PutTailFacts<V>(m: Obj<V>, k: string, v: V, rest: Obj<V>, r: Obj<V>)
    requires |m| > 0 && m[0].key != k && r == [m[0]] + rest
    requires Get(rest, k) == Some(v)
    requires forall k' :: k' != k ==> Get(rest, k') == Get(m[1..], k')
    requires k in Keys(m[1..]) ==> Keys(rest) == Keys(m[1..])
    requires k !in Keys(m[1..]) ==> rest == m[1..] + [Entry(k, v)]
    requires DistinctKeys(m[1..]) ==> DistinctKeys(rest)
    ensures Get(r, k) == Some(v)
    ensures forall k' :: k' != k ==> Get(r, k') == Get(m, k')
    ensures k in Keys(m) ==> Keys(r) == Keys(m)
    ensures k !in Keys(m) ==> r == m + [Entry(k, v)]
    ensures DistinctKeys(m) ==> DistinctKeys(r)
  {
    KeysCons(m);
    KeysCons(r);
    assert r[1..] == rest;
    if k !in Keys(m) {
      assert m == [m[0]] + m[1..];
    }
    if DistinctKeys(m) {
      DistinctKeysNotInTail(m);
      assert m[0].key !in Keys(rest) by {
        if k !in Keys(m[1..]) {
          KeysSnoc(m[1..], Entry(k, v));
        }
      }
      forall a, b | 0 <= a < b < |r| ensures r[a].key != r[b].key {
        if a == 0 {
          assert r[b].key == Keys(rest)[b - 1];
        } else {
          assert r[a] == rest[a - 1] && r[b] == rest[b - 1];
        }
      }
    }
  }

  lemma DistinctKeysNotInTail<V>(m: Obj<V>)
    requires |m| > 0 && DistinctKeys(m)
    ensures m[0].key !in Keys(m[1..])
  {
  }

  /** The last entry of `es` with the key of `es[a]` is `es[a]` itself. */
  predicate LastWithKey<V>(es: seq<Entry<V>>, a: int)
    requires 0 <= a < |es|
  {
    forall b :: a < b < |es| ==> es[b].key != es[a].key
  }

  /** The object built by spreading one-property objects, in order, into an empty one: what
      both the reduce over the fan-out results and `Object.assign` produce. */
  function Assign<V(==)>(es: seq<Entry<V>>): (r: Obj<V>)
    ensures DistinctKeys(r)
    ensures forall k :: k in Keys(r) <==> k in Keys(es)
    ensures forall a :: 0 <= a < |es| && LastWithKey(es, a) ==> Get(r, es[a].key) == Some(es[a].value)
    ensures DistinctKeys(es) ==> r == es
  {
    if |es| == 0 then []
    else
      var init := es[..|es| - 1];
      var e := es[|es| - 1];
      var acc := Assign(init);
      var r := Put(acc, e.key, e.value);
      AssignStepKeys(es, acc, r);
      AssignStepReads(es, acc, r);
      r
  }

  /** The key facts of one merge step: the keys so far plus the new one. */
  lemma AssignStepKeys<V>(es: seq<Entry<V>>, acc: Obj<V>, r: Obj<V>)
    requires |es| > 0
    requires var init := es[..|es| - 1];
      && (forall k :: k in Keys(acc) <==> k in Keys(init))
      && (DistinctKeys(init) ==> acc == init)
    requires var e := es[|es| - 1];
      && (e.key in Keys(acc) ==> Keys(r) == Keys(acc))
      && (e.key !in Keys(acc) ==> r == acc + [e])
    ensures forall k :: k in Keys(r) <==> k in Keys(es)
    ensures DistinctKeys(es) ==> r == es
  {
    var init := es[..|es| - 1];
    var e := es[|es| - 1];
    assert es == init + [e];
    KeysSnoc(init, e);
    if e.key !in Keys(acc) {
      KeysSnoc(acc, e);
    }
    if DistinctKeys(es) {
      assert DistinctKeys(init);
    }
  }

  /** The reads of one merge step: every key reads the value of its last entry so far. */
  lemma AssignStepReads<V>(es: seq<Entry<V>>, acc: Obj<V>, r: Obj<V>)
    requires |es| > 0
    requires var init := es[..|es| - 1];
      forall a :: 0 <= a < |init| && LastWithKey(init, a) ==> Get(acc, init[a].key) == Some(init[a].value)
    requires var e := es[|es| - 1];
      && Get(r, e.key) == Some(e.value)
      && (forall k' :: k' != e.key ==> Get(r, k') == Get(acc, k'))
    ensures forall a :: 0 <= a < |es| && LastWithKey(es, a) ==> Get(r, es[a].key) == Some(es[a].value)
  {
    var init := es[..|es| - 1];
    forall a | 0 <= a < |es| && LastWithKey(es, a)
      ensures Get(r, es[a].key) == Some(es[a].value)
    {
      if a < |es| - 1 {
        assert init[a] == es[a];
        assert LastWithKey(init, a);
      }
    }
  }
}
