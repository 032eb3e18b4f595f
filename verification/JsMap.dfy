/** A JavaScript `Map` as the sequence of its entries in iteration order: `set` on a
    present key keeps the key's position, `delete` followed by `set` moves it to the end. */
module JsMap {

  ghost predicate UniqueKeys<K, V>(es: seq<(K, V)>) {
    forall i, j :: 0 <= i < j < |es| ==> es[i].0 != es[j].0
  }

  /** Position of `k`, or `|es|`. */
  function Find<K(==), V>(es: seq<(K, V)>, k: K): (i: nat)
    ensures i <= |es|
    ensures i < |es| ==> es[i].0 == k
    ensures forall j :: 0 <= j < i ==> es[j].0 != k
  {
    if es == [] then 0
    else if es[0].0 == k then 0
    else 1 + Find(es[1..], k)
  }

  predicate Has<K(==), V>(es: seq<(K, V)>, k: K) {
    Find(es, k) < |es|
  }

  function Get<K(==), V>(es: seq<(K, V)>, k: K): V
    requires Has(es, k)
  {
    es[Find(es, k)].1
  }

  function Remove<K(==), V>(es: seq<(K, V)>, k: K): seq<(K, V)> {
    var i := Find(es, k);
    if i < |es| then es[..i] + es[i + 1..] else es
  }

  function Put<K(==), V>(es: seq<(K, V)>, k: K, v: V): seq<(K, V)> {
    var i := Find(es, k);
    if i < |es| then es[i := (k, v)] else es + [(k, v)]
  }

  lemma RemoveKeepsUnique<K, V>(es: seq<(K, V)>, k: K)
    requires UniqueKeys(es)
    ensures UniqueKeys(Remove(es, k)) && !Has(Remove(es, k), k)
  {
    var i := Find(es, k);
    var r := Remove(es, k);
    if i < |es| {
      assert forall j :: 0 <= j < |r| ==> r[j] == if j < i then es[j] else es[j + 1];
    }
  }

  lemma PutKeepsUnique<K, V>(es: seq<(K, V)>, k: K, v: V)
    requires UniqueKeys(es)
    ensures UniqueKeys(Put(es, k, v)) && Has(Put(es, k, v), k) && Get(Put(es, k, v), k) == v
  {
    var p := Put(es, k, v);
    var i := Find(es, k);
    assert p[i] == (k, v);
  }

  /** The key at position `i` of a map is found there. */
  lemma FoundAt<K, V>(es: seq<(K, V)>, i: nat)
    requires UniqueKeys(es) && i < |es|
    ensures Find(es, es[i].0) == i
  {}

  lemma RemoveKeepsOthers<K, V>(es: seq<(K, V)>, id: K, other: K)
    requires UniqueKeys(es) && Has(es, other) && other != id
    ensures Has(Remove(es, id), other) && Get(Remove(es, id), other) == Get(es, other)
  {
    var r, i, j := Remove(es, id), Find(es, id), Find(es, other);
    RemoveKeepsUnique(es, id);
    if i < |es| {
      FoundAt(r, if j < i then j else j - 1);
    }
  }

  lemma RemoveLeavesOther<K, V>(es: seq<(K, V)>, id: K, other: K)
    requires UniqueKeys(es) && other != id
    ensures Has(Remove(es, id), other) <==> Has(es, other)
    ensures Has(es, other) ==> Get(Remove(es, id), other) == Get(es, other)
  {
    if Has(es, other) {
      RemoveKeepsOthers(es, id, other);
    } else {
      var r, i := Remove(es, id), Find(es, id);
      forall j | 0 <= j < |r| ensures r[j].0 != other { assert r[j] == es[if j < i then j else j + 1]; }
    }
  }

  lemma PutKeepsOthers<K, V>(es: seq<(K, V)>, k: K, v: V, other: K)
    requires UniqueKeys(es) && other != k
    ensures Has(Put(es, k, v), other) <==> Has(es, other)
    ensures Has(es, other) ==> Get(Put(es, k, v), other) == Get(es, other)
  {
    var p, j, h := Put(es, k, v), Find(es, other), Find(Put(es, k, v), other);
    PutKeepsUnique(es, k, v);
    if j < |es| { assert p[j] == es[j]; FoundAt(p, j); }
    assert h < |p| ==> p[h].0 == other;
  }

  /** An entry behind entries with other keys is the one removed. */
  lemma RemoveNext<K, V>(a: seq<(K, V)>, x: (K, V), b: seq<(K, V)>)
    requires forall i :: 0 <= i < |a| ==> a[i].0 != x.0
    ensures Remove(a + [x] + b, x.0) == a + b
  {
    var s := a + [x] + b;
    assert s[|a|] == x;
    assert forall i :: 0 <= i < |a| ==> s[i] == a[i];
    assert Find(s, x.0) == |a|;
  }
}

/** Multisets of sequences that lose, gain or exchange one element. */
module Bags {
  lemma RemoveAt<T>(s: seq<T>, i: nat)
    requires i < |s|
    ensures multiset(s) == multiset(s[..i] + s[i + 1..]) + multiset{s[i]}
  {
    assert s == s[..i] + [s[i]] + s[i + 1..];
  }
}
