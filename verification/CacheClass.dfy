/** Invalidation over the key-value store, proved entry by entry
    (packages/cache/src/response-cache.ts). */
module CacheClass {
  import opened Options
  import opened JsMap
  import opened KvModel
  import opened KvStoreClass
  import opened CacheKey

  /** The full base a stored value carries, if any; only a hashed entry's is read. */
  function StoredBase(prefix: string, keyBase: Value -> Option<string>, k: string, v: Value): Option<string> {
    if prefix <= k && IndexOfText(k[|prefix|..], HASH_MARKER) < |k| - |prefix| then keyBase(v) else None
  }

  predicate HitsEntry(prefix: string, keyBase: Value -> Option<string>, s: Store, k: string, target: string) {
    Has(s, k) && Hits(prefix, k, StoredBase(prefix, keyBase, k, Get(s, k).value), target)
  }

  /** `s` holds what `before` held, without the keys in `gone`. */
  ghost predicate LeftOf(s: Store, before: Store, gone: set<string>) {
    forall k {:trigger Has(s, k)} ::
      (Has(s, k) <==> Has(before, k) && k !in gone) && (Has(s, k) ==> Get(s, k) == Get(before, k))
  }

  lemma LeftAt(s: Store, before: Store, gone: set<string>, k: string)
    requires LeftOf(s, before, gone)
    ensures Has(s, k) <==> Has(before, k) && k !in gone
    ensures Has(s, k) ==> Get(s, k) == Get(before, k)
  {}

  lemma LeftAll(s: Store)
    ensures LeftOf(s, s, {})
  {}

  lemma HitNeedsPrefix(prefix: string, k: string, storedBase: Option<string>, target: string)
    ensures Hits(prefix, k, storedBase, target) ==> prefix <= k
  {}

  lemma RemoveLeavesRest(s: Store, before: Store, gone: set<string>, k: string)
    requires UniqueKeys(s) && LeftOf(s, before, gone)
    ensures LeftOf(Remove(s, k), before, gone + {k}) && UniqueKeys(Remove(s, k))
  {
    RemoveKeepsUnique(s, k);
    forall other ensures Has(Remove(s, k), other) <==> other != k && Has(s, other) { RemoveLeaves(s, k, other); }
    forall other | Has(Remove(s, k), other) ensures Get(Remove(s, k), other) == Get(s, other) {
      RemoveLeaves(s, k, other);
      RemoveKeepsOthers(s, k, other);
    }
  }

  lemma AppendGet(s: Store, x: (string, Entry), k: string)
    requires !Has(s, x.0)
    ensures Has(s + [x], k) <==> Has(s, k) || k == x.0
    ensures Has(s + [x], k) ==> Get(s + [x], k) == if k == x.0 then x.1 else Get(s, k)
  {
    AppendHas(s, x, k);
    var r := s + [x];
    if Has(s, k) {
      assert r[Find(s, k)] == s[Find(s, k)];
      assert forall j :: 0 <= j < Find(s, k) ==> r[j] == s[j];
    }
    if k == x.0 {
      assert r[|s|] == x;
      NotHasMeans(s, k);
      assert forall j :: 0 <= j < |s| ==> r[j] == s[j];
    }
  }

  /** Reading an entry moves it but leaves the contents alone. */
  lemma UseLeavesRest(s: Store, before: Store, gone: set<string>, k: string)
    requires UniqueKeys(s) && LeftOf(s, before, gone) && Has(s, k)
    ensures LeftOf(Use(s, k, Get(s, k)), before, gone)
  {
    var r := Use(s, k, Get(s, k));
    RemoveKeepsUnique(s, k);
    forall other ensures Has(r, other) <==> Has(s, other) {
      AppendGet(Remove(s, k), (k, Get(s, k)), other);
      RemoveLeaves(s, k, other);
    }
    forall other | Has(r, other) ensures Get(r, other) == Get(s, other) {
      AppendGet(Remove(s, k), (k, Get(s, k)), other);
      RemoveLeaves(s, k, other);
      if other != k { RemoveKeepsOthers(s, k, other); }
    }
  }

  class ResponseCache {
    const store: MemoryKVStore
    const prefix: string
    const keyBase: Value -> Option<string>

    constructor (store: MemoryKVStore, prefix: string, keyBase: Value -> Option<string>)
      ensures this.store == store && this.prefix == prefix && this.keyBase == keyBase
    {
      this.store, this.prefix, this.keyBase := store, prefix, keyBase;
    }

    /** One candidate of `invalidate`. */
    method InvalidateOne(now: int, k: string, target: string, ghost before: Store, ghost gone: set<string>) returns (existed: bool)
      requires store.Valid() && LeftOf(store.store, before, gone) && Has(before, k) && !Expired(Get(before, k), now)
      modifies store
      ensures store.Valid()
      ensures existed == (k !in gone && HitsEntry(prefix, keyBase, before, k, target))
      ensures LeftOf(store.store, before, if existed then gone + {k} else gone)
    {
      hide Hits, LeftOf, IndexOfText;
      assert Has(store.store, k) == (k !in gone) && (k !in gone ==> Get(store.store, k) == Get(before, k)) by {
        LeftAt(store.store, before, gone, k);
      }
      if !(prefix <= k) {
        HitNeedsPrefix(prefix, k, StoredBase(prefix, keyBase, k, Get(before, k).value), target);
        return false;
      }
      var storedBase := None;
      if IndexOfText(k[|prefix|..], HASH_MARKER) < |k| - |prefix| {
        if k !in gone { UseLeavesRest(store.store, before, gone, k); }
        var value := store.GetEntry(now, k);
        if value.Some? { storedBase := keyBase(value.value); }
        LeftAt(store.store, before, gone, k);
      }
      existed := false;
      if Hits(prefix, k, storedBase, target) {
        RemoveLeavesRest(store.store, before, gone, k);
        assert k in gone ==> gone + {k} == gone;
        existed := store.Delete(k);
      }
    }

    /** `invalidate`: of the live entries exactly those hit by the target are deleted. */
    method Invalidate(now: int, target: string) returns (deleted: bool)
      requires store.Valid()
      modifies store
      ensures store.Valid()
      ensures forall k :: Live(store.store, now, k) <==>
        Live(old(store.store), now, k) && !HitsEntry(prefix, keyBase, old(store.store), k, target)
      ensures deleted <==> exists k :: Live(old(store.store), now, k) && HitsEntry(prefix, keyBase, old(store.store), k, target)
    {
      hide HitsEntry, Swept;
      ghost var first := store.store;
      var keys := store.Keys(now, None);
      ghost var before := store.store;
      SweptContents(first, now);
      assert forall k :: k in keys <==> Live(first, now, k);
      LeftAll(before);
      var i := 0;
      deleted := false;
      ghost var gone: set<string> := {};
      while i < |keys|
        invariant 0 <= i <= |keys| && store.Valid() && LeftOf(store.store, before, gone)
        invariant forall k :: k in gone <==> k in keys[..i] && HitsEntry(prefix, keyBase, before, k, target)
        invariant deleted <==> gone != {}
      {
        hide LeftOf;
        assert keys[..i + 1] == keys[..i] + [keys[i]] && keys[i] in keys;
        var existed := InvalidateOne(now, keys[i], target, before, gone);
        if existed {
          deleted := true;
          gone := gone + {keys[i]};
        }
        i := i + 1;
      }
      assert keys[..|keys|] == keys;
      forall k | Has(before, k)
        ensures HitsEntry(prefix, keyBase, before, k, target) == HitsEntry(prefix, keyBase, first, k, target)
      {
        SameHit(before, first, k, target);
      }
      forall k ensures Live(store.store, now, k) <==> Live(first, now, k) && !HitsEntry(prefix, keyBase, first, k, target) {
        LeftAt(store.store, before, gone, k);
        assert Has(before, k) <==> Live(first, now, k);
      }
    }

    lemma SameHit(s: Store, t: Store, k: string, target: string)
      requires Has(s, k) && Has(t, k) && Get(s, k) == Get(t, k)
      ensures HitsEntry(prefix, keyBase, s, k, target) == HitsEntry(prefix, keyBase, t, k, target)
    {
      hide Hits;
    }

    /** After the sweep of `keys()` the contents are the live entries. */
    lemma SweptContents(s: Store, now: int)
      requires UniqueKeys(s)
      ensures forall k {:trigger Has(Swept(s, Stale(now)), k)} ::
        (Has(Swept(s, Stale(now)), k) <==> Live(s, now, k)) && (Live(s, now, k) ==> Get(Swept(s, Stale(now)), k) == Get(s, k))
    {
      var r := Swept(s, Stale(now));
      SweptIsUnique(s, Stale(now));
      forall k ensures (Has(r, k) <==> Live(s, now, k)) && (Live(s, now, k) ==> Get(r, k) == Get(s, k)) {
        if Live(s, now, k) {
          SweptHolds(s, Stale(now), s[Find(s, k)]);
          var i :| 0 <= i < |r| && r[i] == s[Find(s, k)];
          HasAt(r, i);
        }
        if Has(r, k) {
          SweptHolds(s, Stale(now), r[Find(r, k)]);
          var i :| 0 <= i < |s| && s[i] == r[Find(r, k)];
          HasAt(s, i);
        }
      }
    }
  }
}
