/** The `MemoryKVStore` class over its insertion-ordered map (packages/cache/src/store.ts),
    proved against KvModel. */
module KvStoreClass {
  import opened Options
  import opened JsMap
  import opened KvModel
  import Glob

  lemma SweptKeysDiffer(s: Store, sweep: Sweep, i: nat)
    requires UniqueKeys(s) && i < |s|
    ensures forall j :: 0 <= j < |Swept(s[..i], sweep)| ==> Swept(s[..i], sweep)[j].0 != s[i].0
  {
    hide Swept, Goes;
    var r := Swept(s[..i], sweep);
    forall j | 0 <= j < |r| ensures r[j].0 != s[i].0 {
      SweptHolds(s[..i], sweep, r[j]);
      var k :| 0 <= k < i && s[..i][k] == r[j];
    }
  }

  lemma SweptStep(s: Store, sweep: Sweep, i: nat)
    requires i < |s|
    ensures Swept(s[..i + 1], sweep) == Swept(s[..i], sweep) + (if Goes(sweep, s[i]) then [] else [s[i]])
  {
    assert s[..i + 1][..i] == s[..i];
  }

  /** The store after the first `i` entries were visited. */
  function Sweeping(s: Store, sweep: Sweep, i: nat): Store
    requires i <= |s|
  {
    Swept(s[..i], sweep) + s[i..]
  }

  lemma SweepStarts(s: Store, sweep: Sweep)
    ensures Sweeping(s, sweep, 0) == s
  {}

  lemma SweepEnds(s: Store, sweep: Sweep)
    ensures Sweeping(s, sweep, |s|) == Swept(s, sweep)
  {
    hide Swept;
    assert s[..|s|] == s;
  }

  lemma NextApart(a: Store, s: Store, i: nat)
    requires i < |s|
    ensures a + s[i..] == a + [s[i]] + s[i + 1..]
  {}

  lemma NoneBetween(a: Store, b: Store)
    ensures a + [] + b == a + b
  {}

  /** One entry of a sweep: taken out or passed over. */
  lemma SweepOne(s: Store, sweep: Sweep, i: nat)
    requires UniqueKeys(s) && i < |s|
    ensures Sweeping(s, sweep, i + 1) == if Goes(sweep, s[i]) then Remove(Sweeping(s, sweep, i), s[i].0) else Sweeping(s, sweep, i)
  {
    hide Goes, Swept, UniqueKeys, Remove;
    var done := Swept(s[..i], sweep);
    SweptStep(s, sweep, i);
    SweptKeysDiffer(s, sweep, i);
    NextApart(done, s, i);
    NoneBetween(done, s[i + 1..]);
    if Goes(sweep, s[i]) { RemoveNext(done, s[i], s[i + 1..]); }
  }

  lemma UseKeepsUnique(s: Store, k: string, e: Entry)
    requires UniqueKeys(s)
    ensures UniqueKeys(Use(s, k, e))
  {
    UseHas(s, k, e, k);
  }

  /** The live keys that match, in iteration order and once each; no pattern matches all. */
  ghost predicate Lists(s: Store, now: int, pattern: Option<string>, keys: seq<string>) {
    && (forall k :: k in keys <==> Live(s, now, k) && (pattern.Some? ==> Glob.Matches(pattern.value, k)))
    && (forall a, b :: 0 <= a < b < |keys| ==> Find(s, keys[a]) < Find(s, keys[b]))
  }

  lemma RemoveTwice(s: Store, k: string)
    requires UniqueKeys(s)
    ensures Remove(Remove(s, k), k) == Remove(s, k)
  {
    RemoveKeepsUnique(s, k);
  }

  /** The first `i` entries have been listed. */
  ghost predicate Listed(s: Store, i: nat, now: int, pattern: Option<string>, keys: seq<string>) {
    i <= |s| && Ordered(s, i, keys) && forall k :: k in keys <==>
      exists j :: 0 <= j < i && s[j].0 == k && !Expired(s[j].1, now) && (pattern.Some? ==> Glob.Matches(pattern.value, k))
  }

  /** The keys come from the first `i` entries, in their order. */
  ghost predicate Ordered(s: Store, i: nat, keys: seq<string>) {
    && (forall a :: 0 <= a < |keys| ==> Find(s, keys[a]) < i)
    && (forall a, b :: 0 <= a < b < |keys| ==> Find(s, keys[a]) < Find(s, keys[b]))
  }

  lemma OrderedStep(s: Store, i: nat, keys: seq<string>)
    requires UniqueKeys(s) && i < |s| && Ordered(s, i, keys)
    ensures Ordered(s, i + 1, keys) && Ordered(s, i + 1, keys + [s[i].0])
  {
    FoundAt(s, i);
    hide Find, UniqueKeys;
  }

  lemma ListedAll(s: Store, now: int, pattern: Option<string>, keys: seq<string>)
    requires UniqueKeys(s) && Listed(s, |s|, now, pattern, keys)
    ensures Lists(s, now, pattern, keys)
  {
    forall j | 0 <= j < |s| ensures Has(s, s[j].0) && Get(s, s[j].0) == s[j].1 { HasAt(s, j); }
  }

  lemma {:induction false} SweptIsUnique(s: Store, sweep: Sweep)
    requires UniqueKeys(s)
    ensures UniqueKeys(Swept(s, sweep))
  {
    if s != [] {
      SweptIsUnique(s[..|s| - 1], sweep);
      SweptKeysDiffer(s, sweep, |s| - 1);
    }
  }

  lemma EmptyPrefixClears(s: Store)
    ensures Swept(s, Under("")) == []
  {
    hide Swept;
    var r := Swept(s, Under(""));
    if r != [] {
      SweptHolds(s, Under(""), r[0]);
      assert false;
    }
  }

  lemma ListedStep(s: Store, i: nat, now: int, pattern: Option<string>, keys: seq<string>)
    requires UniqueKeys(s) && i < |s| && Listed(s, i, now, pattern, keys)
    ensures var take := !Expired(s[i].1, now) && (pattern.Some? ==> Glob.Matches(pattern.value, s[i].0));
      Listed(s, i + 1, now, pattern, if take then keys + [s[i].0] else keys)
  {
    OrderedStep(s, i, keys);
    hide Glob.Matches, UniqueKeys, Ordered;
  }

  lemma ListedStarts(s: Store, now: int, pattern: Option<string>)
    ensures Listed(s, 0, now, pattern, [])
  {}

  class MemoryKVStore {
    var store: Store
    const maxEntries: int

    ghost predicate Valid() reads this { UniqueKeys(store) }

    constructor (maxEntries: int)
      ensures Valid() && store == [] && this.maxEntries == maxEntries
    {
      store, this.maxEntries := [], maxEntries;
    }

    method GetEntry(now: int, k: string) returns (r: Option<Value>)
      requires Valid()
      modifies this
      ensures Valid() && (store, r) == GetOf(old(store), now, k)
    {
      if !Has(store, k) { return None; }
      var entry := Get(store, k);
      if Expired(entry, now) {
        RemoveKeepsUnique(store, k);
        store := Remove(store, k);
        return None;
      }
      UseKeepsUnique(store, k, entry);
      store := Remove(store, k);
      store := store + [(k, entry)];
      return Some(entry.value);
    }

    /** `evictIfNeeded`: the first key in iteration order goes, until the rest fits. */
    method EvictIfNeeded()
      requires Valid()
      modifies this
      ensures Valid() && store == Evict(old(store), maxEntries)
    {
      if maxEntries <= 0 { return; }
      while |store| > maxEntries
        invariant Valid() && |store| <= |old(store)| && store == old(store)[|old(store)| - |store|..]
        invariant |store| >= if |old(store)| < maxEntries then |old(store)| else maxEntries
      {
        assert store == [] + [store[0]] + store[1..];
        RemoveNext([], store[0], store[1..]);
        RemoveKeepsUnique(store, store[0].0);
        store := Remove(store, store[0].0);
      }
    }

    /** Insert as most recently used, then evict. */
    method Insert(k: string, e: Entry)
      requires Valid()
      modifies this
      ensures Valid() && store == Evict(Use(old(store), k, e), maxEntries)
    {
      UseKeepsUnique(store, k, e);
      store := Remove(store, k);
      store := store + [(k, e)];
      EvictIfNeeded();
    }

    method SetEntry(now: int, k: string, v: Value, ttl: Option<int>)
      requires Valid()
      modifies this
      ensures Valid() && store == SetOf(old(store), maxEntries, now, k, v, ttl)
    {
      Insert(k, Entry(v, ExpiryAfter(now, ttl)));
    }

    method Delete(k: string) returns (existed: bool)
      requires Valid()
      modifies this
      ensures Valid() && store == Remove(old(store), k) && existed == Has(old(store), k)
    {
      existed := Has(store, k);
      RemoveKeepsUnique(store, k);
      store := Remove(store, k);
    }

    method HasEntry(now: int, k: string) returns (r: bool)
      requires Valid()
      modifies this
      ensures Valid() && r == Live(old(store), now, k)
      ensures store == (if r then old(store) else Remove(old(store), k))
      ensures (store, r) == HasOf(old(store), now, k)
    {
      if !Has(store, k) {
        return false;
      }
      if Expired(Get(store, k), now) {
        RemoveKeepsUnique(store, k);
        store := Remove(store, k);
        return false;
      }
      return true;
    }

    method Ttl(now: int, k: string) returns (r: int)
      requires Valid()
      modifies this
      ensures Valid() && (r == -2 || r == -1 || r > 0)
      ensures r == -2 <==> !Live(old(store), now, k) && !(Has(old(store), k) && Get(old(store), k).expiresAt == Some(0))
      ensures r == -1 <==> Has(old(store), k) && Get(old(store), k).expiresAt in {None, Some(0)}
      ensures r > 0 ==> Get(old(store), k).expiresAt == Some(now + r)
      ensures store == (if r == -2 then Remove(old(store), k) else old(store))
      ensures (store, r) == TtlOf(old(store), now, k)
    {
      if !Has(store, k) { return -2; }
      var entry := Get(store, k);
      if entry.expiresAt.None? || entry.expiresAt.value == 0 { return -1; }
      var remaining := entry.expiresAt.value - now;
      if remaining <= 0 {
        RemoveKeepsUnique(store, k);
        store := Remove(store, k);
        return -2;
      }
      return remaining;
    }

    method Incr(now: int, k: string, amount: int) returns (r: int)
      requires Valid()
      modifies this
      ensures Valid() && store == IncrOf(old(store), maxEntries, now, k, amount)
      ensures r == Incremented(old(store), now, k, amount).value.n
    {
      ghost var before := store;
      var live: Option<Entry> := if Has(store, k) && !Expired(Get(store, k), now) then Some(Get(store, k)) else None;
      if Has(store, k) && live.None? {
        RemoveTwice(store, k);
        RemoveKeepsUnique(store, k);
        store := Remove(store, k);
      }
      var current := if live.Some? && live.value.value.Number? then live.value.value.n else 0;
      r := current + amount;
      Insert(k, Entry(Number(r), if live.Some? then live.value.expiresAt else None));
    }

    /** `keys`: expired entries are deleted on the way. */
    method Keys(now: int, pattern: Option<string>) returns (r: seq<string>)
      requires Valid()
      modifies this
      ensures Valid() && store == Swept(old(store), Stale(now)) && Lists(old(store), now, pattern, r)
    {
      hide Swept, Sweeping, Lists, Listed, UniqueKeys, Glob.InLanguage, Remove, Find;
      r := [];
      var tokens: seq<Glob.Token> := [];
      if pattern.Some? { tokens := Glob.ParseGlob(pattern.value); }
      var entries, i := store, 0;
      SweepStarts(entries, Stale(now));
      ListedStarts(entries, now, pattern);
      while i < |entries|
        invariant 0 <= i <= |entries| && store == Sweeping(entries, Stale(now), i)
        invariant Listed(entries, i, now, pattern, r)
      {
        var key, entry := entries[i].0, entries[i].1;
        SweepOne(entries, Stale(now), i);
        ListedStep(entries, i, now, pattern, r);
        var matches := pattern.None?;
        if pattern.Some? {
          var cells;
          matches, cells := Glob.MatchGlob(tokens, key);
          Glob.CompiledMatches(pattern.value, key);
        }
        if Expired(entry, now) {
          store := Remove(store, key);
        } else if matches {
          r := r + [key];
        }
        i := i + 1;
      }
      SweepEnds(entries, Stale(now));
      SweptIsUnique(entries, Stale(now));
      ListedAll(entries, now, pattern, r);
    }

    /** `clear`; an empty or missing prefix clears everything. */
    method Clear(prefix: string)
      requires Valid()
      modifies this
      ensures Valid() && store == Swept(old(store), Under(prefix))
    {
      hide Swept, Sweeping, Remove;
      SweptIsUnique(store, Under(prefix));
      if prefix == "" {
        EmptyPrefixClears(store);
        store := [];
        return;
      }
      var entries, i := store, 0;
      SweepStarts(entries, Under(prefix));
      while i < |entries|
        invariant 0 <= i <= |entries| && store == Sweeping(entries, Under(prefix), i)
      {
        SweepOne(entries, Under(prefix), i);
        if StartsWith(entries[i].0, prefix) { store := Remove(store, entries[i].0); }
        i := i + 1;
      }
      SweepEnds(entries, Under(prefix));
    }

    /** `cleanup`, run by a timer */
    method Cleanup(now: int)
      requires Valid()
      modifies this
      ensures Valid() && store == Swept(old(store), Stale(now))
    {
      hide Swept, Sweeping, Remove;
      SweptIsUnique(store, Stale(now));
      var entries, i := store, 0;
      SweepStarts(entries, Stale(now));
      while i < |entries|
        invariant 0 <= i <= |entries| && store == Sweeping(entries, Stale(now), i)
      {
        SweepOne(entries, Stale(now), i);
        if Expired(entries[i].1, now) { store := Remove(store, entries[i].0); }
        i := i + 1;
      }
      SweepEnds(entries, Stale(now));
    }
  }
}
