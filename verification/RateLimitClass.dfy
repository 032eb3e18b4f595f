/** The `MemoryRateLimitStore` class (packages/rate-limit/src/index.ts), proved against
    RateLimitModel. */
module RateLimitClass {
  import opened JsMap
  import opened RateLimitModel

  lemma SweptKeysDiffer(es: Entries, now: int, i: nat)
    requires UniqueKeys(es) && i < |es|
    ensures forall j :: 0 <= j < |Swept(es[..i], now)| ==> Swept(es[..i], now)[j].0 != es[i].0
  {
    SweptKeeps(es[..i], now);
    hide Swept;
    var done := Swept(es[..i], now);
    forall j | 0 <= j < |done| ensures done[j].0 != es[i].0 {
      assert done[j] in es[..i];
      var k :| 0 <= k < i && es[..i][k] == done[j];
    }
  }

  /** The map after the first `i` entries were visited. */
  function Sweeping(es: Entries, now: int, i: nat): Entries
    requires i <= |es|
  {
    Swept(es[..i], now) + es[i..]
  }

  lemma SweepStarts(es: Entries, now: int)
    ensures Sweeping(es, now, 0) == es
  {}

  lemma SweepEnds(es: Entries, now: int)
    ensures Sweeping(es, now, |es|) == Swept(es, now)
  {
    hide Swept;
    assert es[..|es|] == es;
  }

  lemma SweptNext(es: Entries, now: int, i: nat)
    requires i < |es|
    ensures Swept(es[..i + 1], now) == Swept(es[..i], now) + (if Over(es[i].1, now) then [] else [es[i]])
  {
    assert es[..i + 1][..i] == es[..i];
  }

  lemma NextApart(a: Entries, es: Entries, i: nat)
    requires i < |es|
    ensures a + es[i..] == a + [es[i]] + es[i + 1..]
  {}

  lemma NoneBetween(a: Entries, b: Entries)
    ensures a + [] + b == a + b
  {}

  /** One entry of a sweep: taken out or passed over. */
  lemma SweepStep(es: Entries, now: int, i: nat)
    requires UniqueKeys(es) && i < |es|
    ensures Sweeping(es, now, i + 1) == if Over(es[i].1, now) then Remove(Sweeping(es, now, i), es[i].0) else Sweeping(es, now, i)
  {
    hide Swept, UniqueKeys, Remove, Over;
    var done := Swept(es[..i], now);
    SweptNext(es, now, i);
    SweptKeysDiffer(es, now, i);
    NextApart(done, es, i);
    NoneBetween(done, es[i + 1..]);
    if Over(es[i].1, now) { RemoveNext(done, es[i], es[i + 1..]); }
  }

  lemma ScanStep(es: Entries, now: int, j: nat, best: nat)
    requires j <= Scanned(es) && best < |es|
    ensures ScanFrom(es, now, j, best) ==
      if j == Scanned(es) then best
      else if Over(es[j].1, now) then j
      else ScanFrom(es, now, j + 1, if j == 0 || Weaker(es[j].1, es[best].1) then j else best)
  {}

  /** The entry the rule picks is gone, and no other. */
  ghost predicate TakesEvictee(es: Entries, now: int, r: Entries) {
    exists i: nat :: i < |es| && Evictee(es, now, i) && r == es[..i] + es[i + 1..]
  }

  lemma EvictsAt(es: Entries, now: int, i: nat)
    requires UniqueKeys(es) && es != [] && i == ScanFrom(es, now, 0, 0)
    ensures i < |es|
    ensures var r := Remove(es, es[i].0); r == Evicted(es, now) && |r| == |es| - 1 && TakesEvictee(es, now, r)
  {
    hide ScanFrom, Evictee, UniqueKeys;
    EvictionIsExact(es, now);
    FoundAt(es, i);
  }

  class MemoryRateLimitStore {
    var entries: Entries
    const maxKeys: nat

    ghost predicate Valid() reads this { maxKeys >= 1 && Sound(entries, maxKeys) }

    /** A cap below one is refused by the source. */
    constructor (maxKeys: nat)
      requires maxKeys >= 1
      ensures Valid() && entries == [] && this.maxKeys == maxKeys
    {
      entries, this.maxKeys := [], maxKeys;
    }

    /** `increment` */
    method Increment(now: int, key: string, window: int) returns (r: Window)
      requires Valid()
      modifies this
      ensures Valid() && (entries, r) == RateLimitModel.Increment(old(entries), maxKeys, now, key, window)
    {
      IncrementKeepsSound(entries, maxKeys, now, key, window);
      if Has(entries, key) && Get(entries, key).resetAt > now {
        var existing := Get(entries, key);
        r := Window(existing.count + 1, existing.resetAt);
        entries := Put(entries, key, r);
        return;
      }
      if !Has(entries, key) && |entries| >= maxKeys {
        EvictOne(now);
      }
      r := Window(1, now + window);
      entries := Remove(entries, key);
      entries := entries + [(key, r)];
    }

    /** `evictOne`: a bounded scan with a running minimum; exactly one entry goes. */
    method EvictOne(now: int)
      requires UniqueKeys(entries) && entries != []
      modifies this
      ensures entries == Evicted(old(entries), now) && |entries| == |old(entries)| - 1
      ensures TakesEvictee(old(entries), now, entries)
    {
      ghost var before := entries;
      hide ScanFrom, Evicted, TakesEvictee, UniqueKeys, Weaker, Remove;
      var scanned, weakest := 0, 0;
      while scanned < |entries| && scanned < SCAN_LIMIT
        invariant 0 <= scanned <= Scanned(before) && weakest < |before| && entries == before
        invariant ScanFrom(before, now, scanned, weakest) == ScanFrom(before, now, 0, 0)
      {
        ScanStep(before, now, scanned, weakest);
        var entry := entries[scanned].1;
        if entry.resetAt <= now {
          EvictsAt(before, now, scanned);
          entries := Remove(entries, entries[scanned].0);
          return;
        }
        if scanned == 0 || Weaker(entry, entries[weakest].1) {
          weakest := scanned;
        }
        scanned := scanned + 1;
      }
      ScanStep(before, now, scanned, weakest);
      EvictsAt(before, now, weakest);
      entries := Remove(entries, entries[weakest].0);
    }

    /** The timer's loop over the map, deleting as it goes. */
    method Cleanup(now: int)
      requires Valid()
      modifies this
      ensures Valid() && entries == Swept(old(entries), now)
    {
      hide Swept, UniqueKeys, Sweeping, Remove;
      var snapshot, i := entries, 0;
      SweptKeeps(snapshot, now);
      SweepStarts(snapshot, now);
      while i < |snapshot|
        invariant 0 <= i <= |snapshot| && entries == Sweeping(snapshot, now, i)
      {
        SweepStep(snapshot, now, i);
        if snapshot[i].1.resetAt <= now { entries := Remove(entries, snapshot[i].0); }
        i := i + 1;
      }
      SweepEnds(snapshot, now);
    }

    /** The decision of the `onRequest` hook: admit, and what is left of the quota. */
    method Admit(now: int, key: string, window: int, max: nat) returns (admitted: bool, remaining: nat, retryAfter: nat)
      requires Valid() && window > 0
      modifies this
      ensures Valid()
      ensures var (after, w) := RateLimitModel.Increment(old(entries), maxKeys, now, key, window);
        && entries == after && admitted == (w.count <= max)
        && (admitted ==> remaining + w.count == max) && (!admitted ==> remaining == 0)
        && (!admitted ==> retryAfter >= 1 && now + 1000 * retryAfter >= w.resetAt)
        && (!admitted ==> retryAfter == 1 || now + 1000 * (retryAfter - 1) < w.resetAt)
    {
      var w := Increment(now, key, window);
      remaining := if max > w.count then max - w.count else 0;
      admitted := w.count <= max;
      var wait := w.resetAt - now;
      var seconds := (wait + 999) / 1000;
      retryAfter := if admitted then 0 else if seconds < 1 then 1 else seconds;
    }
  }
}
