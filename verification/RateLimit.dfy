module RateLimitModel {
  // The fixed-window rate limiter over a capped store (packages/rate-limit/src/index.ts).

  import opened Options
  import opened JsMap

  datatype Window = Window(count: nat, resetAt: int)

  type Entries = seq<(string, Window)>

  const SCAN_LIMIT: nat := 16

  predicate Over(w: Window, now: int) { w.resetAt <= now }

  /** Less established: a lower count, or as low a count and a sooner reset. */
  predicate Weaker(a: Window, b: Window) {
    a.count < b.count || (a.count == b.count && a.resetAt < b.resetAt)
  }

  function Scanned(es: Entries): nat { if |es| < SCAN_LIMIT then |es| else SCAN_LIMIT }

  /** The entry `evictOne` picks: the first expired one it scans, or else, of those it scans, the one
      of the fewest hits, of the earliest end among these, and the first among these. */
  ghost predicate Evictee(es: Entries, now: int, i: nat) {
    && i < Scanned(es) && i < |es|
    && if es[i].1.resetAt <= now then forall j :: 0 <= j < i ==> es[j].1.resetAt > now
       else forall j :: 0 <= j < Scanned(es) ==>
         var a, b := es[i].1, es[j].1;
         && b.resetAt > now && a.count <= b.count && (a.count == b.count ==> a.resetAt <= b.resetAt)
         && (j < i && a.count == b.count ==> a.resetAt < b.resetAt)
  }

  /** The running minimum of the scan, from entry `j` on. */
  function ScanFrom(es: Entries, now: int, j: nat, best: nat): (r: nat)
    requires j <= Scanned(es) && best < |es|
    ensures r < |es|
    decreases Scanned(es) - j
  {
    if j == Scanned(es) then best
    else if Over(es[j].1, now) then j
    else ScanFrom(es, now, j + 1, if j == 0 || Weaker(es[j].1, es[best].1) then j else best)
  }

  lemma {:induction false} ScanFindsEvictee(es: Entries, now: int, j: nat, best: nat)
    requires j <= Scanned(es) && best < |es| && (j == 0 || best < j) && Scanned(es) > 0
    requires forall i :: 0 <= i < j ==> !Over(es[i].1, now) && !Weaker(es[i].1, es[best].1)
    requires j > 0 ==> forall i :: 0 <= i < best ==> Weaker(es[best].1, es[i].1)
    ensures Evictee(es, now, ScanFrom(es, now, j, best))
    decreases Scanned(es) - j
  {
    if j < Scanned(es) && !Over(es[j].1, now) {
      ScanFindsEvictee(es, now, j + 1, if j == 0 || Weaker(es[j].1, es[best].1) then j else best);
    }
  }

  /** `evictOne` */
  function Evicted(es: Entries, now: int): Entries {
    if es == [] then es else var i := ScanFrom(es, now, 0, 0); es[..i] + es[i + 1..]
  }

  lemma EvictionIsExact(es: Entries, now: int)
    requires es != []
    ensures var i := ScanFrom(es, now, 0, 0); Evictee(es, now, i) && |Evicted(es, now)| == |es| - 1
  {
    ScanFindsEvictee(es, now, 0, 0);
  }

  predicate Live(es: Entries, key: string, now: int) { Has(es, key) && !Over(Get(es, key), now) }

  /** `increment` */
  function Increment(es: Entries, maxKeys: nat, now: int, key: string, window: int): (Entries, Window) {
    if Live(es, key, now) then
      var w := Window(Get(es, key).count + 1, Get(es, key).resetAt);
      (Put(es, key, w), w)
    else
      var room := if !Has(es, key) && |es| >= maxKeys then Evicted(es, now) else es;
      var w := Window(1, now + window);
      (Remove(room, key) + [(key, w)], w)
  }

  /** The timer's sweep. */
  function Swept(es: Entries, now: int): Entries {
    if es == [] then []
    else Swept(es[..|es| - 1], now) + (if Over(es[|es| - 1].1, now) then [] else [es[|es| - 1]])
  }

  // ---- Runs ----

  datatype Event = Hit(at: int, key: string) | Sweep(at: int)

  ghost predicate Monotone(run: seq<Event>, from: int) {
    && (forall i :: 0 <= i < |run| ==> from <= run[i].at)
    && (forall i, j :: 0 <= i < j < |run| ==> run[i].at <= run[j].at)
  }

  function Step(es: Entries, maxKeys: nat, window: int, e: Event): Entries {
    match e
    case Hit(at, key) => Increment(es, maxKeys, at, key, window).0
    case Sweep(at) => Swept(es, at)
  }

  function After(start: Entries, maxKeys: nat, window: int, run: seq<Event>): Entries {
    if run == [] then start
    else Step(After(start, maxKeys, window, run[..|run| - 1]), maxKeys, window, run[|run| - 1])
  }

  ghost predicate Sound(es: Entries, maxKeys: nat) { UniqueKeys(es) && |es| <= maxKeys }

  lemma {:induction false} SweptKeeps(es: Entries, now: int)
    requires UniqueKeys(es)
    ensures UniqueKeys(Swept(es, now)) && |Swept(es, now)| <= |es|
    ensures forall x :: x in Swept(es, now) <==> x in es && !Over(x.1, now)
  {
    if es != [] {
      var front, last := es[..|es| - 1], es[|es| - 1];
      assert es == front + [last];
      SweptKeeps(front, now);
      var r := Swept(front, now);
      forall i | 0 <= i < |r| ensures r[i].0 != last.0 {
        assert r[i] in front;
        var j :| 0 <= j < |front| && front[j] == r[i];
      }
    }
  }

  lemma IncrementKeepsSound(es: Entries, maxKeys: nat, now: int, key: string, window: int)
    requires Sound(es, maxKeys) && maxKeys >= 1
    ensures Sound(Increment(es, maxKeys, now, key, window).0, maxKeys)
  {
    if Live(es, key, now) {
      PutKeepsUnique(es, key, Window(Get(es, key).count + 1, Get(es, key).resetAt));
    } else {
      var room := if !Has(es, key) && |es| >= maxKeys then Evicted(es, now) else es;
      EvictedOthers(es, now, key);
      RemoveKeepsUnique(room, key);
      if !Has(es, key) && |es| >= maxKeys { EvictionIsExact(es, now); }
    }
  }

  /** The map never holds more than `maxKeys` keys, whatever arrives. */
  lemma {:induction false} CapHolds(start: Entries, maxKeys: nat, window: int, run: seq<Event>)
    requires Sound(start, maxKeys) && maxKeys >= 1
    ensures Sound(After(start, maxKeys, window, run), maxKeys)
  {
    if run != [] {
      var front, e := run[..|run| - 1], run[|run| - 1];
      CapHolds(start, maxKeys, window, front);
      var es := After(start, maxKeys, window, front);
      match e
      case Hit(at, key) => IncrementKeepsSound(es, maxKeys, at, key, window);
      case Sweep(at) => SweptKeeps(es, at);
    }
  }

  // ---- One key ----

  /** What one key's entry means: an expired one is none. */
  function View(es: Entries, key: string, now: int): Option<Window> {
    if Live(es, key, now) then Some(Get(es, key)) else None
  }

  /** A fixed-window counter for one key. */
  function Count(w: Option<Window>, now: int, window: int): Window {
    if w.Some? && !Over(w.value, now) then Window(w.value.count + 1, w.value.resetAt) else Window(1, now + window)
  }

  function Aged(w: Option<Window>, now: int): Option<Window> {
    if w.Some? && Over(w.value, now) then None else w
  }

  /** The event makes room by evicting the key's live entry. */
  predicate EvictsLive(es: Entries, maxKeys: nat, e: Event, key: string) {
    e.Hit? && Live(es, key, e.at) && e.key != key && !Has(es, e.key) && |es| >= maxKeys && !Has(Evicted(es, e.at), key)
  }

  lemma GetAt(es: Entries, i: nat)
    requires UniqueKeys(es) && i < |es|
    ensures Has(es, es[i].0) && Get(es, es[i].0) == es[i].1
  {
    FoundAt(es, i);
  }

  lemma InMeans(es: Entries, key: string, w: Window)
    requires UniqueKeys(es)
    ensures (key, w) in es <==> Has(es, key) && Get(es, key) == w
  {
    if (key, w) in es {
      var i :| 0 <= i < |es| && es[i] == (key, w);
      GetAt(es, i);
    }
  }

  lemma PutOthers(es: Entries, k: string, w: Window, other: string)
    requires UniqueKeys(es) && other != k
    ensures Has(Put(es, k, w), other) <==> Has(es, other)
    ensures Has(es, other) ==> Get(Put(es, k, w), other) == Get(es, other)
  {
    PutKeepsUnique(es, k, w);
    var p, i := Put(es, k, w), Find(es, k);
    if Has(es, other) {
      assert p[Find(es, other)] == es[Find(es, other)];
      GetAt(p, Find(es, other));
    }
    if Has(p, other) {
      var j := Find(p, other);
      if j < |es| { assert p[j] == es[j]; GetAt(es, j); }
    }
  }

  lemma AppendNew(es: Entries, k: string, w: Window, other: string)
    requires UniqueKeys(es) && !Has(es, k)
    ensures UniqueKeys(es + [(k, w)])
    ensures Has(es + [(k, w)], k) && Get(es + [(k, w)], k) == w
    ensures other != k ==> (Has(es + [(k, w)], other) <==> Has(es, other))
    ensures other != k && Has(es, other) ==> Get(es + [(k, w)], other) == Get(es, other)
  {
    assert Put(es, k, w) == es + [(k, w)];
    PutKeepsUnique(es, k, w);
    if other != k { PutOthers(es, k, w, other); }
  }

  lemma RemoveOthers(es: Entries, k: string, other: string)
    requires UniqueKeys(es) && other != k
    ensures Has(Remove(es, k), other) <==> Has(es, other)
    ensures Has(es, other) ==> Get(Remove(es, k), other) == Get(es, other)
  {
    RemoveKeepsUnique(es, k);
    if Has(es, other) { RemoveKeepsOthers(es, k, other); }
    var r, i := Remove(es, k), Find(es, k);
    if Has(r, other) && i < |es| {
      var j := Find(r, other);
      assert r[j] == es[if j < i then j else j + 1];
      GetAt(es, if j < i then j else j + 1);
    }
  }

  lemma EvictedOthers(es: Entries, now: int, key: string)
    requires UniqueKeys(es)
    ensures UniqueKeys(Evicted(es, now))
    ensures Has(Evicted(es, now), key) ==> Has(es, key) && Get(Evicted(es, now), key) == Get(es, key)
  {
    hide ScanFrom;
    if es != [] {
      var i := ScanFrom(es, now, 0, 0);
      var r := Evicted(es, now);
      assert forall j :: 0 <= j < |r| ==> r[j] == es[if j < i then j else j + 1];
      if Has(r, key) {
        var j := Find(r, key);
        GetAt(es, if j < i then j else j + 1);
      }
    }
  }

  lemma OwnHit(es: Entries, maxKeys: nat, now: int, key: string, window: int)
    requires UniqueKeys(es) && window > 0
    ensures var (after, w) := Increment(es, maxKeys, now, key, window);
      w == Count(View(es, key, now), now, window) && View(after, key, now) == Some(w)
  {
    if Live(es, key, now) {
      PutKeepsUnique(es, key, Window(Get(es, key).count + 1, Get(es, key).resetAt));
    } else {
      var room := if !Has(es, key) && |es| >= maxKeys then Evicted(es, now) else es;
      EvictedOthers(es, now, key);
      RemoveKeepsUnique(room, key);
      AppendNew(Remove(room, key), key, Window(1, now + window), key);
    }
  }

  lemma OtherHit(es: Entries, maxKeys: nat, now: int, other: string, window: int, key: string)
    requires UniqueKeys(es) && other != key && !EvictsLive(es, maxKeys, Hit(now, other), key)
    ensures View(Increment(es, maxKeys, now, other, window).0, key, now) == View(es, key, now)
  {
    if Live(es, other, now) {
      PutOthers(es, other, Window(Get(es, other).count + 1, Get(es, other).resetAt), key);
    } else {
      var room := if !Has(es, other) && |es| >= maxKeys then Evicted(es, now) else es;
      EvictedOthers(es, now, key);
      RemoveKeepsUnique(room, other);
      RemoveOthers(room, other, key);
      AppendNew(Remove(room, other), other, Window(1, now + window), key);
    }
  }

  lemma SweepView(es: Entries, now: int, key: string)
    requires UniqueKeys(es)
    ensures View(Swept(es, now), key, now) == View(es, key, now)
  {
    SweptKeeps(es, now);
    var r := Swept(es, now);
    if Live(es, key, now) { InMeans(es, key, Get(es, key)); InMeans(r, key, Get(es, key)); }
    if Has(r, key) { InMeans(r, key, Get(r, key)); InMeans(es, key, Get(r, key)); }
  }

  // ---- The bound over whole runs ----

  /** The key's live entry is never evicted in the run. */
  ghost predicate KeptThroughout(start: Entries, maxKeys: nat, window: int, run: seq<Event>, key: string) {
    forall i :: 0 <= i < |run| ==> !EvictsLive(After(start, maxKeys, window, run[..i]), maxKeys, run[i], key)
  }

  /** Requests of the key admitted (count within `max`) at a time in `[lo, hi)`. */
  function Admitted(start: Entries, maxKeys: nat, window: int, run: seq<Event>, key: string, max: nat, lo: int, hi: int): nat {
    if run == [] then 0
    else
      var front, e := run[..|run| - 1], run[|run| - 1];
      Admitted(start, maxKeys, window, front, key, max, lo, hi)
      + (if e.Hit? && e.key == key && lo <= e.at < hi
            && Increment(After(start, maxKeys, window, front), maxKeys, e.at, key, window).1.count <= max
         then 1 else 0)
  }

  function Min(a: nat, b: nat): nat { if a < b then a else b }

  /** What is known of the `n` admissions in `[lo, lo + window)` so far: those of windows before
      the current one are over once it starts after `lo`. */
  ghost predicate Bounded(n: nat, w: Option<Window>, now: int, max: nat, window: int, lo: int) {
    && n <= 2 * max
    && (w.None? ==> (now <= lo ==> n == 0) && (now < lo + window ==> n <= max))
    && (w.Some? ==>
          var from := w.value.resetAt - window;
          && from <= now
          && (w.value.resetAt <= lo ==> n == 0)
          && (from <= lo ==> n <= Min(w.value.count, max))
          && (from < lo + window ==> n <= max + Min(w.value.count, max)))
  }

  lemma AgeingKeepsBound(n: nat, w: Option<Window>, now: int, t: int, max: nat, window: int, lo: int)
    requires Bounded(n, w, now, max, window, lo) && now <= t && window > 0
    ensures Bounded(n, Aged(w, t), t, max, window, lo)
  {}

  lemma CountingKeepsBound(n: nat, w: Option<Window>, t: int, max: nat, window: int, lo: int)
    requires Bounded(n, w, t, max, window, lo) && (w.Some? ==> !Over(w.value, t)) && window > 0
    ensures var next := Count(w, t, window);
      var admitted := lo <= t < lo + window && next.count <= max;
      Bounded(if admitted then n + 1 else n, Some(next), t, max, window, lo)
  {}

  lemma ViewAges(es: Entries, key: string, now: int, t: int)
    requires now <= t
    ensures View(es, key, t) == Aged(View(es, key, now), t)
  {}

  function Clock(run: seq<Event>, from: int): int {
    if run == [] then from else run[|run| - 1].at
  }

  /** The window the key starts in has begun. */
  predicate Begun(start: Entries, key: string, from: int, window: int) {
    View(start, key, from).Some? ==> View(start, key, from).value.resetAt <= from + window
  }

  lemma FrontKept(start: Entries, maxKeys: nat, window: int, run: seq<Event>, key: string, from: int)
    requires run != [] && KeptThroughout(start, maxKeys, window, run, key) && Monotone(run, from)
    ensures var front := run[..|run| - 1];
      && KeptThroughout(start, maxKeys, window, front, key) && Monotone(front, from) && Clock(front, from) <= run[|run| - 1].at
      && !EvictsLive(After(start, maxKeys, window, front), maxKeys, run[|run| - 1], key)
  {
    hide After, EvictsLive;
    var front := run[..|run| - 1];
    forall i | 0 <= i < |front| ensures !EvictsLive(After(start, maxKeys, window, front[..i]), maxKeys, front[i], key) {
      assert front[..i] == run[..i] && front[i] == run[i];
    }
  }

  /** The view after one event. */
  lemma EventView(es: Entries, maxKeys: nat, window: int, e: Event, key: string)
    requires UniqueKeys(es) && window > 0 && !EvictsLive(es, maxKeys, e, key)
    ensures e.Hit? && e.key == key ==>
      var w := Increment(es, maxKeys, e.at, key, window).1;
      w == Count(View(es, key, e.at), e.at, window) && View(Step(es, maxKeys, window, e), key, e.at) == Some(w)
    ensures !(e.Hit? && e.key == key) ==> View(Step(es, maxKeys, window, e), key, e.at) == View(es, key, e.at)
  {
    match e
    case Sweep(at) => SweepView(es, at, key);
    case Hit(at, k) =>
      if k == key { OwnHit(es, maxKeys, at, key, window); } else { OtherHit(es, maxKeys, at, k, window, key); }
  }

  lemma {:induction false} RunIsBounded(start: Entries, maxKeys: nat, window: int, run: seq<Event>, key: string, max: nat, from: int, lo: int)
    requires Sound(start, maxKeys) && maxKeys >= 1 && window > 0 && Monotone(run, from) && Begun(start, key, from, window)
    requires KeptThroughout(start, maxKeys, window, run, key)
    ensures Bounded(Admitted(start, maxKeys, window, run, key, max, lo, lo + window),
                    View(After(start, maxKeys, window, run), key, Clock(run, from)), Clock(run, from), max, window, lo)
  {
    hide Bounded, Increment, View, KeptThroughout, EvictsLive, Monotone;
    if run == [] {
      StartIsBounded(start, key, max, window, from, lo);
    } else {
      var front, e := run[..|run| - 1], run[|run| - 1];
      FrontKept(start, maxKeys, window, run, key, from);
      RunIsBounded(start, maxKeys, window, front, key, max, from, lo);
      CapHolds(start, maxKeys, window, front);
      var es, now := After(start, maxKeys, window, front), Clock(front, from);
      var n := Admitted(start, maxKeys, window, front, key, max, lo, lo + window);
      ViewAges(es, key, now, e.at);
      AgeingKeepsBound(n, View(es, key, now), now, e.at, max, window, lo);
      EventView(es, maxKeys, window, e, key);
      if e.Hit? && e.key == key {
        ViewIsLive(es, key, e.at);
        CountingKeepsBound(n, View(es, key, e.at), e.at, max, window, lo);
      }
    }
  }

  lemma ViewIsLive(es: Entries, key: string, now: int)
    ensures var w := View(es, key, now); w.Some? ==> !Over(w.value, now)
  {}

  lemma StartIsBounded(start: Entries, key: string, max: nat, window: int, from: int, lo: int)
    requires Begun(start, key, from, window) && window > 0
    ensures Bounded(0, View(start, key, from), from, max, window, lo)
  {}

  /** However requests for a key are timed, and whatever else arrives, at most `2 * max` of them
      are admitted in any half-open interval as long as a window. */
  lemma AtMostTwiceMax(start: Entries, maxKeys: nat, window: int, run: seq<Event>, key: string, max: nat, from: int, lo: int)
    requires Sound(start, maxKeys) && maxKeys >= 1 && window > 0 && Monotone(run, from) && Begun(start, key, from, window)
    requires KeptThroughout(start, maxKeys, window, run, key)
    ensures Admitted(start, maxKeys, window, run, key, max, lo, lo + window) <= 2 * max
  {
    RunIsBounded(start, maxKeys, window, run, key, max, from, lo);
  }

  // ---- The bound within one window ----

  /** A request that opened a window at `lo`: its count was one. */
  predicate Opens(start: Entries, maxKeys: nat, window: int, run: seq<Event>, i: nat, key: string, lo: int) {
    i < |run| && run[i] == Hit(lo, key) && !Live(After(start, maxKeys, window, run[..i]), key, lo)
  }

  ghost predicate InWindow(n: nat, w: Option<Window>, now: int, max: nat, window: int, lo: int) {
    && n <= max
    && (w.None? ==> lo + window <= now)
    && (w.Some? ==>
          var from := w.value.resetAt - window;
          (from == lo && n <= Min(w.value.count, max)) || lo + window <= from <= now)
  }

  lemma {:induction false} WindowIsBounded(start: Entries, maxKeys: nat, window: int, run: seq<Event>, i: nat, key: string, max: nat, from: int, lo: int)
    requires Sound(start, maxKeys) && maxKeys >= 1 && window > 0 && Monotone(run, from) && Begun(start, key, from, window)
    requires KeptThroughout(start, maxKeys, window, run, key) && Opens(start, maxKeys, window, run, i, key, lo)
    ensures InWindow(Admitted(start, maxKeys, window, run, key, max, lo, lo + window),
                     View(After(start, maxKeys, window, run), key, Clock(run, from)), Clock(run, from), max, window, lo)
    decreases |run|
  {
    hide Increment, KeptThroughout, EvictsLive, Monotone, Bounded;
    var front, e := run[..|run| - 1], run[|run| - 1];
    FrontKept(start, maxKeys, window, run, key, from);
    CapHolds(start, maxKeys, window, front);
    var es, now := After(start, maxKeys, window, front), Clock(front, from);
    var n := Admitted(start, maxKeys, window, front, key, max, lo, lo + window);
    EventView(es, maxKeys, window, e, key);
    ViewAges(es, key, now, e.at);
    if i == |run| - 1 {
      RunIsBounded(start, maxKeys, window, front, key, max, from, lo);
      AgeingKeepsBound(n, View(es, key, now), now, lo, max, window, lo);
      NoneYet(n, View(es, key, lo), lo, max, window);
    } else {
      assert front[..i] == run[..i];
      WindowIsBounded(start, maxKeys, window, front, i, key, max, from, lo);
    }
  }

  lemma NoneYet(n: nat, w: Option<Window>, lo: int, max: nat, window: int)
    requires Bounded(n, w, lo, max, window, lo) && w.None?
    ensures n == 0
  {}

  /** At most `max` requests are admitted in one window. */
  lemma AtMostMaxPerWindow(start: Entries, maxKeys: nat, window: int, run: seq<Event>, i: nat, key: string, max: nat, from: int, lo: int)
    requires Sound(start, maxKeys) && maxKeys >= 1 && window > 0 && Monotone(run, from) && Begun(start, key, from, window)
    requires KeptThroughout(start, maxKeys, window, run, key) && Opens(start, maxKeys, window, run, i, key, lo)
    ensures Admitted(start, maxKeys, window, run, key, max, lo, lo + window) <= max
  {
    WindowIsBounded(start, maxKeys, window, run, i, key, max, from, lo);
  }
}
