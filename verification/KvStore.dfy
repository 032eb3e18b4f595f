module KvModel {
  // The in-memory key-value store on values: an LRU map with expiry
  // (packages/cache/src/store.ts).

  import opened Options
  import opened JsMap

  datatype Value = Number(n: int) | Other(text: string)

  datatype Entry = Entry(value: Value, expiresAt: Option<int>)

  /** Entries in iteration order. */
  type Store = seq<(string, Entry)>

  predicate Expired(e: Entry, now: int) { e.expiresAt.Some? && e.expiresAt.value <= now }

  /** Delete and re-insert: the key becomes the most recently used. */
  function Use(s: Store, k: string, e: Entry): Store { Remove(s, k) + [(k, e)] }

  /** `evictIfNeeded` */
  function Evict(s: Store, max: int): Store {
    if max > 0 && |s| > max then s[|s| - max..] else s
  }

  /** A time to live of zero is none. */
  function ExpiryAfter(now: int, ttl: Option<int>): Option<int> {
    if ttl.None? || ttl.value == 0 then None else Some(now + ttl.value)
  }

  predicate Live(s: Store, now: int, k: string) { Has(s, k) && !Expired(Get(s, k), now) }

  function GetOf(s: Store, now: int, k: string): (Store, Option<Value>) {
    if !Has(s, k) then (s, None)
    else if Expired(Get(s, k), now) then (Remove(s, k), None)
    else (Use(s, k, Get(s, k)), Some(Get(s, k).value))
  }

  function SetOf(s: Store, max: int, now: int, k: string, v: Value, ttl: Option<int>): Store {
    Evict(Use(s, k, Entry(v, ExpiryAfter(now, ttl))), max)
  }

  function HasOf(s: Store, now: int, k: string): (Store, bool) {
    if !Has(s, k) then (s, false)
    else if Expired(Get(s, k), now) then (Remove(s, k), false)
    else (s, true)
  }

  /** The rest of the time to live; -1 without one, -2 without an entry. An expiry time of zero
      reads as none, even when it has passed. */
  function TtlOf(s: Store, now: int, k: string): (Store, int) {
    if !Has(s, k) then (s, -2)
    else if Get(s, k).expiresAt.None? || Get(s, k).expiresAt.value == 0 then (s, -1)
    else if Get(s, k).expiresAt.value - now <= 0 then (Remove(s, k), -2)
    else (s, Get(s, k).expiresAt.value - now)
  }

  /** The entry `incr` writes. */
  function Incremented(s: Store, now: int, k: string, amount: int): Entry {
    var live := Live(s, now, k);
    Entry(Number((if live && Get(s, k).value.Number? then Get(s, k).value.n else 0) + amount),
          if live then Get(s, k).expiresAt else None)
  }

  function IncrOf(s: Store, max: int, now: int, k: string, amount: int): Store {
    Evict(Use(s, k, Incremented(s, now, k, amount)), max)
  }

  predicate StartsWith(s: string, prefix: string) { |prefix| <= |s| && s[..|prefix|] == prefix }

  /** What a sweep over the whole map takes out: expired entries, or the keys under a prefix. */
  datatype Sweep = Stale(now: int) | Under(prefix: string)

  predicate Goes(sweep: Sweep, x: (string, Entry)) {
    match sweep
    case Stale(now) => Expired(x.1, now)
    case Under(prefix) => StartsWith(x.0, prefix)
  }

  function Swept(s: Store, sweep: Sweep): Store {
    if s == [] then []
    else Swept(s[..|s| - 1], sweep) + (if Goes(sweep, s[|s| - 1]) then [] else [s[|s| - 1]])
  }

  // ---- Runs, with their history ----

  datatype Op =
    | OpGet(k: string) | OpSet(k: string, v: Value, ttl: Option<int>) | OpDelete(k: string) | OpHas(k: string)
    | OpKeys | OpClear(prefix: string) | OpTtl(k: string) | OpIncr(k: string, amount: int) | OpCleanup

  function Step(s: Store, max: int, now: int, op: Op): Store {
    match op
    case OpGet(k) => GetOf(s, now, k).0
    case OpSet(k, v, ttl) => SetOf(s, max, now, k, v, ttl)
    case OpDelete(k) => Remove(s, k)
    case OpHas(k) => HasOf(s, now, k).0
    case OpKeys => Swept(s, Stale(now))
    case OpClear(prefix) => Swept(s, Under(prefix))
    case OpTtl(k) => TtlOf(s, now, k).0
    case OpIncr(k, amount) => IncrOf(s, max, now, k, amount)
    case OpCleanup => Swept(s, Stale(now))
  }

  /** A store with its history: what was last written under each key and not deleted since,
      and when each key was last used (the number of the operation). */
  datatype World = World(store: Store, written: map<string, Entry>, use: map<string, nat>, n: nat, clock: int)

  function WrittenAfter(w: World, now: int, op: Op): map<string, Entry> {
    match op
    case OpSet(k, v, ttl) => w.written[k := Entry(v, ExpiryAfter(now, ttl))]
    case OpIncr(k, amount) => w.written[k := Incremented(w.store, now, k, amount)]
    case OpDelete(k) => w.written - {k}
    case OpClear(prefix) => map k | k in w.written && !StartsWith(k, prefix) :: w.written[k]
    case _ => w.written
  }

  function UseAfter(w: World, now: int, op: Op): map<string, nat> {
    match op
    case OpGet(k) => if Live(w.store, now, k) then w.use[k := w.n] else w.use
    case OpSet(k, _, _) => w.use[k := w.n]
    case OpIncr(k, _) => w.use[k := w.n]
    case _ => w.use
  }

  function NextWorld(w: World, max: int, now: int, op: Op): World {
    World(Step(w.store, max, now, op), WrittenAfter(w, now, op), UseAfter(w, now, op), w.n + 1, now)
  }

  // ---- The invariant ----

  /** Iteration order is last-use order. */
  ghost predicate InUseOrder(s: Store, use: map<string, nat>) {
    && (forall i :: 0 <= i < |s| ==> s[i].0 in use)
    && (forall i, j :: 0 <= i < j < |s| ==> use[s[i].0] < use[s[j].0])
  }

  ghost predicate UsedBefore(use: map<string, nat>, n: nat) { forall k :: k in use ==> use[k] < n }

  ghost predicate HoldsLastWrites(s: Store, written: map<string, Entry>) {
    forall i :: 0 <= i < |s| ==> s[i].0 in written && written[s[i].0] == s[i].1
  }

  /** Keys used after the last use of `k`. */
  ghost function UsedSince(use: map<string, nat>, k: string): set<string> {
    set j | j in use && k in use && use[j] > use[k]
  }

  /** At least `max` other keys have been used since. */
  ghost predicate Displaced(use: map<string, nat>, k: string, max: int) {
    max > 0 && k in use && |UsedSince(use, k)| >= max
  }

  /** A written key is stored, has expired, or was displaced. */
  ghost predicate AccountedFor(s: Store, k: string, written: map<string, Entry>, use: map<string, nat>, max: int, clock: int)
    requires k in written
  {
    Has(s, k) || Expired(written[k], clock) || Displaced(use, k, max)
  }

  ghost predicate NothingLost(s: Store, written: map<string, Entry>, use: map<string, nat>, max: int, clock: int) {
    forall k :: k in written ==> k in use && AccountedFor(s, k, written, use, max, clock)
  }

  ghost predicate Capped(s: Store, max: int) { max > 0 ==> |s| <= max }

  ghost predicate Good(w: World, max: int) {
    && InUseOrder(w.store, w.use) && UsedBefore(w.use, w.n) && HoldsLastWrites(w.store, w.written)
    && NothingLost(w.store, w.written, w.use, max, w.clock) && Capped(w.store, max)
  }

  lemma OrderGivesUnique(s: Store, use: map<string, nat>)
    requires InUseOrder(s, use)
    ensures UniqueKeys(s)
  {}

  lemma HasAt(s: Store, i: nat)
    requires UniqueKeys(s) && i < |s|
    ensures Has(s, s[i].0) && Get(s, s[i].0) == s[i].1
  {
    FoundAt(s, i);
  }

  lemma LastWriteOf(s: Store, written: map<string, Entry>, k: string)
    requires HoldsLastWrites(s, written) && Has(s, k)
    ensures k in written && written[k] == Get(s, k)
  {}

  // ---- Removing one key ----

  lemma RemoveKeeps(s: Store, k: string, use: map<string, nat>)
    requires InUseOrder(s, use)
    ensures InUseOrder(Remove(s, k), use) && |Remove(s, k)| <= |s|
    ensures forall i :: 0 <= i < |Remove(s, k)| ==> Remove(s, k)[i].0 != k && Remove(s, k)[i] in s
  {
    OrderGivesUnique(s, use);
    var r, i := Remove(s, k), Find(s, k);
    if i < |s| {
      assert forall j :: 0 <= j < |r| ==> r[j] == s[if j < i then j else j + 1];
    }
  }

  lemma RemoveHoldsWrites(s: Store, k: string, written: map<string, Entry>, use: map<string, nat>)
    requires InUseOrder(s, use) && HoldsLastWrites(s, written)
    ensures HoldsLastWrites(Remove(s, k), written) && HoldsLastWrites(Remove(s, k), written - {k})
  {
    RemoveKeeps(s, k, use);
    hide InUseOrder;
    var r := Remove(s, k);
    forall j | 0 <= j < |r| ensures r[j].0 in written && written[r[j].0] == r[j].1 {
      var i :| 0 <= i < |s| && s[i] == r[j];
    }
  }

  lemma RemoveLeaves(s: Store, k: string, other: string)
    requires UniqueKeys(s)
    ensures Has(Remove(s, k), other) <==> other != k && Has(s, other)
  {
    RemoveKeepsUnique(s, k);
    if Has(s, other) && other != k { RemoveKeepsOthers(s, k, other); }
    var r, i := Remove(s, k), Find(s, k);
    if Has(r, other) && i < |s| {
      var j := Find(r, other);
      assert r[j] == s[if j < i then j else j + 1];
      FoundAt(s, if j < i then j else j + 1);
    }
  }

  /** A key may go once it is expired or deleted. */
  lemma RemoveLosesNothing(s: Store, k: string, written: map<string, Entry>, use: map<string, nat>, max: int, clock: int)
    requires UniqueKeys(s) && NothingLost(s, written, use, max, clock)
    requires k in written && Has(s, k) ==> Expired(written[k], clock)
    ensures NothingLost(Remove(s, k), written, use, max, clock)
  {
    forall other | other in written ensures AccountedFor(Remove(s, k), other, written, use, max, clock) {
      assert AccountedFor(s, other, written, use, max, clock);
      RemoveLeaves(s, k, other);
    }
  }

  lemma TimePasses(s: Store, written: map<string, Entry>, use: map<string, nat>, max: int, clock: int, now: int)
    requires NothingLost(s, written, use, max, clock) && clock <= now
    ensures NothingLost(s, written, use, max, now)
  {
    forall k | k in written ensures AccountedFor(s, k, written, use, max, now) {
      assert AccountedFor(s, k, written, use, max, clock);
    }
  }

  // ---- Using a key ----

  lemma UseKeepsOrder(s: Store, k: string, e: Entry, use: map<string, nat>, n: nat)
    requires InUseOrder(s, use) && UsedBefore(use, n)
    ensures InUseOrder(Use(s, k, e), use[k := n]) && UsedBefore(use[k := n], n + 1)
  {
    RemoveKeeps(s, k, use);
  }

  lemma UsedSinceGrows(use: map<string, nat>, n: nat, k: string, other: string)
    requires UsedBefore(use, n) && other != k && other in use
    ensures UsedSince(use, other) <= UsedSince(use[k := n], other)
  {}

  lemma DisplacedStays(use: map<string, nat>, n: nat, k: string, other: string, max: int)
    requires UsedBefore(use, n) && other != k && Displaced(use, other, max)
    ensures Displaced(use[k := n], other, max)
  {
    UsedSinceGrows(use, n, k, other);
    SubsetSize(UsedSince(use, other), UsedSince(use[k := n], other));
  }

  lemma SubsetSize(a: set<string>, b: set<string>)
    requires a <= b
    ensures |a| <= |b|
  {
    assert b == a + (b - a);
  }

  /** Writing or touching a key accounts for it, and for the others as before. */
  lemma UseLosesNothing(s: Store, k: string, e: Entry, written: map<string, Entry>, use: map<string, nat>, n: nat, max: int, clock: int)
    requires UniqueKeys(s) && NothingLost(s, written, use, max, clock) && UsedBefore(use, n)
    ensures NothingLost(Use(s, k, e), written[k := e], use[k := n], max, clock)
  {
    hide Displaced;
    var r, after := Use(s, k, e), written[k := e];
    forall other | other in after
      ensures other in use[k := n] && AccountedFor(r, other, after, use[k := n], max, clock)
    {
      UseHas(s, k, e, other);
      if other != k {
        assert AccountedFor(s, other, written, use, max, clock);
        if Displaced(use, other, max) { DisplacedStays(use, n, k, other, max); }
      }
    }
  }

  lemma UseHas(s: Store, k: string, e: Entry, other: string)
    requires UniqueKeys(s)
    ensures UniqueKeys(Use(s, k, e))
    ensures Has(Use(s, k, e), other) <==> other == k || Has(s, other)
  {
    RemoveKeepsUnique(s, k);
    RemoveLeaves(s, k, other);
    var r, i := Use(s, k, e), |Remove(s, k)|;
    assert forall j :: 0 <= j < i ==> Remove(s, k)[j].0 != k by { NotHasMeans(Remove(s, k), k); }
    assert r[i] == (k, e);
    FoundAt(r, i);
    AppendHas(Remove(s, k), (k, e), other);
  }

  lemma NotHasMeans(s: Store, k: string)
    requires !Has(s, k)
    ensures forall j :: 0 <= j < |s| ==> s[j].0 != k
  {}

  lemma {:induction false} AppendHas(s: Store, last: (string, Entry), k: string)
    ensures Has(s + [last], k) <==> Has(s, k) || last.0 == k
  {
    var r := s + [last];
    if Has(s, k) {
      var i := Find(s, k);
      assert r[i].0 == k;
    }
    if last.0 == k { assert r[|s|].0 == k; }
    if Has(r, k) {
      var i := Find(r, k);
      if i < |s| { assert s[i].0 == k; }
    }
  }

  lemma UseHoldsWrites(s: Store, k: string, e: Entry, written: map<string, Entry>, use: map<string, nat>)
    requires InUseOrder(s, use) && HoldsLastWrites(s, written)
    ensures HoldsLastWrites(Use(s, k, e), written[k := e])
  {
    RemoveKeeps(s, k, use);
    RemoveHoldsWrites(s, k, written, use);
  }

  lemma UseGrows(s: Store, k: string, e: Entry)
    ensures |Use(s, k, e)| <= |s| + 1 && (Has(s, k) ==> |Use(s, k, e)| == |s|)
  {}

  // ---- Eviction ----

  ghost function KeySet(s: Store): set<string> { set i | 0 <= i < |s| :: s[i].0 }

  lemma {:induction false} KeySetSize(s: Store)
    requires UniqueKeys(s)
    ensures |KeySet(s)| == |s|
  {
    if s != [] {
      var front := s[..|s| - 1];
      KeySetSize(front);
      assert KeySet(s) == KeySet(front) + {s[|s| - 1].0};
      assert s[|s| - 1].0 !in KeySet(front);
    }
  }

  /** An evicted key had at least `max` others behind it, all used later. */
  lemma EvictedIsDisplaced(s: Store, use: map<string, nat>, max: int, i: nat)
    requires InUseOrder(s, use) && 0 < max < |s| && i < |s| - max
    ensures Displaced(use, s[i].0, max)
  {
    OrderGivesUnique(s, use);
    var later := s[i + 1..];
    KeySetSize(later);
    forall k | k in KeySet(later) ensures k in UsedSince(use, s[i].0) {
      var j :| 0 <= j < |later| && later[j].0 == k;
      assert later[j] == s[i + 1 + j];
    }
    SubsetSize(KeySet(later), UsedSince(use, s[i].0));
  }

  lemma EvictKeeps(s: Store, written: map<string, Entry>, use: map<string, nat>, max: int)
    requires InUseOrder(s, use) && HoldsLastWrites(s, written)
    ensures var r := Evict(s, max); InUseOrder(r, use) && HoldsLastWrites(r, written) && Capped(r, max)
  {
    var r := Evict(s, max);
    if max > 0 && |s| > max {
      assert forall j :: 0 <= j < |r| ==> r[j] == s[|s| - max + j];
    }
  }

  lemma EvictLosesNothing(s: Store, written: map<string, Entry>, use: map<string, nat>, max: int, clock: int)
    requires InUseOrder(s, use) && NothingLost(s, written, use, max, clock)
    ensures NothingLost(Evict(s, max), written, use, max, clock)
  {
    forall k | k in written ensures AccountedFor(Evict(s, max), k, written, use, max, clock) {
      hide Displaced;
      assert AccountedFor(s, k, written, use, max, clock);
      if Has(s, k) { StaysOrIsDisplaced(s, use, max, k); }
    }
  }

  lemma StaysOrIsDisplaced(s: Store, use: map<string, nat>, max: int, k: string)
    requires InUseOrder(s, use) && Has(s, k)
    ensures Has(Evict(s, max), k) || Displaced(use, k, max)
  {
    hide Displaced, InUseOrder;
    var i := Find(s, k);
    if max > 0 && |s| > max {
      if i < |s| - max {
        EvictedIsDisplaced(s, use, max, i);
      } else {
        var r := Evict(s, max);
        assert r[i - (|s| - max)] == s[i];
        InHas(r, s[i]);
      }
    }
  }

  // ---- Sweeping ----

  lemma {:induction false} SweptHolds(s: Store, sweep: Sweep, x: (string, Entry))
    ensures x in Swept(s, sweep) <==> x in s && !Goes(sweep, x)
  {
    hide Goes;
    if s != [] {
      var front, last := s[..|s| - 1], s[|s| - 1];
      assert s == front + [last];
      SweptHolds(front, sweep, x);
    }
  }

  lemma PrefixInOrder(s: Store, n: nat, use: map<string, nat>)
    requires InUseOrder(s, use) && n < |s|
    ensures InUseOrder(s[..n], use) && s[n].0 in use && forall x :: x in s[..n] ==> x.0 in use && use[x.0] < use[s[n].0]
  {}

  lemma AppendInOrder(r: Store, last: (string, Entry), use: map<string, nat>)
    requires InUseOrder(r, use) && last.0 in use && forall x :: x in r ==> x.0 in use && use[x.0] < use[last.0]
    ensures InUseOrder(r + [last], use)
  {
    forall j | 0 <= j < |r| ensures use[r[j].0] < use[last.0] { assert r[j] in r; }
  }

  lemma {:induction false} SweptKeepsOrder(s: Store, sweep: Sweep, use: map<string, nat>)
    requires InUseOrder(s, use)
    ensures InUseOrder(Swept(s, sweep), use) && |Swept(s, sweep)| <= |s|
  {
    hide Goes;
    if s != [] {
      hide InUseOrder;
      var n := |s| - 1;
      PrefixInOrder(s, n, use);
      SweptKeepsOrder(s[..n], sweep, use);
      var r := Swept(s[..n], sweep);
      forall x | x in r ensures x in s[..n] { SweptHolds(s[..n], sweep, x); }
      AppendInOrder(r, s[n], use);
      assert r + [] == r;
    }
  }

  lemma SweptHoldsWrites(s: Store, sweep: Sweep, written: map<string, Entry>)
    requires HoldsLastWrites(s, written)
    ensures HoldsLastWrites(Swept(s, sweep), written)
  {
    hide Swept, Goes;
    var r := Swept(s, sweep);
    forall j | 0 <= j < |r| ensures r[j].0 in written && written[r[j].0] == r[j].1 {
      SweptHolds(s, sweep, r[j]);
      var i :| 0 <= i < |s| && s[i] == r[j];
    }
  }

  lemma InHas(s: Store, x: (string, Entry))
    requires x in s
    ensures Has(s, x.0)
  {
    var i :| 0 <= i < |s| && s[i] == x;
  }

  lemma SweptHas(s: Store, sweep: Sweep, k: string)
    requires Has(s, k) && !Goes(sweep, (k, Get(s, k)))
    ensures Has(Swept(s, sweep), k)
  {
    hide Goes;
    var x := s[Find(s, k)];
    SweptHolds(s, sweep, x);
    InHas(Swept(s, sweep), x);
  }

  // ---- Every operation keeps the invariant ----

  lemma RemoveIsGood(w: World, max: int, now: int, k: string)
    requires Good(w, max) && w.clock <= now && (k in w.written && Has(w.store, k) ==> Expired(w.written[k], now))
    ensures Good(World(Remove(w.store, k), w.written, w.use, w.n + 1, now), max)
  {
    hide NothingLost, InUseOrder, HoldsLastWrites;
    OrderGivesUnique(w.store, w.use);
    TimePasses(w.store, w.written, w.use, max, w.clock, now);
    RemoveKeeps(w.store, k, w.use);
    RemoveHoldsWrites(w.store, k, w.written, w.use);
    RemoveLosesNothing(w.store, k, w.written, w.use, max, now);
  }

  lemma StayIsGood(w: World, max: int, now: int)
    requires Good(w, max) && w.clock <= now
    ensures Good(World(w.store, w.written, w.use, w.n + 1, now), max)
  {
    hide NothingLost, InUseOrder, HoldsLastWrites;
    TimePasses(w.store, w.written, w.use, max, w.clock, now);
  }

  lemma UseIsGood(w: World, max: int, now: int, k: string, e: Entry)
    requires Good(w, max) && w.clock <= now
    ensures Good(World(Evict(Use(w.store, k, e), max), w.written[k := e], w.use[k := w.n], w.n + 1, now), max)
  {
    hide NothingLost, InUseOrder, HoldsLastWrites, Use, Evict;
    OrderGivesUnique(w.store, w.use);
    var s, use, written := Use(w.store, k, e), w.use[k := w.n], w.written[k := e];
    TimePasses(w.store, w.written, w.use, max, w.clock, now);
    UseKeepsOrder(w.store, k, e, w.use, w.n);
    UseHoldsWrites(w.store, k, e, w.written, w.use);
    UseLosesNothing(w.store, k, e, w.written, w.use, w.n, max, now);
    EvictKeeps(s, written, use, max);
    EvictLosesNothing(s, written, use, max, now);
  }

  lemma GetIsGood(w: World, max: int, now: int, k: string)
    requires Good(w, max) && w.clock <= now
    ensures Good(NextWorld(w, max, now, OpGet(k)), max)
  {
    hide Good, Use, Remove;
    LastWrites(w, max);
    if Live(w.store, now, k) {
      LastWriteOf(w.store, w.written, k);
      var e := Get(w.store, k);
      UseIsGood(w, max, now, k, e);
      StillCapped(w, max, k, e);
      assert w.written[k := e] == w.written;
    } else if Has(w.store, k) {
      LastWriteOf(w.store, w.written, k);
      RemoveIsGood(w, max, now, k);
    } else {
      StayIsGood(w, max, now);
    }
  }

  lemma LastWrites(w: World, max: int)
    requires Good(w, max)
    ensures HoldsLastWrites(w.store, w.written) && UniqueKeys(w.store)
  {}

  /** Re-inserting a stored key evicts nothing. */
  lemma StillCapped(w: World, max: int, k: string, e: Entry)
    requires Good(w, max) && Has(w.store, k)
    ensures Evict(Use(w.store, k, e), max) == Use(w.store, k, e)
  {
    UseGrows(w.store, k, e);
  }

  lemma DeleteIsGood(w: World, max: int, now: int, k: string)
    requires Good(w, max) && w.clock <= now
    ensures Good(NextWorld(w, max, now, OpDelete(k)), max)
  {
    hide Remove, InUseOrder, HoldsLastWrites;
    OrderGivesUnique(w.store, w.use);
    RemoveKeeps(w.store, k, w.use);
    RemoveHoldsWrites(w.store, k, w.written, w.use);
    TimePasses(w.store, w.written, w.use, max, w.clock, now);
    forall other | other in w.written - {k}
      ensures AccountedFor(Remove(w.store, k), other, w.written - {k}, w.use, max, now)
    {
      assert AccountedFor(w.store, other, w.written, w.use, max, now);
      RemoveLeaves(w.store, k, other);
    }
  }

  lemma SweepIsGood(w: World, max: int, now: int)
    requires Good(w, max) && w.clock <= now
    ensures Good(NextWorld(w, max, now, OpCleanup), max)
  {
    hide Swept, InUseOrder;
    var r := Swept(w.store, Stale(now));
    SweptKeepsOrder(w.store, Stale(now), w.use);
    SweptHoldsWrites(w.store, Stale(now), w.written);
    TimePasses(w.store, w.written, w.use, max, w.clock, now);
    forall k | k in w.written ensures AccountedFor(r, k, w.written, w.use, max, now) {
      assert AccountedFor(w.store, k, w.written, w.use, max, now);
      if Has(w.store, k) {
        LastWriteOf(w.store, w.written, k);
        if !Expired(w.written[k], now) { SweptHas(w.store, Stale(now), k); }
      }
    }
  }

  lemma ClearIsGood(w: World, max: int, now: int, prefix: string)
    requires Good(w, max) && w.clock <= now
    ensures Good(NextWorld(w, max, now, OpClear(prefix)), max)
  {
    hide Swept, InUseOrder;
    var r, written := Swept(w.store, Under(prefix)), WrittenAfter(w, now, OpClear(prefix));
    SweptKeepsOrder(w.store, Under(prefix), w.use);
    SweptHoldsWrites(w.store, Under(prefix), w.written);
    TimePasses(w.store, w.written, w.use, max, w.clock, now);
    forall j | 0 <= j < |r| ensures r[j].0 in written && written[r[j].0] == r[j].1 {
      SweptHolds(w.store, Under(prefix), r[j]);
    }
    forall k | k in written ensures AccountedFor(r, k, written, w.use, max, now) {
      assert AccountedFor(w.store, k, w.written, w.use, max, now);
      if Has(w.store, k) { SweptHas(w.store, Under(prefix), k); }
    }
  }

  lemma StepIsGood(w: World, max: int, now: int, op: Op)
    requires Good(w, max) && w.clock <= now
    ensures Good(NextWorld(w, max, now, op), max)
  {
    hide Good;
    LastWrites(w, max);
    match op
    case OpGet(k) => GetIsGood(w, max, now, k);
    case OpSet(k, v, ttl) => UseIsGood(w, max, now, k, Entry(v, ExpiryAfter(now, ttl)));
    case OpDelete(k) => DeleteIsGood(w, max, now, k);
    case OpIncr(k, amount) => UseIsGood(w, max, now, k, Incremented(w.store, now, k, amount));
    case OpClear(prefix) => ClearIsGood(w, max, now, prefix);
    case OpKeys => SweepIsGood(w, max, now);
    case OpCleanup => SweepIsGood(w, max, now);
    case OpHas(k) =>
      if Has(w.store, k) { LastWriteOf(w.store, w.written, k); }
      if HasOf(w.store, now, k).0 == w.store { StayIsGood(w, max, now); } else { RemoveIsGood(w, max, now, k); }
    case OpTtl(k) =>
      if Has(w.store, k) { LastWriteOf(w.store, w.written, k); }
      if TtlOf(w.store, now, k).0 == w.store { StayIsGood(w, max, now); } else { RemoveIsGood(w, max, now, k); }
  }

  lemma StartsWithIff(s: string, prefix: string)
    ensures StartsWith(s, prefix) <==> exists rest :: s == prefix + rest
  {
    if StartsWith(s, prefix) { assert s == prefix + s[|prefix|..]; }
    if rest :| s == prefix + rest { assert s[..|prefix|] == prefix; }
  }

  /** `clear` takes exactly the keys that continue the prefix. */
  lemma ClearTakesContinuations(s: Store, max: int, now: int, prefix: string, k: string)
    requires UniqueKeys(s)
    ensures Has(Step(s, max, now, OpClear(prefix)), k) <==> Has(s, k) && !exists rest :: k == prefix + rest
  {
    StartsWithIff(k, prefix);
    hide StartsWith, Swept;
    if Has(s, k) && !StartsWith(k, prefix) { SweptHas(s, Under(prefix), k); }
    var r := Swept(s, Under(prefix));
    if Has(r, k) {
      var x := r[Find(r, k)];
      SweptHolds(s, Under(prefix), x);
      assert x in r && Goes(Under(prefix), x) == StartsWith(k, prefix);
      var i :| 0 <= i < |s| && s[i] == x;
      FoundAt(s, i);
    }
  }

  // ---- Whole runs ----

  type Run = seq<(int, Op)>

  ghost predicate Monotone(run: Run, from: int) {
    && (forall i :: 0 <= i < |run| ==> from <= run[i].0)
    && (forall i, j :: 0 <= i < j < |run| ==> run[i].0 <= run[j].0)
  }

  function After(run: Run, max: int, from: int): World {
    if run == [] then World([], map[], map[], 0, from)
    else NextWorld(After(run[..|run| - 1], max, from), max, run[|run| - 1].0, run[|run| - 1].1)
  }

  lemma {:induction false} RunIsGood(run: Run, max: int, from: int)
    requires Monotone(run, from)
    ensures Good(After(run, max, from), max)
    ensures After(run, max, from).clock == if run == [] then from else run[|run| - 1].0
  {
    if run != [] {
      hide Good;
      var front := run[..|run| - 1];
      RunIsGood(front, max, from);
      StepIsGood(After(front, max, from), max, run[|run| - 1].0, run[|run| - 1].1);
    }
  }

  ghost predicate Ordered(w: World, max: int) {
    InUseOrder(w.store, w.use) && UsedBefore(w.use, w.n) && Capped(w.store, max)
  }

  lemma EvictKeepsOrder(s: Store, use: map<string, nat>, max: int)
    requires InUseOrder(s, use)
    ensures InUseOrder(Evict(s, max), use) && Capped(Evict(s, max), max)
  {
    var r := Evict(s, max);
    if max > 0 && |s| > max {
      assert forall j :: 0 <= j < |r| ==> r[j] == s[|s| - max + j];
    }
  }

  lemma UseIsOrdered(w: World, max: int, k: string, e: Entry)
    requires Ordered(w, max)
    ensures var s, use := Use(w.store, k, e), w.use[k := w.n];
      && InUseOrder(s, use) && InUseOrder(Evict(s, max), use) && UsedBefore(use, w.n + 1)
      && Capped(Evict(s, max), max) && (Has(w.store, k) ==> Capped(s, max))
  {
    hide InUseOrder, Use, Evict;
    OrderGivesUnique(w.store, w.use);
    UseKeepsOrder(w.store, k, e, w.use, w.n);
    EvictKeepsOrder(Use(w.store, k, e), w.use[k := w.n], max);
    if Has(w.store, k) { UseGrows(w.store, k, e); }
  }

  /** No clock is needed for the order and the cap. */
  lemma StepKeepsOrdered(w: World, max: int, now: int, op: Op)
    requires Ordered(w, max)
    ensures Ordered(NextWorld(w, max, now, op), max)
  {
    hide InUseOrder, Use, Evict, Remove, Swept, Find;
    match op
    case OpGet(k) =>
      RemoveKeeps(w.store, k, w.use);
      if Has(w.store, k) { UseIsOrdered(w, max, k, Get(w.store, k)); }
    case OpSet(k, v, ttl) => UseIsOrdered(w, max, k, Entry(v, ExpiryAfter(now, ttl)));
    case OpIncr(k, amount) => UseIsOrdered(w, max, k, Incremented(w.store, now, k, amount));
    case OpDelete(k) => RemoveKeeps(w.store, k, w.use);
    case OpHas(k) => RemoveKeeps(w.store, k, w.use);
    case OpTtl(k) => RemoveKeeps(w.store, k, w.use);
    case OpClear(prefix) => SweptKeepsOrder(w.store, Under(prefix), w.use);
    case OpKeys => SweptKeepsOrder(w.store, Stale(now), w.use);
    case OpCleanup => SweptKeepsOrder(w.store, Stale(now), w.use);
  }

  /** In every run, whatever the clock does: iteration order is last-use order and the cap holds. */
  lemma {:induction false} RunKeepsUseOrderAndCap(run: Run, max: int, from: int)
    ensures var w := After(run, max, from);
      InUseOrder(w.store, w.use) && UsedBefore(w.use, w.n) && (max > 0 ==> |w.store| <= max)
  {
    hide InUseOrder, NextWorld;
    if run == [] {
      assert InUseOrder([], map[]) by { NoneInOrder(); }
    } else {
      var front := run[..|run| - 1];
      RunKeepsUseOrderAndCap(front, max, from);
      StepKeepsOrdered(After(front, max, from), max, run[|run| - 1].0, run[|run| - 1].1);
    }
  }

  lemma NoneInOrder()
    ensures InUseOrder([], map[])
  {}

  /** In every run, a read gives the value last written under the key; it gives none only if
      the key was never written since it was deleted, has expired, or was displaced by the use
      of at least `max` other keys since its own last use. Without a cap it is exactly the
      read of a plain expiring map. */
  lemma ReadIsLastWrite(run: Run, max: int, from: int, now: int, k: string)
    requires Monotone(run, from) && After(run, max, from).clock <= now
    ensures var w := After(run, max, from);
      var plain := if k in w.written && !Expired(w.written[k], now) then Some(w.written[k].value) else None;
      var read := GetOf(w.store, now, k).1;
      && (read == plain || (read.None? && Displaced(w.use, k, max)))
      && (max <= 0 ==> read == plain)
  {
    RunIsGood(run, max, from);
    var w := After(run, max, from);
    hide InUseOrder, Displaced, After;
    TimePasses(w.store, w.written, w.use, max, w.clock, now);
    if Has(w.store, k) { LastWriteOf(w.store, w.written, k); }
    if k in w.written { assert AccountedFor(w.store, k, w.written, w.use, max, now); }
    NoCapDisplacesNone(w.use, k, max);
  }

  /** Operations that write the key or take it away on purpose. */
  predicate Writes(op: Op, k: string) {
    match op
    case OpSet(other, _, _) => other == k
    case OpIncr(other, _) => other == k
    case OpDelete(other) => other == k
    case OpClear(prefix) => StartsWith(k, prefix)
    case _ => false
  }

  lemma {:induction false} WrittenStays(run: Run, rest: Run, max: int, from: int, k: string)
    requires k in After(run, max, from).written && forall i :: 0 <= i < |rest| ==> !Writes(rest[i].1, k)
    ensures k in After(run + rest, max, from).written
    ensures After(run + rest, max, from).written[k] == After(run, max, from).written[k]
    decreases |rest|
  {
    if rest == [] {
      assert run + rest == run;
    } else {
      var n := |rest| - 1;
      WrittenStays(run, rest[..n], max, from, k);
      assert (run + rest)[..|run + rest| - 1] == run + rest[..n] && (run + rest)[|run + rest| - 1] == rest[n];
      hide Step, UseAfter;
    }
  }

  /** Set under a time to live, a value is read until that time has passed and not from then on, in
      every run whose later operations do not write the key, unless it was displaced; without one,
      or with one of 0, it is read for ever. */
  lemma SetIsReadUntil(run: Run, at: int, k: string, v: Value, ttl: Option<int>, rest: Run, max: int, from: int, now: int)
    requires Monotone(run + [(at, OpSet(k, v, ttl))] + rest, from)
    requires forall i :: 0 <= i < |rest| ==> !Writes(rest[i].1, k)
    requires After(run + [(at, OpSet(k, v, ttl))] + rest, max, from).clock <= now
    ensures var w := After(run + [(at, OpSet(k, v, ttl))] + rest, max, from);
      var read := GetOf(w.store, now, k).1;
      var unlimited := ttl.None? || ttl.value == 0;
      && (unlimited || now < at + ttl.value ==> read == Some(v) || (read.None? && Displaced(w.use, k, max)))
      && (!unlimited && at + ttl.value <= now ==> read == None)
  {
    var first := run + [(at, OpSet(k, v, ttl))];
    assert first[..|first| - 1] == run && first[|first| - 1] == (at, OpSet(k, v, ttl));
    assert After(first, max, from).written[k] == Entry(v, ExpiryAfter(at, ttl)) by { hide Step, UseAfter; }
    hide After, GetOf, Displaced, Monotone;
    WrittenStays(first, rest, max, from, k);
    ReadIsLastWrite(first + rest, max, from, now, k);
  }

  /** In every run, a key is present exactly when its last write is live, unless it was displaced. */
  lemma PresenceIsLastWrite(run: Run, max: int, from: int, now: int, k: string)
    requires Monotone(run, from) && After(run, max, from).clock <= now
    ensures var w := After(run, max, from);
      var live := k in w.written && !Expired(w.written[k], now);
      var present := HasOf(w.store, now, k).1;
      present == live || (!present && Displaced(w.use, k, max))
  {
    hide *;
    RunIsGood(run, max, from);
    var w := After(run, max, from);
    if !Displaced(w.use, k, max) { LiveIsWritten(w, max, now, k); }
    PresentIsWritten(w, max, now, k);
    HasIsLive(w.store, now, k);
  }

  lemma HasIsLive(s: Store, now: int, k: string)
    ensures HasOf(s, now, k).1 == Live(s, now, k)
  {}

  lemma PresentIsWritten(w: World, max: int, now: int, k: string)
    requires Good(w, max)
    ensures Has(w.store, k) ==> k in w.written && w.written[k] == Get(w.store, k)
    ensures Live(w.store, now, k) ==> Has(w.store, k) && !Expired(Get(w.store, k), now)
  {
    hide InUseOrder, NothingLost;
    if Has(w.store, k) { LastWriteOf(w.store, w.written, k); }
  }

  /** What a plain expiring map would answer. */
  function PlainTtl(written: map<string, Entry>, now: int, k: string): int {
    if k !in written then -2
    else match written[k].expiresAt
      case None => -1
      case Some(at) => if at == 0 then -1 else if at > now then at - now else -2
  }

  /** In every run, the time to live is that of the last write, unless the key is not stored. */
  lemma TtlIsLastWrite(run: Run, max: int, from: int, now: int, k: string)
    requires Monotone(run, from) && After(run, max, from).clock <= now
    ensures var w := After(run, max, from); var rest := TtlOf(w.store, now, k).1;
      && (Has(w.store, k) ==> rest == PlainTtl(w.written, now, k))
      && (!Has(w.store, k) ==> rest == -2)
      && (!Has(w.store, k) ==> k !in w.written || Expired(w.written[k], now) || Displaced(w.use, k, max))
  {
    hide *;
    RunIsGood(run, max, from);
    var w := After(run, max, from);
    PresentIsWritten(w, max, now, k);
    TtlOfWritten(w.store, w.written, now, k);
    MissingIsAccountedFor(w, max, now, k);
  }

  lemma TtlOfWritten(s: Store, written: map<string, Entry>, now: int, k: string)
    requires Has(s, k) ==> k in written && written[k] == Get(s, k)
    ensures TtlOf(s, now, k).1 == if Has(s, k) then PlainTtl(written, now, k) else -2
  {
    hide Find;
  }

  lemma MissingIsAccountedFor(w: World, max: int, now: int, k: string)
    requires Good(w, max) && w.clock <= now
    ensures !Has(w.store, k) ==> k !in w.written || Expired(w.written[k], now) || Displaced(w.use, k, max)
  {
    hide InUseOrder, Displaced;
    TimePasses(w.store, w.written, w.use, max, w.clock, now);
    if k in w.written { assert AccountedFor(w.store, k, w.written, w.use, max, now); }
  }

  lemma NoCapDisplacesNone(use: map<string, nat>, k: string, max: int)
    ensures Displaced(use, k, max) ==> max > 0
  {}

  /** Incrementing adds to the last written live number and keeps its expiry, unless the key
      was displaced; a missing, expired or non-numeric value counts as zero. */
  lemma IncrementAddsToLastWrite(run: Run, max: int, from: int, now: int, k: string, amount: int)
    requires Monotone(run, from) && After(run, max, from).clock <= now
    requires !Displaced(After(run, max, from).use, k, max)
    ensures var w := After(run, max, from);
      var live := k in w.written && !Expired(w.written[k], now);
      Incremented(w.store, now, k, amount) ==
        Entry(Number((if live && w.written[k].value.Number? then w.written[k].value.n else 0) + amount),
              if live then w.written[k].expiresAt else None)
  {
    hide *;
    RunIsGood(run, max, from);
    IncrementOfGood(After(run, max, from), max, now, k, amount);
  }

  lemma IncrementOfGood(w: World, max: int, now: int, k: string, amount: int)
    requires Good(w, max) && w.clock <= now && !Displaced(w.use, k, max)
    ensures var live := k in w.written && !Expired(w.written[k], now);
      Incremented(w.store, now, k, amount) ==
        Entry(Number((if live && w.written[k].value.Number? then w.written[k].value.n else 0) + amount),
              if live then w.written[k].expiresAt else None)
  {
    hide *;
    LiveIsWritten(w, max, now, k);
    IncrementedOf(w.store, now, k, amount);
  }

  lemma IncrementedOf(s: Store, now: int, k: string, amount: int)
    ensures Live(s, now, k) ==> Has(s, k)
    ensures Incremented(s, now, k, amount) ==
      if !Live(s, now, k) then Entry(Number(amount), None)
      else Entry(Number((if Get(s, k).value.Number? then Get(s, k).value.n else 0) + amount), Get(s, k).expiresAt)
  {}

  lemma LiveIsWritten(w: World, max: int, now: int, k: string)
    requires Good(w, max) && w.clock <= now && !Displaced(w.use, k, max)
    ensures Live(w.store, now, k) <==> k in w.written && !Expired(w.written[k], now)
    ensures Live(w.store, now, k) ==> Has(w.store, k) && Get(w.store, k) == w.written[k]
  {
    hide InUseOrder, Displaced;
    TimePasses(w.store, w.written, w.use, max, w.clock, now);
    if Has(w.store, k) { LastWriteOf(w.store, w.written, k); }
    if k in w.written { assert AccountedFor(w.store, k, w.written, w.use, max, now); }
  }
}
