/** What reclaiming and promotion leave behind in the store (packages/queue-redis/src/index.ts). */
module RedisReclaim {
  // Stated on the lists and the hash themselves: no lease that is over stays in flight, and every
  // job whose lease is over is waiting again or dead.

  import opened Options
  import opened QueueTypes
  import opened JsMap
  import opened RedisScripts
  import opened RedisQueueRefinement

  // ---- Staging ----

  ghost predicate Distinct(entries: seq<string>) {
    forall i, j :: 0 <= i < j < |entries| ==> entries[i] != entries[j]
  }

  /** In-flight entries are listed once, with a lease each, and apart from the staged ones. */
  ghost predicate Tidy(s: Server) {
    && Distinct(s.processing) && Distinct(s.reclaim)
    && (forall e :: e in s.leases <==> e in s.processing)
    && (forall e :: e in s.processing ==> e !in s.reclaim)
  }

  lemma ValidIsTidy(c: Codec, w: World)
    requires Valid(c, w)
    ensures Tidy(w.s)
  {
    hide TokenOf;
  }

  /** The entry is in flight, and its lease is over. */
  predicate Overdue(s: Server, e: string, now: int) {
    e in s.processing && e in s.leases && s.leases[e] <= now
  }

  /** What is left of the store when the listed entries were staged as far as their leases are
      over. */
  ghost predicate Staged(s: Server, entries: seq<string>, now: int, v: Server) {
    && v.pending == s.pending && v.delayed == s.delayed && v.dead == s.dead
    && (forall e :: e in v.processing <==> e in s.processing && !(e in entries && Overdue(s, e, now)))
    && (forall e :: e in v.processing && e in s.leases && e in v.leases ==> v.leases[e] == s.leases[e])
    && (forall e :: e in v.reclaim <==> e in s.reclaim || (e in entries && Overdue(s, e, now)))
  }

  lemma LremOfDistinct(list: seq<string>, x: string)
    requires Distinct(list)
    ensures Distinct(Lrem(list, x)) && forall e :: e in Lrem(list, x) <==> e in list && e != x
  {
    var r, i := Lrem(list, x), Position(list, x);
    if i < |list| {
      assert forall j :: 0 <= j < |r| ==> r[j] == list[if j < i then j else j + 1];
      forall e | e in list && e != x ensures e in r {
        var j :| 0 <= j < |list| && list[j] == e;
        assert r[if j < i then j else j - 1] == e;
      }
    }
  }

  lemma OneIsTidy(s: Server, entry: string, processing: seq<string>)
    requires Tidy(s) && entry in s.processing && Distinct(processing)
    requires forall e :: e in processing <==> e in s.processing && e != entry
    ensures Tidy(s.(processing := processing, leases := s.leases - {entry}, reclaim := [entry] + s.reclaim))
  {
    var r := [entry] + s.reclaim;
    assert forall i :: 0 < i < |r| ==> r[i] == s.reclaim[i - 1];
  }

  lemma OneIsMoved(s: Server, entry: string, processing: seq<string>, now: int)
    requires Tidy(s) && Overdue(s, entry, now)
    requires forall e :: e in processing <==> e in s.processing && e != entry
    ensures Staged(s, [entry], now, s.(processing := processing, leases := s.leases - {entry}, reclaim := [entry] + s.reclaim))
  {
    hide Tidy;
  }

  lemma NoneIsMoved(s: Server, entry: string, now: int)
    requires !Overdue(s, entry, now)
    ensures Staged(s, [entry], now, s)
  {}

  lemma OneIsStaged(s: Server, entry: string, now: int)
    requires Tidy(s)
    ensures Tidy(ReapOne(s, entry, now)) && Staged(s, [entry], now, ReapOne(s, entry, now))
  {
    assert Overdue(s, entry, now) <==> (entry !in s.leases || s.leases[entry] <= now) && entry in s.processing;
    assert Distinct(s.processing);
    hide Tidy, Staged, Overdue, Distinct, Lrem;
    LremOfDistinct(s.processing, entry);
    if Overdue(s, entry, now) {
      OneIsTidy(s, entry, Lrem(s.processing, entry));
      OneIsMoved(s, entry, Lrem(s.processing, entry), now);
    } else {
      NoneIsMoved(s, entry, now);
    }
  }

  lemma StagedMore(s: Server, u: Server, v: Server, entries: seq<string>, now: int)
    requires entries != [] && Tidy(s) && Tidy(u) && Tidy(v)
    requires Staged(s, [entries[0]], now, u) && Staged(u, entries[1..], now, v)
    ensures Staged(s, entries, now, v)
  {
    assert forall e :: e in entries <==> e == entries[0] || e in entries[1..];
  }

  lemma {:induction false} AllAreStaged(s: Server, entries: seq<string>, now: int)
    requires Tidy(s)
    ensures Tidy(ReapFrom(s, entries, now)) && Staged(s, entries, now, ReapFrom(s, entries, now))
    decreases |entries|
  {
    hide Tidy, ReapOne;
    if entries == [] {
      NoneAreStaged(s, now);
    } else {
      var u := ReapOne(s, entries[0], now);
      OneIsStaged(s, entries[0], now);
      AllAreStaged(u, entries[1..], now);
      StagedMore(s, u, ReapFrom(s, entries, now), entries, now);
    }
  }

  lemma NoneAreStaged(s: Server, now: int)
    ensures Staged(s, [], now, s)
  {}

  /** No lease that is over stays in flight: after a reap at `now` exactly the entries with a lease
      after `now` are in flight, with that lease, and the others are staged. */
  lemma ReapIsComplete(c: Codec, cfg: Config, w: World, now: int)
    requires Valid(c, w)
    ensures var v := NextWorld(c, cfg, w, ReapCmd(now)).s;
      && Tidy(v) && v.pending == w.s.pending && v.delayed == w.s.delayed && v.dead == w.s.dead
      && (forall e :: e in v.processing <==> e in w.s.processing && w.s.leases[e] > now)
      && (forall e :: e in v.processing ==> e in v.leases && v.leases[e] == w.s.leases[e] > now)
      && (forall e :: e in v.reclaim <==> e in w.s.reclaim || (e in w.s.processing && w.s.leases[e] <= now))
  {
    ValidIsTidy(c, w);
    hide Valid;
    AllAreStaged(w.s, w.s.processing, now);
  }

  // ---- Draining ----

  /** The job of a lease that is over: waiting again within its budget, dead past it. */
  ghost predicate Rerouted(c: Codec, entry: string, now: int, pending: seq<string>, dead: seq<string>) {
    var m := HandedMessage(c, entry);
    if m.attempt < m.maxRetries then exists raw :: raw in pending && IsRetry(m, Read(c, raw), now)
    else exists raw :: raw in dead && IsBurial(m, ReadDead(c, raw), now)
  }

  lemma DrainReroutes(c: Codec, cfg: Config, s: Server, entry: string, now: int)
    requires Faithful(c) && entry in s.reclaim
    ensures var (toDead, payload) := Routed(c, cfg, entry, now); var v := DrainScript(s, entry, toDead, payload).0;
      Rerouted(c, entry, now, v.pending, v.dead)
  {
    var m := HandedMessage(c, entry);
    var (toDead, payload) := Routed(c, cfg, entry, now);
    var v := DrainScript(s, entry, toDead, payload).0;
    RoutedIs(c, cfg, entry, now);
    hide HandedMessage, Routed, IsRetry, IsBurial, Faithful, Lrem;
    if toDead { assert payload in v.dead; } else { assert payload in v.pending; }
  }

  lemma RoutedIs(c: Codec, cfg: Config, entry: string, now: int)
    requires Faithful(c)
    ensures var m := HandedMessage(c, entry); var (toDead, payload) := Routed(c, cfg, entry, now);
      && toDead == (m.attempt >= m.maxRetries)
      && if toDead then IsBurial(m, ReadDead(c, payload), now) else IsRetry(m, Read(c, payload), now)
  {
    var m := HandedMessage(c, entry);
    var x := Expired(m, cfg.expiryError, now);
    assert x.failures[..|m.failures|] == m.failures;
    hide HandedMessage;
  }

  lemma ReroutedStays(c: Codec, entry: string, now: int, s: Server, t: Server)
    requires Rerouted(c, entry, now, s.pending, s.dead)
    requires (forall raw :: raw in s.pending ==> raw in t.pending) && (forall raw :: raw in s.dead ==> raw in t.dead)
    ensures Rerouted(c, entry, now, t.pending, t.dead)
  {
    hide HandedMessage, Read, ReadDead, IsRetry, IsBurial;
  }

  /** One drained entry: out of staging, and everything else kept. */
  ghost predicate Drained(s: Server, v: Server, entry: string) {
    && v.processing == s.processing && v.leases == s.leases && v.delayed == s.delayed
    && (forall e :: e in v.reclaim <==> e in s.reclaim && e != entry) && Distinct(v.reclaim)
    && (forall raw :: raw in s.pending ==> raw in v.pending) && (forall raw :: raw in s.dead ==> raw in v.dead)
  }

  lemma DrainDrains(c: Codec, cfg: Config, s: Server, entry: string, now: int)
    requires Distinct(s.reclaim)
    ensures var (toDead, payload) := Routed(c, cfg, entry, now); Drained(s, DrainScript(s, entry, toDead, payload).0, entry)
  {
    LremOfDistinct(s.reclaim, entry);
    hide Routed, Lrem;
  }

  /** The drains of the listed entries, one after the other. */
  function DrainFrom(c: Codec, cfg: Config, s: Server, entries: seq<string>, now: int): Server
    decreases |entries|
  {
    if entries == [] then s
    else
      var (toDead, payload) := Routed(c, cfg, entries[0], now);
      DrainFrom(c, cfg, DrainScript(s, entries[0], toDead, payload).0, entries[1..], now)
  }

  lemma {:induction false} DrainIsComplete(c: Codec, cfg: Config, s: Server, entries: seq<string>, now: int)
    requires Faithful(c) && Distinct(s.reclaim) && (forall e :: e in entries ==> e in s.reclaim) && Distinct(entries)
    ensures var v := DrainFrom(c, cfg, s, entries, now);
      && v.processing == s.processing && v.leases == s.leases && v.delayed == s.delayed
      && (forall e :: e in v.reclaim <==> e in s.reclaim && e !in entries)
      && (forall e :: e in entries ==> Rerouted(c, e, now, v.pending, v.dead))
      && (forall raw :: raw in s.pending ==> raw in v.pending) && (forall raw :: raw in s.dead ==> raw in v.dead)
    decreases |entries|
  {
    if entries != [] {
      var (toDead, payload) := Routed(c, cfg, entries[0], now);
      var u := DrainScript(s, entries[0], toDead, payload).0;
      var v := DrainFrom(c, cfg, s, entries, now);
      DrainDrains(c, cfg, s, entries[0], now);
      DrainReroutes(c, cfg, s, entries[0], now);
      hide Faithful, Rerouted, Routed, DrainScript;
      assert forall e :: e in entries <==> e == entries[0] || e in entries[1..];
      forall e | e in entries[1..] ensures e != entries[0] {
        var i :| 0 <= i < |entries| - 1 && entries[1..][i] == e;
        assert entries[i + 1] == e;
      }
      DrainIsComplete(c, cfg, u, entries[1..], now);
      ReroutedStays(c, entries[0], now, u, v);
    }
  }

  // ---- What a client leaves ----

  /** Past the budget, and pushed off the end of a full dead list. */
  predicate TrimmedOff(c: Codec, entry: string, cap: nat, dead: seq<string>) {
    var m := HandedMessage(c, entry); m.attempt >= m.maxRetries && 0 < cap == |dead|
  }

  /** Staging is empty, and every job that was in it is waiting again or dead. */
  ghost predicate AllDrained(c: Codec, s: Server, now: int, cap: nat, v: Server) {
    && v.processing == s.processing && v.leases == s.leases && v.delayed == s.delayed && v.reclaim == []
    && (forall raw :: raw in s.pending ==> raw in v.pending)
    && forall e :: e in s.reclaim ==> Rerouted(c, e, now, v.pending, v.dead) || TrimmedOff(c, e, cap, v.dead)
  }

  /** No lease that is over is in flight or staged any more, and every job that had one is waiting
      again or dead. */
  ghost predicate Recovered(c: Codec, s: Server, now: int, cap: nat, v: Server) {
    && v.reclaim == [] && v.delayed == s.delayed
    && (forall e :: e in v.processing <==> e in s.processing && !Overdue(s, e, now))
    && (forall e :: e in v.processing ==> e in v.leases && v.leases[e] > now)
    && (forall raw :: raw in s.pending ==> raw in v.pending)
    && forall e :: e in s.reclaim || Overdue(s, e, now) ==> Rerouted(c, e, now, v.pending, v.dead) || TrimmedOff(c, e, cap, v.dead)
  }

  lemma DrainedThenTrimmed(c: Codec, cfg: Config, s: Server, now: int, trim: bool)
    requires Faithful(c) && Distinct(s.reclaim)
    ensures var d := DrainFrom(c, cfg, s, s.reclaim, now);
      AllDrained(c, s, now, cfg.maxDead, if trim then d.(dead := Ltrim(d.dead, cfg.maxDead)) else d)
  {
    hide Rerouted, Faithful, DrainFrom, HandedMessage, Ltrim;
    var d := DrainFrom(c, cfg, s, s.reclaim, now);
    DrainIsComplete(c, cfg, s, s.reclaim, now);
    NoneLeft(d.reclaim);
    forall e | e in s.reclaim
      ensures Rerouted(c, e, now, d.pending, Ltrim(d.dead, cfg.maxDead)) || TrimmedOff(c, e, cfg.maxDead, Ltrim(d.dead, cfg.maxDead))
    {
      TrimKeepsOrDrops(c, e, now, d.pending, d.dead, cfg.maxDead);
    }
  }

  lemma NoneLeft(list: seq<string>)
    ensures list == [] || list[0] in list
  {}

  lemma TrimKeepsOrDrops(c: Codec, e: string, now: int, pending: seq<string>, dead: seq<string>, max: nat)
    requires Rerouted(c, e, now, pending, dead)
    ensures Rerouted(c, e, now, pending, Ltrim(dead, max)) || TrimmedOff(c, e, max, Ltrim(dead, max))
  {
    hide HandedMessage, IsRetry, IsBurial, Read, ReadDead;
  }

  lemma ReapedThenDrained(c: Codec, s: Server, now: int, cap: nat, v: Server)
    requires Tidy(s) && AllDrained(c, ReapScript(s, now), now, cap, v)
    ensures Recovered(c, s, now, cap, v)
  {
    hide Rerouted, TrimmedOff, ReapFrom;
    var u := ReapScript(s, now);
    AllAreStaged(s, s.processing, now);
    ReapLeaves(s, u, now);
    hide Tidy, Staged, Overdue, ReapScript;
  }

  lemma ReapLeaves(s: Server, u: Server, now: int)
    requires Tidy(s) && Tidy(u) && Staged(s, s.processing, now, u)
    ensures forall e :: e in u.processing <==> e in s.processing && !Overdue(s, e, now)
    ensures forall e :: e in u.processing ==> e in u.leases && u.leases[e] > now
    ensures forall e :: e in s.reclaim ==> e in u.reclaim
    ensures forall e :: Overdue(s, e, now) ==> e in u.reclaim
    ensures u.pending == s.pending && u.delayed == s.delayed
  {}

  lemma PromotionKeepsTidy(s: Server, now: int, limit: nat)
    requires Tidy(s)
    ensures var v := PromoteScript(s, now, limit);
      Tidy(v) && v.processing == s.processing && v.leases == s.leases && v.reclaim == s.reclaim && v.dead == s.dead
  {
    PromotionKeeps(s, ZrangeDue(s.delayed, now, limit));
  }

  lemma {:induction false} PromotionKeeps(s: Server, ready: seq<string>)
    ensures var v := PromoteFrom(s, ready);
      v.processing == s.processing && v.leases == s.leases && v.reclaim == s.reclaim && v.dead == s.dead
    decreases |ready|
  {
    if ready != [] { PromotionKeeps(PromoteOne(s, ready[0]), ready[1..]); }
  }

  // ---- Promotion ----

  lemma {:induction false} RangeIsFront(z: ZSet, now: int, limit: nat)
    ensures var r := ZrangeDue(z, now, limit);
      && |r| <= |z| && |r| <= limit && (forall i :: 0 <= i < |r| ==> r[i] == z[i].0 && z[i].1 <= now)
      && (|r| < limit && |r| < |z| ==> z[|r|].1 > now)
    decreases |z|
  {
    if z != [] && limit > 0 && z[0].1 <= now {
      RangeIsFront(z[1..], now, limit - 1);
      var r := ZrangeDue(z[1..], now, limit - 1);
      assert forall i :: 0 < i <= |r| ==> ([z[0].0] + r)[i] == r[i - 1] && z[i] == z[1..][i - 1];
    }
  }

  /** The first members moved, in order. */
  ghost predicate Moved(s: Server, k: nat, v: Server)
    requires k <= |s.delayed|
  {
    && v.delayed == s.delayed[k..] && |v.pending| == |s.pending| + k
    && (forall i :: 0 <= i < k ==> v.pending[k - 1 - i] == s.delayed[i].0)
    && v.pending[k..] == s.pending
    && v.processing == s.processing && v.leases == s.leases && v.reclaim == s.reclaim && v.dead == s.dead
  }

  lemma FirstIsMoved(s: Server)
    requires s.delayed != []
    ensures Moved(s, 1, PromoteOne(s, s.delayed[0].0))
  {
    assert Find(s.delayed, s.delayed[0].0) == 0;
    assert Remove(s.delayed, s.delayed[0].0) == s.delayed[1..];
  }

  lemma MovedMore(s: Server, u: Server, v: Server, k: nat)
    requires 0 < k <= |s.delayed| && Moved(s, 1, u) && Moved(u, k - 1, v)
    ensures Moved(s, k, v)
  {
    assert u.delayed[k - 1..] == s.delayed[k..];
    assert forall i :: 0 < i < k ==> s.delayed[i] == u.delayed[i - 1];
    assert v.pending[k - 1] == v.pending[k - 1..][0] == u.pending[0];
    assert v.pending[k..] == v.pending[k - 1..][1..] == u.pending[1..];
  }

  ghost predicate Fronts(z: ZSet, ready: seq<string>) {
    |ready| <= |z| && forall i :: 0 <= i < |ready| ==> ready[i] == z[i].0
  }

  lemma RestFronts(s: Server, u: Server, ready: seq<string>)
    requires Fronts(s.delayed, ready) && ready != [] && Moved(s, 1, u)
    ensures Fronts(u.delayed, ready[1..])
  {}

  lemma {:induction false} FrontIsMoved(s: Server, ready: seq<string>)
    requires Fronts(s.delayed, ready)
    ensures Moved(s, |ready|, PromoteFrom(s, ready))
    decreases |ready|
  {
    if ready != [] {
      var u := PromoteOne(s, ready[0]);
      FirstIsMoved(s);
      assert ready[0] == s.delayed[0].0;
      RestFronts(s, u, ready);
      hide PromoteOne, Moved, Fronts;
      FrontsAreFew(u, ready[1..]);
      FrontIsMoved(u, ready[1..]);
      MovedMore(s, u, PromoteFrom(s, ready), |ready|);
    }
  }

  lemma FrontsAreFew(s: Server, ready: seq<string>)
    requires Fronts(s.delayed, ready)
    ensures |ready| <= |s.delayed|
  {}

  /** After a promotion no due member waits in the sorted set any longer, unless it moved `limit` of
      them; it moves none that is not due, and each it moves is pending behind those before it. */
  lemma PromotionIsComplete(c: Codec, cfg: Config, w: World, now: int, limit: nat)
    requires Valid(c, w)
    ensures var v := NextWorld(c, cfg, w, PromoteCmd(now, limit)).s; var k := |v.pending| - |w.s.pending|;
      && 0 <= k <= limit && k <= |w.s.delayed| && Moved(w.s, k, v)
      && (forall i :: 0 <= i < k ==> w.s.delayed[i].1 <= now)
      && (k < limit ==> forall y :: y in v.delayed ==> y.1 > now)
  {
    assert InScoreOrder(w.s.delayed);
    hide *;
    var ready := ZrangeDue(w.s.delayed, now, limit);
    RangeIsFront(w.s.delayed, now, limit);
    RangeFronts(w.s.delayed, ready);
    FrontIsMoved(w.s, ready);
    var v := NextWorld(c, cfg, w, PromoteCmd(now, limit)).s;
    assert v == PromoteFrom(w.s, ready) by { PromotedIs(c, cfg, w, now, limit); }
    MovedIs(w.s, |ready|, v);
    if |ready| < limit { LateStay(w.s.delayed, |ready|, now); }
  }

  lemma PromotedIs(c: Codec, cfg: Config, w: World, now: int, limit: nat)
    ensures NextWorld(c, cfg, w, PromoteCmd(now, limit)).s == PromoteFrom(w.s, ZrangeDue(w.s.delayed, now, limit))
  {}

  lemma MovedIs(s: Server, k: nat, v: Server)
    requires k <= |s.delayed| && Moved(s, k, v)
    ensures v.delayed == s.delayed[k..] && |v.pending| == |s.pending| + k
  {}

  lemma RangeFronts(z: ZSet, ready: seq<string>)
    requires |ready| <= |z| && forall i :: 0 <= i < |ready| ==> ready[i] == z[i].0
    ensures Fronts(z, ready)
  {}

  lemma LateStay(z: ZSet, k: nat, now: int)
    requires InScoreOrder(z) && k <= |z| && (k < |z| ==> z[k].1 > now)
    ensures forall y :: y in z[k..] ==> y.1 > now
  {
    assert forall i :: k <= i < |z| ==> z[k].1 <= z[i].1;
  }
}
