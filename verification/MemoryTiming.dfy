/** When the in-memory queue hands a job out (packages/core/src/queue.ts). */
module MemoryQueueTiming {
  // Stated on the queue's contents: expired leases are reclaimed, a retried job waits, and a held
  // lease keeps its job.

  import opened Options
  import opened QueueTypes
  import opened JsMap
  import opened LeaseQueue
  import opened MemoryQueueModel
  import opened MemoryQueueRefinement

  // ---- Reclaiming ----

  /** The job of a lease that is over: waiting again within its budget, dead past it, unless a full
      dead list pushed it off. */
  ghost predicate Rerouted(m: Message, now: int, cfg: Config, q: Mem) {
    if m.attempt < m.maxRetries then exists r :: r in q.messages && IsRetry(m, r, now)
    else (exists e :: e in q.dead && IsBurial(m, e, now)) || |q.dead| == cfg.maxDead
  }

  predicate Over(q: Mem, id: string, now: int) { Has(q.inFlight, id) && Get(q.inFlight, id).expiresAt <= now }

  /** Dead entries are only pushed off a full list. */
  ghost predicate DeadKept(cfg: Config, q: Mem, v: Mem) {
    && (|q.dead| == cfg.maxDead ==> |v.dead| == cfg.maxDead)
    && forall e :: e in q.dead ==> e in v.dead || |v.dead| == cfg.maxDead
  }

  /** What visiting the listed entries leaves. */
  ghost predicate ReclaimedAll(q: Mem, cfg: Config, es: seq<(string, InFlight)>, now: int, v: Mem) {
    && (forall id :: Has(v.inFlight, id) <==> Has(q.inFlight, id) && !(Has(es, id) && Over(q, id, now)))
    && (forall id :: Has(v.inFlight, id) ==> Get(v.inFlight, id) == Get(q.inFlight, id))
    && (forall id :: Has(es, id) && Over(q, id, now) ==> Rerouted(Get(q.inFlight, id).message, now, cfg, v))
    && q.messages <= v.messages && DeadKept(cfg, q, v)
  }

  lemma NothingVisited(q: Mem, cfg: Config, now: int)
    ensures ReclaimedAll(q, cfg, [], now, q)
  {
    assert forall id :: !Has<string, InFlight>([], id);
  }

  lemma ExpiredIs(m: Message, error: string, now: int)
    ensures var x := Expired(m, error, now);
      && x.attempt == m.attempt + 1 && x.maxRetries == m.maxRetries
      && IsRetry(m, x.(availableAt := now), now) && IsBurial(m, DeadEntry(x, error, x.failures, now), now)
  {
    assert Expired(m, error, now).failures[..|m.failures|] == m.failures;
  }

  lemma OneReclaimed(q: Mem, cfg: Config, e: (string, InFlight), now: int)
    requires UniqueKeys(q.inFlight) && Has(q.inFlight, e.0) && Get(q.inFlight, e.0) == e.1
    ensures var v := if e.1.expiresAt > now then q else ReclaimOne(q, cfg, e, now);
      ReclaimedAll(q, cfg, [e], now, v) && UniqueKeys(v.inFlight)
  {
    assert forall id :: Has([e], id) <==> id == e.0;
    if e.1.expiresAt <= now {
      var v := ReclaimOne(q, cfg, e, now);
      OneRerouted(q, cfg, e, now);
      RemoveKeepsUnique(q.inFlight, e.0);
      forall id | id != e.0
        ensures Has(v.inFlight, id) <==> Has(q.inFlight, id)
        ensures Has(q.inFlight, id) ==> Get(v.inFlight, id) == Get(q.inFlight, id)
      {
        RemoveLeavesOther(q.inFlight, e.0, id);
      }
    }
    hide Find, Remove, Rerouted, DeadKept;
  }

  lemma OneRerouted(q: Mem, cfg: Config, e: (string, InFlight), now: int)
    ensures var v := ReclaimOne(q, cfg, e, now);
      && v.inFlight == Remove(q.inFlight, e.0) && Rerouted(e.1.message, now, cfg, v)
      && q.messages <= v.messages && DeadKept(cfg, q, v)
  {
    var m := e.1.message;
    ExpiredIs(m, cfg.expiryError, now);
    hide Remove, IsRetry, IsBurial, Expired;
    var x := Expired(m, cfg.expiryError, now);
    var v := ReclaimOne(q, cfg, e, now);
    if x.attempt > x.maxRetries {
      var d := DeadEntry(x, cfg.expiryError, x.failures, now);
      KeptAtTheEnd(q.dead, d, cfg.maxDead);
      assert d in v.dead || |v.dead| == cfg.maxDead;
    } else {
      assert x.(availableAt := now) in v.messages;
    }
  }

  lemma KeptAtTheEnd(dead: seq<DeadEntry>, d: DeadEntry, max: nat)
    ensures var r := KeepLast(dead + [d], max);
      && (d in r || |r| == max) && (|dead| == max ==> |r| == max) && forall e :: e in dead ==> e in r || |r| == max
  {
    var all := dead + [d];
    if |all| <= max { assert KeepLast(all, max) == all && all[|dead|] == d; }
  }

  lemma ReroutedStays(m: Message, now: int, cfg: Config, u: Mem, v: Mem)
    requires Rerouted(m, now, cfg, u) && u.messages <= v.messages && DeadKept(cfg, u, v)
    ensures Rerouted(m, now, cfg, v)
  {
    hide IsRetry, IsBurial;
  }

  lemma VisitedMore(q: Mem, u: Mem, v: Mem, cfg: Config, es: seq<(string, InFlight)>, now: int)
    requires es != [] && UniqueKeys(es) && ReclaimedAll(q, cfg, [es[0]], now, u) && ReclaimedAll(u, cfg, es[1..], now, v)
    ensures ReclaimedAll(q, cfg, es, now, v)
  {
    forall id ensures Has(es, id) <==> Has([es[0]], id) || Has(es[1..], id) { HasSplits(es, id); }
    forall id | Has(es, id) && Over(q, id, now) ensures Rerouted(Get(q.inFlight, id).message, now, cfg, v) {
      if Has([es[0]], id) { ReroutedStays(Get(q.inFlight, id).message, now, cfg, u, v); }
    }
    hide Find, Rerouted;
  }

  lemma HasSplits<K, V>(es: seq<(K, V)>, k: K)
    requires es != []
    ensures Has(es, k) <==> Has([es[0]], k) || Has(es[1..], k)
  {
    if Has(es, k) {
      var i := Find(es, k);
      if i > 0 { assert es[1..][i - 1].0 == k; }
    }
    if Has(es[1..], k) { assert es[Find(es[1..], k) + 1].0 == k; }
  }

  lemma {:induction false} VisitIsComplete(q: Mem, cfg: Config, es: seq<(string, InFlight)>, now: int)
    requires UniqueKeys(q.inFlight) && StillThere(q, es)
    ensures ReclaimedAll(q, cfg, es, now, ReclaimFrom(q, cfg, es, now))
    decreases |es|
  {
    if es == [] {
      NothingVisited(q, cfg, now);
    } else {
      var u := if es[0].1.expiresAt > now then q else ReclaimOne(q, cfg, es[0], now);
      OneReclaimed(q, cfg, es[0], now);
      RestIsThere(q, cfg, es, now);
      VisitIsComplete(u, cfg, es[1..], now);
      VisitedMore(q, u, ReclaimFrom(q, cfg, es, now), cfg, es, now);
    }
  }

  lemma RestIsThere(q: Mem, cfg: Config, es: seq<(string, InFlight)>, now: int)
    requires es != [] && UniqueKeys(q.inFlight) && StillThere(q, es)
    ensures StillThere(if es[0].1.expiresAt > now then q else ReclaimOne(q, cfg, es[0], now), es[1..])
  {
    var u := if es[0].1.expiresAt > now then q else ReclaimOne(q, cfg, es[0], now);
    forall i | 0 <= i < |es[1..]| ensures Has(u.inFlight, es[1..][i].0) && Get(u.inFlight, es[1..][i].0) == es[1..][i].1 {
      assert es[1..][i] == es[i + 1];
      RemoveKeepsOthers(q.inFlight, es[0].0, es[i + 1].0);
    }
  }

  /** No lease that is over stays in flight: after a reclaim at `now` exactly the jobs with a lease
      after `now` are, and each of the others is waiting again or dead. */
  lemma ReclaimIsComplete(q: Mem, cfg: Config, now: int)
    requires Valid(q)
    ensures var v := Reclaimed(q, cfg, now);
      && (forall id :: Has(v.inFlight, id) <==> Has(q.inFlight, id) && Get(q.inFlight, id).expiresAt > now)
      && (forall id :: Has(v.inFlight, id) ==> Get(v.inFlight, id) == Get(q.inFlight, id))
      && (forall id :: Over(q, id, now) ==> Rerouted(Get(q.inFlight, id).message, now, cfg, v))
      && q.messages <= v.messages
  {
    StartsThere(q);
    VisitIsComplete(q, cfg, q.inFlight, now);
    hide Find, Rerouted, ReclaimFrom;
  }

  // ---- What a pop hands out ----

  /** A pop hands out the first message that is due once expired leases are reclaimed, one delivery
      further and under the new token, and leaves it in flight until the visibility timeout has
      passed; it hands out nothing only if nothing is due. */
  lemma PopHandsFirstDue(w: World, cfg: Config, reclaimAt: int, popAt: int, token: Token)
    requires Valid(w.q) && Permitted(Any, w, DoPop(reclaimAt, popAt, token))
    ensures var op := DoPop(reclaimAt, popAt, token);
      var waiting, v := Reclaimed(w.q, cfg, reclaimAt).messages, NextWorld(w, cfg, op).q;
      if forall j :: 0 <= j < |waiting| ==> waiting[j].availableAt > popAt then
        HandedBy(w, cfg, op) == multiset{} && v.messages == waiting
      else
        exists i: nat :: IsFirstDue(waiting, i, popAt) && IsHanded(waiting[i], token, popAt + cfg.visibility, v)
          && HandedBy(w, cfg, op) == multiset{waiting[i].id} && v.messages == waiting[..i] + waiting[i + 1..]
  {
    StartsThere(w.q);
    ReclaimReaches(Any, w, cfg, w.q.inFlight, reclaimAt);
    hide ReachesBy, Abstract, ReclaimFrom, ReclaimFromIn, Valid;
    var q := Reclaimed(w.q, cfg, reclaimAt);
    var i := FirstDue(q.messages, popAt);
    if i < |q.messages| {
      assert IsFirstDue(q.messages, i, popAt);
      TakenIs(q, cfg, popAt, token, i);
    }
  }

  predicate IsFirstDue(ms: seq<Message>, i: nat, now: int) {
    i < |ms| && ms[i].availableAt <= now && forall j :: 0 <= j < i ==> ms[j].availableAt > now
  }

  /** In flight as one more delivery of the message. */
  predicate IsHanded(m: Message, token: Token, expiry: int, v: Mem) {
    && Has(v.inFlight, m.id)
    && var e := Get(v.inFlight, m.id);
      && e.leaseToken == token && e.expiresAt == expiry
      && e.message.id == m.id && e.message.deliveries == m.deliveries + 1 && e.message.leaseToken == Some(token)
      && e.message.attempt == m.attempt && e.message.maxRetries == m.maxRetries && e.message.failures == m.failures
      && e.message.taskName == m.taskName && e.message.input == m.input
  }

  lemma TakenIs(q: Mem, cfg: Config, now: int, token: Token, i: nat)
    requires UniqueKeys(q.inFlight) && i == FirstDue(q.messages, now) < |q.messages|
    ensures var (v, r) := TakeFirstDue(q, cfg, now, token);
      && v.messages == q.messages[..i] + q.messages[i + 1..] && r.Some? && r.value.id == q.messages[i].id
      && IsHanded(q.messages[i], token, now + cfg.visibility, v)
  {
    var m := Delivered(q.messages[i], token);
    PutKeepsUnique(q.inFlight, m.id, InFlight(m, token, now + cfg.visibility));
    hide Put, Get, Has, FirstDue;
  }

  // ---- A retried job waits ----

  /** The message waits, and it is the job's only copy outside the dead list. */
  ghost predicate OnlyWaiting(q: Mem, x: Message) {
    && x in q.messages && !Has(q.inFlight, x.id)
    && forall m :: m in q.messages && m.id == x.id ==> m == x
  }

  /** An operation that reads no clock from `at` on. */
  predicate Before(op: Op, at: int) { op.DoPop? ==> op.reclaimAt < at && op.popAt < at }

  lemma AppendKeepsWaiting(q: Mem, x: Message, more: seq<Message>)
    requires OnlyWaiting(q, x) && forall m :: m in more ==> m.id != x.id
    ensures OnlyWaiting(q.(messages := q.messages + more), x)
  {}

  lemma RemovalKeepsWaiting(q: Mem, x: Message, id: string)
    requires OnlyWaiting(q, x) && UniqueKeys(q.inFlight)
    ensures OnlyWaiting(q.(inFlight := Remove(q.inFlight, id)), x)
  {
    if id != x.id { RemoveLeavesOther(q.inFlight, id, x.id); } else { RemoveKeepsUnique(q.inFlight, id); }
  }

  /** What a reclaim adds is about jobs that were in flight. */
  lemma {:induction false} ReclaimKeepsWaiting(q: Mem, cfg: Config, es: seq<(string, InFlight)>, now: int, x: Message)
    requires OnlyWaiting(q, x) && UniqueKeys(q.inFlight)
    requires forall i :: 0 <= i < |es| ==> es[i].1.message.id != x.id
    ensures OnlyWaiting(ReclaimFrom(q, cfg, es, now), x)
    decreases |es|
  {
    if es != [] {
      var u := if es[0].1.expiresAt > now then q else ReclaimOne(q, cfg, es[0], now);
      OneKeepsWaiting(q, cfg, es[0], now, x);
      RemoveKeepsUnique(q.inFlight, es[0].0);
      hide OnlyWaiting, Remove;
      ReclaimKeepsWaiting(u, cfg, es[1..], now, x);
    }
  }

  lemma OneKeepsWaiting(q: Mem, cfg: Config, e: (string, InFlight), now: int, x: Message)
    requires OnlyWaiting(q, x) && UniqueKeys(q.inFlight) && e.1.message.id != x.id
    ensures OnlyWaiting(ReclaimOne(q, cfg, e, now), x)
  {
    RemovalKeepsWaiting(q, x, e.0);
    hide Remove, Find;
  }

  lemma InFlightAreOthers(q: Mem, x: Message)
    requires Valid(q) && OnlyWaiting(q, x)
    ensures forall i :: 0 <= i < |q.inFlight| ==> q.inFlight[i].0 != x.id && q.inFlight[i].1.message.id != x.id
  {
    forall i | 0 <= i < |q.inFlight| ensures q.inFlight[i].0 != x.id {
      FoundAt(q.inFlight, i);
    }
  }

  lemma HeldIsOther(q: Mem, x: Message, id: string)
    requires Valid(q) && OnlyWaiting(q, x) && Has(q.inFlight, id)
    ensures id != x.id && Get(q.inFlight, id).message.id == id
  {
    assert q.inFlight[Find(q.inFlight, id)].0 == id;
  }

  lemma PutKeepsWaiting(q: Mem, x: Message, id: string, e: InFlight)
    requires OnlyWaiting(q, x) && UniqueKeys(q.inFlight) && id != x.id
    ensures OnlyWaiting(q.(inFlight := Put(q.inFlight, id, e)), x)
  {
    PutKeepsOthers(q.inFlight, id, e, x.id);
  }

  /** A pop before the message is due hands out another job. */
  lemma TakeKeepsWaiting(q: Mem, cfg: Config, now: int, token: Token, x: Message)
    requires UniqueKeys(q.inFlight) && OnlyWaiting(q, x) && now < x.availableAt
    ensures var (v, r) := TakeFirstDue(q, cfg, now, token); OnlyWaiting(v, x) && (r.Some? ==> r.value.id != x.id)
  {
    var i := FirstDue(q.messages, now);
    if i < |q.messages| {
      var m := Delivered(q.messages[i], token);
      assert q.messages[i] in q.messages && q.messages[i] != x;
      RemovedMessage(q, i, x);
      PutKeepsWaiting(q.(messages := q.messages[..i] + q.messages[i + 1..]), x, m.id, InFlight(m, token, now + cfg.visibility));
    }
  }

  lemma RemovedMessage(q: Mem, i: nat, x: Message)
    requires i < |q.messages| && OnlyWaiting(q, x) && q.messages[i] != x
    ensures OnlyWaiting(q.(messages := q.messages[..i] + q.messages[i + 1..]), x)
  {
    var k :| 0 <= k < |q.messages| && q.messages[k] == x;
    assert (q.messages[..i] + q.messages[i + 1..])[if k < i then k else k - 1] == x;
  }

  lemma {:induction false} RedriveManyKeepsWaiting(q: Mem, n: nat, now: int, x: Message)
    requires OnlyWaiting(q, x) && x.id !in DeadJobs(q.dead, n)
    ensures OnlyWaiting(RedriveOldest(q, n, now), x)
    decreases n
  {
    if n != 0 && q.dead != [] {
      var u := RedriveAt(q, 0, now);
      RedriveKeepsWaiting(q, 0, now, x);
      assert u.dead == q.dead[1..];
      RedriveManyKeepsWaiting(u, n - 1, now, x);
    }
  }

  lemma RedriveKeepsWaiting(q: Mem, i: nat, now: int, x: Message)
    requires OnlyWaiting(q, x) && i < |q.dead| && q.dead[i].message.id != x.id
    ensures OnlyWaiting(RedriveAt(q, i, now), x)
  {
    AppendKeepsWaiting(q, x, [ResetForRedrive(q.dead[i].message, now)]);
  }

  lemma PopKeepsWaiting(w: World, cfg: Config, t1: int, t2: int, token: Token, x: Message)
    requires Valid(w.q) && OnlyWaiting(w.q, x) && t1 <= t2 <= w.clock && t2 < x.availableAt
    ensures var op := DoPop(t1, t2, token); OnlyWaiting(NextWorld(w, cfg, op).q, x) && HandedBy(w, cfg, op)[x.id] == 0
  {
    StartsThere(w.q);
    ReclaimReaches(Any, w, cfg, w.q.inFlight, t1);
    InFlightAreOthers(w.q, x);
    ReclaimKeepsWaiting(w.q, cfg, w.q.inFlight, t1, x);
    hide ReachesBy, Abstract, ReclaimFrom, ReclaimFromIn, OnlyWaiting, TakeFirstDue;
    TakeKeepsWaiting(Reclaimed(w.q, cfg, t1), cfg, t2, token, x);
  }

  lemma {:induction false} EvictionsKeepWaiting(w: World, n: nat)
    requires n <= |w.q.dead|
    ensures EvictMany(w, n).q.messages == w.q.messages && EvictMany(w, n).q.inFlight == w.q.inFlight
    decreases n
  {
    if n > 0 { EvictionsKeepWaiting(Evict(w), n - 1); }
  }

  lemma BuryKeepsWaiting(w: World, cfg: Config, e: DeadEntry)
    ensures BuryIn(w, cfg, e).q.messages == w.q.messages && BuryIn(w, cfg, e).q.inFlight == w.q.inFlight
  {
    var v := w.(q := w.q.(dead := w.q.dead + [e]));
    EvictionsKeepWaiting(v, |v.q.dead| - |KeepLast(v.q.dead, cfg.maxDead)|);
  }

  lemma NackKeepsWaiting(q: Mem, id: string, at: int, lease: Option<Token>, failure: Option<Failure>, x: Message)
    requires Valid(q) && OnlyWaiting(q, x)
    ensures OnlyWaiting(NackOf(q, id, at, lease, failure), x)
  {
    hide Find, Remove, OnlyWaiting;
    if Holds(q, id, lease) {
      HeldIsOther(q, x, id);
      RemovalKeepsWaiting(q, x, id);
      AppendKeepsWaiting(q.(inFlight := Remove(q.inFlight, id)), x, [Retried(Get(q.inFlight, id).message, at, failure)]);
    }
  }

  lemma ExtendKeepsWaiting(q: Mem, id: string, held: Token, expiry: int, x: Message)
    requires Valid(q) && OnlyWaiting(q, x)
    ensures OnlyWaiting(ExtendOf(q, id, held, expiry), x)
  {
    hide Find, Put, OnlyWaiting;
    if Holds(q, id, Some(held)) {
      HeldIsOther(q, x, id);
      PutKeepsWaiting(q, x, id, Get(q.inFlight, id).(expiresAt := expiry));
    }
  }

  lemma DeadLetterKeepsWaiting(w: World, cfg: Config, e: DeadEntry, lease: Option<Token>, x: Message)
    requires Valid(w.q) && OnlyWaiting(w.q, x)
    ensures OnlyWaiting(NextWorld(w, cfg, DoDeadLetter(e, lease)).q, x)
  {
    hide Find, Remove, OnlyWaiting, BuryIn;
    var u := if Holds(w.q, e.message.id, lease) then w.(q := w.q.(inFlight := Remove(w.q.inFlight, e.message.id))) else w;
    RemovalKeepsWaiting(w.q, x, e.message.id);
    BuryKeepsWaiting(u, cfg, e);
    SameWaits(u.q, BuryIn(u, cfg, e).q, x);
  }

  lemma RedrivesKeepWaiting(w: World, cfg: Config, op: Op, x: Message)
    requires OnlyWaiting(w.q, x) && x.id !in RedrivenBy(w, op) && (op.DoRedrive? || op.DoRedriveMany? || op.DoPurge?)
    ensures OnlyWaiting(NextWorld(w, cfg, op).q, x)
  {
    hide ReachesBy, Abstract, OnlyWaiting, EvictMany, RedriveManyIn, RedriveAt;
    match op
    case DoRedrive(id, now) =>
      var i := FindDead(w.q.dead, id);
      if i < |w.q.dead| { RedriveKeepsWaiting(w.q, i, now, x); }
    case DoRedriveMany(n, now) =>
      RedriveManyReaches(Any, w, n, now);
      RedriveManyKeepsWaiting(w.q, n, now, x);
    case DoPurge =>
      EvictionsKeepWaiting(w, |w.q.dead|);
      SameWaits(w.q, EvictMany(w, |w.q.dead|).q, x);
    case _ =>
  }

  /** Nobody else's operation ends the wait, and no pop before its end hands the job out. */
  lemma OperationKeepsWaiting(mode: Mode, w: World, cfg: Config, op: Op, x: Message)
    requires Valid(w.q) && !mode.Any? && Permitted(mode, w, op) && Before(op, x.availableAt)
    requires OnlyWaiting(w.q, x) && x.id in w.pushed && x.id !in RedrivenBy(w, op)
    ensures OnlyWaiting(NextWorld(w, cfg, op).q, x) && HandedBy(w, cfg, op)[x.id] == 0
    ensures x.id in NextWorld(w, cfg, op).pushed
  {
    PushedStays(w, cfg, op);
    hide OnlyWaiting, TakeFirstDue, ReclaimFromIn, BuryIn, EvictMany, RedriveManyIn, RedriveAt, NackOf, ExtendOf, Valid;
    hide Find, Remove, Put, DeadJobs;
    match op
    case DoPush(m) => AppendKeepsWaiting(w.q, x, [m]);
    case DoPop(t1, t2, token) => PopKeepsWaiting(w, cfg, t1, t2, token, x);
    case DoAck(id, lease) =>
      ValidIsUnique(w.q);
      RemovalKeepsWaiting(w.q, x, id);
      CompletedAside(w.q, cfg, id, lease, x);
    case DoNack(id, at, lease, failure) => NackKeepsWaiting(w.q, id, at, lease, failure, x);
    case DoExtend(id, held, expiry) => ExtendKeepsWaiting(w.q, id, held, expiry, x);
    case DoDeadLetter(e, lease) => DeadLetterKeepsWaiting(w, cfg, e, lease, x);
    case DoWait(now) =>
    case _ => RedrivesKeepWaiting(w, cfg, op, x);
  }

  lemma ValidIsUnique(q: Mem)
    requires Valid(q)
    ensures UniqueKeys(q.inFlight)
  {}

  lemma SameWaits(q: Mem, v: Mem, x: Message)
    requires OnlyWaiting(q, x) && v.messages == q.messages && v.inFlight == q.inFlight
    ensures OnlyWaiting(v, x)
  {}

  lemma CompletedAside(q: Mem, cfg: Config, id: string, lease: Option<Token>, x: Message)
    requires OnlyWaiting(q.(inFlight := Remove(q.inFlight, id)), x) && OnlyWaiting(q, x)
    ensures OnlyWaiting(AckOf(q, cfg, id, lease), x)
  {
    hide Find, Remove;
  }

  lemma PushedStays(w: World, cfg: Config, op: Op)
    ensures w.pushed <= NextWorld(w, cfg, op).pushed
  {
    match op
    case DoPop(t1, t2, token) => ReclaimKeepsPushed(w, cfg, w.q.inFlight, t1);
    case DoDeadLetter(e, lease) =>
      var u := if Holds(w.q, e.message.id, lease) then w.(q := w.q.(inFlight := Remove(w.q.inFlight, e.message.id))) else w;
      var d := u.(q := u.q.(dead := u.q.dead + [e]));
      EvictManyKeepsHistory(d, |d.q.dead| - |KeepLast(d.q.dead, cfg.maxDead)|);
    case DoPurge => EvictManyKeepsHistory(w, |w.q.dead|);
    case DoRedriveMany(n, now) => RedriveKeepsPushed(w, n, now);
    case _ =>
  }

  lemma {:induction false} ReclaimKeepsPushed(w: World, cfg: Config, es: seq<(string, InFlight)>, now: int)
    ensures ReclaimFromIn(w, cfg, es, now).pushed == w.pushed
    decreases |es|
  {
    if es != [] {
      ReclaimOneKeepsHistory(w, cfg, es[0], now);
      hide ReclaimOneIn;
      ReclaimKeepsPushed(if es[0].1.expiresAt > now then w else ReclaimOneIn(w, cfg, es[0], now), cfg, es[1..], now);
    }
  }

  lemma {:induction false} RedriveKeepsPushed(w: World, n: nat, now: int)
    ensures RedriveManyIn(w, n, now).pushed == w.pushed
    decreases n
  {
    if n != 0 && w.q.dead != [] { RedriveKeepsPushed(w.(q := RedriveAt(w.q, 0, now)), n - 1, now); }
  }

  ghost predicate AllBefore(ops: seq<Op>, at: int) { forall k :: 0 <= k < |ops| ==> Before(ops[k], at) }

  lemma {:induction false} RunKeepsWaiting(mode: Mode, w: World, cfg: Config, ops: seq<Op>, x: Message)
    requires Valid(w.q) && !mode.Any? && RunPermitted(mode, w, cfg, ops) && AllBefore(ops, x.availableAt)
    requires OnlyWaiting(w.q, x) && x.id in w.pushed && MemoryQueueRefinement.NeverRedriven(w, cfg, ops, x.id)
    ensures OnlyWaiting(RunOf(w, cfg, ops).q, x) && Pops(w, cfg, ops, x.id) == 0
    decreases |ops|
  {
    if ops != [] {
      assert Before(ops[0], x.availableAt) && AllBefore(ops[1..], x.availableAt);
      hide Valid, Permitted, NextWorld, HandedBy, RedrivenBy, OnlyWaiting, Before, AllBefore;
      OperationKeepsWaiting(mode, w, cfg, ops[0], x);
      MemoryQueueRefines(mode, w, cfg, ops[0]);
      RunKeepsWaiting(mode, NextWorld(w, cfg, ops[0]), cfg, ops[1..], x);
    }
  }

  /** A retried job waits: after a nack under its lease, whatever the others do, no pop that reads a
      clock before `at` hands it out, and it is stored to be due from `at` on. */
  lemma NackedWaits(mode: Mode, w: World, cfg: Config, id: string, at: int, lease: Option<Token>, failure: Option<Failure>, ops: seq<Op>)
    requires Valid(w.q) && !mode.Any? && Permitted(mode, w, DoNack(id, at, lease, failure))
    requires Holds(w.q, id, lease) && id in w.pushed && forall m :: m in w.q.messages ==> m.id != id
    requires RunPermitted(mode, NextWorld(w, cfg, DoNack(id, at, lease, failure)), cfg, ops)
    requires MemoryQueueRefinement.NeverRedriven(NextWorld(w, cfg, DoNack(id, at, lease, failure)), cfg, ops, id) && AllBefore(ops, at)
    ensures var v := NextWorld(w, cfg, DoNack(id, at, lease, failure));
      && Pops(v, cfg, ops, id) == 0
      && exists x :: IsNacked(Get(w.q.inFlight, id).message, x, at, failure) && OnlyWaiting(RunOf(v, cfg, ops).q, x)
  {
    var v := NextWorld(w, cfg, DoNack(id, at, lease, failure));
    var m := Get(w.q.inFlight, id).message;
    var x := Retried(m, at, failure);
    assert m.id == id;
    assert v.q == w.q.(inFlight := Remove(w.q.inFlight, id), messages := w.q.messages + [x]);
    RemoveKeepsUnique(w.q.inFlight, id);
    assert OnlyWaiting(v.q, x);
    MemoryQueueRefines(mode, w, cfg, DoNack(id, at, lease, failure));
    hide OnlyWaiting, Valid, NextWorld, Permitted, ReachesBy, Pops, RunOf, RunPermitted, MemoryQueueRefinement.NeverRedriven, AllBefore, Remove, Find;
    RunKeepsWaiting(mode, v, cfg, ops, x);
  }

  // ---- A held lease keeps its job ----

  /** The job is in flight under the token until the expiry, and nowhere else outside the dead list. */
  ghost predicate OnlyHeld(q: Mem, id: string, e: InFlight) {
    && Has(q.inFlight, id) && Get(q.inFlight, id) == e
    && forall m :: m in q.messages ==> m.id != id
  }

  /** The operation settles or extends the delivery. */
  predicate Settles(op: Op, id: string, token: Token) {
    match op
    case DoAck(other, lease) => other == id && (lease.None? || lease.value == token)
    case DoNack(other, _, lease, _) => other == id && (lease.None? || lease.value == token)
    case DoExtend(other, held, _) => other == id && held == token
    case DoDeadLetter(entry, lease) => entry.message.id == id && (lease.None? || lease.value == token)
    case _ => false
  }

  lemma AppendKeepsHeld(q: Mem, id: string, e: InFlight, more: seq<Message>)
    requires OnlyHeld(q, id, e) && forall m :: m in more ==> m.id != id
    ensures OnlyHeld(q.(messages := q.messages + more), id, e)
  {}

  lemma RemovalKeepsHeld(q: Mem, id: string, e: InFlight, other: string)
    requires OnlyHeld(q, id, e) && UniqueKeys(q.inFlight) && other != id
    ensures OnlyHeld(q.(inFlight := Remove(q.inFlight, other)), id, e)
  {
    RemoveLeavesOther(q.inFlight, other, id);
  }

  lemma PutKeepsHeld(q: Mem, id: string, e: InFlight, other: string, f: InFlight)
    requires OnlyHeld(q, id, e) && UniqueKeys(q.inFlight) && other != id
    ensures OnlyHeld(q.(inFlight := Put(q.inFlight, other, f)), id, e)
  {
    PutKeepsOthers(q.inFlight, other, f, id);
  }

  lemma SameHeld(q: Mem, v: Mem, id: string, e: InFlight)
    requires OnlyHeld(q, id, e) && v.inFlight == q.inFlight && v.messages == q.messages
    ensures OnlyHeld(v, id, e)
  {}

  lemma EntryIsOwn(q: Mem, id: string)
    requires Valid(q) && Has(q.inFlight, id)
    ensures Get(q.inFlight, id).message.id == id
  {
    assert q.inFlight[Find(q.inFlight, id)].0 == id;
  }

  lemma {:induction false} ReclaimKeepsHeld(q: Mem, cfg: Config, es: seq<(string, InFlight)>, now: int, id: string, e: InFlight)
    requires OnlyHeld(q, id, e) && UniqueKeys(q.inFlight) && now < e.expiresAt
    requires forall i :: 0 <= i < |es| ==> es[i].1.message.id == es[i].0 && (es[i].0 == id ==> es[i].1 == e)
    ensures OnlyHeld(ReclaimFrom(q, cfg, es, now), id, e)
    decreases |es|
  {
    if es != [] {
      var u := if es[0].1.expiresAt > now then q else ReclaimOne(q, cfg, es[0], now);
      if es[0].1.expiresAt <= now { OneKeepsHeld(q, cfg, es[0], now, id, e); }
      RemoveKeepsUnique(q.inFlight, es[0].0);
      hide OnlyHeld, Remove;
      ReclaimKeepsHeld(u, cfg, es[1..], now, id, e);
    }
  }

  lemma OneKeepsHeld(q: Mem, cfg: Config, x: (string, InFlight), now: int, id: string, e: InFlight)
    requires OnlyHeld(q, id, e) && UniqueKeys(q.inFlight) && x.1.message.id == x.0 != id
    ensures OnlyHeld(ReclaimOne(q, cfg, x, now), id, e)
  {
    RemovalKeepsHeld(q, id, e, x.0);
    hide Remove, Find, Get;
  }

  lemma TakeKeepsHeld(q: Mem, cfg: Config, now: int, token: Token, id: string, e: InFlight)
    requires UniqueKeys(q.inFlight) && OnlyHeld(q, id, e)
    ensures var (v, r) := TakeFirstDue(q, cfg, now, token); OnlyHeld(v, id, e) && (r.Some? ==> r.value.id != id)
  {
    var i := FirstDue(q.messages, now);
    if i < |q.messages| {
      var m := Delivered(q.messages[i], token);
      assert q.messages[i] in q.messages;
      var u := q.(messages := q.messages[..i] + q.messages[i + 1..]);
      assert forall y :: y in u.messages ==> y in q.messages;
      PutKeepsHeld(u, id, e, m.id, InFlight(m, token, now + cfg.visibility));
    }
  }

  lemma EntriesAreOwn(q: Mem, id: string, e: InFlight)
    requires Valid(q) && OnlyHeld(q, id, e)
    ensures forall i :: 0 <= i < |q.inFlight| ==> q.inFlight[i].1.message.id == q.inFlight[i].0 && (q.inFlight[i].0 == id ==> q.inFlight[i].1 == e)
  {
    forall i | 0 <= i < |q.inFlight| && q.inFlight[i].0 == id ensures q.inFlight[i].1 == e { FoundAt(q.inFlight, i); }
  }

  lemma PopKeepsHeld(w: World, cfg: Config, t1: int, t2: int, token: Token, id: string, e: InFlight)
    requires Valid(w.q) && OnlyHeld(w.q, id, e) && t1 <= t2 <= w.clock && t1 < e.expiresAt
    ensures var op := DoPop(t1, t2, token); OnlyHeld(NextWorld(w, cfg, op).q, id, e) && HandedBy(w, cfg, op)[id] == 0
  {
    StartsThere(w.q);
    ReclaimReaches(Any, w, cfg, w.q.inFlight, t1);
    EntriesAreOwn(w.q, id, e);
    ReclaimKeepsHeld(w.q, cfg, w.q.inFlight, t1, id, e);
    hide ReachesBy, Abstract, ReclaimFrom, ReclaimFromIn, OnlyHeld, TakeFirstDue;
    TakeKeepsHeld(Reclaimed(w.q, cfg, t1), cfg, t2, token, id, e);
  }

  lemma SettlingAnotherKeepsHeld(w: World, cfg: Config, op: Op, id: string, e: InFlight)
    requires Valid(w.q) && OnlyHeld(w.q, id, e) && !Settles(op, id, e.leaseToken)
    requires op.DoAck? || op.DoNack? || op.DoExtend?
    ensures OnlyHeld(NextWorld(w, cfg, op).q, id, e)
  {
    hide Find, Remove, Put, Get;
    match op
    case DoAck(other, lease) => if other != id { RemovalKeepsHeld(w.q, id, e, other); }
    case DoNack(other, at, lease, failure) =>
      if other != id {
        RemovalKeepsHeld(w.q, id, e, other);
        if Has(w.q.inFlight, other) { EntryIsOwn(w.q, other); }
      }
    case DoExtend(other, held, expiry) =>
      if other != id && Has(w.q.inFlight, other) {
        PutKeepsHeld(w.q, id, e, other, Get(w.q.inFlight, other).(expiresAt := expiry));
      }
    case _ =>
  }

  lemma DeadLetterKeepsHeld(w: World, cfg: Config, entry: DeadEntry, lease: Option<Token>, id: string, e: InFlight)
    requires Valid(w.q) && OnlyHeld(w.q, id, e) && !Settles(DoDeadLetter(entry, lease), id, e.leaseToken)
    ensures OnlyHeld(NextWorld(w, cfg, DoDeadLetter(entry, lease)).q, id, e)
  {
    hide Find, Remove, BuryIn;
    var other := entry.message.id;
    var u := if Holds(w.q, other, lease) then w.(q := w.q.(inFlight := Remove(w.q.inFlight, other))) else w;
    if other != id { RemovalKeepsHeld(w.q, id, e, other); }
    assert OnlyHeld(u.q, id, e);
    BuryKeepsWaiting(u, cfg, entry);
    hide OnlyHeld;
    SameHeld(u.q, BuryIn(u, cfg, entry).q, id, e);
  }

  lemma {:induction false} RedriveManyKeepsHeld(q: Mem, n: nat, now: int, id: string, e: InFlight)
    requires OnlyHeld(q, id, e) && id !in DeadJobs(q.dead, n)
    ensures OnlyHeld(RedriveOldest(q, n, now), id, e)
    decreases n
  {
    if n != 0 && q.dead != [] {
      var u := RedriveAt(q, 0, now);
      AppendKeepsHeld(q, id, e, [ResetForRedrive(q.dead[0].message, now)]);
      assert u.dead == q.dead[1..];
      RedriveManyKeepsHeld(u, n - 1, now, id, e);
    }
  }

  lemma RedrivesKeepHeld(w: World, cfg: Config, op: Op, id: string, e: InFlight)
    requires OnlyHeld(w.q, id, e) && id !in RedrivenBy(w, op) && (op.DoRedrive? || op.DoRedriveMany? || op.DoPurge?)
    ensures OnlyHeld(NextWorld(w, cfg, op).q, id, e)
  {
    hide ReachesBy, Abstract, OnlyHeld, EvictMany, RedriveManyIn;
    match op
    case DoRedrive(other, now) =>
      var i := FindDead(w.q.dead, other);
      if i < |w.q.dead| { AppendKeepsHeld(w.q, id, e, [ResetForRedrive(w.q.dead[i].message, now)]); SameHeldThen(w.q, i, now, id, e); }
    case DoRedriveMany(n, now) =>
      RedriveManyReaches(Any, w, n, now);
      RedriveManyKeepsHeld(w.q, n, now, id, e);
    case DoPurge =>
      EvictionsKeepWaiting(w, |w.q.dead|);
      SameHeld(w.q, EvictMany(w, |w.q.dead|).q, id, e);
    case _ =>
  }

  lemma SameHeldThen(q: Mem, i: nat, now: int, id: string, e: InFlight)
    requires i < |q.dead| && OnlyHeld(q.(messages := q.messages + [ResetForRedrive(q.dead[i].message, now)]), id, e)
    ensures OnlyHeld(RedriveAt(q, i, now), id, e)
  {}

  lemma OperationKeepsHeld(mode: Mode, w: World, cfg: Config, op: Op, id: string, e: InFlight)
    requires Valid(w.q) && !mode.Any? && Permitted(mode, w, op) && (op.DoPop? ==> op.reclaimAt < e.expiresAt)
    requires OnlyHeld(w.q, id, e) && id in w.pushed && id !in RedrivenBy(w, op) && !Settles(op, id, e.leaseToken)
    ensures OnlyHeld(NextWorld(w, cfg, op).q, id, e) && HandedBy(w, cfg, op)[id] == 0
    ensures id in NextWorld(w, cfg, op).pushed
  {
    PushedStays(w, cfg, op);
    hide OnlyHeld, TakeFirstDue, ReclaimFromIn, BuryIn, EvictMany, RedriveManyIn, RedriveAt, NackOf, ExtendOf, AckOf, Valid, Settles;
    hide Find, Remove, Put, DeadJobs;
    match op
    case DoPush(m) => AppendKeepsHeld(w.q, id, e, [m]);
    case DoPop(t1, t2, token) => PopKeepsHeld(w, cfg, t1, t2, token, id, e);
    case DoDeadLetter(entry, lease) => DeadLetterKeepsHeld(w, cfg, entry, lease, id, e);
    case DoWait(now) => SameHeld(w.q, w.q, id, e);
    case DoAck(_, _) => SettlingAnotherKeepsHeld(w, cfg, op, id, e);
    case DoNack(_, _, _, _) => SettlingAnotherKeepsHeld(w, cfg, op, id, e);
    case DoExtend(_, _, _) => SettlingAnotherKeepsHeld(w, cfg, op, id, e);
    case _ => RedrivesKeepHeld(w, cfg, op, id, e);
  }

  /** No operation settles the delivery, and every pop reclaims before the lease is over. */
  ghost predicate LeavesLease(ops: seq<Op>, id: string, e: InFlight) {
    forall k :: 0 <= k < |ops| ==>
      !Settles(ops[k], id, e.leaseToken) && (ops[k].DoPop? ==> ops[k].reclaimAt < e.expiresAt)
  }

  /** A lease keeps its job: until it is over or its holder settles or extends it, whatever the
      others do, the job stays in flight under it and is not handed out again. */
  lemma {:induction false} LeaseKeepsJob(mode: Mode, w: World, cfg: Config, ops: seq<Op>, id: string, e: InFlight)
    requires Valid(w.q) && !mode.Any? && RunPermitted(mode, w, cfg, ops) && LeavesLease(ops, id, e)
    requires OnlyHeld(w.q, id, e) && id in w.pushed && MemoryQueueRefinement.NeverRedriven(w, cfg, ops, id)
    ensures OnlyHeld(RunOf(w, cfg, ops).q, id, e) && Pops(w, cfg, ops, id) == 0
    decreases |ops|
  {
    if ops != [] {
      assert LeavesLease(ops[1..], id, e) by { assert forall k :: 0 <= k < |ops| - 1 ==> ops[1..][k] == ops[k + 1]; }
      assert !Settles(ops[0], id, e.leaseToken);
      hide Valid, Permitted, NextWorld, HandedBy, RedrivenBy, OnlyHeld, Settles;
      OperationKeepsHeld(mode, w, cfg, ops[0], id, e);
      MemoryQueueRefines(mode, w, cfg, ops[0]);
      hide LeavesLease;
      LeaseKeepsJob(mode, NextWorld(w, cfg, ops[0]), cfg, ops[1..], id, e);
    }
  }

  /** Heartbeats: after an extend under the held lease the job keeps to its holder until the new
      expiry, whatever the others do. */
  lemma HeartbeatKeepsJob(mode: Mode, w: World, cfg: Config, id: string, token: Token, expiry: int, ops: seq<Op>)
    requires Valid(w.q) && !mode.Any? && Holds(w.q, id, Some(token)) && id in w.pushed
    requires forall m :: m in w.q.messages ==> m.id != id
    requires var v, e := NextWorld(w, cfg, DoExtend(id, token, expiry)), InFlight(Get(w.q.inFlight, id).message, token, expiry);
      RunPermitted(mode, v, cfg, ops) && LeavesLease(ops, id, e) && MemoryQueueRefinement.NeverRedriven(v, cfg, ops, id)
    ensures var v := NextWorld(w, cfg, DoExtend(id, token, expiry)); var q := RunOf(v, cfg, ops).q;
      && Pops(v, cfg, ops, id) == 0
      && Holds(q, id, Some(token)) && Get(q.inFlight, id) == InFlight(Get(w.q.inFlight, id).message, token, expiry)
  {
    var v, e := NextWorld(w, cfg, DoExtend(id, token, expiry)), InFlight(Get(w.q.inFlight, id).message, token, expiry);
    PutKeepsUnique(w.q.inFlight, id, Get(w.q.inFlight, id).(expiresAt := expiry));
    assert OnlyHeld(v.q, id, e);
    MemoryQueueRefines(mode, w, cfg, DoExtend(id, token, expiry));
    hide Valid, NextWorld, ReachesBy, Pops, RunPermitted, LeavesLease, Find, Put;
    LeaseKeepsJob(mode, v, cfg, ops, id, e);
  }

  // ---- A redriven job starts afresh ----

  /** Due at once, with its counters reset and its record kept. */
  predicate IsRedriven(e: DeadEntry, x: Message, now: int) {
    && x.id == e.message.id && x.taskName == e.message.taskName && x.input == e.message.input
    && x.maxRetries == e.message.maxRetries && x.attempt == 0 && x.deliveries == 0 && x.leaseToken == None
    && x.availableAt == now && x.failures == e.message.failures
  }

  /** Dead entry number `i`, the job's oldest, is queued again behind the others. */
  ghost predicate OldestRedriven(q: Mem, v: Mem, id: string, i: nat, now: int) {
    && i < |q.dead| && q.dead[i].message.id == id && (forall j :: 0 <= j < i ==> q.dead[j].message.id != id)
    && v.dead == q.dead[..i] + q.dead[i + 1..] && v.inFlight == q.inFlight
    && |v.messages| == |q.messages| + 1 && v.messages[..|q.messages|] == q.messages
    && IsRedriven(q.dead[i], v.messages[|q.messages|], now)
  }

  /** The job's oldest dead entry leaves the dead list and is queued behind the others. */
  lemma RedriveMeans(w: World, cfg: Config, id: string, now: int)
    ensures var v := NextWorld(w, cfg, DoRedrive(id, now)).q;
      if forall e :: e in w.q.dead ==> e.message.id != id then v == w.q else exists i :: OldestRedriven(w.q, v, id, i, now)
  {
    var i := FindDead(w.q.dead, id);
    if i < |w.q.dead| {
      assert w.q.dead[i] in w.q.dead;
      ResetIsRedriven(w.q.dead[i], now);
      assert OldestRedriven(w.q, RedriveAt(w.q, i, now), id, i, now) by { hide IsRedriven, ResetForRedrive; }
    }
    hide OldestRedriven, RedriveAt;
  }

  lemma ResetIsRedriven(e: DeadEntry, now: int)
    ensures IsRedriven(e, ResetForRedrive(e.message, now), now)
  {}

  /** The oldest `n` dead entries leave the dead list and are queued behind the others in their order. */
  lemma RedriveManyMeans(w: World, cfg: Config, n: nat, now: int)
    ensures RedrivenAll(w.q, NextWorld(w, cfg, DoRedriveMany(n, now)).q, if n < |w.q.dead| then n else |w.q.dead|, now)
  {
    hide ReachesBy, Abstract, RedrivenAll, RedriveManyIn;
    RedriveManyReaches(Any, w, n, now);
    OldestAreRedriven(w.q, n, now);
  }

  ghost predicate RedrivenAll(q: Mem, v: Mem, k: nat, now: int) {
    && k <= |q.dead| && v.dead == q.dead[k..] && v.inFlight == q.inFlight
    && |v.messages| == |q.messages| + k && v.messages[..|q.messages|] == q.messages
    && forall i :: 0 <= i < k ==> IsRedriven(q.dead[i], v.messages[|q.messages| + i], now)
  }

  lemma RedrivenMore(q: Mem, u: Mem, v: Mem, k: nat, now: int)
    requires q.dead != [] && u.dead == q.dead[1..] && u.inFlight == q.inFlight && |u.messages| == |q.messages| + 1
    requires u.messages[..|q.messages|] == q.messages && IsRedriven(q.dead[0], u.messages[|q.messages|], now)
    requires RedrivenAll(u, v, k, now)
    ensures RedrivenAll(q, v, k + 1, now)
  {
    assert u.dead[k..] == q.dead[k + 1..];
    assert v.messages[..|q.messages|] == v.messages[..|u.messages|][..|q.messages|];
    assert v.messages[|q.messages|] == v.messages[..|u.messages|][|q.messages|];
    assert forall i :: 0 < i <= k ==> q.dead[i] == u.dead[i - 1] && v.messages[|q.messages| + i] == v.messages[|u.messages| + (i - 1)];
  }

  lemma {:induction false} OldestAreRedriven(q: Mem, n: nat, now: int)
    ensures RedrivenAll(q, RedriveOldest(q, n, now), if n < |q.dead| then n else |q.dead|, now)
    decreases n
  {
    if n != 0 && q.dead != [] {
      var u := RedriveAt(q, 0, now);
      assert u.dead == q.dead[1..];
      OldestAreRedriven(u, n - 1, now);
      hide RedrivenAll;
      RedrivenMore(q, u, RedriveOldest(q, n, now), if n - 1 < |u.dead| then n - 1 else |u.dead|, now);
    }
  }
}
