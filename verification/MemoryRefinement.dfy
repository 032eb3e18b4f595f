/** MemoryQueue simulates the abstract lease queue: each method is a run of it. */
module MemoryQueueRefinement {
  import opened Options
  import opened QueueTypes
  import opened JsMap
  import opened Bags
  import opened LeaseQueue
  import opened MemoryQueueModel

  /** A queue in its history: the jobs that left it, the ids and tokens used so far. */
  datatype World = World(q: Mem, gone: multiset<Slot>, pushed: set<string>, issued: set<Token>, clock: int)

  function ReadySlots(ms: seq<Message>): seq<Slot> { seq(|ms|, i requires 0 <= i < |ms| => Ready(ms[i])) }

  function LeasedSlot(e: InFlight): Slot { Leased(e.leaseToken, e.message, e.expiresAt) }

  function LeasedSlots(es: seq<(string, InFlight)>): seq<Slot> {
    seq(|es|, i requires 0 <= i < |es| => LeasedSlot(es[i].1))
  }

  function DeadSlots(es: seq<DeadEntry>): seq<Slot> { seq(|es|, i requires 0 <= i < |es| => Dead(es[i])) }

  function SlotsOf(q: Mem): multiset<Slot> {
    multiset(ReadySlots(q.messages)) + multiset(LeasedSlots(q.inFlight)) + multiset(DeadSlots(q.dead))
  }

  function Abstract(w: World): State {
    State(SlotsOf(w.q) + w.gone, w.pushed, w.issued, w.clock)
  }

  /** In-flight entries are keyed by their job, once each. */
  ghost predicate Valid(q: Mem) {
    && UniqueKeys(q.inFlight)
    && forall i :: 0 <= i < |q.inFlight| ==> q.inFlight[i].1.message.id == q.inFlight[i].0
  }

  // ---- The contents, one slot at a time ----

  lemma GainMessage(w: World, m: Message)
    ensures Abstract(w.(q := w.q.(messages := w.q.messages + [m]))) == Plus(Abstract(w), Ready(m))
  {
    hide LeasedSlots, DeadSlots;
    assert ReadySlots(w.q.messages + [m]) == ReadySlots(w.q.messages) + [Ready(m)];
  }

  lemma LoseMessage(w: World, i: nat)
    requires i < |w.q.messages|
    ensures Abstract(w) ==
      Plus(Abstract(w.(q := w.q.(messages := w.q.messages[..i] + w.q.messages[i + 1..]))), Ready(w.q.messages[i]))
  {
    var s := ReadySlots(w.q.messages);
    assert ReadySlots(w.q.messages[..i] + w.q.messages[i + 1..]) == s[..i] + s[i + 1..];
    RemoveAt(s, i);
  }

  lemma LeasedSlotsChange(es: seq<(string, InFlight)>, id: string, e: InFlight)
    requires Has(es, id)
    ensures multiset(LeasedSlots(es)) == multiset(LeasedSlots(Remove(es, id))) + multiset{LeasedSlot(Get(es, id))}
    ensures multiset(LeasedSlots(Put(es, id, e))) == multiset(LeasedSlots(Remove(es, id))) + multiset{LeasedSlot(e)}
  {
    var i, s, t := Find(es, id), LeasedSlots(es), LeasedSlots(Put(es, id, e));
    assert LeasedSlots(Remove(es, id)) == s[..i] + s[i + 1..] == t[..i] + t[i + 1..];
    RemoveAt(s, i);
    RemoveAt(t, i);
  }

  lemma LoseLease(w: World, id: string)
    requires Has(w.q.inFlight, id)
    ensures Abstract(w) ==
      Plus(Abstract(w.(q := w.q.(inFlight := Remove(w.q.inFlight, id)))), LeasedSlot(Get(w.q.inFlight, id)))
  {
    LeasedSlotsChange(w.q.inFlight, id, Get(w.q.inFlight, id));
    hide ReadySlots, DeadSlots, LeasedSlots, LeasedSlot, Remove, Get;
  }

  lemma GainLease(w: World, id: string, e: InFlight)
    requires !Has(w.q.inFlight, id)
    ensures Abstract(w.(q := w.q.(inFlight := Put(w.q.inFlight, id, e)))) == Plus(Abstract(w), LeasedSlot(e))
  {
    hide ReadySlots, DeadSlots;
    var es := w.q.inFlight;
    assert Put(es, id, e) == es + [(id, e)];
    assert LeasedSlots(es + [(id, e)]) == LeasedSlots(es) + [LeasedSlot(e)];
  }

  lemma ReplaceLease(w: World, id: string, e: InFlight)
    requires Has(w.q.inFlight, id)
    ensures Abstract(w.(q := w.q.(inFlight := Put(w.q.inFlight, id, e)))) ==
      Plus(Abstract(w.(q := w.q.(inFlight := Remove(w.q.inFlight, id)))), LeasedSlot(e))
  {
    LeasedSlotsChange(w.q.inFlight, id, e);
    hide ReadySlots, DeadSlots, LeasedSlots, LeasedSlot, Remove, Get, Put;
  }

  lemma GainDead(w: World, e: DeadEntry)
    ensures Abstract(w.(q := w.q.(dead := w.q.dead + [e]))) == Plus(Abstract(w), Dead(e))
  {
    hide ReadySlots, LeasedSlots;
    assert DeadSlots(w.q.dead + [e]) == DeadSlots(w.q.dead) + [Dead(e)];
  }

  lemma LoseDead(w: World, i: nat)
    requires i < |w.q.dead|
    ensures Abstract(w) == Plus(Abstract(w.(q := w.q.(dead := w.q.dead[..i] + w.q.dead[i + 1..]))), Dead(w.q.dead[i]))
  {
    var s := DeadSlots(w.q.dead);
    assert DeadSlots(w.q.dead[..i] + w.q.dead[i + 1..]) == s[..i] + s[i + 1..];
    RemoveAt(s, i);
  }

  lemma GainGone(w: World, x: Slot)
    ensures Abstract(w.(gone := w.gone + multiset{x})) == Plus(Abstract(w), x)
  {}

  // ---- The history of each operation ----

  /** The world after its oldest dead entry was evicted. */
  function Evict(w: World): World
    requires w.q.dead != []
  {
    w.(q := w.q.(dead := w.q.dead[1..]), gone := w.gone + multiset{Gone(w.q.dead[0].message.id, Discarded)})
  }

  function EvictMany(w: World, n: nat): World
    requires n <= |w.q.dead|
    decreases n
  {
    if n == 0 then w else EvictMany(Evict(w), n - 1)
  }

  function BuryIn(w: World, cfg: Config, e: DeadEntry): World {
    var v := w.(q := w.q.(dead := w.q.dead + [e]));
    EvictMany(v, |v.q.dead| - |KeepLast(v.q.dead, cfg.maxDead)|)
  }

  function ReclaimOneIn(w: World, cfg: Config, e: (string, InFlight), now: int): World {
    var v := w.(q := w.q.(inFlight := Remove(w.q.inFlight, e.0)));
    var m := Expired(e.1.message, cfg.expiryError, now);
    if m.attempt > m.maxRetries then BuryIn(v, cfg, DeadEntry(m, cfg.expiryError, m.failures, now))
    else v.(q := v.q.(messages := v.q.messages + [m.(availableAt := now)]))
  }

  function ReclaimFromIn(w: World, cfg: Config, es: seq<(string, InFlight)>, now: int): World
    decreases |es|
  {
    if es == [] then w
    else ReclaimFromIn(if es[0].1.expiresAt > now then w else ReclaimOneIn(w, cfg, es[0], now), cfg, es[1..], now)
  }

  lemma EvictReaches(mode: Mode, w: World)
    requires w.q.dead != []
    ensures Reaches(mode, Abstract(w), Abstract(Evict(w)))
  {
    hide ReachesBy, Abstract;
    var v := w.(q := w.q.(dead := w.q.dead[1..]));
    LoseDead(w, 0);
    assert w.q.dead[..0] + w.q.dead[1..] == w.q.dead[1..];
    GainGone(v, Gone(w.q.dead[0].message.id, Discarded));
    Swap(mode, Abstract(v), Discard, Dead(w.q.dead[0]), Gone(w.q.dead[0].message.id, Discarded));
  }

  lemma {:induction false} EvictManyReaches(mode: Mode, w: World, n: nat)
    requires n <= |w.q.dead|
    ensures EvictMany(w, n).q == w.q.(dead := w.q.dead[n..])
    ensures Reaches(mode, Abstract(w), Abstract(EvictMany(w, n)))
    decreases n
  {
    hide ReachesBy, Abstract;
    if n == 0 {
      ReachesSelf(mode, Abstract(w));
    } else {
      EvictReaches(mode, w);
      EvictManyReaches(mode, Evict(w), n - 1);
      assert w.q.dead[1..][n - 1..] == w.q.dead[n..];
      ReachesTransitive(mode, Abstract(w), Abstract(Evict(w)), Abstract(EvictMany(w, n)));
    }
  }

  function WithDead(w: World, e: DeadEntry): World { w.(q := w.q.(dead := w.q.dead + [e])) }

  lemma BuriedEvicts(mode: Mode, w: World, cfg: Config, e: DeadEntry)
    ensures BuryIn(w, cfg, e).q == PushDead(w.q, cfg, e)
    ensures Reaches(mode, Abstract(WithDead(w, e)), Abstract(BuryIn(w, cfg, e)))
  {
    hide ReachesBy, Abstract;
    var v := WithDead(w, e);
    EvictManyReaches(mode, v, |v.q.dead| - |KeepLast(v.q.dead, cfg.maxDead)|);
  }

  /** Burying a slot that is allowed to become `Dead(e)`, then evicting past the cap. */
  lemma BuryReaches(mode: Mode, w: World, cfg: Config, e: DeadEntry, rule: Rule, x: Slot)
    requires !rule.Deliver? && !rule.TakeDead?
    requires Rewrites(Abstract(w), rule, x, Dead(e)) && Allowed(mode, Abstract(w), Rewrite(rule, x, Dead(e)))
    ensures BuryIn(w, cfg, e).q == PushDead(w.q, cfg, e)
    ensures Reaches(mode, Plus(Abstract(w), x), Abstract(BuryIn(w, cfg, e)))
  {
    hide ReachesBy, Abstract, BuryIn, PushDead, Rewrites, Allowed;
    GainDead(w, e);
    Swap(mode, Abstract(w), rule, x, Dead(e));
    BuriedEvicts(mode, w, cfg, e);
    ReachesTransitive(mode, Plus(Abstract(w), x), Abstract(WithDead(w, e)), Abstract(BuryIn(w, cfg, e)));
  }

  lemma StaleBuryReaches(mode: Mode, w: World, cfg: Config, e: DeadEntry)
    requires Allowed(mode, Abstract(w), StaleBury(e))
    ensures BuryIn(w, cfg, e).q == PushDead(w.q, cfg, e)
    ensures Reaches(mode, Abstract(w), Abstract(BuryIn(w, cfg, e)))
  {
    hide ReachesBy, Abstract, BuryIn, PushDead, Allowed;
    GainDead(w, e);
    ReachesStep(mode, Abstract(w), StaleBury(e));
    BuriedEvicts(mode, w, cfg, e);
    ReachesTransitive(mode, Abstract(w), Abstract(WithDead(w, e)), Abstract(BuryIn(w, cfg, e)));
  }

  /** Reclaiming one expired lease is a revocation followed by a requeue or a burial. */
  lemma ReclaimOneReaches(mode: Mode, w: World, cfg: Config, e: (string, InFlight), now: int)
    requires Has(w.q.inFlight, e.0) && Get(w.q.inFlight, e.0) == e.1 && e.1.expiresAt <= now <= w.clock
    ensures ReclaimOneIn(w, cfg, e, now).q == ReclaimOne(w.q, cfg, e, now)
    ensures Reaches(mode, Abstract(w), Abstract(ReclaimOneIn(w, cfg, e, now)))
  {
    hide ReachesBy;
    var v := w.(q := w.q.(inFlight := Remove(w.q.inFlight, e.0)));
    var m := Expired(e.1.message, cfg.expiryError, now);
    var x, y := LeasedSlot(e.1), Revoked(e.1.leaseToken, e.1.message);
    LoseLease(w, e.0);
    Swap(mode, Abstract(v), Revoke, x, y);
    if m.attempt > m.maxRetries {
      BuryReaches(mode, v, cfg, DeadEntry(m, cfg.expiryError, m.failures, now), BuryExpired(cfg.expiryError, now), y);
    } else {
      GainMessage(v, m.(availableAt := now));
      Swap(mode, Abstract(v), Requeue(cfg.expiryError, now), y, Ready(m.(availableAt := now)));
    }
    ReachesTransitive(mode, Abstract(w), Plus(Abstract(v), y), Abstract(ReclaimOneIn(w, cfg, e, now)));
  }

  // ---- The operations ----

  datatype Op =
    | DoPush(m: Message)
    | DoPop(reclaimAt: int, popAt: int, token: Token)
    | DoAck(id: string, lease: Option<Token>)
    | DoNack(id: string, at: int, lease: Option<Token>, failure: Option<Failure>)
    | DoExtend(id: string, held: Token, expiry: int)
    | DoDeadLetter(entry: DeadEntry, lease: Option<Token>)
    | DoRedrive(id: string, now: int)
    | DoRedriveMany(n: nat, now: int)
    | DoPurge
    | DoWait(now: int)

  function RedriveManyIn(w: World, n: nat, now: int): World
    decreases n
  {
    if n == 0 || w.q.dead == [] then w else RedriveManyIn(w.(q := RedriveAt(w.q, 0, now)), n - 1, now)
  }

  /** The queue after an operation, with the history it leaves. */
  function NextWorld(w: World, cfg: Config, op: Op): World {
    match op
    case DoPush(m) => w.(q := w.q.(messages := w.q.messages + [m]), pushed := w.pushed + {m.id})
    case DoPop(t1, t2, token) =>
      var v := ReclaimFromIn(w, cfg, w.q.inFlight, t1);
      var (q, r) := TakeFirstDue(v.q, cfg, t2, token);
      v.(q := q, issued := if r.Some? then v.issued + {token} else v.issued)
    case DoAck(id, lease) =>
      w.(q := AckOf(w.q, cfg, id, lease),
         gone := if Holds(w.q, id, lease) then w.gone + multiset{Gone(Get(w.q.inFlight, id).message.id, Acked)} else w.gone)
    case DoNack(id, at, lease, failure) => w.(q := NackOf(w.q, id, at, lease, failure))
    case DoExtend(id, held, expiry) => w.(q := ExtendOf(w.q, id, held, expiry))
    case DoDeadLetter(e, lease) =>
      BuryIn(if Holds(w.q, e.message.id, lease) then w.(q := w.q.(inFlight := Remove(w.q.inFlight, e.message.id))) else w, cfg, e)
    case DoRedrive(id, now) => w.(q := RedriveOf(w.q, id, now))
    case DoRedriveMany(n, now) => RedriveManyIn(w, n, now)
    case DoPurge => EvictMany(w, |w.q.dead|)
    case DoWait(now) => w.(clock := now)
  }

  /** The job an operation hands to a worker, if any. */
  function HandedBy(w: World, cfg: Config, op: Op): multiset<string> {
    match op
    case DoPop(t1, t2, token) =>
      var r := TakeFirstDue(ReclaimFromIn(w, cfg, w.q.inFlight, t1).q, cfg, t2, token).1;
      if r.Some? then multiset{r.value.id} else multiset{}
    case _ => multiset{}
  }

  /** The jobs of the oldest `n` dead entries. */
  function DeadJobs(dead: seq<DeadEntry>, n: nat): multiset<string>
    decreases n
  {
    if n == 0 || dead == [] then multiset{} else multiset{dead[0].message.id} + DeadJobs(dead[1..], n - 1)
  }

  /** The jobs an operation redrives. */
  function RedrivenBy(w: World, op: Op): multiset<string> {
    match op
    case DoRedrive(id, now) => if FindDead(w.q.dead, id) < |w.q.dead| then multiset{id} else multiset{}
    case DoRedriveMany(n, now) => DeadJobs(w.q.dead, n)
    case _ => multiset{}
  }

  /** What an operation needs: clock readings not in the future and fresh tokens; beyond
      that, each mode asks of the callers what the abstract queue asks. */
  ghost predicate Permitted(mode: Mode, w: World, op: Op) {
    match op
    case DoPush(m) => (!mode.Any? ==> m.id !in w.pushed) && (Budget(mode) ==> Enqueued(m))
    case DoPop(t1, t2, token) => t1 <= t2 <= w.clock && token !in w.issued
    case DoAck(id, lease) => mode.Failing? && Holds(w.q, id, lease) ==> id != mode.job
    case DoNack(id, at, lease, failure) =>
      Budget(mode) && Holds(w.q, id, lease) ==>
        var m := Get(w.q.inFlight, id).message;
        failure.Some? && failure.value.attempt == m.attempt < m.maxRetries
    case DoDeadLetter(e, lease) =>
      && (mode.Guarded? ==> Holds(w.q, e.message.id, lease))
      && (Budget(mode) ==>
            if Holds(w.q, e.message.id, lease) then
              e.message == Get(w.q.inFlight, e.message.id).message.(failures := e.failures)
            else
              e.message.id in w.pushed && 0 <= e.message.maxRetries)
      && (mode.Failing? && e.message.id == mode.job ==>
            && AllFailed(e, mode.retries)
            && (Holds(w.q, e.message.id, lease) ==> Get(w.q.inFlight, e.message.id).message.attempt >= mode.retries))
    case DoWait(now) => w.clock <= now
    case _ => true
  }

  lemma RemoveKeepsValid(q: Mem, id: string)
    requires Valid(q)
    ensures Valid(q.(inFlight := Remove(q.inFlight, id)))
  {
    RemoveKeepsUnique(q.inFlight, id);
    var r, i := Remove(q.inFlight, id), Find(q.inFlight, id);
    assert i < |q.inFlight| ==> forall j :: 0 <= j < |r| ==> r[j] == if j < i then q.inFlight[j] else q.inFlight[j + 1];
  }

  /** Every entry still to be visited is still in flight, unchanged. */
  ghost predicate StillThere(q: Mem, es: seq<(string, InFlight)>) {
    && UniqueKeys(es)
    && forall i :: 0 <= i < |es| ==> Has(q.inFlight, es[i].0) && Get(q.inFlight, es[i].0) == es[i].1
  }

  lemma StartsThere(q: Mem)
    requires Valid(q)
    ensures StillThere(q, q.inFlight)
  {
    forall i | 0 <= i < |q.inFlight| ensures Has(q.inFlight, q.inFlight[i].0) && Get(q.inFlight, q.inFlight[i].0) == q.inFlight[i].1 {
      FoundAt(q.inFlight, i);
    }
  }

  lemma {:induction false} ReclaimReaches(mode: Mode, w: World, cfg: Config, es: seq<(string, InFlight)>, now: int)
    requires Valid(w.q) && StillThere(w.q, es) && now <= w.clock
    ensures var v := ReclaimFromIn(w, cfg, es, now);
      && v.q == ReclaimFrom(w.q, cfg, es, now) && Valid(v.q)
      && v.clock == w.clock && v.issued == w.issued && v.pushed == w.pushed
      && Reaches(mode, Abstract(w), Abstract(v))
    decreases |es|
  {
    hide ReachesBy;
    if es == [] {
      ReachesSelf(mode, Abstract(w));
    } else if es[0].1.expiresAt > now {
      ReclaimReaches(mode, w, cfg, es[1..], now);
    } else {
      var v := ReclaimOneIn(w, cfg, es[0], now);
      ReclaimOneReaches(mode, w, cfg, es[0], now);
      ReclaimOneKeepsHistory(w, cfg, es[0], now);
      RemoveKeepsValid(w.q, es[0].0);
      forall i | 0 <= i < |es[1..]|
        ensures Has(v.q.inFlight, es[1..][i].0) && Get(v.q.inFlight, es[1..][i].0) == es[1..][i].1
      {
        RemoveKeepsOthers(w.q.inFlight, es[0].0, es[i + 1].0);
      }
      ReclaimReaches(mode, v, cfg, es[1..], now);
      ReachesTransitive(mode, Abstract(w), Abstract(v), Abstract(ReclaimFromIn(w, cfg, es, now)));
    }
  }

  lemma {:induction false} EvictManyKeepsHistory(w: World, n: nat)
    requires n <= |w.q.dead|
    ensures var v := EvictMany(w, n); v.clock == w.clock && v.issued == w.issued && v.pushed == w.pushed
    decreases n
  {
    if n > 0 { EvictManyKeepsHistory(Evict(w), n - 1); }
  }

  lemma ReclaimOneKeepsHistory(w: World, cfg: Config, e: (string, InFlight), now: int)
    ensures var v := ReclaimOneIn(w, cfg, e, now);
      v.clock == w.clock && v.issued == w.issued && v.pushed == w.pushed
  {
    var u := w.(q := w.q.(inFlight := Remove(w.q.inFlight, e.0)));
    var m := Expired(e.1.message, cfg.expiryError, now);
    var d := u.(q := u.q.(dead := u.q.dead + [DeadEntry(m, cfg.expiryError, m.failures, now)]));
    EvictManyKeepsHistory(d, |d.q.dead| - |KeepLast(d.q.dead, cfg.maxDead)|);
  }

  lemma PopReaches(mode: Mode, w: World, cfg: Config, t1: int, t2: int, token: Token)
    requires Valid(w.q) && Permitted(mode, w, DoPop(t1, t2, token))
    ensures var op := DoPop(t1, t2, token); var v := NextWorld(w, cfg, op);
      Valid(v.q) && ReachesBy(mode, Abstract(w), Abstract(v), HandedBy(w, cfg, op), multiset{})
  {
    hide ReachesBy;
    StartsThere(w.q);
    ReclaimReaches(mode, w, cfg, w.q.inFlight, t1);
    var v := ReclaimFromIn(w, cfg, w.q.inFlight, t1);
    var i := FirstDue(v.q.messages, t2);
    if i < |v.q.messages| {
      TakeReaches(mode, v, cfg, i, t2, token);
      var u := NextWorld(w, cfg, DoPop(t1, t2, token));
      ReachesSelf(mode, Abstract(u));
      hide Abstract, ReachesBy;
      QuietAround(mode, Abstract(w), Abstract(v), Abstract(u), Abstract(u), multiset{v.q.messages[i].id}, multiset{});
    }
  }

  /** Recording a lease; a job delivered twice at once keeps only the newer lease. */
  lemma RecordReaches(mode: Mode, w: World, e: InFlight)
    requires Valid(w.q)
    ensures var v := w.(q := w.q.(inFlight := Put(w.q.inFlight, e.message.id, e)));
      Valid(v.q) && Reaches(mode, Plus(Abstract(w), LeasedSlot(e)), Abstract(v))
  {
    hide ReachesBy;
    var id := e.message.id;
    var v := w.(q := w.q.(inFlight := Put(w.q.inFlight, id, e)));
    PutKeepsUnique(w.q.inFlight, id, e);
    if Has(w.q.inFlight, id) {
      var r := w.(q := w.q.(inFlight := Remove(w.q.inFlight, id)));
      LoseLease(w, id);
      ReplaceLease(w, id, e);
      DropCopy(mode, Abstract(r), LeasedSlot(Get(w.q.inFlight, id)), LeasedSlot(e));
    } else {
      GainLease(w, id, e);
      ReachesSelf(mode, Abstract(v));
    }
  }

  lemma IssueToken(w: World, token: Token)
    ensures Abstract(w.(issued := w.issued + {token})) == Abstract(w).(issued := w.issued + {token})
    ensures Abstract(w).clock == w.clock && Abstract(w).issued == w.issued
  {}

  lemma TakeReaches(mode: Mode, w: World, cfg: Config, i: nat, now: int, token: Token)
    requires Valid(w.q) && now <= w.clock && token !in w.issued && i == FirstDue(w.q.messages, now) < |w.q.messages|
    ensures var v := w.(q := TakeFirstDue(w.q, cfg, now, token).0, issued := w.issued + {token});
      Valid(v.q) && ReachesBy(mode, Abstract(w), Abstract(v), multiset{w.q.messages[i].id}, multiset{})
  {
    hide Abstract, ReachesBy, LeasedSlots, Put;
    var m := w.q.messages[i];
    var e := InFlight(Delivered(m, token), token, now + cfg.visibility);
    var u := w.(q := w.q.(messages := w.q.messages[..i] + w.q.messages[i + 1..]));
    var u' := u.(issued := u.issued + {token});
    var v := w.(q := TakeFirstDue(w.q, cfg, now, token).0, issued := w.issued + {token});
    LoseMessage(w, i);
    IssueToken(u, token);
    DeliverSwap(mode, Abstract(u), m, token, e.expiresAt);
    RecordReaches(mode, u', e);
    assert v == u'.(q := u'.q.(inFlight := Put(u'.q.inFlight, m.id, e)));
    ReachesSelf(mode, Abstract(w));
    QuietAround(mode, Abstract(w), Abstract(w), Plus(Abstract(u'), LeasedSlot(e)), Abstract(v), multiset{m.id}, multiset{});
  }

  lemma {:induction false} RedriveManyReaches(mode: Mode, w: World, n: nat, now: int)
    ensures RedriveManyIn(w, n, now).q == RedriveOldest(w.q, n, now)
    ensures RedriveManyIn(w, n, now).q.inFlight == w.q.inFlight
    ensures ReachesBy(mode, Abstract(w), Abstract(RedriveManyIn(w, n, now)), multiset{}, DeadJobs(w.q.dead, n))
    decreases n
  {
    hide Abstract, ReachesBy;
    if n == 0 || w.q.dead == [] {
      ReachesSelf(mode, Abstract(w));
    } else {
      var u := w.(q := RedriveAt(w.q, 0, now));
      RedriveManyReaches(mode, u, n - 1, now);
      var v := RedriveManyIn(u, n - 1, now);
      assert RedriveManyIn(w, n, now) == v && u.q.dead == w.q.dead[1..];
      RedriveReaches(mode, w, 0, now);
      ReachesByTransitive(mode, Abstract(w), Abstract(u), Abstract(v),
        multiset{}, multiset{w.q.dead[0].message.id}, multiset{}, DeadJobs(w.q.dead[1..], n - 1));
      var nothing: multiset<string> := multiset{};
      assert nothing + nothing == nothing;
    }
  }

  lemma RedriveReaches(mode: Mode, w: World, i: nat, now: int)
    requires i < |w.q.dead|
    ensures RedriveAt(w.q, i, now).inFlight == w.q.inFlight
    ensures ReachesBy(mode, Abstract(w), Abstract(w.(q := RedriveAt(w.q, i, now))), multiset{}, multiset{w.q.dead[i].message.id})
  {
    hide SlotsOf, ReachesBy;
    var m := w.q.dead[i].message;
    var u := w.(q := w.q.(dead := w.q.dead[..i] + w.q.dead[i + 1..]));
    LoseDead(w, i);
    TakeDeadSwap(mode, Abstract(u), w.q.dead[i]);
    Swap(mode, Abstract(u), Redrive(now), Redriving(m), Ready(ResetForRedrive(m, now)));
    GainMessage(u, ResetForRedrive(m, now));
    ReachesSelf(mode, Abstract(w));
    QuietAround(mode, Abstract(w), Abstract(w), Plus(Abstract(u), Redriving(m)), Abstract(w.(q := RedriveAt(w.q, i, now))),
      multiset{}, multiset{m.id});
  }

  lemma AckReaches(mode: Mode, w: World, cfg: Config, id: string, lease: Option<Token>)
    requires Valid(w.q) && Permitted(mode, w, DoAck(id, lease))
    ensures var v := NextWorld(w, cfg, DoAck(id, lease)); Valid(v.q) && Reaches(mode, Abstract(w), Abstract(v))
  {
    hide ReachesBy;
    var v := NextWorld(w, cfg, DoAck(id, lease));
    if Holds(w.q, id, lease) {
      var e := Get(w.q.inFlight, id);
      var u := w.(q := w.q.(inFlight := Remove(w.q.inFlight, id)));
      LoseLease(w, id);
      RemoveKeepsValid(w.q, id);
      Swap(mode, Abstract(u), Ack, LeasedSlot(e), Gone(e.message.id, Acked));
      GainGone(u, Gone(e.message.id, Acked));
      assert Abstract(v) == Abstract(u.(gone := u.gone + multiset{Gone(e.message.id, Acked)}));
    } else {
      ReachesSelf(mode, Abstract(w));
    }
  }

  lemma NackReaches(mode: Mode, w: World, id: string, at: int, lease: Option<Token>, failure: Option<Failure>)
    requires Valid(w.q) && Permitted(mode, w, DoNack(id, at, lease, failure))
    ensures var v := w.(q := NackOf(w.q, id, at, lease, failure)); Valid(v.q) && Reaches(mode, Abstract(w), Abstract(v))
  {
    hide ReachesBy, SlotsOf;
    if Holds(w.q, id, lease) {
      var e := Get(w.q.inFlight, id);
      var u := w.(q := w.q.(inFlight := Remove(w.q.inFlight, id)));
      var r := Retried(e.message, at, failure);
      LoseLease(w, id);
      RemoveKeepsValid(w.q, id);
      GainMessage(u, r);
      Swap(mode, Abstract(u), Release, LeasedSlot(e), Retrying(e.message));
      Swap(mode, Abstract(u), Retry(failure), Retrying(e.message), Ready(r));
      ReachesTransitive(mode, Abstract(w), Plus(Abstract(u), Retrying(e.message)), Plus(Abstract(u), Ready(r)));
    } else {
      ReachesSelf(mode, Abstract(w));
    }
  }

  lemma ExtendReaches(mode: Mode, w: World, id: string, held: Token, expiry: int)
    requires Valid(w.q)
    ensures var v := w.(q := ExtendOf(w.q, id, held, expiry)); Valid(v.q) && Reaches(mode, Abstract(w), Abstract(v))
  {
    hide ReachesBy, SlotsOf;
    if Holds(w.q, id, Some(held)) {
      var e := Get(w.q.inFlight, id);
      var u := w.(q := w.q.(inFlight := Remove(w.q.inFlight, id)));
      LoseLease(w, id);
      PutKeepsUnique(w.q.inFlight, id, e.(expiresAt := expiry));
      ReplaceLease(w, id, e.(expiresAt := expiry));
      Swap(mode, Abstract(u), Extend, LeasedSlot(e), LeasedSlot(e.(expiresAt := expiry)));
    } else {
      ReachesSelf(mode, Abstract(w));
    }
  }

  lemma DeadLetterReaches(mode: Mode, w: World, cfg: Config, entry: DeadEntry, lease: Option<Token>)
    requires Valid(w.q) && Permitted(mode, w, DoDeadLetter(entry, lease))
    ensures var v := NextWorld(w, cfg, DoDeadLetter(entry, lease));
      && v.q == DeadLetterOf(w.q, cfg, entry, lease) && Valid(v.q) && Reaches(mode, Abstract(w), Abstract(v))
  {
    hide ReachesBy, SlotsOf, BuryIn;
    var id := entry.message.id;
    if Holds(w.q, id, lease) {
      var u := w.(q := w.q.(inFlight := Remove(w.q.inFlight, id)));
      LoseLease(w, id);
      RemoveKeepsValid(w.q, id);
      BuryReaches(mode, u, cfg, entry, Bury, LeasedSlot(Get(w.q.inFlight, id)));
    } else {
      StaleBuryReaches(mode, w, cfg, entry);
    }
  }

  lemma PushReaches(mode: Mode, w: World, cfg: Config, m: Message)
    requires Permitted(mode, w, DoPush(m))
    ensures Reaches(mode, Abstract(w), Abstract(NextWorld(w, cfg, DoPush(m))))
  {
    hide ReachesBy, SlotsOf;
    GainMessage(w, m);
    ReachesStep(mode, Abstract(w), Push(m));
  }

  lemma WaitReaches(mode: Mode, w: World, now: int)
    requires w.clock <= now
    ensures Reaches(mode, Abstract(w), Abstract(w.(clock := now)))
  {
    hide ReachesBy, SlotsOf;
    ReachesStep(mode, Abstract(w), Tick(now));
  }

  /** Refinement: every operation of the in-memory queue, under the conditions of a mode,
      is a run of the abstract lease queue under the same conditions, and that run delivers
      and redrives exactly the jobs the operation does. */
  lemma MemoryQueueRefines(mode: Mode, w: World, cfg: Config, op: Op)
    requires Valid(w.q) && Permitted(mode, w, op)
    ensures Valid(NextWorld(w, cfg, op).q)
    ensures ReachesBy(mode, Abstract(w), Abstract(NextWorld(w, cfg, op)), HandedBy(w, cfg, op), RedrivenBy(w, op))
  {
    hide Abstract, ReachesBy, SlotsOf, EvictMany, RedriveManyIn, AckOf, NackOf, ExtendOf, RedriveAt;
    match op
    case DoPush(m) => PushReaches(mode, w, cfg, m);
    case DoPop(t1, t2, token) => PopReaches(mode, w, cfg, t1, t2, token);
    case DoDeadLetter(entry, lease) => DeadLetterReaches(mode, w, cfg, entry, lease);
    case DoRedrive(id, now) =>
      var i := FindDead(w.q.dead, id);
      if i < |w.q.dead| { RedriveReaches(mode, w, i, now); } else { ReachesSelf(mode, Abstract(w)); }
    case DoRedriveMany(n, now) => RedriveManyReaches(mode, w, n, now);
    case DoPurge => EvictManyReaches(mode, w, |w.q.dead|);
    case DoWait(now) => WaitReaches(mode, w, now);
    case DoAck(id, lease) => AckReaches(mode, w, cfg, id, lease);
    case DoNack(id, at, lease, failure) => NackReaches(mode, w, id, at, lease, failure);
    case DoExtend(id, held, expiry) => ExtendReaches(mode, w, id, held, expiry);
  }

  // ---- Whole runs ----

  ghost predicate RunPermitted(mode: Mode, w: World, cfg: Config, ops: seq<Op>)
    decreases |ops|
  {
    ops == [] || (Permitted(mode, w, ops[0]) && RunPermitted(mode, NextWorld(w, cfg, ops[0]), cfg, ops[1..]))
  }

  function RunOf(w: World, cfg: Config, ops: seq<Op>): World
    decreases |ops|
  {
    if ops == [] then w else RunOf(NextWorld(w, cfg, ops[0]), cfg, ops[1..])
  }

  /** Over any run of operations the queue keeps conservation, unique tokens and, for a
      budget-keeping worker, the retry budget; and a lost lease stays lost. */
  lemma {:induction false} MemoryQueueIsSafe(mode: Mode, w: World, cfg: Config, ops: seq<Op>)
    requires Valid(w.q) && Safe(mode, Abstract(w)) && RunPermitted(mode, w, cfg, ops)
    ensures var v := RunOf(w, cfg, ops);
      Valid(v.q) && Safe(mode, Abstract(v)) && NothingRevived(Abstract(w), Abstract(v))
    decreases |ops|
  {
    hide Abstract, Safe, Valid, Permitted, NextWorld, HandedBy, RedrivenBy, ReachesBy;
    if ops != [] {
      MemoryQueueRefines(mode, w, cfg, ops[0]);
      ReachableIsSafe(mode, Abstract(w), Abstract(NextWorld(w, cfg, ops[0])), HandedBy(w, cfg, ops[0]), RedrivenBy(w, ops[0]));
      MemoryQueueIsSafe(mode, NextWorld(w, cfg, ops[0]), cfg, ops[1..]);
      RevivalComposes(Abstract(w), Abstract(NextWorld(w, cfg, ops[0])), Abstract(RunOf(w, cfg, ops)));
    }
  }

  // ---- The retry budget, counted in pops ----

  /** How often a run of operations hands job `id` to a worker. */
  function Pops(w: World, cfg: Config, ops: seq<Op>, id: string): nat
    decreases |ops|
  {
    if ops == [] then 0 else HandedBy(w, cfg, ops[0])[id] + Pops(NextWorld(w, cfg, ops[0]), cfg, ops[1..], id)
  }

  predicate NeverRedriven(w: World, cfg: Config, ops: seq<Op>, id: string)
    decreases |ops|
  {
    ops == [] || (id !in RedrivenBy(w, ops[0]) && NeverRedriven(NextWorld(w, cfg, ops[0]), cfg, ops[1..], id))
  }

  lemma {:induction false} PopsAreOwed(w: World, cfg: Config, ops: seq<Op>, id: string, n: int, r: int)
    requires Valid(w.q) && Safe(Budgeted, Abstract(w)) && Owes(Abstract(w), id, n, r) && id in w.pushed
    requires RunPermitted(Budgeted, w, cfg, ops) && NeverRedriven(w, cfg, ops, id)
    ensures Pops(w, cfg, ops, id) <= n
    decreases |ops|
  {
    hide Valid, Owes, Permitted, NextWorld, HandedBy, RedrivenBy, ReachesBy, AllWithinBudget, AtLeastOnePlace, TokensUnique, KnownJobs, SlotsOf;
    if ops == [] {
      OwesNothingLess(Abstract(w), id, n, r);
    } else {
      var v := NextWorld(w, cfg, ops[0]);
      MemoryQueueRefines(Budgeted, w, cfg, ops[0]);
      ReachableIsSafe(Budgeted, Abstract(w), Abstract(v), HandedBy(w, cfg, ops[0]), RedrivenBy(w, ops[0]));
      var left := ReachesByOwes(Abstract(w), Abstract(v), HandedBy(w, cfg, ops[0]), RedrivenBy(w, ops[0]), id, n, r);
      PopsAreOwed(v, cfg, ops[1..], id, n - HandedBy(w, cfg, ops[0])[id], left);
    }
  }

  /** The budget on the in-memory queue, late dead-lettering included: whatever else goes on,
      an enqueued job is popped at most `maxRetries + 1` times until it is redriven. */
  lemma JobIsPoppedAtMost(w: World, cfg: Config, m: Message, ops: seq<Op>)
    requires Valid(w.q) && Safe(Budgeted, Abstract(w)) && Permitted(Budgeted, w, DoPush(m))
    requires RunPermitted(Budgeted, NextWorld(w, cfg, DoPush(m)), cfg, ops)
    requires NeverRedriven(NextWorld(w, cfg, DoPush(m)), cfg, ops, m.id)
    ensures Pops(NextWorld(w, cfg, DoPush(m)), cfg, ops, m.id) <= m.maxRetries + 1
  {
    var v := NextWorld(w, cfg, DoPush(m));
    GainMessage(w, m);
    PushOwes(Abstract(w), m);
    assert Abstract(v) == Next(Abstract(w), Push(m));
    MemoryQueueRefines(Budgeted, w, cfg, DoPush(m));
    ReachableIsSafe(Budgeted, Abstract(w), Abstract(v), multiset{}, multiset{});
    hide Abstract, Owes, Safe, Valid, RunPermitted, NeverRedriven, Pops;
    PopsAreOwed(v, cfg, ops, m.id, m.maxRetries + 1, 3 * m.maxRetries + 3);
  }

  lemma HeldIsLive(w: World, id: string, token: Token)
    requires Holds(w.q, id, Some(token))
    ensures Live(Abstract(w), token)
  {
    assert LeasedSlots(w.q.inFlight)[Find(w.q.inFlight, id)] in Abstract(w).slots;
  }

  /** Fencing: whatever happened since its lease was lost, a late ack, nack or extend changes nothing. */
  lemma StaleTokenIsInert(mode: Mode, w: World, cfg: Config, ops: seq<Op>, id: string, token: Token)
    requires Valid(w.q) && Safe(mode, Abstract(w)) && RunPermitted(mode, w, cfg, ops)
    requires token in w.issued && !Live(Abstract(w), token)
    ensures var q := RunOf(w, cfg, ops).q;
      && AckOf(q, cfg, id, Some(token)) == q
      && (forall at, failure :: NackOf(q, id, at, Some(token), failure) == q)
      && (forall expiry :: ExtendOf(q, id, token, expiry) == q)
  {
    MemoryQueueIsSafe(mode, w, cfg, ops);
    var v := RunOf(w, cfg, ops);
    if Holds(v.q, id, Some(token)) { HeldIsLive(v, id, token); }
  }

  /** A queue starts empty, with nothing pushed or issued. */
  lemma StartIsSafe(mode: Mode, clock: int)
    ensures Valid(EMPTY) && Safe(mode, Abstract(World(EMPTY, multiset{}, {}, {}, clock)))
  {}
}
