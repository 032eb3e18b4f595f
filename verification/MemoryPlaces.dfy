/** When the in-memory queue keeps every job in exactly one place (packages/core/src/queue.ts). */
module MemoryQueuePlaces {
  import opened Options
  import opened QueueTypes
  import opened JsMap
  import opened LeaseQueue
  import opened MemoryQueueModel
  import opened MemoryQueueRefinement

  /** Ids are pushed once, and the lease a job is dead-lettered under is held. */
  predicate CarefulOp(w: World, op: Op) {
    match op
    case DoPush(m) => m.id !in w.pushed
    case DoDeadLetter(e, lease) => Holds(w.q, e.message.id, lease)
    case _ => true
  }

  /** Evictions make no difference. */
  lemma {:induction false} EvictionsExactlyIff(w: World, n: nat)
    requires n <= |w.q.dead|
    ensures ExactlyOnePlace(Abstract(EvictMany(w, n))) <==> ExactlyOnePlace(Abstract(w))
    decreases n
  {
    hide Abstract, ExactlyOnePlace;
    if n > 0 {
      var v, x := w.(q := w.q.(dead := w.q.dead[1..])), Gone(w.q.dead[0].message.id, Discarded);
      LoseDead(w, 0);
      assert w.q.dead[..0] + w.q.dead[1..] == w.q.dead[1..];
      GainGone(v, x);
      PlusExactlyIff(Abstract(v), Dead(w.q.dead[0]), x);
      EvictionsExactlyIff(Evict(w), n - 1);
    }
  }

  /** Under which operations every job stays in exactly one place: exactly the careful ones. */
  lemma OperationKeepsExactlyIff(w: World, cfg: Config, op: Op)
    requires Valid(w.q) && Permitted(Any, w, op) && ExactlyOnePlace(Abstract(w))
    ensures ExactlyOnePlace(Abstract(NextWorld(w, cfg, op))) <==> CarefulOp(w, op)
  {
    hide *;
    if CarefulOp(w, op) {
      CarefulIsGuarded(w, op);
      MemoryQueueRefines(Guarded, w, cfg, op);
      ReachesByKeepsExactly(Abstract(w), Abstract(NextWorld(w, cfg, op)), HandedBy(w, cfg, op), RedrivenBy(w, op));
    } else {
      CarelessIsOneTooMany(w, cfg, op);
    }
  }

  lemma CarefulIsGuarded(w: World, op: Op)
    requires Permitted(Any, w, op) && CarefulOp(w, op)
    ensures Permitted(Guarded, w, op)
  {
    hide Holds;
  }

  lemma CarelessIsOneTooMany(w: World, cfg: Config, op: Op)
    requires ExactlyOnePlace(Abstract(w)) && !CarefulOp(w, op)
    ensures !ExactlyOnePlace(Abstract(NextWorld(w, cfg, op)))
  {
    if op.DoPush? { PushedTwice(w, cfg, op.m); }
    if op.DoDeadLetter? { BuriedLate(w, cfg, op.entry, op.lease); }
    hide *;
  }

  lemma PushedTwice(w: World, cfg: Config, m: Message)
    requires ExactlyOnePlace(Abstract(w)) && m.id in w.pushed
    ensures !ExactlyOnePlace(Abstract(NextWorld(w, cfg, DoPush(m))))
  {
    SamePushed(w, cfg, m);
    hide *;
    GainMessage(w, m);
    OneTooMany(Abstract(w), Ready(m));
  }

  lemma SamePushed(w: World, cfg: Config, m: Message)
    requires m.id in w.pushed
    ensures NextWorld(w, cfg, DoPush(m)) == w.(q := w.q.(messages := w.q.messages + [m]))
  {
    assert w.pushed + {m.id} == w.pushed;
  }

  lemma BuriedLate(w: World, cfg: Config, entry: DeadEntry, lease: Option<Token>)
    requires ExactlyOnePlace(Abstract(w)) && !Holds(w.q, entry.message.id, lease)
    ensures !ExactlyOnePlace(Abstract(NextWorld(w, cfg, DoDeadLetter(entry, lease))))
  {
    hide *;
    var d, n := LateIsEvicted(w, cfg, entry, lease);
    OneTooMany(Abstract(w), Dead(entry));
    EvictionsExactlyIff(d, n);
  }

  lemma LateIsEvicted(w: World, cfg: Config, entry: DeadEntry, lease: Option<Token>) returns (d: World, n: nat)
    requires !Holds(w.q, entry.message.id, lease)
    ensures n <= |d.q.dead| && Abstract(d) == Plus(Abstract(w), Dead(entry))
    ensures NextWorld(w, cfg, DoDeadLetter(entry, lease)) == EvictMany(d, n)
  {
    hide EvictMany, Holds, Abstract;
    d := w.(q := w.q.(dead := w.q.dead + [entry]));
    n := |d.q.dead| - |KeepLast(d.q.dead, cfg.maxDead)|;
    GainDead(w, entry);
  }

  ghost predicate ExactlyThroughout(w: World, cfg: Config, ops: seq<Op>)
    decreases |ops|
  {
    ExactlyOnePlace(Abstract(w)) && (ops == [] || ExactlyThroughout(NextWorld(w, cfg, ops[0]), cfg, ops[1..]))
  }

  predicate CarefulThroughout(w: World, cfg: Config, ops: seq<Op>)
    decreases |ops|
  {
    ops == [] || (CarefulOp(w, ops[0]) && CarefulThroughout(NextWorld(w, cfg, ops[0]), cfg, ops[1..]))
  }

  /** Over any run: every job is in exactly one place at every moment if and only if every
      operation is careful. */
  lemma {:induction false} RunKeepsExactlyIff(w: World, cfg: Config, ops: seq<Op>)
    requires Valid(w.q) && RunPermitted(Any, w, cfg, ops) && ExactlyOnePlace(Abstract(w))
    ensures ExactlyThroughout(w, cfg, ops) <==> CarefulThroughout(w, cfg, ops)
    decreases |ops|
  {
    hide Abstract, ExactlyOnePlace, NextWorld, Permitted, Valid, CarefulOp, HandedBy, RedrivenBy, ReachesBy;
    if ops != [] {
      var v := NextWorld(w, cfg, ops[0]);
      OperationKeepsExactlyIff(w, cfg, ops[0]);
      MemoryQueueRefines(Any, w, cfg, ops[0]);
      if ExactlyOnePlace(Abstract(v)) { RunKeepsExactlyIff(v, cfg, ops[1..]); }
    }
  }

  // ---- A job in two places ----

  /** Push, pop, expiry, pop again, and a dead-lettering with the first token. */
  function LateRun(m: Message, v: nat, entry: DeadEntry): seq<Op> {
    [DoPush(m)] + ([DoPop(0, 0, "a")] + ([DoWait(v)] + ([DoPop(v, v, "b")] + ([DoDeadLetter(entry, Some("a"))] + []))))
  }

  const START := World(EMPTY, multiset{}, {}, {}, 0)

  lemma FirstOp(w: World, cfg: Config, op: Op, rest: seq<Op>)
    ensures RunOf(w, cfg, [op] + rest) == RunOf(NextWorld(w, cfg, op), cfg, rest)
    ensures RunPermitted(Any, w, cfg, [op] + rest) <==> Permitted(Any, w, op) && RunPermitted(Any, NextWorld(w, cfg, op), cfg, rest)
  {
    hide NextWorld, Permitted;
    assert ([op] + rest)[1..] == rest;
  }

  /** A pop from a queue that holds one due message. */
  lemma PopOne(w: World, cfg: Config, m: Message, now: int, token: Token)
    requires w.q == EMPTY.(messages := [m]) && m.availableAt <= now
    ensures var v := NextWorld(w, cfg, DoPop(now, now, token));
      && v.q == EMPTY.(inFlight := [(m.id, InFlight(Delivered(m, token), token, now + cfg.visibility))])
      && v.issued == w.issued + {token} && v.pushed == w.pushed && v.clock == w.clock
  {
    assert [m][..0] + [m][1..] == [];
  }

  /** A pop that first reclaims the one lease there is. */
  lemma ReclaimThenPopOne(w: World, cfg: Config, e: InFlight, now: int)
    requires w.q == EMPTY.(inFlight := [(e.message.id, e)]) && e.expiresAt <= now && e.message.attempt < e.message.maxRetries
    ensures var v := NextWorld(w, cfg, DoPop(now, now, "b"));
      var again := Expired(e.message, cfg.expiryError, now).(availableAt := now);
      && v.q == EMPTY.(inFlight := [(again.id, InFlight(Delivered(again, "b"), "b", now + cfg.visibility))])
      && v.issued == w.issued + {"b"} && v.pushed == w.pushed && v.clock == w.clock
  {
    var es := [(e.message.id, e)];
    var again := Expired(e.message, cfg.expiryError, now).(availableAt := now);
    assert Remove(es, e.message.id) == [] && es[1..] == [];
    var u := w.(q := EMPTY.(messages := [again]));
    assert [] + [again] == [again];
    assert ReclaimOneIn(w, cfg, es[0], now) == u;
    assert ReclaimFromIn(w, cfg, es, now) == u;
    assert [again][..0] + [again][1..] == [];
    assert FirstDue([again], now) == 0;
  }

  lemma PushFirst(cfg: Config, m: Message)
    ensures NextWorld(START, cfg, DoPush(m)) == World(EMPTY.(messages := [m]), multiset{}, {m.id}, {}, 0)
    ensures Permitted(Any, START, DoPush(m))
  {
    assert [] + [m] == [m];
  }

  /** The dead entry joins a list that has room, and the lease of the other token stays. */
  lemma BuryLate(w: World, cfg: Config, e: InFlight, entry: DeadEntry)
    requires w.q == EMPTY.(inFlight := [(entry.message.id, e)]) && e.leaseToken == "b" && cfg.maxDead >= 1
    ensures NextWorld(w, cfg, DoDeadLetter(entry, Some("a"))).q == w.q.(dead := [entry])
    ensures Permitted(Any, w, DoDeadLetter(entry, Some("a")))
  {
    assert !Holds(w.q, entry.message.id, Some("a"));
    assert [] + [entry] == [entry];
    var d := w.(q := w.q.(dead := [entry]));
    assert EvictMany(d, 0) == d;
  }

  lemma NoOps(w: World, cfg: Config)
    ensures RunOf(w, cfg, []) == w && RunPermitted(Any, w, cfg, [])
  {}

  lemma PopIsPermitted(w: World, now: int, token: Token)
    requires now <= w.clock && token !in w.issued
    ensures Permitted(Any, w, DoPop(now, now, token)) && (w.clock <= now ==> Permitted(Any, w, DoWait(now)))
  {}

  lemma WaitMeans(w: World, cfg: Config, now: int)
    requires w.clock <= now
    ensures NextWorld(w, cfg, DoWait(now)) == w.(clock := now) && Permitted(Any, w, DoWait(now))
  {}

  lemma LateIds(cfg: Config, m: Message)
    ensures var first := Delivered(m, "a"); var again := Expired(first, cfg.expiryError, cfg.visibility).(availableAt := cfg.visibility);
      && first.id == m.id && again.id == m.id && Delivered(again, "b").id == m.id
      && first.attempt == m.attempt && first.maxRetries == m.maxRetries && "a" != "b" && START.clock == 0
  {}

  lemma LateRunIs(m: Message, v: nat, entry: DeadEntry)
    ensures LateRun(m, v, entry) ==
      [DoPush(m)] + ([DoPop(0, 0, "a")] + ([DoWait(v)] + ([DoPop(v, v, "b")] + ([DoDeadLetter(entry, Some("a"))] + []))))
  {}

  lemma LateWorld(cfg: Config, m: Message, entry: DeadEntry)
    requires cfg.visibility >= 0 && cfg.maxDead >= 1 && m.availableAt <= 0 && m.attempt < m.maxRetries && entry.message.id == m.id
    ensures RunPermitted(Any, START, cfg, LateRun(m, cfg.visibility, entry))
    ensures var q := RunOf(START, cfg, LateRun(m, cfg.visibility, entry)).q;
      && q.dead == [entry] && |q.inFlight| == 1 && q.inFlight[0].0 == m.id && q.inFlight[0].1.leaseToken == "b"
      && q.inFlight[0].1.message.id == m.id
  {
    hide *;
    var v := cfg.visibility;
    var first := InFlight(Delivered(m, "a"), "a", v);
    var again := Expired(first.message, cfg.expiryError, v).(availableAt := v);
    var second := InFlight(Delivered(again, "b"), "b", v + v);
    LateIds(cfg, m);
    var last := [DoDeadLetter(entry, Some("a"))] + [];
    var pop2, wait := [DoPop(v, v, "b")] + last, [DoWait(v)] + ([DoPop(v, v, "b")] + last);
    LateRunIs(m, v, entry);
    var w0 := START;
    PushFirst(cfg, m);
    var w1 := NextWorld(w0, cfg, DoPush(m));
    FirstOp(w0, cfg, DoPush(m), [DoPop(0, 0, "a")] + wait);
    PopOne(w1, cfg, m, 0, "a");
    PopIsPermitted(w1, 0, "a");
    var w2 := NextWorld(w1, cfg, DoPop(0, 0, "a"));
    FirstOp(w1, cfg, DoPop(0, 0, "a"), wait);
    WaitMeans(w2, cfg, v);
    var w3 := NextWorld(w2, cfg, DoWait(v));
    FirstOp(w2, cfg, DoWait(v), pop2);
    ReclaimThenPopOne(w3, cfg, first, v);
    PopIsPermitted(w3, v, "b");
    var w4 := NextWorld(w3, cfg, DoPop(v, v, "b"));
    FirstOp(w3, cfg, DoPop(v, v, "b"), last);
    BuryLate(w4, cfg, second, entry);
    FirstOp(w4, cfg, DoDeadLetter(entry, Some("a")), []);
    NoOps(NextWorld(w4, cfg, DoDeadLetter(entry, Some("a"))), cfg);
  }

  /** A job in two places: in flight under its second lease, and dead under its first. */
  lemma LateDeadLetterDoubles(cfg: Config, m: Message, entry: DeadEntry)
    requires cfg.visibility >= 0 && cfg.maxDead >= 1 && m.availableAt <= 0 && m.attempt < m.maxRetries && entry.message.id == m.id
    ensures ExactlyOnePlace(Abstract(START))
    ensures var run := LateRun(m, cfg.visibility, entry); var s := Abstract(RunOf(START, cfg, run));
      && RunPermitted(Any, START, cfg, run)
      && (exists x, y :: x in s.slots && y in s.slots && x.Leased? && y.Dead? && SlotId(x) == SlotId(y) == m.id)
      && !ExactlyOnePlace(s)
  {
    hide *;
    StartsExactly();
    LateWorld(cfg, m, entry);
    var w := RunOf(START, cfg, LateRun(m, cfg.visibility, entry));
    InSlots(w, entry);
    TwoPlaces(Abstract(w), LeasedSlot(w.q.inFlight[0].1), Dead(entry));
  }

  lemma StartsExactly()
    ensures ExactlyOnePlace(Abstract(START))
  {
    hide ExactlyOnePlace;
    StartIsSafe(Guarded, 0);
  }

  lemma InSlots(w: World, entry: DeadEntry)
    requires w.q.dead == [entry] && |w.q.inFlight| == 1
    ensures var x := LeasedSlot(w.q.inFlight[0].1);
      && x in Abstract(w).slots && x.Leased? && SlotId(x) == w.q.inFlight[0].1.message.id
      && Dead(entry) in Abstract(w).slots && SlotId(Dead(entry)) == entry.message.id
  {
    assert LeasedSlots(w.q.inFlight)[0] in multiset(LeasedSlots(w.q.inFlight));
    assert DeadSlots(w.q.dead)[0] in multiset(DeadSlots(w.q.dead));
    hide LeasedSlots, DeadSlots, ReadySlots;
  }

  lemma TwoPlaces(s: State, x: Slot, y: Slot)
    requires x in s.slots && y in s.slots && x != y && SlotId(x) == SlotId(y)
    ensures !ExactlyOnePlace(s)
  {
    hide SlotId, AtLeastOnePlace, KnownJobs;
  }
}
