/** What the task worker does with a delivery (packages/core/src/task.ts). */
module TaskWorkerModel {
  // Which settling call it makes, and that those calls stay inside the retry budget on either
  // backend.

  import opened Options
  import opened QueueTypes
  import L = LeaseQueue
  import Memory = MemoryQueueModel
  import MemoryWorld = MemoryQueueRefinement
  import Redis = RedisQueueRefinement
  import Scripts = RedisScripts
  import JsMap
  import opened MemoryQueueClass

  datatype Outcome = Succeeded | Failed(error: string)

  datatype Verdict =
    | Finish                                // ack
    | Retry(delay: int, failure: Failure)   // nack
    | GiveUp(entry: DeadEntry)              // dead-letter

  function Pow2(n: int): int {
    if n <= 0 then 1 else 2 * Pow2(n - 1)
  }

  /** Exponential backoff, capped at 30 seconds. */
  function RetryDelay(attempt: int): int {
    if 1000 * Pow2(attempt) < 30000 then 1000 * Pow2(attempt) else 30000
  }

  function Bury(m: Message, error: string, failures: seq<Failure>, now: int): Verdict {
    GiveUp(DeadEntry(m.(failures := failures), error, failures, now))
  }

  /** `processMessage` and `handleFailure`; `retries` is None for a task that is not registered. */
  function Settle(m: Message, retries: Option<int>, outcome: Outcome, now: int): Verdict {
    if retries.None? then Bury(m, "Unknown task: \"" + m.taskName + "\"", [], now)
    else match outcome
      case Succeeded => Finish
      case Failed(error) =>
        var failure := Failure(m.attempt, error, now);
        if m.attempt < retries.value then Retry(RetryDelay(m.attempt), failure)
        else Bury(m, error, m.failures + [failure], now)
  }

  lemma {:induction false} Pow2Grows(m: int, n: int)
    requires m <= n
    ensures 1 <= Pow2(m) <= Pow2(n)
    decreases n
  {
    if n > 0 {
      Pow2Grows(if m < n then m else m - 1, n - 1);
      if m == n { Pow2Grows(m - 1, m - 1); }
    }
  }

  /** Each retry waits at least as long as the one before, between one and thirty seconds. */
  lemma BackoffIsMonotone(m: int, n: int)
    requires m <= n
    ensures 1000 <= RetryDelay(m) <= RetryDelay(n) <= 30000
  {
    Pow2Grows(m, n);
  }

  /** The first retry waits a second, and each wait is twice the last, up to thirty seconds. */
  lemma BackoffDoubles(n: nat)
    ensures RetryDelay(0) == 1000
    ensures RetryDelay(n + 1) == if 2 * RetryDelay(n) < 30000 then 2 * RetryDelay(n) else 30000
  {
    Pow2Grows(0, n);
  }

  /** The call a verdict makes on the in-memory queue. */
  function MemoryCall(v: Verdict, m: Message, token: Token, now: int): MemoryWorld.Op {
    match v
    case Finish => MemoryWorld.DoAck(m.id, Some(token))
    case Retry(delay, failure) => MemoryWorld.DoNack(m.id, now + delay, Some(token), Some(failure))
    case GiveUp(entry) => MemoryWorld.DoDeadLetter(entry, Some(token))
  }

  /** A delivery's message, in any later state of the in-memory queue. */
  lemma MemoryDelivery(w: MemoryWorld.World, cfg: Memory.Config, reclaimAt: int, popAt: int, token: Token, m: Message,
                       ops: seq<MemoryWorld.Op>)
    requires MemoryWorld.Valid(w.q) && L.Safe(L.Budgeted, MemoryWorld.Abstract(w))
    requires MemoryWorld.Permitted(L.Budgeted, w, MemoryWorld.DoPop(reclaimAt, popAt, token))
    requires Memory.TakeFirstDue(Memory.Reclaimed(w.q, cfg, reclaimAt), cfg, popAt, token).1 == Some(m)
    requires MemoryWorld.RunPermitted(L.Budgeted, MemoryWorld.NextWorld(w, cfg, MemoryWorld.DoPop(reclaimAt, popAt, token)), cfg, ops)
    ensures var u := MemoryWorld.RunOf(MemoryWorld.NextWorld(w, cfg, MemoryWorld.DoPop(reclaimAt, popAt, token)), cfg, ops);
      && m.id in u.pushed && L.HandedOut(m)
      && (Memory.Holds(u.q, m.id, Some(token)) ==> JsMap.Get(u.q.inFlight, m.id).message == m)
  {
    hide *;
    var op := MemoryWorld.DoPop(reclaimAt, popAt, token);
    var v := MemoryWorld.NextWorld(w, cfg, op);
    var u := MemoryWorld.RunOf(v, cfg, ops);
    var x := L.Leased(token, m, popAt + cfg.visibility);
    PoppedIsLeased(w, cfg, reclaimAt, popAt, token, m);
    OneOperation(w, cfg, op);
    MemoryWorld.MemoryQueueIsSafe(L.Budgeted, w, cfg, [op]);
    MemoryWorld.MemoryQueueIsSafe(L.Budgeted, v, cfg, ops);
    L.DeliveryIsRemembered(MemoryWorld.Abstract(v), MemoryWorld.Abstract(u), x);
    HeldIsLeased(u, m.id, token);
    MemoryPushedOf(u);
  }

  lemma MemoryPushedOf(w: MemoryWorld.World)
    ensures MemoryWorld.Abstract(w).pushed == w.pushed
  {}

  lemma OneOperation(w: MemoryWorld.World, cfg: Memory.Config, op: MemoryWorld.Op)
    requires MemoryWorld.Permitted(L.Budgeted, w, op)
    ensures MemoryWorld.RunOf(w, cfg, [op]) == MemoryWorld.NextWorld(w, cfg, op)
    ensures MemoryWorld.RunPermitted(L.Budgeted, w, cfg, [op])
  {
    hide MemoryWorld.NextWorld, MemoryWorld.Permitted;
    assert [op][1..] == [];
  }

  /** The popped message is in flight under its token. */
  lemma PoppedIsLeased(w: MemoryWorld.World, cfg: Memory.Config, reclaimAt: int, popAt: int, token: Token, m: Message)
    requires MemoryWorld.Valid(w.q) && MemoryWorld.Permitted(L.Budgeted, w, MemoryWorld.DoPop(reclaimAt, popAt, token))
    requires Memory.TakeFirstDue(Memory.Reclaimed(w.q, cfg, reclaimAt), cfg, popAt, token).1 == Some(m)
    ensures L.Leased(token, m, popAt + cfg.visibility) in
      MemoryWorld.Abstract(MemoryWorld.NextWorld(w, cfg, MemoryWorld.DoPop(reclaimAt, popAt, token))).slots
  {
    hide *;
    ReclaimThenTake(w, cfg, reclaimAt, popAt, token);
    var v := MemoryWorld.NextWorld(w, cfg, MemoryWorld.DoPop(reclaimAt, popAt, token));
    TakenIsHeld(Memory.Reclaimed(w.q, cfg, reclaimAt), cfg, popAt, token, m);
    EntryIsLeased(v, m.id);
  }

  lemma ReclaimThenTake(w: MemoryWorld.World, cfg: Memory.Config, reclaimAt: int, popAt: int, token: Token)
    requires MemoryWorld.Valid(w.q) && MemoryWorld.Permitted(L.Budgeted, w, MemoryWorld.DoPop(reclaimAt, popAt, token))
    ensures MemoryWorld.NextWorld(w, cfg, MemoryWorld.DoPop(reclaimAt, popAt, token)).q
      == Memory.TakeFirstDue(Memory.Reclaimed(w.q, cfg, reclaimAt), cfg, popAt, token).0
    ensures JsMap.UniqueKeys(Memory.Reclaimed(w.q, cfg, reclaimAt).inFlight)
  {
    MemoryWorld.StartsThere(w.q);
    MemoryWorld.ReclaimReaches(L.Budgeted, w, cfg, w.q.inFlight, reclaimAt);
    hide Memory.TakeFirstDue, L.ReachesBy, MemoryWorld.Abstract;
  }

  lemma TakenIsHeld(q: Memory.Mem, cfg: Memory.Config, popAt: int, token: Token, m: Message)
    requires JsMap.UniqueKeys(q.inFlight) && Memory.TakeFirstDue(q, cfg, popAt, token).1 == Some(m)
    ensures var r := Memory.TakeFirstDue(q, cfg, popAt, token).0;
      JsMap.Has(r.inFlight, m.id) && JsMap.Get(r.inFlight, m.id) == Memory.InFlight(m, token, popAt + cfg.visibility)
  {
    JsMap.PutKeepsUnique(q.inFlight, m.id, Memory.InFlight(m, token, popAt + cfg.visibility));
    hide JsMap.Put, JsMap.Get, JsMap.Has;
  }

  lemma EntryIsLeased(w: MemoryWorld.World, id: string)
    requires JsMap.Has(w.q.inFlight, id)
    ensures var e := JsMap.Get(w.q.inFlight, id); L.Leased(e.leaseToken, e.message, e.expiresAt) in MemoryWorld.Abstract(w).slots
  {
    var i := JsMap.Find(w.q.inFlight, id);
    assert MemoryWorld.LeasedSlots(w.q.inFlight)[i] in multiset(MemoryWorld.LeasedSlots(w.q.inFlight));
  }

  lemma HeldIsLeased(w: MemoryWorld.World, id: string, token: Token)
    ensures Memory.Holds(w.q, id, Some(token)) ==>
      var e := JsMap.Get(w.q.inFlight, id); L.Leased(token, e.message, e.expiresAt) in MemoryWorld.Abstract(w).slots
  {
    if Memory.Holds(w.q, id, Some(token)) { EntryIsLeased(w, id); }
  }

  /** A worker whose `retries` equals the job's `maxRetries` makes only calls the budget allows,
      whatever happened since its delivery: its lease may have expired, and the job may have been
      delivered again, settled, or buried. */
  lemma MemoryWorkerKeepsBudget(w: MemoryWorld.World, cfg: Memory.Config, reclaimAt: int, popAt: int, token: Token, m: Message,
                                ops: seq<MemoryWorld.Op>, retries: Option<int>, outcome: Outcome, now: int)
    requires MemoryWorld.Valid(w.q) && L.Safe(L.Budgeted, MemoryWorld.Abstract(w))
    requires MemoryWorld.Permitted(L.Budgeted, w, MemoryWorld.DoPop(reclaimAt, popAt, token))
    requires Memory.TakeFirstDue(Memory.Reclaimed(w.q, cfg, reclaimAt), cfg, popAt, token).1 == Some(m)
    requires MemoryWorld.RunPermitted(L.Budgeted, MemoryWorld.NextWorld(w, cfg, MemoryWorld.DoPop(reclaimAt, popAt, token)), cfg, ops)
    requires retries.Some? ==> retries.value == m.maxRetries
    ensures var u := MemoryWorld.RunOf(MemoryWorld.NextWorld(w, cfg, MemoryWorld.DoPop(reclaimAt, popAt, token)), cfg, ops);
      MemoryWorld.Permitted(L.Budgeted, u, MemoryCall(Settle(m, retries, outcome, now), m, token, now))
  {
    hide *;
    MemoryDelivery(w, cfg, reclaimAt, popAt, token, m, ops);
    var u := MemoryWorld.RunOf(MemoryWorld.NextWorld(w, cfg, MemoryWorld.DoPop(reclaimAt, popAt, token)), cfg, ops);
    MemoryCallIsPermitted(u, token, m, retries, outcome, now);
  }

  lemma MemoryCallIsPermitted(u: MemoryWorld.World, token: Token, m: Message, retries: Option<int>, outcome: Outcome, now: int)
    requires m.id in u.pushed && L.HandedOut(m) && (retries.Some? ==> retries.value == m.maxRetries)
    requires Memory.Holds(u.q, m.id, Some(token)) ==> JsMap.Get(u.q.inFlight, m.id).message == m
    ensures MemoryWorld.Permitted(L.Budgeted, u, MemoryCall(Settle(m, retries, outcome, now), m, token, now))
  {
    hide RetryDelay, JsMap.Find, L.FailuresNumbered;
  }

  /** Which operation a command belongs to. */
  predicate Touches(cmd: Redis.Cmd, op: Redis.OpId) {
    match cmd
    case NackTake(o, _) => o == op
    case NackPut(o, _, _, _) => o == op
    case TakeDeadCmd(o, _) => o == op
    case TakeOldestDead(o) => o == op
    case RedrivePut(o, _) => o == op
    case CrashOp(o) => o == op
    case _ => false
  }

  predicate SameHand(v: Redis.World, w: Redis.World, op: Redis.OpId) {
    && (JsMap.Has(v.hands, op) <==> JsMap.Has(w.hands, op))
    && (JsMap.Has(v.hands, op) ==> JsMap.Get(v.hands, op) == JsMap.Get(w.hands, op))
  }

  lemma {:induction false} TrimKeepsHands(c: Redis.Codec, w: Redis.World, n: nat)
    requires n <= |w.s.dead|
    ensures Redis.EvictTo(c, w, n).hands == w.hands
  {
    Redis.EvictToData(c, w, n);
  }

  /** A command of another operation leaves this one's hand as it was. */
  lemma CommandKeepsHand(c: Redis.Codec, cfg: Redis.Config, w: Redis.World, cmd: Redis.Cmd, op: Redis.OpId)
    requires JsMap.UniqueKeys(w.hands) && !Touches(cmd, op)
    ensures SameHand(Redis.NextWorld(c, cfg, w, cmd), w, op)
  {
    hide Scripts.PromoteScript, Scripts.ReapScript, Scripts.DrainScript, Scripts.ReleaseScript, Scripts.ExtendScript, Scripts.PopScript;
    hide Redis.Routed, Redis.Store, Redis.HandedMessage, Redis.ReadDead, Redis.EvictTo;
    match cmd
    case NackTake(o, lease) =>
      var e := Scripts.ReleaseScript(w.s, Redis.Prefix(lease)).1;
      if e.Some? { JsMap.PutKeepsOthers(w.hands, o, Redis.NackHand(e.value), op); }
    case NackPut(o, _, _, _) => JsMap.RemoveLeavesOther(w.hands, o, op);
    case TakeDeadCmd(o, raw) =>
      var i := Scripts.Position(w.s.dead, raw);
      if i < |w.s.dead| { JsMap.PutKeepsOthers(w.hands, o, Redis.RedriveHand(Redis.ReadDead(c, w.s.dead[i]).message), op); }
    case TakeOldestDead(o) =>
      if w.s.dead != [] {
        JsMap.PutKeepsOthers(w.hands, o, Redis.RedriveHand(Redis.ReadDead(c, w.s.dead[|w.s.dead| - 1]).message), op);
      }
    case RedrivePut(o, _) => JsMap.RemoveLeavesOther(w.hands, o, op);
    case CrashOp(o) => JsMap.RemoveLeavesOther(w.hands, o, op);
    case DeadLetterCmd(entry, owner) =>
      var u := Redis.Buried(c, w, entry, owner);
      TrimKeepsHands(c, u, |Scripts.Ltrim(u.s.dead, cfg.maxDead)|);
    case TrimCmd => TrimKeepsHands(c, w, |Scripts.Ltrim(w.s.dead, cfg.maxDead)|);
    case PurgeCmd => TrimKeepsHands(c, w, 0);
    case _ =>
  }

  lemma {:induction false} RunKeepsHand(c: Redis.Codec, cfg: Redis.Config, w: Redis.World, cmds: seq<Redis.Cmd>, op: Redis.OpId)
    requires Redis.Valid(c, w) && Redis.RunPermitted(L.Budgeted, c, cfg, w, cmds)
    requires forall k :: 0 <= k < |cmds| ==> !Touches(cmds[k], op)
    ensures SameHand(Redis.RunOf(c, cfg, w, cmds), w, op)
    decreases |cmds|
  {
    if cmds != [] {
      assert JsMap.UniqueKeys(w.hands);
      hide Redis.Valid, Redis.NextWorld, Redis.Permitted, Redis.Abstract, Touches;
      CommandKeepsHand(c, cfg, w, cmds[0], op);
      Redis.RedisQueueRefines(L.Budgeted, c, cfg, w, cmds[0]);
      RunKeepsHand(c, cfg, Redis.NextWorld(c, cfg, w, cmds[0]), cmds[1..], op);
    }
  }

  /** The message of the entry a pop moves to processing. */
  function Popped(c: Redis.Codec, w: Redis.World, token: Token): Option<Message> {
    if w.s.pending == [] then None else Some(Delivered(Redis.Read(c, w.s.pending[|w.s.pending| - 1]), token))
  }

  lemma PoppedIsOwned(c: Redis.Codec, cfg: Redis.Config, w: Redis.World, token: Token, expiry: int)
    requires '|' !in token && w.s.pending != []
    ensures var v := Redis.NextWorld(c, cfg, w, Redis.PopCmd(token, expiry));
      L.Leased(token, Popped(c, w, token).value, expiry) in Redis.Abstract(c, v).slots
  {
    var v := Redis.NextWorld(c, cfg, w, Redis.PopCmd(token, expiry));
    var raw := w.s.pending[|w.s.pending| - 1];
    Scripts.SplitUndoesJoin(token, raw);
    hide Redis.PendingSlots, Redis.DelayedSlots, Redis.ReclaimSlots, Redis.DeadSlots, Redis.HandSlots, Scripts.TokenOf, Scripts.RawOf;
    var slots := Redis.ProcessingSlots(c, v.s.leases, v.s.processing);
    assert slots[0] == L.Leased(token, Popped(c, w, token).value, expiry);
    assert slots[0] in multiset(slots);
  }

  lemma OwnedIsLeased(c: Redis.Codec, w: Redis.World, token: Token)
    requires Redis.Valid(c, w) && '|' !in token && Redis.Owns(w.s, token)
    ensures var e := Redis.OwnedEntry(w.s, token);
      exists y :: y in Redis.Abstract(c, w).slots && y.Leased? && y.token == token && y.m == Redis.HandedMessage(c, e)
  {
    Redis.OwnedByToken(c, w, token);
    var e := Redis.OwnedEntry(w.s, token);
    hide Redis.PendingSlots, Redis.DelayedSlots, Redis.ReclaimSlots, Redis.DeadSlots, Redis.HandSlots, Scripts.TokenOf, Redis.HandedMessage, Redis.LeasesOk;
    var slots := Redis.ProcessingSlots(c, w.s.leases, w.s.processing);
    assert slots[Scripts.Position(w.s.processing, e)] == Redis.LeaseSlot(c, w.s.leases, e);
    assert Redis.LeaseSlot(c, w.s.leases, e) in multiset(slots);
  }

  /** A delivery's message, after any interleaving of any processes. */
  lemma RedisDelivery(c: Redis.Codec, cfg: Redis.Config, w: Redis.World, token: Token, expiry: int, m: Message, cmds: seq<Redis.Cmd>)
    requires Redis.Valid(c, w) && L.Safe(L.Budgeted, Redis.Abstract(c, w))
    requires Redis.Permitted(L.Budgeted, c, w, Redis.PopCmd(token, expiry)) && Popped(c, w, token) == Some(m)
    requires Redis.RunPermitted(L.Budgeted, c, cfg, Redis.NextWorld(c, cfg, w, Redis.PopCmd(token, expiry)), cmds)
    ensures var u := Redis.RunOf(c, cfg, Redis.NextWorld(c, cfg, w, Redis.PopCmd(token, expiry)), cmds);
      && Redis.Valid(c, u) && m.id in u.pushed && L.HandedOut(m)
      && (Redis.Owns(u.s, token) ==> Redis.HandedMessage(c, Redis.OwnedEntry(u.s, token)) == m)
  {
    var cmd := Redis.PopCmd(token, expiry);
    var v := Redis.NextWorld(c, cfg, w, cmd);
    var u := Redis.RunOf(c, cfg, v, cmds);
    assert '|' !in token && w.s.pending != [];
    PoppedIsOwned(c, cfg, w, token, expiry);
    hide *;
    Redis.RedisQueueRefines(L.Budgeted, c, cfg, w, cmd);
    L.ReachableIsSafe(L.Budgeted, Redis.Abstract(c, w), Redis.Abstract(c, v), Redis.HandedBy(c, w, cmd), Redis.RedrivenBy(c, w, cmd));
    Redis.RedisQueueIsSafe(L.Budgeted, c, cfg, v, cmds);
    L.DeliveryIsRemembered(Redis.Abstract(c, v), Redis.Abstract(c, u), L.Leased(token, m, expiry));
    if Redis.Owns(u.s, token) { OwnedIsLeased(c, u, token); }
    PushedOf(c, u);
  }

  lemma PushedOf(c: Redis.Codec, w: Redis.World)
    ensures Redis.Abstract(c, w).pushed == w.pushed
  {}

  /** The same on Redis, after any interleaving; a retry is two commands, with the message in hand
      between them while any other processes go on. */
  lemma RedisWorkerKeepsBudget(c: Redis.Codec, cfg: Redis.Config, w: Redis.World, token: Token, expiry: int, m: Message,
                               cmds: seq<Redis.Cmd>, retries: Option<int>, outcome: Outcome, now: int, op: Redis.OpId, between: seq<Redis.Cmd>)
    requires Redis.Valid(c, w) && L.Safe(L.Budgeted, Redis.Abstract(c, w))
    requires Redis.Permitted(L.Budgeted, c, w, Redis.PopCmd(token, expiry)) && Popped(c, w, token) == Some(m)
    requires Redis.RunPermitted(L.Budgeted, c, cfg, Redis.NextWorld(c, cfg, w, Redis.PopCmd(token, expiry)), cmds)
    requires retries.Some? ==> retries.value == m.maxRetries
    ensures var u := Redis.RunOf(c, cfg, Redis.NextWorld(c, cfg, w, Redis.PopCmd(token, expiry)), cmds);
      match Settle(m, retries, outcome, now)
      case Finish => Redis.Permitted(L.Budgeted, c, u, Redis.AckCmd(token))
      case GiveUp(entry) => Redis.Permitted(L.Budgeted, c, u, Redis.DeadLetterCmd(entry, Some(token)))
      case Retry(delay, failure) => !JsMap.Has(u.hands, op) ==> RetryKeepsBudget(c, cfg, u, token, op, now, delay, failure, between)
  {
    assert '|' !in token && token != "";
    hide *;
    RedisDelivery(c, cfg, w, token, expiry, m, cmds);
    var u := Redis.RunOf(c, cfg, Redis.NextWorld(c, cfg, w, Redis.PopCmd(token, expiry)), cmds);
    RedisCallIsPermitted(c, cfg, u, token, m, retries, outcome, now, op, between);
  }

  lemma RedisCallIsPermitted(c: Redis.Codec, cfg: Redis.Config, u: Redis.World, token: Token, m: Message,
                             retries: Option<int>, outcome: Outcome, now: int, op: Redis.OpId, between: seq<Redis.Cmd>)
    requires Redis.Valid(c, u) && '|' !in token && token != ""
    requires m.id in u.pushed && L.HandedOut(m) && (retries.Some? ==> retries.value == m.maxRetries)
    requires Redis.Owns(u.s, token) ==> Redis.HandedMessage(c, Redis.OwnedEntry(u.s, token)) == m
    ensures match Settle(m, retries, outcome, now)
      case Finish => Redis.Permitted(L.Budgeted, c, u, Redis.AckCmd(token))
      case GiveUp(entry) => Redis.Permitted(L.Budgeted, c, u, Redis.DeadLetterCmd(entry, Some(token)))
      case Retry(delay, failure) => !JsMap.Has(u.hands, op) ==> RetryKeepsBudget(c, cfg, u, token, op, now, delay, failure, between)
  {
    var verdict := Settle(m, retries, outcome, now);
    if verdict.Retry? && !JsMap.Has(u.hands, op) {
      RetryIsWithinBudget(c, cfg, u, token, m, op, now, verdict.delay, verdict.failure, between);
    }
    hide Redis.Valid, RetryDelay, RetryKeepsBudget, Redis.HandedMessage, Redis.Owns, Redis.OwnedEntry, JsMap.Has, L.FailuresNumbered;
  }

  /** Both commands of a retry are allowed, whatever others do between them. */
  ghost predicate RetryKeepsBudget(c: Redis.Codec, cfg: Redis.Config, u: Redis.World, token: Token, op: Redis.OpId,
                                   now: int, delay: int, failure: Failure, between: seq<Redis.Cmd>) {
    var x := Redis.NextWorld(c, cfg, u, Redis.NackTake(op, token));
    && Redis.Permitted(L.Budgeted, c, u, Redis.NackTake(op, token))
    && (Redis.RunPermitted(L.Budgeted, c, cfg, x, between) && (forall k :: 0 <= k < |between| ==> !Touches(between[k], op))
        && now <= Redis.RunOf(c, cfg, x, between).clock ==>
          Redis.Permitted(L.Budgeted, c, Redis.RunOf(c, cfg, x, between), Redis.NackPut(op, now, delay, Some(failure))))
  }

  lemma RetryIsWithinBudget(c: Redis.Codec, cfg: Redis.Config, u: Redis.World, token: Token, m: Message, op: Redis.OpId,
                            now: int, delay: int, failure: Failure, between: seq<Redis.Cmd>)
    requires Redis.Valid(c, u) && '|' !in token && !JsMap.Has(u.hands, op)
    requires Redis.Owns(u.s, token) ==> Redis.HandedMessage(c, Redis.OwnedEntry(u.s, token)) == m
    requires failure.attempt == m.attempt < m.maxRetries
    ensures RetryKeepsBudget(c, cfg, u, token, op, now, delay, failure, between)
  {
    hide *;
    var x := Redis.NextWorld(c, cfg, u, Redis.NackTake(op, token));
    TakenHand(c, cfg, u, token, op);
    TakeIsPermitted(c, u, token, op);
    Redis.RedisQueueRefines(L.Budgeted, c, cfg, u, Redis.NackTake(op, token));
    if Redis.RunPermitted(L.Budgeted, c, cfg, x, between) && (forall k :: 0 <= k < |between| ==> !Touches(between[k], op))
      && now <= Redis.RunOf(c, cfg, x, between).clock
    {
      RunKeepsHand(c, cfg, x, between, op);
      PutIsPermitted(c, x, Redis.RunOf(c, cfg, x, between), u, token, m, op, now, delay, failure);
    }
    RetryMeans(c, cfg, u, token, op, now, delay, failure, between);
  }

  lemma TakeIsPermitted(c: Redis.Codec, u: Redis.World, token: Token, op: Redis.OpId)
    requires '|' !in token && !JsMap.Has(u.hands, op)
    ensures Redis.Permitted(L.Budgeted, c, u, Redis.NackTake(op, token))
  {}

  lemma PutIsPermitted(c: Redis.Codec, x: Redis.World, y: Redis.World, u: Redis.World, token: Token, m: Message, op: Redis.OpId,
                       now: int, delay: int, failure: Failure)
    requires SameHand(y, x, op) && now <= y.clock && failure.attempt == m.attempt < m.maxRetries
    requires JsMap.Has(x.hands, op) ==> Redis.Owns(u.s, token) && JsMap.Get(x.hands, op) == Redis.NackHand(Redis.OwnedEntry(u.s, token))
    requires Redis.Owns(u.s, token) ==> Redis.HandedMessage(c, Redis.OwnedEntry(u.s, token)) == m
    ensures Redis.Permitted(L.Budgeted, c, y, Redis.NackPut(op, now, delay, Some(failure)))
  {
    hide Redis.Owns, Redis.OwnedEntry, Redis.HandedMessage, JsMap.Find;
  }

  lemma RetryMeans(c: Redis.Codec, cfg: Redis.Config, u: Redis.World, token: Token, op: Redis.OpId,
                   now: int, delay: int, failure: Failure, between: seq<Redis.Cmd>)
    requires Redis.Permitted(L.Budgeted, c, u, Redis.NackTake(op, token))
    requires var x := Redis.NextWorld(c, cfg, u, Redis.NackTake(op, token));
      Redis.RunPermitted(L.Budgeted, c, cfg, x, between) && (forall k :: 0 <= k < |between| ==> !Touches(between[k], op))
      && now <= Redis.RunOf(c, cfg, x, between).clock ==>
        Redis.Permitted(L.Budgeted, c, Redis.RunOf(c, cfg, x, between), Redis.NackPut(op, now, delay, Some(failure)))
    ensures RetryKeepsBudget(c, cfg, u, token, op, now, delay, failure, between)
  {
    hide Redis.NextWorld, Redis.RunOf, Redis.RunPermitted, Redis.Permitted, Touches;
  }

  /** What a nack holds between its commands. */
  lemma TakenHand(c: Redis.Codec, cfg: Redis.Config, u: Redis.World, token: Token, op: Redis.OpId)
    requires Redis.Valid(c, u) && '|' !in token && !JsMap.Has(u.hands, op)
    ensures var x := Redis.NextWorld(c, cfg, u, Redis.NackTake(op, token));
      JsMap.Has(x.hands, op) ==> Redis.Owns(u.s, token) && JsMap.Get(x.hands, op) == Redis.NackHand(Redis.OwnedEntry(u.s, token))
  {
    Redis.OwnedByToken(c, u, token);
    if Redis.Owns(u.s, token) { JsMap.PutKeepsUnique(u.hands, op, Redis.NackHand(Redis.OwnedEntry(u.s, token))); }
    hide Scripts.ReleaseScript, Redis.LeasesOk;
  }

  /** What happens while a pop is awaited: jobs finish, the worker is stopped, or the pop is
      rejected. */
  datatype Await = Await(token: Token, finished: nat, stopped: bool, rejected: bool)

  class TaskWorker {
    var running: bool
    var activeJobs: nat
    const concurrency: nat

    constructor (concurrency: nat)
      ensures !running && activeJobs == 0 && this.concurrency == concurrency
    {
      running, activeJobs, this.concurrency := false, 0, concurrency;
    }

    /** One poll: start jobs until the worker is full, stopped, or finds nothing due, or a pop is
        rejected. `pops` are the pops the poll may come to, `made` those it made, and `finished`
        the jobs that ended meanwhile. */
    method Tick(queue: MemoryQueue, now: int, pops: seq<Await>)
        returns (started: seq<QueueMessage>, made: nat, finished: nat)
      requires queue.Valid()
      modifies this`activeJobs, this`running, queue, queue.Cells()
      ensures queue.Valid() && queue.Cells() <= old(queue.Cells())
      ensures |started| <= made <= |pops| && activeJobs + finished == old(activeJobs) + |started|
      ensures activeJobs <= old(activeJobs) || activeJobs <= concurrency
      ensures running <==> old(running) && forall k :: 0 <= k < made ==> !pops[k].stopped
      ensures made < |pops| ==>
        || activeJobs >= concurrency || !running || (made > 0 && pops[made - 1].rejected)
        || Memory.FirstDue(queue.View().messages, now) == |queue.View().messages|
      ensures !old(running) ==> made == 0 && queue.View() == old(queue.View())
    {
      hide Memory.Reclaimed, Memory.TakeFirstDue, Memory.FirstDue, MemoryQueue.Valid, MemoryQueue.View, MemoryQueue.Cells;
      started, made, finished := [], 0, 0;
      while activeJobs < concurrency && running && made < |pops|
        invariant queue.Valid() && queue.Cells() <= old(queue.Cells())
        invariant |started| <= made <= |pops| && activeJobs + finished == old(activeJobs) + |started|
        invariant activeJobs <= old(activeJobs) || activeJobs <= concurrency
        invariant running <==> old(running) && forall k :: 0 <= k < made ==> !pops[k].stopped
        invariant !old(running) ==> made == 0 && queue.View() == old(queue.View())
        decreases |pops| - made
      {
        var during := pops[made];
        made := made + 1;
        var ended := if during.finished <= activeJobs then during.finished else activeJobs;
        activeJobs, finished := activeJobs - ended, finished + ended;
        if during.stopped { running := false; }
        if during.rejected { break; }
        ghost var before := Memory.Reclaimed(queue.View(), queue.cfg, now);
        var message := queue.Pop(now, now, during.token);
        if message == null {
          NothingTaken(before, queue.cfg, now, during.token);
          break;
        }
        activeJobs := activeJobs + 1;
        started := started + [message];
      }
    }
  }

  lemma NothingTaken(q: Memory.Mem, cfg: Memory.Config, now: int, token: Token)
    requires Memory.TakeFirstDue(q, cfg, now, token).1.None?
    ensures Memory.TakeFirstDue(q, cfg, now, token).0 == q && Memory.FirstDue(q.messages, now) == |q.messages|
  {}
}
