/** Workers and the Redis store together: what becomes of a job by what its handler does
    (packages/core/src/task.ts, packages/queue-redis/src/index.ts). */
module RedisTasks {
  // Any number of workers poll, run handlers, send heartbeats and settle, a retry by two commands, while
  // reapers and administrators go on and operations crash. The theorems speak of the store only.

  import opened Options
  import opened QueueTypes
  import opened JsMap
  import L = LeaseQueue
  import F = LeaseQueueFailures
  import opened RedisScripts
  import opened R = RedisQueueRefinement
  import opened TaskWorkerModel

  /** The store, the deliveries whose handlers have not ended, and the retries between their commands. */
  datatype System = System(w: World, active: map<Token, Message>, retrying: map<OpId, (int, Failure)>)

  datatype Act =
    | Enqueue(m: Message, now: int)
    | Poll(token: Token, expiry: int)
    | Beat(token: Token, expiry: int)
    | End(token: Token, retries: Option<int>, outcome: Outcome, now: int, op: OpId)
    | StoreAgain(op: OpId, now: int)
    | Abandon(token: Token)
    | Other(cmd: Cmd)

  function VerdictOf(y: System, act: Act): Option<Verdict> {
    if act.End? && act.token in y.active then Some(Settle(y.active[act.token], act.retries, act.outcome, act.now)) else None
  }

  function SettlingCmd(v: Verdict, token: Token, op: OpId): Cmd {
    match v
    case Finish => AckCmd(token)
    case Retry(_, _) => NackTake(op, token)
    case GiveUp(entry) => DeadLetterCmd(entry, Some(token))
  }

  /** The command an act issues, if any. */
  function CmdOf(y: System, act: Act): Option<Cmd> {
    match act
    case Enqueue(m, now) => Some(PushCmd(m, now))
    case Poll(token, expiry) => Some(PopCmd(token, expiry))
    case Beat(token, expiry) => if token in y.active then Some(ExtendCmd(token, expiry)) else None
    case End(token, _, _, _, op) =>
      if VerdictOf(y, act).Some? then Some(SettlingCmd(VerdictOf(y, act).value, token, op)) else None
    case StoreAgain(op, now) =>
      if op in y.retrying then Some(NackPut(op, now, y.retrying[op].0, Some(y.retrying[op].1))) else None
    case Abandon(_) => None
    case Other(cmd) => Some(cmd)
  }

  function Handed(c: Codec, y: System, act: Act): Option<Message> {
    if act.Poll? then Popped(c, y.w, act.token) else None
  }

  function NextStore(c: Codec, cfg: Config, y: System, act: Act): World {
    match CmdOf(y, act) case Some(cmd) => NextWorld(c, cfg, y.w, cmd) case None => y.w
  }

  function NextActive(c: Codec, y: System, act: Act): map<Token, Message> {
    match act
    case Poll(token, _) => if Handed(c, y, act).Some? then y.active[token := Handed(c, y, act).value] else y.active
    case End(token, _, _, _, _) => y.active - {token}
    case Abandon(token) => y.active - {token}
    case _ => y.active
  }

  function NextRetrying(y: System, act: Act): map<OpId, (int, Failure)> {
    match act
    case End(_, _, _, _, op) =>
      var v := VerdictOf(y, act);
      if v.Some? && v.value.Retry? then y.retrying[op := (v.value.delay, v.value.failure)] else y.retrying
    case StoreAgain(op, _) => y.retrying - {op}
    case _ => y.retrying
  }

  function NextSystem(c: Codec, cfg: Config, y: System, act: Act): System {
    System(NextStore(c, cfg, y, act), NextActive(c, y, act), NextRetrying(y, act))
  }

  /** Commands that are no worker's. */
  predicate Foreign(cmd: Cmd) {
    !cmd.PushCmd? && !cmd.PopCmd? && !cmd.AckCmd? && !cmd.NackTake? && !cmd.NackPut? && !cmd.ExtendCmd? && !cmd.DeadLetterCmd?
  }

  predicate TakesOp(cmd: Cmd, op: OpId) { (cmd.TakeDeadCmd? && cmd.op == op) || (cmd.TakeOldestDead? && cmd.op == op) }

  /** Fresh ids of jobs made by `createEnqueue`, fresh tokens and operations, clocks that do not go
      back, and workers whose `retries` is the one the job was enqueued with. */
  ghost predicate Proper(c: Codec, y: System, act: Act) {
    match act
    case Enqueue(m, now) => m.id !in y.w.pushed && L.Enqueued(m) && now <= y.w.clock
    case Poll(token, _) => token !in y.w.issued && token != "" && '|' !in token
    case End(token, retries, _, _, op) =>
      && (token in y.active && retries.Some? ==> retries.value == y.active[token].maxRetries)
      && !Has(y.w.hands, op) && op !in y.retrying
    case StoreAgain(_, now) => now <= y.w.clock
    case Other(cmd) => Foreign(cmd) && Permitted(L.Budgeted, c, y.w, cmd) && forall op :: op in y.retrying ==> !TakesOp(cmd, op)
    case _ => true
  }

  /** Whoever still carries the token carries this message. */
  ghost predicate Remembered(s: L.State, token: Token, m: Message) {
    && m.id in s.pushed && L.HandedOut(m) && token in s.issued && token != "" && '|' !in token
    && forall x :: x in s.slots && L.Tokened(x) && x.token == token ==> x.m == m
  }

  /** What a retry holds between its commands: a delivery of the reported attempt, within its retries. */
  predicate Retryable(c: Codec, w: World, op: OpId, failure: Failure) {
    Has(w.hands, op) ==>
      var h := Get(w.hands, op);
      h.NackHand? && failure.attempt == HandedMessage(c, h.entry).attempt < HandedMessage(c, h.entry).maxRetries
  }

  ghost predicate Working(c: Codec, y: System) {
    && Valid(c, y.w) && L.Safe(L.Budgeted, Abstract(c, y.w))
    && (forall token :: token in y.active ==> Remembered(Abstract(c, y.w), token, y.active[token]))
    && (forall op :: op in y.retrying ==> Retryable(c, y.w, op, y.retrying[op].1))
  }

  lemma WorkingIs(c: Codec, y: System)
    requires Working(c, y)
    ensures Valid(c, y.w) && L.Safe(L.Budgeted, Abstract(c, y.w))
  {}

  lemma RememberedStays(s: L.State, t: L.State, token: Token, m: Message)
    requires Remembered(s, token, m) && L.NothingRevived(s, t)
    ensures Remembered(t, token, m)
  {
    forall x | x in t.slots && L.Tokened(x) && x.token == token ensures x.m == m {
      assert L.CarriedAs(t, token, x.m);
      assert L.CarriedAs(s, token, x.m);
    }
  }

  lemma ActiveIs(c: Codec, y: System, act: Act)
    ensures forall token :: token in NextActive(c, y, act) ==>
      || (token in y.active && NextActive(c, y, act)[token] == y.active[token])
      || (act.Poll? && token == act.token && Handed(c, y, act) == Some(NextActive(c, y, act)[token]))
  {
    hide Popped;
  }

  lemma ActiveIsRemembered(c: Codec, y: System, token: Token)
    requires Working(c, y) && token in y.active
    ensures Remembered(Abstract(c, y.w), token, y.active[token])
  {}

  lemma OwnedIsRemembered(c: Codec, y: System, token: Token)
    requires Working(c, y) && token in y.active
    ensures var m := y.active[token];
      && m.id in y.w.pushed && L.HandedOut(m) && '|' !in token && token != ""
      && (Owns(y.w.s, token) ==> HandedMessage(c, OwnedEntry(y.w.s, token)) == m)
  {
    hide *;
    WorkingIs(c, y);
    ActiveIsRemembered(c, y, token);
    RememberedIs(c, y.w, token, y.active[token]);
    if Owns(y.w.s, token) {
      OwnedIsLeased(c, y.w, token);
      var x :| x in Abstract(c, y.w).slots && x.Leased? && x.token == token && x.m == HandedMessage(c, OwnedEntry(y.w.s, token));
      CarriesIt(Abstract(c, y.w), token, y.active[token], x);
    }
  }

  lemma RememberedIs(c: Codec, w: World, token: Token, m: Message)
    requires Remembered(Abstract(c, w), token, m)
    ensures m.id in w.pushed && L.HandedOut(m) && '|' !in token && token != ""
  {}

  lemma CarriesIt(s: L.State, token: Token, m: Message, x: L.Slot)
    requires Remembered(s, token, m) && x in s.slots && x.Leased? && x.token == token
    ensures x.m == m
  {
    assert L.Tokened(x);
  }

  // ---- Every call is within the budget ----

  lemma CmdOfEnd(y: System, act: Act)
    requires act.End?
    ensures VerdictOf(y, act) ==
      if act.token in y.active then Some(Settle(y.active[act.token], act.retries, act.outcome, act.now)) else None
    ensures CmdOf(y, act) ==
      if act.token !in y.active then None
      else Some(SettlingCmd(Settle(y.active[act.token], act.retries, act.outcome, act.now), act.token, act.op))
  {
    hide Settle, SettlingCmd;
  }

  lemma OtherCmdIsPermitted(mode: L.Mode, c: Codec, y: System, act: Act)
    requires Working(c, y) && Proper(c, y, act) && !act.End? && CmdOf(y, act).Some? && L.Budget(mode)
    requires mode.Failing? && act.Other? && act.cmd.CrashOp? && Has(y.w.hands, act.cmd.op) ==>
      L.SlotId(HandSlot(c, Get(y.w.hands, act.cmd.op))) != mode.job
    ensures Permitted(mode, c, y.w, CmdOf(y, act).value)
  {
    hide L.Enqueued, Settle, Valid, Abstract, L.Safe, HandedMessage, Find, L.HandedOut, Owns, OwnedEntry;
  }

  lemma EndIsProper(c: Codec, y: System, act: Act)
    requires Proper(c, y, act) && act.End?
    ensures act.token in y.active && act.retries.Some? ==> act.retries.value == y.active[act.token].maxRetries
    ensures !Has(y.w.hands, act.op) && act.op !in y.retrying
  {}

  lemma BudgetedHasBudget()
    ensures L.Budget(L.Budgeted) && forall id, n :: L.Budget(L.Failing(id, n))
  {}

  lemma SettlingIsPermitted(c: Codec, u: World, token: Token, m: Message, retries: Option<int>, outcome: Outcome, now: int, op: OpId)
    requires Valid(c, u) && '|' !in token && token != "" && !Has(u.hands, op)
    requires m.id in u.pushed && L.HandedOut(m) && (retries.Some? ==> retries.value == m.maxRetries)
    requires Owns(u.s, token) ==> HandedMessage(c, OwnedEntry(u.s, token)) == m
    ensures Permitted(L.Budgeted, c, u, SettlingCmd(Settle(m, retries, outcome, now), token, op))
  {
    hide Valid, RetryDelay, HandedMessage, Owns, OwnedEntry, Find, L.FailuresNumbered;
  }

  lemma CallIsPermitted(c: Codec, y: System, act: Act)
    requires Working(c, y) && Proper(c, y, act) && CmdOf(y, act).Some?
    ensures Permitted(L.Budgeted, c, y.w, CmdOf(y, act).value)
  {
    hide *;
    if act.End? {
      CmdOfEnd(y, act);
      OwnedIsRemembered(c, y, act.token);
      EndIsProper(c, y, act);
      WorkingIs(c, y);
      SettlingIsPermitted(c, y.w, act.token, y.active[act.token], act.retries, act.outcome, act.now, act.op);
    } else {
      BudgetedHasBudget();
      OtherCmdIsPermitted(L.Budgeted, c, y, act);
    }
  }

  lemma NextStoreIs(c: Codec, cfg: Config, y: System, act: Act)
    ensures NextStore(c, cfg, y, act) == if CmdOf(y, act).Some? then NextWorld(c, cfg, y.w, CmdOf(y, act).value) else y.w
  {
    hide NextWorld, CmdOf;
  }

  lemma NothingIsRevived(s: L.State)
    ensures L.NothingRevived(s, s)
  {}

  lemma StoreStaysSafe(c: Codec, cfg: Config, y: System, act: Act)
    requires Working(c, y) && Proper(c, y, act)
    ensures var v := NextStore(c, cfg, y, act);
      Valid(c, v) && L.Safe(L.Budgeted, Abstract(c, v)) && L.NothingRevived(Abstract(c, y.w), Abstract(c, v))
  {
    hide *;
    WorkingIs(c, y);
    NextStoreIs(c, cfg, y, act);
    if CmdOf(y, act).Some? {
      var cmd := CmdOf(y, act).value;
      CallIsPermitted(c, y, act);
      RedisQueueRefines(L.Budgeted, c, cfg, y.w, cmd);
      L.ReachableIsSafe(L.Budgeted, Abstract(c, y.w), Abstract(c, NextWorld(c, cfg, y.w, cmd)), HandedBy(c, y.w, cmd), RedrivenBy(c, y.w, cmd));
    } else {
      NothingIsRevived(Abstract(c, y.w));
    }
  }

  lemma PollIs(c: Codec, cfg: Config, y: System, act: Act)
    requires act.Poll?
    ensures CmdOf(y, act) == Some(PopCmd(act.token, act.expiry)) && Handed(c, y, act) == Popped(c, y.w, act.token)
    ensures NextStore(c, cfg, y, act) == NextWorld(c, cfg, y.w, PopCmd(act.token, act.expiry))
    ensures Popped(c, y.w, act.token).Some? <==> y.w.s.pending != []
  {
    hide NextWorld, Read;
  }

  lemma HandedIs(c: Codec, cfg: Config, y: System, act: Act)
    requires Proper(c, y, act) && act.Poll? && Handed(c, y, act).Some?
    ensures L.Leased(act.token, Handed(c, y, act).value, act.expiry) in Abstract(c, NextStore(c, cfg, y, act)).slots
    ensures act.token != "" && '|' !in act.token
  {
    assert act.token != "" && '|' !in act.token;
    hide *;
    PollIs(c, cfg, y, act);
    PoppedIsOwned(c, cfg, y.w, act.token, act.expiry);
  }

  lemma LeasedIsRemembered(s: L.State, x: L.Slot)
    requires L.Safe(L.Budgeted, s) && x in s.slots && x.Leased? && x.token != "" && '|' !in x.token
    ensures Remembered(s, x.token, x.m)
  {
    assert L.WithinBudget(x) && L.SlotId(x) in s.pushed && L.Tokened(x);
    hide L.HandedOut;
  }

  lemma OnlyPollsHand(c: Codec, y: System, act: Act)
    ensures Handed(c, y, act).Some? ==> act.Poll?
    ensures Proper(c, y, act) && !act.Poll? && CmdOf(y, act).Some? ==> !CmdOf(y, act).value.PopCmd?
  {
    hide Settle, Popped, Permitted;
  }

  lemma RetriesStay(c: Codec, cfg: Config, y: System, act: Act)
    requires Working(c, y) && Proper(c, y, act)
    ensures forall op :: op in NextRetrying(y, act) ==> Retryable(c, NextStore(c, cfg, y, act), op, NextRetrying(y, act)[op].1)
  {
    hide *;
    NextStoreIs(c, cfg, y, act);
    forall op | op in NextRetrying(y, act) ensures Retryable(c, NextStore(c, cfg, y, act), op, NextRetrying(y, act)[op].1) {
      if op in y.retrying && NextRetrying(y, act)[op] == y.retrying[op] {
        OldRetryStays(c, cfg, y, act, op);
      } else {
        NewRetryHolds(c, cfg, y, act, op);
      }
    }
  }

  lemma RetryingIs(c: Codec, y: System, op: OpId)
    requires Working(c, y) && op in y.retrying
    ensures Retryable(c, y.w, op, y.retrying[op].1) && UniqueKeys(y.w.hands)
  {}

  lemma UntouchedBy(c: Codec, y: System, act: Act, op: OpId)
    requires Proper(c, y, act) && op in y.retrying && op in NextRetrying(y, act) && CmdOf(y, act).Some?
    ensures Touches(CmdOf(y, act).value, op) ==> CmdOf(y, act).value.RedrivePut? || CmdOf(y, act).value.CrashOp?
  {
    hide Settle, Permitted;
  }

  lemma OldRetryStays(c: Codec, cfg: Config, y: System, act: Act, op: OpId)
    requires Working(c, y) && Proper(c, y, act) && op in y.retrying && op in NextRetrying(y, act)
    ensures Retryable(c, NextStore(c, cfg, y, act), op, y.retrying[op].1)
  {
    hide *;
    NextStoreIs(c, cfg, y, act);
    RetryingIs(c, y, op);
    if CmdOf(y, act).Some? {
      var cmd := CmdOf(y, act).value;
      UntouchedBy(c, y, act, op);
      if Touches(cmd, op) {
        PutOrCrashStays(c, cfg, y.w, cmd, op, y.retrying[op].1);
      } else {
        CommandKeepsHand(c, cfg, y.w, cmd, op);
        SameHandStays(c, NextWorld(c, cfg, y.w, cmd), y.w, op, y.retrying[op].1);
      }
    }
  }

  lemma PutOrCrashStays(c: Codec, cfg: Config, w: World, cmd: Cmd, op: OpId, failure: Failure)
    requires Retryable(c, w, op, failure) && UniqueKeys(w.hands) && Touches(cmd, op) && (cmd.RedrivePut? || cmd.CrashOp?)
    ensures Retryable(c, NextWorld(c, cfg, w, cmd), op, failure)
  {
    RemoveKeepsUnique(w.hands, op);
    hide HandedMessage, Store, Remove, Find;
  }

  lemma SameHandStays(c: Codec, v: World, w: World, op: OpId, failure: Failure)
    requires SameHand(v, w, op) && Retryable(c, w, op, failure)
    ensures Retryable(c, v, op, failure)
  {
    hide HandedMessage, Find;
  }

  lemma NewRetryIs(y: System, act: Act, op: OpId)
    requires op in NextRetrying(y, act) && !(op in y.retrying && NextRetrying(y, act)[op] == y.retrying[op])
    ensures act.End? && act.token in y.active && op == act.op
    ensures var v := Settle(y.active[act.token], act.retries, act.outcome, act.now); v.Retry? && NextRetrying(y, act)[op] == (v.delay, v.failure)
  {
    hide Settle;
  }

  lemma NewRetryHolds(c: Codec, cfg: Config, y: System, act: Act, op: OpId)
    requires Working(c, y) && Proper(c, y, act) && op in NextRetrying(y, act)
    requires !(op in y.retrying && NextRetrying(y, act)[op] == y.retrying[op])
    ensures Retryable(c, NextStore(c, cfg, y, act), op, NextRetrying(y, act)[op].1)
  {
    hide *;
    NewRetryIs(y, act, op);
    NextStoreIs(c, cfg, y, act);
    CmdOfEnd(y, act);
    OwnedIsRemembered(c, y, act.token);
    EndIsProper(c, y, act);
    WorkingIs(c, y);
    TakenHand(c, cfg, y.w, act.token, op);
    RetryIsOfAttempt(y.active[act.token], act.retries, act.outcome, act.now, act.token, op);
    TakenIsRetryable(c, cfg, y.w, act.token, op, y.active[act.token], NextRetrying(y, act)[op].1);
  }

  lemma RetryIsOfAttempt(m: Message, retries: Option<int>, outcome: Outcome, now: int, token: Token, op: OpId)
    ensures var v := Settle(m, retries, outcome, now);
      v.Retry? ==> retries.Some? && v.failure.attempt == m.attempt < retries.value && SettlingCmd(v, token, op) == NackTake(op, token)
  {}

  lemma TakenIsRetryable(c: Codec, cfg: Config, w: World, token: Token, op: OpId, m: Message, failure: Failure)
    requires var x := NextWorld(c, cfg, w, NackTake(op, token));
      Has(x.hands, op) ==> Owns(w.s, token) && Get(x.hands, op) == NackHand(OwnedEntry(w.s, token))
    requires Owns(w.s, token) ==> HandedMessage(c, OwnedEntry(w.s, token)) == m
    requires failure.attempt == m.attempt < m.maxRetries
    ensures Retryable(c, NextWorld(c, cfg, w, NackTake(op, token)), op, failure)
  {
    hide NextWorld, HandedMessage, Owns, OwnedEntry, Find;
  }

  /** Whatever the workers and the others do, every call the workers make is within the retry budget,
      and every delivery is about the message its lease holds. */
  lemma ActKeepsWorking(c: Codec, cfg: Config, y: System, act: Act)
    requires Working(c, y) && Proper(c, y, act)
    ensures Working(c, NextSystem(c, cfg, y, act))
  {
    hide Valid, L.Safe, Abstract, Remembered, Handed, CmdOf, NextStore, Proper, NextActive, NextRetrying, Retryable;
    var z := NextSystem(c, cfg, y, act);
    StoreStaysSafe(c, cfg, y, act);
    RetriesStay(c, cfg, y, act);
    ActiveIs(c, y, act);
    OnlyPollsHand(c, y, act);
    if Handed(c, y, act).Some? {
      HandedIs(c, cfg, y, act);
      LeasedIsRemembered(Abstract(c, z.w), L.Leased(act.token, Handed(c, y, act).value, act.expiry));
    }
    forall token | token in z.active ensures Remembered(Abstract(c, z.w), token, z.active[token]) {
      if token in y.active && z.active[token] == y.active[token] {
        RememberedStays(Abstract(c, y.w), Abstract(c, z.w), token, y.active[token]);
      }
    }
  }

  ghost predicate RunIsProper(c: Codec, cfg: Config, y: System, acts: seq<Act>)
    decreases |acts|
  {
    acts == [] || (Proper(c, y, acts[0]) && RunIsProper(c, cfg, NextSystem(c, cfg, y, acts[0]), acts[1..]))
  }

  function RunOf(c: Codec, cfg: Config, y: System, acts: seq<Act>): System
    decreases |acts|
  {
    if acts == [] then y else RunOf(c, cfg, NextSystem(c, cfg, y, acts[0]), acts[1..])
  }

  // ---- Acked only when the handler succeeded ----

  /** The handler of a delivery of the job succeeded, and its token still owns the delivery. */
  predicate SucceedsUnderLease(y: System, act: Act, id: string) {
    && act.End? && act.token in y.active && y.active[act.token].id == id && act.retries.Some? && act.outcome.Succeeded?
    && Owns(y.w.s, act.token)
  }

  function Successes(c: Codec, cfg: Config, y: System, acts: seq<Act>, id: string): nat
    decreases |acts|
  {
    if acts == [] then 0
    else
      var first := if SucceedsUnderLease(y, acts[0], id) then 1 else 0;
      first + Successes(c, cfg, NextSystem(c, cfg, y, acts[0]), acts[1..], id)
  }

  lemma {:induction false} EvictionsAckNothing(c: Codec, w: World, n: nat, id: string)
    requires n <= |w.s.dead|
    ensures EvictTo(c, w, n).gone[L.Gone(id, L.Acked)] == w.gone[L.Gone(id, L.Acked)]
    decreases |w.s.dead|
  {
    hide ReadDead;
    if |w.s.dead| != n { EvictionsAckNothing(c, EvictLast(c, w), n, id); }
  }

  lemma BuriedAcksNothing(c: Codec, w: World, entry: DeadEntry, owner: Option<Token>, id: string)
    ensures Buried(c, w, entry, owner).gone[L.Gone(id, L.Acked)] == w.gone[L.Gone(id, L.Acked)]
  {
    hide HandedMessage, Lrem, ScanPrefix;
  }

  lemma OtherCommandAcks(c: Codec, cfg: Config, w: World, cmd: Cmd, id: string)
    requires !cmd.AckCmd?
    ensures NextWorld(c, cfg, w, cmd).gone[L.Gone(id, L.Acked)] == w.gone[L.Gone(id, L.Acked)]
  {
    hide PromoteScript, ReapScript, DrainScript, ReleaseScript, ExtendScript, PopScript, Routed, Store, HandedMessage, ReadDead, Find, EvictTo, Buried;
    match cmd
    case DeadLetterCmd(entry, owner) =>
      BuriedAcksNothing(c, w, entry, owner, id);
      var u := Buried(c, w, entry, owner);
      EvictionsAckNothing(c, u, |Ltrim(u.s.dead, cfg.maxDead)|, id);
    case TrimCmd => EvictionsAckNothing(c, w, |Ltrim(w.s.dead, cfg.maxDead)|, id);
    case PurgeCmd => EvictionsAckNothing(c, w, 0, id);
    case _ =>
  }

  /** Only an ack by the owning token takes a job off as done. */
  lemma AckAcks(c: Codec, cfg: Config, w: World, lease: Token, id: string)
    requires LeasesOk(c, w) && '|' !in lease
    ensures NextWorld(c, cfg, w, AckCmd(lease)).gone[L.Gone(id, L.Acked)] == w.gone[L.Gone(id, L.Acked)]
      + if Owns(w.s, lease) && HandedMessage(c, OwnedEntry(w.s, lease)).id == id then 1 else 0
  {
    OwnedByToken(c, w, lease);
    hide LeasesOk, HandedMessage, ReleaseScript, TokenOf;
  }

  lemma AcksAreSuccesses(c: Codec, y: System, act: Act)
    requires Proper(c, y, act) && CmdOf(y, act).Some?
    ensures CmdOf(y, act).value.AckCmd? ==> act.End? && act.token in y.active && CmdOf(y, act) == Some(AckCmd(act.token))
    ensures CmdOf(y, act).value.AckCmd? <==> act.End? && act.token in y.active && act.retries.Some? && act.outcome.Succeeded?
  {
    hide RetryDelay, L.Enqueued, Permitted;
  }

  lemma SuccessIs(y: System, act: Act, id: string)
    ensures SucceedsUnderLease(y, act, id) <==>
      act.End? && act.token in y.active && act.retries.Some? && act.outcome.Succeeded? && y.active[act.token].id == id && Owns(y.w.s, act.token)
  {}

  lemma ValidLeases(c: Codec, w: World)
    requires Valid(c, w)
    ensures LeasesOk(c, w)
  {}

  lemma ActAcks(c: Codec, cfg: Config, y: System, act: Act, id: string)
    requires Working(c, y) && Proper(c, y, act)
    ensures NextStore(c, cfg, y, act).gone[L.Gone(id, L.Acked)] ==
      y.w.gone[L.Gone(id, L.Acked)] + if SucceedsUnderLease(y, act, id) then 1 else 0
  {
    hide *;
    NextStoreIs(c, cfg, y, act);
    WorkingIs(c, y);
    ValidLeases(c, y.w);
    SuccessIs(y, act, id);
    if CmdOf(y, act).Some? {
      AcksAreSuccesses(c, y, act);
      if CmdOf(y, act).value.AckCmd? {
        OwnedIsRemembered(c, y, act.token);
        AckAcks(c, cfg, y.w, act.token, id);
      } else {
        OtherCommandAcks(c, cfg, y.w, CmdOf(y, act).value, id);
      }
    } else {
      NoCallNoSuccess(y, act);
    }
  }

  lemma NoCallNoSuccess(y: System, act: Act)
    requires CmdOf(y, act).None?
    ensures !(act.End? && act.token in y.active)
  {
    hide Settle;
  }

  /** Over any run, with any interleaving and crashes, a job is acked once for each of its deliveries
      whose handler succeeded while its token owned it, and never otherwise. */
  lemma {:induction false} AckedExactly(c: Codec, cfg: Config, y: System, acts: seq<Act>, id: string)
    requires Working(c, y) && RunIsProper(c, cfg, y, acts)
    ensures Working(c, RunOf(c, cfg, y, acts))
    ensures RunOf(c, cfg, y, acts).w.gone[L.Gone(id, L.Acked)] == y.w.gone[L.Gone(id, L.Acked)] + Successes(c, cfg, y, acts, id)
    decreases |acts|
  {
    hide Working, Proper, SucceedsUnderLease, NextStore, NextActive, NextRetrying;
    if acts != [] {
      ActAcks(c, cfg, y, acts[0], id);
      ActKeepsWorking(c, cfg, y, acts[0]);
      AckedExactly(c, cfg, NextSystem(c, cfg, y, acts[0]), acts[1..], id);
    }
  }

  // ---- Every delivery fails ----

  /** If the act ends a delivery of the job, its handler failed, in a worker that has the task. */
  predicate EndsInFailure(y: System, act: Act, id: string) {
    act.End? && act.token in y.active && y.active[act.token].id == id ==> act.retries.Some? && act.outcome.Failed?
  }

  /** No administrator redrives the job, and no operation that holds it crashes. */
  predicate LeavesJob(c: Codec, y: System, act: Act, id: string) {
    act.Other? ==>
      && id !in RedrivenBy(c, y.w, act.cmd)
      && (act.cmd.CrashOp? && Has(y.w.hands, act.cmd.op) ==> L.SlotId(HandSlot(c, Get(y.w.hands, act.cmd.op))) != id)
  }

  ghost predicate AlwaysFails(c: Codec, cfg: Config, y: System, acts: seq<Act>, id: string)
    decreases |acts|
  {
    acts == [] ||
    (EndsInFailure(y, acts[0], id) && LeavesJob(c, y, acts[0], id) && AlwaysFails(c, cfg, NextSystem(c, cfg, y, acts[0]), acts[1..], id))
  }

  function HandedIn(c: Codec, y: System, act: Act, id: string): nat {
    if Handed(c, y, act).Some? && Handed(c, y, act).value.id == id then 1 else 0
  }

  /** How often the job is delivered in a run. */
  function Deliveries(c: Codec, cfg: Config, y: System, acts: seq<Act>, id: string): nat
    decreases |acts|
  {
    if acts == [] then 0 else HandedIn(c, y, acts[0], id) + Deliveries(c, cfg, NextSystem(c, cfg, y, acts[0]), acts[1..], id)
  }

  ghost predicate InVain(c: Codec, y: System, id: string, retries: int, d: int) {
    && Working(c, y) && F.FailedSoFar(Abstract(c, y.w), id, retries, d)
    && forall token :: token in y.active && y.active[token].id == id ==> F.OnRecord(y.active[token], retries)
  }

  lemma InVainWorks(c: Codec, y: System, id: string, n: int, d: int)
    requires InVain(c, y, id, n, d)
    ensures Working(c, y) && F.FailedSoFar(Abstract(c, y.w), id, n, d)
  {}

  lemma BurialIsFull(m: Message, retries: int, error: string, now: int)
    requires F.OnRecord(m, retries) && m.attempt >= retries
    ensures var v := Settle(m, Some(retries), Failed(error), now); v.GiveUp? && L.AllFailed(v.entry, retries)
  {
    F.RecordGrows(m, retries, Failure(m.attempt, error, now));
  }

  lemma SettlingFails(c: Codec, w: World, id: string, n: int, token: Token, m: Message, retries: Option<int>, outcome: Outcome, now: int, op: OpId)
    requires Permitted(L.Budgeted, c, w, SettlingCmd(Settle(m, retries, outcome, now), token, op))
    requires m.id == id ==> F.OnRecord(m, n) && retries == Some(n) && outcome.Failed?
    requires Owns(w.s, token) ==> HandedMessage(c, OwnedEntry(w.s, token)) == m
    ensures Permitted(L.Failing(id, n), c, w, SettlingCmd(Settle(m, retries, outcome, now), token, op))
  {
    if m.id == id && m.attempt >= n { BurialIsFull(m, n, outcome.error, now); }
    hide RetryDelay, Find, L.AllFailed, HandedMessage, Owns, OwnedEntry;
  }

  lemma EndIsInVain(c: Codec, y: System, act: Act, id: string, n: int, d: int)
    requires InVain(c, y, id, n, d) && Proper(c, y, act) && act.End? && act.token in y.active && EndsInFailure(y, act, id)
    ensures y.active[act.token].id == id ==> F.OnRecord(y.active[act.token], n) && act.retries == Some(n) && act.outcome.Failed?
  {
    hide Working, F.FailedSoFar, Has;
  }

  lemma CrashLeaves(c: Codec, y: System, act: Act, id: string)
    requires LeavesJob(c, y, act, id) && act.Other? && act.cmd.CrashOp? && Has(y.w.hands, act.cmd.op)
    ensures L.SlotId(HandSlot(c, Get(y.w.hands, act.cmd.op))) != id
  {}

  lemma CallOfFailing(c: Codec, y: System, act: Act, id: string, n: int, d: int)
    requires InVain(c, y, id, n, d) && Proper(c, y, act) && CmdOf(y, act).Some?
    requires EndsInFailure(y, act, id) && LeavesJob(c, y, act, id)
    ensures Permitted(L.Failing(id, n), c, y.w, CmdOf(y, act).value)
  {
    hide *;
    InVainWorks(c, y, id, n, d);
    if act.End? {
      CallIsPermitted(c, y, act);
      CmdOfEnd(y, act);
      OwnedIsRemembered(c, y, act.token);
      EndIsInVain(c, y, act, id, n, d);
      SettlingFails(c, y.w, id, n, act.token, y.active[act.token], act.retries, act.outcome, act.now, act.op);
    } else {
      BudgetedHasBudget();
      if act.Other? && act.cmd.CrashOp? && Has(y.w.hands, act.cmd.op) { CrashLeaves(c, y, act, id); }
      OtherCmdIsPermitted(L.Failing(id, n), c, y, act);
    }
  }

  lemma HandedByPoll(c: Codec, cfg: Config, y: System, act: Act, id: string)
    requires Proper(c, y, act) && CmdOf(y, act).Some?
    ensures HandedBy(c, y.w, CmdOf(y, act).value)[id] == HandedIn(c, y, act, id)
  {
    OnlyPollsHand(c, y, act);
    if act.Poll? { PollIs(c, cfg, y, act); }
    hide Proper, CmdOf, Read;
  }

  lemma RedrivenByAct(c: Codec, y: System, act: Act, id: string)
    requires Proper(c, y, act) && CmdOf(y, act).Some? && LeavesJob(c, y, act, id)
    ensures id !in RedrivenBy(c, y.w, CmdOf(y, act).value)
  {
    hide Settle, ReadDead, Permitted, HandSlot;
  }

  lemma NoCallNoHand(c: Codec, y: System, act: Act, id: string)
    requires CmdOf(y, act).None?
    ensures HandedIn(c, y, act, id) == 0
  {
    hide Settle, Popped;
  }

  lemma StoreFails(c: Codec, cfg: Config, y: System, act: Act, id: string, n: int, d: int)
    requires InVain(c, y, id, n, d) && Proper(c, y, act) && EndsInFailure(y, act, id) && LeavesJob(c, y, act, id)
    ensures F.FailedSoFar(Abstract(c, NextStore(c, cfg, y, act)), id, n, d + HandedIn(c, y, act, id))
  {
    hide *;
    NextStoreIs(c, cfg, y, act);
    InVainWorks(c, y, id, n, d);
    WorkingIs(c, y);
    if CmdOf(y, act).Some? {
      var cmd := CmdOf(y, act).value;
      CallOfFailing(c, y, act, id, n, d);
      HandedByPoll(c, cfg, y, act, id);
      RedrivenByAct(c, y, act, id);
      RedisQueueRefines(L.Failing(id, n), c, cfg, y.w, cmd);
      F.ReachesByFails(Abstract(c, y.w), Abstract(c, NextWorld(c, cfg, y.w, cmd)), HandedBy(c, y.w, cmd), RedrivenBy(c, y.w, cmd), id, n, d);
    } else {
      NoCallNoHand(c, y, act, id);
    }
  }

  lemma LeasedIsOnRecord(s: L.State, x: L.Slot, id: string, n: int, d: int)
    requires F.FailedSoFar(s, id, n, d) && x in s.slots && x.Leased?
    ensures x.m.id == id ==> F.OnRecord(x.m, n)
  {
    assert x.m.id == L.SlotId(x);
    hide F.OnRecord;
  }

  lemma ActInVain(c: Codec, cfg: Config, y: System, act: Act, id: string, n: int, d: int)
    requires InVain(c, y, id, n, d) && Proper(c, y, act) && EndsInFailure(y, act, id) && LeavesJob(c, y, act, id)
    ensures InVain(c, NextSystem(c, cfg, y, act), id, n, d + HandedIn(c, y, act, id))
  {
    hide Working, F.FailedSoFar, CmdOf, NextStore, F.OnRecord, Handed, Proper, Abstract, EndsInFailure, LeavesJob, NextActive, NextRetrying, HandedIn;
    var z, e := NextSystem(c, cfg, y, act), d + HandedIn(c, y, act, id);
    ActKeepsWorking(c, cfg, y, act);
    StoreFails(c, cfg, y, act, id, n, d);
    ActiveIs(c, y, act);
    OnlyPollsHand(c, y, act);
    if Handed(c, y, act).Some? {
      HandedIs(c, cfg, y, act);
      LeasedIsOnRecord(Abstract(c, z.w), L.Leased(act.token, Handed(c, y, act).value, act.expiry), id, n, e);
    }
  }

  lemma {:induction false} RunInVain(c: Codec, cfg: Config, y: System, acts: seq<Act>, id: string, n: int, d: int)
    requires InVain(c, y, id, n, d) && RunIsProper(c, cfg, y, acts) && AlwaysFails(c, cfg, y, acts, id)
    ensures InVain(c, RunOf(c, cfg, y, acts), id, n, d + Deliveries(c, cfg, y, acts, id))
    decreases |acts|
  {
    hide InVain, Proper, EndsInFailure, LeavesJob, NextSystem, HandedIn;
    if acts != [] {
      ActInVain(c, cfg, y, acts[0], id, n, d);
      RunInVain(c, cfg, NextSystem(c, cfg, y, acts[0]), acts[1..], id, n, d + HandedIn(c, y, acts[0], id));
    }
  }

  /** Where a job is whose `d` deliveries all failed: in one place with as many failures on record, or
      dead with the record of all its attempts. */
  ghost predicate FailedPlaces(c: Codec, w: World, id: string, retries: int, d: int) {
    && d <= retries + 1 && WaitingFailed(c, w, id, retries, d) && HeldFailed(c, w, id, d) && DeadFailed(c, w, id, retries)
    && (NowhereLive(c, w, id) ==> d == retries + 1 && (IsDead(c, w, id) || L.Gone(id, L.Discarded) in w.gone))
  }

  ghost predicate WaitingFailed(c: Codec, w: World, id: string, retries: int, d: int) {
    && (forall raw :: raw in w.s.pending && Read(c, raw).id == id ==> HasFailed(Read(c, raw), d) && d <= retries)
    && (forall y :: y in w.s.delayed && Read(c, y.0).id == id ==> HasFailed(Read(c, y.0), d) && d <= retries)
  }

  ghost predicate HeldFailed(c: Codec, w: World, id: string, d: int) {
    && (forall e :: e in w.s.processing && HandedMessage(c, e).id == id ==> HasFailed(HandedMessage(c, e), d - 1))
    && (forall e :: e in w.s.reclaim && HandedMessage(c, e).id == id ==> HasFailed(HandedMessage(c, e), d - 1))
  }

  /** Every dead entry has the record of all attempts, and the job was neither acked nor lost. */
  ghost predicate DeadFailed(c: Codec, w: World, id: string, retries: int) {
    && (forall raw :: raw in w.s.dead && ReadDead(c, raw).message.id == id ==> L.AllFailed(ReadDead(c, raw), retries))
    && L.Gone(id, L.Acked) !in w.gone && L.Gone(id, L.Lost) !in w.gone
  }

  ghost predicate IsDead(c: Codec, w: World, id: string) {
    exists raw :: raw in w.s.dead && ReadDead(c, raw).message.id == id
  }

  predicate HasFailed(m: Message, d: int) { m.attempt == |m.failures| == d }

  /** Neither waiting, in flight, staged, nor in hand. */
  ghost predicate NowhereLive(c: Codec, w: World, id: string) {
    && (forall raw :: raw in w.s.pending ==> Read(c, raw).id != id)
    && (forall y :: y in w.s.delayed ==> Read(c, y.0).id != id)
    && (forall e :: e in w.s.processing ==> HandedMessage(c, e).id != id)
    && (forall e :: e in w.s.reclaim ==> HandedMessage(c, e).id != id)
    && (forall op :: Has(w.hands, op) ==> L.SlotId(HandSlot(c, Get(w.hands, op))) != id)
  }

  predicate OnlyGone(w: World) { forall x :: x in w.gone ==> x.Gone? }

  lemma InPending(c: Codec, w: World, raw: string)
    requires raw in w.s.pending
    ensures L.Ready(Read(c, raw)) in Abstract(c, w).slots
  {
    var i :| 0 <= i < |w.s.pending| && w.s.pending[i] == raw;
    assert PendingSlots(c, w.s.pending)[i] in multiset(PendingSlots(c, w.s.pending));
  }

  lemma InDelayed(c: Codec, w: World, y: (string, int))
    requires y in w.s.delayed
    ensures L.Ready(Read(c, y.0)) in Abstract(c, w).slots
  {
    var i :| 0 <= i < |w.s.delayed| && w.s.delayed[i] == y;
    assert DelayedSlots(c, w.s.delayed)[i] in multiset(DelayedSlots(c, w.s.delayed));
  }

  lemma InProcessing(c: Codec, w: World, e: string)
    requires e in w.s.processing
    ensures LeaseSlot(c, w.s.leases, e) in Abstract(c, w).slots
  {
    var i :| 0 <= i < |w.s.processing| && w.s.processing[i] == e;
    assert ProcessingSlots(c, w.s.leases, w.s.processing)[i] in multiset(ProcessingSlots(c, w.s.leases, w.s.processing));
  }

  lemma InReclaim(c: Codec, w: World, e: string)
    requires e in w.s.reclaim
    ensures RevokedSlot(c, e) in Abstract(c, w).slots
  {
    var i :| 0 <= i < |w.s.reclaim| && w.s.reclaim[i] == e;
    assert ReclaimSlots(c, w.s.reclaim)[i] in multiset(ReclaimSlots(c, w.s.reclaim));
  }

  lemma InDead(c: Codec, w: World, raw: string)
    requires raw in w.s.dead
    ensures L.Dead(ReadDead(c, raw)) in Abstract(c, w).slots
  {
    var i :| 0 <= i < |w.s.dead| && w.s.dead[i] == raw;
    assert DeadSlots(c, w.s.dead)[i] in multiset(DeadSlots(c, w.s.dead));
  }

  lemma InGone(c: Codec, w: World, x: L.Slot)
    requires x in w.gone
    ensures x in Abstract(c, w).slots
  {
    hide PendingSlots, DelayedSlots, ProcessingSlots, ReclaimSlots, DeadSlots, HandSlots;
  }

  lemma SlotIsListed(c: Codec, w: World, x: L.Slot)
    requires x in Abstract(c, w).slots
    ensures x in PendingSlots(c, w.s.pending) || x in DelayedSlots(c, w.s.delayed) || x in ProcessingSlots(c, w.s.leases, w.s.processing)
      || x in ReclaimSlots(c, w.s.reclaim) || x in DeadSlots(c, w.s.dead) || x in HandSlots(c, w.hands) || x in w.gone
  {
    hide PendingSlots, DelayedSlots, ProcessingSlots, ReclaimSlots, DeadSlots, HandSlots;
  }

  lemma NotWaiting(c: Codec, w: World, x: L.Slot, id: string)
    requires NowhereLive(c, w, id) && (x in PendingSlots(c, w.s.pending) || x in DelayedSlots(c, w.s.delayed))
    ensures L.SlotId(x) != id
  {
    hide Read, HandedMessage;
    if x in PendingSlots(c, w.s.pending) {
      var i :| 0 <= i < |w.s.pending| && PendingSlots(c, w.s.pending)[i] == x;
      assert w.s.pending[i] in w.s.pending;
    } else {
      var i :| 0 <= i < |w.s.delayed| && DelayedSlots(c, w.s.delayed)[i] == x;
      assert w.s.delayed[i] in w.s.delayed;
    }
  }

  lemma NotInFlight(c: Codec, w: World, x: L.Slot, id: string)
    requires NowhereLive(c, w, id) && (x in ProcessingSlots(c, w.s.leases, w.s.processing) || x in ReclaimSlots(c, w.s.reclaim))
    ensures L.SlotId(x) != id
  {
    hide Read, HandedMessage, TokenOf;
    if x in ProcessingSlots(c, w.s.leases, w.s.processing) {
      var i :| 0 <= i < |w.s.processing| && ProcessingSlots(c, w.s.leases, w.s.processing)[i] == x;
      assert w.s.processing[i] in w.s.processing;
    } else {
      var i :| 0 <= i < |w.s.reclaim| && ReclaimSlots(c, w.s.reclaim)[i] == x;
      assert w.s.reclaim[i] in w.s.reclaim;
    }
  }

  lemma NotInHand(c: Codec, w: World, x: L.Slot, id: string)
    requires NowhereLive(c, w, id) && UniqueKeys(w.hands) && x in HandSlots(c, w.hands)
    ensures L.SlotId(x) != id
  {
    hide Read, HandedMessage;
    var i :| 0 <= i < |w.hands| && HandSlots(c, w.hands)[i] == x;
    FoundAt(w.hands, i);
    assert Has(w.hands, w.hands[i].0) && Get(w.hands, w.hands[i].0) == w.hands[i].1;
  }

  lemma DeadIsListed(c: Codec, w: World, x: L.Slot)
    requires x in DeadSlots(c, w.s.dead)
    ensures exists raw :: raw in w.s.dead && x == L.Dead(ReadDead(c, raw))
  {
    hide ReadDead;
    var i :| 0 <= i < |w.s.dead| && DeadSlots(c, w.s.dead)[i] == x;
    assert w.s.dead[i] in w.s.dead;
  }

  /** A slot of a job that is nowhere live is a dead entry or gone. */
  lemma SlotIsSomewhere(c: Codec, w: World, x: L.Slot, id: string)
    requires x in Abstract(c, w).slots && L.SlotId(x) == id && NowhereLive(c, w, id) && UniqueKeys(w.hands)
    ensures (exists raw :: raw in w.s.dead && x == L.Dead(ReadDead(c, raw))) || x in w.gone
  {
    hide *;
    SlotIsListed(c, w, x);
    if x in PendingSlots(c, w.s.pending) || x in DelayedSlots(c, w.s.delayed) {
      NotWaiting(c, w, x, id);
    } else if x in ProcessingSlots(c, w.s.leases, w.s.processing) || x in ReclaimSlots(c, w.s.reclaim) {
      NotInFlight(c, w, x, id);
    } else if x in HandSlots(c, w.hands) {
      NotInHand(c, w, x, id);
    } else if x in DeadSlots(c, w.s.dead) {
      DeadIsListed(c, w, x);
    }
  }

  lemma SlotFits(s: L.State, x: L.Slot, id: string, n: int, d: int)
    requires F.FailedSoFar(s, id, n, d) && x in s.slots && L.SlotId(x) == id
    ensures F.Fits(x, n, d)
  {}

  lemma ReadyFits(m: Message, n: int, d: int)
    requires F.Fits(L.Ready(m), n, d)
    ensures HasFailed(m, d) && d <= n
  {}

  lemma HeldFits(c: Codec, leases: map<string, int>, e: string, n: int, d: int)
    requires F.Fits(LeaseSlot(c, leases, e), n, d) || F.Fits(RevokedSlot(c, e), n, d)
    ensures HasFailed(HandedMessage(c, e), d - 1)
  {
    hide HandedMessage, TokenOf;
  }

  lemma IdsOf(c: Codec, leases: map<string, int>, e: string, m: Message, x: DeadEntry)
    ensures L.SlotId(LeaseSlot(c, leases, e)) == L.SlotId(RevokedSlot(c, e)) == HandedMessage(c, e).id
    ensures L.SlotId(L.Ready(m)) == m.id && L.SlotId(L.Dead(x)) == x.message.id
  {
    hide HandedMessage, TokenOf;
  }

  lemma WaitingHasFailed(c: Codec, w: World, id: string, n: int, d: int)
    requires F.FailedSoFar(Abstract(c, w), id, n, d)
    ensures WaitingFailed(c, w, id, n, d)
  {
    hide Abstract, F.FailedSoFar, Read, ReadDead, HasFailed, HandedMessage, F.Fits, L.SlotId, LeaseSlot, RevokedSlot;
    forall raw | raw in w.s.pending && Read(c, raw).id == id ensures HasFailed(Read(c, raw), d) && d <= n {
      InPending(c, w, raw);
      IdsOf(c, map[], raw, Read(c, raw), ReadDead(c, raw));
      SlotFits(Abstract(c, w), L.Ready(Read(c, raw)), id, n, d);
      ReadyFits(Read(c, raw), n, d);
    }
    forall y | y in w.s.delayed && Read(c, y.0).id == id ensures HasFailed(Read(c, y.0), d) && d <= n {
      InDelayed(c, w, y);
      IdsOf(c, map[], y.0, Read(c, y.0), ReadDead(c, y.0));
      SlotFits(Abstract(c, w), L.Ready(Read(c, y.0)), id, n, d);
      ReadyFits(Read(c, y.0), n, d);
    }
  }

  lemma HeldHasFailed(c: Codec, w: World, id: string, n: int, d: int)
    requires F.FailedSoFar(Abstract(c, w), id, n, d)
    ensures HeldFailed(c, w, id, d)
  {
    hide Abstract, F.FailedSoFar, Read, ReadDead, HasFailed, HandedMessage, F.Fits, L.SlotId, LeaseSlot, RevokedSlot;
    forall e | e in w.s.processing && HandedMessage(c, e).id == id ensures HasFailed(HandedMessage(c, e), d - 1) {
      InProcessing(c, w, e);
      IdsOf(c, w.s.leases, e, BLANK, ReadDead(c, e));
      SlotFits(Abstract(c, w), LeaseSlot(c, w.s.leases, e), id, n, d);
      HeldFits(c, w.s.leases, e, n, d);
    }
    forall e | e in w.s.reclaim && HandedMessage(c, e).id == id ensures HasFailed(HandedMessage(c, e), d - 1) {
      InReclaim(c, w, e);
      IdsOf(c, w.s.leases, e, BLANK, ReadDead(c, e));
      SlotFits(Abstract(c, w), RevokedSlot(c, e), id, n, d);
      HeldFits(c, w.s.leases, e, n, d);
    }
  }

  lemma DeadHasFailed(c: Codec, w: World, id: string, n: int, d: int)
    requires F.FailedSoFar(Abstract(c, w), id, n, d)
    ensures DeadFailed(c, w, id, n)
  {
    hide Abstract, F.FailedSoFar, ReadDead, L.AllFailed, F.Fits, L.SlotId, HandedMessage, Read;
    forall raw | raw in w.s.dead && ReadDead(c, raw).message.id == id ensures L.AllFailed(ReadDead(c, raw), n) {
      InDead(c, w, raw);
      IdsOf(c, map[], raw, BLANK, ReadDead(c, raw));
      SlotFits(Abstract(c, w), L.Dead(ReadDead(c, raw)), id, n, d);
      SettledFits(ReadDead(c, raw), id, L.Acked, n, d);
    }
    forall fate | L.Gone(id, fate) in w.gone ensures fate == L.Discarded {
      InGone(c, w, L.Gone(id, fate));
      GoneId(id, fate);
      SlotFits(Abstract(c, w), L.Gone(id, fate), id, n, d);
      SettledFits(DeadEntry(BLANK, "", [], 0), id, fate, n, d);
    }
  }

  lemma GoneId(id: string, fate: L.Fate)
    ensures L.SlotId(L.Gone(id, fate)) == id
  {}

  lemma SettledFits(e: DeadEntry, id: string, fate: L.Fate, n: int, d: int)
    ensures F.Fits(L.Dead(e), n, d) <==> L.AllFailed(e, n)
    ensures F.Fits(L.Gone(id, fate), n, d) <==> fate == L.Discarded
  {}

  lemma BuriedIfNowhere(c: Codec, w: World, id: string, n: int, d: int)
    requires L.AtLeastOnePlace(Abstract(c, w)) && F.FailedSoFar(Abstract(c, w), id, n, d) && OnlyGone(w)
    requires NowhereLive(c, w, id) && UniqueKeys(w.hands)
    ensures d == n + 1 && (IsDead(c, w, id) || L.Gone(id, L.Discarded) in w.gone)
  {
    hide SlotsOf, NowhereLive, UniqueKeys, Read, ReadDead;
    if d <= n {
      var x :| x in Abstract(c, w).slots && L.SlotId(x) == id && !L.Settled(x);
      SlotIsSomewhere(c, w, x, id);
    }
    var x :| x in Abstract(c, w).slots && L.SlotId(x) == id;
    SlotIsSomewhere(c, w, x, id);
    assert F.Fits(x, n, d);
  }

  lemma PlacesOfFailed(c: Codec, w: World, id: string, n: int, d: int)
    requires L.AtLeastOnePlace(Abstract(c, w)) && F.FailedSoFar(Abstract(c, w), id, n, d) && OnlyGone(w) && UniqueKeys(w.hands)
    ensures FailedPlaces(c, w, id, n, d)
  {
    assert d <= n + 1;
    hide Abstract, F.FailedSoFar, L.AtLeastOnePlace, NowhereLive, OnlyGone, UniqueKeys, WaitingFailed, HeldFailed, DeadFailed, IsDead;
    WaitingHasFailed(c, w, id, n, d);
    HeldHasFailed(c, w, id, n, d);
    DeadHasFailed(c, w, id, n, d);
    if NowhereLive(c, w, id) { BuriedIfNowhere(c, w, id, n, d); }
  }

  // ---- What left the store is gone ----

  lemma {:induction false} EvictionsAreGone(c: Codec, w: World, n: nat)
    requires n <= |w.s.dead| && OnlyGone(w)
    ensures OnlyGone(EvictTo(c, w, n))
    decreases |w.s.dead|
  {
    hide ReadDead;
    if |w.s.dead| != n { EvictionsAreGone(c, EvictLast(c, w), n); }
  }

  lemma CommandIsGone(c: Codec, cfg: Config, w: World, cmd: Cmd)
    requires OnlyGone(w)
    ensures OnlyGone(NextWorld(c, cfg, w, cmd))
  {
    hide PromoteScript, ReapScript, DrainScript, ReleaseScript, ExtendScript, PopScript, Routed, Store, HandedMessage, ReadDead, Find, EvictTo;
    match cmd
    case DeadLetterCmd(entry, owner) =>
      var u := Buried(c, w, entry, owner);
      EvictionsAreGone(c, u, |Ltrim(u.s.dead, cfg.maxDead)|);
    case TrimCmd => EvictionsAreGone(c, w, |Ltrim(w.s.dead, cfg.maxDead)|);
    case PurgeCmd => EvictionsAreGone(c, w, 0);
    case _ =>
  }

  lemma {:induction false} RunIsGone(c: Codec, cfg: Config, y: System, acts: seq<Act>)
    requires OnlyGone(y.w)
    ensures OnlyGone(RunOf(c, cfg, y, acts).w)
    decreases |acts|
  {
    hide OnlyGone, NextWorld, CmdOf, NextActive, NextRetrying, NextStore;
    if acts != [] {
      NextStoreIs(c, cfg, y, acts[0]);
      if CmdOf(y, acts[0]).Some? { CommandIsGone(c, cfg, y.w, CmdOf(y, acts[0]).value); }
      RunIsGone(c, cfg, NextSystem(c, cfg, y, acts[0]), acts[1..]);
    }
  }

  /** A job whose every delivery fails, by its handler or by its lease, late or not, over any
      interleaving in which no operation that holds it crashes: it is never acked nor lost; while it is
      live its failures are its deliveries so far; and once it is not, it was delivered exactly
      `maxRetries + 1` times and lies in the dead list with that many failures, unless that list was
      trimmed or purged. */
  lemma FailingJobIsBuried(c: Codec, cfg: Config, y: System, m: Message, now: int, acts: seq<Act>)
    requires Working(c, y) && OnlyGone(y.w) && Proper(c, y, Enqueue(m, now))
    requires var v := NextSystem(c, cfg, y, Enqueue(m, now)); RunIsProper(c, cfg, v, acts) && AlwaysFails(c, cfg, v, acts, m.id)
    ensures var v := NextSystem(c, cfg, y, Enqueue(m, now));
      FailedPlaces(c, RunOf(c, cfg, v, acts).w, m.id, m.maxRetries, Deliveries(c, cfg, v, acts, m.id))
  {
    hide *;
    var v := NextSystem(c, cfg, y, Enqueue(m, now));
    EnqueuedInVain(c, cfg, y, m, now);
    RunInVain(c, cfg, v, acts, m.id, m.maxRetries, 0);
    RunIsGone(c, cfg, v, acts);
    var z := RunOf(c, cfg, v, acts);
    InVainIs(c, z, m.id, m.maxRetries, Deliveries(c, cfg, v, acts, m.id));
    PlacesOfFailed(c, z.w, m.id, m.maxRetries, Deliveries(c, cfg, v, acts, m.id));
  }

  lemma InVainIs(c: Codec, z: System, id: string, n: int, d: int)
    requires InVain(c, z, id, n, d)
    ensures L.AtLeastOnePlace(Abstract(c, z.w)) && F.FailedSoFar(Abstract(c, z.w), id, n, d) && UniqueKeys(z.w.hands)
  {}

  lemma EnqueuedInVain(c: Codec, cfg: Config, y: System, m: Message, now: int)
    requires Working(c, y) && OnlyGone(y.w) && Proper(c, y, Enqueue(m, now))
    ensures var v := NextSystem(c, cfg, y, Enqueue(m, now)); InVain(c, v, m.id, m.maxRetries, 0) && OnlyGone(v.w)
  {
    var act := Enqueue(m, now);
    var v := NextSystem(c, cfg, y, act);
    assert CmdOf(y, act) == Some(PushCmd(m, now)) && v.active == y.active;
    ActKeepsWorking(c, cfg, y, act);
    CommandIsGone(c, cfg, y.w, PushCmd(m, now));
    PushedIs(c, cfg, y, m, now);
    ActiveAreOthers(c, y, m, now);
    hide Working, F.FailedSoFar, NextWorld, Abstract, OnlyGone;
    NextStoreIs(c, cfg, y, act);
  }

  lemma ActiveAreOthers(c: Codec, y: System, m: Message, now: int)
    requires Working(c, y) && Proper(c, y, Enqueue(m, now))
    ensures forall token :: token in y.active ==> y.active[token].id != m.id
  {
    forall token | token in y.active ensures y.active[token].id != m.id {
      hide Working;
      OwnedIsRemembered(c, y, token);
    }
  }

  lemma PushedIs(c: Codec, cfg: Config, y: System, m: Message, now: int)
    requires Working(c, y) && Proper(c, y, Enqueue(m, now))
    ensures F.FailedSoFar(Abstract(c, NextWorld(c, cfg, y.w, PushCmd(m, now))), m.id, m.maxRetries, 0)
  {
    assert L.Enqueued(m) && m.id !in y.w.pushed && L.KnownJobs(Abstract(c, y.w)) && Valid(c, y.w);
    assert Permitted(L.Budgeted, c, y.w, PushCmd(m, now));
    hide *;
    PushIsAbstract(c, cfg, y.w, m, now);
    F.PushFailsNot(Abstract(c, y.w), m);
  }

  /** A fresh job's push is the abstract push. */
  lemma PushIsAbstract(c: Codec, cfg: Config, w: World, m: Message, now: int)
    requires Valid(c, w) && L.KnownJobs(Abstract(c, w)) && m.id !in w.pushed
    ensures Abstract(c, NextWorld(c, cfg, w, PushCmd(m, now))) == L.Next(Abstract(c, w), L.Push(m))
    ensures Abstract(c, w).pushed == w.pushed
  {
    var raw := c.showMessage(m);
    assert Read(c, raw) == m by { assert c.readMessage(raw) == Some(m); }
    PushStores(c, cfg, w, m, now);
    hide NextWorld, Read;
    if m.availableAt > now {
      NotDelayedYet(c, w, m);
      hide Valid, Abstract;
      NothingToRemove(w.s.delayed, raw);
      GainDelayed(c, w, (raw, m.availableAt));
      DelayedMore(c, w, raw, m);
    } else {
      hide Valid;
      GainPending(c, w, raw);
      PendingMoreIs(c, w, raw, m);
    }
  }

  lemma PushStores(c: Codec, cfg: Config, w: World, m: Message, now: int)
    ensures NextWorld(c, cfg, w, PushCmd(m, now)) == w.(s := Store(c, w.s, m, m.availableAt > now), pushed := w.pushed + {m.id})
  {
    hide Store;
  }

  lemma NothingToRemove(z: ZSet, raw: string)
    requires !Has(z, raw)
    ensures Remove(z, raw) == z
  {}

  lemma NotDelayedYet(c: Codec, w: World, m: Message)
    requires Valid(c, w) && L.KnownJobs(Abstract(c, w)) && m.id !in w.pushed
    ensures !Has(w.s.delayed, c.showMessage(m))
  {
    var raw := c.showMessage(m);
    assert Read(c, raw) == m by { assert c.readMessage(raw) == Some(m); }
    forall y | y in w.s.delayed ensures Read(c, y.0).id in w.pushed { DelayedIsPushed(c, w, y); }
    hide Valid, Abstract, Read;
    HasMember(w.s.delayed, raw);
  }

  lemma HasMember(z: ZSet, raw: string)
    ensures Has(z, raw) ==> exists y :: y in z && y.0 == raw
  {
    if Has(z, raw) { assert z[Find(z, raw)] in z; }
  }

  lemma DelayedIsPushed(c: Codec, w: World, y: (string, int))
    requires L.KnownJobs(Abstract(c, w)) && y in w.s.delayed
    ensures Read(c, y.0).id in w.pushed
  {
    InDelayed(c, w, y);
    assert L.SlotId(L.Ready(Read(c, y.0))) == Read(c, y.0).id;
  }

  lemma DelayedMore(c: Codec, w: World, raw: string, m: Message)
    requires Read(c, raw) == m
    requires Abstract(c, w.(s := w.s.(delayed := InsertInOrder(w.s.delayed, (raw, m.availableAt))))) == L.Plus(Abstract(c, w), L.Ready(Read(c, raw)))
    ensures Abstract(c, w.(s := w.s.(delayed := InsertInOrder(w.s.delayed, (raw, m.availableAt))), pushed := w.pushed + {m.id})) == L.Next(Abstract(c, w), L.Push(m))
  {
    hide SlotsOf, Read, InsertInOrder;
    SlotsIgnorePushed(c, w.(s := w.s.(delayed := InsertInOrder(w.s.delayed, (raw, m.availableAt)))), w.pushed + {m.id});
  }

  lemma PendingMoreIs(c: Codec, w: World, raw: string, m: Message)
    requires Read(c, raw) == m
    requires Abstract(c, w.(s := w.s.(pending := [raw] + w.s.pending))) == L.Plus(Abstract(c, w), L.Ready(Read(c, raw)))
    ensures Abstract(c, w.(s := w.s.(pending := [raw] + w.s.pending), pushed := w.pushed + {m.id})) == L.Next(Abstract(c, w), L.Push(m))
  {
    hide SlotsOf, Read;
    SlotsIgnorePushed(c, w.(s := w.s.(pending := [raw] + w.s.pending)), w.pushed + {m.id});
  }

  lemma SlotsIgnorePushed(c: Codec, w: World, pushed: set<string>)
    ensures SlotsOf(c, w.(pushed := pushed)) == SlotsOf(c, w)
  {}

  // ---- What the end of a handler does to the store ----

  /** The entry is out of flight, and no other is. */
  predicate OutOfFlight(s: Server, v: Server, e: string) {
    v.processing == Lrem(s.processing, e) && v.leases == s.leases - {e} && v.reclaim == s.reclaim
  }

  /** What should become of a delivery: one whose handler succeeds is done; one that fails within the
      task's retries is taken in hand, to wait for the backoff of its attempt with its failure on
      record; one that fails past them is dead with all of its failures, and so is one of an unknown
      task, with none. */
  ghost predicate EndedAs(c: Codec, y: System, z: System, m: Message, retries: Option<int>, outcome: Outcome, now: int, op: OpId)
    requires m.leaseToken.Some? && Owns(y.w.s, m.leaseToken.value)
  {
    var s, v, e := y.w.s, z.w.s, OwnedEntry(y.w.s, m.leaseToken.value);
    && OutOfFlight(s, v, e) && v.pending == s.pending && v.delayed == s.delayed
    && match (retries, outcome)
       case (None, _) => v.dead != [] && exists error :: IsBuriedAs(ReadDead(c, v.dead[0]), m, error, [], now)
       case (Some(r), Succeeded) => v.dead == s.dead && z.w.hands == y.w.hands
       case (Some(r), Failed(error)) =>
         var failure := Failure(m.attempt, error, now);
         if m.attempt < r then
           v.dead == s.dead && Has(z.w.hands, op) && Get(z.w.hands, op) == NackHand(e)
           && op in z.retrying && z.retrying[op] == (RetryDelay(m.attempt), failure)
         else v.dead != [] && IsBuriedAs(ReadDead(c, v.dead[0]), m, error, m.failures + [failure], now)
  }

  lemma TokenIsOwn(c: Codec, y: System, token: Token)
    requires Working(c, y) && token in y.active && Owns(y.w.s, token)
    ensures y.active[token].leaseToken == Some(token)
  {
    hide *;
    OwnedIsRemembered(c, y, token);
    WorkingIs(c, y);
    ValidLeases(c, y.w);
    OwnedByToken(c, y.w, token);
    HandedToken(c, OwnedEntry(y.w.s, token));
  }

  lemma HandedToken(c: Codec, e: string)
    ensures HandedMessage(c, e).leaseToken == Some(TokenOf(e))
  {}

  /** It does, if the token still owns the delivery. */
  lemma EndMeans(c: Codec, cfg: Config, y: System, token: Token, retries: Option<int>, outcome: Outcome, now: int, op: OpId)
    requires Working(c, y) && token in y.active && Owns(y.w.s, token) && Proper(c, y, End(token, retries, outcome, now, op))
    ensures y.active[token].leaseToken == Some(token)
    ensures EndedAs(c, y, NextSystem(c, cfg, y, End(token, retries, outcome, now, op)), y.active[token], retries, outcome, now, op)
  {
    var act, m := End(token, retries, outcome, now, op), y.active[token];
    hide Working, Proper, Settle, SettlingCmd, NextWorld, CmdOf, VerdictOf, EndedAs, Valid, LeasesOk, Owns, OwnedEntry, HandedMessage;
    TokenIsOwn(c, y, token);
    OwnedIsRemembered(c, y, token);
    WorkingIs(c, y);
    EndIsProper(c, y, act);
    CmdOfEnd(y, act);
    NextStoreIs(c, cfg, y, act);
    CallMeans(c, cfg, y, NextSystem(c, cfg, y, act), m, token, retries, outcome, now, op);
  }

  lemma CallMeans(c: Codec, cfg: Config, y: System, z: System, m: Message, token: Token, retries: Option<int>, outcome: Outcome, now: int, op: OpId)
    requires Valid(c, y.w) && '|' !in token && token != "" && Owns(y.w.s, token) && m.leaseToken == Some(token) && !Has(y.w.hands, op)
    requires HandedMessage(c, OwnedEntry(y.w.s, token)) == m
    requires var v := Settle(m, retries, outcome, now);
      && z.w == NextWorld(c, cfg, y.w, SettlingCmd(v, token, op))
      && (v.Retry? ==> op in z.retrying && z.retrying[op] == (v.delay, v.failure))
    ensures EndedAs(c, y, z, m, retries, outcome, now, op)
  {
    hide Valid, NextWorld, Owns, OwnedEntry, HandedMessage, Lrem, RetryDelay, Find, IsBuriedAs, ReadDead;
    match (retries, outcome)
    case (None, _) => BurialMeans(c, cfg, y.w, m, token, "Unknown task: \"" + m.taskName + "\"", [], now);
    case (Some(r), Succeeded) => AckMeans(c, cfg, y.w, token);
    case (Some(r), Failed(error)) =>
      var failure := Failure(m.attempt, error, now);
      if m.attempt < r { TakeMeans(c, cfg, y.w, token, op); }
      else { BurialMeans(c, cfg, y.w, m, token, error, m.failures + [failure], now); }
  }

  lemma AckMeans(c: Codec, cfg: Config, w: World, token: Token)
    requires Valid(c, w) && '|' !in token && Owns(w.s, token)
    ensures var x := NextWorld(c, cfg, w, AckCmd(token)); var v := x.s;
      && OutOfFlight(w.s, v, OwnedEntry(w.s, token)) && v.pending == w.s.pending && v.delayed == w.s.delayed && v.dead == w.s.dead
      && x.hands == w.hands
  {
    ValidLeases(c, w);
    OwnedByToken(c, w, token);
    hide Valid, LeasesOk, HandedMessage, ReleaseScript, TokenOf, Lrem, Owns, OwnedEntry;
  }

  lemma TakeMeans(c: Codec, cfg: Config, w: World, token: Token, op: OpId)
    requires Valid(c, w) && '|' !in token && Owns(w.s, token) && !Has(w.hands, op)
    ensures var x := NextWorld(c, cfg, w, NackTake(op, token)); var v := x.s;
      && OutOfFlight(w.s, v, OwnedEntry(w.s, token)) && v.pending == w.s.pending && v.delayed == w.s.delayed && v.dead == w.s.dead
      && Has(x.hands, op) && Get(x.hands, op) == NackHand(OwnedEntry(w.s, token))
  {
    ValidLeases(c, w);
    OwnedByToken(c, w, token);
    assert UniqueKeys(w.hands);
    PutKeepsUnique(w.hands, op, NackHand(OwnedEntry(w.s, token)));
    hide Valid, LeasesOk, HandedMessage, ReleaseScript, TokenOf, Lrem, Owns, OwnedEntry, Put, Find;
  }

  lemma BurialMeans(c: Codec, cfg: Config, w: World, m: Message, token: Token, error: string, failures: seq<Failure>, now: int)
    requires Valid(c, w) && '|' !in token && Owns(w.s, token)
    ensures var e := DeadEntry(m.(failures := failures), error, failures, now);
      var v := NextWorld(c, cfg, w, DeadLetterCmd(e, Some(token))).s;
      && OutOfFlight(w.s, v, OwnedEntry(w.s, token)) && v.pending == w.s.pending && v.delayed == w.s.delayed
      && v.dead != [] && IsBuriedAs(ReadDead(c, v.dead[0]), m, error, failures, now)
  {
    var e := DeadEntry(m.(failures := failures), error, failures, now);
    ValidLeases(c, w);
    OwnedByToken(c, w, token);
    assert ReadDead(c, c.showDead(e)) == e by { assert c.readDead(c.showDead(e)) == Some(e); }
    hide Valid, LeasesOk, HandedMessage, ReleaseScript, TokenOf, Lrem, Owns, OwnedEntry, ReadDead, EvictTo;
    DeadLetterTrims(c, cfg, w, e, Some(token));
    var u := Buried(c, w, e, Some(token));
    EvictToData(c, u, |Ltrim(u.s.dead, cfg.maxDead)|);
    assert u.s.dead[0] == c.showDead(e) && |Ltrim(u.s.dead, cfg.maxDead)| > 0;
    hide NextWorld, Buried, Ltrim;
  }

  /** The second command of a retry stores the message again, one attempt further, to be due when its
      backoff has passed. */
  lemma StoreAgainMeans(c: Codec, cfg: Config, y: System, op: OpId, now: int, entry: string)
    requires Working(c, y) && op in y.retrying && Has(y.w.hands, op) && Get(y.w.hands, op) == NackHand(entry)
    ensures var v := NextStore(c, cfg, y, StoreAgain(op, now)); var (delay, failure) := y.retrying[op];
      && !Has(v.hands, op) && v.s.dead == y.w.s.dead && v.s.processing == y.w.s.processing && v.s.reclaim == y.w.s.reclaim
      && exists raw :: IsNacked(HandedMessage(c, entry), Read(c, raw), now + delay, Some(failure))
           && if delay > 0 then (raw, now + delay) in v.s.delayed && v.s.pending == y.w.s.pending
              else v.s.pending == [raw] + y.w.s.pending && v.s.delayed == y.w.s.delayed
  {
    hide *;
    var (delay, failure) := y.retrying[op];
    var m := HandedMessage(c, entry);
    var x := Retried(m, now + delay, Some(failure));
    WorkingIs(c, y);
    ReadyTo(c, y.w);
    ReadsBack(c, x);
    RetriedIs(m, now + delay, Some(failure));
    MemberAdded(y.w.s.delayed, c.showMessage(x), now + delay);
    NextStoreIs(c, cfg, y, StoreAgain(op, now));
    StoreAgainIs(y, op, now);
    PutMeans(c, cfg, y.w, op, now, delay, Some(failure), entry);
  }

  lemma ReadyTo(c: Codec, w: World)
    requires Valid(c, w)
    ensures Faithful(c) && UniqueKeys(w.s.delayed) && UniqueKeys(w.hands)
  {}

  lemma ReadsBack(c: Codec, m: Message)
    requires Faithful(c)
    ensures Read(c, c.showMessage(m)) == m
  {
    assert c.readMessage(c.showMessage(m)) == Some(m);
  }

  lemma RetriedIs(m: Message, at: int, failure: Option<Failure>)
    ensures IsNacked(m, Retried(m, at, failure), at, failure)
  {}

  lemma StoreAgainIs(y: System, op: OpId, now: int)
    requires op in y.retrying
    ensures CmdOf(y, StoreAgain(op, now)) == Some(NackPut(op, now, y.retrying[op].0, Some(y.retrying[op].1)))
  {}

  lemma PutIs(c: Codec, cfg: Config, w: World, op: OpId, now: int, delay: int, failure: Option<Failure>, entry: string)
    requires Has(w.hands, op) && Get(w.hands, op) == NackHand(entry)
    ensures NextWorld(c, cfg, w, NackPut(op, now, delay, failure)) ==
      w.(s := Store(c, w.s, Retried(HandedMessage(c, entry), now + delay, failure), delay > 0), hands := Remove(w.hands, op))
  {
    hide HandedMessage, Store, Remove, Find, Retried, Has, Get;
  }

  lemma StoreIs(c: Codec, s: Server, m: Message, wait: bool)
    ensures Store(c, s, m, wait) ==
      if wait then s.(delayed := Zadd(s.delayed, c.showMessage(m), m.availableAt)) else s.(pending := [c.showMessage(m)] + s.pending)
  {
    hide Zadd;
  }

  lemma DueAt(m: Message, at: int, failure: Option<Failure>)
    ensures Retried(m, at, failure).availableAt == at
  {}

  lemma PutMeans(c: Codec, cfg: Config, w: World, op: OpId, now: int, delay: int, failure: Option<Failure>, entry: string)
    requires UniqueKeys(w.hands) && Has(w.hands, op) && Get(w.hands, op) == NackHand(entry)
    ensures var v, raw := NextWorld(c, cfg, w, NackPut(op, now, delay, failure)), c.showMessage(Retried(HandedMessage(c, entry), now + delay, failure));
      && !Has(v.hands, op) && v.s.dead == w.s.dead && v.s.processing == w.s.processing && v.s.reclaim == w.s.reclaim
      && v.s.delayed == (if delay > 0 then Zadd(w.s.delayed, raw, now + delay) else w.s.delayed)
      && v.s.pending == (if delay > 0 then w.s.pending else [raw] + w.s.pending)
  {
    hide *;
    PutIs(c, cfg, w, op, now, delay, failure, entry);
    StoreIs(c, w.s, Retried(HandedMessage(c, entry), now + delay, failure), delay > 0);
    DueAt(HandedMessage(c, entry), now + delay, failure);
    RemoveKeepsUnique(w.hands, op);
  }

  lemma MemberAdded(z: ZSet, member: string, score: int)
    requires UniqueKeys(z)
    ensures (member, score) in Zadd(z, member, score)
  {
    RemoveKeepsUnique(z, member);
    InsertKeepsKeys(Remove(z, member), (member, score));
  }
}
