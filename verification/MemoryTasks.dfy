/** Workers and the in-memory queue together: what becomes of a job by what its handler does
    (packages/core/src/task.ts, packages/core/src/queue.ts). */
module MemoryTasks {
  // Any number of workers poll, run handlers, send heartbeats and settle, in any order; each settles
  // by `Settle`, however late. The theorems speak of the queue's contents only.

  import opened Options
  import opened QueueTypes
  import opened JsMap
  import L = LeaseQueue
  import F = LeaseQueueFailures
  import opened MemoryQueueModel
  import opened W = MemoryQueueRefinement
  import opened TaskWorkerModel

  /** The queue in its history, and the deliveries whose handlers have not ended, by token. */
  datatype System = System(w: World, active: map<Token, Message>)

  datatype Act =
    | Enqueue(m: Message)
    | Poll(reclaimAt: int, popAt: int, token: Token)
    | Beat(token: Token, expiry: int)
    | End(token: Token, retries: Option<int>, outcome: Outcome, now: int)   // None: no such task is registered
    | Abandon(token: Token)                                                // the worker is gone, or its call was rejected
    | Other(op: Op)

  /** The queue operation an act makes, if any. */
  function OpOf(y: System, act: Act): Option<Op> {
    match act
    case Enqueue(m) => Some(DoPush(m))
    case Poll(t1, t2, token) => Some(DoPop(t1, t2, token))
    case Beat(token, expiry) => if token in y.active then Some(DoExtend(y.active[token].id, token, expiry)) else None
    case End(token, retries, outcome, now) =>
      if token in y.active then Some(MemoryCall(Settle(y.active[token], retries, outcome, now), y.active[token], token, now))
      else None
    case Abandon(_) => None
    case Other(op) => Some(op)
  }

  function Popped(y: System, cfg: Config, act: Act): Option<Message> {
    if act.Poll? then TakeFirstDue(Reclaimed(y.w.q, cfg, act.reclaimAt), cfg, act.popAt, act.token).1 else None
  }

  function NextQueue(y: System, cfg: Config, act: Act): World {
    match OpOf(y, act) case Some(op) => NextWorld(y.w, cfg, op) case None => y.w
  }

  function NextActive(y: System, cfg: Config, act: Act): map<Token, Message> {
    match act
    case Poll(_, _, token) => if Popped(y, cfg, act).Some? then y.active[token := Popped(y, cfg, act).value] else y.active
    case End(token, _, _, _) => y.active - {token}
    case Abandon(token) => y.active - {token}
    case _ => y.active
  }

  function NextSystem(y: System, cfg: Config, act: Act): System {
    System(NextQueue(y, cfg, act), NextActive(y, cfg, act))
  }

  /** Fresh ids of jobs made by `createEnqueue`, fresh tokens, clocks that do not go back, and workers
      whose `retries` is the one the job was enqueued with. */
  ghost predicate Proper(y: System, act: Act) {
    match act
    case Enqueue(m) => m.id !in y.w.pushed && L.Enqueued(m)
    case Poll(t1, t2, token) => t1 <= t2 <= y.w.clock && token !in y.w.issued
    case End(token, retries, _, _) => token in y.active && retries.Some? ==> retries.value == y.active[token].maxRetries
    case Other(op) => op.DoRedrive? || op.DoRedriveMany? || op.DoPurge? || (op.DoWait? && y.w.clock <= op.now)
    case _ => true
  }

  /** Whoever still carries the token carries this message. */
  ghost predicate Remembered(s: L.State, token: Token, m: Message) {
    && m.id in s.pushed && L.HandedOut(m) && token in s.issued
    && forall x :: x in s.slots && L.Tokened(x) && x.token == token ==> x.m == m
  }

  ghost predicate Working(y: System) {
    && Valid(y.w.q) && L.Safe(L.Budgeted, Abstract(y.w))
    && forall token :: token in y.active ==> Remembered(Abstract(y.w), token, y.active[token])
  }

  lemma RememberedStays(s: L.State, t: L.State, token: Token, m: Message)
    requires Remembered(s, token, m) && L.NothingRevived(s, t)
    ensures Remembered(t, token, m)
  {
    forall x | x in t.slots && L.Tokened(x) && x.token == token ensures x.m == m {
      assert L.CarriedAs(t, token, x.m);
      assert L.CarriedAs(s, token, x.m);
    }
  }

  lemma HeldIsRemembered(y: System, token: Token)
    requires Working(y) && token in y.active
    ensures var m := y.active[token];
      m.id in y.w.pushed && L.HandedOut(m) && (Holds(y.w.q, m.id, Some(token)) ==> Get(y.w.q.inFlight, m.id).message == m)
  {
    HeldIsLeased(y.w, y.active[token].id, token);
    hide Find, L.HandedOut, L.Safe, SlotsOf;
  }

  // ---- Every call is within the budget ----

  lemma OpOfEnd(y: System, act: Act)
    requires act.End?
    ensures OpOf(y, act) == if act.token !in y.active then None else
      Some(MemoryCall(Settle(y.active[act.token], act.retries, act.outcome, act.now), y.active[act.token], act.token, act.now))
  {
    hide Settle, MemoryCall;
  }

  lemma OtherCallIsPermitted(mode: L.Mode, y: System, act: Act)
    requires Proper(y, act) && !act.End? && OpOf(y, act).Some? && L.Budget(mode)
    ensures Permitted(mode, y.w, OpOf(y, act).value)
  {
    hide L.Enqueued, Settle, MemoryCall;
  }

  lemma EndIsProper(y: System, act: Act)
    requires Proper(y, act) && act.End? && act.token in y.active
    ensures act.retries.Some? ==> act.retries.value == y.active[act.token].maxRetries
  {}

  lemma CallIsPermitted(y: System, act: Act)
    requires Working(y) && Proper(y, act) && OpOf(y, act).Some?
    ensures Permitted(L.Budgeted, y.w, OpOf(y, act).value)
  {
    hide *;
    if act.End? {
      OpOfEnd(y, act);
      HeldIsRemembered(y, act.token);
      EndIsProper(y, act);
      MemoryCallIsPermitted(y.w, act.token, y.active[act.token], act.retries, act.outcome, act.now);
    } else {
      BudgetedHasBudget();
      OtherCallIsPermitted(L.Budgeted, y, act);
    }
  }

  lemma BudgetedHasBudget()
    ensures L.Budget(L.Budgeted) && forall id, n :: L.Budget(L.Failing(id, n))
  {}

  lemma PollIs(y: System, cfg: Config, act: Act)
    requires act.Poll?
    ensures OpOf(y, act) == Some(DoPop(act.reclaimAt, act.popAt, act.token))
    ensures NextQueue(y, cfg, act) == NextWorld(y.w, cfg, DoPop(act.reclaimAt, act.popAt, act.token))
    ensures Popped(y, cfg, act) == TakeFirstDue(Reclaimed(y.w.q, cfg, act.reclaimAt), cfg, act.popAt, act.token).1
  {
    hide NextWorld, Settle, TakeFirstDue, Reclaimed;
  }

  lemma WorkingIs(y: System)
    requires Working(y)
    ensures Valid(y.w.q) && L.Safe(L.Budgeted, Abstract(y.w))
  {}

  lemma PoppedIs(y: System, cfg: Config, act: Act)
    requires Working(y) && Proper(y, act) && act.Poll? && Popped(y, cfg, act).Some?
    ensures var m := Popped(y, cfg, act).value; var s := Abstract(NextQueue(y, cfg, act));
      L.Leased(act.token, m, act.popAt + cfg.visibility) in s.slots
  {
    hide *;
    PollIs(y, cfg, act);
    CallIsPermitted(y, act);
    WorkingIs(y);
    PoppedIsLeased(y.w, cfg, act.reclaimAt, act.popAt, act.token, Popped(y, cfg, act).value);
  }

  lemma OnlyPollsPop(y: System, cfg: Config, act: Act)
    ensures Popped(y, cfg, act).Some? ==> act.Poll?
    ensures Proper(y, act) && !act.Poll? && OpOf(y, act).Some? ==> !OpOf(y, act).value.DoPop?
  {
    hide TakeFirstDue, Reclaimed, Settle;
  }

  lemma LeasedIsRemembered(s: L.State, x: L.Slot)
    requires L.Safe(L.Budgeted, s) && x in s.slots && x.Leased?
    ensures Remembered(s, x.token, x.m)
  {
    assert L.WithinBudget(x) && L.SlotId(x) in s.pushed && L.Tokened(x);
    hide L.HandedOut;
  }

  lemma QueueStaysSafe(y: System, cfg: Config, act: Act)
    requires Working(y) && Proper(y, act)
    ensures var v := NextQueue(y, cfg, act);
      Valid(v.q) && L.Safe(L.Budgeted, Abstract(v)) && L.NothingRevived(Abstract(y.w), Abstract(v))
  {
    hide *;
    WorkingIs(y);
    NextQueueIs(y, cfg, act);
    if OpOf(y, act).Some? {
      var op := OpOf(y, act).value;
      CallIsPermitted(y, act);
      MemoryQueueRefines(L.Budgeted, y.w, cfg, op);
      L.ReachableIsSafe(L.Budgeted, Abstract(y.w), Abstract(NextWorld(y.w, cfg, op)), HandedBy(y.w, cfg, op), RedrivenBy(y.w, op));
    } else {
      NothingIsRevived(Abstract(y.w));
    }
  }

  lemma NextQueueIs(y: System, cfg: Config, act: Act)
    ensures NextQueue(y, cfg, act) == if OpOf(y, act).Some? then NextWorld(y.w, cfg, OpOf(y, act).value) else y.w
  {
    hide NextWorld, OpOf;
  }

  lemma NothingIsRevived(s: L.State)
    ensures L.NothingRevived(s, s)
  {}

  lemma ActiveIs(y: System, cfg: Config, act: Act)
    ensures forall token :: token in NextActive(y, cfg, act) ==>
      || (token in y.active && NextActive(y, cfg, act)[token] == y.active[token])
      || (act.Poll? && token == act.token && Popped(y, cfg, act) == Some(NextActive(y, cfg, act)[token]))
  {
    hide Popped;
  }

  /** Whatever the workers do, every call they make is within the retry budget, and every delivery
      is about the message its lease holds. */
  lemma ActKeepsWorking(y: System, cfg: Config, act: Act)
    requires Working(y) && Proper(y, act)
    ensures Working(NextSystem(y, cfg, act))
  {
    hide Valid, L.Safe, Abstract, Remembered, Popped, OpOf, NextQueue, Proper, NextActive;
    var z := NextSystem(y, cfg, act);
    QueueStaysSafe(y, cfg, act);
    ActiveIs(y, cfg, act);
    OnlyPollsPop(y, cfg, act);
    if Popped(y, cfg, act).Some? {
      PoppedIs(y, cfg, act);
      LeasedIsRemembered(Abstract(z.w), L.Leased(act.token, Popped(y, cfg, act).value, act.popAt + cfg.visibility));
    }
    forall token | token in z.active ensures Remembered(Abstract(z.w), token, z.active[token]) {
      if token in y.active && z.active[token] == y.active[token] {
        RememberedStays(Abstract(y.w), Abstract(z.w), token, y.active[token]);
      }
    }
  }

  ghost predicate RunIsProper(y: System, cfg: Config, acts: seq<Act>)
    decreases |acts|
  {
    acts == [] || (Proper(y, acts[0]) && RunIsProper(NextSystem(y, cfg, acts[0]), cfg, acts[1..]))
  }

  function RunOf(y: System, cfg: Config, acts: seq<Act>): System
    decreases |acts|
  {
    if acts == [] then y else RunOf(NextSystem(y, cfg, acts[0]), cfg, acts[1..])
  }

  // ---- Acked only when the handler succeeded ----

  /** The handler of a delivery of the job succeeded, and the delivery's lease is still held. */
  predicate SucceedsUnderLease(y: System, act: Act, id: string) {
    && act.End? && act.token in y.active && y.active[act.token].id == id && act.retries.Some? && act.outcome.Succeeded?
    && Holds(y.w.q, id, Some(act.token))
  }

  function Successes(y: System, cfg: Config, acts: seq<Act>, id: string): nat
    decreases |acts|
  {
    if acts == [] then 0
    else (if SucceedsUnderLease(y, acts[0], id) then 1 else 0) + Successes(NextSystem(y, cfg, acts[0]), cfg, acts[1..], id)
  }

  lemma {:induction false} EvictionsAckNothing(w: World, n: nat, id: string)
    requires n <= |w.q.dead|
    ensures EvictMany(w, n).gone[L.Gone(id, L.Acked)] == w.gone[L.Gone(id, L.Acked)]
    decreases n
  {
    if n > 0 { EvictionsAckNothing(Evict(w), n - 1, id); }
  }

  lemma BurialAcksNothing(w: World, cfg: Config, e: DeadEntry, id: string)
    ensures BuryIn(w, cfg, e).gone[L.Gone(id, L.Acked)] == w.gone[L.Gone(id, L.Acked)]
  {
    var v := w.(q := w.q.(dead := w.q.dead + [e]));
    EvictionsAckNothing(v, |v.q.dead| - |KeepLast(v.q.dead, cfg.maxDead)|, id);
  }

  lemma {:induction false} ReclaimAcksNothing(w: World, cfg: Config, es: seq<(string, InFlight)>, now: int, id: string)
    ensures ReclaimFromIn(w, cfg, es, now).gone[L.Gone(id, L.Acked)] == w.gone[L.Gone(id, L.Acked)]
    decreases |es|
  {
    if es != [] {
      var v := if es[0].1.expiresAt > now then w else ReclaimOneIn(w, cfg, es[0], now);
      var m := Expired(es[0].1.message, cfg.expiryError, now);
      BurialAcksNothing(w.(q := w.q.(inFlight := Remove(w.q.inFlight, es[0].0))), cfg, DeadEntry(m, cfg.expiryError, m.failures, now), id);
      hide BuryIn, Remove;
      ReclaimAcksNothing(v, cfg, es[1..], now, id);
    }
  }

  lemma {:induction false} RedriveAcksNothing(w: World, n: nat, now: int)
    ensures RedriveManyIn(w, n, now).gone == w.gone
    decreases n
  {
    if n != 0 && w.q.dead != [] { RedriveAcksNothing(w.(q := RedriveAt(w.q, 0, now)), n - 1, now); }
  }

  /** Only an ack under the lease takes a job off as done. */
  lemma OperationAcks(w: World, cfg: Config, op: Op, id: string)
    requires Valid(w.q)
    ensures NextWorld(w, cfg, op).gone[L.Gone(id, L.Acked)] ==
      w.gone[L.Gone(id, L.Acked)] + if op.DoAck? && op.id == id && Holds(w.q, id, op.lease) then 1 else 0
  {
    hide Remove, Find, BuryIn, ReclaimFromIn, TakeFirstDue, RedriveManyIn;
    match op
    case DoPop(t1, _, _) => ReclaimAcksNothing(w, cfg, w.q.inFlight, t1, id);
    case DoDeadLetter(e, lease) =>
      BurialAcksNothing(if Holds(w.q, e.message.id, lease) then w.(q := w.q.(inFlight := Remove(w.q.inFlight, e.message.id))) else w, cfg, e, id);
    case DoPurge => EvictionsAckNothing(w, |w.q.dead|, id);
    case DoRedriveMany(n, now) => RedriveAcksNothing(w, n, now);
    case DoAck(other, lease) => if Holds(w.q, other, lease) { OwnId(w.q, other); }
    case _ =>
  }

  lemma OwnId(q: Mem, id: string)
    requires Valid(q) && Has(q.inFlight, id)
    ensures Get(q.inFlight, id).message.id == id
  {
    assert q.inFlight[Find(q.inFlight, id)].0 == id;
  }

  lemma AcksAreSuccesses(y: System, act: Act, id: string)
    requires Proper(y, act) && OpOf(y, act).Some?
    ensures var op := OpOf(y, act).value;
      op.DoAck? && op.id == id && Holds(y.w.q, id, op.lease) <==> SucceedsUnderLease(y, act, id)
  {
    hide Holds, RetryDelay, L.Enqueued;
  }

  lemma ActAcks(y: System, cfg: Config, act: Act, id: string)
    requires Working(y) && Proper(y, act)
    ensures NextQueue(y, cfg, act).gone[L.Gone(id, L.Acked)] ==
      y.w.gone[L.Gone(id, L.Acked)] + if SucceedsUnderLease(y, act, id) then 1 else 0
  {
    hide *;
    NextQueueIs(y, cfg, act);
    WorkingIs(y);
    if OpOf(y, act).Some? {
      OperationAcks(y.w, cfg, OpOf(y, act).value, id);
      AcksAreSuccesses(y, act, id);
    } else {
      NoCallNoSuccess(y, act, id);
    }
  }

  lemma NoCallNoSuccess(y: System, act: Act, id: string)
    requires OpOf(y, act).None?
    ensures !SucceedsUnderLease(y, act, id)
  {
    hide Holds, Settle;
  }

  /** Over any run, a job is acked once for each of its deliveries whose handler succeeded while its
      lease was held, and never otherwise. */
  lemma {:induction false} AckedExactly(y: System, cfg: Config, acts: seq<Act>, id: string)
    requires Working(y) && RunIsProper(y, cfg, acts)
    ensures Working(RunOf(y, cfg, acts))
    ensures RunOf(y, cfg, acts).w.gone[L.Gone(id, L.Acked)] == y.w.gone[L.Gone(id, L.Acked)] + Successes(y, cfg, acts, id)
    decreases |acts|
  {
    if acts != [] {
      ActAcks(y, cfg, acts[0], id);
      ActKeepsWorking(y, cfg, acts[0]);
      hide Working, Proper, SucceedsUnderLease, NextQueue, NextActive;
      AckedExactly(NextSystem(y, cfg, acts[0]), cfg, acts[1..], id);
    }
  }

  // ---- Every delivery fails ----

  /** If the act ends a delivery of the job, its handler failed, in a worker that has the task. */
  predicate EndsInFailure(y: System, act: Act, id: string) {
    act.End? && act.token in y.active && y.active[act.token].id == id ==> act.retries.Some? && act.outcome.Failed?
  }

  predicate Redrives(y: System, act: Act, id: string) { act.Other? && id in RedrivenBy(y.w, act.op) }

  ghost predicate AlwaysFails(y: System, cfg: Config, acts: seq<Act>, id: string)
    decreases |acts|
  {
    acts == [] ||
    (EndsInFailure(y, acts[0], id) && !Redrives(y, acts[0], id) && AlwaysFails(NextSystem(y, cfg, acts[0]), cfg, acts[1..], id))
  }

  /** How often the job is delivered in a run. */
  function Deliveries(y: System, cfg: Config, acts: seq<Act>, id: string): nat
    decreases |acts|
  {
    if acts == [] then 0 else HandedIn(y, cfg, acts[0], id) + Deliveries(NextSystem(y, cfg, acts[0]), cfg, acts[1..], id)
  }

  ghost predicate InVain(y: System, id: string, retries: int, d: int) {
    && Working(y) && F.FailedSoFar(Abstract(y.w), id, retries, d)
    && forall token :: token in y.active && y.active[token].id == id ==> F.OnRecord(y.active[token], retries)
  }

  lemma BurialIsFull(m: Message, retries: int, error: string, now: int)
    requires F.OnRecord(m, retries) && m.attempt >= retries
    ensures var v := Settle(m, Some(retries), Failed(error), now); v.GiveUp? && L.AllFailed(v.entry, retries)
  {
    F.RecordGrows(m, retries, Failure(m.attempt, error, now));
  }

  lemma SettlingIsPermitted(w: World, id: string, n: int, token: Token, m: Message, retries: Option<int>, outcome: Outcome, now: int)
    requires Permitted(L.Budgeted, w, MemoryCall(Settle(m, retries, outcome, now), m, token, now))
    requires m.id == id ==> F.OnRecord(m, n) && retries == Some(n) && outcome.Failed?
    requires Holds(w.q, m.id, Some(token)) ==> Get(w.q.inFlight, m.id).message == m
    ensures Permitted(L.Failing(id, n), w, MemoryCall(Settle(m, retries, outcome, now), m, token, now))
  {
    if m.id == id && m.attempt >= n { BurialIsFull(m, n, outcome.error, now); }
    hide RetryDelay, Find, L.AllFailed;
  }

  lemma CallOfFailing(y: System, act: Act, id: string, n: int, d: int)
    requires InVain(y, id, n, d) && Proper(y, act) && OpOf(y, act).Some?
    requires EndsInFailure(y, act, id)
    ensures Permitted(L.Failing(id, n), y.w, OpOf(y, act).value)
  {
    hide *;
    InVainWorks(y, id, n, d);
    if act.End? {
      CallIsPermitted(y, act);
      OpOfEnd(y, act);
      HeldIsRemembered(y, act.token);
      EndIsInVain(y, act, id, n, d);
      SettlingIsPermitted(y.w, id, n, act.token, y.active[act.token], act.retries, act.outcome, act.now);
    } else {
      BudgetedHasBudget();
      OtherCallIsPermitted(L.Failing(id, n), y, act);
    }
  }

  lemma InVainWorks(y: System, id: string, n: int, d: int)
    requires InVain(y, id, n, d)
    ensures Working(y) && F.FailedSoFar(Abstract(y.w), id, n, d)
  {}

  lemma EndIsInVain(y: System, act: Act, id: string, n: int, d: int)
    requires InVain(y, id, n, d) && Proper(y, act) && act.End? && act.token in y.active && EndsInFailure(y, act, id)
    ensures y.active[act.token].id == id ==> F.OnRecord(y.active[act.token], n) && act.retries == Some(n) && act.outcome.Failed?
  {
    hide Working, F.FailedSoFar;
  }

  lemma HandedOf(w: World, cfg: Config, t1: int, t2: int, token: Token)
    requires Valid(w.q) && Permitted(L.Budgeted, w, DoPop(t1, t2, token))
    ensures var r := TakeFirstDue(Reclaimed(w.q, cfg, t1), cfg, t2, token).1;
      HandedBy(w, cfg, DoPop(t1, t2, token)) == if r.Some? then multiset{r.value.id} else multiset{}
  {
    StartsThere(w.q);
    ReclaimReaches(L.Budgeted, w, cfg, w.q.inFlight, t1);
    hide L.ReachesBy, Abstract, ReclaimFrom, ReclaimFromIn, TakeFirstDue, Valid;
  }

  lemma HandsNothing(w: World, cfg: Config, op: Op)
    ensures !op.DoPop? ==> HandedBy(w, cfg, op) == multiset{}
  {
    hide ReclaimFromIn, TakeFirstDue;
  }

  function HandedIn(y: System, cfg: Config, act: Act, id: string): nat {
    if Popped(y, cfg, act).Some? && Popped(y, cfg, act).value.id == id then 1 else 0
  }

  lemma HandedByPoll(y: System, cfg: Config, act: Act, id: string)
    requires Working(y) && Proper(y, act) && OpOf(y, act).Some?
    ensures HandedBy(y.w, cfg, OpOf(y, act).value)[id] == HandedIn(y, cfg, act, id)
  {
    hide Working, Proper, OpOf, HandedBy, Popped, TakeFirstDue, Reclaimed, Permitted;
    OnlyPollsPop(y, cfg, act);
    if act.Poll? {
      PollIs(y, cfg, act);
      CallIsPermitted(y, act);
      WorkingIs(y);
      HandedOf(y.w, cfg, act.reclaimAt, act.popAt, act.token);
    } else {
      HandsNothing(y.w, cfg, OpOf(y, act).value);
    }
  }

  lemma RedrivenByAct(y: System, act: Act, id: string)
    requires Proper(y, act) && OpOf(y, act).Some? && !Redrives(y, act, id)
    ensures id !in RedrivenBy(y.w, OpOf(y, act).value)
  {
    hide Settle, DeadJobs;
  }

  lemma ActInVain(y: System, cfg: Config, act: Act, id: string, n: int, d: int)
    requires InVain(y, id, n, d) && Proper(y, act) && EndsInFailure(y, act, id) && !Redrives(y, act, id)
    ensures InVain(NextSystem(y, cfg, act), id, n, d + HandedIn(y, cfg, act, id))
  {
    hide Working, F.FailedSoFar, OpOf, NextQueue, F.OnRecord, Popped, Proper, Abstract, EndsInFailure, Redrives, NextActive, HandedIn;
    var z, e := NextSystem(y, cfg, act), d + HandedIn(y, cfg, act, id);
    ActKeepsWorking(y, cfg, act);
    QueueFails(y, cfg, act, id, n, d);
    ActiveIs(y, cfg, act);
    OnlyPollsPop(y, cfg, act);
    if Popped(y, cfg, act).Some? {
      PoppedIs(y, cfg, act);
      LeasedIsOnRecord(Abstract(z.w), L.Leased(act.token, Popped(y, cfg, act).value, act.popAt + cfg.visibility), id, n, e);
    }
  }

  lemma LeasedIsOnRecord(s: L.State, x: L.Slot, id: string, n: int, d: int)
    requires F.FailedSoFar(s, id, n, d) && x in s.slots && x.Leased?
    ensures x.m.id == id ==> F.OnRecord(x.m, n)
  {
    assert x.m.id == L.SlotId(x);
    hide F.OnRecord;
  }

  lemma QueueFails(y: System, cfg: Config, act: Act, id: string, n: int, d: int)
    requires InVain(y, id, n, d) && Proper(y, act) && EndsInFailure(y, act, id) && !Redrives(y, act, id)
    ensures F.FailedSoFar(Abstract(NextQueue(y, cfg, act)), id, n, d + HandedIn(y, cfg, act, id))
  {
    hide *;
    NextQueueIs(y, cfg, act);
    InVainWorks(y, id, n, d);
    WorkingIs(y);
    if OpOf(y, act).Some? {
      var op := OpOf(y, act).value;
      CallOfFailing(y, act, id, n, d);
      HandedByPoll(y, cfg, act, id);
      RedrivenByAct(y, act, id);
      MemoryQueueRefines(L.Failing(id, n), y.w, cfg, op);
      F.ReachesByFails(Abstract(y.w), Abstract(NextWorld(y.w, cfg, op)), HandedBy(y.w, cfg, op), RedrivenBy(y.w, op), id, n, d);
    } else {
      NoCallNoHand(y, cfg, act, id);
    }
  }

  lemma NoCallNoHand(y: System, cfg: Config, act: Act, id: string)
    requires OpOf(y, act).None?
    ensures HandedIn(y, cfg, act, id) == 0
  {
    hide TakeFirstDue, Reclaimed, Settle;
  }

  lemma {:induction false} RunInVain(y: System, cfg: Config, acts: seq<Act>, id: string, n: int, d: int)
    requires InVain(y, id, n, d) && RunIsProper(y, cfg, acts) && AlwaysFails(y, cfg, acts, id)
    ensures InVain(RunOf(y, cfg, acts), id, n, d + Deliveries(y, cfg, acts, id))
    decreases |acts|
  {
    hide InVain, Proper, EndsInFailure, Redrives, NextSystem, HandedIn;
    if acts != [] {
      ActInVain(y, cfg, acts[0], id, n, d);
      RunInVain(NextSystem(y, cfg, acts[0]), cfg, acts[1..], id, n, d + HandedIn(y, cfg, acts[0], id));
    }
  }

  /** Where a job is whose `d` deliveries all failed, on the queue's own lists. */
  ghost predicate FailedPlaces(w: World, id: string, retries: int, d: int) {
    && d <= retries + 1
    && (forall m :: m in w.q.messages && m.id == id ==> m.attempt == |m.failures| == d <= retries)
    && (Has(w.q.inFlight, id) ==> var m := Get(w.q.inFlight, id).message; m.attempt == |m.failures| == d - 1)
    && (forall e :: e in w.q.dead && e.message.id == id ==> L.AllFailed(e, retries))
    && L.Gone(id, L.Acked) !in w.gone && L.Gone(id, L.Lost) !in w.gone
    && (!Has(w.q.inFlight, id) && (forall m :: m in w.q.messages ==> m.id != id) ==>
          d == retries + 1 && ((exists e :: e in w.q.dead && e.message.id == id) || L.Gone(id, L.Discarded) in w.gone))
  }

  lemma MessageSlot(w: World, i: nat)
    requires i < |w.q.messages|
    ensures L.Ready(w.q.messages[i]) in Abstract(w).slots
  {
    assert ReadySlots(w.q.messages)[i] in multiset(ReadySlots(w.q.messages));
  }

  lemma DeadSlot(w: World, i: nat)
    requires i < |w.q.dead|
    ensures L.Dead(w.q.dead[i]) in Abstract(w).slots
  {
    assert DeadSlots(w.q.dead)[i] in multiset(DeadSlots(w.q.dead));
  }

  lemma SlotIsSomewhere(w: World, x: L.Slot)
    requires Valid(w.q) && x in Abstract(w).slots
    ensures (x.Ready? && x.m in w.q.messages) || (x.Leased? && Has(w.q.inFlight, x.m.id)) || (x.Dead? && x.entry in w.q.dead) || x in w.gone
  {
    if x in multiset(LeasedSlots(w.q.inFlight)) {
      var i :| 0 <= i < |w.q.inFlight| && LeasedSlots(w.q.inFlight)[i] == x;
      FoundAt(w.q.inFlight, i);
    }
    if x in multiset(ReadySlots(w.q.messages)) { assert x in ReadySlots(w.q.messages); }
    if x in multiset(DeadSlots(w.q.dead)) { assert x in DeadSlots(w.q.dead); }
  }

  /** What has left the queue is gone. */
  predicate OnlyGone(w: World) { forall x :: x in w.gone ==> x.Gone? }

  lemma PlacesOfFailed(w: World, id: string, retries: int, d: int)
    requires Valid(w.q) && L.AtLeastOnePlace(Abstract(w)) && F.FailedSoFar(Abstract(w), id, retries, d) && id in w.pushed && OnlyGone(w)
    ensures FailedPlaces(w, id, retries, d)
  {
    forall m | m in w.q.messages && m.id == id ensures m.attempt == |m.failures| == d <= retries {
      var i :| 0 <= i < |w.q.messages| && w.q.messages[i] == m;
      MessageSlot(w, i);
      assert F.Fits(L.Ready(m), retries, d) by { assert L.SlotId(L.Ready(m)) == id; }
    }
    if Has(w.q.inFlight, id) {
      EntryIsLeased(w, id);
      OwnId(w.q, id);
      var e := Get(w.q.inFlight, id);
      var x := L.Leased(e.leaseToken, e.message, e.expiresAt);
      assert L.SlotId(x) == id;
    }
    forall e | e in w.q.dead && e.message.id == id ensures L.AllFailed(e, retries) {
      var i :| 0 <= i < |w.q.dead| && w.q.dead[i] == e;
      DeadSlot(w, i);
      assert L.SlotId(L.Dead(e)) == id;
    }
    GoneFits(w, id, retries, d);
    if !Has(w.q.inFlight, id) && (forall m :: m in w.q.messages ==> m.id != id) { NowhereLive(w, id, retries, d); }
  }

  lemma GoneFits(w: World, id: string, retries: int, d: int)
    requires F.FailedSoFar(Abstract(w), id, retries, d)
    ensures L.Gone(id, L.Acked) !in w.gone && L.Gone(id, L.Lost) !in w.gone
  {
    hide SlotsOf;
    forall fate | L.Gone(id, fate) in w.gone ensures fate == L.Discarded {
      assert L.Gone(id, fate) in Abstract(w).slots && L.SlotId(L.Gone(id, fate)) == id;
    }
  }

  lemma NowhereLive(w: World, id: string, retries: int, d: int)
    requires Valid(w.q) && L.AtLeastOnePlace(Abstract(w)) && F.FailedSoFar(Abstract(w), id, retries, d) && id in w.pushed && OnlyGone(w)
    requires !Has(w.q.inFlight, id) && forall m :: m in w.q.messages ==> m.id != id
    ensures d == retries + 1 && ((exists e :: e in w.q.dead && e.message.id == id) || L.Gone(id, L.Discarded) in w.gone)
  {
    hide SlotsOf, Find;
    if d <= retries {
      var x :| x in Abstract(w).slots && L.SlotId(x) == id && !L.Settled(x);
      SlotIsSomewhere(w, x);
    }
    assert id in Abstract(w).pushed;
    var x :| x in Abstract(w).slots && L.SlotId(x) == id;
    SlotIsSomewhere(w, x);
    assert F.Fits(x, retries, d);
  }

  lemma {:induction false} EvictionsAreGone(w: World, n: nat)
    requires n <= |w.q.dead| && OnlyGone(w)
    ensures OnlyGone(EvictMany(w, n))
    decreases n
  {
    if n > 0 { EvictionsAreGone(Evict(w), n - 1); }
  }

  lemma BurialIsGone(w: World, cfg: Config, e: DeadEntry)
    requires OnlyGone(w)
    ensures OnlyGone(BuryIn(w, cfg, e))
  {
    var v := w.(q := w.q.(dead := w.q.dead + [e]));
    EvictionsAreGone(v, |v.q.dead| - |KeepLast(v.q.dead, cfg.maxDead)|);
  }

  lemma {:induction false} ReclaimIsGone(w: World, cfg: Config, es: seq<(string, InFlight)>, now: int)
    requires OnlyGone(w)
    ensures OnlyGone(ReclaimFromIn(w, cfg, es, now))
    decreases |es|
  {
    if es != [] {
      var v := if es[0].1.expiresAt > now then w else ReclaimOneIn(w, cfg, es[0], now);
      var m := Expired(es[0].1.message, cfg.expiryError, now);
      BurialIsGone(w.(q := w.q.(inFlight := Remove(w.q.inFlight, es[0].0))), cfg, DeadEntry(m, cfg.expiryError, m.failures, now));
      hide BuryIn, Remove;
      ReclaimIsGone(v, cfg, es[1..], now);
    }
  }

  lemma OperationIsGone(w: World, cfg: Config, op: Op)
    requires OnlyGone(w)
    ensures OnlyGone(NextWorld(w, cfg, op))
  {
    hide Remove, Find, BuryIn, ReclaimFromIn, TakeFirstDue, RedriveManyIn;
    match op
    case DoPop(t1, _, _) => ReclaimIsGone(w, cfg, w.q.inFlight, t1);
    case DoDeadLetter(e, lease) =>
      BurialIsGone(if Holds(w.q, e.message.id, lease) then w.(q := w.q.(inFlight := Remove(w.q.inFlight, e.message.id))) else w, cfg, e);
    case DoPurge => EvictionsAreGone(w, |w.q.dead|);
    case DoRedriveMany(n, now) => RedriveAcksNothing(w, n, now);
    case _ =>
  }

  lemma {:induction false} RunIsGone(y: System, cfg: Config, acts: seq<Act>)
    requires OnlyGone(y.w)
    ensures OnlyGone(RunOf(y, cfg, acts).w)
    decreases |acts|
  {
    if acts != [] {
      if OpOf(y, acts[0]).Some? { OperationIsGone(y.w, cfg, OpOf(y, acts[0]).value); }
      hide OnlyGone, NextWorld, OpOf, NextActive;
      RunIsGone(NextSystem(y, cfg, acts[0]), cfg, acts[1..]);
    }
  }

  /** A job whose every delivery fails, by its handler or by its lease, late or not: it is never acked
      nor lost; while it waits or runs, its failures are its deliveries so far; and once it does
      neither it was delivered exactly `maxRetries + 1` times and lies in the dead list with that many
      failures, unless the list pushed it out. */
  lemma FailingJobIsBuried(y: System, cfg: Config, m: Message, acts: seq<Act>)
    requires Working(y) && OnlyGone(y.w) && Proper(y, Enqueue(m))
    requires RunIsProper(NextSystem(y, cfg, Enqueue(m)), cfg, acts) && AlwaysFails(NextSystem(y, cfg, Enqueue(m)), cfg, acts, m.id)
    ensures var v := NextSystem(y, cfg, Enqueue(m));
      FailedPlaces(RunOf(v, cfg, acts).w, m.id, m.maxRetries, Deliveries(v, cfg, acts, m.id))
  {
    hide *;
    var v := NextSystem(y, cfg, Enqueue(m));
    EnqueuedInVain(y, cfg, m);
    RunInVain(v, cfg, acts, m.id, m.maxRetries, 0);
    RunIsGone(v, cfg, acts);
    var z := RunOf(v, cfg, acts);
    InVainIs(z, m.id, m.maxRetries, Deliveries(v, cfg, acts, m.id));
    PlacesOfFailed(z.w, m.id, m.maxRetries, Deliveries(v, cfg, acts, m.id));
  }

  lemma InVainIs(z: System, id: string, n: int, d: int)
    requires InVain(z, id, n, d)
    ensures Valid(z.w.q) && L.AtLeastOnePlace(Abstract(z.w)) && F.FailedSoFar(Abstract(z.w), id, n, d) && id in z.w.pushed
  {}

  lemma EnqueuedInVain(y: System, cfg: Config, m: Message)
    requires Working(y) && OnlyGone(y.w) && Proper(y, Enqueue(m))
    ensures var v := NextSystem(y, cfg, Enqueue(m)); InVain(v, m.id, m.maxRetries, 0) && OnlyGone(v.w)
  {
    var v := NextSystem(y, cfg, Enqueue(m));
    ActKeepsWorking(y, cfg, Enqueue(m));
    GainMessage(y.w, m);
    assert Abstract(v.w) == L.Next(Abstract(y.w), L.Push(m));
    F.PushFailsNot(Abstract(y.w), m);
    forall token | token in v.active ensures v.active[token].id != m.id {
      assert Remembered(Abstract(y.w), token, y.active[token]);
      assert Abstract(y.w).pushed == y.w.pushed;
    }
    hide F.FailedSoFar, SlotsOf;
  }

  // ---- What the end of a handler does to the queue ----

  /** The newest dead entry, if the list keeps any. */
  predicate NewestDead(v: Mem, cfg: Config, m: Message, error: string, failures: seq<Failure>, now: int) {
    cfg.maxDead > 0 ==> |v.dead| > 0 && IsBuriedAs(v.dead[|v.dead| - 1], m, error, failures, now)
  }

  /** Taken off as done. */
  predicate IsDone(q: Mem, v: Mem, cfg: Config, id: string) {
    v.messages == q.messages && v.dead == q.dead && (cfg.maxCompleted > 0 ==> id in v.completed)
  }

  /** Waiting again until `at`, behind the others. */
  predicate WaitsAgain(q: Mem, v: Mem, m: Message, at: int, failure: Failure) {
    && v.dead == q.dead && |v.messages| == |q.messages| + 1 && v.messages[..|q.messages|] == q.messages
    && IsNacked(m, v.messages[|q.messages|], at, Some(failure))
  }

  /** What should become of a delivery: one whose handler succeeds is done; one that fails within the
      task's retries waits again for the backoff of its attempt, with its failure on record; one that
      fails past them is dead with all of its failures, and so is one of an unknown task, with none. */
  ghost predicate EndedAs(q: Mem, v: Mem, cfg: Config, m: Message, retries: Option<int>, outcome: Outcome, now: int) {
    !Has(v.inFlight, m.id) &&
    match (retries, outcome)
    case (None, _) => v.messages == q.messages && exists error :: NewestDead(v, cfg, m, error, [], now)
    case (Some(r), Succeeded) => IsDone(q, v, cfg, m.id)
    case (Some(r), Failed(error)) =>
      var failure := Failure(m.attempt, error, now);
      if m.attempt < r then WaitsAgain(q, v, m, now + RetryDelay(m.attempt), failure)
      else v.messages == q.messages && NewestDead(v, cfg, m, error, m.failures + [failure], now)
  }

  /** It does, under the delivery's lease. */
  lemma EndMeans(y: System, cfg: Config, token: Token, retries: Option<int>, outcome: Outcome, now: int)
    requires Working(y) && token in y.active && Holds(y.w.q, y.active[token].id, Some(token))
    ensures EndedAs(y.w.q, NextQueue(y, cfg, End(token, retries, outcome, now)).q, cfg, y.active[token], retries, outcome, now)
  {
    hide *;
    var act, m := End(token, retries, outcome, now), y.active[token];
    HeldIsRemembered(y, token);
    WorkingIs(y);
    OpOfEnd(y, act);
    NextQueueIs(y, cfg, act);
    CallMeans(y.w, cfg, m, token, retries, outcome, now);
  }

  lemma CallMeans(w: World, cfg: Config, m: Message, token: Token, retries: Option<int>, outcome: Outcome, now: int)
    requires Valid(w.q) && Holds(w.q, m.id, Some(token)) && Get(w.q.inFlight, m.id).message == m
    ensures EndedAs(w.q, NextWorld(w, cfg, MemoryCall(Settle(m, retries, outcome, now), m, token, now)).q, cfg, m, retries, outcome, now)
  {
    match (retries, outcome)
    case (None, _) =>
      var error := "Unknown task: \"" + m.taskName + "\"";
      hide Valid, Holds, NextWorld;
      BurialMeans(w, cfg, m, token, error, [], now);
    case (Some(r), Succeeded) =>
      AckMeans(w, cfg, m.id, token);
      hide Valid, Holds, NextWorld, Find;
    case (Some(r), Failed(error)) =>
      var failure := Failure(m.attempt, error, now);
      if m.attempt < r { RetryMeans(w, cfg, m, token, now + RetryDelay(m.attempt), failure); }
      else { BurialMeans(w, cfg, m, token, error, m.failures + [failure], now); }
      hide Valid, Holds, NextWorld, RetryDelay, Find, IsBuriedAs, IsNacked;
  }

  lemma AckMeans(w: World, cfg: Config, id: string, token: Token)
    requires Valid(w.q) && Holds(w.q, id, Some(token))
    ensures var v := NextWorld(w, cfg, DoAck(id, Some(token))).q; !Has(v.inFlight, id) && IsDone(w.q, v, cfg, id)
  {
    RemoveKeepsUnique(w.q.inFlight, id);
    CompletedLast(w.q, id, cfg.maxCompleted);
    hide Remove, Find, KeepLast;
  }

  lemma RetryMeans(w: World, cfg: Config, m: Message, token: Token, at: int, failure: Failure)
    requires Valid(w.q) && Holds(w.q, m.id, Some(token)) && Get(w.q.inFlight, m.id).message == m
    ensures var v := NextWorld(w, cfg, DoNack(m.id, at, Some(token), Some(failure))).q;
      !Has(v.inFlight, m.id) && WaitsAgain(w.q, v, m, at, failure)
  {
    RemoveKeepsUnique(w.q.inFlight, m.id);
    hide Remove, Find;
  }

  lemma BurialMeans(w: World, cfg: Config, m: Message, token: Token, error: string, failures: seq<Failure>, now: int)
    requires Valid(w.q) && Holds(w.q, m.id, Some(token))
    ensures var e := DeadEntry(m.(failures := failures), error, failures, now);
      var v := NextWorld(w, cfg, DoDeadLetter(e, Some(token))).q;
      !Has(v.inFlight, m.id) && v.messages == w.q.messages && NewestDead(v, cfg, m, error, failures, now)
  {
    var e := DeadEntry(m.(failures := failures), error, failures, now);
    BuriedLast(w, cfg, e, token);
    RemoveKeepsUnique(w.q.inFlight, m.id);
    hide Remove, Find, NextWorld, Valid;
  }

  lemma CompletedLast(q: Mem, id: string, max: nat)
    ensures max > 0 ==> id in KeepLast(q.completed + [id], max)
  {
    var all := q.completed + [id];
    assert max > 0 ==> KeepLast(all, max) != [] && KeepLast(all, max)[|KeepLast(all, max)| - 1] == all[|all| - 1];
  }

  lemma BuriedLast(w: World, cfg: Config, entry: DeadEntry, token: Token)
    requires Holds(w.q, entry.message.id, Some(token)) && Valid(w.q)
    ensures var v := NextWorld(w, cfg, DoDeadLetter(entry, Some(token))).q;
      && v.inFlight == Remove(w.q.inFlight, entry.message.id) && v.messages == w.q.messages
      && (cfg.maxDead > 0 ==> |v.dead| > 0 && v.dead[|v.dead| - 1] == entry)
  {
    DeadLetterReaches(L.Any, w, cfg, entry, Some(token));
    hide L.ReachesBy, Abstract, Remove, Find, BuryIn;
    var all := w.q.dead + [entry];
    assert cfg.maxDead > 0 ==> KeepLast(all, cfg.maxDead) != [] && KeepLast(all, cfg.maxDead)[|KeepLast(all, cfg.maxDead)| - 1] == all[|all| - 1];
  }
}
