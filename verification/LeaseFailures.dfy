/** The life of a job whose every delivery fails, and of a job's only copy. */
module LeaseQueueFailures {
  import opened Options
  import opened QueueTypes
  import opened LeaseQueue

  // ---- One copy ----

  /** At most one place outside the dead list holds the job. */
  ghost predicate Lone(s: State, id: string) {
    && (forall x :: x in s.slots && SlotId(x) == id && !Settled(x) ==> s.slots[x] == 1)
    && (forall x, y :: x in s.slots && y in s.slots && SlotId(x) == id && SlotId(y) == id && !Settled(x) && !Settled(y) ==> x == y)
  }

  lemma FewerAreLone(s: State, t: State, id: string)
    requires Lone(s, id)
    requires forall x :: x in t.slots && SlotId(x) == id && !Settled(x) ==> x in s.slots && t.slots[x] <= s.slots[x]
    ensures Lone(t, id)
  {}

  lemma MovedIsLone(s: State, x: Slot, y: Slot, t: State, id: string)
    requires Lone(s, id) && x in s.slots && SlotId(x) == SlotId(y) == id && !Settled(x)
    requires t.slots == s.slots - multiset{x} + multiset{y}
    ensures Lone(t, id)
    ensures forall w :: w in t.slots && SlotId(w) == id && !Settled(w) ==> w == y
  {
    hide SlotId, Settled;
    forall w | w in t.slots && SlotId(w) == id && !Settled(w) ensures w == y && t.slots[w] == 1 {
      assert w in s.slots ==> w == x && s.slots[w] == 1;
      assert y != x && !Settled(y) ==> y !in s.slots;
    }
  }

  /** What a step adds about a job it does not move from one place to another. */
  lemma AddsNothingLive(mode: Mode, s: State, step: Step, id: string)
    requires Enabled(s, step) && Allowed(mode, s, step) && !mode.Any? && id in s.pushed
    requires Moves(step, id) ==> Settled(step.x) && !step.rule.TakeDead?
    ensures Moves(step, id) ==> !step.rule.Deliver? && Settled(step.y)
    ensures var t := Next(s, step);
      forall x :: x in t.slots && SlotId(x) == id && !Settled(x) ==> x in s.slots && t.slots[x] <= s.slots[x]
  {
    if step.Rewrite? {
      RewriteKeepsId(s, step.rule, step.x, step.y);
      if Moves(step, id) { SettledStaysSettled(s, step.rule, step.x, step.y); }
    }
    hide Rewrites, Settled, SlotId;
    assert step.Push? ==> SlotId(Ready(step.m)) != id by { IdOfReady(step); }
    assert step.StaleBury? ==> Settled(Dead(step.entry)) by { DeadIsSettled(step); }
  }

  lemma StepKeepsLone(mode: Mode, s: State, step: Step, id: string)
    requires Lone(s, id) && Enabled(s, step) && Allowed(mode, s, step) && !mode.Any? && id in s.pushed
    requires !(Moves(step, id) && step.rule.TakeDead?)
    ensures Lone(Next(s, step), id)
  {
    if Moves(step, id) && !Settled(step.x) {
      RewriteKeepsId(s, step.rule, step.x, step.y);
      hide Rewrites, Settled, SlotId, Allowed, Lone;
      MovedIsLone(s, step.x, step.y, Next(s, step), id);
    } else {
      AddsNothingLive(mode, s, step, id);
      hide Allowed, Enabled, Next, Lone, SlotId;
      FewerAreLone(s, Next(s, step), id);
    }
  }

  lemma {:induction false} RunKeepsLone(mode: Mode, s: State, steps: seq<Step>, id: string)
    requires Lone(s, id) && Executable(mode, s, steps) && !mode.Any? && id in s.pushed && id !in Taken(steps)
    ensures Lone(After(s, steps), id) && id in After(s, steps).pushed
    decreases |steps|
  {
    hide Enabled, Allowed, Lone, Next;
    if steps != [] {
      TakesFirst(steps, id);
      StepKeepsLone(mode, s, steps[0], id);
      StepKeepsPushed(s, steps[0]);
      RunKeepsLone(mode, Next(s, steps[0]), steps[1..], id);
    }
  }

  lemma TakesFirst(steps: seq<Step>, id: string)
    requires steps != [] && id !in Taken(steps)
    ensures !(Moves(steps[0], id) && steps[0].rule.TakeDead?) && id !in Taken(steps[1..])
  {
    hide SlotId;
  }

  /** However many steps an operation is, a job's only copy stays the only one until it is redriven. */
  lemma ReachesByKeepsLone(mode: Mode, s: State, t: State, handed: multiset<string>, taken: multiset<string>, id: string)
    requires Lone(s, id) && ReachesBy(mode, s, t, handed, taken) && !mode.Any? && id in s.pushed && id !in taken
    ensures Lone(t, id) && id in t.pushed
  {
    hide Executable, Handed, Taken, Lone;
    var steps :| Executable(mode, s, steps) && After(s, steps) == t && Handed(steps) == handed && Taken(steps) == taken;
    RunKeepsLone(mode, s, steps, id);
  }

  // ---- Every delivery fails ----

  /** A failure on record for each attempt so far, in order. */
  predicate OnRecord(m: Message, retries: int) {
    && m.maxRetries == retries && 0 <= m.attempt <= retries && |m.failures| == m.attempt
    && forall k :: 0 <= k < |m.failures| ==> m.failures[k].attempt == k
  }

  /** What a place holds of a job that was delivered `d` times, each of them in vain. */
  predicate Fits(x: Slot, retries: int, d: int) {
    match x
    case Ready(m) => OnRecord(m, retries) && d == m.attempt
    case Leased(_, m, _) => OnRecord(m, retries) && d == m.attempt + 1
    case Revoked(_, m) => OnRecord(m, retries) && d == m.attempt + 1
    case Retrying(m) => OnRecord(m, retries) && d == m.attempt + 1
    case Redriving(m) => false
    case Dead(e) => AllFailed(e, retries)
    case Gone(_, fate) => fate == Discarded
  }

  /** The job was delivered `d` times in vain: it is in one place with as many failures on record,
      or its retries are exhausted and it is dead with the record of them all. */
  ghost predicate FailedSoFar(s: State, id: string, retries: int, d: int) {
    && id in s.pushed && 0 <= d <= retries + 1 && Lone(s, id)
    && (forall x :: x in s.slots && SlotId(x) == id ==> Fits(x, retries, d))
    && (d <= retries ==> exists x :: x in s.slots && SlotId(x) == id && !Settled(x))
  }

  lemma RewriteFits(s: State, rule: Rule, x: Slot, y: Slot, id: string, retries: int, d: int)
    requires Rewrites(s, rule, x, y) && Allowed(Failing(id, retries), s, Rewrite(rule, x, y)) && SlotId(x) == id
    requires Fits(x, retries, d) && !rule.TakeDead? && !Settled(x)
    ensures Fits(y, retries, d + if rule.Deliver? then 1 else 0)
    ensures Settled(y) ==> d == retries + 1
    ensures rule.Deliver? ==> d <= retries
  {
    if rule.Retry? { RecordGrows(x.m, retries, rule.failure.value); }
    if rule.Requeue? || rule.BuryExpired? { RecordGrows(x.m, retries, Failure(x.m.attempt, rule.error, rule.now)); }
  }

  lemma RecordGrows(m: Message, retries: int, f: Failure)
    requires OnRecord(m, retries) && f.attempt == m.attempt
    ensures |m.failures + [f]| == m.attempt + 1
    ensures forall k :: 0 <= k < |m.failures + [f]| ==> (m.failures + [f])[k].attempt == k
  {}

  lemma SettledFits(s: State, rule: Rule, x: Slot, y: Slot, retries: int, d: int, e: int)
    requires Rewrites(s, rule, x, y) && Settled(x) && Fits(x, retries, d) && !rule.TakeDead?
    ensures Fits(y, retries, e)
  {}

  lemma SettledFitsAny(x: Slot, retries: int, d: int, e: int)
    requires Settled(x) && Fits(x, retries, d)
    ensures Fits(x, retries, e)
  {}

  lemma FailedAfterMove(s: State, step: Step, id: string, retries: int, d: int)
    requires FailedSoFar(s, id, retries, d) && Enabled(s, step) && Allowed(Failing(id, retries), s, step)
    requires Moves(step, id) && !Settled(step.x) && !step.rule.TakeDead?
    ensures FailedSoFar(Next(s, step), id, retries, d + DeliveriesIn(step, id))
  {
    var t, e := Next(s, step), d + DeliveriesIn(step, id);
    RewriteKeepsId(s, step.rule, step.x, step.y);
    RewriteFits(s, step.rule, step.x, step.y, id, retries, d);
    MovedIsLone(s, step.x, step.y, t, id);
    hide Rewrites, Allowed, Settled, SlotId, Lone, Fits;
    assert step.y in t.slots;
    forall x | x in t.slots && SlotId(x) == id ensures Fits(x, retries, e) {
      if x != step.y {
        assert x in s.slots;
        SettledFitsAny(x, retries, d, e);
      }
    }
  }

  /** A step that does not move the job's live slot leaves that slot there. */
  lemma LiveStays(mode: Mode, s: State, step: Step, id: string, w: Slot)
    requires Lone(s, id) && Enabled(s, step) && w in s.slots && SlotId(w) == id && !Settled(w)
    requires Moves(step, id) ==> Settled(step.x)
    ensures w in Next(s, step).slots
  {
    hide Rewrites, SlotId;
    NoOtherLive(s, id, w);
  }

  lemma NoOtherLive(s: State, id: string, w: Slot)
    requires Lone(s, id) && w in s.slots && SlotId(w) == id && !Settled(w)
    ensures forall z :: z in s.slots - multiset{w} && SlotId(z) == id ==> Settled(z)
  {
    assert forall z :: z in s.slots - multiset{w} ==> z in s.slots && (z == w ==> s.slots[w] >= 2);
  }

  lemma AddedFits(s: State, step: Step, id: string, retries: int, d: int, x: Slot)
    requires Enabled(s, step) && Allowed(Failing(id, retries), s, step) && id in s.pushed
    requires forall y :: y in s.slots && SlotId(y) == id ==> Fits(y, retries, d)
    requires Moves(step, id) ==> Settled(step.x) && !step.rule.TakeDead?
    requires x in Next(s, step).slots && SlotId(x) == id
    ensures Fits(x, retries, d)
  {
    if step.Rewrite? && x == step.y {
      RewriteKeepsId(s, step.rule, step.x, step.y);
      SettledFits(s, step.rule, step.x, step.y, retries, d, d);
    } else if step.StaleBury? && x == Dead(step.entry) {
    } else if step.Push? && x == Ready(step.m) {
    } else {
      hide Rewrites, Allowed, Fits, SlotId;
      assert x in s.slots;
    }
  }

  lemma StepFails(s: State, step: Step, id: string, retries: int, d: int)
    requires FailedSoFar(s, id, retries, d) && Enabled(s, step) && Allowed(Failing(id, retries), s, step)
    requires !(Moves(step, id) && step.rule.TakeDead?)
    ensures FailedSoFar(Next(s, step), id, retries, d + DeliveriesIn(step, id))
  {
    if Moves(step, id) && !Settled(step.x) {
      FailedAfterMove(s, step, id, retries, d);
    } else {
      var t := Next(s, step);
      AddsNothingLive(Failing(id, retries), s, step, id);
      StepKeepsLone(Failing(id, retries), s, step, id);
      StepKeepsPushed(s, step);
      hide Allowed, Lone, Fits, Next, Enabled, SlotId, Rewrites;
      forall x | x in t.slots && SlotId(x) == id ensures Fits(x, retries, d) { AddedFits(s, step, id, retries, d, x); }
      if d <= retries {
        var w :| w in s.slots && SlotId(w) == id && !Settled(w);
        LiveStays(Failing(id, retries), s, step, id, w);
      }
    }
  }

  /** Over whole runs: each delivery is counted, and each leaves its failure on record. */
  lemma {:induction false} RunFails(s: State, steps: seq<Step>, id: string, retries: int, d: int)
    requires FailedSoFar(s, id, retries, d) && Executable(Failing(id, retries), s, steps) && id !in Taken(steps)
    ensures FailedSoFar(After(s, steps), id, retries, d + Handed(steps)[id])
    decreases |steps|
  {
    hide Enabled, Allowed, FailedSoFar, Next;
    if steps != [] {
      TakesFirst(steps, id);
      StepFails(s, steps[0], id, retries, d);
      HandedFirst(steps, id);
      RunFails(Next(s, steps[0]), steps[1..], id, retries, d + DeliveriesIn(steps[0], id));
    }
  }

  lemma HandedFirst(steps: seq<Step>, id: string)
    requires steps != []
    ensures Handed(steps)[id] == DeliveriesIn(steps[0], id) + Handed(steps[1..])[id]
  {
    hide SlotId;
  }

  lemma ReachesByFails(s: State, t: State, handed: multiset<string>, taken: multiset<string>, id: string, retries: int, d: int)
    requires FailedSoFar(s, id, retries, d) && ReachesBy(Failing(id, retries), s, t, handed, taken) && id !in taken
    ensures FailedSoFar(t, id, retries, d + handed[id])
  {
    hide Executable, Handed, Taken, FailedSoFar;
    var steps :| Executable(Failing(id, retries), s, steps) && After(s, steps) == t && Handed(steps) == handed && Taken(steps) == taken;
    RunFails(s, steps, id, retries, d);
  }

  /** A new job has not failed yet. */
  lemma PushFailsNot(s: State, m: Message)
    requires KnownJobs(s) && Enqueued(m) && m.id !in s.pushed
    ensures FailedSoFar(Next(s, Push(m)), m.id, m.maxRetries, 0)
  {
    var t := Next(s, Push(m));
    assert Ready(m) in t.slots;
    forall w | w in t.slots && SlotId(w) == m.id ensures w == Ready(m) && t.slots[w] == 1 {
      assert w in s.slots ==> SlotId(w) in s.pushed;
      assert Ready(m) in s.slots ==> SlotId(Ready(m)) in s.pushed;
    }
  }
}
