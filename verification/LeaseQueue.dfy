/** The lease protocol both queue backends promise, free of any storage layout. */
module LeaseQueue {
  // The state is a bag of slots, one per job and place; every action of a backend
  // rewrites one slot into the next place of the same job. A job enters by `Push`;
  // a dead-lettering under a stale lease adds a second copy (`StaleBury`), and a
  // store that identifies two copies of one job drops one of them (`Coalesce`).

  import opened Options
  import opened QueueTypes

  datatype Fate = Acked | Discarded | Lost

  datatype Slot =
    | Ready(m: Message)                              // stored, waiting for its turn or its time
    | Leased(token: Token, m: Message, expiry: int)  // m is the message the worker was handed
    | Revoked(token: Token, m: Message)              // lease expired, not routed yet
    | Retrying(m: Message)                           // released by nack, not stored again yet
    | Redriving(m: Message)                          // taken from the dead list, not stored again yet
    | Dead(entry: DeadEntry)
    | Gone(id: string, fate: Fate)

  function SlotId(x: Slot): string {
    match x
    case Dead(e) => e.message.id
    case Gone(id, _) => id
    case _ => x.m.id
  }

  /** The job's life is over here: it was acked, buried, discarded or lost. */
  predicate Settled(x: Slot) { x.Dead? || x.Gone? }

  datatype State = State(slots: multiset<Slot>, pushed: set<string>, issued: set<Token>, clock: int)

  datatype Rule =
    | Deliver | Ack | Release | Retry(failure: Option<Failure>) | Extend
    | Revoke | Requeue(error: string, now: int) | BuryExpired(error: string, now: int)
    | Bury | TakeDead | Redrive(now: int) | Discard | Lose

  datatype Step =
    | Push(m: Message)
    | Rewrite(rule: Rule, x: Slot, y: Slot)
    | StaleBury(entry: DeadEntry)
    | Coalesce(x: Slot)
    | Tick(now: int)

  /** Which slot may become which, rule by rule. */
  ghost predicate Rewrites(s: State, rule: Rule, x: Slot, y: Slot) {
    match rule
    case Deliver =>
      x.Ready? && y.Leased? && x.m.availableAt <= s.clock && y.token !in s.issued && y.m == Delivered(x.m, y.token)
    case Ack => x.Leased? && y == Gone(x.m.id, Acked)
    case Release => x.Leased? && y == Retrying(x.m)
    case Retry(f) => x.Retrying? && y.Ready? && y.m == Retried(x.m, y.m.availableAt, f)
    case Extend => x.Leased? && y.Leased? && y.token == x.token && y.m == x.m
    case Revoke => x.Leased? && x.expiry <= s.clock && y == Revoked(x.token, x.m)
    case Requeue(error, now) =>
      x.Revoked? && x.m.attempt + 1 <= x.m.maxRetries && now <= s.clock
      && y == Ready(Expired(x.m, error, now).(availableAt := now))
    case BuryExpired(error, now) =>
      x.Revoked? && x.m.attempt + 1 > x.m.maxRetries
      && y == Dead(DeadEntry(Expired(x.m, error, now), error, Expired(x.m, error, now).failures, now))
    case Bury => x.Leased? && y.Dead? && y.entry.message.id == x.m.id
    case TakeDead => x.Dead? && y == Redriving(x.entry.message)
    case Redrive(now) => x.Redriving? && y == Ready(ResetForRedrive(x.m, now))
    case Discard => x.Dead? && y == Gone(x.entry.message.id, Discarded)
    case Lose => (x.Retrying? || x.Redriving? || x.Leased?) && y == Gone(x.m.id, Lost)
  }

  ghost predicate Enabled(s: State, step: Step) {
    match step
    case Push(m) => true
    case Rewrite(rule, x, y) => x in s.slots && Rewrites(s, rule, x, y)
    case StaleBury(_) => true
    case Coalesce(x) => x in s.slots && exists z :: z in s.slots - multiset{x} && SlotId(z) == SlotId(x) && !Settled(z)
    case Tick(now) => s.clock <= now
  }

  function Next(s: State, step: Step): State {
    match step
    case Push(m) => s.(slots := s.slots + multiset{Ready(m)}, pushed := s.pushed + {m.id})
    case Rewrite(rule, x, y) =>
      s.(slots := s.slots - multiset{x} + multiset{y},
         issued := if rule.Deliver? && y.Leased? then s.issued + {y.token} else s.issued)
    case StaleBury(e) => s.(slots := s.slots + multiset{Dead(e)})
    case Coalesce(x) => s.(slots := s.slots - multiset{x})
    case Tick(now) => s.(clock := now)
  }

  /** What the callers of a backend keep to.
      Guarded: ids are fresh and nothing is dead-lettered under a stale lease.
      Budgeted: ids are fresh, jobs come from `createEnqueue`, and the worker retries exactly
      while `attempt < maxRetries`, reporting each failure with its attempt number and
      burying the very message it was handed; its lease may be over by then.
      Failing: the same, and for one job, of that many retries, every delivery fails: it is never
      acked nor lost, and buried only past its retries with the record of them all. */
  datatype Mode = Any | Guarded | Budgeted | Failing(job: string, retries: int)

  predicate Budget(mode: Mode) { mode.Budgeted? || mode.Failing? }

  /** The record of a failure for each attempt, in order, and of the last one's error. */
  predicate AllFailed(e: DeadEntry, retries: int) {
    && |e.failures| == retries + 1 && e.message.failures == e.failures
    && (forall k :: 0 <= k < |e.failures| ==> e.failures[k].attempt == k)
    && (e.failures != [] ==> e.failures[|e.failures| - 1].error == e.error)
  }

  ghost predicate Allowed(mode: Mode, s: State, step: Step) {
    match step
    case Push(m) =>
      && (!mode.Any? ==> m.id !in s.pushed)
      && (Budget(mode) ==> Enqueued(m))
    case Rewrite(rule, x, y) =>
      && (rule.Lose? && x.Leased? ==> mode.Any?)
      && (mode.Failing? && SlotId(x) == mode.job ==>
        && !rule.Ack? && !rule.Lose?
        && (rule.Bury? && x.Leased? && y.Dead? ==> x.m.attempt >= mode.retries && AllFailed(y.entry, mode.retries)))
      && (Budget(mode) ==>
        && (rule.Retry? && x.Retrying? ==>
              rule.failure.Some? && rule.failure.value.attempt == x.m.attempt < x.m.maxRetries)
        && (rule.Bury? && x.Leased? && y.Dead? ==> y.entry.message == x.m.(failures := y.entry.failures)))
    case StaleBury(e) =>
      && !mode.Guarded? && (Budget(mode) ==> e.message.id in s.pushed && 0 <= e.message.maxRetries)
      && (mode.Failing? && e.message.id == mode.job ==> AllFailed(e, mode.retries))
    case _ => true
  }

  /** The message `createEnqueue` builds. */
  predicate Enqueued(m: Message) {
    m.attempt == 0 && m.deliveries == 0 && m.failures == [] && 0 <= m.maxRetries && m.leaseToken.None?
  }

  ghost predicate Executable(mode: Mode, s: State, steps: seq<Step>)
    decreases |steps|
  {
    steps == [] ||
    (Enabled(s, steps[0]) && Allowed(mode, s, steps[0]) && Executable(mode, Next(s, steps[0]), steps[1..]))
  }

  function After(s: State, steps: seq<Step>): State
    decreases |steps|
  {
    if steps == [] then s else After(Next(s, steps[0]), steps[1..])
  }

  predicate Moves(step: Step, id: string) {
    step.Rewrite? && SlotId(step.x) == id
  }

  /** The job a step delivers, if any. */
  function Hands(step: Step): multiset<string> {
    if step.Rewrite? && step.rule.Deliver? then multiset{SlotId(step.x)} else multiset{}
  }

  /** The job a step takes from the dead list, if any. */
  function Takes(step: Step): multiset<string> {
    if step.Rewrite? && step.rule.TakeDead? then multiset{SlotId(step.x)} else multiset{}
  }

  /** The jobs a run delivers, one occurrence for each delivery. */
  function Handed(steps: seq<Step>): multiset<string>
    decreases |steps|
  {
    if steps == [] then multiset{}
    else Hands(steps[0]) + Handed(steps[1..])
  }

  /** The jobs a run takes from the dead list to redrive them. */
  function Taken(steps: seq<Step>): multiset<string>
    decreases |steps|
  {
    if steps == [] then multiset{}
    else Takes(steps[0]) + Taken(steps[1..])
  }

  /** `t` is reached from `s` by a run whose every step the mode allows, and which delivers
      and redrives exactly the given jobs. */
  ghost predicate ReachesBy(mode: Mode, s: State, t: State, handed: multiset<string>, taken: multiset<string>) {
    exists steps :: Executable(mode, s, steps) && After(s, steps) == t && Handed(steps) == handed && Taken(steps) == taken
  }

  /** ... delivering and redriving nothing. */
  ghost predicate Reaches(mode: Mode, s: State, t: State) {
    ReachesBy(mode, s, t, multiset{}, multiset{})
  }

  lemma Quietly(mode: Mode, s: State, t: State)
    requires Reaches(mode, s, t)
    ensures ReachesBy(mode, s, t, multiset{}, multiset{})
  {}

  lemma ReachesSelf(mode: Mode, s: State)
    ensures Reaches(mode, s, s)
  {
    assert Executable(mode, s, []) && After(s, []) == s && Handed([]) == multiset{} && Taken([]) == multiset{};
  }

  lemma ReachesByStep(mode: Mode, s: State, step: Step)
    requires Enabled(s, step) && Allowed(mode, s, step)
    ensures ReachesBy(mode, s, Next(s, step), Hands(step), Takes(step))
  {
    hide Hands, Takes, Enabled, Allowed, Next;
    var t := Next(s, step);
    assert Executable(mode, t, []) && After(t, []) == t;
    assert [step][1..] == [];
    assert Executable(mode, s, [step]) && After(s, [step]) == t;
    assert Handed([step]) == Hands(step) + Handed([]) && Taken([step]) == Takes(step) + Taken([]);
  }

  lemma ReachesStep(mode: Mode, s: State, step: Step)
    requires Enabled(s, step) && Allowed(mode, s, step)
    requires step.Rewrite? ==> !step.rule.Deliver? && !step.rule.TakeDead?
    ensures Reaches(mode, s, Next(s, step))
  {
    ReachesByStep(mode, s, step);
  }

  lemma {:induction false} RunsCompose(mode: Mode, s: State, a: seq<Step>, b: seq<Step>)
    requires Executable(mode, s, a) && Executable(mode, After(s, a), b)
    ensures Executable(mode, s, a + b) && After(s, a + b) == After(After(s, a), b)
    ensures Handed(a + b) == Handed(a) + Handed(b) && Taken(a + b) == Taken(a) + Taken(b)
    decreases |a|
  {
    hide Hands, Takes, Enabled, Allowed, Next;
    if a == [] {
      assert a + b == b;
    } else {
      assert (a + b)[1..] == a[1..] + b && (a + b)[0] == a[0];
      RunsCompose(mode, Next(s, a[0]), a[1..], b);
      Associates(Hands(a[0]), Handed(a[1..]), Handed(b));
      Associates(Takes(a[0]), Taken(a[1..]), Taken(b));
    }
  }

  lemma Associates(a: multiset<string>, b: multiset<string>, c: multiset<string>)
    ensures a + (b + c) == a + b + c
  {}

  lemma ReachesByTransitive(mode: Mode, s: State, t: State, u: State,
                            h1: multiset<string>, k1: multiset<string>, h2: multiset<string>, k2: multiset<string>)
    requires ReachesBy(mode, s, t, h1, k1) && ReachesBy(mode, t, u, h2, k2)
    ensures ReachesBy(mode, s, u, h1 + h2, k1 + k2)
  {
    hide Executable, After, Handed, Taken;
    var a :| Executable(mode, s, a) && After(s, a) == t && Handed(a) == h1 && Taken(a) == k1;
    var b :| Executable(mode, t, b) && After(t, b) == u && Handed(b) == h2 && Taken(b) == k2;
    RunsCompose(mode, s, a, b);
  }

  lemma ReachesTransitive(mode: Mode, s: State, t: State, u: State)
    requires Reaches(mode, s, t) && Reaches(mode, t, u)
    ensures Reaches(mode, s, u)
  {
    ReachesByTransitive(mode, s, t, u, multiset{}, multiset{}, multiset{}, multiset{});
    var nothing: multiset<string> := multiset{};
    assert nothing + nothing == nothing;
  }

  /** A run that delivers and redrives something, with quiet runs around it. */
  lemma QuietAround(mode: Mode, s: State, t: State, u: State, v: State, handed: multiset<string>, taken: multiset<string>)
    requires Reaches(mode, s, t) && ReachesBy(mode, t, u, handed, taken) && Reaches(mode, u, v)
    ensures ReachesBy(mode, s, v, handed, taken)
  {
    ReachesByTransitive(mode, s, t, u, multiset{}, multiset{}, handed, taken);
    ReachesByTransitive(mode, s, u, v, multiset{} + handed, multiset{} + taken, multiset{}, multiset{});
    assert multiset{} + handed + multiset{} == handed && multiset{} + taken + multiset{} == taken;
  }

  function Plus(s: State, x: Slot): State { s.(slots := s.slots + multiset{x}) }

  /** Exchanging one slot for another, whatever else is stored, is a reachable step. */
  lemma Swap(mode: Mode, s: State, rule: Rule, x: Slot, y: Slot)
    requires !rule.Deliver? && !rule.TakeDead? && Rewrites(s, rule, x, y) && Allowed(mode, s, Rewrite(rule, x, y))
    ensures Reaches(mode, Plus(s, x), Plus(s, y))
  {
    assert Plus(s, x).slots - multiset{x} == s.slots;
    ReachesStep(mode, Plus(s, x), Rewrite(rule, x, y));
  }

  lemma DeliverSwap(mode: Mode, s: State, m: Message, token: Token, expiry: int)
    requires m.availableAt <= s.clock && token !in s.issued
    ensures ReachesBy(mode, Plus(s, Ready(m)),
                      Plus(s.(issued := s.issued + {token}), Leased(token, Delivered(m, token), expiry)), multiset{m.id}, multiset{})
  {
    var step := Rewrite(Deliver, Ready(m), Leased(token, Delivered(m, token), expiry));
    assert Plus(s, Ready(m)).slots - multiset{Ready(m)} == s.slots;
    ReachesByStep(mode, Plus(s, Ready(m)), step);
  }

  lemma TakeDeadSwap(mode: Mode, s: State, e: DeadEntry)
    ensures ReachesBy(mode, Plus(s, Dead(e)), Plus(s, Redriving(e.message)), multiset{}, multiset{e.message.id})
  {
    var step := Rewrite(TakeDead, Dead(e), Redriving(e.message));
    assert Plus(s, Dead(e)).slots - multiset{Dead(e)} == s.slots;
    ReachesByStep(mode, Plus(s, Dead(e)), step);
  }

  /** A second copy of a job may be dropped while another copy stays. */
  lemma DropCopy(mode: Mode, s: State, x: Slot, z: Slot)
    requires SlotId(x) == SlotId(z) && !Settled(z)
    ensures Reaches(mode, Plus(Plus(s, x), z), Plus(s, z))
  {
    var t := Plus(Plus(s, x), z);
    assert t.slots - multiset{x} == Plus(s, z).slots;
    assert z in t.slots - multiset{x};
    ReachesStep(mode, t, Coalesce(x));
  }

  // ---- Conservation ----

  /** Every pushed job is in some place: nothing is ever silently dropped. */
  ghost predicate AtLeastOnePlace(s: State) {
    forall id :: id in s.pushed ==> exists x :: x in s.slots && SlotId(x) == id
  }

  ghost predicate OneSlotPerJob(slots: multiset<Slot>) {
    && (forall x :: x in slots ==> slots[x] == 1)
    && (forall x, y :: x in slots && y in slots && SlotId(x) == SlotId(y) ==> x == y)
  }

  /** No place holds a job that was never pushed. */
  ghost predicate KnownJobs(s: State) {
    forall x :: x in s.slots ==> SlotId(x) in s.pushed
  }

  /** ... and in one place only, with no job that was never pushed. */
  ghost predicate ExactlyOnePlace(s: State) {
    AtLeastOnePlace(s) && OneSlotPerJob(s.slots) && KnownJobs(s)
  }

  lemma RewriteKeepsId(s: State, rule: Rule, x: Slot, y: Slot)
    requires Rewrites(s, rule, x, y)
    ensures SlotId(x) == SlotId(y)
  {}

  /** Where a job's slot is after a step, if the step does not push the job. */
  lemma KeepsSomeSlot(s: State, step: Step, w: Slot) returns (x: Slot)
    requires Enabled(s, step) && w in s.slots
    ensures x in Next(s, step).slots && SlotId(x) == SlotId(w)
  {
    hide SlotId;
    x := w;
    match step
    case Rewrite(rule, a, b) =>
      RewriteKeepsId(s, rule, a, b);
      if w == a { x := b; }
    case Coalesce(a) =>
      if w == a { x :| x in s.slots - multiset{a} && SlotId(x) == SlotId(a); }
    case _ =>
  }

  lemma StepKeepsAtLeastOne(s: State, step: Step)
    requires AtLeastOnePlace(s) && Enabled(s, step)
    ensures AtLeastOnePlace(Next(s, step))
  {
    var t := Next(s, step);
    forall id | id in t.pushed ensures exists x :: x in t.slots && SlotId(x) == id {
      if step.Push? && id == step.m.id {
        assert Ready(step.m) in t.slots;
      } else {
        assert id in s.pushed;
        hide Next, Enabled, SlotId;
        var w :| w in s.slots && SlotId(w) == id;
        var x := KeepsSomeSlot(s, step, w);
      }
    }
  }

  lemma ReplacementKeepsOneSlot(slots: multiset<Slot>, x: Slot, y: Slot)
    requires OneSlotPerJob(slots) && x in slots && SlotId(x) == SlotId(y)
    ensures OneSlotPerJob(slots - multiset{x} + multiset{y})
  {
    var t := slots - multiset{x} + multiset{y};
    assert x != y ==> y !in slots;
    assert forall w :: w in t ==> w == y || (w in slots && w != x);
  }

  lemma ReplacementKeepsExactlyOne(s: State, x: Slot, y: Slot, t: State)
    requires ExactlyOnePlace(s) && x in s.slots && SlotId(x) == SlotId(y) && AtLeastOnePlace(t)
    requires t.slots == s.slots - multiset{x} + multiset{y} && t.pushed == s.pushed
    ensures ExactlyOnePlace(t)
  {
    ReplacementKeepsOneSlot(s.slots, x, y);
    forall w | w in t.slots ensures SlotId(w) in t.pushed {
      if w != y { assert w in s.slots; }
    }
  }

  lemma AdditionKeepsOneSlot(slots: multiset<Slot>, y: Slot)
    requires OneSlotPerJob(slots) && forall x :: x in slots ==> SlotId(x) != SlotId(y)
    ensures OneSlotPerJob(slots + multiset{y})
  {
    assert forall w :: w in slots + multiset{y} ==> w == y || w in slots;
  }

  lemma PushKeepsExactlyOne(s: State, m: Message)
    requires ExactlyOnePlace(s) && m.id !in s.pushed && AtLeastOnePlace(Next(s, Push(m)))
    ensures ExactlyOnePlace(Next(s, Push(m)))
  {
    AdditionKeepsOneSlot(s.slots, Ready(m));
  }

  lemma NothingToCoalesce(s: State, x: Slot)
    requires OneSlotPerJob(s.slots)
    ensures !Enabled(s, Coalesce(x))
  {
    forall z | x in s.slots && z in s.slots - multiset{x} ensures SlotId(z) != SlotId(x) {
      assert z in s.slots && (z == x ==> s.slots[x] >= 2);
    }
  }

  /** What keeps every job in exactly one place: ids are pushed once, and nothing is dead-lettered
      under a lease that is over. */
  ghost predicate Careful(s: State, step: Step) {
    !step.StaleBury? && (step.Push? ==> step.m.id !in s.pushed)
  }

  lemma CarefulKeepsExactly(s: State, step: Step)
    requires ExactlyOnePlace(s) && Enabled(s, step) && Careful(s, step)
    ensures ExactlyOnePlace(Next(s, step)) && !step.Coalesce?
  {
    StepKeepsAtLeastOne(s, step);
    hide AtLeastOnePlace, OneSlotPerJob, Rewrites;
    match step
    case Push(m) => PushKeepsExactlyOne(s, m);
    case Rewrite(rule, x, y) =>
      RewriteKeepsId(s, rule, x, y);
      ReplacementKeepsExactlyOne(s, x, y, Next(s, step));
    case Coalesce(x) => NothingToCoalesce(s, x);
    case _ =>
  }

  lemma StepKeepsExactlyOne(mode: Mode, s: State, step: Step)
    requires mode.Guarded? && ExactlyOnePlace(s) && Enabled(s, step) && Allowed(mode, s, step)
    ensures ExactlyOnePlace(Next(s, step)) && !step.Coalesce?
  {
    hide ExactlyOnePlace, Enabled;
    CarefulKeepsExactly(s, step);
  }

  /** Conservation over whole runs, with no assumption on the callers: no pushed job disappears. */
  lemma {:induction false} RunKeepsEveryJob(mode: Mode, s: State, steps: seq<Step>)
    requires AtLeastOnePlace(s) && Executable(mode, s, steps)
    ensures AtLeastOnePlace(After(s, steps))
    decreases |steps|
  {
    if steps != [] {
      StepKeepsAtLeastOne(s, steps[0]);
      RunKeepsEveryJob(mode, Next(s, steps[0]), steps[1..]);
    }
  }

  /** Conservation over whole runs: with fresh ids and live-lease dead-lettering, every
      job is in exactly one place at every moment. */
  lemma {:induction false} RunKeepsExactlyOne(mode: Mode, s: State, steps: seq<Step>)
    requires mode.Guarded? && ExactlyOnePlace(s) && Executable(mode, s, steps)
    ensures ExactlyOnePlace(After(s, steps))
    decreases |steps|
  {
    if steps != [] {
      StepKeepsExactlyOne(mode, s, steps[0]);
      RunKeepsExactlyOne(mode, Next(s, steps[0]), steps[1..]);
    }
  }

  /** Exchanging a slot for another of the same job makes no difference. */
  lemma PlusExactlyIff(s: State, x: Slot, y: Slot)
    requires SlotId(x) == SlotId(y)
    ensures ExactlyOnePlace(Plus(s, x)) <==> ExactlyOnePlace(Plus(s, y))
  {
    hide SlotId;
    if ExactlyOnePlace(Plus(s, x)) { PlusReplaced(s, x, y); }
    if ExactlyOnePlace(Plus(s, y)) { PlusReplaced(s, y, x); }
  }

  lemma PlusReplaced(s: State, x: Slot, y: Slot)
    requires SlotId(x) == SlotId(y) && ExactlyOnePlace(Plus(s, x))
    ensures ExactlyOnePlace(Plus(s, y))
  {
    hide SlotId, OneSlotPerJob;
    var v, t := Plus(s, x), Plus(s, y);
    assert t.slots == v.slots - multiset{x} + multiset{y};
    forall id | id in t.pushed ensures exists w :: w in t.slots && SlotId(w) == id {
      var w :| w in v.slots && SlotId(w) == id;
      assert w == x || w in s.slots;
      assert (if w == x then y else w) in t.slots;
    }
    ReplacementKeepsExactlyOne(v, x, y, t);
  }

  /** One slot more is one too many: the job has two places, or nobody pushed it. */
  lemma OneTooMany(s: State, x: Slot)
    requires ExactlyOnePlace(s)
    ensures !ExactlyOnePlace(Plus(s, x))
  {
    hide SlotId;
    var t := Plus(s, x);
    assert x in t.slots;
    if SlotId(x) in s.pushed {
      var z :| z in s.slots && SlotId(z) == SlotId(x);
      assert z in t.slots && (z == x ==> t.slots[x] >= 2);
    }
  }

  /** A step keeps it exactly when it is careful. */
  lemma StepKeepsExactlyIff(s: State, step: Step)
    requires ExactlyOnePlace(s) && Enabled(s, step)
    ensures ExactlyOnePlace(Next(s, step)) <==> Careful(s, step)
  {
    if Careful(s, step) {
      CarefulKeepsExactly(s, step);
    } else {
      var x := if step.Push? then Ready(step.m) else Dead(step.entry);
      OneTooMany(s, x);
      if step.Push? { assert s.pushed + {step.m.id} == s.pushed; }
      hide ExactlyOnePlace;
      assert Next(s, step) == Plus(s, x);
    }
  }

  ghost predicate ExactlyThroughout(s: State, steps: seq<Step>)
    decreases |steps|
  {
    ExactlyOnePlace(s) && (steps == [] || ExactlyThroughout(Next(s, steps[0]), steps[1..]))
  }

  ghost predicate CarefulThroughout(s: State, steps: seq<Step>)
    decreases |steps|
  {
    steps == [] || (Careful(s, steps[0]) && CarefulThroughout(Next(s, steps[0]), steps[1..]))
  }

  /** A run keeps every job in exactly one place at every moment if and only if each of its steps
      is careful. */
  lemma {:induction false} RunKeepsExactlyIff(s: State, steps: seq<Step>)
    requires ExactlyOnePlace(s) && Executable(Any, s, steps)
    ensures ExactlyThroughout(s, steps) <==> CarefulThroughout(s, steps)
    decreases |steps|
  {
    hide ExactlyOnePlace, Careful, Enabled, Allowed, Next;
    if steps != [] {
      StepKeepsExactlyIff(s, steps[0]);
      if ExactlyOnePlace(Next(s, steps[0])) { RunKeepsExactlyIff(Next(s, steps[0]), steps[1..]); }
    }
  }

  lemma ReachesByKeepsExactly(s: State, t: State, handed: multiset<string>, taken: multiset<string>)
    requires ExactlyOnePlace(s) && ReachesBy(Guarded, s, t, handed, taken)
    ensures ExactlyOnePlace(t)
  {
    hide ExactlyOnePlace, Executable, Handed, Taken;
    var steps :| Executable(Guarded, s, steps) && After(s, steps) == t && Handed(steps) == handed && Taken(steps) == taken;
    RunKeepsExactlyOne(Guarded, s, steps);
  }

  // ---- Lease fencing ----

  predicate Tokened(x: Slot) { x.Leased? || x.Revoked? }

  /** A token names one delivery: it was issued, and no two slots carry it. */
  ghost predicate TokensUnique(s: State) {
    && (forall x :: x in s.slots && Tokened(x) ==> x.token in s.issued && s.slots[x] == 1)
    && (forall x, y :: x in s.slots && y in s.slots && Tokened(x) && Tokened(y) && x.token == y.token ==> x == y)
  }

  ghost predicate Live(s: State, token: Token) {
    exists x :: x in s.slots && x.Leased? && x.token == token
  }

  lemma ReplacementKeepsTokens(s: State, x: Slot, y: Slot, t: State)
    requires TokensUnique(s) && x in s.slots && s.issued <= t.issued
    requires t.slots == s.slots - multiset{x} + multiset{y}
    requires Tokened(y) ==> y.token in t.issued && (y.token !in s.issued || (Tokened(x) && x.token == y.token))
    ensures TokensUnique(t)
  {
    assert forall w :: w in t.slots ==> w == y || w in s.slots;
    if Tokened(y) {
      assert x != y ==> y !in s.slots;
      assert forall w :: w in t.slots && Tokened(w) && w.token == y.token ==> w == y;
    }
  }

  lemma RewriteKeepsTokens(s: State, rule: Rule, x: Slot, y: Slot)
    requires Rewrites(s, rule, x, y) && Tokened(y)
    ensures (rule.Deliver? && y.Leased? && y.token !in s.issued) || (!rule.Deliver? && Tokened(x) && x.token == y.token)
  {}

  lemma NoNewTokens(s: State, t: State)
    requires TokensUnique(s) && s.issued == t.issued
    requires forall w :: w in t.slots && Tokened(w) ==> w in s.slots && t.slots[w] <= s.slots[w]
    ensures TokensUnique(t)
  {}

  lemma StepKeepsTokens(s: State, step: Step)
    requires TokensUnique(s) && Enabled(s, step)
    ensures TokensUnique(Next(s, step)) && s.issued <= Next(s, step).issued
  {
    if step.Rewrite? {
      if Tokened(step.y) { RewriteKeepsTokens(s, step.rule, step.x, step.y); }
      hide Rewrites;
      ReplacementKeepsTokens(s, step.x, step.y, Next(s, step));
    } else {
      hide TokensUnique;
      NoNewTokens(s, Next(s, step));
    }
  }

  /** Some slot, leased or revoked, still belongs to the delivery. */
  ghost predicate Carried(s: State, token: Token) {
    exists x :: x in s.slots && Tokened(x) && x.token == token
  }

  /** Exchanging a delivery's one slot for a slot without a token ends the delivery. */
  lemma DeliveryEnds(r: State, x: Slot, y: Slot)
    requires TokensUnique(Plus(r, x)) && Tokened(x) && !Tokened(y)
    ensures x.token in r.issued && !Carried(Plus(r, y), x.token)
  {
    assert x in Plus(r, x).slots;
    forall w | w in Plus(r, y).slots && Tokened(w) ensures w.token != x.token {
      assert w in r.slots && w in Plus(r, x).slots && (w == x ==> Plus(r, x).slots[x] >= 2);
    }
  }

  /** Some slot carries the delivery, with this message. */
  ghost predicate CarriedAs(s: State, token: Token, m: Message) {
    exists x :: x in s.slots && Tokened(x) && x.token == token && x.m == m
  }

  /** Nothing brings back a lease, or a whole delivery, that is over, changes the message a
      delivery is about, or forgets a job or a token. */
  ghost predicate NothingRevived(s: State, t: State) {
    && s.issued <= t.issued && s.pushed <= t.pushed
    && forall token :: token in s.issued ==>
         && (!Live(s, token) ==> !Live(t, token))
         && (!Carried(s, token) ==> !Carried(t, token))
         && (forall m :: CarriedAs(t, token, m) ==> CarriedAs(s, token, m))
  }

  lemma StepRevivesNothing(s: State, step: Step)
    requires Enabled(s, step)
    ensures NothingRevived(s, Next(s, step))
  {
    hide Rewrites, SlotId;
    forall w | w in Next(s, step).slots && Tokened(w) && w.token in s.issued
      ensures Carried(s, w.token) && (w.Leased? ==> Live(s, w.token)) && CarriedAs(s, w.token, w.m)
    {
      OriginOfToken(s, step, w);
    }
  }

  lemma OriginOfToken(s: State, step: Step, w: Slot)
    requires Enabled(s, step) && w in Next(s, step).slots && Tokened(w) && w.token in s.issued
    ensures Carried(s, w.token) && (w.Leased? ==> Live(s, w.token)) && CarriedAs(s, w.token, w.m)
  {
    if step.Rewrite? && w == step.y {
      RewriteKeepsTokens(s, step.rule, step.x, w);
      assert w.Leased? ==> step.x.Leased?;
      assert step.x.m == w.m;
    } else {
      hide Rewrites, SlotId;
      assert w in s.slots;
    }
  }

  /** Fencing over whole runs: tokens stay unique, and once the lease of an issued token is
      gone (acked, nacked, buried or reclaimed) no later delivery carries that token. */
  lemma {:induction false} LostLeaseStaysLost(mode: Mode, s: State, steps: seq<Step>)
    requires TokensUnique(s) && Executable(mode, s, steps)
    ensures TokensUnique(After(s, steps)) && NothingRevived(s, After(s, steps))
    decreases |steps|
  {
    hide TokensUnique, Enabled, Live, Carried, CarriedAs;
    if steps != [] {
      StepKeepsTokens(s, steps[0]);
      StepRevivesNothing(s, steps[0]);
      LostLeaseStaysLost(mode, Next(s, steps[0]), steps[1..]);
    }
  }

  // ---- Retry budget ----

  /** The last `attempt` recorded failures are numbered 0, 1, ..., attempt - 1. */
  predicate FailuresNumbered(m: Message) {
    && 0 <= m.attempt <= |m.failures|
    && forall k :: |m.failures| - m.attempt <= k < |m.failures| ==>
         m.failures[k].attempt == k - (|m.failures| - m.attempt)
  }

  predicate WithinBudget(x: Slot) {
    match x
    case Ready(m) => m.deliveries == m.attempt && 0 <= m.attempt <= m.maxRetries && FailuresNumbered(m)
    case Leased(_, m, _) => HandedOut(m)
    case Revoked(_, m) => HandedOut(m)
    case Retrying(m) => HandedOut(m)
    case Redriving(m) => 0 <= m.maxRetries
    case Dead(e) => 0 <= e.message.maxRetries
    case Gone(_, _) => true
  }

  predicate HandedOut(m: Message) {
    m.deliveries == m.attempt + 1 && 0 <= m.attempt <= m.maxRetries && FailuresNumbered(m)
  }

  ghost predicate AllWithinBudget(s: State) {
    forall x :: x in s.slots ==> WithinBudget(x)
  }

  lemma RetriedNumbered(m: Message, at: int, f: Failure)
    requires FailuresNumbered(m) && f.attempt == m.attempt
    ensures FailuresNumbered(Retried(m, at, Some(f)))
  {}

  lemma RewriteKeepsBudget(s: State, rule: Rule, x: Slot, y: Slot)
    requires WithinBudget(x) && Rewrites(s, rule, x, y) && Allowed(Budgeted, s, Rewrite(rule, x, y))
    ensures WithinBudget(y)
  {
    if rule.Retry? { RetriedNumbered(x.m, y.m.availableAt, rule.failure.value); }
    if rule.Requeue? || rule.BuryExpired? {
      RetriedNumbered(x.m, x.m.availableAt, Failure(x.m.attempt, rule.error, rule.now));
    }
  }

  lemma StepKeepsBudget(s: State, step: Step)
    requires AllWithinBudget(s) && Enabled(s, step) && Allowed(Budgeted, s, step)
    ensures AllWithinBudget(Next(s, step))
  {
    if step.Rewrite? { RewriteKeepsBudget(s, step.rule, step.x, step.y); }
    AddedIsWithinBudget(s, step);
    hide WithinBudget, Rewrites, Allowed, Enqueued;
    forall w | w in Next(s, step).slots ensures WithinBudget(w) {
      assert w in s.slots || (step.Push? && w == Ready(step.m)) || (step.Rewrite? && w == step.y)
        || (step.StaleBury? && w == Dead(step.entry));
    }
  }

  lemma AddedIsWithinBudget(s: State, step: Step)
    requires Allowed(Budgeted, s, step)
    ensures step.Push? ==> WithinBudget(Ready(step.m))
    ensures step.StaleBury? ==> WithinBudget(Dead(step.entry))
  {}

  /** The retry invariant over whole runs: a stored job has been delivered once per
      attempt, a leased one once more, and `attempt` never passes `maxRetries`. */
  lemma {:induction false} RunKeepsBudget(s: State, steps: seq<Step>)
    requires AllWithinBudget(s) && Executable(Budgeted, s, steps)
    ensures AllWithinBudget(After(s, steps))
    decreases |steps|
  {
    if steps != [] {
      StepKeepsBudget(s, steps[0]);
      RunKeepsBudget(Next(s, steps[0]), steps[1..]);
    }
  }

  /** Deliveries of job `id` in a run. */
  function Deliveries(steps: seq<Step>, id: string): nat { Handed(steps)[id] }

  predicate NeverRedriven(steps: seq<Step>, id: string) { id !in Taken(steps) }

  function DeliveriesIn(step: Step, id: string): nat { if Moves(step, id) && step.rule.Deliver? then 1 else 0 }

  function LifeIn(step: Step, id: string): nat {
    if Moves(step, id) && !Settled(step.x) && !step.rule.Extend? then 1 else 0
  }

  /** Steps of job `id` in a run until it is settled, heartbeats left out. */
  function LifeSteps(steps: seq<Step>, id: string): nat
    decreases |steps|
  {
    if steps == [] then 0
    else LifeIn(steps[0], id) + LifeSteps(steps[1..], id)
  }

  /** How many more times a job in this slot can be handed to a worker. */
  function DeliveriesLeft(x: Slot): int {
    match x
    case Ready(m) => m.maxRetries - m.attempt + 1
    case Leased(_, m, _) => m.maxRetries - m.attempt
    case Revoked(_, m) => m.maxRetries - m.attempt
    case Retrying(m) => m.maxRetries - m.attempt
    case _ => 0
  }

  /** The variant (maxRetries - attempt, stage) as one number. */
  function Rank(x: Slot): int {
    match x
    case Ready(m) => 3 * (m.maxRetries - m.attempt) + 3
    case Leased(_, m, _) => 3 * (m.maxRetries - m.attempt) + 2
    case Revoked(_, m) => 3 * (m.maxRetries - m.attempt) + 1
    case Retrying(m) => 3 * (m.maxRetries - m.attempt) + 1
    case _ => 0
  }

  lemma RewriteSpendsBudget(s: State, rule: Rule, x: Slot, y: Slot)
    requires Rewrites(s, rule, x, y) && WithinBudget(x) && WithinBudget(y)
    requires !x.Redriving? && !Settled(x)
    ensures DeliveriesLeft(y) + (if rule.Deliver? then 1 else 0) <= DeliveriesLeft(x)
    ensures if rule.Extend? then Rank(y) == Rank(x) else Rank(y) < Rank(x)
    ensures DeliveriesLeft(y) >= 0 && Rank(y) >= 0 && !y.Redriving?
  {}

  lemma SettledStaysSettled(s: State, rule: Rule, x: Slot, y: Slot)
    requires Rewrites(s, rule, x, y) && Settled(x) && !rule.TakeDead?
    ensures Settled(y) && !rule.Deliver?
  {}

  /** At most one unsettled slot holds job `id`, and it is good for at most `n` deliveries and
      `r` steps. Dead copies, which late dead-lettering can add, do not count. */
  ghost predicate Owes(s: State, id: string, n: int, r: int) {
    && 0 <= n && 0 <= r
    && (forall x :: x in s.slots && SlotId(x) == id && !Settled(x) ==>
          s.slots[x] == 1 && !x.Redriving? && DeliveriesLeft(x) <= n && Rank(x) <= r)
    && (forall x, y :: x in s.slots && y in s.slots && SlotId(x) == id && SlotId(y) == id && !Settled(x) && !Settled(y) ==> x == y)
  }

  /** Fewer unsettled slots owe no more. */
  lemma OwesOnFewer(s: State, t: State, id: string, n: int, r: int)
    requires Owes(s, id, n, r)
    requires forall x :: x in t.slots && SlotId(x) == id && !Settled(x) ==> x in s.slots && t.slots[x] <= s.slots[x]
    ensures Owes(t, id, n, r)
  {
    hide DeliveriesLeft, Rank;
  }

  lemma OwesAfterMove(s: State, step: Step, id: string, n: int, r: int)
    requires Owes(s, id, n, r) && AllWithinBudget(s) && Enabled(s, step) && Allowed(Budgeted, s, step)
    requires Moves(step, id) && !Settled(step.x)
    ensures Owes(Next(s, step), id, n - DeliveriesIn(step, id), r - LifeIn(step, id))
  {
    RewriteKeepsId(s, step.rule, step.x, step.y);
    RewriteKeepsBudget(s, step.rule, step.x, step.y);
    RewriteSpendsBudget(s, step.rule, step.x, step.y);
    hide Rewrites, WithinBudget, DeliveriesLeft, Rank, Settled, SlotId;
    var t := Next(s, step);
    forall w | w in t.slots && SlotId(w) == id && !Settled(w) ensures w == step.y && t.slots[w] == 1 {
      assert w in s.slots ==> w == step.x && s.slots[w] == 1;
      assert step.y != step.x ==> step.y !in s.slots;
    }
  }

  /** What one step costs the job. */
  lemma StepOwes(s: State, step: Step, id: string, n: int, r: int)
    requires Owes(s, id, n, r) && AllWithinBudget(s) && Enabled(s, step) && Allowed(Budgeted, s, step)
    requires id in s.pushed && !(Moves(step, id) && step.rule.TakeDead?)
    ensures Owes(Next(s, step), id, n - DeliveriesIn(step, id), r - LifeIn(step, id))
  {
    if Moves(step, id) && !Settled(step.x) {
      OwesAfterMove(s, step, id, n, r);
    } else {
      AddsNothingUnsettled(s, step, id);
      hide Rewrites, Allowed, Next, Owes;
      OwesOnFewer(s, Next(s, step), id, n, r);
    }
  }

  /** A step that moves no unsettled slot of the job leaves it no new one. */
  lemma AddsNothingUnsettled(s: State, step: Step, id: string)
    requires Enabled(s, step) && Allowed(Budgeted, s, step) && id in s.pushed
    requires Moves(step, id) ==> Settled(step.x) && !step.rule.TakeDead?
    ensures Moves(step, id) ==> !step.rule.Deliver?
    ensures var t := Next(s, step);
      forall x :: x in t.slots && SlotId(x) == id && !Settled(x) ==> x in s.slots && t.slots[x] <= s.slots[x]
  {
    if step.Rewrite? {
      RewriteKeepsId(s, step.rule, step.x, step.y);
      if Moves(step, id) { SettledStaysSettled(s, step.rule, step.x, step.y); }
    }
    hide Rewrites, Settled, SlotId;
    assert step.Push? ==> SlotId(Ready(step.m)) != id by { IdOfReady(step); }
    assert step.StaleBury? ==> Settled(Dead(step.entry)) by { DeadIsSettled(step); }
  }

  lemma IdOfReady(step: Step)
    ensures step.Push? ==> SlotId(Ready(step.m)) == step.m.id
  {}

  lemma DeadIsSettled(step: Step)
    ensures step.StaleBury? ==> Settled(Dead(step.entry))
  {}

  /** Bounded life: from any state on, and until job `id` is redriven, a run delivers it at
      most as often and moves it at most as far as its one unsettled slot allows. */
  lemma {:induction false} LifeIsBounded(s: State, steps: seq<Step>, id: string, n: int, r: int)
    requires Owes(s, id, n, r) && AllWithinBudget(s) && Executable(Budgeted, s, steps)
    requires id in s.pushed && NeverRedriven(steps, id)
    ensures Deliveries(steps, id) <= n && LifeSteps(steps, id) <= r
    ensures Owes(After(s, steps), id, n - Deliveries(steps, id), r - LifeSteps(steps, id))
    decreases |steps|
  {
    hide Enabled, Allowed, AllWithinBudget, Owes, Next, Deliveries, LifeSteps, DeliveriesIn, LifeIn, NeverRedriven;
    if steps != [] {
      CountsStep(steps, id);
      StepKeepsBudget(s, steps[0]);
      StepKeepsPushed(s, steps[0]);
      var d, l := DeliveriesIn(steps[0], id), LifeIn(steps[0], id);
      StepOwes(s, steps[0], id, n, r);
      LifeIsBounded(Next(s, steps[0]), steps[1..], id, n - d, r - l);
    } else {
      CountsNothing(id);
    }
    OwesNothingLess(After(s, steps), id, n - Deliveries(steps, id), r - LifeSteps(steps, id));
  }

  lemma StepKeepsPushed(s: State, step: Step)
    ensures s.pushed <= Next(s, step).pushed
  {}

  lemma CountsNothing(id: string)
    ensures Deliveries([], id) == 0 && LifeSteps([], id) == 0
  {}

  lemma OwesNothingLess(s: State, id: string, n: int, r: int)
    requires Owes(s, id, n, r)
    ensures 0 <= n && 0 <= r
  {}

  /** The first step's part of the counts. */
  lemma CountsStep(steps: seq<Step>, id: string)
    requires steps != []
    ensures Deliveries(steps, id) == DeliveriesIn(steps[0], id) + Deliveries(steps[1..], id)
    ensures LifeSteps(steps, id) == LifeIn(steps[0], id) + LifeSteps(steps[1..], id)
    ensures NeverRedriven(steps, id) <==> !(Moves(steps[0], id) && steps[0].rule.TakeDead?) && NeverRedriven(steps[1..], id)
  {
    hide SlotId, Settled;
  }

  lemma PushOwes(s: State, m: Message)
    requires KnownJobs(s) && Enqueued(m) && m.id !in s.pushed
    ensures Owes(Next(s, Push(m)), m.id, m.maxRetries + 1, 3 * m.maxRetries + 3)
  {
    var t := Next(s, Push(m));
    forall w | w in t.slots && SlotId(w) == m.id ensures w == Ready(m) && t.slots[w] == 1 {
      assert w in s.slots ==> SlotId(w) in s.pushed;
      assert Ready(m) in s.slots ==> SlotId(Ready(m)) in s.pushed;
    }
  }

  /** The budget a caller sees, late dead-lettering included: a freshly enqueued job is
      delivered at most `maxRetries + 1` times until it is redriven, and settled after at most
      `3 * maxRetries + 3` steps. */
  lemma EnqueuedJobIsDeliveredAtMost(s: State, m: Message, steps: seq<Step>)
    requires KnownJobs(s) && AllWithinBudget(s)
    requires Enqueued(m) && m.id !in s.pushed
    requires Executable(Budgeted, Next(s, Push(m)), steps) && NeverRedriven(steps, m.id)
    ensures Deliveries(steps, m.id) <= m.maxRetries + 1
    ensures LifeSteps(steps, m.id) <= 3 * m.maxRetries + 3
  {
    StepKeepsBudget(s, Push(m));
    PushOwes(s, m);
    LifeIsBounded(Next(s, Push(m)), steps, m.id, m.maxRetries + 1, 3 * m.maxRetries + 3);
  }

  /** The same for what a backend's operation does, of which only the jobs it hands out and
      redrives are known. */
  lemma ReachesByOwes(s: State, t: State, handed: multiset<string>, taken: multiset<string>, id: string, n: int, r: int) returns (left: int)
    requires ReachesBy(Budgeted, s, t, handed, taken) && Owes(s, id, n, r) && AllWithinBudget(s)
    requires id in s.pushed && id !in taken
    ensures handed[id] <= n && Owes(t, id, n - handed[id], left)
  {
    hide Executable, Handed, Taken, Owes, AllWithinBudget;
    var steps :| Executable(Budgeted, s, steps) && After(s, steps) == t && Handed(steps) == handed && Taken(steps) == taken;
    LifeIsBounded(s, steps, id, n, r);
    left := r - LifeSteps(steps, id);
  }

  lemma StepKeepsKnown(mode: Mode, s: State, step: Step)
    requires mode.Budgeted? && KnownJobs(s) && Enabled(s, step) && Allowed(mode, s, step)
    ensures KnownJobs(Next(s, step))
  {
    if step.Rewrite? { RewriteKeepsId(s, step.rule, step.x, step.y); }
    hide Rewrites;
    var t := Next(s, step);
    forall w | w in t.slots ensures SlotId(w) in t.pushed {
      if w !in s.slots { assert w == if step.Push? then Ready(step.m) else if step.Rewrite? then step.y else Dead(step.entry); }
    }
  }

  lemma {:induction false} RunKeepsKnown(mode: Mode, s: State, steps: seq<Step>)
    requires mode.Budgeted? && KnownJobs(s) && Executable(mode, s, steps)
    ensures KnownJobs(After(s, steps))
    decreases |steps|
  {
    if steps != [] {
      StepKeepsKnown(mode, s, steps[0]);
      RunKeepsKnown(mode, Next(s, steps[0]), steps[1..]);
    }
  }

  // ---- Everything a reachable state guarantees ----

  ghost predicate Safe(mode: Mode, s: State) {
    && AtLeastOnePlace(s)
    && TokensUnique(s)
    && (mode.Guarded? ==> ExactlyOnePlace(s))
    && (mode.Budgeted? ==> KnownJobs(s) && AllWithinBudget(s))
  }

  lemma ReachableIsSafe(mode: Mode, s: State, t: State, handed: multiset<string>, taken: multiset<string>)
    requires Safe(mode, s) && ReachesBy(mode, s, t, handed, taken)
    ensures Safe(mode, t) && NothingRevived(s, t)
  {
    var steps :| Executable(mode, s, steps) && After(s, steps) == t && Handed(steps) == handed && Taken(steps) == taken;
    RunKeepsEveryJob(mode, s, steps);
    if mode.Guarded? { RunKeepsExactlyOne(mode, s, steps); }
    if mode.Budgeted? { RunKeepsKnown(mode, s, steps); RunKeepsBudget(s, steps); }
    LostLeaseStaysLost(mode, s, steps);
  }

  /** A safe state in which a new job was pushed. */
  lemma SafePushOwes(s: State, m: Message)
    requires Safe(Budgeted, s) && Enqueued(m) && m.id !in s.pushed
    ensures var t := Next(s, Push(m));
      Owes(t, m.id, m.maxRetries + 1, 3 * m.maxRetries + 3) && AllWithinBudget(t) && m.id in t.pushed
  {
    PushOwes(s, m);
    StepKeepsBudget(s, Push(m));
    hide Owes, AllWithinBudget, AtLeastOnePlace, TokensUnique;
  }

  /** What is known of a delivery ever after: the job was pushed and has a budget, and whoever
      still carries the token carries the message that was handed out. */
  lemma DeliveryIsRemembered(s: State, t: State, x: Slot)
    requires Safe(Budgeted, s) && Safe(Budgeted, t) && NothingRevived(s, t) && x in s.slots && x.Leased?
    ensures x.m.id in t.pushed && HandedOut(x.m)
    ensures forall y :: y in t.slots && y.Leased? && y.token == x.token ==> y.m == x.m
  {
    assert WithinBudget(x) && SlotId(x) in s.pushed;
    forall y | y in t.slots && y.Leased? && y.token == x.token ensures y.m == x.m {
      assert CarriedAs(t, y.token, y.m);
      assert CarriedAs(s, x.token, y.m);
    }
  }

  lemma RevivalComposes(s: State, t: State, u: State)
    requires NothingRevived(s, t) && NothingRevived(t, u)
    ensures NothingRevived(s, u)
  {}
}
