/** The Redis backend as a transition system, which simulates the abstract lease queue. */
module RedisQueueRefinement {
  // Every command or script is one atomic step, the operations of any number of processes
  // interleave, and a crash drops what a process holds between two commands.

  import opened Options
  import opened QueueTypes
  import opened JsMap
  import opened Bags
  import opened RedisScripts
  import opened L = LeaseQueue

  /** JSON, by the contract used here: parsing undoes printing. */
  datatype Codec = Codec(
    showMessage: Message -> string,
    readMessage: string -> Option<Message>,
    showDead: DeadEntry -> string,
    readDead: string -> Option<DeadEntry>)

  ghost predicate Faithful(c: Codec) {
    && (forall m: Message :: c.readMessage(c.showMessage(m)) == Some(m))
    && (forall e: DeadEntry :: c.readDead(c.showDead(e)) == Some(e))
  }

  const BLANK := Message("", "", "", 0, 0, 0, 0, 0, None, [])

  function Read(c: Codec, raw: string): Message {
    match c.readMessage(raw) case Some(m) => m case None => BLANK
  }

  function ReadDead(c: Codec, raw: string): DeadEntry {
    match c.readDead(raw) case Some(e) => e case None => DeadEntry(BLANK, "", [], 0)
  }

  /** The message that the holder of an in-flight entry was handed. */
  function HandedMessage(c: Codec, entry: string): Message {
    Delivered(Read(c, RawOf(entry)), TokenOf(entry))
  }

  /** What one operation holds between two of its commands. */
  datatype Hand =
    | NackHand(entry: string)   // released by nack, to be stored again
    | RedriveHand(m: Message)   // taken from the dead list, to be stored again

  type OpId = nat

  /** The store, the operations in progress, and the history. */
  datatype World = World(
    s: Server,
    hands: seq<(OpId, Hand)>,
    gone: multiset<Slot>,
    pushed: set<string>,
    issued: set<Token>,
    clock: int)

  // ---- The abstract state of a world ----

  function PendingSlots(c: Codec, raws: seq<string>): seq<Slot> {
    seq(|raws|, i requires 0 <= i < |raws| => Ready(Read(c, raws[i])))
  }

  function DelayedSlots(c: Codec, z: ZSet): seq<Slot> {
    seq(|z|, i requires 0 <= i < |z| => Ready(Read(c, z[i].0)))
  }

  function LeaseSlot(c: Codec, leases: map<string, int>, entry: string): Slot {
    Leased(TokenOf(entry), HandedMessage(c, entry), if entry in leases then leases[entry] else 0)
  }

  function ProcessingSlots(c: Codec, leases: map<string, int>, entries: seq<string>): seq<Slot> {
    seq(|entries|, i requires 0 <= i < |entries| => LeaseSlot(c, leases, entries[i]))
  }

  function RevokedSlot(c: Codec, entry: string): Slot { Revoked(TokenOf(entry), HandedMessage(c, entry)) }

  function ReclaimSlots(c: Codec, entries: seq<string>): seq<Slot> {
    seq(|entries|, i requires 0 <= i < |entries| => RevokedSlot(c, entries[i]))
  }

  function DeadSlots(c: Codec, raws: seq<string>): seq<Slot> {
    seq(|raws|, i requires 0 <= i < |raws| => Dead(ReadDead(c, raws[i])))
  }

  function HandSlot(c: Codec, h: Hand): Slot {
    match h case NackHand(entry) => Retrying(HandedMessage(c, entry)) case RedriveHand(m) => Redriving(m)
  }

  function HandSlots(c: Codec, hands: seq<(OpId, Hand)>): seq<Slot> {
    seq(|hands|, i requires 0 <= i < |hands| => HandSlot(c, hands[i].1))
  }

  function SlotsOf(c: Codec, w: World): multiset<Slot> {
    multiset(PendingSlots(c, w.s.pending))
    + multiset(DelayedSlots(c, w.s.delayed))
    + multiset(ProcessingSlots(c, w.s.leases, w.s.processing))
    + multiset(ReclaimSlots(c, w.s.reclaim))
    + multiset(DeadSlots(c, w.s.dead))
    + multiset(HandSlots(c, w.hands))
    + w.gone
  }

  function Abstract(c: Codec, w: World): State {
    State(SlotsOf(c, w), w.pushed, w.issued, w.clock)
  }

  // ---- Representation invariant ----

  predicate WellFormed(c: Codec, issued: set<Token>, entry: string) {
    '|' in entry && TokenOf(entry) in issued && c.readMessage(RawOf(entry)).Some?
  }

  ghost predicate DistinctTokens(entries: seq<string>) {
    forall i, j :: 0 <= i < j < |entries| ==> TokenOf(entries[i]) != TokenOf(entries[j])
  }

  ghost predicate TokensApart(a: seq<string>, b: seq<string>) {
    forall x, y :: x in a && y in b ==> TokenOf(x) != TokenOf(y)
  }

  ghost predicate AllWellFormed(c: Codec, issued: set<Token>, entries: seq<string>) {
    forall e :: e in entries ==> WellFormed(c, issued, e)
  }

  /** Lease entries: well-formed, one token each across both lists, and the hash has exactly
      the in-flight entries as its keys. */
  ghost predicate LeasesValid(c: Codec, issued: set<Token>, processing: seq<string>, reclaim: seq<string>, leases: map<string, int>) {
    && AllWellFormed(c, issued, processing) && AllWellFormed(c, issued, reclaim)
    && DistinctTokens(processing) && DistinctTokens(reclaim) && TokensApart(processing, reclaim)
    && (forall e :: e in leases <==> e in processing)
  }

  ghost predicate PendingValid(c: Codec, clock: int, pending: seq<string>) {
    forall raw :: raw in pending ==> c.readMessage(raw).Some? && Read(c, raw).availableAt <= clock
  }

  /** Members of the sorted set: once each, in order, readable, scored by the time they become due. */
  ghost predicate DelayedValid(c: Codec, z: ZSet) {
    && UniqueKeys(z) && InScoreOrder(z)
    && forall y :: y in z ==> c.readMessage(y.0).Some? && Read(c, y.0).availableAt == y.1
  }

  ghost predicate InScoreOrder(z: ZSet) { forall i, j :: 0 <= i < j < |z| ==> z[i].1 <= z[j].1 }

  ghost predicate DeadValid(c: Codec, dead: seq<string>) {
    forall raw :: raw in dead ==> c.readDead(raw).Some?
  }

  ghost predicate Valid(c: Codec, w: World) {
    && Faithful(c)
    && LeasesOk(c, w)
    && PendingValid(c, w.clock, w.s.pending)
    && DelayedValid(c, w.s.delayed)
    && DeadValid(c, w.s.dead)
    && UniqueKeys(w.hands)
  }

  ghost predicate LeasesOk(c: Codec, w: World) {
    LeasesValid(c, w.issued, w.s.processing, w.s.reclaim, w.s.leases)
  }

  // ---- The commands ----

  datatype Config = Config(maxDead: nat, expiryError: string)

  datatype Cmd =
    | PushCmd(m: Message, now: int)
    | PromoteCmd(now: int, limit: nat)
    | ReapCmd(now: int)
    | PopCmd(token: Token, expiry: int)
    | AckCmd(lease: Token)
    | NackTake(op: OpId, lease: Token)
    | NackPut(op: OpId, now: int, delay: int, failure: Option<Failure>)
    | ExtendCmd(lease: Token, expiry: int)
    | DeadLetterCmd(entry: DeadEntry, owner: Option<Token>)
    | DrainCmd(staged: string, now: int)
    | TrimCmd
    | TakeDeadCmd(op: OpId, raw: string)
    | TakeOldestDead(op: OpId)
    | RedrivePut(op: OpId, now: int)
    | PurgeCmd
    | CrashOp(op: OpId)
    | Wait(now: int)

  function Prefix(token: Token): string { token + LEASE_SEP }

  /** Store a message: in the sorted set when it must wait, at the head of the list otherwise. */
  function Store(c: Codec, s: Server, m: Message, wait: bool): Server {
    if wait then s.(delayed := Zadd(s.delayed, c.showMessage(m), m.availableAt))
    else s.(pending := [c.showMessage(m)] + s.pending)
  }

  /** What `drainReclaimed` makes of a staged entry: where it goes, and as what. */
  function Routed(c: Codec, cfg: Config, staged: string, now: int): (bool, string) {
    var m := Expired(HandedMessage(c, staged), cfg.expiryError, now);
    if m.attempt > m.maxRetries then (true, c.showDead(DeadEntry(m, cfg.expiryError, m.failures, now)))
    else (false, c.showMessage(m.(availableAt := now)))
  }

  /** The oldest dead entries fall off the end of the list. */
  function EvictLast(c: Codec, w: World): World
    requires w.s.dead != []
  {
    var n := |w.s.dead| - 1;
    w.(s := w.s.(dead := w.s.dead[..n]), gone := w.gone + multiset{Gone(ReadDead(c, w.s.dead[n]).message.id, Discarded)})
  }

  function EvictTo(c: Codec, w: World, n: nat): World
    requires n <= |w.s.dead|
    decreases |w.s.dead|
  {
    if |w.s.dead| == n then w else EvictTo(c, EvictLast(c, w), n)
  }

  function Trimmed(c: Codec, w: World, max: nat): World {
    EvictTo(c, w, |Ltrim(w.s.dead, max)|)
  }

  function TakeDeadAt(c: Codec, w: World, op: OpId, i: nat): World
    requires i < |w.s.dead|
  {
    w.(s := w.s.(dead := w.s.dead[..i] + w.s.dead[i + 1..]),
       hands := Put(w.hands, op, RedriveHand(ReadDead(c, w.s.dead[i]).message)))
  }

  /** Release by token, then record the entry. The script never compares the entry with the job
      whose lease it releases: a job it is not about is lost. */
  function Buried(c: Codec, w: World, entry: DeadEntry, owner: Option<Token>): World {
    var (s, released) := if owner.Some? then ReleaseScript(w.s, Prefix(owner.value)) else (w.s, None);
    var lost := released.Some? && HandedMessage(c, released.value).id != entry.message.id;
    w.(s := s.(dead := [c.showDead(entry)] + s.dead),
       gone := if lost then w.gone + multiset{Gone(HandedMessage(c, released.value).id, Lost)} else w.gone)
  }

  function NextWorld(c: Codec, cfg: Config, w: World, cmd: Cmd): World {
    match cmd
    case PushCmd(m, now) => w.(s := Store(c, w.s, m, m.availableAt > now), pushed := w.pushed + {m.id})
    case PromoteCmd(now, limit) => w.(s := PromoteScript(w.s, now, limit))
    case ReapCmd(now) => w.(s := ReapScript(w.s, now))
    case PopCmd(token, expiry) =>
      var (s, entry) := PopScript(w.s, expiry, token);
      w.(s := s, issued := if entry.Some? then w.issued + {token} else w.issued)
    case AckCmd(lease) =>
      var (s, entry) := ReleaseScript(w.s, Prefix(lease));
      w.(s := s, gone := if entry.Some? then w.gone + multiset{Gone(HandedMessage(c, entry.value).id, Acked)} else w.gone)
    case NackTake(op, lease) =>
      var (s, entry) := ReleaseScript(w.s, Prefix(lease));
      w.(s := s, hands := if entry.Some? then Put(w.hands, op, NackHand(entry.value)) else w.hands)
    case NackPut(op, now, delay, failure) =>
      if Has(w.hands, op) && Get(w.hands, op).NackHand? then
        var m := Retried(HandedMessage(c, Get(w.hands, op).entry), now + delay, failure);
        w.(s := Store(c, w.s, m, delay > 0), hands := Remove(w.hands, op))
      else w
    case ExtendCmd(lease, expiry) => w.(s := ExtendScript(w.s, Prefix(lease), expiry).0)
    case DeadLetterCmd(entry, owner) =>
      Trimmed(c, Buried(c, w, entry, owner), cfg.maxDead)
    case DrainCmd(staged, now) =>
      var (toDead, payload) := Routed(c, cfg, staged, now);
      w.(s := DrainScript(w.s, staged, toDead, payload).0)
    case TrimCmd => Trimmed(c, w, cfg.maxDead)
    case TakeDeadCmd(op, raw) =>
      var i := Position(w.s.dead, raw);
      if i < |w.s.dead| then TakeDeadAt(c, w, op, i) else w
    case TakeOldestDead(op) => if w.s.dead != [] then TakeDeadAt(c, w, op, |w.s.dead| - 1) else w
    case RedrivePut(op, now) =>
      if Has(w.hands, op) && Get(w.hands, op).RedriveHand? then
        w.(s := Store(c, w.s, ResetForRedrive(Get(w.hands, op).m, now), false), hands := Remove(w.hands, op))
      else w
    case PurgeCmd => EvictTo(c, w, 0)
    case CrashOp(op) =>
      if Has(w.hands, op) then
        w.(hands := Remove(w.hands, op), gone := w.gone + multiset{Gone(SlotId(HandSlot(c, Get(w.hands, op))), Lost)})
      else w
    case Wait(now) => w.(clock := now)
  }

  /** The delivery a token owns right now, if any. */
  predicate Owns(s: Server, token: Token) {
    ScanPrefix(s.processing, Prefix(token)) < |s.processing|
  }

  function OwnedEntry(s: Server, token: Token): string
    requires Owns(s, token)
  {
    s.processing[ScanPrefix(s.processing, Prefix(token))]
  }

  /** The job a command hands to a worker, if any. */
  function HandedBy(c: Codec, w: World, cmd: Cmd): multiset<string> {
    if cmd.PopCmd? && w.s.pending != [] then multiset{Read(c, w.s.pending[|w.s.pending| - 1]).id} else multiset{}
  }

  /** The job a command takes from the dead list, if any. */
  function RedrivenBy(c: Codec, w: World, cmd: Cmd): multiset<string> {
    match cmd
    case TakeDeadCmd(_, raw) => if raw in w.s.dead then multiset{ReadDead(c, raw).message.id} else multiset{}
    case TakeOldestDead(_) => if w.s.dead != [] then multiset{ReadDead(c, w.s.dead[|w.s.dead| - 1]).message.id} else multiset{}
    case _ => multiset{}
  }

  /** What a command needs: clock readings not in the future, tokens without the separator
      (fresh ones for a pop), fresh operation ids; and, by mode, what the abstract queue asks of
      its callers. */
  ghost predicate Permitted(mode: Mode, c: Codec, w: World, cmd: Cmd) {
    match cmd
    case PushCmd(m, now) => now <= w.clock && (!mode.Any? ==> m.id !in w.pushed) && (Budget(mode) ==> Enqueued(m))
    case PromoteCmd(now, _) => now <= w.clock
    case ReapCmd(now) => now <= w.clock
    case PopCmd(token, _) => token !in w.issued && token != "" && '|' !in token
    case AckCmd(lease) =>
      '|' !in lease && (mode.Failing? && Owns(w.s, lease) ==> HandedMessage(c, OwnedEntry(w.s, lease)).id != mode.job)
    case NackTake(op, lease) => '|' !in lease && !Has(w.hands, op)
    case NackPut(op, now, delay, failure) =>
      && now <= w.clock
      && (Budget(mode) && Has(w.hands, op) && Get(w.hands, op).NackHand? ==>
            var m := HandedMessage(c, Get(w.hands, op).entry);
            failure.Some? && failure.value.attempt == m.attempt < m.maxRetries)
    case ExtendCmd(lease, _) => '|' !in lease
    case DeadLetterCmd(entry, owner) =>
      && (owner.Some? ==> owner.value != "" && '|' !in owner.value)
      && (mode.Guarded? ==> owner.Some? && Owns(w.s, owner.value))
      && (!mode.Any? ==>
            if owner.Some? && Owns(w.s, owner.value) then
              var m := HandedMessage(c, OwnedEntry(w.s, owner.value));
              entry.message.id == m.id && (Budget(mode) ==> entry.message == m.(failures := entry.failures))
            else Budget(mode) ==> entry.message.id in w.pushed && 0 <= entry.message.maxRetries)
      && (mode.Failing? && entry.message.id == mode.job ==>
            && AllFailed(entry, mode.retries)
            && (owner.Some? && Owns(w.s, owner.value) ==> HandedMessage(c, OwnedEntry(w.s, owner.value)).attempt >= mode.retries))
    case DrainCmd(_, now) => now <= w.clock
    case TakeDeadCmd(op, _) => !Has(w.hands, op)
    case TakeOldestDead(op) => !Has(w.hands, op)
    case RedrivePut(_, now) => now <= w.clock
    case CrashOp(op) => mode.Failing? && Has(w.hands, op) ==> SlotId(HandSlot(c, Get(w.hands, op))) != mode.job
    case Wait(now) => w.clock <= now
    case _ => true
  }

  // ---- The store, one slot at a time ----

  lemma PendingMore(c: Codec, raw: string, pending: seq<string>)
    ensures multiset(PendingSlots(c, [raw] + pending)) == multiset(PendingSlots(c, pending)) + multiset{Ready(Read(c, raw))}
  {
    assert PendingSlots(c, [raw] + pending) == [Ready(Read(c, raw))] + PendingSlots(c, pending);
  }

  lemma GainPending(c: Codec, w: World, raw: string)
    ensures Abstract(c, w.(s := w.s.(pending := [raw] + w.s.pending))) == Plus(Abstract(c, w), Ready(Read(c, raw)))
  {
    PendingMore(c, raw, w.s.pending);
    hide PendingSlots, DelayedSlots, ProcessingSlots, ReclaimSlots, DeadSlots, HandSlots, Read;
  }

  lemma LosePending(c: Codec, w: World)
    requires w.s.pending != []
    ensures var n := |w.s.pending| - 1;
      Abstract(c, w) == Plus(Abstract(c, w.(s := w.s.(pending := w.s.pending[..n]))), Ready(Read(c, w.s.pending[n])))
  {
    hide DelayedSlots, ProcessingSlots, ReclaimSlots, DeadSlots, HandSlots;
    var n := |w.s.pending| - 1;
    assert PendingSlots(c, w.s.pending) == PendingSlots(c, w.s.pending[..n]) + [Ready(Read(c, w.s.pending[n]))];
  }

  lemma {:induction false} InsertAddsSlot(c: Codec, z: ZSet, x: (string, int))
    ensures multiset(DelayedSlots(c, InsertInOrder(z, x))) == multiset(DelayedSlots(c, z)) + multiset{Ready(Read(c, x.0))}
  {
    if z == [] || Before(x, z[0]) {
      assert DelayedSlots(c, [x] + z) == [Ready(Read(c, x.0))] + DelayedSlots(c, z);
    } else {
      InsertAddsSlot(c, z[1..], x);
      assert DelayedSlots(c, z) == [Ready(Read(c, z[0].0))] + DelayedSlots(c, z[1..]);
      assert DelayedSlots(c, [z[0]] + InsertInOrder(z[1..], x)) == [Ready(Read(c, z[0].0))] + DelayedSlots(c, InsertInOrder(z[1..], x));
    }
  }

  lemma GainDelayed(c: Codec, w: World, x: (string, int))
    ensures Abstract(c, w.(s := w.s.(delayed := InsertInOrder(w.s.delayed, x)))) == Plus(Abstract(c, w), Ready(Read(c, x.0)))
  {
    InsertAddsSlot(c, w.s.delayed, x);
    hide PendingSlots, DelayedSlots, ProcessingSlots, ReclaimSlots, DeadSlots, HandSlots, Read;
  }

  lemma LoseDelayed(c: Codec, w: World, member: string)
    requires Has(w.s.delayed, member)
    ensures Abstract(c, w) == Plus(Abstract(c, w.(s := w.s.(delayed := Remove(w.s.delayed, member)))), Ready(Read(c, member)))
  {
    hide PendingSlots, ProcessingSlots, ReclaimSlots, DeadSlots, HandSlots;
    var i, s := Find(w.s.delayed, member), DelayedSlots(c, w.s.delayed);
    assert DelayedSlots(c, Remove(w.s.delayed, member)) == s[..i] + s[i + 1..];
    RemoveAt(s, i);
  }

  lemma LeaseAddsSlot(c: Codec, leases: map<string, int>, entries: seq<string>, entry: string, expiry: int)
    requires entry !in entries
    ensures ProcessingSlots(c, leases[entry := expiry], [entry] + entries)
      == [Leased(TokenOf(entry), HandedMessage(c, entry), expiry)] + ProcessingSlots(c, leases, entries)
  {
    hide HandedMessage, TokenOf;
  }

  lemma GainLease(c: Codec, w: World, entry: string, expiry: int)
    requires entry !in w.s.processing
    ensures Abstract(c, w.(s := w.s.(processing := [entry] + w.s.processing, leases := w.s.leases[entry := expiry])))
      == Plus(Abstract(c, w), Leased(TokenOf(entry), HandedMessage(c, entry), expiry))
  {
    LeaseAddsSlot(c, w.s.leases, w.s.processing, entry, expiry);
    hide PendingSlots, DelayedSlots, ProcessingSlots, ReclaimSlots, DeadSlots, HandSlots, HandedMessage;
  }

  /** The world after an in-flight entry was released. */
  function Released(w: World, entry: string): World {
    w.(s := w.s.(processing := Lrem(w.s.processing, entry), leases := w.s.leases - {entry}))
  }

  lemma ReleaseSlots(c: Codec, leases: map<string, int>, entries: seq<string>, entry: string)
    requires entry in entries && DistinctTokens(entries)
    ensures multiset(ProcessingSlots(c, leases, entries)) ==
      multiset(ProcessingSlots(c, leases - {entry}, Lrem(entries, entry))) + multiset{LeaseSlot(c, leases, entry)}
  {
    hide HandedMessage, TokenOf;
    var i, s, t := Position(entries, entry), ProcessingSlots(c, leases, entries), ProcessingSlots(c, leases - {entry}, Lrem(entries, entry));
    forall j | 0 <= j < |t| ensures t[j] == (s[..i] + s[i + 1..])[j] {
      var k := if j < i then j else j + 1;
      assert Lrem(entries, entry)[j] == entries[k] && entries[k] != entry;
    }
    assert t == s[..i] + s[i + 1..];
    RemoveAt(s, i);
  }

  lemma LoseLease(c: Codec, w: World, entry: string)
    requires entry in w.s.processing && LeasesOk(c, w)
    ensures Abstract(c, w) == Plus(Abstract(c, Released(w, entry)), LeaseSlot(c, w.s.leases, entry))
  {
    ReleaseSlots(c, w.s.leases, w.s.processing, entry);
    hide PendingSlots, DelayedSlots, ProcessingSlots, ReclaimSlots, DeadSlots, HandSlots, Lrem, LeaseSlot;
  }

  lemma RetimeSlots(c: Codec, leases: map<string, int>, entries: seq<string>, entry: string, expiry: int)
    requires entry in entries && DistinctTokens(entries)
    ensures multiset(ProcessingSlots(c, leases[entry := expiry], entries)) ==
      multiset(ProcessingSlots(c, leases - {entry}, Lrem(entries, entry)))
      + multiset{Leased(TokenOf(entry), HandedMessage(c, entry), expiry)}
  {
    hide HandedMessage, TokenOf;
    ReleaseSlots(c, leases[entry := expiry], entries, entry);
    assert leases[entry := expiry] - {entry} == leases - {entry};
  }

  lemma RetimeLease(c: Codec, w: World, entry: string, expiry: int)
    requires entry in w.s.processing && LeasesOk(c, w)
    ensures Abstract(c, w.(s := w.s.(leases := w.s.leases[entry := expiry]))) ==
      Plus(Abstract(c, Released(w, entry)), Leased(TokenOf(entry), HandedMessage(c, entry), expiry))
  {
    RetimeSlots(c, w.s.leases, w.s.processing, entry, expiry);
    hide PendingSlots, DelayedSlots, ProcessingSlots, ReclaimSlots, DeadSlots, HandSlots, Lrem, HandedMessage;
  }

  lemma ReclaimMore(c: Codec, entry: string, reclaim: seq<string>)
    ensures multiset(ReclaimSlots(c, [entry] + reclaim)) == multiset(ReclaimSlots(c, reclaim)) + multiset{RevokedSlot(c, entry)}
  {
    hide RevokedSlot;
    assert ReclaimSlots(c, [entry] + reclaim) == [RevokedSlot(c, entry)] + ReclaimSlots(c, reclaim);
  }

  lemma GainReclaim(c: Codec, w: World, entry: string)
    ensures Abstract(c, w.(s := w.s.(reclaim := [entry] + w.s.reclaim))) == Plus(Abstract(c, w), RevokedSlot(c, entry))
  {
    ReclaimMore(c, entry, w.s.reclaim);
    hide PendingSlots, DelayedSlots, ProcessingSlots, ReclaimSlots, DeadSlots, HandSlots, RevokedSlot;
  }

  lemma LoseReclaim(c: Codec, w: World, entry: string)
    requires entry in w.s.reclaim
    ensures Abstract(c, w) == Plus(Abstract(c, w.(s := w.s.(reclaim := Lrem(w.s.reclaim, entry)))), RevokedSlot(c, entry))
  {
    hide PendingSlots, DelayedSlots, ProcessingSlots, DeadSlots, HandSlots, RevokedSlot;
    var i, s := Position(w.s.reclaim, entry), ReclaimSlots(c, w.s.reclaim);
    assert ReclaimSlots(c, Lrem(w.s.reclaim, entry)) == s[..i] + s[i + 1..];
    RemoveAt(s, i);
  }

  lemma DeadMore(c: Codec, raw: string, dead: seq<string>)
    ensures multiset(DeadSlots(c, [raw] + dead)) == multiset(DeadSlots(c, dead)) + multiset{Dead(ReadDead(c, raw))}
  {
    hide ReadDead;
    assert DeadSlots(c, [raw] + dead) == [Dead(ReadDead(c, raw))] + DeadSlots(c, dead);
  }

  lemma GainDead(c: Codec, w: World, raw: string)
    ensures Abstract(c, w.(s := w.s.(dead := [raw] + w.s.dead))) == Plus(Abstract(c, w), Dead(ReadDead(c, raw)))
  {
    DeadMore(c, raw, w.s.dead);
    hide PendingSlots, DelayedSlots, ProcessingSlots, ReclaimSlots, DeadSlots, HandSlots, ReadDead;
  }

  lemma LoseDead(c: Codec, w: World, i: nat)
    requires i < |w.s.dead|
    ensures Abstract(c, w) ==
      Plus(Abstract(c, w.(s := w.s.(dead := w.s.dead[..i] + w.s.dead[i + 1..]))), Dead(ReadDead(c, w.s.dead[i])))
  {
    hide PendingSlots, DelayedSlots, ProcessingSlots, ReclaimSlots, HandSlots;
    var s := DeadSlots(c, w.s.dead);
    assert DeadSlots(c, w.s.dead[..i] + w.s.dead[i + 1..]) == s[..i] + s[i + 1..];
    RemoveAt(s, i);
  }

  lemma GainHand(c: Codec, w: World, op: OpId, h: Hand)
    requires !Has(w.hands, op)
    ensures Abstract(c, w.(hands := Put(w.hands, op, h))) == Plus(Abstract(c, w), HandSlot(c, h))
  {
    hide HandSlot;
    assert Put(w.hands, op, h) == w.hands + [(op, h)];
    assert HandSlots(c, w.hands + [(op, h)]) == HandSlots(c, w.hands) + [HandSlot(c, h)];
    hide PendingSlots, DelayedSlots, ProcessingSlots, ReclaimSlots, DeadSlots, HandSlots;
  }

  lemma LoseHand(c: Codec, w: World, op: OpId)
    requires Has(w.hands, op)
    ensures Abstract(c, w) == Plus(Abstract(c, w.(hands := Remove(w.hands, op))), HandSlot(c, Get(w.hands, op)))
  {
    hide PendingSlots, DelayedSlots, ProcessingSlots, ReclaimSlots, DeadSlots, HandSlot;
    var i, s := Find(w.hands, op), HandSlots(c, w.hands);
    assert HandSlots(c, Remove(w.hands, op)) == s[..i] + s[i + 1..];
    RemoveAt(s, i);
  }

  lemma GainGone(c: Codec, w: World, x: Slot)
    ensures Abstract(c, w.(gone := w.gone + multiset{x})) == Plus(Abstract(c, w), x)
  {
    hide PendingSlots, DelayedSlots, ProcessingSlots, ReclaimSlots, DeadSlots, HandSlots;
  }

  // ---- Storing a message ----

  lemma {:induction false} InsertKeepsKeys(z: ZSet, x: (string, int))
    requires UniqueKeys(z) && !Has(z, x.0)
    ensures UniqueKeys(InsertInOrder(z, x)) && (InScoreOrder(z) ==> InScoreOrder(InsertInOrder(z, x)))
    ensures forall y :: y in InsertInOrder(z, x) <==> y == x || y in z
  {
    if z != [] && !Before(x, z[0]) {
      InsertKeepsKeys(z[1..], x);
      var r := InsertInOrder(z[1..], x);
      assert InScoreOrder(z) ==> InScoreOrder(z[1..]);
      assert forall i :: 0 <= i < |r| ==> r[i] == x || r[i] in z[1..];
      forall i | 0 <= i < |r| ensures r[i].0 != z[0].0 {
        assert r[i] in r;
      }
    }
  }

  lemma RemoveKeepsOrder(z: ZSet, member: string)
    requires InScoreOrder(z)
    ensures InScoreOrder(Remove(z, member))
  {
    var r, i := Remove(z, member), Find(z, member);
    if i < |z| { assert forall j :: 0 <= j < |r| ==> r[j] == z[if j < i then j else j + 1]; }
  }

  ghost predicate WaitingOk(c: Codec, w: World) {
    PendingValid(c, w.clock, w.s.pending) && DelayedValid(c, w.s.delayed)
  }

  lemma StoreKeepsWaiting(c: Codec, w: World, m: Message, wait: bool)
    requires Faithful(c) && WaitingOk(c, w) && (!wait ==> m.availableAt <= w.clock)
    ensures WaitingOk(c, w.(s := Store(c, w.s, m, wait)))
  {
    if wait {
      var raw := c.showMessage(m);
      var r := Remove(w.s.delayed, raw);
      RemoveKeepsUnique(w.s.delayed, raw);
      assert forall y :: y in r ==> y in w.s.delayed;
      RemoveKeepsOrder(w.s.delayed, raw);
      InsertKeepsKeys(r, (raw, m.availableAt));
    }
  }

  /** Storing a message adds its slot; ZADD of a member already present keeps one copy. */
  lemma StoreReaches(mode: Mode, c: Codec, w: World, m: Message, wait: bool)
    requires Faithful(c)
    ensures Reaches(mode, Plus(Abstract(c, w), Ready(m)), Abstract(c, w.(s := Store(c, w.s, m, wait))))
  {
    hide ReachesBy;
    var raw := c.showMessage(m);
    var v := w.(s := Store(c, w.s, m, wait));
    hide SlotsOf;
    if !wait {
      GainPending(c, w, raw);
      ReachesSelf(mode, Abstract(c, v));
    } else {
      var u := w.(s := w.s.(delayed := Remove(w.s.delayed, raw)));
      GainDelayed(c, u, (raw, m.availableAt));
      if Has(w.s.delayed, raw) {
        LoseDelayed(c, w, raw);
        DropCopy(mode, Abstract(c, u), Ready(m), Ready(m));
      } else {
        ReachesSelf(mode, Abstract(c, v));
      }
    }
  }

  lemma PushReaches(mode: Mode, c: Codec, cfg: Config, w: World, m: Message, now: int)
    requires Valid(c, w) && Permitted(mode, c, w, PushCmd(m, now))
    ensures var v := NextWorld(c, cfg, w, PushCmd(m, now)); Valid(c, v) && Reaches(mode, Abstract(c, w), Abstract(c, v))
  {
    hide ReachesBy;
    var wait := m.availableAt > now;
    var u := w.(pushed := w.pushed + {m.id});
    StoreKeepsWaiting(c, w, m, wait);
    StoreReaches(mode, c, u, m, wait);
    ReachesStep(mode, Abstract(c, w), Push(m));
    assert Next(Abstract(c, w), Push(m)) == Plus(Abstract(c, u), Ready(m));
    ReachesTransitive(mode, Abstract(c, w), Plus(Abstract(c, u), Ready(m)), Abstract(c, NextWorld(c, cfg, w, PushCmd(m, now))));
  }

  // ---- Releasing a lease ----

  lemma LremKeeps(entries: seq<string>, x: string)
    requires DistinctTokens(entries)
    ensures DistinctTokens(Lrem(entries, x))
    ensures forall e :: e in Lrem(entries, x) <==> e in entries && e != x
  {
    hide TokenOf;
    var i, r := Position(entries, x), Lrem(entries, x);
    if i < |entries| {
      assert forall j :: 0 <= j < |r| ==> r[j] == entries[if j < i then j else j + 1];
      forall e | e in entries && e != x ensures e in r {
        var k :| 0 <= k < |entries| && entries[k] == e;
        assert r[if k < i then k else k - 1] == e;
      }
    }
  }

  lemma ReleaseKeepsLeases(c: Codec, w: World, entry: string)
    requires LeasesOk(c, w)
    ensures LeasesOk(c, Released(w, entry))
  {
    hide WellFormed, TokenOf;
    LremKeeps(w.s.processing, entry);
  }

  /** The scan by `token|` finds the entry of that token, and only that one. */
  lemma OwnedByToken(c: Codec, w: World, token: Token)
    requires LeasesOk(c, w) && '|' !in token
    ensures Owns(w.s, token) ==>
      && OwnedEntry(w.s, token) in w.s.processing && TokenOf(OwnedEntry(w.s, token)) == token
      && ReleaseScript(w.s, Prefix(token)) == (Released(w, OwnedEntry(w.s, token)).s, Some(OwnedEntry(w.s, token)))
    ensures !Owns(w.s, token) ==>
      && ReleaseScript(w.s, Prefix(token)) == (w.s, None)
      && forall e :: e in w.s.processing ==> TokenOf(e) != token
  {
    forall e | e in w.s.processing ensures HasPrefix(e, Prefix(token)) <==> TokenOf(e) == token {
      PrefixIsToken(e, token);
    }
  }

  lemma AckReaches(mode: Mode, c: Codec, cfg: Config, w: World, lease: Token)
    requires Valid(c, w) && Permitted(mode, c, w, AckCmd(lease))
    ensures var v := NextWorld(c, cfg, w, AckCmd(lease)); Valid(c, v) && Reaches(mode, Abstract(c, w), Abstract(c, v))
  {
    hide ReachesBy, SlotsOf, LeasesValid, PendingValid, DelayedValid, DeadValid, HandedMessage, Lrem;
    OwnedByToken(c, w, lease);
    if Owns(w.s, lease) {
      var e := OwnedEntry(w.s, lease);
      var u, id := Released(w, e), HandedMessage(c, e).id;
      ReleaseKeepsLeases(c, w, e);
      LoseLease(c, w, e);
      Swap(mode, Abstract(c, u), Ack, LeaseSlot(c, w.s.leases, e), Gone(id, Acked));
      GainGone(c, u, Gone(id, Acked));
    } else {
      ReachesSelf(mode, Abstract(c, w));
    }
  }

  lemma NackTakeReaches(mode: Mode, c: Codec, cfg: Config, w: World, op: OpId, lease: Token)
    requires Valid(c, w) && '|' !in lease && !Has(w.hands, op)
    ensures var v := NextWorld(c, cfg, w, NackTake(op, lease)); Valid(c, v) && Reaches(mode, Abstract(c, w), Abstract(c, v))
  {
    hide ReachesBy, SlotsOf, LeasesValid, PendingValid, DelayedValid, DeadValid, HandedMessage, Lrem;
    OwnedByToken(c, w, lease);
    if Owns(w.s, lease) {
      var e := OwnedEntry(w.s, lease);
      var u := Released(w, e);
      ReleaseKeepsLeases(c, w, e);
      LoseLease(c, w, e);
      Swap(mode, Abstract(c, u), Release, LeaseSlot(c, w.s.leases, e), Retrying(HandedMessage(c, e)));
      GainHand(c, u, op, NackHand(e));
      PutKeepsUnique(w.hands, op, NackHand(e));
    } else {
      ReachesSelf(mode, Abstract(c, w));
    }
  }

  lemma NackPutReaches(mode: Mode, c: Codec, cfg: Config, w: World, op: OpId, now: int, delay: int, failure: Option<Failure>)
    requires Valid(c, w) && Permitted(mode, c, w, NackPut(op, now, delay, failure))
    ensures var v := NextWorld(c, cfg, w, NackPut(op, now, delay, failure));
      Valid(c, v) && Reaches(mode, Abstract(c, w), Abstract(c, v))
  {
    hide ReachesBy, SlotsOf, LeasesValid, PendingValid, DelayedValid, DeadValid, HandedMessage;
    if Has(w.hands, op) && Get(w.hands, op).NackHand? {
      var handed := HandedMessage(c, Get(w.hands, op).entry);
      var m := Retried(handed, now + delay, failure);
      var u := w.(hands := Remove(w.hands, op));
      RemoveKeepsUnique(w.hands, op);
      StoreKeepsWaiting(c, u, m, delay > 0);
      LoseHand(c, w, op);
      Swap(mode, Abstract(c, u), Retry(failure), Retrying(handed), Ready(m));
      StoreReaches(mode, c, u, m, delay > 0);
      ReachesTransitive(mode, Abstract(c, w), Plus(Abstract(c, u), Ready(m)), Abstract(c, u.(s := Store(c, u.s, m, delay > 0))));
    } else {
      ReachesSelf(mode, Abstract(c, w));
    }
  }

  lemma RetimeKeepsLeases(c: Codec, w: World, entry: string, expiry: int)
    requires LeasesOk(c, w) && entry in w.s.processing
    ensures LeasesOk(c, w.(s := w.s.(leases := w.s.leases[entry := expiry])))
  {
    hide WellFormed, TokenOf;
  }

  lemma ExtendReaches(mode: Mode, c: Codec, cfg: Config, w: World, lease: Token, expiry: int)
    requires Valid(c, w) && '|' !in lease
    ensures var v := NextWorld(c, cfg, w, ExtendCmd(lease, expiry)); Valid(c, v) && Reaches(mode, Abstract(c, w), Abstract(c, v))
  {
    hide ReachesBy, SlotsOf, LeasesValid, PendingValid, DelayedValid, DeadValid, HandedMessage, Lrem;
    OwnedByToken(c, w, lease);
    if Owns(w.s, lease) {
      var e := OwnedEntry(w.s, lease);
      LoseLease(c, w, e);
      RetimeLease(c, w, e, expiry);
      RetimeKeepsLeases(c, w, e, expiry);
      Swap(mode, Abstract(c, Released(w, e)), Extend, LeaseSlot(c, w.s.leases, e), Leased(TokenOf(e), HandedMessage(c, e), expiry));
    } else {
      ReachesSelf(mode, Abstract(c, w));
    }
  }

  // ---- Delivery ----

  lemma IssueToken(c: Codec, w: World, token: Token)
    ensures Abstract(c, w.(issued := w.issued + {token})) == Abstract(c, w).(issued := w.issued + {token})
  {}

  lemma FreshEntry(c: Codec, w: World, token: Token, raw: string)
    requires LeasesOk(c, w) && token !in w.issued && '|' !in token
    ensures var e := EntryOf(token, raw);
      && '|' in e && TokenOf(e) == token && RawOf(e) == raw
      && forall x :: x in w.s.processing || x in w.s.reclaim ==> x != e && TokenOf(x) != token
  {
    SplitUndoesJoin(token, raw);
    assert EntryOf(token, raw)[|token|] == '|';
  }

  lemma TokenAdds(c: Codec, issued: set<Token>, entries: seq<string>, e: string, token: Token)
    requires AllWellFormed(c, issued, entries)
    ensures AllWellFormed(c, issued + {token}, entries)
    ensures '|' in e && TokenOf(e) == token && c.readMessage(RawOf(e)).Some? ==> AllWellFormed(c, issued + {token}, [e] + entries)
  {
    hide TokenOf, RawOf;
  }

  lemma EntryAdds(processing: seq<string>, reclaim: seq<string>, e: string)
    requires DistinctTokens(processing) && TokensApart(processing, reclaim)
    requires forall x :: x in processing || x in reclaim ==> TokenOf(x) != TokenOf(e)
    ensures DistinctTokens([e] + processing) && TokensApart([e] + processing, reclaim)
  {
    hide TokenOf;
  }

  lemma PopKeepsLeases(c: Codec, w: World, raw: string, token: Token, expiry: int)
    requires LeasesOk(c, w) && token !in w.issued && '|' !in token && c.readMessage(raw).Some?
    ensures var e := EntryOf(token, raw);
      LeasesOk(c, w.(s := w.s.(processing := [e] + w.s.processing, leases := w.s.leases[e := expiry]), issued := w.issued + {token}))
  {
    var e := EntryOf(token, raw);
    FreshEntry(c, w, token, raw);
    hide TokenOf, RawOf, EntryOf, AllWellFormed, DistinctTokens, TokensApart;
    TokenAdds(c, w.issued, w.s.processing, e, token);
    TokenAdds(c, w.issued, w.s.reclaim, e, token);
    EntryAdds(w.s.processing, w.s.reclaim, e);
  }

  lemma PopReaches(mode: Mode, c: Codec, cfg: Config, w: World, token: Token, expiry: int)
    requires Valid(c, w) && Permitted(mode, c, w, PopCmd(token, expiry))
    ensures var cmd := PopCmd(token, expiry); var v := NextWorld(c, cfg, w, cmd);
      Valid(c, v) && ReachesBy(mode, Abstract(c, w), Abstract(c, v), HandedBy(c, w, cmd), multiset{})
  {
    hide ReachesBy;
    if w.s.pending == [] {
      ReachesSelf(mode, Abstract(c, w));
    } else {
      var n := |w.s.pending| - 1;
      var raw, e := w.s.pending[n], EntryOf(token, w.s.pending[n]);
      var u := w.(s := w.s.(pending := w.s.pending[..n]));
      var u' := u.(issued := u.issued + {token});
      PopKeepsLeases(c, u, raw, token, expiry);
      FreshEntry(c, w, token, raw);
      hide SlotsOf, LeasesValid, DelayedValid, DeadValid, TokenOf, RawOf, EntryOf;
      LosePending(c, w);
      DeliverSwap(mode, Abstract(c, u), Read(c, raw), token, expiry);
      GainLease(c, u', e, expiry);
      IssueToken(c, u, token);
    }
  }

  // ---- Promotion ----

  /** Members listed as due are due. */
  ghost predicate ListedDue(z: ZSet, ready: seq<string>, now: int) {
    forall y :: y in z && y.0 in ready ==> y.1 <= now
  }

  lemma {:induction false} RangeIsDue(z: ZSet, now: int, limit: nat)
    requires UniqueKeys(z)
    ensures ListedDue(z, ZrangeDue(z, now, limit), now)
    ensures forall m :: m in ZrangeDue(z, now, limit) ==> exists i :: 0 <= i < |z| && z[i].0 == m
    decreases |z|
  {
    if z != [] && limit > 0 && z[0].1 <= now {
      RangeIsDue(z[1..], now, limit - 1);
      var r := ZrangeDue(z[1..], now, limit - 1);
      forall y | y in z && y.0 in [z[0].0] + r ensures y.1 <= now {
        if y.0 == z[0].0 {
          var i :| 0 <= i < |z| && z[i] == y;
          assert i == 0;
        } else {
          assert y in z[1..];
        }
      }
      forall m | m in [z[0].0] + r ensures exists i :: 0 <= i < |z| && z[i].0 == m {
        if m == z[0].0 {
          assert z[0].0 == m;
        } else {
          var i :| 0 <= i < |z[1..]| && z[1..][i].0 == m;
          assert z[i + 1].0 == m;
        }
      }
    }
  }

  lemma PromoteOneStutters(c: Codec, w: World, member: string, now: int)
    requires WaitingOk(c, w) && now <= w.clock && (Has(w.s.delayed, member) ==> Get(w.s.delayed, member) <= now)
    ensures var v := w.(s := PromoteOne(w.s, member));
      && WaitingOk(c, v) && Abstract(c, v) == Abstract(c, w)
      && forall y :: y in v.s.delayed ==> y in w.s.delayed
  {
    if Has(w.s.delayed, member) {
      var i := Find(w.s.delayed, member);
      var u := w.(s := w.s.(delayed := Remove(w.s.delayed, member)));
      RemoveKeepsUnique(w.s.delayed, member);
      RemoveKeepsOrder(w.s.delayed, member);
      assert w.s.delayed[i] in w.s.delayed;
      assert forall y :: y in u.s.delayed ==> y in w.s.delayed;
      LoseDelayed(c, w, member);
      GainPending(c, u, member);
    }
  }

  /** Promotion moves messages between two waiting places: the abstract state does not change. */
  lemma {:induction false} PromoteStutters(c: Codec, w: World, ready: seq<string>, now: int)
    requires Valid(c, w) && now <= w.clock && ListedDue(w.s.delayed, ready, now)
    ensures var v := w.(s := PromoteFrom(w.s, ready)); Valid(c, v) && Abstract(c, v) == Abstract(c, w)
    decreases |ready|
  {
    hide ReachesBy, SlotsOf;
    if ready != [] {
      if Has(w.s.delayed, ready[0]) {
        assert w.s.delayed[Find(w.s.delayed, ready[0])] in w.s.delayed;
      }
      PromoteOneStutters(c, w, ready[0], now);
      PromoteStutters(c, w.(s := PromoteOne(w.s, ready[0])), ready[1..], now);
    }
  }

  // ---- Reclaiming: REAP revokes, DRAIN routes ----

  lemma RevokeKeepsLeases(c: Codec, w: World, entry: string)
    requires LeasesOk(c, w) && entry in w.s.processing
    ensures var u := Released(w, entry); LeasesOk(c, u.(s := u.s.(reclaim := [entry] + u.s.reclaim)))
  {
    hide WellFormed, TokenOf;
    LremKeeps(w.s.processing, entry);
    forall e | e in Lrem(w.s.processing, entry) ensures TokenOf(e) != TokenOf(entry) {}
  }

  lemma ReapOneReaches(mode: Mode, c: Codec, w: World, entry: string, now: int)
    requires Valid(c, w) && now <= w.clock
    ensures var v := w.(s := ReapOne(w.s, entry, now)); Valid(c, v) && Reaches(mode, Abstract(c, w), Abstract(c, v))
  {
    hide ReachesBy, SlotsOf, AllWellFormed, TokensApart, TokenOf, HandedMessage, PendingValid, DelayedValid, DeadValid, Lrem;
    if entry in w.s.processing && w.s.leases[entry] <= now {
      var u := Released(w, entry);
      RevokeKeepsLeases(c, w, entry);
      LoseLease(c, w, entry);
      GainReclaim(c, u, entry);
      Swap(mode, Abstract(c, u), Revoke, LeaseSlot(c, w.s.leases, entry), RevokedSlot(c, entry));
    } else {
      ReachesSelf(mode, Abstract(c, w));
    }
  }

  lemma {:induction false} ReapReaches(mode: Mode, c: Codec, w: World, entries: seq<string>, now: int)
    requires Valid(c, w) && now <= w.clock
    ensures var v := w.(s := ReapFrom(w.s, entries, now)); Valid(c, v) && Reaches(mode, Abstract(c, w), Abstract(c, v))
    decreases |entries|
  {
    hide ReachesBy, Valid, Abstract, ReapOne;
    if entries == [] {
      ReachesSelf(mode, Abstract(c, w));
    } else {
      var u := w.(s := ReapOne(w.s, entries[0], now));
      ReapOneReaches(mode, c, w, entries[0], now);
      ReapReaches(mode, c, u, entries[1..], now);
      ReachesTransitive(mode, Abstract(c, w), Abstract(c, u), Abstract(c, w.(s := ReapFrom(w.s, entries, now))));
    }
  }

  lemma DrainKeepsLeases(c: Codec, w: World, staged: string)
    requires LeasesOk(c, w)
    ensures LeasesOk(c, w.(s := w.s.(reclaim := Lrem(w.s.reclaim, staged))))
  {
    hide WellFormed, TokenOf;
    LremKeeps(w.s.reclaim, staged);
  }

  lemma DrainReaches(mode: Mode, c: Codec, cfg: Config, w: World, staged: string, now: int)
    requires Valid(c, w) && now <= w.clock
    ensures var v := NextWorld(c, cfg, w, DrainCmd(staged, now)); Valid(c, v) && Reaches(mode, Abstract(c, w), Abstract(c, v))
  {
    hide ReachesBy, SlotsOf, LeasesValid, DelayedValid, HandedMessage, Lrem;
    if staged in w.s.reclaim {
      var u := w.(s := w.s.(reclaim := Lrem(w.s.reclaim, staged)));
      var m := Expired(HandedMessage(c, staged), cfg.expiryError, now);
      DrainKeepsLeases(c, w, staged);
      LoseReclaim(c, w, staged);
      if m.attempt > m.maxRetries {
        var e := DeadEntry(m, cfg.expiryError, m.failures, now);
        GainDead(c, u, c.showDead(e));
        Swap(mode, Abstract(c, u), BuryExpired(cfg.expiryError, now), RevokedSlot(c, staged), Dead(e));
      } else {
        GainPending(c, u, c.showMessage(m.(availableAt := now)));
        Swap(mode, Abstract(c, u), Requeue(cfg.expiryError, now), RevokedSlot(c, staged), Ready(m.(availableAt := now)));
      }
    } else {
      ReachesSelf(mode, Abstract(c, w));
    }
  }

  // ---- The dead list ----

  lemma EvictReaches(mode: Mode, c: Codec, w: World)
    requires Valid(c, w) && w.s.dead != []
    ensures Valid(c, EvictLast(c, w)) && Reaches(mode, Abstract(c, w), Abstract(c, EvictLast(c, w)))
  {
    hide ReachesBy, SlotsOf, LeasesValid, PendingValid, DelayedValid, ReadDead;
    var n := |w.s.dead| - 1;
    var u := w.(s := w.s.(dead := w.s.dead[..n]));
    var x := Gone(ReadDead(c, w.s.dead[n]).message.id, Discarded);
    LoseDead(c, w, n);
    assert w.s.dead[..n] + w.s.dead[n + 1..] == w.s.dead[..n];
    GainGone(c, u, x);
    Swap(mode, Abstract(c, u), Discard, Dead(ReadDead(c, w.s.dead[n])), x);
  }

  lemma {:induction false} EvictToData(c: Codec, w: World, n: nat)
    requires n <= |w.s.dead|
    ensures EvictTo(c, w, n).s == w.s.(dead := w.s.dead[..n]) && EvictTo(c, w, n).hands == w.hands
    decreases |w.s.dead|
  {
    if |w.s.dead| != n { EvictToData(c, EvictLast(c, w), n); }
  }

  lemma {:induction false} EvictToReaches(mode: Mode, c: Codec, w: World, n: nat)
    requires Valid(c, w) && n <= |w.s.dead|
    ensures Valid(c, EvictTo(c, w, n)) && Reaches(mode, Abstract(c, w), Abstract(c, EvictTo(c, w, n)))
    decreases |w.s.dead|
  {
    hide ReachesBy, Valid, Abstract;
    if |w.s.dead| == n {
      ReachesSelf(mode, Abstract(c, w));
    } else {
      var u := EvictLast(c, w);
      EvictReaches(mode, c, w);
      EvictToReaches(mode, c, u, n);
      ReachesTransitive(mode, Abstract(c, w), Abstract(c, u), Abstract(c, EvictTo(c, w, n)));
    }
  }

  lemma TakeDeadReaches(mode: Mode, c: Codec, w: World, op: OpId, i: nat)
    requires Valid(c, w) && i < |w.s.dead| && !Has(w.hands, op)
    ensures Valid(c, TakeDeadAt(c, w, op, i))
    ensures ReachesBy(mode, Abstract(c, w), Abstract(c, TakeDeadAt(c, w, op, i)), multiset{}, multiset{ReadDead(c, w.s.dead[i]).message.id})
  {
    hide ReachesBy, SlotsOf, LeasesValid, PendingValid, DelayedValid, ReadDead;
    var e := ReadDead(c, w.s.dead[i]);
    var u := w.(s := w.s.(dead := w.s.dead[..i] + w.s.dead[i + 1..]));
    LoseDead(c, w, i);
    GainHand(c, u, op, RedriveHand(e.message));
    PutKeepsUnique(w.hands, op, RedriveHand(e.message));
    TakeDeadSwap(mode, Abstract(c, u), e);
  }

  lemma RedrivePutReaches(mode: Mode, c: Codec, cfg: Config, w: World, op: OpId, now: int)
    requires Valid(c, w) && now <= w.clock
    ensures var v := NextWorld(c, cfg, w, RedrivePut(op, now)); Valid(c, v) && Reaches(mode, Abstract(c, w), Abstract(c, v))
  {
    hide ReachesBy, SlotsOf, LeasesValid, PendingValid, DelayedValid, DeadValid, HandedMessage;
    if Has(w.hands, op) && Get(w.hands, op).RedriveHand? {
      var m := Get(w.hands, op).m;
      var r := ResetForRedrive(m, now);
      var u := w.(hands := Remove(w.hands, op));
      RemoveKeepsUnique(w.hands, op);
      StoreKeepsWaiting(c, u, r, false);
      LoseHand(c, w, op);
      Swap(mode, Abstract(c, u), Redrive(now), Redriving(m), Ready(r));
      StoreReaches(mode, c, u, r, false);
      ReachesTransitive(mode, Abstract(c, w), Plus(Abstract(c, u), Ready(r)), Abstract(c, u.(s := Store(c, u.s, r, false))));
    } else {
      ReachesSelf(mode, Abstract(c, w));
    }
  }

  /** A crash loses what the operation held, and nothing else. */
  lemma CrashReaches(mode: Mode, c: Codec, cfg: Config, w: World, op: OpId)
    requires Valid(c, w) && Permitted(mode, c, w, CrashOp(op))
    ensures var v := NextWorld(c, cfg, w, CrashOp(op)); Valid(c, v) && Reaches(mode, Abstract(c, w), Abstract(c, v)) && v.s == w.s
  {
    hide ReachesBy, SlotsOf, LeasesValid, PendingValid, DelayedValid, DeadValid, HandedMessage;
    if Has(w.hands, op) {
      var x := HandSlot(c, Get(w.hands, op));
      var u := w.(hands := Remove(w.hands, op));
      RemoveKeepsUnique(w.hands, op);
      LoseHand(c, w, op);
      GainGone(c, u, Gone(SlotId(x), Lost));
      Swap(mode, Abstract(c, u), Lose, x, Gone(SlotId(x), Lost));
    } else {
      ReachesSelf(mode, Abstract(c, w));
    }
  }

  /** Releasing the owner's lease and recording the entry, before the trim. */
  lemma BuriedReaches(mode: Mode, c: Codec, w: World, entry: DeadEntry, owner: Option<Token>)
    requires Valid(c, w) && Permitted(mode, c, w, DeadLetterCmd(entry, owner))
    ensures var v := Buried(c, w, entry, owner); Valid(c, v) && Reaches(mode, Abstract(c, w), Abstract(c, v))
  {
    hide SlotsOf, LeasesValid, PendingValid, DelayedValid, HandedMessage, Lrem, ReachesBy;
    var raw := c.showDead(entry);
    if owner.Some? { OwnedByToken(c, w, owner.value); }
    if owner.Some? && Owns(w.s, owner.value) {
      var e := OwnedEntry(w.s, owner.value);
      var u := Released(w, e);
      LoseLease(c, w, e);
      ReleaseKeepsLeases(c, w, e);
      GainDead(c, u, raw);
      if HandedMessage(c, e).id == entry.message.id {
        Swap(mode, Abstract(c, u), Bury, LeaseSlot(c, w.s.leases, e), Dead(entry));
      } else {
        var x := Gone(HandedMessage(c, e).id, Lost);
        var d := u.(s := u.s.(dead := [raw] + u.s.dead));
        Swap(mode, Abstract(c, u), Lose, LeaseSlot(c, w.s.leases, e), x);
        ReachesStep(mode, Plus(Abstract(c, u), x), StaleBury(entry));
        GainGone(c, d, x);
        SwapOrder(Abstract(c, u), x, Dead(entry));
        ReachesTransitive(mode, Abstract(c, w), Plus(Abstract(c, u), x), Abstract(c, d.(gone := d.gone + multiset{x})));
      }
    } else {
      GainDead(c, w, raw);
      ReachesStep(mode, Abstract(c, w), StaleBury(entry));
    }
  }

  lemma SwapOrder(s: State, x: Slot, y: Slot)
    ensures Plus(Plus(s, x), y) == Plus(Plus(s, y), x)
  {}

  lemma DeadLetterReaches(mode: Mode, c: Codec, cfg: Config, w: World, entry: DeadEntry, owner: Option<Token>)
    requires Valid(c, w) && Permitted(mode, c, w, DeadLetterCmd(entry, owner))
    ensures var v := NextWorld(c, cfg, w, DeadLetterCmd(entry, owner)); Valid(c, v) && Reaches(mode, Abstract(c, w), Abstract(c, v))
  {
    hide *;
    var d := Buried(c, w, entry, owner);
    DeadLetterTrims(c, cfg, w, entry, owner);
    BuriedReaches(mode, c, w, entry, owner);
    EvictToReaches(mode, c, d, |Ltrim(d.s.dead, cfg.maxDead)|);
    ReachesTransitive(mode, Abstract(c, w), Abstract(c, d), Abstract(c, Trimmed(c, d, cfg.maxDead)));
  }

  lemma DeadLetterTrims(c: Codec, cfg: Config, w: World, entry: DeadEntry, owner: Option<Token>)
    ensures var d := Buried(c, w, entry, owner);
      && |Ltrim(d.s.dead, cfg.maxDead)| <= |d.s.dead|
      && NextWorld(c, cfg, w, DeadLetterCmd(entry, owner)) == Trimmed(c, d, cfg.maxDead)
      && Trimmed(c, d, cfg.maxDead) == EvictTo(c, d, |Ltrim(d.s.dead, cfg.maxDead)|)
  {
    hide Buried, EvictTo;
  }

  lemma PromoteReaches(mode: Mode, c: Codec, w: World, now: int, limit: nat)
    requires Valid(c, w) && now <= w.clock
    ensures var v := w.(s := PromoteScript(w.s, now, limit)); Valid(c, v) && Reaches(mode, Abstract(c, w), Abstract(c, v))
  {
    hide ReachesBy, SlotsOf;
    RangeIsDue(w.s.delayed, now, limit);
    PromoteStutters(c, w, ZrangeDue(w.s.delayed, now, limit), now);
    ReachesSelf(mode, Abstract(c, w));
  }

  lemma WaitReaches(mode: Mode, c: Codec, w: World, now: int)
    requires Valid(c, w) && w.clock <= now
    ensures Valid(c, w.(clock := now)) && Reaches(mode, Abstract(c, w), Abstract(c, w.(clock := now)))
  {
    hide ReachesBy;
    ReachesStep(mode, Abstract(c, w), Tick(now));
    hide PendingSlots, DelayedSlots, ProcessingSlots, ReclaimSlots, DeadSlots, HandSlots;
  }

  /** Refinement: every Redis command, whichever process issues it and whatever the others are
      in the middle of, is a run of the abstract lease queue that delivers and redrives exactly
      the jobs the command does. */
  lemma RedisQueueRefines(mode: Mode, c: Codec, cfg: Config, w: World, cmd: Cmd)
    requires Valid(c, w) && Permitted(mode, c, w, cmd)
    ensures var v := NextWorld(c, cfg, w, cmd);
      Valid(c, v) && ReachesBy(mode, Abstract(c, w), Abstract(c, v), HandedBy(c, w, cmd), RedrivenBy(c, w, cmd))
  {
    hide Valid, Abstract, PromoteScript, ReapFrom, EvictTo, TakeDeadAt, Buried, ReachesBy;
    match cmd
    case PushCmd(m, now) => PushReaches(mode, c, cfg, w, m, now);
    case PromoteCmd(now, limit) => PromoteReaches(mode, c, w, now, limit);
    case ReapCmd(now) => ReapReaches(mode, c, w, w.s.processing, now);
    case PopCmd(token, expiry) => PopReaches(mode, c, cfg, w, token, expiry);
    case AckCmd(lease) => AckReaches(mode, c, cfg, w, lease);
    case NackTake(op, lease) => NackTakeReaches(mode, c, cfg, w, op, lease);
    case NackPut(op, now, delay, failure) => NackPutReaches(mode, c, cfg, w, op, now, delay, failure);
    case ExtendCmd(lease, expiry) => ExtendReaches(mode, c, cfg, w, lease, expiry);
    case DeadLetterCmd(entry, owner) => DeadLetterReaches(mode, c, cfg, w, entry, owner);
    case DrainCmd(staged, now) => DrainReaches(mode, c, cfg, w, staged, now);
    case TrimCmd => EvictToReaches(mode, c, w, |Ltrim(w.s.dead, cfg.maxDead)|);
    case TakeDeadCmd(op, raw) =>
      var i := Position(w.s.dead, raw);
      if i < |w.s.dead| { TakeDeadReaches(mode, c, w, op, i); } else { ReachesSelf(mode, Abstract(c, w)); }
    case TakeOldestDead(op) =>
      if w.s.dead != [] { TakeDeadReaches(mode, c, w, op, |w.s.dead| - 1); } else { ReachesSelf(mode, Abstract(c, w)); }
    case RedrivePut(op, now) => RedrivePutReaches(mode, c, cfg, w, op, now);
    case PurgeCmd => EvictToReaches(mode, c, w, 0);
    case CrashOp(op) => CrashReaches(mode, c, cfg, w, op);
    case Wait(now) => WaitReaches(mode, c, w, now);
  }

  // ---- Whole runs: any interleaving of any processes ----

  ghost predicate RunPermitted(mode: Mode, c: Codec, cfg: Config, w: World, cmds: seq<Cmd>)
    decreases |cmds|
  {
    cmds == [] || (Permitted(mode, c, w, cmds[0]) && RunPermitted(mode, c, cfg, NextWorld(c, cfg, w, cmds[0]), cmds[1..]))
  }

  function RunOf(c: Codec, cfg: Config, w: World, cmds: seq<Cmd>): World
    decreases |cmds|
  {
    if cmds == [] then w else RunOf(c, cfg, NextWorld(c, cfg, w, cmds[0]), cmds[1..])
  }

  lemma {:induction false} RunAppends(c: Codec, cfg: Config, w: World, a: seq<Cmd>, b: seq<Cmd>)
    ensures RunOf(c, cfg, w, a + b) == RunOf(c, cfg, RunOf(c, cfg, w, a), b)
    decreases |a|
  {
    hide NextWorld;
    if a == [] {
      assert a + b == b;
    } else {
      assert (a + b)[1..] == a[1..] + b;
      RunAppends(c, cfg, NextWorld(c, cfg, w, a[0]), a[1..], b);
    }
  }

  lemma StartIsSafe(mode: Mode, c: Codec, clock: int)
    requires Faithful(c)
    ensures var w := World(NO_DATA, [], multiset{}, {}, {}, clock); Valid(c, w) && Safe(mode, Abstract(c, w))
  {}

  /** Over every interleaving: the representation stays consistent (leases keyed exactly by the
      in-flight entries, no token twice), no job is lost or, under guarded callers, ever in two
      places, the retry budget holds, and a finished delivery never comes back. */
  lemma {:induction false} RedisQueueIsSafe(mode: Mode, c: Codec, cfg: Config, w: World, cmds: seq<Cmd>)
    requires Valid(c, w) && Safe(mode, Abstract(c, w)) && RunPermitted(mode, c, cfg, w, cmds)
    ensures var v := RunOf(c, cfg, w, cmds);
      Valid(c, v) && Safe(mode, Abstract(c, v)) && NothingRevived(Abstract(c, w), Abstract(c, v))
    decreases |cmds|
  {
    hide Abstract, Safe, Valid, Permitted, NextWorld, HandedBy, RedrivenBy, ReachesBy;
    if cmds != [] {
      var u := NextWorld(c, cfg, w, cmds[0]);
      RedisQueueRefines(mode, c, cfg, w, cmds[0]);
      ReachableIsSafe(mode, Abstract(c, w), Abstract(c, u), HandedBy(c, w, cmds[0]), RedrivenBy(c, w, cmds[0]));
      RedisQueueIsSafe(mode, c, cfg, u, cmds[1..]);
      RevivalComposes(Abstract(c, w), Abstract(c, u), Abstract(c, RunOf(c, cfg, w, cmds)));
    }
  }

  // ---- The retry budget, counted in pops ----

  /** How often a run of commands hands job `id` to a worker. */
  function Pops(c: Codec, cfg: Config, w: World, cmds: seq<Cmd>, id: string): nat
    decreases |cmds|
  {
    if cmds == [] then 0 else HandedBy(c, w, cmds[0])[id] + Pops(c, cfg, NextWorld(c, cfg, w, cmds[0]), cmds[1..], id)
  }

  predicate NeverRedriven(c: Codec, cfg: Config, w: World, cmds: seq<Cmd>, id: string)
    decreases |cmds|
  {
    cmds == [] || (id !in RedrivenBy(c, w, cmds[0]) && NeverRedriven(c, cfg, NextWorld(c, cfg, w, cmds[0]), cmds[1..], id))
  }

  lemma {:induction false} PopsAreOwed(c: Codec, cfg: Config, w: World, cmds: seq<Cmd>, id: string, n: int, r: int)
    requires Valid(c, w) && Safe(Budgeted, Abstract(c, w)) && Owes(Abstract(c, w), id, n, r) && id in w.pushed
    requires RunPermitted(Budgeted, c, cfg, w, cmds) && NeverRedriven(c, cfg, w, cmds, id)
    ensures Pops(c, cfg, w, cmds, id) <= n
    decreases |cmds|
  {
    hide Valid, Owes, Permitted, NextWorld, HandedBy, RedrivenBy, ReachesBy, AllWithinBudget, AtLeastOnePlace, TokensUnique, KnownJobs, SlotsOf;
    if cmds == [] {
      OwesNothingLess(Abstract(c, w), id, n, r);
    } else {
      var v := NextWorld(c, cfg, w, cmds[0]);
      RedisQueueRefines(Budgeted, c, cfg, w, cmds[0]);
      ReachableIsSafe(Budgeted, Abstract(c, w), Abstract(c, v), HandedBy(c, w, cmds[0]), RedrivenBy(c, w, cmds[0]));
      var left := ReachesByOwes(Abstract(c, w), Abstract(c, v), HandedBy(c, w, cmds[0]), RedrivenBy(c, w, cmds[0]), id, n, r);
      PopsAreOwed(c, cfg, v, cmds[1..], id, n - HandedBy(c, w, cmds[0])[id], left);
    }
  }

  /** The push of a new job leaves it owing its whole budget. */
  lemma PushCmdOwes(c: Codec, cfg: Config, w: World, m: Message, now: int) returns (r: int)
    requires Valid(c, w) && Safe(Budgeted, Abstract(c, w)) && Permitted(Budgeted, c, w, PushCmd(m, now))
    ensures Owes(Abstract(c, NextWorld(c, cfg, w, PushCmd(m, now))), m.id, m.maxRetries + 1, r)
  {
    hide *;
    PushIsNew(c, w, m, now);
    var u := w.(pushed := w.pushed + {m.id});
    var s, t := Next(Abstract(c, w), Push(m)), Abstract(c, NextWorld(c, cfg, w, PushCmd(m, now)));
    SafePushOwes(Abstract(c, w), m);
    PushedWaits(c, cfg, w, m, now);
    StoreReaches(Budgeted, c, u, m, m.availableAt > now);
    Quietly(Budgeted, s, t);
    r := ReachesByOwes(s, t, multiset{}, multiset{}, m.id, m.maxRetries + 1, 3 * m.maxRetries + 3);
    var none: multiset<string> := multiset{};
    assert none[m.id] == 0;
  }

  lemma PushIsNew(c: Codec, w: World, m: Message, now: int)
    requires Valid(c, w) && Permitted(Budgeted, c, w, PushCmd(m, now))
    ensures Faithful(c) && Enqueued(m) && m.id !in Abstract(c, w).pushed
  {
    hide SlotsOf, LeasesOk, PendingValid, DelayedValid, DeadValid, Enqueued, Faithful;
  }

  lemma PushedWaits(c: Codec, cfg: Config, w: World, m: Message, now: int)
    ensures var u := w.(pushed := w.pushed + {m.id});
      && Next(Abstract(c, w), Push(m)) == Plus(Abstract(c, u), Ready(m))
      && NextWorld(c, cfg, w, PushCmd(m, now)) == u.(s := Store(c, u.s, m, m.availableAt > now))
  {
    hide PendingSlots, DelayedSlots, ProcessingSlots, ReclaimSlots, DeadSlots, HandSlots, Store;
  }

  lemma PushIsSafe(c: Codec, cfg: Config, w: World, m: Message, now: int)
    requires Valid(c, w) && Safe(Budgeted, Abstract(c, w)) && Permitted(Budgeted, c, w, PushCmd(m, now))
    ensures var v := NextWorld(c, cfg, w, PushCmd(m, now));
      Valid(c, v) && Safe(Budgeted, Abstract(c, v)) && m.id in v.pushed
  {
    RedisQueueRefines(Budgeted, c, cfg, w, PushCmd(m, now));
    var v := NextWorld(c, cfg, w, PushCmd(m, now));
    hide Valid, SlotsOf, ReachesBy, Store, Safe;
    ReachableIsSafe(Budgeted, Abstract(c, w), Abstract(c, v), multiset{}, multiset{});
  }

  /** The budget on Redis, late dead-lettering included: over every interleaving, an enqueued job
      is popped at most `maxRetries + 1` times until it is redriven. */
  lemma JobIsPoppedAtMost(c: Codec, cfg: Config, w: World, m: Message, now: int, cmds: seq<Cmd>)
    requires Valid(c, w) && Safe(Budgeted, Abstract(c, w)) && Permitted(Budgeted, c, w, PushCmd(m, now))
    requires RunPermitted(Budgeted, c, cfg, NextWorld(c, cfg, w, PushCmd(m, now)), cmds)
    requires NeverRedriven(c, cfg, NextWorld(c, cfg, w, PushCmd(m, now)), cmds, m.id)
    ensures Pops(c, cfg, NextWorld(c, cfg, w, PushCmd(m, now)), cmds, m.id) <= m.maxRetries + 1
  {
    hide Valid, Abstract, Owes, Safe, Permitted, NextWorld, RunPermitted, NeverRedriven, Pops;
    var v := NextWorld(c, cfg, w, PushCmd(m, now));
    var r := PushCmdOwes(c, cfg, w, m, now);
    PushIsSafe(c, cfg, w, m, now);
    PopsAreOwed(c, cfg, v, cmds, m.id, m.maxRetries + 1, r);
  }

  lemma InFlightIsLive(c: Codec, w: World, entry: string)
    requires entry in w.s.processing
    ensures Live(Abstract(c, w), TokenOf(entry))
  {
    hide HandedMessage, TokenOf;
    assert ProcessingSlots(c, w.s.leases, w.s.processing)[Position(w.s.processing, entry)] in Abstract(c, w).slots;
  }

  lemma StagedIsCarried(c: Codec, w: World, entry: string)
    requires entry in w.s.reclaim
    ensures Carried(Abstract(c, w), TokenOf(entry))
  {
    hide HandedMessage, TokenOf;
    assert ReclaimSlots(c, w.s.reclaim)[Position(w.s.reclaim, entry)] in Abstract(c, w).slots;
  }

  lemma InertWithoutLease(c: Codec, cfg: Config, w: World, token: Token)
    requires Valid(c, w) && '|' !in token && !Live(Abstract(c, w), token)
    ensures NextWorld(c, cfg, w, AckCmd(token)) == w
    ensures forall op :: NextWorld(c, cfg, w, NackTake(op, token)) == w
    ensures forall expiry :: NextWorld(c, cfg, w, ExtendCmd(token, expiry)) == w
  {
    OwnedByToken(c, w, token);
    if Owns(w.s, token) { InFlightIsLive(c, w, OwnedEntry(w.s, token)); }
    hide Abstract, Valid, Live;
  }

  /** Fencing: once a lease is lost, then after any further interleaving a late ack, nack or
      extend with its token changes nothing, even if the job is back in flight. */
  lemma StaleTokenIsInert(mode: Mode, c: Codec, cfg: Config, w: World, cmds: seq<Cmd>, token: Token)
    requires Valid(c, w) && Safe(mode, Abstract(c, w)) && RunPermitted(mode, c, cfg, w, cmds)
    requires token in w.issued && '|' !in token && !Live(Abstract(c, w), token)
    ensures var v := RunOf(c, cfg, w, cmds);
      && NextWorld(c, cfg, v, AckCmd(token)) == v
      && (forall op :: NextWorld(c, cfg, v, NackTake(op, token)) == v)
      && (forall expiry :: NextWorld(c, cfg, v, ExtendCmd(token, expiry)) == v)
  {
    assert token in Abstract(c, w).issued;
    hide Abstract, Safe, Valid, Live, Carried, NextWorld;
    RedisQueueIsSafe(mode, c, cfg, w, cmds);
    InertWithoutLease(c, cfg, RunOf(c, cfg, w, cmds), token);
  }

  /** Draining exchanges the staged slot for one that carries no token. */
  lemma DrainedSlot(c: Codec, cfg: Config, w: World, staged: string, now: int) returns (y: Slot)
    requires staged in w.s.reclaim
    ensures var r := Abstract(c, w.(s := w.s.(reclaim := Lrem(w.s.reclaim, staged))));
      Abstract(c, NextWorld(c, cfg, w, DrainCmd(staged, now))) == Plus(r, y) && !Tokened(y)
  {
    var r := w.(s := w.s.(reclaim := Lrem(w.s.reclaim, staged)));
    var (toDead, payload) := Routed(c, cfg, staged, now);
    hide Abstract, HandedMessage, TokenOf, Routed, Lrem;
    GainDead(c, r, payload);
    GainPending(c, r, payload);
    y := if toDead then Dead(ReadDead(c, payload)) else Ready(Read(c, payload));
  }

  /** Draining removes the last trace of the delivery. */
  lemma DrainEndsDelivery(c: Codec, cfg: Config, w: World, staged: string, now: int)
    requires TokensUnique(Abstract(c, w)) && staged in w.s.reclaim
    ensures var u := NextWorld(c, cfg, w, DrainCmd(staged, now));
      TokenOf(staged) in Abstract(c, u).issued && !Carried(Abstract(c, u), TokenOf(staged))
  {
    hide Abstract, NextWorld, HandedMessage, TokenOf, TokensUnique, Carried, Lrem;
    LoseReclaim(c, w, staged);
    var y := DrainedSlot(c, cfg, w, staged, now);
    DeliveryEnds(Abstract(c, w.(s := w.s.(reclaim := Lrem(w.s.reclaim, staged)))), RevokedSlot(c, staged), y);
  }

  lemma DrainOfNothing(c: Codec, cfg: Config, w: World, staged: string, now: int)
    requires staged !in w.s.reclaim
    ensures NextWorld(c, cfg, w, DrainCmd(staged, now)) == w
  {}

  /** Two reapers that read the same staged entry: whatever happens in between, only the first
      drain routes it. */
  lemma DrainRoutesOnce(mode: Mode, c: Codec, cfg: Config, w: World, staged: string, now: int, cmds: seq<Cmd>, later: int)
    requires Valid(c, w) && Safe(mode, Abstract(c, w)) && now <= w.clock && staged in w.s.reclaim
    requires RunPermitted(mode, c, cfg, NextWorld(c, cfg, w, DrainCmd(staged, now)), cmds)
    ensures var v := RunOf(c, cfg, NextWorld(c, cfg, w, DrainCmd(staged, now)), cmds);
      NextWorld(c, cfg, v, DrainCmd(staged, later)) == v
  {
    var u := NextWorld(c, cfg, w, DrainCmd(staged, now));
    var v := RunOf(c, cfg, u, cmds);
    hide Abstract, Valid, NextWorld, Carried, Live, AtLeastOnePlace, TokensUnique, ExactlyOnePlace, AllWithinBudget, RunOf, TokenOf;
    DrainEndsDelivery(c, cfg, w, staged, now);
    RedisQueueRefines(mode, c, cfg, w, DrainCmd(staged, now));
    ReachableIsSafe(mode, Abstract(c, w), Abstract(c, u), multiset{}, multiset{});
    RedisQueueIsSafe(mode, c, cfg, u, cmds);
    if staged in v.s.reclaim { StagedIsCarried(c, v, staged); }
    DrainOfNothing(c, cfg, v, staged, later);
  }
}
