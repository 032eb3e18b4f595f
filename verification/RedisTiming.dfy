/** When the Redis store hands a job out (packages/queue-redis/src/index.ts). */
module RedisQueueTiming {
  // Over any interleaving: a retried job waits in the sorted set, and a held lease keeps its entry
  // in flight.

  import opened Options
  import opened QueueTypes
  import opened JsMap
  import opened RedisScripts
  import L = LeaseQueue
  import F = LeaseQueueFailures
  import opened RedisQueueRefinement
  import opened RedisReclaim

  // ---- One live copy ----

  /** Two live slots of the job, wherever they are. */
  lemma TwoLiveSlots(s: L.State, id: string, x: L.Slot, y: L.Slot)
    requires multiset{x, y} <= s.slots && L.SlotId(x) == L.SlotId(y) == id && !L.Settled(x) && !L.Settled(y)
    ensures !F.Lone(s, id)
  {
    assert x in s.slots && y in s.slots;
    assert x == y ==> multiset{x, y}[x] == 2 <= s.slots[x];
  }

  lemma DelayedSlot(c: Codec, z: ZSet, y: (string, int))
    requires y in z
    ensures L.Ready(Read(c, y.0)) in multiset(DelayedSlots(c, z))
  {
    var i :| 0 <= i < |z| && z[i] == y;
    assert DelayedSlots(c, z)[i] == L.Ready(Read(c, y.0));
  }

  lemma PendingSlot(c: Codec, pending: seq<string>, i: nat)
    requires i < |pending|
    ensures L.Ready(Read(c, pending[i])) in multiset(PendingSlots(c, pending))
  {
    assert PendingSlots(c, pending)[i] == L.Ready(Read(c, pending[i]));
  }

  lemma HandSlotIn(c: Codec, hands: seq<(OpId, Hand)>, op: OpId)
    requires Has(hands, op)
    ensures HandSlot(c, Get(hands, op)) in multiset(HandSlots(c, hands))
  {
    assert HandSlots(c, hands)[Find(hands, op)] == HandSlot(c, Get(hands, op));
  }

  lemma ProcessingSlot(c: Codec, leases: map<string, int>, entries: seq<string>, e: string)
    requires e in entries
    ensures LeaseSlot(c, leases, e) in multiset(ProcessingSlots(c, leases, entries))
  {
    var i :| 0 <= i < |entries| && entries[i] == e;
    assert ProcessingSlots(c, leases, entries)[i] == LeaseSlot(c, leases, e);
  }

  /** Different lists hold different slots. */
  lemma Apart(a: multiset<L.Slot>, b: multiset<L.Slot>, all: multiset<L.Slot>, x: L.Slot, y: L.Slot)
    requires a + b <= all && x in a && y in b
    ensures multiset{x, y} <= all
  {}

  lemma PlacesApart(c: Codec, w: World)
    ensures var all := Abstract(c, w).slots;
      var d, p := multiset(DelayedSlots(c, w.s.delayed)), multiset(PendingSlots(c, w.s.pending));
      var h, f := multiset(HandSlots(c, w.hands)), multiset(ProcessingSlots(c, w.s.leases, w.s.processing));
      d + p <= all && d + h <= all && f + p <= all
  {
    hide DelayedSlots, PendingSlots, ProcessingSlots, ReclaimSlots, DeadSlots, HandSlots;
  }

  // ---- A retried job waits ----

  /** The member waits in the sorted set, and no other place holds its job live. */
  ghost predicate WaitsAlone(c: Codec, w: World, raw: string, at: int) {
    (raw, at) in w.s.delayed && F.Lone(Abstract(c, w), Read(c, raw).id) && Read(c, raw).id in w.pushed
  }

  lemma OnlyDelayedIsLive(c: Codec, w: World, raw: string, at: int)
    requires WaitsAlone(c, w, raw, at)
    ensures forall i :: 0 <= i < |w.s.pending| ==> Read(c, w.s.pending[i]).id != Read(c, raw).id
    ensures forall op :: Has(w.hands, op) ==> L.SlotId(HandSlot(c, Get(w.hands, op))) != Read(c, raw).id
  {
    assert (raw, at) in w.s.delayed && F.Lone(Abstract(c, w), Read(c, raw).id);
    hide *;
    forall i | 0 <= i < |w.s.pending| ensures Read(c, w.s.pending[i]).id != Read(c, raw).id { PendingIsOther(c, w, raw, at, i); }
    forall op | Has(w.hands, op) ensures L.SlotId(HandSlot(c, Get(w.hands, op))) != Read(c, raw).id { HandIsOther(c, w, raw, at, op); }
  }

  lemma PendingIsOther(c: Codec, w: World, raw: string, at: int, i: nat)
    requires (raw, at) in w.s.delayed && F.Lone(Abstract(c, w), Read(c, raw).id) && i < |w.s.pending|
    ensures Read(c, w.s.pending[i]).id != Read(c, raw).id
  {
    hide Abstract, DelayedSlots, PendingSlots, HandSlots, Read, F.Lone, ProcessingSlots;
    var x, y := L.Ready(Read(c, raw)), L.Ready(Read(c, w.s.pending[i]));
    PlacesApart(c, w);
    DelayedSlot(c, w.s.delayed, (raw, at));
    PendingSlot(c, w.s.pending, i);
    Apart(multiset(DelayedSlots(c, w.s.delayed)), multiset(PendingSlots(c, w.s.pending)), Abstract(c, w).slots, x, y);
    if y.m.id == x.m.id { TwoLiveSlots(Abstract(c, w), x.m.id, x, y); }
  }

  lemma HandIsOther(c: Codec, w: World, raw: string, at: int, op: OpId)
    requires (raw, at) in w.s.delayed && F.Lone(Abstract(c, w), Read(c, raw).id) && Has(w.hands, op)
    ensures L.SlotId(HandSlot(c, Get(w.hands, op))) != Read(c, raw).id
  {
    hide Abstract, DelayedSlots, PendingSlots, HandSlots, Read, F.Lone, ProcessingSlots;
    var x, y := L.Ready(Read(c, raw)), HandSlot(c, Get(w.hands, op));
    PlacesApart(c, w);
    DelayedSlot(c, w.s.delayed, (raw, at));
    HandSlotIn(c, w.hands, op);
    Apart(multiset(DelayedSlots(c, w.s.delayed)), multiset(HandSlots(c, w.hands)), Abstract(c, w).slots, x, y);
    assert L.SlotId(x) == Read(c, raw).id && !L.Settled(x) && !L.Settled(y);
    if L.SlotId(y) == Read(c, raw).id { TwoLiveSlots(Abstract(c, w), Read(c, raw).id, x, y); }
  }

  lemma ZaddKeepsOthers(z: ZSet, member: string, score: int, y: (string, int))
    requires UniqueKeys(z) && y in z && y.0 != member
    ensures y in Zadd(z, member, score)
  {
    var i :| 0 <= i < |z| && z[i] == y;
    FoundAt(z, i);
    RemoveKeepsUnique(z, member);
    RemoveKeepsOthers(z, member, y.0);
    var r := Remove(z, member);
    assert r[Find(r, y.0)] == y;
    InsertKeepsKeys(r, (member, score));
  }

  lemma StoreKeepsMember(c: Codec, s: Server, m: Message, wait: bool, raw: string, at: int)
    requires Faithful(c) && UniqueKeys(s.delayed) && (raw, at) in s.delayed && m.id != Read(c, raw).id
    ensures (raw, at) in Store(c, s, m, wait).delayed
  {
    if wait {
      assert c.showMessage(m) != raw by { assert c.readMessage(c.showMessage(m)) == Some(m); }
      ZaddKeepsOthers(s.delayed, c.showMessage(m), m.availableAt, (raw, at));
    }
  }

  lemma PromotionKeepsMember(c: Codec, cfg: Config, w: World, now: int, limit: nat, raw: string, at: int)
    requires Valid(c, w) && (raw, at) in w.s.delayed && now < at
    ensures (raw, at) in NextWorld(c, cfg, w, PromoteCmd(now, limit)).s.delayed
  {
    hide Valid, NextWorld;
    PromotionIsComplete(c, cfg, w, now, limit);
    var v := NextWorld(c, cfg, w, PromoteCmd(now, limit)).s;
    var k := |v.pending| - |w.s.pending|;
    var i :| 0 <= i < |w.s.delayed| && w.s.delayed[i] == (raw, at);
    assert v.delayed[i - k] == (raw, at);
  }

  /** Commands that do not write the sorted set. */
  predicate LeavesDelayed(cmd: Cmd) { !cmd.PushCmd? && !cmd.PromoteCmd? && !cmd.NackPut? && !cmd.RedrivePut? }

  lemma {:induction false} EvictionsKeepDelayed(c: Codec, w: World, n: nat)
    requires n <= |w.s.dead|
    ensures EvictTo(c, w, n).s.delayed == w.s.delayed && EvictTo(c, w, n).pushed == w.pushed
    ensures EvictTo(c, w, n).s.processing == w.s.processing && EvictTo(c, w, n).s.leases == w.s.leases
    decreases |w.s.dead|
  {
    hide ReadDead;
    if |w.s.dead| != n { EvictionsKeepDelayed(c, EvictLast(c, w), n); }
  }

  lemma {:induction false} ReapKeepsDelayed(s: Server, entries: seq<string>, now: int)
    ensures ReapFrom(s, entries, now).delayed == s.delayed
    decreases |entries|
  {
    hide Lrem;
    if entries != [] { ReapKeepsDelayed(ReapOne(s, entries[0], now), entries[1..], now); }
  }

  lemma DelayedIsLeft(c: Codec, cfg: Config, w: World, cmd: Cmd)
    requires LeavesDelayed(cmd)
    ensures NextWorld(c, cfg, w, cmd).s.delayed == w.s.delayed
  {
    match cmd
    case DeadLetterCmd(entry, owner) =>
      var u := Buried(c, w, entry, owner);
      EvictionsKeepDelayed(c, u, |Ltrim(u.s.dead, cfg.maxDead)|);
      hide HandedMessage, Lrem, ScanPrefix, EvictTo;
    case TrimCmd => EvictionsKeepDelayed(c, w, |Ltrim(w.s.dead, cfg.maxDead)|);
    case PurgeCmd => EvictionsKeepDelayed(c, w, 0);
    case ReapCmd(now) => ReapKeepsDelayed(w.s, w.s.processing, now);
    case _ =>
      hide Lrem, ScanPrefix, Routed, HandedMessage, ReadDead;
  }

  lemma PushedGrows(c: Codec, cfg: Config, w: World, cmd: Cmd)
    ensures w.pushed <= NextWorld(c, cfg, w, cmd).pushed
  {
    hide ReleaseScript, PopScript, PromoteScript, ReapScript, DrainScript, ExtendScript, Routed, HandedMessage, ReadDead, Store;
    match cmd
    case DeadLetterCmd(entry, owner) =>
      var u := Buried(c, w, entry, owner);
      EvictionsKeepDelayed(c, u, |Ltrim(u.s.dead, cfg.maxDead)|);
    case TrimCmd => EvictionsKeepDelayed(c, w, |Ltrim(w.s.dead, cfg.maxDead)|);
    case PurgeCmd => EvictionsKeepDelayed(c, w, 0);
    case _ =>
  }

  lemma ReadyTo(c: Codec, w: World)
    requires Valid(c, w)
    ensures Faithful(c) && UniqueKeys(w.s.delayed)
  {}

  lemma PushKeepsMember(c: Codec, cfg: Config, w: World, m: Message, now: int, raw: string, at: int)
    requires Faithful(c) && UniqueKeys(w.s.delayed) && (raw, at) in w.s.delayed && m.id != Read(c, raw).id
    ensures (raw, at) in NextWorld(c, cfg, w, PushCmd(m, now)).s.delayed
  {
    hide Faithful, UniqueKeys, Read, Store;
    StoreKeepsMember(c, w.s, m, m.availableAt > now, raw, at);
  }

  lemma NackPutKeepsMember(c: Codec, cfg: Config, w: World, op: OpId, now: int, delay: int, failure: Option<Failure>, raw: string, at: int)
    requires Faithful(c) && UniqueKeys(w.s.delayed) && (raw, at) in w.s.delayed
    requires Has(w.hands, op) ==> L.SlotId(HandSlot(c, Get(w.hands, op))) != Read(c, raw).id
    ensures (raw, at) in NextWorld(c, cfg, w, NackPut(op, now, delay, failure)).s.delayed
  {
    hide Faithful, UniqueKeys, Read, Store, HandedMessage, Find, Remove;
    if Has(w.hands, op) && Get(w.hands, op).NackHand? {
      StoreKeepsMember(c, w.s, Retried(HandedMessage(c, Get(w.hands, op).entry), now + delay, failure), delay > 0, raw, at);
    }
  }

  lemma RedrivePutKeepsMember(c: Codec, cfg: Config, w: World, op: OpId, now: int)
    ensures NextWorld(c, cfg, w, RedrivePut(op, now)).s.delayed == w.s.delayed
  {}

  lemma FreshIsOther(mode: L.Mode, c: Codec, w: World, m: Message, now: int)
    requires !mode.Any? && Permitted(mode, c, w, PushCmd(m, now))
    ensures m.id !in w.pushed
  {}

  lemma WritesKeepMember(mode: L.Mode, c: Codec, cfg: Config, w: World, cmd: Cmd, raw: string, at: int)
    requires Valid(c, w) && !mode.Any? && Permitted(mode, c, w, cmd) && WaitsAlone(c, w, raw, at)
    requires cmd.PushCmd? || cmd.NackPut? || cmd.RedrivePut?
    ensures (raw, at) in NextWorld(c, cfg, w, cmd).s.delayed
  {
    assert (raw, at) in w.s.delayed && Read(c, raw).id in w.pushed;
    hide *;
    OnlyDelayedIsLive(c, w, raw, at);
    ReadyTo(c, w);
    match cmd
    case PushCmd(m, now) =>
      FreshIsOther(mode, c, w, m, now);
      PushKeepsMember(c, cfg, w, m, now, raw, at);
    case NackPut(op, now, delay, failure) => NackPutKeepsMember(c, cfg, w, op, now, delay, failure, raw, at);
    case RedrivePut(op, now) => RedrivePutKeepsMember(c, cfg, w, op, now);
    case _ =>
  }

  /** Nobody ends the wait early, and no pop hands the job out while it waits. */
  lemma CommandKeepsWaiting(mode: L.Mode, c: Codec, cfg: Config, w: World, cmd: Cmd, raw: string, at: int)
    requires Valid(c, w) && !mode.Any? && Permitted(mode, c, w, cmd) && WaitsAlone(c, w, raw, at)
    requires (cmd.PromoteCmd? ==> cmd.now < at) && Read(c, raw).id !in RedrivenBy(c, w, cmd)
    ensures WaitsAlone(c, NextWorld(c, cfg, w, cmd), raw, at) && HandedBy(c, w, cmd)[Read(c, raw).id] == 0
  {
    OnlyDelayedIsLive(c, w, raw, at);
    if cmd.PromoteCmd? {
      PromotionKeepsMember(c, cfg, w, cmd.now, cmd.limit, raw, at);
    } else if LeavesDelayed(cmd) {
      DelayedIsLeft(c, cfg, w, cmd);
    } else {
      WritesKeepMember(mode, c, cfg, w, cmd, raw, at);
    }
    RedisQueueRefines(mode, c, cfg, w, cmd);
    PushedGrows(c, cfg, w, cmd);
    var v := NextWorld(c, cfg, w, cmd);
    PushedIs(c, w);
    hide Valid, Permitted, NextWorld, Abstract, F.Lone, RedrivenBy, L.ReachesBy, Read, LeavesDelayed;
    F.ReachesByKeepsLone(mode, Abstract(c, w), Abstract(c, v), HandedBy(c, w, cmd), RedrivenBy(c, w, cmd), Read(c, raw).id);
  }

  lemma PushedIs(c: Codec, w: World)
    ensures Abstract(c, w).pushed == w.pushed
  {}

  ghost predicate PromotesBefore(cmds: seq<Cmd>, at: int) {
    forall k :: 0 <= k < |cmds| ==> (cmds[k].PromoteCmd? ==> cmds[k].now < at)
  }

  lemma {:induction false} RunKeepsWaiting(mode: L.Mode, c: Codec, cfg: Config, w: World, cmds: seq<Cmd>, raw: string, at: int)
    requires Valid(c, w) && !mode.Any? && RunPermitted(mode, c, cfg, w, cmds) && WaitsAlone(c, w, raw, at)
    requires PromotesBefore(cmds, at) && NeverRedriven(c, cfg, w, cmds, Read(c, raw).id)
    ensures WaitsAlone(c, RunOf(c, cfg, w, cmds), raw, at) && Pops(c, cfg, w, cmds, Read(c, raw).id) == 0
    decreases |cmds|
  {
    if cmds != [] {
      assert PromotesBefore(cmds[1..], at);
      assert cmds[0].PromoteCmd? ==> cmds[0].now < at;
      hide Valid, Permitted, NextWorld, HandedBy, RedrivenBy, WaitsAlone, PromotesBefore, Abstract, Read;
      CommandKeepsWaiting(mode, c, cfg, w, cmds[0], raw, at);
      RedisQueueRefines(mode, c, cfg, w, cmds[0]);
      RunKeepsWaiting(mode, c, cfg, NextWorld(c, cfg, w, cmds[0]), cmds[1..], raw, at);
    }
  }

  /** A retried job waits: stored again with a delay, over any interleaving no promotion that reads a
      clock before the end of the delay lets it go, and no pop hands it out. */
  lemma RetriedWaits(mode: L.Mode, c: Codec, cfg: Config, w: World, op: OpId, entry: string, now: int, delay: int,
                     failure: Option<Failure>, cmds: seq<Cmd>)
    requires Valid(c, w) && !mode.Any? && Permitted(mode, c, w, NackPut(op, now, delay, failure)) && delay > 0
    requires Has(w.hands, op) && Get(w.hands, op) == NackHand(entry)
    requires F.Lone(Abstract(c, w), HandedMessage(c, entry).id) && HandedMessage(c, entry).id in w.pushed
    requires var v := NextWorld(c, cfg, w, NackPut(op, now, delay, failure));
      RunPermitted(mode, c, cfg, v, cmds) && NeverRedriven(c, cfg, v, cmds, HandedMessage(c, entry).id)
    requires PromotesBefore(cmds, now + delay)
    ensures var v, m := NextWorld(c, cfg, w, NackPut(op, now, delay, failure)), HandedMessage(c, entry);
      && Pops(c, cfg, v, cmds, m.id) == 0
      && exists raw :: IsNacked(m, Read(c, raw), now + delay, failure) && WaitsAlone(c, RunOf(c, cfg, v, cmds), raw, now + delay)
  {
    hide *;
    var cmd := NackPut(op, now, delay, failure);
    var v, m := NextWorld(c, cfg, w, cmd), HandedMessage(c, entry);
    var x := Retried(m, now + delay, failure);
    var raw := c.showMessage(x);
    RetriedIsStored(c, cfg, w, op, entry, now, delay, failure);
    RetriedIsNacked(m, now + delay, failure);
    RedisQueueRefines(mode, c, cfg, w, cmd);
    PushedIs(c, w);
    NothingRedriven(c, w, op, now, delay, failure);
    F.ReachesByKeepsLone(mode, Abstract(c, w), Abstract(c, v), HandedBy(c, w, cmd), RedrivenBy(c, w, cmd), m.id);
    WaitsAloneIs(c, v, raw, now + delay, m.id);
    RunKeepsWaiting(mode, c, cfg, v, cmds, raw, now + delay);
  }

  lemma RetriedIsNacked(m: Message, at: int, failure: Option<Failure>)
    ensures IsNacked(m, Retried(m, at, failure), at, failure) && Retried(m, at, failure).id == m.id
  {}

  lemma NothingRedriven(c: Codec, w: World, op: OpId, now: int, delay: int, failure: Option<Failure>)
    ensures RedrivenBy(c, w, NackPut(op, now, delay, failure)) == multiset{}
  {}

  lemma WaitsAloneIs(c: Codec, v: World, raw: string, at: int, id: string)
    requires (raw, at) in v.s.delayed && F.Lone(Abstract(c, v), id) && id in v.pushed && Read(c, raw).id == id
    ensures WaitsAlone(c, v, raw, at)
  {}

  lemma RetriedIsStored(c: Codec, cfg: Config, w: World, op: OpId, entry: string, now: int, delay: int, failure: Option<Failure>)
    requires Valid(c, w) && Has(w.hands, op) && Get(w.hands, op) == NackHand(entry) && delay > 0
    ensures var v, x := NextWorld(c, cfg, w, NackPut(op, now, delay, failure)), Retried(HandedMessage(c, entry), now + delay, failure);
      && (c.showMessage(x), now + delay) in v.s.delayed && Read(c, c.showMessage(x)) == x && v.pushed == w.pushed
  {
    hide *;
    var x := Retried(HandedMessage(c, entry), now + delay, failure);
    ReadyTo(c, w);
    ReadsBack(c, x);
    ZaddAdds(w.s.delayed, c.showMessage(x), now + delay);
    RetriedNext(c, cfg, w, op, entry, now, delay, failure);
  }

  lemma ReadsBack(c: Codec, m: Message)
    requires Faithful(c)
    ensures Read(c, c.showMessage(m)) == m
  {
    assert c.readMessage(c.showMessage(m)) == Some(m);
  }

  lemma RetriedNext(c: Codec, cfg: Config, w: World, op: OpId, entry: string, now: int, delay: int, failure: Option<Failure>)
    requires Has(w.hands, op) && Get(w.hands, op) == NackHand(entry) && delay > 0
    ensures var v, x := NextWorld(c, cfg, w, NackPut(op, now, delay, failure)), Retried(HandedMessage(c, entry), now + delay, failure);
      v.s.delayed == Zadd(w.s.delayed, c.showMessage(x), now + delay) && v.pushed == w.pushed
  {
    hide HandedMessage, Remove, Find, Zadd, Has, Get;
  }

  lemma ZaddAdds(z: ZSet, member: string, score: int)
    requires UniqueKeys(z)
    ensures (member, score) in Zadd(z, member, score)
  {
    RemoveKeepsUnique(z, member);
    InsertKeepsKeys(Remove(z, member), (member, score));
  }

  // ---- A held lease keeps its entry ----

  predicate SettlesToken(cmd: Cmd, token: Token) {
    match cmd
    case AckCmd(lease) => lease == token
    case NackTake(_, lease) => lease == token
    case ExtendCmd(lease, _) => lease == token
    case DeadLetterCmd(_, owner) => owner == Some(token)
    case _ => false
  }

  predicate InFlightUntil(s: Server, e: string, expiry: int) {
    e in s.processing && e in s.leases && s.leases[e] == expiry
  }

  lemma ReleaseKeepsOther(c: Codec, w: World, token: Token, e: string, expiry: int)
    requires LeasesOk(c, w) && '|' !in token && InFlightUntil(w.s, e, expiry) && TokenOf(e) != token
    ensures InFlightUntil(ReleaseScript(w.s, Prefix(token)).0, e, expiry)
  {
    OwnedByToken(c, w, token);
    if Owns(w.s, token) {
      LremKeeps(w.s.processing, OwnedEntry(w.s, token));
      assert e in Lrem(w.s.processing, OwnedEntry(w.s, token)) by { LremLeaves(w.s.processing, OwnedEntry(w.s, token), e); }
    }
    hide TokenOf, LeasesOk, Lrem, ScanPrefix;
  }

  lemma LremLeaves(list: seq<string>, x: string, e: string)
    requires e in list && e != x
    ensures e in Lrem(list, x)
  {
    var j :| 0 <= j < |list| && list[j] == e;
    var i := Position(list, x);
    if i < |list| { assert Lrem(list, x)[if j < i then j else j - 1] == e; }
  }

  lemma AckKeepsEntry(c: Codec, cfg: Config, w: World, lease: Token, op: OpId)
    ensures NextWorld(c, cfg, w, AckCmd(lease)).s == ReleaseScript(w.s, Prefix(lease)).0
    ensures NextWorld(c, cfg, w, NackTake(op, lease)).s == ReleaseScript(w.s, Prefix(lease)).0
  {
    hide ReleaseScript, Prefix, HandedMessage;
  }

  lemma ExtendIs(c: Codec, cfg: Config, w: World, lease: Token, until: int)
    ensures NextWorld(c, cfg, w, ExtendCmd(lease, until)).s ==
      if Owns(w.s, lease) then w.s.(leases := w.s.leases[OwnedEntry(w.s, lease) := until]) else w.s
  {
    hide ScanPrefix, Prefix;
  }

  lemma RetimeKeepsOther(s: Server, x: string, until: int, e: string, expiry: int)
    requires InFlightUntil(s, e, expiry) && x != e
    ensures InFlightUntil(s.(leases := s.leases[x := until]), e, expiry)
  {}

  lemma ExtendKeepsOther(c: Codec, cfg: Config, w: World, lease: Token, until: int, e: string, expiry: int)
    requires LeasesOk(c, w) && '|' !in lease && InFlightUntil(w.s, e, expiry) && TokenOf(e) != lease
    ensures InFlightUntil(NextWorld(c, cfg, w, ExtendCmd(lease, until)).s, e, expiry)
  {
    hide *;
    OwnedByToken(c, w, lease);
    ExtendIs(c, cfg, w, lease, until);
    if Owns(w.s, lease) { RetimeKeepsOther(w.s, OwnedEntry(w.s, lease), until, e, expiry); }
  }

  lemma BuriedStore(c: Codec, w: World, entry: DeadEntry, owner: Option<Token>)
    ensures var s := if owner.Some? then ReleaseScript(w.s, Prefix(owner.value)).0 else w.s;
      Buried(c, w, entry, owner).s == s.(dead := [c.showDead(entry)] + s.dead)
  {
    hide ReleaseScript, Prefix, HandedMessage;
  }

  lemma SameInFlight(s: Server, v: Server, e: string, expiry: int)
    requires InFlightUntil(s, e, expiry) && v.processing == s.processing && v.leases == s.leases
    ensures InFlightUntil(v, e, expiry)
  {}

  lemma BurialKeepsEntry(c: Codec, cfg: Config, w: World, entry: DeadEntry, owner: Option<Token>, e: string, expiry: int)
    requires LeasesOk(c, w) && InFlightUntil(w.s, e, expiry) && (owner.Some? ==> '|' !in owner.value && TokenOf(e) != owner.value)
    ensures InFlightUntil(NextWorld(c, cfg, w, DeadLetterCmd(entry, owner)).s, e, expiry)
  {
    hide *;
    var u := Buried(c, w, entry, owner);
    if owner.Some? { ReleaseKeepsOther(c, w, owner.value, e, expiry); }
    BuriedStore(c, w, entry, owner);
    SameInFlight(if owner.Some? then ReleaseScript(w.s, Prefix(owner.value)).0 else w.s, u.s, e, expiry);
    DeadLetterTrims(c, cfg, w, entry, owner);
    EvictionsKeepDelayed(c, u, |Ltrim(u.s.dead, cfg.maxDead)|);
    SameInFlight(u.s, NextWorld(c, cfg, w, DeadLetterCmd(entry, owner)).s, e, expiry);
  }

  lemma SettlingAnotherKeepsEntry(c: Codec, cfg: Config, w: World, cmd: Cmd, e: string, expiry: int)
    requires Valid(c, w) && InFlightUntil(w.s, e, expiry) && !SettlesToken(cmd, TokenOf(e))
    requires match cmd
      case AckCmd(lease) => '|' !in lease
      case NackTake(_, lease) => '|' !in lease
      case ExtendCmd(lease, _) => '|' !in lease
      case DeadLetterCmd(_, owner) => owner.Some? ==> '|' !in owner.value
      case _ => false
    ensures InFlightUntil(NextWorld(c, cfg, w, cmd).s, e, expiry)
  {
    assert LeasesOk(c, w);
    hide Valid, LeasesOk, TokenOf, NextWorld, InFlightUntil, ReleaseScript;
    match cmd
    case AckCmd(lease) =>
      AckKeepsEntry(c, cfg, w, lease, 0);
      ReleaseKeepsOther(c, w, lease, e, expiry);
    case NackTake(op, lease) =>
      AckKeepsEntry(c, cfg, w, lease, op);
      ReleaseKeepsOther(c, w, lease, e, expiry);
    case ExtendCmd(lease, until) => ExtendKeepsOther(c, cfg, w, lease, until, e, expiry);
    case DeadLetterCmd(entry, owner) => BurialKeepsEntry(c, cfg, w, entry, owner, e, expiry);
    case _ =>
  }

  lemma OthersKeepEntry(mode: L.Mode, c: Codec, cfg: Config, w: World, cmd: Cmd, e: string, expiry: int)
    requires Valid(c, w) && Permitted(mode, c, w, cmd) && InFlightUntil(w.s, e, expiry) && (cmd.ReapCmd? ==> cmd.now < expiry)
    requires !cmd.AckCmd? && !cmd.NackTake? && !cmd.ExtendCmd? && !cmd.DeadLetterCmd?
    ensures InFlightUntil(NextWorld(c, cfg, w, cmd).s, e, expiry)
  {
    match cmd
    case ReapCmd(now) =>
      ReapIsComplete(c, cfg, w, now);
      hide Valid, NextWorld, Tidy;
    case PopCmd(token, x) =>
      if w.s.pending != [] { FreshEntry(c, w, token, w.s.pending[|w.s.pending| - 1]); }
      hide Valid, TokenOf, RawOf, EntryOf;
    case PromoteCmd(now, limit) =>
      PromotionKeeps(w.s, ZrangeDue(w.s.delayed, now, limit));
      hide Valid, PromoteFrom, ZrangeDue;
    case TrimCmd => EvictionsKeepDelayed(c, w, |Ltrim(w.s.dead, cfg.maxDead)|);
    case PurgeCmd => EvictionsKeepDelayed(c, w, 0);
    case _ => hide Valid, Routed, Store, HandedMessage, ReadDead, Lrem;
  }

  /** Whatever the others do, an entry stays in flight until its lease is over. */
  lemma CommandKeepsEntry(mode: L.Mode, c: Codec, cfg: Config, w: World, cmd: Cmd, e: string, expiry: int)
    requires Valid(c, w) && Permitted(mode, c, w, cmd) && InFlightUntil(w.s, e, expiry)
    requires !SettlesToken(cmd, TokenOf(e)) && (cmd.ReapCmd? ==> cmd.now < expiry)
    ensures InFlightUntil(NextWorld(c, cfg, w, cmd).s, e, expiry)
  {
    if cmd.AckCmd? || cmd.NackTake? || cmd.ExtendCmd? || cmd.DeadLetterCmd? {
      SettlingAnotherKeepsEntry(c, cfg, w, cmd, e, expiry);
    } else {
      OthersKeepEntry(mode, c, cfg, w, cmd, e, expiry);
    }
  }

  ghost predicate LeavesLease(cmds: seq<Cmd>, token: Token, expiry: int) {
    forall k :: 0 <= k < |cmds| ==> !SettlesToken(cmds[k], token) && (cmds[k].ReapCmd? ==> cmds[k].now < expiry)
  }

  /** A job held under a lease is not handed out again while it is the job's only live copy. */
  lemma HeldIsNotHanded(c: Codec, w: World, cmd: Cmd, e: string)
    requires e in w.s.processing && F.Lone(Abstract(c, w), HandedMessage(c, e).id)
    ensures HandedBy(c, w, cmd)[HandedMessage(c, e).id] == 0
  {
    if w.s.pending != [] { HeldIsNotPending(c, w, e, |w.s.pending| - 1); }
    hide Abstract, Read, HandedMessage;
  }

  lemma LeaseSlotIsLive(c: Codec, leases: map<string, int>, e: string)
    ensures var x := LeaseSlot(c, leases, e); !L.Settled(x) && L.SlotId(x) == HandedMessage(c, e).id
  {
    hide HandedMessage, TokenOf;
  }

  lemma ReadyIsLive(m: Message)
    ensures !L.Settled(L.Ready(m)) && L.SlotId(L.Ready(m)) == m.id
  {}

  lemma HeldIsNotPending(c: Codec, w: World, e: string, i: nat)
    requires e in w.s.processing && F.Lone(Abstract(c, w), HandedMessage(c, e).id) && i < |w.s.pending|
    ensures Read(c, w.s.pending[i]).id != HandedMessage(c, e).id
  {
    hide *;
    var id, x, y := HandedMessage(c, e).id, LeaseSlot(c, w.s.leases, e), L.Ready(Read(c, w.s.pending[i]));
    LeaseSlotIsLive(c, w.s.leases, e);
    ReadyIsLive(Read(c, w.s.pending[i]));
    PlacesApart(c, w);
    ProcessingSlot(c, w.s.leases, w.s.processing, e);
    PendingSlot(c, w.s.pending, i);
    Apart(multiset(ProcessingSlots(c, w.s.leases, w.s.processing)), multiset(PendingSlots(c, w.s.pending)), Abstract(c, w).slots, x, y);
    if L.SlotId(y) == id { TwoLiveSlots(Abstract(c, w), id, x, y); }
  }

  /** The entry is in flight until the expiry, and no other place holds its job live. */
  ghost predicate HeldAlone(c: Codec, w: World, e: string, expiry: int) {
    InFlightUntil(w.s, e, expiry) && HandedMessage(c, e).id in w.pushed && F.Lone(Abstract(c, w), HandedMessage(c, e).id)
  }

  lemma CommandKeepsHeld(mode: L.Mode, c: Codec, cfg: Config, w: World, cmd: Cmd, e: string, expiry: int)
    requires Valid(c, w) && !mode.Any? && Permitted(mode, c, w, cmd) && HeldAlone(c, w, e, expiry)
    requires !SettlesToken(cmd, TokenOf(e)) && (cmd.ReapCmd? ==> cmd.now < expiry)
    requires HandedMessage(c, e).id !in RedrivenBy(c, w, cmd)
    ensures HeldAlone(c, NextWorld(c, cfg, w, cmd), e, expiry) && HandedBy(c, w, cmd)[HandedMessage(c, e).id] == 0
  {
    assert InFlightUntil(w.s, e, expiry) && e in w.s.processing && F.Lone(Abstract(c, w), HandedMessage(c, e).id);
    assert HandedMessage(c, e).id in w.pushed;
    hide *;
    var v := NextWorld(c, cfg, w, cmd);
    CommandKeepsEntry(mode, c, cfg, w, cmd, e, expiry);
    HeldIsNotHanded(c, w, cmd, e);
    RedisQueueRefines(mode, c, cfg, w, cmd);
    PushedGrows(c, cfg, w, cmd);
    PushedIs(c, w);
    F.ReachesByKeepsLone(mode, Abstract(c, w), Abstract(c, v), HandedBy(c, w, cmd), RedrivenBy(c, w, cmd), HandedMessage(c, e).id);
    assert HeldAlone(c, v, e, expiry) by { HeldAloneIs(c, v, e, expiry); }
  }

  lemma HeldAloneIs(c: Codec, w: World, e: string, expiry: int)
    requires InFlightUntil(w.s, e, expiry) && HandedMessage(c, e).id in w.pushed && F.Lone(Abstract(c, w), HandedMessage(c, e).id)
    ensures HeldAlone(c, w, e, expiry)
  {}

  lemma LeavesEach(cmds: seq<Cmd>, token: Token, expiry: int)
    requires LeavesLease(cmds, token, expiry) && cmds != []
    ensures !SettlesToken(cmds[0], token) && (cmds[0].ReapCmd? ==> cmds[0].now < expiry) && LeavesLease(cmds[1..], token, expiry)
  {
    hide SettlesToken;
    assert forall k :: 0 <= k < |cmds| - 1 ==> cmds[1..][k] == cmds[k + 1];
  }

  lemma StillValid(mode: L.Mode, c: Codec, cfg: Config, w: World, cmd: Cmd)
    requires Valid(c, w) && Permitted(mode, c, w, cmd)
    ensures Valid(c, NextWorld(c, cfg, w, cmd))
  {
    hide Valid, Permitted, NextWorld, L.ReachesBy, Abstract;
    RedisQueueRefines(mode, c, cfg, w, cmd);
  }

  /** A lease keeps its job: until it is over or its holder settles or extends it, over any
      interleaving the entry stays in flight under it and its job is not handed out again. */
  lemma {:induction false} LeaseKeepsJob(mode: L.Mode, c: Codec, cfg: Config, w: World, cmds: seq<Cmd>, e: string, expiry: int)
    requires Valid(c, w) && !mode.Any? && RunPermitted(mode, c, cfg, w, cmds) && LeavesLease(cmds, TokenOf(e), expiry)
    requires HeldAlone(c, w, e, expiry) && NeverRedriven(c, cfg, w, cmds, HandedMessage(c, e).id)
    ensures HeldAlone(c, RunOf(c, cfg, w, cmds), e, expiry) && Pops(c, cfg, w, cmds, HandedMessage(c, e).id) == 0
    decreases |cmds|
  {
    if cmds != [] {
      hide Valid, Permitted, NextWorld, HandedBy, RedrivenBy, LeavesLease, HandedMessage, TokenOf, SettlesToken, HeldAlone;
      LeavesEach(cmds, TokenOf(e), expiry);
      CommandKeepsHeld(mode, c, cfg, w, cmds[0], e, expiry);
      StillValid(mode, c, cfg, w, cmds[0]);
      LeaseKeepsJob(mode, c, cfg, NextWorld(c, cfg, w, cmds[0]), cmds[1..], e, expiry);
    }
  }

  /** Heartbeats: an extend under the owning token moves the lease of that entry to the new expiry,
      to which the lemma above then applies; without the token nothing changes. */
  lemma HeartbeatMoves(c: Codec, cfg: Config, w: World, token: Token, expiry: int)
    requires Valid(c, w) && '|' !in token
    ensures var v := NextWorld(c, cfg, w, ExtendCmd(token, expiry));
      && v.s.processing == w.s.processing
      && (forall e :: e in w.s.processing ==> e in v.s.leases && v.s.leases[e] == if TokenOf(e) == token then expiry else w.s.leases[e])
  {
    OwnedByToken(c, w, token);
    if Owns(w.s, token) {
      var e := OwnedEntry(w.s, token);
      assert forall x :: x in w.s.processing && TokenOf(x) == token ==> x == e by { TokensDiffer(c, w, e); }
    }
    hide TokenOf;
  }

  lemma TokensDiffer(c: Codec, w: World, e: string)
    requires LeasesOk(c, w) && e in w.s.processing
    ensures forall x :: x in w.s.processing && TokenOf(x) == TokenOf(e) ==> x == e
  {
    hide TokenOf;
  }

  // ---- Where a message is stored ----

  /** A job pushed for now is pending behind the others, one pushed for later waits in the sorted set
      for its time. */
  lemma PushMeans(c: Codec, cfg: Config, w: World, m: Message, now: int)
    requires Valid(c, w)
    ensures var v, raw := NextWorld(c, cfg, w, PushCmd(m, now)).s, c.showMessage(m);
      && Read(c, raw) == m
      && if m.availableAt > now then (raw, m.availableAt) in v.delayed && v.pending == w.s.pending
         else v.pending == [raw] + w.s.pending && v.delayed == w.s.delayed
  {
    ReadyTo(c, w);
    ReadsBack(c, m);
    hide Valid, Faithful, UniqueKeys, Zadd, Read;
    ZaddAdds(w.s.delayed, c.showMessage(m), m.availableAt);
  }

  /** A redriven job is pending behind the others, due at once with its counters reset. */
  lemma RedrivePutMeans(c: Codec, cfg: Config, w: World, op: OpId, now: int, m: Message)
    requires Valid(c, w) && Has(w.hands, op) && Get(w.hands, op) == RedriveHand(m)
    ensures var v := NextWorld(c, cfg, w, RedrivePut(op, now));
      && !Has(v.hands, op) && v.s.delayed == w.s.delayed && |v.s.pending| == |w.s.pending| + 1 && v.s.pending[1..] == w.s.pending
      && var x := Read(c, v.s.pending[0]);
        && x.id == m.id && x.taskName == m.taskName && x.input == m.input && x.maxRetries == m.maxRetries
        && x.attempt == 0 && x.deliveries == 0 && x.leaseToken == None && x.availableAt == now && x.failures == m.failures
  {
    ReadyTo(c, w);
    ReadsBack(c, ResetForRedrive(m, now));
    assert UniqueKeys(w.hands);
    RemoveKeepsUnique(w.hands, op);
    hide Valid, Faithful, UniqueKeys, Read, Remove, Find;
  }
}
