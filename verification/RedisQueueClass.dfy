/** The scripts as loops over the shared structures, and the `RedisQueue` methods as the
    commands they issue, one client at a time (packages/queue-redis/src/index.ts). */
module RedisQueueClass {
  import opened Options
  import opened QueueTypes
  import opened JsMap
  import opened RedisScripts
  import opened RedisQueueRefinement
  import opened RedisReclaim

  class RedisServer {
    var pending: seq<string>
    var processing: seq<string>
    var leases: map<string, int>
    var delayed: ZSet
    var reclaim: seq<string>
    var dead: seq<string>

    ghost function Data(): Server
      reads this
    {
      Server(pending, processing, leases, delayed, reclaim, dead)
    }

    constructor ()
      ensures Data() == NO_DATA
    {
      pending, processing, leases, delayed, reclaim, dead := [], [], map[], [], [], [];
    }

    method EvalPop(expiry: int, token: Token) returns (entry: Option<string>)
      modifies this
      ensures (Data(), entry) == PopScript(old(Data()), expiry, token)
    {
      if pending == [] { return None; }
      var n := |pending| - 1;
      var raw := pending[n];
      pending := pending[..n];
      var e := EntryOf(token, raw);
      processing := [e] + processing;
      leases := leases[e := expiry];
      return Some(e);
    }

    method EvalRelease(prefix: string) returns (released: Option<string>)
      modifies this
      ensures (Data(), released) == ReleaseScript(old(Data()), prefix)
    {
      var entries := processing;
      for i := 0 to |entries|
        invariant forall j :: 0 <= j < i ==> !HasPrefix(entries[j], prefix)
        invariant Data() == old(Data())
      {
        if HasPrefix(entries[i], prefix) {
          processing := Lrem(processing, entries[i]);
          leases := leases - {entries[i]};
          assert ScanPrefix(entries, prefix) == i;
          return Some(entries[i]);
        }
      }
      return None;
    }

    method EvalExtend(prefix: string, expiry: int) returns (extended: bool)
      modifies this
      ensures (Data(), extended) == ExtendScript(old(Data()), prefix, expiry)
    {
      var entries := processing;
      for i := 0 to |entries|
        invariant forall j :: 0 <= j < i ==> !HasPrefix(entries[j], prefix)
        invariant Data() == old(Data())
      {
        if HasPrefix(entries[i], prefix) {
          leases := leases[entries[i] := expiry];
          assert ScanPrefix(entries, prefix) == i;
          return true;
        }
      }
      return false;
    }

    method EvalReap(now: int) returns (staged: nat)
      modifies this
      ensures Data() == ReapScript(old(Data()), now) && staged == |reclaim| - |old(reclaim)|
    {
      hide ReapFrom, Lrem;
      var entries := processing;
      ghost var start := Data();
      staged := 0;
      assert entries[0..] == entries;
      for i := 0 to |entries|
        invariant ReapFrom(Data(), entries[i..], now) == ReapFrom(start, entries, now)
        invariant staged == |reclaim| - |old(reclaim)|
      {
        var entry := entries[i];
        ReapNext(Data(), entries, i, now);
        if entry !in leases || leases[entry] <= now {
          if entry in processing {
            processing := Lrem(processing, entry);
            leases := leases - {entry};
            reclaim := [entry] + reclaim;
            staged := staged + 1;
          }
        }
      }
      ReapEnds(Data(), entries, now);
    }

    method EvalDrain(entry: string, toDead: bool, payload: string) returns (drained: bool)
      modifies this
      ensures (Data(), drained) == DrainScript(old(Data()), entry, toDead, payload)
    {
      if entry !in reclaim { return false; }
      reclaim := Lrem(reclaim, entry);
      if toDead { dead := [payload] + dead; } else { pending := [payload] + pending; }
      return true;
    }

    method EvalPromote(now: int, limit: nat) returns (moved: nat)
      modifies this
      ensures Data() == PromoteScript(old(Data()), now, limit) && moved == |pending| - |old(pending)|
    {
      var ready := ZrangeDue(delayed, now, limit);
      moved := 0;
      for i := 0 to |ready|
        invariant PromoteFrom(Data(), ready[i..]) == PromoteScript(old(Data()), now, limit)
        invariant moved == |pending| - |old(pending)|
      {
        assert ready[i..] == [ready[i]] + ready[i + 1..];
        if Has(delayed, ready[i]) {
          delayed := Remove(delayed, ready[i]);
          pending := [ready[i]] + pending;
          moved := moved + 1;
        }
      }
    }

    method EvalDeadLetter(prefix: string, payload: string, max: nat)
      modifies this
      ensures Data() == DeadLetterScript(old(Data()), prefix, payload, max)
      ensures dead == Ltrim([payload] + old(dead), max)
    {
      if prefix != "" {
        var released := EvalRelease(prefix);
      }
      dead := Ltrim([payload] + dead, max);
    }
  }

  lemma ReapNext(s: Server, entries: seq<string>, i: nat, now: int)
    requires i < |entries|
    ensures ReapFrom(s, entries[i..], now) == ReapFrom(ReapOne(s, entries[i], now), entries[i + 1..], now)
  {
    hide ReapOne;
    assert entries[i..][0] == entries[i] && entries[i..][1..] == entries[i + 1..];
  }

  lemma ReapEnds(s: Server, entries: seq<string>, now: int)
    ensures ReapFrom(s, entries[|entries|..], now) == s
  {}

  lemma DrainFromStep(c: Codec, cfg: Config, s: Server, entries: seq<string>, now: int)
    requires entries != []
    ensures var (toDead, payload) := Routed(c, cfg, entries[0], now);
      DrainFrom(c, cfg, s, entries, now) == DrainFrom(c, cfg, DrainScript(s, entries[0], toDead, payload).0, entries[1..], now)
  {}

  lemma DrainFromEnds(c: Codec, cfg: Config, s: Server, now: int)
    ensures DrainFrom(c, cfg, s, [], now) == s
  {}

  lemma ReapIsTidy(s: Server, now: int)
    requires Tidy(s)
    ensures Distinct(ReapScript(s, now).reclaim)
  {
    AllAreStaged(s, s.processing, now);
  }

  const PROMOTE_BATCH: nat := 500

  /** A world with one client and no history. */
  function Solo(s: Server): World { World(s, [], multiset{}, {}, {}, 0) }

  /** What a client that runs alone leaves behind. */
  function Alone(c: Codec, cfg: Config, s: Server, cmds: seq<Cmd>): Server {
    RunOf(c, cfg, Solo(s), cmds).s
  }

  function DrainCmds(staged: seq<string>, now: int): seq<Cmd> {
    seq(|staged|, i requires 0 <= i < |staged| => DrainCmd(staged[i], now))
  }

  lemma DrainStep(c: Codec, cfg: Config, s: Server, staged: seq<string>, now: int)
    requires staged != []
    ensures var (toDead, payload) := Routed(c, cfg, staged[0], now);
      RunOf(c, cfg, Solo(s), DrainCmds(staged, now)) ==
      RunOf(c, cfg, Solo(DrainScript(s, staged[0], toDead, payload).0), DrainCmds(staged[1..], now))
  {
    assert DrainCmds(staged, now)[1..] == DrainCmds(staged[1..], now);
    hide Routed, DrainScript;
  }

  lemma NothingStaged(c: Codec, cfg: Config, s: Server, now: int)
    ensures RunOf(c, cfg, Solo(s), DrainCmds([], now)) == Solo(s)
  {}

  lemma TrimData(c: Codec, cfg: Config, w: World)
    ensures NextWorld(c, cfg, w, TrimCmd).s == w.s.(dead := Ltrim(w.s.dead, cfg.maxDead))
  {
    EvictToData(c, w, |Ltrim(w.s.dead, cfg.maxDead)|);
  }

  lemma TwoCommands(c: Codec, cfg: Config, w: World, a: Cmd, b: Cmd)
    ensures RunOf(c, cfg, w, [a]) == NextWorld(c, cfg, w, a)
    ensures RunOf(c, cfg, w, [a, b]) == NextWorld(c, cfg, NextWorld(c, cfg, w, a), b)
  {
    hide NextWorld;
    assert [a][1..] == [] && [a, b][1..] == [b] && [b][1..] == [];
    assert RunOf(c, cfg, NextWorld(c, cfg, w, a), [b]) == NextWorld(c, cfg, NextWorld(c, cfg, w, a), b);
  }

  /** History never influences what a command does to the store. */
  lemma DataOnly(c: Codec, cfg: Config, v: World, w: World, cmd: Cmd)
    requires v.s == w.s && v.hands == w.hands
    ensures NextWorld(c, cfg, v, cmd).s == NextWorld(c, cfg, w, cmd).s
    ensures NextWorld(c, cfg, v, cmd).hands == NextWorld(c, cfg, w, cmd).hands
  {
    hide PromoteScript, ReapScript, DrainScript, ReleaseScript, ExtendScript, PopScript, EvictTo, Routed, Store, HandedMessage;
    match cmd
    case DeadLetterCmd(entry, owner) =>
      var d := Buried(c, v, entry, owner).s.dead;
      EvictToData(c, Buried(c, v, entry, owner), |Ltrim(d, cfg.maxDead)|);
      EvictToData(c, Buried(c, w, entry, owner), |Ltrim(d, cfg.maxDead)|);
    case TrimCmd =>
      EvictToData(c, v, |Ltrim(v.s.dead, cfg.maxDead)|);
      EvictToData(c, w, |Ltrim(w.s.dead, cfg.maxDead)|);
    case PurgeCmd =>
      EvictToData(c, v, 0);
      EvictToData(c, w, 0);
    case _ =>
  }

  lemma {:induction false} DataOnlyRun(c: Codec, cfg: Config, v: World, w: World, cmds: seq<Cmd>)
    requires v.s == w.s && v.hands == w.hands
    ensures RunOf(c, cfg, v, cmds).s == RunOf(c, cfg, w, cmds).s
    decreases |cmds|
  {
    hide NextWorld;
    if cmds != [] {
      DataOnly(c, cfg, v, w, cmds[0]);
      DataOnlyRun(c, cfg, NextWorld(c, cfg, v, cmds[0]), NextWorld(c, cfg, w, cmds[0]), cmds[1..]);
    }
  }

  /** A client that continues with nothing in hand. */
  lemma AloneAppends(c: Codec, cfg: Config, s: Server, a: seq<Cmd>, b: seq<Cmd>)
    requires RunOf(c, cfg, Solo(s), a).hands == []
    ensures Alone(c, cfg, s, a + b) == Alone(c, cfg, Alone(c, cfg, s, a), b)
  {
    hide RunOf;
    var v := RunOf(c, cfg, Solo(s), a);
    RunAppends(c, cfg, Solo(s), a, b);
    DataOnlyRun(c, cfg, v, Solo(v.s), b);
  }

  predicate HandsFree(cmd: Cmd) { !cmd.NackTake? && !cmd.TakeDeadCmd? && !cmd.TakeOldestDead? }

  lemma {:induction false} KeepsHandsFree(c: Codec, cfg: Config, w: World, cmds: seq<Cmd>)
    requires w.hands == [] && forall k :: 0 <= k < |cmds| ==> HandsFree(cmds[k])
    ensures RunOf(c, cfg, w, cmds).hands == []
    decreases |cmds|
  {
    if cmds != [] {
      DataOnly(c, cfg, w, w, cmds[0]);
      HandsFreeStep(c, cfg, w, cmds[0]);
      hide NextWorld;
      KeepsHandsFree(c, cfg, NextWorld(c, cfg, w, cmds[0]), cmds[1..]);
    }
  }

  lemma HandsFreeStep(c: Codec, cfg: Config, w: World, cmd: Cmd)
    requires w.hands == [] && HandsFree(cmd)
    ensures NextWorld(c, cfg, w, cmd).hands == []
  {
    hide PromoteScript, ReapScript, DrainScript, ReleaseScript, ExtendScript, PopScript, EvictTo, Routed, Store, HandedMessage;
    match cmd
    case DeadLetterCmd(entry, owner) =>
      var u := Buried(c, w, entry, owner);
      EvictToData(c, u, |Ltrim(u.s.dead, cfg.maxDead)|);
    case TrimCmd => EvictToData(c, w, |Ltrim(w.s.dead, cfg.maxDead)|);
    case PurgeCmd => EvictToData(c, w, 0);
    case _ =>
  }

  /** After commands that take nothing in hand, a client goes on as if it started there. */
  lemma Continues(c: Codec, cfg: Config, s: Server, a: seq<Cmd>, b: seq<Cmd>)
    requires forall k :: 0 <= k < |a| ==> HandsFree(a[k])
    ensures Alone(c, cfg, s, a + b) == Alone(c, cfg, Alone(c, cfg, s, a), b)
  {
    hide RunOf, Alone;
    KeepsHandsFree(c, cfg, Solo(s), a);
    AloneAppends(c, cfg, s, a, b);
  }

  lemma TakeStep(c: Codec, cfg: Config, s: Server, lease: Token)
    ensures var (released, entry) := ReleaseScript(s, Prefix(lease));
      NextWorld(c, cfg, Solo(s), NackTake(0, lease)) ==
        Solo(released).(hands := if entry.None? then [] else [(0, NackHand(entry.value))])
  {
    hide ReleaseScript;
    var entry := ReleaseScript(s, Prefix(lease)).1;
    if entry.Some? { assert Put([], 0, NackHand(entry.value)) == [(0, NackHand(entry.value))]; }
  }

  lemma PutStep(c: Codec, cfg: Config, w: World, now: int, delay: int, failure: Option<Failure>)
    ensures var next := NextWorld(c, cfg, w, NackPut(0, now, delay, failure)).s;
      && (w.hands == [] ==> next == w.s)
      && (|w.hands| == 1 && w.hands[0].0 == 0 && w.hands[0].1.NackHand? ==>
            next == Store(c, w.s, Retried(HandedMessage(c, w.hands[0].1.entry), now + delay, failure), delay > 0))
  {
    hide HandedMessage, Store, Retried;
  }

  /** The store after the two commands of a nack. */
  lemma NackData(c: Codec, cfg: Config, s: Server, lease: Token, now: int, delay: int, failure: Option<Failure>)
    ensures var (released, entry) := ReleaseScript(s, Prefix(lease));
      Alone(c, cfg, s, [NackTake(0, lease), NackPut(0, now, delay, failure)]) ==
      if entry.None? then released
      else Store(c, released, Retried(HandedMessage(c, entry.value), now + delay, failure), delay > 0)
  {
    hide HandedMessage, Store, ReleaseScript, RunOf, NextWorld, Retried;
    TwoCommands(c, cfg, Solo(s), NackTake(0, lease), NackPut(0, now, delay, failure));
    TakeStep(c, cfg, s, lease);
    PutStep(c, cfg, NextWorld(c, cfg, Solo(s), NackTake(0, lease)), now, delay, failure);
  }

  lemma DeadLetterData(c: Codec, cfg: Config, s: Server, entry: DeadEntry, owner: Option<Token>)
    ensures Alone(c, cfg, s, [DeadLetterCmd(entry, owner)]) ==
      var left := if owner.Some? then ReleaseScript(s, Prefix(owner.value)).0 else s;
      left.(dead := Ltrim([c.showDead(entry)] + left.dead, cfg.maxDead))
  {
    hide ReleaseScript, RunOf, HandedMessage;
    TwoCommands(c, cfg, Solo(s), DeadLetterCmd(entry, owner), TrimCmd);
    var u := Buried(c, Solo(s), entry, owner);
    EvictToData(c, u, |Ltrim(u.s.dead, cfg.maxDead)|);
  }

  /** A dead entry that can be read and is about job `id`. */
  predicate IsDeadOf(c: Codec, raw: string, id: string) {
    c.readDead(raw).Some? && c.readDead(raw).value.message.id == id
  }

  function FindDeadOf(c: Codec, dead: seq<string>, id: string): (i: nat)
    ensures i <= |dead| && (i < |dead| ==> IsDeadOf(c, dead[i], id)) && forall j :: 0 <= j < i ==> !IsDeadOf(c, dead[j], id)
  {
    if dead == [] || IsDeadOf(c, dead[0], id) then 0 else 1 + FindDeadOf(c, dead[1..], id)
  }

  /** The commands that take the dead entry at `i`. */
  predicate Takes(s: Server, i: nat, cmd: Cmd)
    requires i < |s.dead|
  {
    || (cmd == TakeOldestDead(0) && i == |s.dead| - 1)
    || (cmd == TakeDeadCmd(0, s.dead[i]) && i == Position(s.dead, s.dead[i]))
  }

  lemma TakeDeadStep(c: Codec, cfg: Config, s: Server, i: nat, cmd: Cmd)
    requires i < |s.dead|
    requires Takes(s, i, cmd)
    ensures NextWorld(c, cfg, Solo(s), cmd) ==
      Solo(s.(dead := s.dead[..i] + s.dead[i + 1..])).(hands := [(0, RedriveHand(ReadDead(c, s.dead[i]).message))])
  {
    hide ReadDead;
  }

  lemma RedriveStep(c: Codec, cfg: Config, w: World, m: Message, now: int)
    requires w.hands == [(0, RedriveHand(m))]
    ensures NextWorld(c, cfg, w, RedrivePut(0, now)) ==
      w.(s := w.s.(pending := [c.showMessage(ResetForRedrive(m, now))] + w.s.pending), hands := [])
    ensures NextWorld(c, cfg, w, CrashOp(0)).s == w.s && NextWorld(c, cfg, w, CrashOp(0)).hands == []
  {
    hide ResetForRedrive;
  }

  /** A dead entry taken by one command and stored again, or dropped, by the next. */
  lemma RedriveData(c: Codec, cfg: Config, s: Server, i: nat, take: Cmd, now: int)
    requires i < |s.dead|
    requires Takes(s, i, take)
    ensures var left := s.(dead := s.dead[..i] + s.dead[i + 1..]);
      var raw := c.showMessage(ResetForRedrive(ReadDead(c, s.dead[i]).message, now));
      && Alone(c, cfg, s, [take, RedrivePut(0, now)]) == left.(pending := [raw] + left.pending)
      && RunOf(c, cfg, Solo(s), [take, RedrivePut(0, now)]).hands == []
      && Alone(c, cfg, s, [take, CrashOp(0)]) == left
      && RunOf(c, cfg, Solo(s), [take, CrashOp(0)]).hands == []
  {
    hide RunOf, NextWorld, ReadDead, ResetForRedrive, Position;
    TwoCommands(c, cfg, Solo(s), take, RedrivePut(0, now));
    TwoCommands(c, cfg, Solo(s), take, CrashOp(0));
    TakeDeadStep(c, cfg, s, i, take);
    RedriveStep(c, cfg, NextWorld(c, cfg, Solo(s), take), ReadDead(c, s.dead[i]).message, now);
  }

  /** `redriveDeadLetters`: oldest first; an entry that cannot be read is dropped. */
  ghost function RedriveCmds(c: Codec, dead: seq<string>, limit: nat, now: int): seq<Cmd>
    decreases |dead|
  {
    if limit == 0 || dead == [] then []
    else
      var n := |dead| - 1;
      if c.readDead(dead[n]).Some? then [TakeOldestDead(0), RedrivePut(0, now)] + RedriveCmds(c, dead[..n], limit - 1, now)
      else [TakeOldestDead(0), CrashOp(0)] + RedriveCmds(c, dead[..n], limit, now)
  }

  /** How many of the oldest dead entries a limit lets through. */
  ghost function Redrivable(c: Codec, dead: seq<string>, limit: nat): nat
    decreases |dead|
  {
    if limit == 0 || dead == [] then 0
    else
      var n := |dead| - 1;
      if c.readDead(dead[n]).Some? then 1 + Redrivable(c, dead[..n], limit - 1) else Redrivable(c, dead[..n], limit)
  }

  lemma RedriveRest(c: Codec, cfg: Config, s: Server, limit: nat, now: int)
    requires limit > 0 && s.dead != []
    ensures var n := |s.dead| - 1;
      var left := s.(dead := s.dead[..n]);
      var raw := c.showMessage(ResetForRedrive(ReadDead(c, s.dead[n]).message, now));
      Alone(c, cfg, s, RedriveCmds(c, s.dead, limit, now)) ==
        if c.readDead(s.dead[n]).Some?
        then Alone(c, cfg, left.(pending := [raw] + left.pending), RedriveCmds(c, left.dead, limit - 1, now))
        else Alone(c, cfg, left, RedriveCmds(c, left.dead, limit, now))
  {
    hide Alone, RunOf, ReadDead, ResetForRedrive;
    var n := |s.dead| - 1;
    assert s.dead[..n] + s.dead[n + 1..] == s.dead[..n];
    RedriveData(c, cfg, s, n, TakeOldestDead(0), now);
    if c.readDead(s.dead[n]).Some? {
      AloneAppends(c, cfg, s, [TakeOldestDead(0), RedrivePut(0, now)], RedriveCmds(c, s.dead[..n], limit - 1, now));
    } else {
      AloneAppends(c, cfg, s, [TakeOldestDead(0), CrashOp(0)], RedriveCmds(c, s.dead[..n], limit, now));
    }
  }

  lemma NothingToRedrive(c: Codec, cfg: Config, s: Server, limit: nat, now: int)
    requires limit == 0 || s.dead == []
    ensures Alone(c, cfg, s, RedriveCmds(c, s.dead, limit, now)) == s
  {}

  /** One client of the shared store. */
  class RedisQueue {
    const server: RedisServer
    const c: Codec
    const cfg: Config
    const visibility: int

    constructor (server: RedisServer, c: Codec, cfg: Config, visibility: int)
      ensures this.server == server && this.c == c && this.cfg == cfg && this.visibility == visibility
    {
      this.server, this.c, this.cfg, this.visibility := server, c, cfg, visibility;
    }

    method Push(message: Message, now: int)
      modifies server
      ensures server.Data() == Alone(c, cfg, old(server.Data()), [PushCmd(message, now)])
    {
      TwoCommands(c, cfg, Solo(server.Data()), PushCmd(message, now), TrimCmd);
      var serialized := c.showMessage(message);
      if message.availableAt > now {
        server.delayed := Zadd(server.delayed, serialized, message.availableAt);
      } else {
        server.pending := [serialized] + server.pending;
      }
    }

    /** Release, rewrite the message in the client, store it again. */
    method Nack(lease: Token, now: int, delay: int, failure: Option<Failure>)
      modifies server
      ensures server.Data() == Alone(c, cfg, old(server.Data()), [NackTake(0, lease), NackPut(0, now, delay, failure)])
    {
      NackData(c, cfg, server.Data(), lease, now, delay, failure);
      hide ReleaseScript, Alone, Zadd, TokenOf, RawOf;
      var entry := server.EvalRelease(Prefix(lease));
      if entry.None? { return; }
      var message := Read(c, RawOf(entry.value));
      message := message.(attempt := message.attempt + 1);
      message := message.(deliveries := message.deliveries + 1);
      message := message.(availableAt := now + delay, leaseToken := None);
      if failure.Some? { message := message.(failures := message.failures + [failure.value]); }
      assert message == Retried(HandedMessage(c, entry.value), now + delay, failure);
      var serialized := c.showMessage(message);
      if delay > 0 {
        server.delayed := Zadd(server.delayed, serialized, message.availableAt);
      } else {
        server.pending := [serialized] + server.pending;
      }
    }

    method Ack(lease: Token)
      modifies server
      ensures server.Data() == Alone(c, cfg, old(server.Data()), [AckCmd(lease)])
    {
      hide ReleaseScript;
      TwoCommands(c, cfg, Solo(server.Data()), AckCmd(lease), TrimCmd);
      var entry := server.EvalRelease(Prefix(lease));
    }

    method Extend(lease: Token, now: int, extra: Option<int>) returns (extended: bool)
      modifies server
      ensures var expiry := now + if extra.Some? then extra.value else visibility;
        server.Data() == Alone(c, cfg, old(server.Data()), [ExtendCmd(lease, expiry)])
      ensures extended == Owns(old(server.Data()), lease)
    {
      var expiry := now + if extra.Some? then extra.value else visibility;
      TwoCommands(c, cfg, Solo(server.Data()), ExtendCmd(lease, expiry), TrimCmd);
      hide RunOf;
      extended := server.EvalExtend(Prefix(lease), expiry);
    }

    /** An empty token counts as none. */
    method DeadLetter(entry: DeadEntry, lease: Option<Token>)
      modifies server
      ensures server.Data() ==
        Alone(c, cfg, old(server.Data()), [DeadLetterCmd(entry, if lease == Some("") then None else lease)])
      ensures |server.dead| <= cfg.maxDead <==> cfg.maxDead > 0
    {
      hide ReleaseScript, Alone, Ltrim;
      TrimIsCapped([c.showDead(entry)] + server.dead, cfg.maxDead);
      DeadLetterData(c, cfg, server.Data(), entry, if lease == Some("") then None else lease);
      server.EvalDeadLetter(if lease.Some? && lease.value != "" then Prefix(lease.value) else "", c.showDead(entry), cfg.maxDead);
    }

    /** Find the newest dead entry of a job, remove it, store its message again. */
    method RedriveDeadLetter(id: string, now: int) returns (found: bool)
      modifies server
      ensures var dead := old(server.dead);
        var i := FindDeadOf(c, dead, id);
        && found == (i < |dead|)
        && server.Data() == Alone(c, cfg, old(server.Data()),
             if found then [TakeDeadCmd(0, dead[i]), RedrivePut(0, now)] else [])
    {
      hide RunOf, Alone, ReadDead, ResetForRedrive;
      NothingToRedrive(c, cfg, server.Data(), 0, now);
      var raws := server.dead;
      for i := 0 to |raws|
        invariant server.Data() == old(server.Data()) && forall j :: 0 <= j < i ==> !IsDeadOf(c, raws[j], id)
      {
        if IsDeadOf(c, raws[i], id) {
          FoundDead(raws, id, i);
          RedriveData(c, cfg, server.Data(), i, TakeDeadCmd(0, raws[i]), now);
          server.dead := Lrem(server.dead, raws[i]);
          var m := ResetForRedrive(ReadDead(c, raws[i]).message, now);
          server.pending := [c.showMessage(m)] + server.pending;
          return true;
        }
      }
      return false;
    }

    lemma FoundDead(dead: seq<string>, id: string, i: nat)
      requires i < |dead| && IsDeadOf(c, dead[i], id) && forall j :: 0 <= j < i ==> !IsDeadOf(c, dead[j], id)
      ensures FindDeadOf(c, dead, id) == i && Position(dead, dead[i]) == i
      ensures Lrem(dead, dead[i]) == dead[..i] + dead[i + 1..]
    {}

    method RedriveDeadLetters(limit: nat, now: int) returns (moved: nat)
      modifies server
      ensures server.Data() == Alone(c, cfg, old(server.Data()), RedriveCmds(c, old(server.dead), limit, now))
      ensures moved == Redrivable(c, old(server.dead), limit)
    {
      hide RunOf, Alone, ReadDead, ResetForRedrive, RedriveCmds;
      moved := 0;
      while moved < limit && server.dead != []
        invariant moved <= limit
        invariant Alone(c, cfg, server.Data(), RedriveCmds(c, server.dead, limit - moved, now))
          == Alone(c, cfg, old(server.Data()), RedriveCmds(c, old(server.dead), limit, now))
        invariant moved + Redrivable(c, server.dead, limit - moved) == Redrivable(c, old(server.dead), limit)
        decreases |server.dead|
      {
        RedriveRest(c, cfg, server.Data(), limit - moved, now);
        var raw := server.dead[|server.dead| - 1];
        server.dead := server.dead[..|server.dead| - 1];
        if c.readDead(raw).Some? {
          var m := ResetForRedrive(ReadDead(c, raw).message, now);
          server.pending := [c.showMessage(m)] + server.pending;
          moved := moved + 1;
        }
      }
      NothingToRedrive(c, cfg, server.Data(), limit - moved, now);
    }

    method PurgeDeadLetters() returns (n: nat)
      modifies server
      ensures server.Data() == Alone(c, cfg, old(server.Data()), [PurgeCmd]) && n == |old(server.dead)|
    {
      TwoCommands(c, cfg, Solo(server.Data()), PurgeCmd, TrimCmd);
      EvictToData(c, Solo(server.Data()), 0);
      n := |server.dead|;
      server.dead := [];
    }

    /** Decide in the client where a staged entry goes, and let the script move it there. */
    method Route(entry: string, now: int) returns (drained: bool)
      modifies server
      ensures var (toDead, payload) := Routed(c, cfg, entry, now);
        (server.Data(), drained) == DrainScript(old(server.Data()), entry, toDead, payload)
    {
      hide DrainScript, RawOf;
      var message := Read(c, RawOf(entry));
      var failures := message.failures + [Failure(message.attempt, cfg.expiryError, now)];
      message := message.(failures := failures, attempt := message.attempt + 1, deliveries := message.deliveries + 1, leaseToken := None);
      assert message == Expired(HandedMessage(c, entry), cfg.expiryError, now);
      var exhausted := message.attempt > message.maxRetries;
      var payload := if exhausted
        then c.showDead(DeadEntry(message, cfg.expiryError, failures, now))
        else c.showMessage(message.(availableAt := now));
      drained := server.EvalDrain(entry, exhausted, payload);
    }

    /** Route each staged entry, then trim the dead list. */
    method DrainReclaimed(now: int) returns (handled: nat)
      modifies server
      ensures server.Data() == Alone(c, cfg, old(server.Data()),
        DrainCmds(old(server.reclaim), now) + if handled > 0 then [TrimCmd] else [])
      ensures handled > 0 && cfg.maxDead > 0 ==> |server.dead| <= cfg.maxDead
      ensures Faithful(c) && Distinct(old(server.reclaim)) ==> AllDrained(c, old(server.Data()), now, cfg.maxDead, server.Data())
    {
      hide Routed, DrainScript, Ltrim, RunOf, DrainCmds, DrainFrom, AllDrained, Faithful, Distinct;
      var staged := server.reclaim;
      ghost var start := Solo(server.Data());
      handled := 0;
      for i := 0 to |staged|
        invariant RunOf(c, cfg, Solo(server.Data()), DrainCmds(staged[i..], now)) == RunOf(c, cfg, start, DrainCmds(staged, now))
        invariant DrainFrom(c, cfg, server.Data(), staged[i..], now) == DrainFrom(c, cfg, start.s, staged, now)
      {
        DrainStep(c, cfg, server.Data(), staged[i..], now);
        DrainFromStep(c, cfg, server.Data(), staged[i..], now);
        assert staged[i..][1..] == staged[i + 1..];
        var drained := Route(staged[i], now);
        if drained { handled := handled + 1; }
      }
      ghost var end := RunOf(c, cfg, start, DrainCmds(staged, now));
      NothingStaged(c, cfg, server.Data(), now);
      assert staged[|staged|..] == [];
      DrainFromEnds(c, cfg, server.Data(), now);
      if Faithful(c) && Distinct(old(server.reclaim)) { DrainedThenTrimmed(c, cfg, start.s, now, handled > 0); }
      if handled > 0 {
        RunAppends(c, cfg, start, DrainCmds(staged, now), [TrimCmd]);
        TwoCommands(c, cfg, end, TrimCmd, TrimCmd);
        TrimData(c, cfg, end);
        TrimIsCapped(server.dead, cfg.maxDead);
        server.dead := Ltrim(server.dead, cfg.maxDead);
      } else {
        assert DrainCmds(staged, now) + [] == DrainCmds(staged, now);
      }
    }

    /** Stage expired leases, then drain staging. */
    method Reap(now: int) returns (handled: nat, ghost cmds: seq<Cmd>)
      modifies server
      ensures server.Data() == Alone(c, cfg, old(server.Data()), cmds)
      ensures cmds == [ReapCmd(now)] + DrainCmds(ReapScript(old(server.Data()), now).reclaim, now)
        + if handled > 0 then [TrimCmd] else []
      ensures Faithful(c) && Tidy(old(server.Data())) ==> Recovered(c, old(server.Data()), now, cfg.maxDead, server.Data())
    {
      hide AllDrained, Recovered, Tidy, Faithful;
      ghost var before := server.Data();
      if Tidy(before) { ReapIsTidy(before, now); }
      TwoCommands(c, cfg, Solo(before), ReapCmd(now), TrimCmd);
      var staged := server.EvalReap(now);
      handled := DrainReclaimed(now);
      if Faithful(c) && Tidy(before) { ReapedThenDrained(c, before, now, cfg.maxDead, server.Data()); }
      ghost var rest := DrainCmds(ReapScript(before, now).reclaim, now) + if handled > 0 then [TrimCmd] else [];
      cmds := [ReapCmd(now)] + rest;
      Continues(c, cfg, before, [ReapCmd(now)], rest);
    }

    /** The first command of `pop`: due messages leave the delayed set. */
    method Promote(now: int)
      modifies server
      ensures server.Data() == Alone(c, cfg, old(server.Data()), [PromoteCmd(now, PROMOTE_BATCH)])
      ensures server.Data() == PromoteScript(old(server.Data()), now, PROMOTE_BATCH)
    {
      hide RunOf, PromoteFrom, ZrangeDue;
      TwoCommands(c, cfg, Solo(server.Data()), PromoteCmd(now, PROMOTE_BATCH), TrimCmd);
      var moved := server.EvalPromote(now, PROMOTE_BATCH);
    }

    /** The last command of `pop`: the oldest pending message moves to processing. */
    method Take(now: int, token: Token) returns (message: Option<Message>)
      requires '|' !in token
      modifies server
      ensures server.Data() == Alone(c, cfg, old(server.Data()), [PopCmd(token, now + visibility)])
      ensures var ready := old(server.pending);
        message == if ready == [] then None else Some(Delivered(Read(c, ready[|ready| - 1]), token))
    {
      hide RunOf, TokenOf, RawOf;
      TwoCommands(c, cfg, Solo(server.Data()), PopCmd(token, now + visibility), TrimCmd);
      ghost var ready := server.pending;
      var entry := server.EvalPop(now + visibility, token);
      if entry.None? { return None; }
      SplitUndoesJoin(token, ready[|ready| - 1]);
      var m := Read(c, RawOf(entry.value));
      m := m.(deliveries := m.deliveries + 1, leaseToken := Some(token));
      return Some(m);
    }

    /** Promote what is due, reclaim what has expired, then take the oldest pending message. */
    method Pop(now: int, token: Token) returns (message: Option<Message>, ghost cmds: seq<Cmd>)
      requires '|' !in token
      modifies server
      ensures server.Data() == Alone(c, cfg, old(server.Data()), [PromoteCmd(now, PROMOTE_BATCH)] + cmds + [PopCmd(token, now + visibility)])
      ensures forall k :: 0 <= k < |cmds| ==> cmds[k].ReapCmd? || cmds[k].DrainCmd? || cmds[k].TrimCmd?
      ensures var ready := Alone(c, cfg, old(server.Data()), [PromoteCmd(now, PROMOTE_BATCH)] + cmds).pending;
        message == if ready == [] then None else Some(Delivered(Read(c, ready[|ready| - 1]), token))
      ensures Faithful(c) && Tidy(old(server.Data())) ==>
        Recovered(c, PromoteScript(old(server.Data()), now, PROMOTE_BATCH), now, cfg.maxDead,
                  Alone(c, cfg, old(server.Data()), [PromoteCmd(now, PROMOTE_BATCH)] + cmds))
    {
      hide Alone, Recovered, Tidy, Faithful, PromoteScript;
      ghost var before := server.Data();
      if Tidy(before) { PromotionKeepsTidy(before, now, PROMOTE_BATCH); }
      Promote(now);
      var handled;
      handled, cmds := Reap(now);
      Continues(c, cfg, before, [PromoteCmd(now, PROMOTE_BATCH)], cmds);
      ghost var sofar := [PromoteCmd(now, PROMOTE_BATCH)] + cmds;
      Continues(c, cfg, before, sofar, [PopCmd(token, now + visibility)]);
      message := Take(now, token);
    }
  }
}
