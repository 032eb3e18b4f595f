/** What the Redis store keeps and loses over whole runs (packages/queue-redis/src/index.ts). */
module RedisQueuePlaces {
  import opened Options
  import opened QueueTypes
  import opened JsMap
  import opened RedisScripts
  import opened LeaseQueue
  import opened RedisQueueRefinement

  // ---- Exactly one place ----

  /** Ids are pushed once, unless the same message is waiting already; and the lease a job is
      dead-lettered under is held, and is that job's. */
  predicate CarefulCmd(c: Codec, w: World, cmd: Cmd) {
    match cmd
    case PushCmd(m, now) => m.id !in w.pushed || (m.availableAt > now && Has(w.s.delayed, c.showMessage(m)))
    case DeadLetterCmd(entry, owner) =>
      owner.Some? && Owns(w.s, owner.value) && HandedMessage(c, OwnedEntry(w.s, owner.value)).id == entry.message.id
    case _ => true
  }

  /** Evictions make no difference. */
  lemma {:induction false} EvictionsExactlyIff(c: Codec, w: World, n: nat)
    requires n <= |w.s.dead|
    ensures ExactlyOnePlace(Abstract(c, EvictTo(c, w, n))) <==> ExactlyOnePlace(Abstract(c, w))
    decreases |w.s.dead|
  {
    hide Abstract, ExactlyOnePlace, ReadDead;
    if |w.s.dead| != n {
      var k := |w.s.dead| - 1;
      var v, e := w.(s := w.s.(dead := w.s.dead[..k])), ReadDead(c, w.s.dead[k]);
      LoseDead(c, w, k);
      assert w.s.dead[..k] + w.s.dead[k + 1..] == w.s.dead[..k];
      GainGone(c, v, Gone(e.message.id, Discarded));
      PlusExactlyIff(Abstract(c, v), Dead(e), Gone(e.message.id, Discarded));
      EvictionsExactlyIff(c, EvictLast(c, w), n);
    }
  }

  /** Under which commands every job stays in exactly one place: exactly the careful ones. */
  lemma CommandKeepsExactlyIff(c: Codec, cfg: Config, w: World, cmd: Cmd)
    requires Valid(c, w) && Permitted(Any, c, w, cmd) && ExactlyOnePlace(Abstract(c, w))
    ensures ExactlyOnePlace(Abstract(c, NextWorld(c, cfg, w, cmd))) <==> CarefulCmd(c, w, cmd)
  {
    hide *;
    var again := PushesAgain(c, w, cmd);
    if again {
      PushedAgain(c, cfg, w, cmd);
    } else if CarefulCmd(c, w, cmd) {
      CarefulIsGuarded(c, w, cmd);
      RedisQueueRefines(Guarded, c, cfg, w, cmd);
      ReachesByKeepsExactly(Abstract(c, w), Abstract(c, NextWorld(c, cfg, w, cmd)), HandedBy(c, w, cmd), RedrivenBy(c, w, cmd));
    } else {
      CarelessIsOneTooMany(c, cfg, w, cmd);
    }
  }

  predicate PushesAgain(c: Codec, w: World, cmd: Cmd) { cmd.PushCmd? && cmd.m.id in w.pushed }

  lemma CarefulIsGuarded(c: Codec, w: World, cmd: Cmd)
    requires Permitted(Any, c, w, cmd) && CarefulCmd(c, w, cmd) && !PushesAgain(c, w, cmd)
    ensures Permitted(Guarded, c, w, cmd)
  {
    hide Owns, OwnedEntry, HandedMessage;
  }

  /** Pushing an id again adds a copy, unless the sorted set holds the very message. */
  lemma PushedAgain(c: Codec, cfg: Config, w: World, cmd: Cmd)
    requires Valid(c, w) && ExactlyOnePlace(Abstract(c, w)) && PushesAgain(c, w, cmd)
    ensures ExactlyOnePlace(Abstract(c, NextWorld(c, cfg, w, cmd))) <==> CarefulCmd(c, w, cmd)
  {
    var m, wait := cmd.m, cmd.m.availableAt > cmd.now;
    var raw := c.showMessage(m);
    assert NextWorld(c, cfg, w, cmd) == w.(s := Store(c, w.s, m, wait)) by { SamePushed(c, cfg, w, cmd); }
    assert Faithful(c);
    assert Read(c, raw) == m;
    hide Valid, Abstract, ExactlyOnePlace, Zadd;
    if !wait {
      GainPending(c, w, raw);
      OneTooMany(Abstract(c, w), Ready(m));
    } else {
      var u := w.(s := w.s.(delayed := Remove(w.s.delayed, raw)));
      ZaddMeans(w.s.delayed, raw, m.availableAt);
      GainDelayed(c, u, (raw, m.availableAt));
      if Has(w.s.delayed, raw) {
        LoseDelayed(c, w, raw);
      } else {
        assert u == w by { NothingRemoved(w.s.delayed, raw); }
        OneTooMany(Abstract(c, w), Ready(m));
      }
    }
  }

  lemma SamePushed(c: Codec, cfg: Config, w: World, cmd: Cmd)
    requires PushesAgain(c, w, cmd)
    ensures NextWorld(c, cfg, w, cmd) == w.(s := Store(c, w.s, cmd.m, cmd.m.availableAt > cmd.now))
  {
    assert w.pushed + {cmd.m.id} == w.pushed;
    hide Store;
  }

  lemma ZaddMeans(z: ZSet, raw: string, at: int)
    ensures Zadd(z, raw, at) == InsertInOrder(Remove(z, raw), (raw, at))
  {}

  lemma NothingRemoved(z: ZSet, raw: string)
    ensures !Has(z, raw) ==> Remove(z, raw) == z
  {}

  lemma CarelessIsOneTooMany(c: Codec, cfg: Config, w: World, cmd: Cmd)
    requires Valid(c, w) && Permitted(Any, c, w, cmd) && ExactlyOnePlace(Abstract(c, w))
    requires !CarefulCmd(c, w, cmd) && !PushesAgain(c, w, cmd)
    ensures !ExactlyOnePlace(Abstract(c, NextWorld(c, cfg, w, cmd)))
  {
    assert cmd.DeadLetterCmd? && (cmd.owner.Some? ==> '|' !in cmd.owner.value);
    hide *;
    DeadLetterTrims(c, cfg, w, cmd.entry, cmd.owner);
    var d := Buried(c, w, cmd.entry, cmd.owner);
    EvictionsExactlyIff(c, d, |Ltrim(d.s.dead, cfg.maxDead)|);
    BuriedCarelessly(c, w, cmd);
  }

  /** Recorded without the lease, or under another job's: the entry is a slot too many. */
  lemma BuriedCarelessly(c: Codec, w: World, cmd: Cmd)
    requires Valid(c, w) && ExactlyOnePlace(Abstract(c, w)) && cmd.DeadLetterCmd? && !CarefulCmd(c, w, cmd)
    requires cmd.owner.Some? ==> '|' !in cmd.owner.value
    ensures !ExactlyOnePlace(Abstract(c, Buried(c, w, cmd.entry, cmd.owner)))
  {
    if cmd.owner.Some? && Owns(w.s, cmd.owner.value) {
      assert HandedMessage(c, OwnedEntry(w.s, cmd.owner.value)).id != cmd.entry.message.id;
      hide *;
      BuriedUnderAnother(c, w, cmd.entry, cmd.owner.value);
    } else {
      hide *;
      UnownedBuried(c, w, cmd.entry, cmd.owner);
      AddedIsTooMany(c, w, cmd.entry);
    }
  }

  lemma UnownedBuried(c: Codec, w: World, entry: DeadEntry, owner: Option<Token>)
    requires Valid(c, w) && (owner.Some? ==> '|' !in owner.value && !Owns(w.s, owner.value))
    ensures Buried(c, w, entry, owner) == DeadAdded(c, w, entry)
  {
    assert LeasesOk(c, w);
    hide *;
    if owner.Some? { OwnedByToken(c, w, owner.value); }
    BuriedIs(c, w, entry, owner, None);
  }

  lemma BuriedIs(c: Codec, w: World, entry: DeadEntry, owner: Option<Token>, lost: Option<string>)
    requires owner.Some? && lost.None? ==> ReleaseScript(w.s, Prefix(owner.value)) == (w.s, None)
    requires lost.Some? ==> owner.Some? && ReleaseScript(w.s, Prefix(owner.value)) == (Released(w, lost.value).s, lost)
    requires lost.Some? ==> HandedMessage(c, lost.value).id != entry.message.id
    ensures Buried(c, w, entry, owner) ==
      DeadAdded(c, if lost.None? then w else Taken(c, w, lost.value), entry)
  {
    hide ReleaseScript, HandedMessage, Lrem, Prefix;
  }

  function Taken(c: Codec, w: World, e: string): World {
    var u := Released(w, e);
    u.(gone := u.gone + multiset{Gone(HandedMessage(c, e).id, Lost)})
  }

  function DeadAdded(c: Codec, w: World, entry: DeadEntry): World {
    w.(s := w.s.(dead := [c.showDead(entry)] + w.s.dead))
  }

  lemma BuriedUnderAnother(c: Codec, w: World, entry: DeadEntry, token: Token)
    requires Valid(c, w) && ExactlyOnePlace(Abstract(c, w)) && '|' !in token && Owns(w.s, token)
    requires HandedMessage(c, OwnedEntry(w.s, token)).id != entry.message.id
    ensures !ExactlyOnePlace(Abstract(c, Buried(c, w, entry, Some(token))))
  {
    assert LeasesOk(c, w);
    hide *;
    var e := OwnedEntry(w.s, token);
    OwnedByToken(c, w, token);
    BuriedIs(c, w, entry, Some(token), Some(e));
    TakenKeeps(c, w, e);
    AddedIsTooMany(c, Taken(c, w, e), entry);
  }

  lemma TakenKeeps(c: Codec, w: World, e: string)
    requires e in w.s.processing && LeasesOk(c, w) && ExactlyOnePlace(Abstract(c, w))
    ensures ExactlyOnePlace(Abstract(c, Taken(c, w, e)))
  {
    var x := Gone(HandedMessage(c, e).id, Lost);
    assert SlotId(LeaseSlot(c, w.s.leases, e)) == SlotId(x);
    assert Taken(c, w, e) == Released(w, e).(gone := Released(w, e).gone + multiset{x}) by { hide HandedMessage, Released; }
    hide *;
    LoseLease(c, w, e);
    GainGone(c, Released(w, e), x);
    PlusExactlyIff(Abstract(c, Released(w, e)), LeaseSlot(c, w.s.leases, e), x);
  }

  lemma AddedIsTooMany(c: Codec, w: World, entry: DeadEntry)
    requires ExactlyOnePlace(Abstract(c, w))
    ensures !ExactlyOnePlace(Abstract(c, DeadAdded(c, w, entry)))
  {
    var raw := c.showDead(entry);
    assert DeadAdded(c, w, entry) == w.(s := w.s.(dead := [raw] + w.s.dead));
    hide *;
    GainDead(c, w, raw);
    OneTooMany(Abstract(c, w), Dead(ReadDead(c, raw)));
  }

  ghost predicate ExactlyThroughout(c: Codec, cfg: Config, w: World, cmds: seq<Cmd>)
    decreases |cmds|
  {
    ExactlyOnePlace(Abstract(c, w)) && (cmds == [] || ExactlyThroughout(c, cfg, NextWorld(c, cfg, w, cmds[0]), cmds[1..]))
  }

  predicate CarefulThroughout(c: Codec, cfg: Config, w: World, cmds: seq<Cmd>)
    decreases |cmds|
  {
    cmds == [] || (CarefulCmd(c, w, cmds[0]) && CarefulThroughout(c, cfg, NextWorld(c, cfg, w, cmds[0]), cmds[1..]))
  }

  /** Over any interleaving, with crashes: every job is in exactly one place at every moment if and
      only if every command is careful. */
  lemma {:induction false} RunKeepsExactlyIff(c: Codec, cfg: Config, w: World, cmds: seq<Cmd>)
    requires Valid(c, w) && RunPermitted(Any, c, cfg, w, cmds) && ExactlyOnePlace(Abstract(c, w))
    ensures ExactlyThroughout(c, cfg, w, cmds) <==> CarefulThroughout(c, cfg, w, cmds)
    decreases |cmds|
  {
    hide Abstract, ExactlyOnePlace, NextWorld, Permitted, Valid, CarefulCmd, HandedBy, RedrivenBy, ReachesBy;
    if cmds != [] {
      var v := NextWorld(c, cfg, w, cmds[0]);
      CommandKeepsExactlyIff(c, cfg, w, cmds[0]);
      RedisQueueRefines(Any, c, cfg, w, cmds[0]);
      if ExactlyOnePlace(Abstract(c, v)) { RunKeepsExactlyIff(c, cfg, v, cmds[1..]); }
    }
  }

  // ---- What is lost ----

  /** The job a crash takes with it: the one the operation held. */
  function LostBy(c: Codec, w: World, cmd: Cmd): multiset<string> {
    if cmd.CrashOp? && Has(w.hands, cmd.op) then multiset{SlotId(HandSlot(c, Get(w.hands, cmd.op)))} else multiset{}
  }

  function LostInRun(c: Codec, cfg: Config, w: World, cmds: seq<Cmd>, id: string): nat
    decreases |cmds|
  {
    if cmds == [] then 0 else LostBy(c, w, cmds[0])[id] + LostInRun(c, cfg, NextWorld(c, cfg, w, cmds[0]), cmds[1..], id)
  }

  lemma {:induction false} EvictionsLoseNothing(c: Codec, w: World, n: nat, id: string)
    requires n <= |w.s.dead|
    ensures EvictTo(c, w, n).gone[Gone(id, Lost)] == w.gone[Gone(id, Lost)]
    decreases |w.s.dead|
  {
    hide ReadDead;
    if |w.s.dead| != n { EvictionsLoseNothing(c, EvictLast(c, w), n, id); }
  }

  lemma CommandLoses(mode: Mode, c: Codec, cfg: Config, w: World, cmd: Cmd, id: string)
    requires Valid(c, w) && !mode.Any? && Permitted(mode, c, w, cmd)
    ensures NextWorld(c, cfg, w, cmd).gone[Gone(id, Lost)] == w.gone[Gone(id, Lost)] + LostBy(c, w, cmd)[id]
  {
    match cmd
    case DeadLetterCmd(entry, owner) =>
      DeadLetterTrims(c, cfg, w, entry, owner);
      BuriedLosesNothing(mode, c, w, entry, owner);
      hide *;
      var d := Buried(c, w, entry, owner);
      EvictionsLoseNothing(c, d, |Ltrim(d.s.dead, cfg.maxDead)|, id);
      NotACrash(c, w, cmd);
    case TrimCmd =>
      hide Valid;
      EvictionsLoseNothing(c, w, |Ltrim(w.s.dead, cfg.maxDead)|, id);
    case PurgeCmd =>
      hide Valid;
      EvictionsLoseNothing(c, w, 0, id);
    case _ =>
      hide Valid, Permitted, PromoteScript, ReapScript, DrainScript, ReleaseScript, ExtendScript, PopScript, Routed, Store, HandedMessage, TakeDeadAt;
      OtherCommandLoses(c, cfg, w, cmd, id);
  }

  lemma NotACrash(c: Codec, w: World, cmd: Cmd)
    requires !cmd.CrashOp?
    ensures LostBy(c, w, cmd) == multiset{}
  {}

  lemma OtherCommandLoses(c: Codec, cfg: Config, w: World, cmd: Cmd, id: string)
    requires !cmd.DeadLetterCmd? && !cmd.TrimCmd? && !cmd.PurgeCmd?
    ensures NextWorld(c, cfg, w, cmd).gone[Gone(id, Lost)] == w.gone[Gone(id, Lost)] + LostBy(c, w, cmd)[id]
  {
    hide PromoteScript, ReapScript, DrainScript, ReleaseScript, ExtendScript, PopScript, Routed, Store, HandedMessage, ReadDead;
  }

  lemma BuriedGone(c: Codec, w: World, entry: DeadEntry, owner: Option<Token>)
    ensures owner.None? || ReleaseScript(w.s, Prefix(owner.value)).1.None? ==> Buried(c, w, entry, owner).gone == w.gone
    ensures owner.Some? && ReleaseScript(w.s, Prefix(owner.value)).1.Some? ==>
      (HandedMessage(c, ReleaseScript(w.s, Prefix(owner.value)).1.value).id == entry.message.id ==> Buried(c, w, entry, owner).gone == w.gone)
  {
    hide HandedMessage, ReleaseScript, Prefix;
  }

  lemma OwnerBuriesItsJob(mode: Mode, c: Codec, w: World, entry: DeadEntry, owner: Option<Token>)
    requires !mode.Any? && Permitted(mode, c, w, DeadLetterCmd(entry, owner))
    ensures owner.Some? ==> '|' !in owner.value
    ensures owner.Some? && Owns(w.s, owner.value) ==> HandedMessage(c, OwnedEntry(w.s, owner.value)).id == entry.message.id
  {
    hide HandedMessage, Owns, OwnedEntry, AllFailed;
  }

  lemma LeasesAreOk(c: Codec, w: World)
    requires Valid(c, w)
    ensures LeasesOk(c, w)
  {}

  lemma BuriedLosesNothing(mode: Mode, c: Codec, w: World, entry: DeadEntry, owner: Option<Token>)
    requires Valid(c, w) && !mode.Any? && Permitted(mode, c, w, DeadLetterCmd(entry, owner))
    ensures Buried(c, w, entry, owner).gone == w.gone
  {
    hide *;
    LeasesAreOk(c, w);
    OwnerBuriesItsJob(mode, c, w, entry, owner);
    BuriedGone(c, w, entry, owner);
    if owner.Some? { OwnedByToken(c, w, owner.value); }
  }

  /** Over any interleaving of callers that dead-letter the job their lease is for, a job is lost
      once for each crash of an operation that held it, and never otherwise. */
  lemma {:induction false} OnlyCrashesLose(mode: Mode, c: Codec, cfg: Config, w: World, cmds: seq<Cmd>, id: string)
    requires Valid(c, w) && !mode.Any? && RunPermitted(mode, c, cfg, w, cmds)
    ensures RunOf(c, cfg, w, cmds).gone[Gone(id, Lost)] == w.gone[Gone(id, Lost)] + LostInRun(c, cfg, w, cmds, id)
    decreases |cmds|
  {
    hide Abstract, NextWorld, Permitted, Valid, LostBy, HandedBy, RedrivenBy, ReachesBy;
    if cmds != [] {
      CommandLoses(mode, c, cfg, w, cmds[0], id);
      RedisQueueRefines(mode, c, cfg, w, cmds[0]);
      OnlyCrashesLose(mode, c, cfg, NextWorld(c, cfg, w, cmds[0]), cmds[1..], id);
    }
  }

  // ---- The cap of the dead list ----

  /** A dead-lettering leaves the list within the cap exactly when the cap is positive; with a cap
      of 0 the list grows by one each time. */
  lemma DeadLetterIsCapped(c: Codec, cfg: Config, w: World, entry: DeadEntry, owner: Option<Token>)
    ensures var v := NextWorld(c, cfg, w, DeadLetterCmd(entry, owner));
      && (|v.s.dead| <= cfg.maxDead <==> cfg.maxDead > 0)
      && (cfg.maxDead == 0 ==> |v.s.dead| == |w.s.dead| + 1)
  {
    DeadLetterTrims(c, cfg, w, entry, owner);
    BuriedAddsOne(c, w, entry, owner);
    hide *;
    var d := Buried(c, w, entry, owner);
    EvictToData(c, d, |Ltrim(d.s.dead, cfg.maxDead)|);
    TrimLength(d.s.dead, cfg.maxDead);
  }

  lemma TrimLength(list: seq<string>, max: nat)
    ensures |Ltrim(list, max)| == if max == 0 || |list| <= max then |list| else max
  {}

  lemma BuriedAddsOne(c: Codec, w: World, entry: DeadEntry, owner: Option<Token>)
    ensures |Buried(c, w, entry, owner).s.dead| == |w.s.dead| + 1
  {
    hide HandedMessage, Lrem, ScanPrefix;
  }

  /** How far the list may be past the cap: one entry for each drain since the last trim. */
  function Overhang(cmds: seq<Cmd>, k: nat): nat
    decreases |cmds|
  {
    if cmds == [] then k
    else
      match cmds[0]
      case DrainCmd(_, _) => Overhang(cmds[1..], k + 1)
      case TrimCmd => Overhang(cmds[1..], 0)
      case DeadLetterCmd(_, _) => Overhang(cmds[1..], 0)
      case PurgeCmd => Overhang(cmds[1..], 0)
      case _ => Overhang(cmds[1..], k)
  }

  lemma CommandOverhangs(c: Codec, cfg: Config, w: World, cmd: Cmd, k: nat)
    requires cfg.maxDead > 0 && |w.s.dead| <= cfg.maxDead + k
    ensures |NextWorld(c, cfg, w, cmd).s.dead| <= cfg.maxDead + Overhang([cmd], k)
  {
    assert [cmd][1..] == [];
    match cmd
    case DeadLetterCmd(entry, owner) => DeadLetterIsCapped(c, cfg, w, entry, owner);
    case TrimCmd => EvictToData(c, w, |Ltrim(w.s.dead, cfg.maxDead)|);
    case PurgeCmd => EvictToData(c, w, 0);
    case ReapCmd(now) => ReapKeepsDead(w.s, w.s.processing, now);
    case PromoteCmd(now, limit) => PromoteKeepsDead(w.s, ZrangeDue(w.s.delayed, now, limit));
    case _ =>
      hide Lrem, ScanPrefix, Routed, HandedMessage, ReadDead, Zadd;
  }

  lemma {:induction false} ReapKeepsDead(s: Server, entries: seq<string>, now: int)
    ensures ReapFrom(s, entries, now).dead == s.dead
    decreases |entries|
  {
    hide Lrem;
    if entries != [] { ReapKeepsDead(ReapOne(s, entries[0], now), entries[1..], now); }
  }

  lemma {:induction false} PromoteKeepsDead(s: Server, ready: seq<string>)
    ensures PromoteFrom(s, ready).dead == s.dead
    decreases |ready|
  {
    if ready != [] { PromoteKeepsDead(PromoteOne(s, ready[0]), ready[1..]); }
  }

  lemma OverhangStep(cmds: seq<Cmd>, k: nat)
    requires cmds != []
    ensures Overhang(cmds, k) == Overhang(cmds[1..], Overhang([cmds[0]], k))
  {
    assert [cmds[0]][1..] == [];
  }

  /** Over any interleaving: with a positive cap the dead list is past it by at most the drains since
      the last trim, so it is within the cap after every dead-lettering and every drained batch. */
  lemma {:induction false} DeadListIsCapped(c: Codec, cfg: Config, w: World, cmds: seq<Cmd>, k: nat)
    requires cfg.maxDead > 0 && |w.s.dead| <= cfg.maxDead + k
    ensures |RunOf(c, cfg, w, cmds).s.dead| <= cfg.maxDead + Overhang(cmds, k)
    decreases |cmds|
  {
    hide NextWorld, Overhang;
    if cmds == [] {
      assert Overhang([], k) == k by { NoOverhang(k); }
    } else {
      CommandOverhangs(c, cfg, w, cmds[0], k);
      OverhangStep(cmds, k);
      DeadListIsCapped(c, cfg, NextWorld(c, cfg, w, cmds[0]), cmds[1..], Overhang([cmds[0]], k));
    }
  }

  lemma NoOverhang(k: nat)
    ensures Overhang([], k) == k
  {}
}
