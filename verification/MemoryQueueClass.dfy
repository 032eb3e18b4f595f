/** The `MemoryQueue` class: message objects are mutable and shared by reference, so the
    queue's lists hold objects and each method rewrites their fields in place. */
module MemoryQueueClass {
  import opened Options
  import opened QueueTypes
  import opened JsMap
  import opened MemoryQueueModel

  /** A message object. Its fields are rewritten by the queue while it is stored. */
  class QueueMessage {
    var m: Message

    constructor (m: Message)
      ensures this.m == m
    {
      this.m := m;
    }
  }

  datatype FlightRef = FlightRef(message: QueueMessage, leaseToken: Token, expiresAt: int)

  datatype DeadRef = DeadRef(message: QueueMessage, error: string, failures: seq<Failure>, deadLetteredAt: int)

  function FlightCells(es: seq<(string, FlightRef)>): seq<QueueMessage> {
    seq(|es|, i requires 0 <= i < |es| => es[i].1.message)
  }

  function DeadCells(es: seq<DeadRef>): seq<QueueMessage> {
    seq(|es|, i requires 0 <= i < |es| => es[i].message)
  }

  ghost predicate NoDuplicates(cs: seq<QueueMessage>) {
    forall i, j :: 0 <= i < j < |cs| ==> cs[i] != cs[j]
  }

  ghost function SetOf(cs: seq<QueueMessage>): set<QueueMessage> {
    set c | c in cs
  }

  lemma SetWithout(cs: seq<QueueMessage>, i: nat)
    requires NoDuplicates(cs) && i < |cs|
    ensures NoDuplicates(cs[..i] + cs[i + 1..])
    ensures SetOf(cs[..i] + cs[i + 1..]) == SetOf(cs) - {cs[i]} && cs[i] in SetOf(cs)
  {
    var r := cs[..i] + cs[i + 1..];
    forall c | c in SetOf(cs) - {cs[i]} ensures c in SetOf(r) {
      var j :| 0 <= j < |cs| && cs[j] == c;
      assert r[if j < i then j else j - 1] == c;
    }
    forall c | c in SetOf(r) ensures c in SetOf(cs) - {cs[i]} {
      var j :| 0 <= j < |r| && r[j] == c;
      assert c == cs[if j < i then j else j + 1];
    }
  }

  lemma SetWith(cs: seq<QueueMessage>, c: QueueMessage)
    requires NoDuplicates(cs) && c !in SetOf(cs)
    ensures NoDuplicates(cs + [c]) && SetOf(cs + [c]) == SetOf(cs) + {c}
  {}

  lemma SetFrom(cs: seq<QueueMessage>, n: nat)
    requires NoDuplicates(cs) && n <= |cs|
    ensures NoDuplicates(cs[n..]) && SetOf(cs[n..]) <= SetOf(cs)
  {}

  ghost function MessageView(cs: seq<QueueMessage>): seq<Message>
    reads cs
  {
    seq(|cs|, i requires 0 <= i < |cs| reads cs => cs[i].m)
  }

  ghost function FlightView(e: FlightRef): InFlight
    reads e.message
  {
    InFlight(e.message.m, e.leaseToken, e.expiresAt)
  }

  ghost function InFlightView(es: seq<(string, FlightRef)>): seq<(string, InFlight)>
    reads FlightCells(es)
  {
    seq(|es|, i requires 0 <= i < |es| reads FlightCells(es) =>
      assert es[i].1.message == FlightCells(es)[i]; (es[i].0, FlightView(es[i].1)))
  }

  ghost function DeadEntryView(e: DeadRef): DeadEntry
    reads e.message
  {
    DeadEntry(e.message.m, e.error, e.failures, e.deadLetteredAt)
  }

  ghost function DeadView(es: seq<DeadRef>): (r: seq<DeadEntry>)
    reads DeadCells(es)
    ensures |r| == |es|
  {
    seq(|es|, i requires 0 <= i < |es| reads DeadCells(es) =>
      assert es[i].message == DeadCells(es)[i]; DeadEntryView(es[i]))
  }

  lemma {:induction false} SameKeysSameFind<V, W>(a: seq<(string, V)>, b: seq<(string, W)>, k: string)
    requires |a| == |b| && forall i :: 0 <= i < |a| ==> a[i].0 == b[i].0
    ensures Find(a, k) == Find(b, k)
  {
    if a != [] && a[0].0 != k {
      SameKeysSameFind(a[1..], b[1..], k);
    }
  }

  lemma ViewsOfRemoval(es: seq<(string, FlightRef)>, id: string)
    ensures Has(es, id) == Has(InFlightView(es), id)
    ensures Has(es, id) ==> FlightView(Get(es, id)) == Get(InFlightView(es), id)
    ensures InFlightView(Remove(es, id)) == Remove(InFlightView(es), id)
  {
    SameKeysSameFind(es, InFlightView(es), id);
  }

  lemma CellsOfRemoval(es: seq<(string, FlightRef)>, id: string)
    requires NoDuplicates(FlightCells(es)) && Has(es, id)
    ensures NoDuplicates(FlightCells(Remove(es, id)))
    ensures SetOf(FlightCells(Remove(es, id))) == SetOf(FlightCells(es)) - {Get(es, id).message}
    ensures Get(es, id).message in SetOf(FlightCells(es))
  {
    var i := Find(es, id);
    SetWithout(FlightCells(es), i);
    assert FlightCells(Remove(es, id)) == FlightCells(es)[..i] + FlightCells(es)[i + 1..];
  }

  lemma {:induction false} FirstDueAt(ms: seq<Message>, now: int, i: nat)
    requires i <= |ms| && (i < |ms| ==> ms[i].availableAt <= now) && forall j :: 0 <= j < i ==> ms[j].availableAt > now
    ensures FirstDue(ms, now) == i
  {}

  lemma CellsDiffer(es: seq<(string, FlightRef)>, id: string, other: string)
    requires NoDuplicates(FlightCells(es)) && Has(es, id) && Has(es, other) && id != other
    ensures Get(es, id).message != Get(es, other).message
  {
    var i, j, s := Find(es, id), Find(es, other), FlightCells(es);
    assert s[i] == Get(es, id).message && s[j] == Get(es, other).message;
  }

  lemma {:induction false} FindDeadAt(es: seq<DeadEntry>, id: string, i: nat)
    requires i <= |es| && (i < |es| ==> es[i].message.id == id) && forall j :: 0 <= j < i ==> es[j].message.id != id
    ensures FindDead(es, id) == i
  {}

  lemma ViewsOfPut(es: seq<(string, FlightRef)>, id: string, e: FlightRef)
    ensures InFlightView(Put(es, id, e)) == Put(InFlightView(es), id, FlightView(e))
  {
    SameKeysSameFind(es, InFlightView(es), id);
  }

  /** Entries still to be visited survive the removal of the one being visited. */
  lemma Survivors(flight: seq<(string, FlightRef)>, es: seq<(string, FlightRef)>, i: nat)
    requires UniqueKeys(flight) && NoDuplicates(FlightCells(flight)) && UniqueKeys(es) && i < |es|
    requires forall k :: i <= k < |es| ==> Has(flight, es[k].0) && Get(flight, es[k].0) == es[k].1
    ensures forall k :: i < k < |es| ==>
      && Has(Remove(flight, es[i].0), es[k].0) && Get(Remove(flight, es[i].0), es[k].0) == es[k].1
      && es[k].1.message != es[i].1.message
  {
    forall k | i < k < |es|
      ensures Has(Remove(flight, es[i].0), es[k].0) && Get(Remove(flight, es[i].0), es[k].0) == es[k].1
      ensures es[k].1.message != es[i].1.message
    {
      RemoveKeepsOthers(flight, es[i].0, es[k].0);
      CellsDiffer(flight, es[i].0, es[k].0);
    }
  }

  lemma CellsOfPut(es: seq<(string, FlightRef)>, id: string, e: FlightRef)
    requires NoDuplicates(FlightCells(es)) && e.message !in SetOf(FlightCells(es))
    ensures NoDuplicates(FlightCells(Put(es, id, e)))
    ensures SetOf(FlightCells(Put(es, id, e))) <= SetOf(FlightCells(es)) + {e.message}
  {
    var i, s := Find(es, id), FlightCells(es);
    if i < |es| {
      assert FlightCells(Put(es, id, e)) == s[i := e.message];
    } else {
      assert FlightCells(Put(es, id, e)) == s + [e.message];
    }
  }

  /** A lease retimed in place holds the same object. */
  lemma CellsOfRetime(es: seq<(string, FlightRef)>, id: string, e: FlightRef)
    requires Has(es, id) && e.message == Get(es, id).message
    ensures FlightCells(Put(es, id, e)) == FlightCells(es)
  {}

  lemma ViewsOfDeadPush(ds: seq<DeadRef>, entry: DeadRef)
    ensures DeadCells(ds + [entry]) == DeadCells(ds) + [entry.message]
    ensures DeadView(ds + [entry]) == DeadView(ds) + [DeadEntryView(entry)]
  {}

  lemma ViewsOfDeadFrom(ds: seq<DeadRef>, n: nat)
    requires n <= |ds|
    ensures DeadCells(ds[n..]) == DeadCells(ds)[n..] && DeadView(ds[n..]) == DeadView(ds)[n..]
  {}

  lemma ViewsOfDeadRemoval(ds: seq<DeadRef>, i: nat)
    requires i < |ds|
    ensures |DeadCells(ds)| == |ds|
    ensures DeadCells(ds[..i] + ds[i + 1..]) == DeadCells(ds)[..i] + DeadCells(ds)[i + 1..]
    ensures DeadView(ds[..i] + ds[i + 1..]) == DeadView(ds)[..i] + DeadView(ds)[i + 1..]
    ensures DeadCells(ds)[i] == ds[i].message && DeadView(ds)[i] == DeadEntryView(ds[i])
  {}

  lemma ViewOfPush(cs: seq<QueueMessage>, c: QueueMessage)
    ensures MessageView(cs + [c]) == MessageView(cs) + [c.m]
  {}

  class MemoryQueue {
    var messages: seq<QueueMessage>
    var inFlight: seq<(string, FlightRef)>
    var dead: seq<DeadRef>
    var completed: seq<string>
    const cfg: Config

    /** Every message object the queue holds. */
    ghost function Cells(): set<QueueMessage>
      reads this
    {
      SetOf(messages) + SetOf(FlightCells(inFlight)) + SetOf(DeadCells(dead))
    }

    /** No object is stored twice. */
    ghost predicate Valid()
      reads this
    {
      && UniqueKeys(inFlight)
      && NoDuplicates(messages) && NoDuplicates(FlightCells(inFlight)) && NoDuplicates(DeadCells(dead))
      && SetOf(messages) !! SetOf(FlightCells(inFlight)) !! SetOf(DeadCells(dead))
    }

    ghost function View(): Mem
      reads this, Cells()
    {
      Mem(MessageView(messages), InFlightView(inFlight), DeadView(dead), completed)
    }

    constructor (cfg: Config)
      ensures Valid() && View() == EMPTY && this.cfg == cfg && Cells() == {}
    {
      messages, inFlight, dead, completed := [], [], [], [];
      this.cfg := cfg;
    }

    /** The queue takes over the caller's object. */
    method Push(message: QueueMessage)
      requires Valid() && message !in Cells()
      modifies this`messages
      ensures Valid() && Cells() == old(Cells()) + {message}
      ensures View() == old(View()).(messages := old(View()).messages + [message.m])
    {
      hide MessageView, InFlightView, DeadView, DeadCells, FlightCells, SetOf, NoDuplicates, UniqueKeys;
      SetWith(messages, message);
      ViewOfPush(messages, message);
      messages := messages + [message];
    }

    /** The lease check, then the release every settling call starts with. */
    method Release(id: string, lease: Option<Token>) returns (entry: Option<FlightRef>)
      requires Valid()
      modifies this`inFlight
      ensures Valid() && Cells() <= old(Cells())
      ensures entry.Some? == Holds(old(View()), id, lease)
      ensures entry.None? ==> inFlight == old(inFlight) && View() == old(View())
      ensures entry.Some? ==>
        && old(Has(inFlight, id)) && entry.value == old(Get(inFlight, id)) && inFlight == old(Remove(inFlight, id))
        && View() == old(View()).(inFlight := Remove(old(View()).inFlight, id))
        && FlightView(entry.value) == Get(old(View()).inFlight, id)
        && entry.value.message in old(Cells()) && entry.value.message !in Cells()
    {
      ViewsOfRemoval(inFlight, id);
      hide InFlightView, MessageView, DeadView, UniqueKeys, NoDuplicates, SetOf;
      if !Has(inFlight, id) { return None; }
      var e := Get(inFlight, id);
      if lease.Some? && e.leaseToken != lease.value { return None; }
      CellsOfRemoval(inFlight, id);
      RemoveKeepsUnique(inFlight, id);
      inFlight := Remove(inFlight, id);
      return Some(e);
    }

    /** Record a completion, forgetting the oldest past the cap. */
    method Complete(id: string)
      requires Valid()
      modifies this`completed
      ensures Valid() && Cells() == old(Cells())
      ensures View() == old(View()).(completed := KeepLast(old(View()).completed + [id], cfg.maxCompleted))
    {
      hide MessageView, InFlightView, DeadView, SetOf, NoDuplicates, UniqueKeys, FlightCells, DeadCells;
      completed := completed + [id];
      if |completed| > cfg.maxCompleted {
        completed := completed[|completed| - cfg.maxCompleted..];
      }
    }

    method Ack(id: string, lease: Option<Token>)
      requires Valid()
      modifies this
      ensures Valid() && Cells() <= old(Cells()) && View() == AckOf(old(View()), cfg, id, lease)
    {
      hide Valid, Cells, View, Holds, KeepLast, Has, Get, Remove, FlightView;
      var entry := Release(id, lease);
      if entry.None? { return; }
      Complete(id);
    }

    /** Rewriting an object outside the queue leaves the queue alone. */
    method Rewrite(message: QueueMessage, m: Message)
      requires Valid() && message !in Cells()
      modifies message
      ensures message.m == m && Valid() && Cells() == old(Cells()) && View() == old(View())
    {
      message.m := m;
    }

    /** Making a message object leaves the queue alone. */
    method Copy(m: Message) returns (message: QueueMessage)
      requires Valid()
      ensures fresh(message) && message.m == m && Valid() && Cells() == old(Cells()) && View() == old(View())
      ensures message !in Cells()
    {
      message := new QueueMessage(m);
    }

    /** Rewrite an object outside the queue and append it. */
    method Enqueue(message: QueueMessage, m: Message)
      requires Valid() && message !in Cells()
      modifies this`messages, message
      ensures Valid() && Cells() == old(Cells()) + {message}
      ensures View() == old(View()).(messages := old(View()).messages + [m])
    {
      hide Valid, Cells, View;
      Rewrite(message, m);
      Push(message);
    }

    method Nack(id: string, at: int, lease: Option<Token>, failure: Option<Failure>)
      requires Valid()
      modifies this, Cells()
      ensures Valid() && Cells() <= old(Cells()) && View() == NackOf(old(View()), id, at, lease, failure)
    {
      var entry := Release(id, lease);
      if entry.None? { return; }
      var message := entry.value.message;
      Enqueue(message, Retried(message.m, at, failure));
    }

    method Extend(id: string, held: Token, expiry: int) returns (kept: bool)
      requires Valid()
      modifies this
      ensures Valid() && Cells() == old(Cells()) && View() == ExtendOf(old(View()), id, held, expiry)
      ensures kept == Holds(old(View()), id, Some(held))
    {
      ViewsOfRemoval(inFlight, id);
      hide MessageView, InFlightView, DeadView, DeadCells, FlightCells, SetOf, NoDuplicates, UniqueKeys, Find, Remove;
      if !Has(inFlight, id) || Get(inFlight, id).leaseToken != held { return false; }
      var e := Get(inFlight, id).(expiresAt := expiry);
      PutKeepsUnique(inFlight, id, e);
      ViewsOfPut(inFlight, id, e);
      CellsOfRetime(inFlight, id, e);
      hide Put;
      inFlight := Put(inFlight, id, e);
      return true;
    }

    /** Append a dead entry and evict the oldest ones past the cap. */
    method PushDead(entry: DeadRef)
      requires Valid() && entry.message !in Cells()
      modifies this`dead
      ensures Valid() && Cells() <= old(Cells()) + {entry.message}
      ensures View() == MemoryQueueModel.PushDead(old(View()), cfg, DeadEntryView(entry))
    {
      hide MessageView, InFlightView, DeadView, DeadCells, FlightCells, SetOf, NoDuplicates, UniqueKeys, DeadEntryView;
      SetWith(DeadCells(dead), entry.message);
      ViewsOfDeadPush(dead, entry);
      dead := dead + [entry];
      if |dead| > cfg.maxDead {
        var n := |dead| - cfg.maxDead;
        CellCount(dead);
        SetFrom(DeadCells(dead), n);
        ViewsOfDeadFrom(dead, n);
        dead := dead[n..];
      }
    }

    lemma CellCount(ds: seq<DeadRef>)
      ensures |DeadCells(ds)| == |ds|
    {}

    method DeadLetter(entry: DeadRef, lease: Option<Token>)
      requires Valid() && entry.message !in Cells()
      modifies this
      ensures Valid() && Cells() <= old(Cells()) + {entry.message}
      ensures View() == DeadLetterOf(old(View()), cfg, DeadEntryView(entry), lease)
    {
      var released := Release(entry.message.m.id, lease);
      assert released.None? ==> View() == old(View());
      PushDead(entry);
    }

    lemma AnyLease(id: string)
      requires Valid()
      ensures Holds(View(), id, None) == Has(inFlight, id)
    {
      ViewsOfRemoval(inFlight, id);
    }

    /** One expired lease: its object leaves `inFlight`, is rewritten, and joins another list. */
    method ReclaimEntry(id: string, entry: FlightRef, now: int)
      requires Valid() && Has(inFlight, id) && Get(inFlight, id) == entry
      modifies this, entry.message
      ensures Valid() && Cells() <= old(Cells()) && inFlight == Remove(old(inFlight), id)
      ensures View() == ReclaimOne(old(View()), cfg, (id, old(FlightView(entry))), now)
    {
      hide Valid, Cells, View, Has, Get, Remove, Expired;
      AnyLease(id);
      var released := Release(id, None);
      var message := entry.message;
      Rewrite(message, Expired(message.m, cfg.expiryError, now));
      if message.m.attempt > message.m.maxRetries {
        PushDead(DeadRef(message, cfg.expiryError, message.m.failures, now));
      } else {
        Enqueue(message, message.m.(availableAt := now));
      }
    }

    /** The leases still to be visited are in flight, as they were when the visit began. */
    ghost predicate Awaits(es: seq<(string, FlightRef)>, views: seq<(string, InFlight)>, from: nat)
      reads this, FlightCells(es)
    {
      && UniqueKeys(es) && |views| == |es|
      && forall k :: from <= k < |es| ==>
           && Has(inFlight, es[k].0) && Get(inFlight, es[k].0) == es[k].1
           && FlightCells(es)[k] == es[k].1.message && views[k] == (es[k].0, FlightView(es[k].1))
    }

    method VisitLease(es: seq<(string, FlightRef)>, ghost views: seq<(string, InFlight)>, i: nat, now: int)
      requires Valid() && i < |es| && Awaits(es, views, i)
      modifies this, Cells()
      ensures Valid() && Cells() <= old(Cells()) && Awaits(es, views, i + 1)
      ensures View() ==
        if views[i].1.expiresAt > now then old(View()) else ReclaimOne(old(View()), cfg, views[i], now)
    {
      var (id, entry) := es[i];
      if entry.expiresAt <= now {
        CellsOfRemoval(inFlight, id);
        Survivors(inFlight, es, i);
        hide MessageView, InFlightView, DeadView, Remove, NoDuplicates;
        ReclaimEntry(id, entry, now);
      }
    }

    /** Visit the leases in order and reclaim the expired ones. */
    method ReclaimExpired(now: int)
      requires Valid()
      modifies this, Cells()
      ensures Valid() && Cells() <= old(Cells()) && View() == Reclaimed(old(View()), cfg, now)
    {
      var es := inFlight;
      ghost var views := InFlightView(es);
      forall k | 0 <= k < |es| ensures Find(es, es[k].0) == k { FoundAt(es, k); }
      hide MessageView, InFlightView, DeadView, Cells;
      var i := 0;
      while i < |es|
        invariant 0 <= i <= |es| && Valid() && Cells() <= old(Cells()) && Awaits(es, views, i)
        invariant ReclaimFrom(View(), cfg, views[i..], now) == Reclaimed(old(View()), cfg, now)
      {
        assert views[i..][0] == views[i] && views[i..][1..] == views[i + 1..];
        VisitLease(es, views, i, now);
        i := i + 1;
      }
    }

    method FindDue(now: int) returns (i: nat)
      requires Valid()
      ensures i == FirstDue(View().messages, now) && |View().messages| == |messages|
      ensures i < |messages| ==> View().messages[i] == messages[i].m
    {
      i := 0;
      while i < |messages| && messages[i].m.availableAt > now
        invariant 0 <= i <= |messages|
        invariant forall j :: 0 <= j < i ==> messages[j].m.availableAt > now
      {
        i := i + 1;
      }
      FirstDueAt(View().messages, now, i);
    }

    /** Deliver the first due message under a fresh lease. The worker gets a copy: nothing it
        writes to the returned object can reach the queue's own lease fields. */
    method Pop(reclaimAt: int, popAt: int, token: Token) returns (r: QueueMessage?)
      requires Valid()
      modifies this, Cells()
      ensures Valid() && Cells() <= old(Cells())
      ensures View() == TakeFirstDue(Reclaimed(old(View()), cfg, reclaimAt), cfg, popAt, token).0
      ensures (r == null) == TakeFirstDue(Reclaimed(old(View()), cfg, reclaimAt), cfg, popAt, token).1.None?
      ensures r != null ==> fresh(r) && Some(r.m) == TakeFirstDue(Reclaimed(old(View()), cfg, reclaimAt), cfg, popAt, token).1
    {
      hide MessageView, InFlightView, DeadView, Reclaimed;
      ReclaimExpired(reclaimAt);
      var i := FindDue(popAt);
      if i == |messages| { return null; }
      r := Take(i, popAt, token);
    }

    method Detach(i: nat) returns (message: QueueMessage)
      requires Valid() && i < |messages|
      modifies this`messages
      ensures Valid() && Cells() == old(Cells()) - {message} && message == old(messages[i]) && message in old(Cells())
      ensures View() == old(View()).(messages := old(View()).messages[..i] + old(View()).messages[i + 1..])
    {
      message := messages[i];
      SetWithout(messages, i);
      messages := messages[..i] + messages[i + 1..];
      assert MessageView(messages) == old(MessageView(messages)[..i] + MessageView(messages)[i + 1..]);
    }

    /** Put an object from outside the queue in flight. */
    method Lend(message: QueueMessage, token: Token, expiry: int)
      requires Valid() && message !in Cells()
      modifies this`inFlight
      ensures Valid() && Cells() <= old(Cells()) + {message}
      ensures View() == old(View()).(
        inFlight := Put(old(View()).inFlight, message.m.id, InFlight(message.m, token, expiry)))
    {
      hide MessageView, InFlightView, DeadView, DeadCells, FlightCells, SetOf, NoDuplicates, UniqueKeys, Has, Get;
      var e := FlightRef(message, token, expiry);
      PutKeepsUnique(inFlight, message.m.id, e);
      CellsOfPut(inFlight, message.m.id, e);
      ViewsOfPut(inFlight, message.m.id, e);
      hide Put;
      inFlight := Put(inFlight, message.m.id, e);
    }

    /** Lease the message at position `i` and hand out a copy of it. */
    method Take(i: nat, popAt: int, token: Token) returns (r: QueueMessage)
      requires Valid() && i < |messages|
      modifies this, Cells()
      ensures Valid() && Cells() <= old(Cells()) && fresh(r) && r.m == Delivered(old(messages[i].m), token)
      ensures View() == old(View()).(
        messages := old(View()).messages[..i] + old(View()).messages[i + 1..],
        inFlight := Put(old(View()).inFlight, r.m.id, InFlight(r.m, token, popAt + cfg.visibility)))
    {
      hide Valid, Cells, View, Put, Delivered;
      var message := Detach(i);
      Rewrite(message, Delivered(message.m, token));
      Lend(message, token, popAt + cfg.visibility);
      r := Copy(message.m);
    }

    method Exhume(i: nat) returns (entry: DeadRef)
      requires Valid() && i < |dead|
      modifies this`dead
      ensures Valid() && Cells() <= old(Cells()) && |dead| == old(|dead|) - 1 && |old(View()).dead| == old(|dead|)
      ensures DeadEntryView(entry) == old(View()).dead[i]
      ensures View() == old(View()).(dead := old(View()).dead[..i] + old(View()).dead[i + 1..])
    {
      hide MessageView, InFlightView, DeadView, DeadEntryView, DeadCells, FlightCells, SetOf, NoDuplicates, UniqueKeys;
      entry := dead[i];
      ViewsOfDeadRemoval(dead, i);
      SetWithout(DeadCells(dead), i);
      dead := dead[..i] + dead[i + 1..];
    }

    /** Move one dead entry back, as a new object with its counters reset. */
    method RedriveIndex(i: nat, now: int)
      requires Valid() && i < |dead|
      modifies this`dead, this`messages
      ensures Valid() && fresh(Cells() - old(Cells()))
      ensures View() == RedriveAt(old(View()), i, now) && |dead| == old(|dead|) - 1
    {
      hide Valid, Cells, View;
      var entry := Exhume(i);
      var message := Copy(ResetForRedrive(entry.message.m, now));
      Push(message);
    }

    method RedriveDeadLetter(id: string, now: int) returns (found: bool)
      requires Valid()
      modifies this
      ensures Valid() && fresh(Cells() - old(Cells())) && View() == RedriveOf(old(View()), id, now)
      ensures found == exists e :: e in old(View()).dead && e.message.id == id
    {
      var i := 0;
      while i < |dead| && dead[i].message.m.id != id
        invariant 0 <= i <= |dead|
        invariant forall j :: 0 <= j < i ==> dead[j].message.m.id != id
      {
        i := i + 1;
      }
      FindDeadAt(View().dead, id, i);
      if i == |dead| { return false; }
      assert View().dead[i] in View().dead;
      RedriveIndex(i, now);
      return true;
    }

    method RedriveDeadLetters(limit: nat, now: int) returns (moved: nat)
      requires Valid()
      modifies this
      ensures Valid() && fresh(Cells() - old(Cells())) && View() == RedriveOldest(old(View()), limit, now)
      ensures moved == if limit <= old(|dead|) then limit else old(|dead|)
    {
      hide MessageView, InFlightView, DeadView, RedriveAt;
      moved := 0;
      while moved < limit && dead != []
        invariant moved <= limit && moved + |dead| == old(|dead|) && Valid() && fresh(Cells() - old(Cells()))
        invariant RedriveOldest(View(), limit - moved, now) == RedriveOldest(old(View()), limit, now)
      {
        RedriveIndex(0, now);
        moved := moved + 1;
      }
    }

    method PurgeDeadLetters() returns (n: nat)
      requires Valid()
      modifies this
      ensures Valid() && Cells() <= old(Cells()) && n == |old(View()).dead| && View() == old(View()).(dead := [])
    {
      n := |dead|;
      dead := [];
    }
  }
}
