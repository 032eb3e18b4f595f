module MemoryQueueModel {
  // What each `MemoryQueue` method does to the queue's contents, on values
  // (packages/core/src/queue.ts). The class itself is in MemoryQueueClass.dfy.

  import opened Options
  import opened QueueTypes
  import opened JsMap

  datatype Config = Config(visibility: int, maxDead: nat, maxCompleted: nat, expiryError: string)

  datatype InFlight = InFlight(message: Message, leaseToken: Token, expiresAt: int)

  datatype Mem = Mem(
    messages: seq<Message>,
    inFlight: seq<(string, InFlight)>,
    dead: seq<DeadEntry>,
    completed: seq<string>)

  const EMPTY := Mem([], [], [], [])

  /** The newest `max` elements: both bounded lists evict from the front. */
  function KeepLast<T>(xs: seq<T>, max: nat): (r: seq<T>)
    ensures |r| <= max && |r| <= |xs| && r == xs[|xs| - |r|..]
    ensures |xs| <= max ==> r == xs
  {
    if |xs| > max then xs[|xs| - max..] else xs
  }

  /** Position of the first message that may be handed out, or `|ms|`. */
  function FirstDue(ms: seq<Message>, now: int): (i: nat)
    ensures i <= |ms|
    ensures i < |ms| ==> ms[i].availableAt <= now
    ensures forall j :: 0 <= j < i ==> ms[j].availableAt > now
  {
    if ms == [] || ms[0].availableAt <= now then 0 else 1 + FirstDue(ms[1..], now)
  }

  function PushDead(q: Mem, cfg: Config, e: DeadEntry): Mem {
    q.(dead := KeepLast(q.dead + [e], cfg.maxDead))
  }

  /** One expired in-flight entry: retried within the budget, dead-lettered past it. */
  function ReclaimOne(q: Mem, cfg: Config, e: (string, InFlight), now: int): Mem {
    var released := q.(inFlight := Remove(q.inFlight, e.0));
    var m := Expired(e.1.message, cfg.expiryError, now);
    if m.attempt > m.maxRetries then
      PushDead(released, cfg, DeadEntry(m, cfg.expiryError, m.failures, now))
    else
      released.(messages := released.messages + [m.(availableAt := now)])
  }

  /** `reclaimExpired`, over the entries still to be visited. */
  function ReclaimFrom(q: Mem, cfg: Config, es: seq<(string, InFlight)>, now: int): Mem
    decreases |es|
  {
    if es == [] then q
    else ReclaimFrom(if es[0].1.expiresAt > now then q else ReclaimOne(q, cfg, es[0], now), cfg, es[1..], now)
  }

  function Reclaimed(q: Mem, cfg: Config, now: int): Mem {
    ReclaimFrom(q, cfg, q.inFlight, now)
  }

  function TakeFirstDue(q: Mem, cfg: Config, now: int, token: Token): (r: (Mem, Option<Message>)) {
    var i := FirstDue(q.messages, now);
    if i == |q.messages| then (q, None)
    else
      var m := Delivered(q.messages[i], token);
      (q.(messages := q.messages[..i] + q.messages[i + 1..],
          inFlight := Put(q.inFlight, m.id, InFlight(m, token, now + cfg.visibility))),
       Some(m))
  }

  /** The lease check every settling call makes: no token asks for any lease on the job. */
  predicate Holds(q: Mem, id: string, token: Option<Token>) {
    Has(q.inFlight, id) && (token.Some? ==> Get(q.inFlight, id).leaseToken == token.value)
  }

  function AckOf(q: Mem, cfg: Config, id: string, token: Option<Token>): Mem {
    if !Holds(q, id, token) then q
    else q.(inFlight := Remove(q.inFlight, id), completed := KeepLast(q.completed + [id], cfg.maxCompleted))
  }

  function NackOf(q: Mem, id: string, at: int, token: Option<Token>, failure: Option<Failure>): Mem {
    if !Holds(q, id, token) then q
    else q.(inFlight := Remove(q.inFlight, id),
            messages := q.messages + [Retried(Get(q.inFlight, id).message, at, failure)])
  }

  function ExtendOf(q: Mem, id: string, token: Token, expiry: int): Mem {
    if !Holds(q, id, Some(token)) then q
    else q.(inFlight := Put(q.inFlight, id, Get(q.inFlight, id).(expiresAt := expiry)))
  }

  /** The dead entry is recorded whether or not the lease is still held. */
  function DeadLetterOf(q: Mem, cfg: Config, e: DeadEntry, token: Option<Token>): Mem {
    var released := if Holds(q, e.message.id, token) then q.(inFlight := Remove(q.inFlight, e.message.id)) else q;
    PushDead(released, cfg, e)
  }

  /** Position of the oldest dead entry for job `id`, or `|es|`. */
  function FindDead(es: seq<DeadEntry>, id: string): (i: nat)
    ensures i <= |es|
    ensures i < |es| ==> es[i].message.id == id
    ensures forall j :: 0 <= j < i ==> es[j].message.id != id
  {
    if es == [] || es[0].message.id == id then 0 else 1 + FindDead(es[1..], id)
  }

  function RedriveAt(q: Mem, i: nat, now: int): Mem
    requires i < |q.dead|
  {
    q.(dead := q.dead[..i] + q.dead[i + 1..],
       messages := q.messages + [ResetForRedrive(q.dead[i].message, now)])
  }

  function RedriveOf(q: Mem, id: string, now: int): Mem {
    var i := FindDead(q.dead, id);
    if i == |q.dead| then q else RedriveAt(q, i, now)
  }

  /** `redriveDeadLetters`: the oldest `n` dead entries, oldest first. */
  function RedriveOldest(q: Mem, n: nat, now: int): Mem
    decreases n
  {
    if n == 0 || q.dead == [] then q else RedriveOldest(RedriveAt(q, 0, now), n - 1, now)
  }
}
