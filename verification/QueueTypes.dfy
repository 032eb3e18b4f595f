/** The records that travel through a queue backend (packages/core/src/queue.ts).
    An absent `deliveries` or `failures` field is read as 0 or [] by every reader,
    and is modelled as that value. */
module QueueTypes {
  import opened Options

  /** Lease tokens are UUIDs: they never contain the `|` separator. */
  type Token = string

  datatype Failure = Failure(attempt: int, error: string, failedAt: int)

  datatype Message = Message(
    id: string,
    taskName: string,
    input: string,
    attempt: int,
    maxRetries: int,
    createdAt: int,
    availableAt: int,
    deliveries: int,
    leaseToken: Option<Token>,
    failures: seq<Failure>)

  datatype DeadEntry = DeadEntry(message: Message, error: string, failures: seq<Failure>, deadLetteredAt: int)

  /** The message a worker receives: one more delivery, under a fresh lease. */
  function Delivered(m: Message, token: Token): Message {
    m.(deliveries := m.deliveries + 1, leaseToken := Some(token))
  }

  /** What `nack` stores: one more attempt, no lease, the failure (if reported) on record. */
  function Retried(m: Message, at: int, failure: Option<Failure>): Message {
    m.(attempt := m.attempt + 1,
       availableAt := at,
       leaseToken := None,
       failures := if failure.Some? then m.failures + [failure.value] else m.failures)
  }

  /** What an expired lease leaves behind: it costs an attempt and is recorded as a failure. */
  function Expired(m: Message, error: string, now: int): Message {
    m.(attempt := m.attempt + 1,
       leaseToken := None,
       failures := m.failures + [Failure(m.attempt, error, now)])
  }

  /** Retry bookkeeping reset for a job taken back out of the dead-letter list. */
  function ResetForRedrive(m: Message, now: int): Message {
    m.(attempt := 0, deliveries := 0, leaseToken := None, availableAt := now)
  }

  // ---- What becomes of a delivery, field by field ----

  /** The message again, one attempt further, due at once. */
  predicate IsRetry(m: Message, r: Message, now: int) {
    && r.id == m.id && r.taskName == m.taskName && r.input == m.input && r.maxRetries == m.maxRetries
    && r.attempt == m.attempt + 1 && r.deliveries == m.deliveries && r.leaseToken == None && r.availableAt == now
    && IsOneMore(m, r.failures, now)
  }

  /** The failures so far, and the expiry of this attempt. */
  predicate IsOneMore(m: Message, failures: seq<Failure>, now: int) {
    && |failures| == |m.failures| + 1 && failures[..|m.failures|] == m.failures
    && failures[|m.failures|].attempt == m.attempt && failures[|m.failures|].failedAt == now
  }

  /** A dead entry about the message, with its whole record. */
  predicate IsBurial(m: Message, e: DeadEntry, now: int) {
    && e.message.id == m.id && e.message.taskName == m.taskName && e.message.input == m.input
    && e.message.attempt == m.attempt + 1 && e.message.maxRetries == m.maxRetries && e.message.leaseToken == None
    && e.deadLetteredAt == now && e.message.failures == e.failures && IsOneMore(m, e.failures, now)
  }

  /** What a retry stores: one more attempt, the reported failure on record, no lease, due at `at`. */
  predicate IsNacked(m: Message, x: Message, at: int, failure: Option<Failure>) {
    && x.id == m.id && x.taskName == m.taskName && x.input == m.input && x.maxRetries == m.maxRetries
    && x.attempt == m.attempt + 1 && x.deliveries == m.deliveries && x.leaseToken == None && x.availableAt == at
    && x.failures == if failure.Some? then m.failures + [failure.value] else m.failures
  }

  /** A dead entry about the message, for this error, with these failures. */
  predicate IsBuriedAs(e: DeadEntry, m: Message, error: string, failures: seq<Failure>, now: int) {
    && e.message.id == m.id && e.message.taskName == m.taskName && e.message.input == m.input
    && e.message.attempt == m.attempt && e.message.maxRetries == m.maxRetries && e.message.failures == failures
    && e.failures == failures && e.error == error && e.deadLetteredAt == now
  }
}
