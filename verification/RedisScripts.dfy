module RedisScripts {
  // The shared Redis structures and what each command or Lua script does to them
  // (packages/queue-redis/src/index.ts). Scripts are atomic: each is one function.

  import opened Options
  import opened QueueTypes
  import opened JsMap

  /** A sorted set as its members in (score, member) order, each with its score. */
  type ZSet = seq<(string, int)>

  datatype Server = Server(
    pending: seq<string>,        // LIST, head first: pushed at the head, popped at the tail
    processing: seq<string>,     // LIST of `<token>|<raw>`
    leases: map<string, int>,    // HASH, in-flight entry -> lease expiry
    delayed: ZSet,               // SORTED SET, raw message by availableAt
    reclaim: seq<string>,        // LIST, staging area of expired leases
    dead: seq<string>)           // LIST, newest first

  const NO_DATA := Server([], [], map[], [], [], [])
  const LEASE_SEP := "|"

  // ---- Redis list and sorted-set commands ----

  /** Position of the first occurrence of `x`, or `|list|`. */
  function Position(list: seq<string>, x: string): (i: nat)
    ensures i <= |list| && (i < |list| ==> list[i] == x) && forall j :: 0 <= j < i ==> list[j] != x
    ensures i < |list| <==> x in list
  {
    if list == [] || list[0] == x then 0 else 1 + Position(list[1..], x)
  }

  /** LREM key 1 x */
  function Lrem(list: seq<string>, x: string): seq<string> {
    var i := Position(list, x);
    if i < |list| then list[..i] + list[i + 1..] else list
  }

  /** LTRIM key 0 max-1. With max = 0 the stop index is -1, which keeps the whole list. */
  function Ltrim(list: seq<string>, max: nat): seq<string> {
    if max == 0 || |list| <= max then list else list[..max]
  }

  /** A trim meets the cap exactly when the cap is positive, or there was nothing. */
  lemma TrimIsCapped(list: seq<string>, max: nat)
    ensures |Ltrim(list, max)| <= max <==> max > 0 || list == []
  {}

  predicate LexLess(a: string, b: string) {
    b != [] && (a == [] || a[0] < b[0] || (a[0] == b[0] && LexLess(a[1..], b[1..])))
  }

  predicate Before(x: (string, int), y: (string, int)) {
    x.1 < y.1 || (x.1 == y.1 && LexLess(x.0, y.0))
  }

  function InsertInOrder(z: ZSet, x: (string, int)): ZSet {
    if z == [] || Before(x, z[0]) then [x] + z else [z[0]] + InsertInOrder(z[1..], x)
  }

  function Zadd(z: ZSet, member: string, score: int): ZSet {
    InsertInOrder(Remove(z, member), (member, score))
  }

  /** ZRANGEBYSCORE key -inf now LIMIT 0 limit, on a set kept in score order. */
  function ZrangeDue(z: ZSet, now: int, limit: nat): seq<string> {
    if z == [] || limit == 0 || z[0].1 > now then [] else [z[0].0] + ZrangeDue(z[1..], now, limit - 1)
  }

  // ---- Lease entries ----

  function EntryOf(token: Token, raw: string): string { token + LEASE_SEP + raw }

  /** Position of the first separator, or the length. */
  function SepAt(entry: string): (i: nat)
    ensures i <= |entry| && (i < |entry| ==> entry[i] == '|') && forall j :: 0 <= j < i ==> entry[j] != '|'
    ensures i < |entry| <==> '|' in entry
  {
    if entry == [] || entry[0] == '|' then 0 else 1 + SepAt(entry[1..])
  }

  /** `splitEntry`: the token before the first separator and the payload after it. */
  function TokenOf(entry: string): Token {
    if SepAt(entry) == |entry| then "" else entry[..SepAt(entry)]
  }

  function RawOf(entry: string): string {
    if SepAt(entry) == |entry| then entry else entry[SepAt(entry) + 1..]
  }

  predicate HasPrefix(entry: string, prefix: string) {
    |prefix| <= |entry| && entry[..|prefix|] == prefix
  }

  /** Position of the first entry with the prefix, or the length: the scan the scripts make. */
  function ScanPrefix(entries: seq<string>, prefix: string): (i: nat)
    ensures i <= |entries| && (i < |entries| ==> HasPrefix(entries[i], prefix))
    ensures forall j :: 0 <= j < i ==> !HasPrefix(entries[j], prefix)
  {
    if entries == [] || HasPrefix(entries[0], prefix) then 0 else 1 + ScanPrefix(entries[1..], prefix)
  }

  lemma SplitUndoesJoin(token: Token, raw: string)
    requires '|' !in token
    ensures TokenOf(EntryOf(token, raw)) == token && RawOf(EntryOf(token, raw)) == raw
  {
    var e := EntryOf(token, raw);
    assert e[|token|] == '|' && forall j :: 0 <= j < |token| ==> e[j] == token[j];
    assert SepAt(e) == |token|;
    assert e[..|token|] == token && e[|token| + 1..] == raw;
  }

  /** A `token|` prefix selects the entries of that token only, whatever the payload holds. */
  lemma PrefixIsToken(entry: string, token: Token)
    requires '|' !in token && '|' in entry
    ensures HasPrefix(entry, token + LEASE_SEP) <==> TokenOf(entry) == token
  {
    var p, i := token + LEASE_SEP, SepAt(entry);
    if HasPrefix(entry, p) {
      assert forall j :: 0 <= j < |p| ==> entry[j] == p[j];
      assert entry[|token|] == '|' && forall j :: 0 <= j < |token| ==> entry[j] == token[j] && token[j] in token;
      assert i == |token| && entry[..|token|] == token;
    }
    if TokenOf(entry) == token {
      assert entry[..|p|] == p;
    }
  }

  // ---- The scripts ----

  function PopScript(s: Server, expiry: int, token: Token): (Server, Option<string>) {
    if s.pending == [] then (s, None)
    else
      var n := |s.pending| - 1;
      var entry := EntryOf(token, s.pending[n]);
      (s.(pending := s.pending[..n], processing := [entry] + s.processing, leases := s.leases[entry := expiry]), Some(entry))
  }

  function ReleaseScript(s: Server, prefix: string): (Server, Option<string>) {
    var i := ScanPrefix(s.processing, prefix);
    if i == |s.processing| then (s, None)
    else
      var entry := s.processing[i];
      (s.(processing := Lrem(s.processing, entry), leases := s.leases - {entry}), Some(entry))
  }

  function ExtendScript(s: Server, prefix: string, expiry: int): (Server, bool) {
    var i := ScanPrefix(s.processing, prefix);
    if i == |s.processing| then (s, false)
    else (s.(leases := s.leases[s.processing[i] := expiry]), true)
  }

  function ReapOne(s: Server, entry: string, now: int): Server {
    if (entry !in s.leases || s.leases[entry] <= now) && entry in s.processing then
      s.(processing := Lrem(s.processing, entry), leases := s.leases - {entry}, reclaim := [entry] + s.reclaim)
    else s
  }

  /** The REAP loop over the entries read at its start. */
  function ReapFrom(s: Server, entries: seq<string>, now: int): Server
    decreases |entries|
  {
    if entries == [] then s else ReapFrom(ReapOne(s, entries[0], now), entries[1..], now)
  }

  function ReapScript(s: Server, now: int): Server { ReapFrom(s, s.processing, now) }

  function DrainScript(s: Server, entry: string, toDead: bool, payload: string): (Server, bool) {
    if entry !in s.reclaim then (s, false)
    else
      var t := s.(reclaim := Lrem(s.reclaim, entry));
      (if toDead then t.(dead := [payload] + t.dead) else t.(pending := [payload] + t.pending), true)
  }

  function PromoteOne(s: Server, member: string): Server {
    if Has(s.delayed, member) then
      s.(delayed := Remove(s.delayed, member), pending := [member] + s.pending)
    else s
  }

  function PromoteFrom(s: Server, ready: seq<string>): Server
    decreases |ready|
  {
    if ready == [] then s else PromoteFrom(PromoteOne(s, ready[0]), ready[1..])
  }

  function PromoteScript(s: Server, now: int, limit: nat): Server {
    PromoteFrom(s, ZrangeDue(s.delayed, now, limit))
  }

  function DeadLetterScript(s: Server, prefix: string, payload: string, max: nat): Server {
    var t := if prefix == "" then s else ReleaseScript(s, prefix).0;
    t.(dead := Ltrim([payload] + t.dead, max))
  }
}
