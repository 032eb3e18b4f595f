module ScopeModel {
  // Encapsulation scopes on values: which contexts apply to a route, and in which order
  // (packages/core/src/context.ts, packages/core/src/app.ts).

  import opened Options

  type Hook = nat

  datatype HookName = OnRequest | PreParsing | PreValidation | PreHandler | PreSerialization | OnSend | OnResponse | OnError

  datatype Hooks = Hooks(onRequest: seq<Hook>, preParsing: seq<Hook>, preValidation: seq<Hook>, preHandler: seq<Hook>,
                         preSerialization: seq<Hook>, onSend: seq<Hook>, onResponse: seq<Hook>, onError: seq<Hook>)

  const NO_HOOKS := Hooks([], [], [], [], [], [], [], [])

  function Named(h: Hooks, name: HookName): seq<Hook> {
    match name
    case OnRequest => h.onRequest
    case PreParsing => h.preParsing
    case PreValidation => h.preValidation
    case PreHandler => h.preHandler
    case PreSerialization => h.preSerialization
    case OnSend => h.onSend
    case OnResponse => h.onResponse
    case OnError => h.onError
  }

  function Joined(a: Hooks, b: Hooks): Hooks {
    Hooks(a.onRequest + b.onRequest, a.preParsing + b.preParsing, a.preValidation + b.preValidation,
          a.preHandler + b.preHandler, a.preSerialization + b.preSerialization, a.onSend + b.onSend,
          a.onResponse + b.onResponse, a.onError + b.onError)
  }

  /** Hooks given in a route's own options; there are no others. */
  datatype LocalHooks = LocalHooks(onRequest: seq<Hook>, preHandler: seq<Hook>, preSerialization: seq<Hook>, onSend: seq<Hook>)

  function Local(l: LocalHooks): Hooks {
    NO_HOOKS.(onRequest := l.onRequest, preHandler := l.preHandler, preSerialization := l.preSerialization, onSend := l.onSend)
  }

  type Decorations = map<string, string>

  /** A context; its position in the forest is its identity. */
  datatype Ctx = Ctx(parent: Option<nat>, prefix: string, transparent: bool, children: seq<nat>,
                     hooks: Hooks, request: Decorations, reply: Decorations)

  type Forest = seq<Ctx>

  predicate IsChild(f: Forest, p: nat, c: nat) {
    p < c < |f| && f[c].parent == Some(p)
  }

  /** One root, the first context; a child comes after its parent and knows it. */
  ghost predicate IsTree(f: Forest) {
    && |f| > 0 && f[0].parent == None
    && (forall c :: 0 < c < |f| ==> f[c].parent.Some? && f[c].parent.value < c && c in f[f[c].parent.value].children)
    && (forall p, k :: 0 <= p < |f| && 0 <= k < |f[p].children| ==> IsChild(f, p, f[p].children[k]))
  }

  // ---- What the scope of a route should be ----

  predicate AncestorOrSelf(f: Forest, a: nat, c: nat)
    requires c < |f|
    decreases c
  {
    a == c || (f[c].parent.Some? && f[c].parent.value < c && AncestorOrSelf(f, a, f[c].parent.value))
  }

  /** `c` is reached from `a` through transparent children only. */
  predicate Through(f: Forest, a: nat, c: nat)
    requires c < |f|
    decreases c
  {
    a == c || (f[c].transparent && f[c].parent.Some? && f[c].parent.value < c && Through(f, a, f[c].parent.value))
  }

  /** The hooks of `c` apply to routes registered in `leaf`. */
  ghost predicate Applies(f: Forest, leaf: nat, c: nat)
    requires leaf < |f| && c < |f|
  {
    exists a :: AncestorOrSelf(f, a, leaf) && Through(f, a, c)
  }

  // ---- What the source collects ----

  /** The chain from the root to a context. */
  function Chain(f: Forest, c: nat): seq<nat>
    requires IsTree(f) && c < |f|
    decreases c
  {
    if f[c].parent.None? then [c] else Chain(f, f[c].parent.value) + [c]
  }

  /** `collectTransparent`, from child number `i` on. */
  function Collect(f: Forest, c: nat, i: nat, seen: set<nat>, out: seq<nat>): (set<nat>, seq<nat>)
    requires IsTree(f) && c < |f| && i <= |f[c].children|
    decreases |f| - c, |f[c].children| - i
  {
    if i == |f[c].children| then (seen, out)
    else
      assert IsChild(f, c, f[c].children[i]);
      var k := f[c].children[i];
      if !f[k].transparent || k in seen then Collect(f, c, i + 1, seen, out)
      else
        var (s, o) := Collect(f, k, 0, seen + {k}, out + [k]);
        Collect(f, c, i + 1, s, o)
  }

  lemma CollectStep(f: Forest, c: nat, i: nat, seen: set<nat>, out: seq<nat>)
    requires IsTree(f) && c < |f| && i < |f[c].children|
    ensures IsChild(f, c, f[c].children[i])
    ensures var k := f[c].children[i];
      if !f[k].transparent || k in seen then Collect(f, c, i, seen, out) == Collect(f, c, i + 1, seen, out)
      else
        var (s, o) := Collect(f, k, 0, seen + {k}, out + [k]);
        Collect(f, c, i, seen, out) == Collect(f, c, i + 1, s, o)
  {}

  lemma CollectEnds(f: Forest, c: nat, seen: set<nat>, out: seq<nat>)
    requires IsTree(f) && c < |f|
    ensures Collect(f, c, |f[c].children|, seen, out) == (seen, out)
  {}

  /** The loop of `collectScopeContexts` over the chain. */
  function Spread(f: Forest, chain: seq<nat>, seen: set<nat>, out: seq<nat>): (set<nat>, seq<nat>)
    requires IsTree(f) && forall c :: c in chain ==> c < |f|
    decreases |chain|
  {
    if chain == [] then (seen, out)
    else
      assert chain[0] in chain && forall c :: c in chain[1..] ==> c in chain;
      var (s, o) := Collect(f, chain[0], 0, seen, out + [chain[0]]);
      Spread(f, chain[1..], s, o)
  }

  function Elements(s: seq<nat>): set<nat> { set x | x in s }

  lemma {:induction false} ChainIsAncestry(f: Forest, c: nat)
    requires IsTree(f) && c < |f|
    ensures forall a :: a in Chain(f, c) ==> a <= c && a < |f|
    ensures forall a :: a in Chain(f, c) <==> AncestorOrSelf(f, a, c)
    ensures |Chain(f, c)| > 0 && Chain(f, c)[0] == 0
    ensures forall i :: 0 < i < |Chain(f, c)| ==> Chain(f, c)[i] < |f| && f[Chain(f, c)[i]].parent == Some(Chain(f, c)[i - 1])
    ensures forall i, j :: 0 <= i < j < |Chain(f, c)| ==> Chain(f, c)[i] < Chain(f, c)[j]
    decreases c
  {
    if f[c].parent.Some? {
      var p := f[c].parent.value;
      ChainIsAncestry(f, p);
      assert Chain(f, c) == Chain(f, p) + [c];
      LastOfChain(f, p);
    }
  }

  lemma ChainStep(f: Forest, c: nat)
    requires IsTree(f) && c < |f|
    ensures f[c].parent.Some? ==> f[c].parent.value < c && Chain(f, c) == Chain(f, f[c].parent.value) + [c]
    ensures f[c].parent.None? ==> Chain(f, c) == [c]
  {}

  lemma LastOfChain(f: Forest, c: nat)
    requires IsTree(f) && c < |f|
    ensures Chain(f, c)[|Chain(f, c)| - 1] == c
  {}

  /** `collectScopeContexts` */
  function ScopeContexts(f: Forest, leaf: nat): seq<nat>
    requires IsTree(f) && leaf < |f|
  {
    ChainIsAncestry(f, leaf);
    Spread(f, Chain(f, leaf), Elements(Chain(f, leaf)), []).1
  }

  /** The loop over a leaf's chain, `n` members done. */
  ghost predicate Spreading(f: Forest, leaf: nat, n: nat, m: (set<nat>, seq<nat>)) {
    && IsTree(f) && leaf < |f| && n <= |Chain(f, leaf)|
    && (forall c :: c in Chain(f, leaf)[n..] ==> c < |f|)
    && Spread(f, Chain(f, leaf)[n..], m.0, m.1).1 == ScopeContexts(f, leaf)
  }

  lemma SpreadStarts(f: Forest, leaf: nat)
    requires IsTree(f) && leaf < |f|
    ensures Spreading(f, leaf, 0, (Elements(Chain(f, leaf)), []))
  {
    ChainIsAncestry(f, leaf);
    assert Chain(f, leaf)[0..] == Chain(f, leaf);
  }

  lemma SpreadStep(f: Forest, leaf: nat, n: nat, m: (set<nat>, seq<nat>))
    requires Spreading(f, leaf, n, m) && n < |Chain(f, leaf)|
    ensures var c := Chain(f, leaf)[n]; c < |f| && Spreading(f, leaf, n + 1, Collect(f, c, 0, m.0, m.1 + [c]))
  {
    hide IsTree, Chain, ScopeContexts, Collect;
    var rest := Chain(f, leaf)[n..];
    assert rest[0] == Chain(f, leaf)[n] && rest[1..] == Chain(f, leaf)[n + 1..];
    assert rest[0] in rest && forall c :: c in rest[1..] ==> c in rest;
  }

  lemma SpreadEnds(f: Forest, leaf: nat, m: (set<nat>, seq<nat>))
    requires IsTree(f) && leaf < |f| && Spreading(f, leaf, |Chain(f, leaf)|, m)
    ensures m.1 == ScopeContexts(f, leaf)
  {}

  // ---- The collection is exact ----

  ghost predicate NoRepeats(s: seq<nat>) {
    forall i, j :: 0 <= i < j < |s| ==> s[i] != s[j]
  }

  /** All transparent children have been seen. */
  ghost predicate Served(f: Forest, c: nat, seen: set<nat>) {
    c < |f| && forall k :: 0 <= k < |f[c].children| && f[c].children[k] < |f| && f[f[c].children[k]].transparent ==> f[c].children[k] in seen
  }

  /** What a stretch of the collection adds to `out`: transparent contexts not seen before,
      each after its parent and followed by its own transparent children. */
  ghost predicate Adds(f: Forest, seen: set<nat>, out: seq<nat>, after: (set<nat>, seq<nat>)) {
    && out <= after.1 && seen <= after.0
    && (forall x :: x in after.0 <==> x in seen || x in after.1[|out|..])
    && (forall j :: |out| <= j < |after.1| ==> AddedAt(f, seen, after, j))
    && NoRepeats(after.1[|out|..])
  }

  lemma AddsNothing(f: Forest, seen: set<nat>, out: seq<nat>)
    ensures Adds(f, seen, out, (seen, out))
  {}

  lemma ServedGrows(f: Forest, c: nat, a: set<nat>, b: set<nat>)
    requires Served(f, c, a) && a <= b
    ensures Served(f, c, b)
  {}

  lemma NoRepeatsTogether(a: seq<nat>, b: seq<nat>)
    requires NoRepeats(a) && NoRepeats(b) && forall x :: x in a ==> x !in b
    ensures NoRepeats(a + b)
  {
    forall i, j | 0 <= i < j < |a + b| ensures (a + b)[i] != (a + b)[j] {
      if i < |a| <= j { assert a[i] in a && b[j - |a|] in b; }
    }
  }

  /** A context added at position `j`. */
  ghost predicate AddedAt(f: Forest, seen: set<nat>, after: (set<nat>, seq<nat>), j: nat)
    requires j < |after.1|
  {
    var x := after.1[j];
    && x < |f| && x !in seen && f[x].transparent && f[x].parent.Some? && f[x].parent.value in after.1[..j]
    && Served(f, x, after.0)
  }

  lemma AddsThen(f: Forest, seen: set<nat>, out: seq<nat>, mid: (set<nat>, seq<nat>), after: (set<nat>, seq<nat>))
    requires Adds(f, seen, out, mid) && Adds(f, mid.0, mid.1, after)
    ensures Adds(f, seen, out, after)
  {
    hide Served, AddedAt, NoRepeats;
    var a, b := mid.1[|out|..], after.1[|mid.1|..];
    assert after.1[|out|..] == a + b;
    forall j | |out| <= j < |after.1| ensures AddedAt(f, seen, after, j) {
      if j < |mid.1| {
        AddedStays(f, seen, mid, after, j);
      } else {
        AddedEarlier(f, seen, mid.0, after, j);
      }
    }
    forall x | x in a ensures x !in b {
      if x in b {
        var j :| |mid.1| <= j < |after.1| && after.1[j] == x;
        AddedEarlier(f, mid.0, mid.0, after, j);
      }
    }
    NoRepeatsTogether(a, b);
  }

  lemma AddedStays(f: Forest, seen: set<nat>, mid: (set<nat>, seq<nat>), after: (set<nat>, seq<nat>), j: nat)
    requires mid.1 <= after.1 && mid.0 <= after.0 && j < |mid.1| && AddedAt(f, seen, mid, j)
    ensures AddedAt(f, seen, after, j)
  {
    assert after.1[j] == mid.1[j] && after.1[..j] == mid.1[..j];
    ServedGrows(f, mid.1[j], mid.0, after.0);
  }

  lemma AddedEarlier(f: Forest, seen: set<nat>, later: set<nat>, after: (set<nat>, seq<nat>), j: nat)
    requires seen <= later && j < |after.1| && AddedAt(f, later, after, j)
    ensures AddedAt(f, seen, after, j) && after.1[j] !in later
  {}

  /** A visited child, its own subtree collected behind it. */
  lemma AddsChild(f: Forest, k: nat, p: nat, seen: set<nat>, out: seq<nat>, after: (set<nat>, seq<nat>))
    requires k < |f| && f[k].transparent && k !in seen && f[k].parent == Some(p) && p in out
    requires Adds(f, seen + {k}, out + [k], after) && Served(f, k, after.0)
    ensures Adds(f, seen, out, after)
  {
    hide Served, NoRepeats;
    assert (out + [k])[|out|] == k && after.1[|out|] == k && after.1[..|out|] == out;
    var rest := after.1[|out + [k]|..];
    assert after.1[|out|..] == [k] + rest;
    forall j | |out| <= j < |after.1| ensures AddedAt(f, seen, after, j) {
      assert j > |out| ==> AddedAt(f, seen + {k}, after, j);
    }
    forall x | x in rest ensures x != k {
      var j :| |out| < j < |after.1| && after.1[j] == x;
      assert AddedAt(f, seen + {k}, after, j);
    }
    SingleHasNoRepeats(k);
    NoRepeatsTogether([k], rest);
  }

  lemma SingleHasNoRepeats(k: nat)
    ensures NoRepeats([k])
  {}

  lemma {:induction false} CollectAdds(f: Forest, c: nat, i: nat, seen: set<nat>, out: seq<nat>)
    requires IsTree(f) && c < |f| && i <= |f[c].children| && c in out
    ensures Adds(f, seen, out, Collect(f, c, i, seen, out))
    ensures forall k :: i <= k < |f[c].children| && f[f[c].children[k]].transparent ==> f[c].children[k] in Collect(f, c, i, seen, out).0
    decreases |f| - c, |f[c].children| - i
  {
    hide Adds, Served;
    AddsNothing(f, seen, out);
    if i < |f[c].children| {
      var k := f[c].children[i];
      assert IsChild(f, c, k);
      if !f[k].transparent || k in seen {
        CollectAdds(f, c, i + 1, seen, out);
        SeenStays(f, seen, out, Collect(f, c, i + 1, seen, out));
      } else {
        var mid := Collect(f, k, 0, seen + {k}, out + [k]);
        CollectAdds(f, k, 0, seen + {k}, out + [k]);
        SeenStays(f, seen + {k}, out + [k], mid);
        ServedByAll(f, k, mid.0);
        AddsChild(f, k, c, seen, out, mid);
        SeenStays(f, seen, out, mid);
        CollectAdds(f, c, i + 1, mid.0, mid.1);
        SeenStays(f, mid.0, mid.1, Collect(f, c, i + 1, mid.0, mid.1));
        AddsThen(f, seen, out, mid, Collect(f, c, i + 1, mid.0, mid.1));
      }
    }
  }

  lemma SeenStays(f: Forest, seen: set<nat>, out: seq<nat>, after: (set<nat>, seq<nat>))
    requires Adds(f, seen, out, after)
    ensures seen <= after.0 && out <= after.1 && forall x :: x in out ==> x in after.1
  {}

  lemma ServedByAll(f: Forest, c: nat, seen: set<nat>)
    requires IsTree(f) && c < |f|
    requires forall k :: 0 <= k < |f[c].children| && f[f[c].children[k]].transparent ==> f[c].children[k] in seen
    ensures Served(f, c, seen)
  {}

  /** Along a chain, its first `n` members have been collected and the rest is only marked. */
  ghost predicate Partition(chain: seq<nat>, n: nat, seen: set<nat>, out: seq<nat>) {
    && n <= |chain|
    && (forall x :: x in seen <==> x in out || x in chain[n..])
    && (forall x :: x in out ==> x !in chain[n..])
    && (forall i :: 0 <= i < n ==> chain[i] in out)
  }

  /** Every collected context but the first comes after its parent. */
  ghost predicate ParentsFirst(f: Forest, out: seq<nat>) {
    forall j :: 0 <= j < |out| ==> out[j] < |f| && (j > 0 ==> f[out[j]].parent.Some? && f[out[j]].parent.value in out[..j])
  }

  /** Collected contexts belong to the chain or were reached through a transparent link. */
  ghost predicate FromChain(f: Forest, chain: seq<nat>, out: seq<nat>) {
    forall j :: 0 <= j < |out| ==> out[j] in chain || (out[j] < |f| && f[out[j]].transparent)
  }

  ghost predicate AllServed(f: Forest, out: seq<nat>, seen: set<nat>) {
    forall j :: 0 <= j < |out| ==> Served(f, out[j], seen)
  }

  ghost predicate Along(f: Forest, chain: seq<nat>, n: nat, seen: set<nat>, out: seq<nat>) {
    && Partition(chain, n, seen, out) && NoRepeats(out) && ParentsFirst(f, out)
    && FromChain(f, chain, out) && AllServed(f, out, seen) && (n > 0 ==> |out| > 0 && out[0] == chain[0])
  }

  lemma PartitionGrows(f: Forest, chain: seq<nat>, n: nat, seen: set<nat>, out: seq<nat>, mid: (set<nat>, seq<nat>))
    requires NoRepeats(chain) && n < |chain| && Partition(chain, n, seen, out)
    requires Adds(f, seen, out + [chain[n]], mid)
    ensures Partition(chain, n + 1, mid.0, mid.1)
  {
    hide AddedAt, Served;
    var c, from := chain[n], |out| + 1;
    assert chain[n..] == [c] + chain[n + 1..];
    assert mid.1 == out + [c] + mid.1[from..];
    forall x | x in mid.1[from..] ensures x !in seen {
      var j :| from <= j < |mid.1| && mid.1[j] == x;
      AddedEarlier(f, seen, seen, mid, j);
    }
    assert c !in chain[n + 1..];
  }

  lemma NoRepeatsGrows(f: Forest, c: nat, seen: set<nat>, out: seq<nat>, mid: (set<nat>, seq<nat>))
    requires NoRepeats(out) && c !in out && c in seen && (forall x :: x in out ==> x in seen)
    requires Adds(f, seen, out + [c], mid)
    ensures NoRepeats(mid.1)
  {
    hide AddedAt, Served, NoRepeats;
    SingleHasNoRepeats(c);
    NoRepeatsTogether(out, [c]);
    var from := |out + [c]|;
    assert mid.1 == out + [c] + mid.1[from..];
    forall x | x in mid.1[from..] ensures x !in seen {
      var j :| from <= j < |mid.1| && mid.1[j] == x;
      AddedEarlier(f, seen, seen, mid, j);
    }
    NoRepeatsTogether(out + [c], mid.1[from..]);
  }

  lemma ParentsFirstGrows(f: Forest, c: nat, seen: set<nat>, out: seq<nat>, mid: (set<nat>, seq<nat>))
    requires ParentsFirst(f, out) && c < |f| && (out != [] ==> f[c].parent.Some? && f[c].parent.value in out)
    requires Adds(f, seen, out + [c], mid)
    ensures ParentsFirst(f, mid.1)
  {
    hide Served, NoRepeats;
    forall j | 0 <= j < |mid.1| ensures mid.1[j] < |f| && (j > 0 ==> f[mid.1[j]].parent.Some? && f[mid.1[j]].parent.value in mid.1[..j]) {
      if j < |out| {
        assert mid.1[j] == out[j] && mid.1[..j] == out[..j];
      } else if j == |out| {
        assert mid.1[j] == c && mid.1[..j] == out;
      } else {
        assert AddedAt(f, seen, mid, j);
      }
    }
  }

  lemma RestGrows(f: Forest, chain: seq<nat>, c: nat, seen: set<nat>, out: seq<nat>, mid: (set<nat>, seq<nat>))
    requires FromChain(f, chain, out) && AllServed(f, out, seen) && c in chain && Served(f, c, mid.0)
    requires Adds(f, seen, out + [c], mid)
    ensures FromChain(f, chain, mid.1) && AllServed(f, mid.1, mid.0)
  {
    hide Served, NoRepeats;
    forall j | 0 <= j < |mid.1| ensures Served(f, mid.1[j], mid.0) && (mid.1[j] in chain || (mid.1[j] < |f| && f[mid.1[j]].transparent)) {
      if j < |out| {
        assert mid.1[j] == out[j];
        ServedGrows(f, out[j], seen, mid.0);
      } else if j == |out| {
        assert mid.1[j] == c;
      } else {
        assert AddedAt(f, seen, mid, j);
      }
    }
  }

  lemma AlongGrows(f: Forest, chain: seq<nat>, n: nat, seen: set<nat>, out: seq<nat>, mid: (set<nat>, seq<nat>))
    requires NoRepeats(chain) && n < |chain| && Along(f, chain, n, seen, out) && chain[n] < |f|
    requires if n > 0 then f[chain[n]].parent == Some(chain[n - 1]) else out == []
    requires Adds(f, seen, out + [chain[n]], mid) && Served(f, chain[n], mid.0)
    ensures Along(f, chain, n + 1, mid.0, mid.1)
  {
    var c := chain[n];
    assert c in chain[n..] by { assert chain[n..][0] == c; }
    assert c !in out && c in seen && (forall x :: x in out ==> x in seen);
    assert mid.1[0] == (out + [c])[0] by { SeenStays(f, seen, out + [c], mid); }
    hide Adds, Partition, NoRepeats, ParentsFirst, FromChain, AllServed, Served;
    PartitionGrows(f, chain, n, seen, out, mid);
    NoRepeatsGrows(f, c, seen, out, mid);
    if n > 0 { assert chain[n - 1] in out by { InPartition(chain, n, seen, out, n - 1); } }
    ParentsFirstGrows(f, c, seen, out, mid);
    RestGrows(f, chain, c, seen, out, mid);
  }

  lemma InPartition(chain: seq<nat>, n: nat, seen: set<nat>, out: seq<nat>, i: nat)
    requires Partition(chain, n, seen, out) && i < n
    ensures chain[i] in out
  {}

  lemma {:induction false} SpreadKeeps(f: Forest, chain: seq<nat>, n: nat, seen: set<nat>, out: seq<nat>)
    requires IsTree(f) && n <= |chain| && NoRepeats(chain) && (n == 0 ==> out == [])
    requires forall c :: c in chain ==> c < |f|
    requires forall i :: 0 < i < |chain| ==> chain[i] < |f| && f[chain[i]].parent == Some(chain[i - 1])
    requires Along(f, chain, n, seen, out)
    ensures forall c :: c in chain[n..] ==> c < |f|
    ensures var after := Spread(f, chain[n..], seen, out); Along(f, chain, |chain|, after.0, after.1)
    decreases |chain| - n
  {
    hide Along, IsTree, NoRepeats, Adds;
    assert forall c :: c in chain[n..] ==> c in chain;
    if n == |chain| {
      assert chain[n..] == [];
    } else {
      var c := chain[n];
      assert chain[n..][0] == c && chain[n..][1..] == chain[n + 1..];
      assert c in chain;
      var mid := Collect(f, c, 0, seen, out + [c]);
      CollectAdds(f, c, 0, seen, out + [c]);
      ServedByAll(f, c, mid.0);
      AlongGrows(f, chain, n, seen, out, mid);
      SpreadKeeps(f, chain, n + 1, mid.0, mid.1);
    }
  }

  // ---- Exactness ----

  lemma {:induction false} CollectedApplies(f: Forest, leaf: nat, out: seq<nat>, seen: set<nat>, j: nat)
    requires IsTree(f) && leaf < |f| && j < |out| && Along(f, Chain(f, leaf), |Chain(f, leaf)|, seen, out)
    ensures out[j] < |f| && Applies(f, leaf, out[j])
    decreases j
  {
    hide IsTree, NoRepeats, AllServed, Partition, Chain;
    var x := out[j];
    ChainIsAncestry(f, leaf);
    if x in Chain(f, leaf) {
      assert AncestorOrSelf(f, x, leaf) && Through(f, x, x);
    } else {
      assert j > 0 by { InChain(f, leaf, out); }
      var p := f[x].parent.value;
      var i :| 0 <= i < j && out[i] == p;
      CollectedApplies(f, leaf, out, seen, i);
      ParentIsEarlier(f, x);
      var a :| AncestorOrSelf(f, a, leaf) && Through(f, a, p);
      assert Through(f, a, x);
    }
  }

  lemma InChain(f: Forest, leaf: nat, out: seq<nat>)
    requires IsTree(f) && leaf < |f| && |Chain(f, leaf)| > 0 && |out| > 0 && out[0] == Chain(f, leaf)[0]
    ensures out[0] in Chain(f, leaf)
  {}

  lemma ParentIsEarlier(f: Forest, c: nat)
    requires IsTree(f) && c < |f| && (c > 0 || f[c].parent.Some?)
    ensures f[c].parent.Some? && f[c].parent.value < c && c in f[f[c].parent.value].children
  {}

  lemma {:induction false} ReachedIsCollected(f: Forest, leaf: nat, out: seq<nat>, seen: set<nat>, a: nat, c: nat)
    requires IsTree(f) && leaf < |f| && c < |f| && Along(f, Chain(f, leaf), |Chain(f, leaf)|, seen, out)
    requires a in Chain(f, leaf) && Through(f, a, c)
    ensures c in out
    decreases c
  {
    hide IsTree, NoRepeats, FromChain, ParentsFirst, Chain;
    var chain := Chain(f, leaf);
    if a == c {
      var i :| 0 <= i < |chain| && chain[i] == a;
    } else {
      var p := f[c].parent.value;
      ReachedIsCollected(f, leaf, out, seen, a, p);
      ParentIsEarlier(f, c);
      var j :| 0 <= j < |out| && out[j] == p;
      assert Served(f, out[j], seen);
      var k :| 0 <= k < |f[p].children| && f[p].children[k] == c;
      assert c in seen;
    }
  }

  lemma ScopeIsAlong(f: Forest, leaf: nat) returns (seen: set<nat>)
    requires IsTree(f) && leaf < |f|
    ensures Along(f, Chain(f, leaf), |Chain(f, leaf)|, seen, ScopeContexts(f, leaf))
  {
    hide IsTree, Chain, Spread;
    var chain := Chain(f, leaf);
    ChainIsAncestry(f, leaf);
    assert chain[0..] == chain;
    SpreadKeeps(f, chain, 0, Elements(chain), []);
    seen := Spread(f, chain, Elements(chain), []).0;
  }

  lemma CollectedAre(f: Forest, leaf: nat, out: seq<nat>, seen: set<nat>)
    requires IsTree(f) && leaf < |f| && Along(f, Chain(f, leaf), |Chain(f, leaf)|, seen, out)
    ensures forall c :: c in out ==> c < |f| && Applies(f, leaf, c)
    ensures forall c: nat :: c < |f| && Applies(f, leaf, c) ==> c in out
  {
    hide IsTree, Chain, Along, Applies;
    forall c | c in out ensures c < |f| && Applies(f, leaf, c) {
      var j :| 0 <= j < |out| && out[j] == c;
      CollectedApplies(f, leaf, out, seen, j);
    }
    forall c: nat | c < |f| && Applies(f, leaf, c) ensures c in out {
      var a := AppliesFrom(f, leaf, c);
      ReachedIsCollected(f, leaf, out, seen, a, c);
    }
  }

  lemma AppliesFrom(f: Forest, leaf: nat, c: nat) returns (a: nat)
    requires IsTree(f) && leaf < |f| && c < |f| && Applies(f, leaf, c)
    ensures a in Chain(f, leaf) && Through(f, a, c)
  {
    hide IsTree, Chain, Through;
    a :| AncestorOrSelf(f, a, leaf) && Through(f, a, c);
    ChainIsAncestry(f, leaf);
  }

  /** The contexts collected for a leaf are exactly those that apply, each once, each after its
      parent, the root first. */
  lemma ScopeIsExact(f: Forest, leaf: nat)
    requires IsTree(f) && leaf < |f|
    ensures var out := ScopeContexts(f, leaf);
      && (forall c :: c in out ==> c < |f| && Applies(f, leaf, c))
      && (forall c: nat :: c < |f| && Applies(f, leaf, c) ==> c in out)
      && NoRepeats(out) && |out| > 0 && out[0] == 0 && ParentsFirst(f, out)
  {
    hide IsTree, Chain, ScopeContexts, Applies, Partition, AllServed, FromChain, ParentsFirst, NoRepeats;
    var seen := ScopeIsAlong(f, leaf);
    CollectedAre(f, leaf, ScopeContexts(f, leaf), seen);
    ChainIsAncestry(f, leaf);
  }
}
