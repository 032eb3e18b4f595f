module ScopeHooks {
  // What a resolved scope holds, and the guards of a request that matched no route.

  import opened Options
  import opened ScopeModel

  // ---- Resolution ----

  predicate In(f: Forest, cs: seq<nat>) {
    forall i :: 0 <= i < |cs| ==> cs[i] < |f|
  }

  function HooksOf(f: Forest, cs: seq<nat>): Hooks
    requires In(f, cs)
  {
    if cs == [] then NO_HOOKS else Joined(HooksOf(f, cs[..|cs| - 1]), f[cs[|cs| - 1]].hooks)
  }

  function Own(c: Ctx, reply: bool): Decorations { if reply then c.reply else c.request }

  /** Request or reply decorations of a list of contexts, later ones overwriting. */
  function DecorationsOf(f: Forest, cs: seq<nat>, reply: bool): Decorations
    requires In(f, cs)
  {
    if cs == [] then map[] else DecorationsOf(f, cs[..|cs| - 1], reply) + Own(f[cs[|cs| - 1]], reply)
  }

  datatype Scope = Scope(hooks: Hooks, request: Decorations, reply: Decorations)

  lemma ScopeIsInForest(f: Forest, leaf: nat)
    requires IsTree(f) && leaf < |f|
    ensures In(f, ScopeContexts(f, leaf))
  {
    hide ParentsFirst, NoRepeats, ScopeContexts, Applies;
    ScopeIsExact(f, leaf);
    forall i | 0 <= i < |ScopeContexts(f, leaf)| ensures ScopeContexts(f, leaf)[i] < |f| {
      assert ScopeContexts(f, leaf)[i] in ScopeContexts(f, leaf);
    }
  }

  /** `resolveBinding` */
  function Resolve(f: Forest, leaf: nat, local: LocalHooks): Scope
    requires IsTree(f) && leaf < |f|
  {
    ScopeIsInForest(f, leaf);
    var cs := ScopeContexts(f, leaf);
    Scope(Joined(HooksOf(f, cs), Local(local)), DecorationsOf(f, cs, false), DecorationsOf(f, cs, true))
  }

  lemma NamedJoins(a: Hooks, b: Hooks, name: HookName)
    ensures Named(Joined(a, b), name) == Named(a, name) + Named(b, name)
  {}

  lemma {:induction false} HooksOfHolds(f: Forest, cs: seq<nat>, name: HookName, h: Hook)
    requires In(f, cs)
    ensures h in Named(HooksOf(f, cs), name) <==> exists c :: c in cs && c < |f| && h in Named(f[c].hooks, name)
  {
    hide Named, Joined;
    if cs == [] {
      assert Named(NO_HOOKS, name) == [] by { NoneNamed(name); }
    } else {
      var front, last := cs[..|cs| - 1], cs[|cs| - 1];
      assert cs == front + [last];
      HooksOfHolds(f, front, name, h);
      NamedJoins(HooksOf(f, front), f[last].hooks, name);
    }
  }

  lemma NoneNamed(name: HookName)
    ensures Named(NO_HOOKS, name) == []
  {}

  /** A hook runs for a route exactly when it is the route's own or was added to a context that
      is an ancestor-or-self of the route's, or is reached from one through transparent
      children only; the route's own hooks run last. */
  lemma HooksAreScoped(f: Forest, leaf: nat, local: LocalHooks, name: HookName, h: Hook)
    requires IsTree(f) && leaf < |f|
    ensures var hooks := Named(Resolve(f, leaf, local).hooks, name);
      && (h in hooks <==>
            (h in Named(Local(local), name) || exists c: nat :: c < |f| && Applies(f, leaf, c) && h in Named(f[c].hooks, name)))
      && hooks[|hooks| - |Named(Local(local), name)|..] == Named(Local(local), name)
  {
    hide IsTree, ScopeContexts, Applies, Named, Joined, ParentsFirst, NoRepeats;
    ScopeIsExact(f, leaf);
    var cs := ScopeContexts(f, leaf);
    ScopeIsInForest(f, leaf);
    NamedJoins(HooksOf(f, cs), Local(local), name);
    HooksOfHolds(f, cs, name, h);
  }

  lemma {:induction false} HooksOfSplits(f: Forest, cs: seq<nat>, i: nat, name: HookName)
    requires In(f, cs) && i < |cs|
    ensures In(f, cs[..i]) && Named(HooksOf(f, cs[..i]), name) + Named(f[cs[i]].hooks, name) <= Named(HooksOf(f, cs), name)
    decreases |cs|
  {
    hide Named, Joined;
    var front, last := cs[..|cs| - 1], cs[|cs| - 1];
    NamedJoins(HooksOf(f, front), f[last].hooks, name);
    if i < |cs| - 1 {
      assert front[..i] == cs[..i] && front[i] == cs[i];
      HooksOfSplits(f, front, i, name);
    }
  }

  lemma HooksOfSplitTwice(f: Forest, cs: seq<nat>, i: nat, j: nat, name: HookName) returns (before: seq<Hook>, between: seq<Hook>)
    requires In(f, cs) && i < j < |cs|
    ensures before + Named(f[cs[i]].hooks, name) + between + Named(f[cs[j]].hooks, name) <= Named(HooksOf(f, cs), name)
  {
    hide Named, HooksOf;
    HooksOfSplits(f, cs, j, name);
    assert cs[..j][i] == cs[i];
    HooksOfSplits(f, cs[..j], i, name);
    before := Named(HooksOf(f, cs[..j][..i]), name);
    var head := before + Named(f[cs[i]].hooks, name);
    between := Named(HooksOf(f, cs[..j]), name)[|head|..];
    assert head + between == Named(HooksOf(f, cs[..j]), name);
  }

  /** A context's hooks run after all of its parent's. */
  lemma ParentHooksRunFirst(f: Forest, leaf: nat, local: LocalHooks, name: HookName, c: nat) returns (before: seq<Hook>, between: seq<Hook>)
    requires IsTree(f) && 0 < c < |f| && leaf < |f| && Applies(f, leaf, c)
    ensures f[c].parent.Some? && f[c].parent.value < c
    ensures before + Named(f[f[c].parent.value].hooks, name) + between + Named(f[c].hooks, name)
      <= Named(Resolve(f, leaf, local).hooks, name)
  {
    hide ScopeContexts, Applies, Named, Joined, NoRepeats, IsTree, HooksOf;
    ParentIsEarlier(f, c);
    ScopeIsExact(f, leaf);
    ScopeIsInForest(f, leaf);
    var cs := ScopeContexts(f, leaf);
    var j :| 0 <= j < |cs| && cs[j] == c;
    var i :| 0 <= i < j && cs[..j][i] == f[c].parent.value;
    before, between := HooksOfSplitTwice(f, cs, i, j, name);
    NamedJoins(HooksOf(f, cs), Local(local), name);
  }

  /** Member `i` has the decoration and no later one does. */
  ghost predicate HasLast(f: Forest, cs: seq<nat>, reply: bool, key: string, i: nat) {
    && i < |cs| && cs[i] < |f| && key in Own(f[cs[i]], reply)
    && forall j :: i < j < |cs| && cs[j] < |f| ==> key !in Own(f[cs[j]], reply)
  }

  /** Nearer scopes win: a decoration is the one of the last applying context that has it. */
  lemma {:induction false} DecorationIsNearest(f: Forest, cs: seq<nat>, reply: bool, key: string)
    requires In(f, cs)
    ensures key in DecorationsOf(f, cs, reply) <==> exists i: nat :: HasLast(f, cs, reply, key, i)
    ensures forall i: nat :: HasLast(f, cs, reply, key, i) ==>
      key in DecorationsOf(f, cs, reply) && DecorationsOf(f, cs, reply)[key] == Own(f[cs[i]], reply)[key]
  {
    hide Own, HasLast;
    if cs == [] {
      forall i: nat ensures !HasLast(f, cs, reply, key, i) { NoLast(f, cs, reply, key, i); }
    } else {
      var front := cs[..|cs| - 1];
      DecorationIsNearest(f, front, reply, key);
      forall i: nat { LastOfLonger(f, cs, reply, key, i); }
      if i: nat :| HasLast(f, front, reply, key, i) { LastOfLonger(f, cs, reply, key, i); }
      LastOfLonger(f, cs, reply, key, |cs| - 1);
    }
  }

  /** The request decoration of the last listed context that has the key. */
  ghost predicate IsLastRequest(f: Forest, cs: seq<nat>, key: string, d: Decorations)
    requires In(f, cs)
  {
    forall i :: 0 <= i < |cs| && key in f[cs[i]].request && (forall j :: i < j < |cs| ==> key !in f[cs[j]].request) ==>
      key in d && d[key] == f[cs[i]].request[key]
  }

  /** The reply decoration of the last listed context that has the key. */
  ghost predicate IsLastReply(f: Forest, cs: seq<nat>, key: string, d: Decorations)
    requires In(f, cs)
  {
    forall i :: 0 <= i < |cs| && key in f[cs[i]].reply && (forall j :: i < j < |cs| ==> key !in f[cs[j]].reply) ==>
      key in d && d[key] == f[cs[i]].reply[key]
  }

  /** A route's request decorations are those of the contexts that apply to it, the last of them that
      has the key deciding; and so are its reply decorations. */
  lemma DecorationsAreScoped(f: Forest, leaf: nat, local: LocalHooks, key: string)
    requires IsTree(f) && leaf < |f|
    ensures var cs, r := ScopeContexts(f, leaf), Resolve(f, leaf, local);
      && In(f, cs) && IsLastRequest(f, cs, key, r.request) && IsLastReply(f, cs, key, r.reply)
      && (key in r.request <==> exists c: nat :: c < |f| && Applies(f, leaf, c) && key in f[c].request)
      && (key in r.reply <==> exists c: nat :: c < |f| && Applies(f, leaf, c) && key in f[c].reply)
  {
    ScopeIsInForest(f, leaf);
    var cs := ScopeContexts(f, leaf);
    ResolvedDecorations(f, leaf, local);
    hide *;
    RequestOf(f, cs, key);
    ReplyOf(f, cs, key);
    MembersApply(f, leaf);
  }

  lemma MembersApply(f: Forest, leaf: nat)
    requires IsTree(f) && leaf < |f|
    ensures forall c: nat :: c in ScopeContexts(f, leaf) <==> c < |f| && Applies(f, leaf, c)
  {
    ScopeIsExact(f, leaf);
    hide IsTree, ScopeContexts, Applies, NoRepeats, ParentsFirst;
  }

  lemma ResolvedDecorations(f: Forest, leaf: nat, local: LocalHooks)
    requires IsTree(f) && leaf < |f|
    ensures In(f, ScopeContexts(f, leaf))
    ensures Resolve(f, leaf, local).request == DecorationsOf(f, ScopeContexts(f, leaf), false)
    ensures Resolve(f, leaf, local).reply == DecorationsOf(f, ScopeContexts(f, leaf), true)
  {
    ScopeIsInForest(f, leaf);
  }

  lemma RequestOf(f: Forest, cs: seq<nat>, key: string)
    requires In(f, cs)
    ensures var d := DecorationsOf(f, cs, false);
      IsLastRequest(f, cs, key, d) && (key in d <==> exists c :: c in cs && c < |f| && key in f[c].request)
  {
    DecorationIsNearest(f, cs, false, key);
    DecoratedSomewhere(f, cs, false, key);
    hide DecorationsOf;
    forall i | 0 <= i < |cs| && key in f[cs[i]].request && (forall j :: i < j < |cs| ==> key !in f[cs[j]].request)
      ensures HasLast(f, cs, false, key, i) {}
  }

  lemma ReplyOf(f: Forest, cs: seq<nat>, key: string)
    requires In(f, cs)
    ensures var d := DecorationsOf(f, cs, true);
      IsLastReply(f, cs, key, d) && (key in d <==> exists c :: c in cs && c < |f| && key in f[c].reply)
  {
    DecorationIsNearest(f, cs, true, key);
    DecoratedSomewhere(f, cs, true, key);
    hide DecorationsOf;
    forall i | 0 <= i < |cs| && key in f[cs[i]].reply && (forall j :: i < j < |cs| ==> key !in f[cs[j]].reply)
      ensures HasLast(f, cs, true, key, i) {}
  }

  lemma {:induction false} DecoratedSomewhere(f: Forest, cs: seq<nat>, reply: bool, key: string)
    requires In(f, cs)
    ensures key in DecorationsOf(f, cs, reply) <==> exists c :: c in cs && c < |f| && key in Own(f[c], reply)
  {
    hide Own;
    if cs != [] {
      var front, last := cs[..|cs| - 1], cs[|cs| - 1];
      assert cs == front + [last];
      DecoratedSomewhere(f, front, reply, key);
    }
  }

  lemma NoLast(f: Forest, cs: seq<nat>, reply: bool, key: string, i: nat)
    requires cs == []
    ensures !HasLast(f, cs, reply, key, i)
  {}

  lemma LastOfLonger(f: Forest, cs: seq<nat>, reply: bool, key: string, i: nat)
    requires In(f, cs) && cs != []
    ensures HasLast(f, cs, reply, key, i) <==>
      (if key in Own(f[cs[|cs| - 1]], reply) then i == |cs| - 1 else HasLast(f, cs[..|cs| - 1], reply, key, i))
    ensures HasLast(f, cs[..|cs| - 1], reply, key, i) ==> i < |cs| - 1
  {
    hide Own;
    assert forall j :: 0 <= j < |cs| - 1 ==> cs[..|cs| - 1][j] == cs[j];
  }

  // ---- Changes to the forest ----

  function WithHook(h: Hooks, name: HookName, hook: Hook): Hooks {
    match name
    case OnRequest => h.(onRequest := h.onRequest + [hook])
    case PreParsing => h.(preParsing := h.preParsing + [hook])
    case PreValidation => h.(preValidation := h.preValidation + [hook])
    case PreHandler => h.(preHandler := h.preHandler + [hook])
    case PreSerialization => h.(preSerialization := h.preSerialization + [hook])
    case OnSend => h.(onSend := h.onSend + [hook])
    case OnResponse => h.(onResponse := h.onResponse + [hook])
    case OnError => h.(onError := h.onError + [hook])
  }

  /** Under its name the hook is the last, and no other list changes. */
  lemma AddedHookIsNamed(h: Hooks, name: HookName, hook: Hook, other: HookName)
    ensures Named(WithHook(h, name, hook), other) == Named(h, other) + if other == name then [hook] else []
  {}

  /** A route's own hooks keep their names; there are none under the other names. */
  lemma OwnHooksAreNamed(l: LocalHooks, name: HookName)
    ensures Named(Local(l), OnRequest) == l.onRequest && Named(Local(l), PreHandler) == l.preHandler
    ensures Named(Local(l), PreSerialization) == l.preSerialization && Named(Local(l), OnSend) == l.onSend
    ensures name !in {OnRequest, PreHandler, PreSerialization, OnSend} ==> Named(Local(l), name) == []
  {}

  /** The forest after `addHook`. */
  function HookAdded(f: Forest, c: nat, name: HookName, hook: Hook): Forest
    requires c < |f|
  {
    f[c := f[c].(hooks := WithHook(f[c].hooks, name, hook))]
  }

  lemma {:induction false} SameAncestry(f: Forest, g: Forest, a: nat, c: nat)
    requires SameShape(f, g) && c < |f|
    ensures AncestorOrSelf(f, a, c) <==> AncestorOrSelf(g, a, c)
    ensures Through(f, a, c) <==> Through(g, a, c)
    decreases c
  {
    if f[c].parent.Some? && f[c].parent.value < c { SameAncestry(f, g, a, f[c].parent.value); }
  }

  lemma SameApplies(f: Forest, g: Forest, leaf: nat, c: nat)
    requires SameShape(f, g) && leaf < |f| && c < |f|
    ensures Applies(f, leaf, c) <==> Applies(g, leaf, c)
  {
    if a :| AncestorOrSelf(f, a, leaf) && Through(f, a, c) {
      SameAncestry(f, g, a, leaf);
      SameAncestry(f, g, a, c);
    }
    if a :| AncestorOrSelf(g, a, leaf) && Through(g, a, c) {
      SameAncestry(g, f, a, leaf);
      SameAncestry(g, f, a, c);
    }
  }

  /** An added hook runs, under its name, for exactly the routes its context applies to; and it
      changes nothing else, under any name and for any route. */
  lemma AddedHookRuns(f: Forest, c: nat, name: HookName, hook: Hook, leaf: nat, local: LocalHooks, other: HookName, h: Hook)
    requires IsTree(f) && c < |f| && leaf < |f|
    ensures var g := HookAdded(f, c, name, hook);
      && IsTree(g) && |g| == |f|
      && (h in Named(Resolve(g, leaf, local).hooks, other) <==>
            (h in Named(Resolve(f, leaf, local).hooks, other) || (other == name && h == hook && Applies(f, leaf, c))))
  {
    hide *;
    var g := HookAdded(f, c, name, hook);
    HookAddedIsTree(f, c, name, hook);
    HooksAreScoped(f, leaf, local, other, h);
    HooksAreScoped(g, leaf, local, other, h);
    forall x: nat | x < |f|
      ensures Applies(g, leaf, x) <==> Applies(f, leaf, x)
      ensures h in Named(g[x].hooks, other) <==> h in Named(f[x].hooks, other) || (x == c && other == name && h == hook)
    {
      SameApplies(f, g, leaf, x);
      HookAddedAt(f, c, name, hook, x, other, h);
    }
  }

  lemma HookAddedIsTree(f: Forest, c: nat, name: HookName, hook: Hook)
    requires IsTree(f) && c < |f|
    ensures var g := HookAdded(f, c, name, hook); IsTree(g) && |g| == |f| && SameShape(f, g)
  {
    var g := HookAdded(f, c, name, hook);
    assert SameShape(f, g);
    SameShapeIsTree(f, g);
  }

  lemma HookAddedAt(f: Forest, c: nat, name: HookName, hook: Hook, x: nat, other: HookName, h: Hook)
    requires c < |f| && x < |f|
    ensures h in Named(HookAdded(f, c, name, hook)[x].hooks, other) <==>
      h in Named(f[x].hooks, other) || (x == c && other == name && h == hook)
  {
    AddedHookIsNamed(f[c].hooks, name, hook, other);
    hide Named, WithHook;
  }

  /** `createChild` */
  function AddChild(f: Forest, p: nat, own: string): Forest
    requires p < |f|
  {
    f[p := f[p].(children := f[p].children + [|f|])]
    + [Ctx(Some(p), f[p].prefix + own, own == "", [], NO_HOOKS, map[], map[])]
  }

  lemma AddChildKeepsTree(f: Forest, p: nat, own: string)
    requires IsTree(f) && p < |f|
    ensures IsTree(AddChild(f, p, own))
  {
    var g := AddChild(f, p, own);
    forall c | 0 < c < |g| ensures g[c].parent.Some? && g[c].parent.value < c && c in g[g[c].parent.value].children {
      if c < |f| {
        assert c in f[f[c].parent.value].children;
      } else {
        assert g[p].children[|f[p].children|] == |f|;
      }
    }
    forall q, k | 0 <= q < |g| && 0 <= k < |g[q].children| ensures IsChild(g, q, g[q].children[k]) {
      if q < |f| && k < |f[q].children| { assert IsChild(f, q, f[q].children[k]); }
    }
  }

  /** Prefixes extend their parents' in any case. */
  lemma AddChildKeepsExtending(f: Forest, p: nat, own: string)
    requires IsTree(f) && Extending(f) && p < |f|
    ensures Extending(AddChild(f, p, own))
  {
    assert (f[p].prefix + own)[|f[p].prefix|..] == own;
  }

  /** And they keep nesting when each new one does. */
  lemma AddChildKeepsPrefixed(f: Forest, p: nat, own: string)
    requires IsTree(f) && Prefixed(f) && p < |f| && Nests(f[p].prefix, own)
    ensures Prefixed(AddChild(f, p, own))
  {
    AddChildKeepsExtending(f, p, own);
    hide Extending, Nests;
    assert (f[p].prefix + own)[|f[p].prefix|..] == own;
  }

  /** The same forest but for what one context owns. */
  ghost predicate SameShape(f: Forest, g: Forest) {
    |f| == |g| && forall c :: 0 <= c < |f| ==>
      f[c].parent == g[c].parent && f[c].prefix == g[c].prefix && f[c].transparent == g[c].transparent && f[c].children == g[c].children
  }

  lemma SameShapeIsTree(f: Forest, g: Forest)
    requires IsTree(f) && SameShape(f, g)
    ensures IsTree(g) && (Prefixed(f) ==> Prefixed(g))
  {
    forall q, k | 0 <= q < |g| && 0 <= k < |g[q].children| ensures IsChild(g, q, g[q].children[k]) {
      assert IsChild(f, q, f[q].children[k]);
    }
  }

  // ---- Guards of an unrouted request ----

  predicate StartsWith(s: string, prefix: string) { |prefix| <= |s| && s[..|prefix|] == prefix }

  /** `prefixCoversPath` */
  predicate Covers(prefix: string, pathname: string) {
    prefix == "" || prefix == "/" ||
    var base := if prefix[|prefix| - 1] == '/' then prefix[..|prefix| - 1] else prefix;
    pathname == base || StartsWith(pathname, base + "/")
  }

  /** A prefix of one's own continues the parent's at a segment boundary. */
  predicate Nests(prefix: string, own: string) {
    prefix == "" || own == "" || own[0] == '/' || prefix[|prefix| - 1] == '/'
  }

  /** Contexts extend their parent's prefix; the transparent ones by nothing. */
  ghost predicate Extending(f: Forest) {
    forall c :: 0 < c < |f| && f[c].parent.Some? && f[c].parent.value < c ==>
      var p := f[f[c].parent.value].prefix;
      |p| <= |f[c].prefix| && f[c].prefix[..|p|] == p && (f[c].transparent <==> f[c].prefix == p)
  }

  /** And they do so at segment boundaries. */
  ghost predicate Prefixed(f: Forest) {
    Extending(f) && forall c :: 0 < c < |f| && f[c].parent.Some? && f[c].parent.value < c ==>
      var p := f[f[c].parent.value].prefix;
      |p| <= |f[c].prefix| && Nests(p, f[c].prefix[|p|..])
  }

  function Base(prefix: string): string
    requires prefix != ""
  {
    if prefix[|prefix| - 1] == '/' then prefix[..|prefix| - 1] else prefix
  }

  /** A covered path continues the prefix's base. */
  lemma CoveredStarts(prefix: string, pathname: string)
    requires Covers(prefix, pathname) && prefix != "" && prefix != "/"
    ensures StartsWith(pathname, Base(prefix)) && (|pathname| > |Base(prefix)| ==> pathname[|Base(prefix)|] == '/')
  {
    var base := Base(prefix);
    if pathname != base { assert pathname[..|base|] == (base + "/")[..|base|]; }
  }

  /** A child's prefix covers no path its parent's does not. */
  lemma CoversUp(prefix: string, own: string, pathname: string)
    requires Nests(prefix, own) && Covers(prefix + own, pathname)
    ensures Covers(prefix, pathname)
  {
    if own == "" {
      assert prefix + own == prefix;
    } else if prefix != "" && prefix != "/" {
      var full, base := prefix + own, Base(prefix);
      CoveredStarts(full, pathname);
      assert full[|full| - 1] == own[|own| - 1];
      assert Base(full)[..|prefix|] == prefix && pathname[..|prefix|] == pathname[..|Base(full)|][..|prefix|] == prefix;
      if prefix == base {
        if |pathname| > |prefix| {
          assert pathname[|prefix|] == '/' by {
            if |Base(full)| > |prefix| { assert pathname[|prefix|] == Base(full)[|prefix|] == own[0]; }
          }
          assert pathname[..|base + "/"|] == base + "/";
        } else {
          assert pathname == prefix;
        }
      } else {
        assert prefix == base + "/";
      }
    }
  }

  /** And it is so for every path exactly when prefixes nest at segment boundaries: `/a` with
      a child `b` would leave `/ab` covered by the child alone. */
  lemma NestingIsNeeded(prefix: string, own: string)
    ensures Nests(prefix, own) <==> forall pathname :: Covers(prefix + own, pathname) ==> Covers(prefix, pathname)
  {
    if Nests(prefix, own) {
      forall pathname | Covers(prefix + own, pathname) ensures Covers(prefix, pathname) { CoversUp(prefix, own, pathname); }
    } else {
      var full := prefix + own;
      var pathname := Base(full);
      assert Covers(full, pathname);
      assert pathname[|prefix|] == own[0] && (prefix + "/")[|prefix|] == '/';
      assert pathname[..|prefix| + 1][|prefix|] == own[0];
    }
  }

  /** The contexts `onRequestHooksForPath` visits, from child number `i` on. */
  function Visit(f: Forest, c: nat, i: nat, pathname: string): seq<nat>
    requires IsTree(f) && c < |f| && i <= |f[c].children|
    decreases |f| - c, |f[c].children| - i
  {
    if i == |f[c].children| then []
    else
      assert IsChild(f, c, f[c].children[i]);
      var k := f[c].children[i];
      (if f[k].transparent then Visit(f, k, 0, pathname)
       else if !Covers(f[k].prefix, pathname) then []
       else [k] + Visit(f, k, 0, pathname))
      + Visit(f, c, i + 1, pathname)
  }

  lemma VisitUnfolds(f: Forest, c: nat, i: nat, pathname: string)
    requires IsTree(f) && c < |f| && i < |f[c].children|
    ensures var k := f[c].children[i];
      && IsChild(f, c, k)
      && Visit(f, c, i, pathname) ==
           (if f[k].transparent then Visit(f, k, 0, pathname)
            else if !Covers(f[k].prefix, pathname) then [] else [k] + Visit(f, k, 0, pathname)) + Visit(f, c, i + 1, pathname)
  {
    hide Covers;
  }

  lemma VisitEnds(f: Forest, c: nat, pathname: string)
    requires IsTree(f) && c < |f|
    ensures Visit(f, c, |f[c].children|, pathname) == []
  {}

  /** What is listed so far, and what is still to come, is the whole visit. */
  ghost predicate Visiting(f: Forest, c: nat, i: nat, pathname: string, ids: seq<nat>, now: seq<nat>)
    requires IsTree(f) && c < |f| && i <= |f[c].children|
  {
    now + Visit(f, c, i, pathname) == ids + Visit(f, c, 0, pathname)
  }

  lemma VisitingStarts(f: Forest, c: nat, pathname: string, ids: seq<nat>)
    requires IsTree(f) && c < |f|
    ensures Visiting(f, c, 0, pathname, ids, ids)
  {}

  lemma VisitingStep(f: Forest, c: nat, i: nat, pathname: string, ids: seq<nat>, now: seq<nat>)
    requires IsTree(f) && c < |f| && i < |f[c].children| && Visiting(f, c, i, pathname, ids, now)
    ensures var k := f[c].children[i];
      && IsChild(f, c, k)
      && Visiting(f, c, i + 1, pathname, ids,
           if f[k].transparent then now + Visit(f, k, 0, pathname)
           else if Covers(f[k].prefix, pathname) then now + [k] + Visit(f, k, 0, pathname)
           else now)
  {
    VisitUnfolds(f, c, i, pathname);
    hide IsTree, Visit, Covers;
    var k := f[c].children[i];
    Regroup(now, [k], Visit(f, k, 0, pathname), Visit(f, c, i + 1, pathname));
  }

  lemma Regroup(a: seq<nat>, b: seq<nat>, c: seq<nat>, d: seq<nat>)
    ensures a + ((b + c) + d) == a + b + c + d && a + (c + d) == a + c + d && a + ([] + d) == a + d
  {}

  lemma VisitingEnds(f: Forest, c: nat, pathname: string, ids: seq<nat>, now: seq<nat>)
    requires IsTree(f) && c < |f| && Visiting(f, c, |f[c].children|, pathname, ids, now)
    ensures now == ids + Visit(f, c, 0, pathname)
  {
    VisitEnds(f, c, pathname);
  }

  /** Every prefixed context from below the root down to `k` covers the path. */
  ghost predicate AllCover(f: Forest, k: nat, pathname: string)
    requires k < |f|
  {
    forall c :: 0 < c < |f| && AncestorOrSelf(f, c, k) && !f[c].transparent ==> Covers(f[c].prefix, pathname)
  }

  lemma AllCoverBelow(f: Forest, p: nat, k: nat, pathname: string)
    requires IsTree(f) && p < |f| && IsChild(f, p, k)
    ensures AllCover(f, k, pathname) <==> AllCover(f, p, pathname) && (f[k].transparent || Covers(f[k].prefix, pathname))
  {
    hide Covers, IsTree;
    assert forall c :: AncestorOrSelf(f, c, k) <==> c == k || AncestorOrSelf(f, c, p);
  }

  lemma RootAllCover(f: Forest, pathname: string)
    requires IsTree(f)
    ensures AllCover(f, 0, pathname)
  {}

  lemma {:induction false} VisitIsSound(f: Forest, c: nat, i: nat, pathname: string)
    requires IsTree(f) && c < |f| && i <= |f[c].children| && AllCover(f, c, pathname)
    ensures forall k :: k in Visit(f, c, i, pathname) ==> 0 < k < |f| && !f[k].transparent && AllCover(f, k, pathname)
    decreases |f| - c, |f[c].children| - i
  {
    hide Covers, AllCover, IsTree, Visit;
    if i < |f[c].children| {
      var kid := f[c].children[i];
      VisitUnfolds(f, c, i, pathname);
      AllCoverBelow(f, c, kid, pathname);
      VisitIsSound(f, c, i + 1, pathname);
      if f[kid].transparent || Covers(f[kid].prefix, pathname) { VisitIsSound(f, kid, 0, pathname); }
    } else {
      VisitEnds(f, c, pathname);
    }
  }

  lemma {:induction false} AncestorCovers(f: Forest, a: nat, c: nat, pathname: string)
    requires IsTree(f) && Prefixed(f) && c < |f| && AncestorOrSelf(f, a, c) && Covers(f[c].prefix, pathname)
    ensures a <= c && Covers(f[a].prefix, pathname)
    decreases c
  {
    if a != c {
      hide Covers;
      var p := f[c].parent.value;
      var own := f[c].prefix[|f[p].prefix|..];
      assert f[c].prefix == f[p].prefix + own;
      CoversUp(f[p].prefix, own, pathname);
      AncestorCovers(f, a, p, pathname);
    }
  }

  lemma {:induction false} ChildTowards(f: Forest, a: nat, c: nat) returns (i: nat)
    requires IsTree(f) && c < |f| && AncestorOrSelf(f, a, c) && a != c
    ensures a < |f| && i < |f[a].children| && AncestorOrSelf(f, f[a].children[i], c)
    decreases c
  {
    var p := f[c].parent.value;
    if p == a {
      i :| 0 <= i < |f[a].children| && f[a].children[i] == c;
    } else {
      i := ChildTowards(f, a, p);
    }
  }

  lemma {:induction false} VisitIsComplete(f: Forest, c: nat, i: nat, pathname: string, j: nat, k: nat)
    requires IsTree(f) && c < |f| && i <= j < |f[c].children| && k < |f|
    requires AncestorOrSelf(f, f[c].children[j], k) && !f[k].transparent && AllCover(f, k, pathname)
    ensures k in Visit(f, c, i, pathname)
    decreases |f| - c, |f[c].children| - i
  {
    hide Covers, IsTree, Visit;
    VisitStep(f, c, i, pathname, k);
    if i < j {
      VisitIsComplete(f, c, i + 1, pathname, j, k);
    } else {
      var kid := f[c].children[i];
      if kid != k {
        var deeper := ChildTowards(f, kid, k);
        VisitIsComplete(f, kid, 0, pathname, deeper, k);
      }
    }
  }

  lemma VisitStep(f: Forest, c: nat, i: nat, pathname: string, k: nat)
    requires IsTree(f) && c < |f| && i < |f[c].children|
    ensures var kid := f[c].children[i];
      && IsChild(f, c, kid)
      && (k in Visit(f, c, i, pathname) <==>
            (k in Visit(f, c, i + 1, pathname)
             || (!f[kid].transparent && Covers(f[kid].prefix, pathname) && k == kid)
             || ((f[kid].transparent || Covers(f[kid].prefix, pathname)) && k in Visit(f, kid, 0, pathname))))
  {
    hide Covers;
    assert IsChild(f, c, f[c].children[i]);
  }

  lemma {:induction false} RootIsAncestor(f: Forest, c: nat)
    requires IsTree(f) && c < |f|
    ensures AncestorOrSelf(f, 0, c)
    decreases c
  {
    if c != 0 { RootIsAncestor(f, f[c].parent.value); }
  }

  /** The contexts visited are exactly the prefixed ones down to which every prefixed context
      covers the path. */
  lemma VisitIsExact(f: Forest, pathname: string, k: nat)
    requires IsTree(f) && 0 < k < |f|
    ensures k in Visit(f, 0, 0, pathname) <==> !f[k].transparent && AllCover(f, k, pathname)
  {
    hide Covers, IsTree, AllCover, Visit;
    RootIsAncestor(f, k);
    RootAllCover(f, pathname);
    VisitIsSound(f, 0, 0, pathname);
    if !f[k].transparent && AllCover(f, k, pathname) {
      var j := ChildTowards(f, 0, k);
      VisitIsComplete(f, 0, 0, pathname, j, k);
    }
  }

  lemma CoveringAllCover(f: Forest, c: nat, pathname: string)
    requires IsTree(f) && Prefixed(f) && c < |f| && Covers(f[c].prefix, pathname)
    ensures AllCover(f, c, pathname)
  {
    hide Covers, Prefixed;
    forall a | 0 < a < |f| && AncestorOrSelf(f, a, c) && !f[a].transparent ensures Covers(f[a].prefix, pathname) {
      AncestorCovers(f, a, c, pathname);
    }
  }

  /** No covering prefixed context is skipped, whatever the path. */
  ghost predicate NothingIsSkipped(f: Forest)
    requires IsTree(f)
  {
    forall pathname, k: nat :: 0 < k < |f| && !f[k].transparent && Covers(f[k].prefix, pathname) ==> k in Visit(f, 0, 0, pathname)
  }

  /** The nearest prefixed ancestor has the same prefix; there is none only below an empty one. */
  lemma {:induction false} NearestPrefixed(f: Forest, c: nat) returns (a: nat)
    requires IsTree(f) && Extending(f) && c < |f| && f[0].prefix == ""
    ensures a < |f| && AncestorOrSelf(f, a, c) && f[a].prefix == f[c].prefix
    ensures f[c].prefix != "" ==> 0 < a && !f[a].transparent
    decreases c
  {
    if c == 0 || !f[c].transparent { a := c; } else { a := NearestPrefixed(f, f[c].parent.value); }
  }

  /** Nothing covering is skipped for any path exactly when all prefixes nest at segment boundaries. */
  lemma NothingIsSkippedIff(f: Forest)
    requires IsTree(f) && Extending(f) && f[0].prefix == ""
    ensures NothingIsSkipped(f) <==> Prefixed(f)
  {
    if Prefixed(f) {
      hide IsTree, Prefixed, Covers, Visit, AllCover;
      forall pathname, k: nat | 0 < k < |f| && !f[k].transparent && Covers(f[k].prefix, pathname)
        ensures k in Visit(f, 0, 0, pathname)
      {
        CoveringAllCover(f, k, pathname);
        VisitIsExact(f, pathname, k);
      }
    }
    if NothingIsSkipped(f) {
      hide NothingIsSkipped;
      forall c | 0 < c < |f| ensures Nests(f[f[c].parent.value].prefix, f[c].prefix[|f[f[c].parent.value].prefix|..]) {
        SkippedUnlessNested(f, c);
      }
    }
  }

  lemma SkippedUnlessNested(f: Forest, c: nat)
    requires IsTree(f) && Extending(f) && f[0].prefix == "" && NothingIsSkipped(f) && 0 < c < |f|
    ensures var p := f[f[c].parent.value].prefix; Nests(p, f[c].prefix[|p|..])
  {
    hide Covers, AllCover, Visit;
    var p := f[c].parent.value;
    var own := f[c].prefix[|f[p].prefix|..];
    assert f[p].prefix + own == f[c].prefix;
    if f[p].prefix != "" && !f[c].transparent {
      var a := NearestPrefixed(f, p);
      forall pathname | Covers(f[p].prefix + own, pathname) ensures Covers(f[p].prefix, pathname) {
        VisitIsExact(f, pathname, c);
        CoverOf(f, a, c, pathname);
      }
      NestingIsNeeded(f[p].prefix, own);
    }
  }

  lemma CoverOf(f: Forest, a: nat, k: nat, pathname: string)
    requires IsTree(f) && 0 < a < |f| && k < |f| && AllCover(f, k, pathname) && AncestorOrSelf(f, a, k) && !f[a].transparent
    ensures Covers(f[a].prefix, pathname)
  {}

  /** Append the hooks not there yet, in order. */
  function AddNew(hooks: seq<Hook>, more: seq<Hook>): seq<Hook>
    decreases |more|
  {
    if more == [] then hooks else AddNew(if more[0] in hooks then hooks else hooks + [more[0]], more[1..])
  }

  const NO_LOCAL := LocalHooks([], [], [], [])

  /** The `onRequest` chain of a context that owns no route. */
  function Guards(f: Forest, c: nat): seq<Hook>
    requires IsTree(f) && c < |f|
  {
    Resolve(f, c, NO_LOCAL).hooks.onRequest
  }

  function AddGuards(f: Forest, hooks: seq<Hook>, matched: seq<nat>): seq<Hook>
    requires IsTree(f) && In(f, matched)
    decreases |matched|
  {
    if matched == [] then hooks
    else
      AddGuards(f, AddNew(hooks, Guards(f, matched[0])), matched[1..])
  }

  lemma AddGuardsStep(f: Forest, hooks: seq<Hook>, matched: seq<nat>, i: nat)
    requires IsTree(f) && i < |matched| && In(f, matched)
    ensures In(f, matched[i..]) && In(f, matched[i + 1..])
    ensures AddGuards(f, hooks, matched[i..]) == AddGuards(f, AddNew(hooks, Guards(f, matched[i])), matched[i + 1..])
  {
    hide IsTree, Guards, AddNew;
    var rest := matched[i..];
    assert rest[0] == matched[i] && rest[1..] == matched[i + 1..];
  }

  lemma AddGuardsEnds(f: Forest, hooks: seq<Hook>)
    requires IsTree(f)
    ensures AddGuards(f, hooks, []) == hooks
  {}

  lemma VisitedAreIn(f: Forest, pathname: string)
    requires IsTree(f)
    ensures In(f, Visit(f, 0, 0, pathname))
  {
    RootAllCover(f, pathname);
    VisitIsSound(f, 0, 0, pathname);
    var matched := Visit(f, 0, 0, pathname);
    forall i | 0 <= i < |matched| ensures matched[i] < |f| { assert matched[i] in matched; }
  }

  /** `onRequestHooksForPath` */
  function PathHooks(f: Forest, pathname: string): seq<Hook>
    requires IsTree(f)
  {
    VisitedAreIn(f, pathname);
    AddGuards(f, Guards(f, 0), Visit(f, 0, 0, pathname))
  }

  /** Whatever is appended is new. */
  ghost predicate Extended(hooks: seq<Hook>, r: seq<Hook>) {
    hooks <= r && forall i :: |hooks| <= i < |r| ==> r[i] !in r[..i]
  }

  lemma SameExtends(hooks: seq<Hook>)
    ensures Extended(hooks, hooks)
  {}

  lemma ExtendedThen(a: seq<Hook>, b: seq<Hook>, c: seq<Hook>)
    requires Extended(a, b) && Extended(b, c)
    ensures Extended(a, c)
  {
    forall i | |a| <= i < |c| ensures c[i] !in c[..i] {
      if i < |b| { assert c[..i] == b[..i] && c[i] == b[i]; }
    }
  }

  lemma {:induction false} AddNewExtends(hooks: seq<Hook>, more: seq<Hook>)
    ensures Extended(hooks, AddNew(hooks, more))
    ensures forall h :: h in AddNew(hooks, more) <==> h in hooks || h in more
    decreases |more|
  {
    if more != [] {
      var next := if more[0] in hooks then hooks else hooks + [more[0]];
      AddNewExtends(next, more[1..]);
      assert more == [more[0]] + more[1..];
      assert Extended(hooks, next);
      ExtendedThen(hooks, next, AddNew(hooks, more));
    }
  }

  lemma {:induction false} AddGuardsExtends(f: Forest, hooks: seq<Hook>, matched: seq<nat>)
    requires IsTree(f) && In(f, matched)
    ensures Extended(hooks, AddGuards(f, hooks, matched))
    ensures forall h :: h in AddGuards(f, hooks, matched) <==> h in hooks || exists c :: c in matched && c < |f| && h in Guards(f, c)
    decreases |matched|
  {
    hide IsTree, Guards, AddNew, Extended;
    if matched == [] {
      SameExtends(hooks);
    } else {
      assert matched == [matched[0]] + matched[1..];
      var next := AddNew(hooks, Guards(f, matched[0]));
      AddNewExtends(hooks, Guards(f, matched[0]));
      AddGuardsExtends(f, next, matched[1..]);
      ExtendedThen(hooks, next, AddGuards(f, hooks, matched));
    }
  }

  lemma {:induction false} ThroughParent(f: Forest, t: nat, x: nat)
    requires IsTree(f) && x < |f| && t < |f| && Through(f, t, x) && f[t].transparent && f[t].parent.Some?
    ensures Through(f, f[t].parent.value, x)
    decreases x
  {
    if t == x {
      assert Through(f, f[t].parent.value, f[t].parent.value);
    } else {
      ThroughParent(f, t, f[x].parent.value);
    }
  }

  /** A transparent context sees what its parent sees. */
  lemma TransparentAppliesAlike(f: Forest, t: nat, x: nat)
    requires IsTree(f) && 0 < t < |f| && x < |f| && f[t].transparent
    ensures f[t].parent.Some? && f[t].parent.value < t
    ensures Applies(f, t, x) <==> Applies(f, f[t].parent.value, x)
  {
    var p := f[t].parent.value;
    if Applies(f, t, x) {
      var a :| AncestorOrSelf(f, a, t) && Through(f, a, x);
      if a == t {
        ThroughParent(f, t, x);
        assert AncestorOrSelf(f, p, p);
      }
    }
    if Applies(f, p, x) {
      var a :| AncestorOrSelf(f, a, p) && Through(f, a, x);
      assert AncestorOrSelf(f, a, t);
    }
  }

  lemma GuardsAre(f: Forest, c: nat, h: Hook)
    requires IsTree(f) && c < |f|
    ensures h in Guards(f, c) <==> exists x: nat :: x < |f| && Applies(f, c, x) && h in f[x].hooks.onRequest
  {
    hide IsTree, Resolve, Applies;
    HooksAreScoped(f, c, NO_LOCAL, OnRequest, h);
  }

  /** The guards of a transparent context are those of the nearest prefixed one, or the root's. */
  lemma {:induction false} GuardsOfTransparent(f: Forest, c: nat, pathname: string, h: Hook) returns (owner: nat)
    requires IsTree(f) && c < |f| && h in Guards(f, c) && AllCover(f, c, pathname)
    ensures owner < |f| && h in Guards(f, owner)
    ensures owner == 0 || (!f[owner].transparent && AllCover(f, owner, pathname))
    decreases c
  {
    hide Guards, Applies, Covers, AllCover;
    if c == 0 || !f[c].transparent {
      owner := c;
    } else {
      var p := f[c].parent.value;
      GuardsAre(f, c, h);
      var x: nat :| x < |f| && Applies(f, c, x) && h in f[x].hooks.onRequest;
      TransparentAppliesAlike(f, c, x);
      GuardsAre(f, p, h);
      AllCoverBelow(f, p, c, pathname);
      owner := GuardsOfTransparent(f, p, pathname, h);
    }
  }

  /** An unrouted request runs the root chain first, then every further guard of a context down to
      which every prefixed context covers the path, none of them again. */
  lemma PathHooksAre(f: Forest, pathname: string, h: Hook)
    requires IsTree(f)
    ensures Extended(Guards(f, 0), PathHooks(f, pathname))
    ensures h in PathHooks(f, pathname) <==> exists c: nat :: c < |f| && AllCover(f, c, pathname) && h in Guards(f, c)
  {
    assert |f| > 0;
    hide IsTree, Guards, Covers, Visit, AddGuards, Extended, AllCover;
    RootAllCover(f, pathname);
    VisitIsSound(f, 0, 0, pathname);
    VisitedAreIn(f, pathname);
    var matched := Visit(f, 0, 0, pathname);
    AddGuardsExtends(f, Guards(f, 0), matched);
    if c: nat :| c < |f| && AllCover(f, c, pathname) && h in Guards(f, c) {
      var owner := GuardsOfTransparent(f, c, pathname, h);
      if owner != 0 { VisitIsExact(f, pathname, owner); }
    }
  }

  /** With nesting prefixes: every guard of the root or of a covering context. */
  lemma PathHooksCover(f: Forest, pathname: string, h: Hook)
    requires IsTree(f) && Prefixed(f)
    ensures h in PathHooks(f, pathname) <==>
      h in Guards(f, 0) || exists c: nat :: c < |f| && Covers(f[c].prefix, pathname) && h in Guards(f, c)
  {
    assert |f| > 0;
    hide IsTree, Guards, Covers, Prefixed, PathHooks, AllCover;
    PathHooksAre(f, pathname, h);
    assert AllCover(f, 0, pathname) by { RootAllCover(f, pathname); }
    if c: nat :| c < |f| && Covers(f[c].prefix, pathname) && h in Guards(f, c) { CoveringAllCover(f, c, pathname); }
    if c: nat :| c < |f| && AllCover(f, c, pathname) && h in Guards(f, c) {
      var owner := GuardsOfTransparent(f, c, pathname, h);
      assert owner == 0 || AncestorOrSelf(f, owner, owner);
      if owner != 0 { CoverOf(f, owner, owner, pathname); }
    }
  }

  // ---- A guard that is dropped ----

  /** A plugin under `/a`, and in it one under `b` that guards `/ab`. */
  function Unnested(guard: Hook): Forest {
    [ Ctx(None, "", false, [1], NO_HOOKS, map[], map[]),
      Ctx(Some(0), "/a", false, [2], NO_HOOKS, map[], map[]),
      Ctx(Some(1), "/ab", false, [], WithHook(NO_HOOKS, OnRequest, guard), map[], map[])]
  }

  /** As `createChild` and `addHook` make it. */
  lemma UnnestedIsMade(guard: Hook)
    ensures var root := Ctx(None, "", false, [], NO_HOOKS, map[], map[]);
      var f := AddChild(AddChild([root], 0, "/a"), 1, "b");
      Unnested(guard) == f[2 := f[2].(hooks := WithHook(f[2].hooks, OnRequest, guard))]
  {
    var root := Ctx(None, "", false, [], NO_HOOKS, map[], map[]);
    var f1 := AddChild([root], 0, "/a");
    assert f1[0] == root.(children := [1]) && f1[1] == Ctx(Some(0), "/a", false, [], NO_HOOKS, map[], map[]);
    assert "/a" + "b" == "/ab";
    var f2 := AddChild(f1, 1, "b");
    assert [] + [2] == [2];
    assert f2[0] == f1[0] && f2[1] == f1[1].(children := [2]) && f2[2] == Ctx(Some(1), "/ab", false, [], NO_HOOKS, map[], map[]);
    hide WithHook;
    assert Unnested(guard) == f2[2 := f2[2].(hooks := WithHook(f2[2].hooks, OnRequest, guard))];
  }

  lemma UnnestedIsTree(guard: Hook)
    ensures IsTree(Unnested(guard))
  {
    var f := Unnested(guard);
    assert f[0].children == [1] && f[1].children == [2] && f[2].children == [];
    assert 1 in f[0].children && 2 in f[1].children;
    forall p, k | 0 <= p < |f| && 0 <= k < |f[p].children| ensures IsChild(f, p, f[p].children[k]) {
      assert p == 0 || p == 1;
    }
  }

  /** Its prefix covers `/ab`, and the guard is not run for `/ab`. */
  lemma CoveringGuardIsDropped(guard: Hook)
    ensures var f := Unnested(guard);
      && IsTree(f) && |f| == 3 && f[2].prefix == "/ab" && Covers("/ab", "/ab")
      && guard in Guards(f, 2) && guard !in PathHooks(f, "/ab")
  {
    hide IsTree, Guards, PathHooks, AllCover;
    var f := Unnested(guard);
    UnnestedIsTree(guard);
    assert AncestorOrSelf(f, 2, 2) && Through(f, 2, 2);
    forall c: nat | c < 3 ensures guard in Guards(f, c) <==> c == 2 {
      GuardsAre(f, c, guard);
      assert !Through(f, 0, 2) && !Through(f, 1, 2);
      assert !AncestorOrSelf(f, 2, 0) && !AncestorOrSelf(f, 2, 1);
    }
    PathHooksAre(f, "/ab", guard);
    assert AncestorOrSelf(f, 1, 2);
    NotCovered();
    if AllCover(f, 2, "/ab") { CoverOf(f, 1, 2, "/ab"); }
  }

  lemma NotCovered()
    ensures !Covers("/a", "/ab")
  {
    assert "/ab"[..|"/a" + "/"|][2] == 'b' && ("/a" + "/")[2] == '/';
  }
}
