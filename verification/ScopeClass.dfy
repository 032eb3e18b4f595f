/** The mutable context tree and its registry of cached hook chains, proved against ScopeModel
    and ScopeHooks. A route keeps a reference to its scope, which is refilled in place. */
module ScopeClass {
  import opened Options
  import opened ScopeModel
  import opened ScopeHooks

  class ResolvedScope {
    var hooks: Hooks
    var requestDecorations: Decorations
    var replyDecorations: Decorations

    constructor ()
      ensures View() == Scope(NO_HOOKS, map[], map[])
    {
      hooks, requestDecorations, replyDecorations := NO_HOOKS, map[], map[];
    }

    function View(): Scope reads this { Scope(hooks, requestDecorations, replyDecorations) }

    method Clear()
      modifies this
      ensures View() == Scope(NO_HOOKS, map[], map[])
    {
      hooks, requestDecorations, replyDecorations := NO_HOOKS, map[], map[];
    }

    method Append(h: Hooks)
      modifies this`hooks
      ensures hooks == Joined(old(hooks), h)
    {
      hooks := Joined(hooks, h);
    }
  }

  datatype RouteBinding = RouteBinding(ctx: EncapsulationContext, local: LocalHooks, scope: ResolvedScope)

  ghost function Ids(cs: seq<EncapsulationContext>): (r: seq<nat>)
    ensures |r| == |cs| && forall i :: 0 <= i < |cs| ==> r[i] == cs[i].id
  {
    seq(|cs|, i requires 0 <= i < |cs| => cs[i].id)
  }

  ghost function IdSet(cs: set<EncapsulationContext>): set<nat> {
    set c | c in cs :: c.id
  }

  function Reverse<T>(s: seq<T>): seq<T> {
    if s == [] then [] else [s[|s| - 1]] + Reverse(s[..|s| - 1])
  }

  lemma {:induction false} IdsOfReverse(cs: seq<EncapsulationContext>)
    ensures Ids(Reverse(cs)) == Reverse(Ids(cs))
  {
    if cs != [] {
      IdsOfReverse(cs[..|cs| - 1]);
      assert Ids(cs)[..|cs| - 1] == Ids(cs[..|cs| - 1]);
    }
  }

  /** What one traversal marks and collects. */
  class Collector {
    var seen: set<EncapsulationContext>
    var out: seq<EncapsulationContext>

    constructor (seen: set<EncapsulationContext>)
      ensures this.seen == seen && out == []
    {
      this.seen, out := seen, [];
    }
  }

  class EncapsulationContext {
    /** Position in the registry's list of contexts. */
    ghost const id: nat
    const parent: EncapsulationContext?
    const prefix: string
    const transparent: bool
    const scopes: ScopeRegistry
    var children: seq<EncapsulationContext>
    var hooks: Hooks
    var requestDecorations: Decorations
    var replyDecorations: Decorations

    constructor (ghost id: nat, parent: EncapsulationContext?, prefix: string, scopes: ScopeRegistry)
      ensures this.id == id && this.parent == parent && this.scopes == scopes
      ensures this.prefix == (if parent == null then prefix else parent.prefix + prefix)
      ensures transparent == (prefix == "")
      ensures children == [] && hooks == NO_HOOKS && requestDecorations == map[] && replyDecorations == map[]
    {
      this.id, this.parent, this.scopes := id, parent, scopes;
      this.prefix := if parent == null then prefix else parent.prefix + prefix;
      transparent := prefix == "";
      children, hooks, requestDecorations, replyDecorations := [], NO_HOOKS, map[], map[];
    }

    /** `addHook` */
    method AddHook(name: HookName, hook: Hook)
      requires scopes.Valid() && scopes.Known(this)
      modifies this`hooks, scopes`dirty
      ensures scopes.Valid() && scopes.dirty && old(id < |scopes.Forest()|)
      ensures scopes.Forest() == old(scopes.Forest()[id := scopes.Forest()[id].(hooks := WithHook(scopes.Forest()[id].hooks, name, hook))])
      ensures Named(hooks, name) == old(Named(hooks, name)) + [hook]
      ensures forall other :: other != name ==> Named(hooks, other) == old(Named(hooks, other))
    {
      hide IsTree, ScopeRegistry.Wired, ScopeRegistry.Forest, ScopeRegistry.Coherent, WithHook;
      ghost var before := scopes.Forest();
      scopes.ViewOf(this);
      scopes.Numbered();
      forall other { AddedHookIsNamed(hooks, name, hook, other); }
      hooks := WithHook(hooks, name, hook);
      scopes.OwnWired();
      scopes.OwnForest(before, id);
      scopes.Invalidate();
    }

    /** `decorateRequest`: in this context, or application-wide in the root. */
    method DecorateRequest(name: string, value: string, appWide: bool)
      requires scopes.Valid() && scopes.Known(this)
      modifies scopes.contexts`requestDecorations, scopes`dirty
      ensures scopes.Valid() && scopes.dirty && old(id < |scopes.Forest()|)
      ensures var t := if appWide then 0 else id;
        scopes.Forest() == old(scopes.Forest()[t := scopes.Forest()[t].(request := scopes.Forest()[t].request[name := value])])
    {
      hide IsTree, ScopeRegistry.Wired, ScopeRegistry.Forest, ScopeRegistry.Coherent, ScopeRegistry.Known, WithHook;
      scopes.ViewOf(this);
      var target := this;
      if appWide { target := scopes.RootOf(this); }
      scopes.ViewOf(target);
      scopes.SetRequestDecoration(target, name, value);
    }

    /** `decorateReply` */
    method DecorateReply(name: string, value: string)
      requires scopes.Valid() && scopes.Known(this)
      modifies this`replyDecorations, scopes`dirty
      ensures scopes.Valid() && scopes.dirty && old(id < |scopes.Forest()|)
      ensures scopes.Forest() == old(scopes.Forest()[id := scopes.Forest()[id].(reply := scopes.Forest()[id].reply[name := value])])
    {
      hide IsTree, ScopeRegistry.Wired, ScopeRegistry.Forest, ScopeRegistry.Coherent, WithHook;
      ghost var before := scopes.Forest();
      scopes.ViewOf(this);
      scopes.Numbered();
      replyDecorations := replyDecorations[name := value];
      scopes.OwnWired();
      scopes.OwnForest(before, id);
      scopes.Invalidate();
    }

    /** `createChild` */
    method CreateChild(prefix: string) returns (child: EncapsulationContext)
      requires scopes.Valid() && scopes.Known(this)
      modifies this`children, scopes`dirty, scopes`contexts
      ensures scopes.Valid() && scopes.dirty && old(id < |scopes.Forest()|)
      ensures scopes.Forest() == AddChild(old(scopes.Forest()), id, prefix)
      ensures fresh(child) && child.scopes == scopes && scopes.Known(child) && scopes.contexts == old(scopes.contexts) + [child]
    {
      hide IsTree, AddChild;
      scopes.ViewOf(this);
      child := new EncapsulationContext(|scopes.contexts|, this, prefix, scopes);
      assert Ids(child.children) == [];
      scopes.Adopt(this, child, prefix);
    }

    /** `createContextScope` */
    method CreateContextScope() returns (scope: ResolvedScope)
      requires scopes.Valid() && scopes.Known(this)
      modifies scopes`dirty, scopes`bindings
      ensures scopes.Valid() && scopes.dirty && fresh(scope) && scopes.Forest() == old(scopes.Forest())
      ensures scopes.bindings == old(scopes.bindings) + [RouteBinding(this, NO_LOCAL, scope)]
      ensures scopes.Scopes() == old(scopes.Scopes()) + {scope}
    {
      scope := new ResolvedScope();
      hide IsTree, ScopeRegistry.Wired, ScopeRegistry.Forest;
      scopes.Register(RouteBinding(this, NO_LOCAL, scope));
    }

    ghost function View(): Ctx
      reads this
    {
      Ctx(if parent == null then None else Some(parent.id), prefix, transparent, Ids(children),
          hooks, requestDecorations, replyDecorations)
    }
  }

  class ScopeRegistry {
    var dirty: bool
    var bindings: seq<RouteBinding>
    ghost var contexts: seq<EncapsulationContext>

    ghost function Forest(): (f: ScopeModel.Forest)
      reads this`contexts, contexts
      ensures |f| == |contexts| && forall i :: 0 <= i < |f| ==> f[i] == contexts[i].View()
    {
      var cs := contexts;
      seq(|cs|, i requires 0 <= i < |cs| reads cs => cs[i].View())
    }

    ghost predicate Known(c: EncapsulationContext)
      reads this`contexts
    {
      c.id < |contexts| && contexts[c.id] == c
    }

    /** Contexts are numbered, and refer to one another by identity. */
    ghost predicate Wired()
      reads this`contexts, contexts
    {
      && (forall i :: 0 <= i < |contexts| ==> contexts[i].id == i && contexts[i].scopes == this)
      && (forall i :: 0 <= i < |contexts| && contexts[i].parent != null ==> Known(contexts[i].parent))
      && (forall i, k :: 0 <= i < |contexts| && 0 <= k < |contexts[i].children| ==> Known(contexts[i].children[k]))
    }

    ghost predicate Bound()
      reads this`contexts, this`bindings
    {
      && (forall i :: 0 <= i < |bindings| ==> Known(bindings[i].ctx))
      && (forall i, j :: 0 <= i < j < |bindings| ==> bindings[i].scope != bindings[j].scope)
    }

    ghost function Scopes(): set<ResolvedScope>
      reads this`bindings
    {
      set b | b in bindings :: b.scope
    }

    ghost predicate Resolved(b: RouteBinding)
      reads this`contexts, contexts, b.scope
    {
      IsTree(Forest()) && b.ctx.id < |Forest()| && b.scope.View() == Resolve(Forest(), b.ctx.id, b.local)
    }

    /** Whenever the flag is down, every cached chain is a fresh resolution. */
    ghost predicate Coherent()
      reads this, contexts, Scopes()
    {
      !dirty ==> forall i :: 0 <= i < |bindings| ==> bindings[i].scope in Scopes() && Resolved(bindings[i])
    }

    ghost predicate Valid()
      reads this, contexts, Scopes()
    {
      Wired() && IsTree(Forest()) && Bound() && Coherent()
    }

    /** The climb to the root. */
    method RootOf(c: EncapsulationContext) returns (root: EncapsulationContext)
      requires Valid() && Known(c)
      ensures Valid() && Forest() == old(Forest()) && Known(root) && root.id == 0
    {
      hide IsTree, Wired, Forest, Known;
      root := c;
      while root.parent != null
        invariant Known(root)
        decreases root.id
      {
        ParentIsEarlier(root);
        root := root.parent;
      }
      OnlyRootIsParentless(root);
    }

    lemma ParentIsEarlier(c: EncapsulationContext)
      requires Wired() && IsTree(Forest()) && Known(c) && c.parent != null
      ensures Known(c.parent) && c.parent.id < c.id
    {
      ViewOf(c);
      assert Forest()[c.id].parent == Some(c.parent.id);
    }

    lemma OnlyRootIsParentless(c: EncapsulationContext)
      requires Wired() && IsTree(Forest()) && Known(c) && c.parent == null
      ensures c.id == 0
    {
      ViewOf(c);
    }

    method SetRequestDecoration(c: EncapsulationContext, name: string, value: string)
      requires Valid() && Known(c)
      modifies c`requestDecorations, this`dirty
      ensures Valid() && dirty && old(c.id < |Forest()|)
      ensures Forest() == old(Forest()[c.id := Forest()[c.id].(request := Forest()[c.id].request[name := value])])
    {
      hide IsTree, Wired, Forest, Coherent, WithHook;
      ghost var before := Forest();
      ViewOf(c);
      Numbered();
      c.requestDecorations := c.requestDecorations[name := value];
      OwnWired();
      OwnForest(before, c.id);
      Invalidate();
    }

    // ---- Collecting the contexts of a scope ----

    lemma ViewOf(c: EncapsulationContext)
      requires Wired() && Known(c)
      ensures c.id < |Forest()| && Forest()[c.id] == c.View() && c in contexts && c.scopes == this
      ensures c.parent != null ==> Known(c.parent) && Forest()[c.id].parent == Some(c.parent.id)
      ensures c.parent == null ==> Forest()[c.id].parent == None
      ensures Forest()[c.id].children == Ids(c.children)
      ensures forall k :: 0 <= k < |c.children| ==> Known(c.children[k])
    {}

    lemma Numbered()
      requires Wired()
      ensures forall i :: 0 <= i < |contexts| ==> contexts[i].id == i
    {}

    /** The marked and collected contexts, by their numbers. */
    ghost predicate Marks(seen: set<EncapsulationContext>, out: seq<EncapsulationContext>, m: (set<nat>, seq<nat>))
      reads this`contexts
    {
      && (forall x :: x in seen ==> Known(x)) && (forall x :: x in out ==> Known(x))
      && m == (IdSet(seen), Ids(out))
    }

    lemma MarkChild(seen: set<EncapsulationContext>, out: seq<EncapsulationContext>, m: (set<nat>, seq<nat>), child: EncapsulationContext)
      requires Marks(seen, out, m) && Known(child)
      ensures child in seen <==> child.id in m.0
      ensures Marks(seen + {child}, out + [child], (m.0 + {child.id}, m.1 + [child.id]))
      ensures Marks(seen, out + [child], (m.0, m.1 + [child.id]))
    {
      hide IdSet;
      SeenById(seen, child);
      AddsId(seen, out, child);
    }

    /** `collectTransparent` */
    method CollectTransparent(ctx: EncapsulationContext, c: Collector, ghost m: (set<nat>, seq<nat>))
      requires Wired() && IsTree(Forest()) && Known(ctx) && Marks(c.seen, c.out, m)
      modifies c
      ensures ctx.id < |Forest()| && Marks(c.seen, c.out, Collect(Forest(), ctx.id, 0, m.0, m.1))
      decreases |contexts| - ctx.id
    {
      hide Wired, IsTree, Forest, Known, Ids, IdSet, Marks, Collect;
      ViewOf(ctx);
      ghost var f := Forest();
      ghost var now := m;
      var i := 0;
      while i < |ctx.children|
        invariant 0 <= i <= |ctx.children| && Marks(c.seen, c.out, now)
        invariant Collect(f, ctx.id, i, now.0, now.1) == Collect(f, ctx.id, 0, m.0, m.1)
      {
        var child := ctx.children[i];
        ChildKnown(ctx, i);
        CollectStep(f, ctx.id, i, now.0, now.1);
        MarkChild(c.seen, c.out, now, child);
        if child.transparent && child !in c.seen {
          c.seen := c.seen + {child};
          c.out := c.out + [child];
          CollectTransparent(child, c, (now.0 + {child.id}, now.1 + [child.id]));
          now := Collect(f, child.id, 0, now.0 + {child.id}, now.1 + [child.id]);
        }
        i := i + 1;
      }
      CollectEnds(f, ctx.id, now.0, now.1);
    }

    lemma ChildKnown(ctx: EncapsulationContext, i: nat)
      requires Wired() && IsTree(Forest()) && Known(ctx) && i < |ctx.children|
      ensures ctx.id < |Forest()| && i < |Forest()[ctx.id].children|
      ensures var k := ctx.children[i];
        Known(k) && k.id == Forest()[ctx.id].children[i] && ctx.id < k.id < |Forest()|
        && Forest()[k.id].transparent == k.transparent && Forest()[k.id].prefix == k.prefix && k.scopes == this
    {
      assert IsChild(Forest(), ctx.id, Forest()[ctx.id].children[i]);
    }

    lemma SeenById(seen: set<EncapsulationContext>, child: EncapsulationContext)
      requires Known(child) && forall x :: x in seen ==> Known(x)
      ensures child in seen <==> child.id in IdSet(seen)
    {}

    lemma AddsId(seen: set<EncapsulationContext>, out: seq<EncapsulationContext>, child: EncapsulationContext)
      ensures IdSet(seen + {child}) == IdSet(seen) + {child.id}
      ensures Ids(out + [child]) == Ids(out) + [child.id]
    {}

    /** The contexts from `leaf` up to, but without, `ctx` are in `upward`. */
    ghost predicate Climbed(leaf: nat, ctx: EncapsulationContext?, upward: seq<EncapsulationContext>)
      reads this`contexts, contexts
    {
      && IsTree(Forest()) && leaf < |Forest()|
      && (ctx != null ==> Known(ctx))
      && (forall x :: x in upward ==> Known(x))
      && Chain(Forest(), leaf) == (if ctx == null then [] else Chain(Forest(), ctx.id)) + Reverse(Ids(upward))
    }

    lemma ClimbStarts(leaf: EncapsulationContext)
      requires Wired() && IsTree(Forest()) && Known(leaf)
      ensures Climbed(leaf.id, leaf, [])
    {
      hide IsTree, Wired, Chain;
      assert Reverse(Ids([])) == [];
    }

    lemma ClimbStep(leaf: nat, ctx: EncapsulationContext, upward: seq<EncapsulationContext>)
      requires Wired() && Climbed(leaf, ctx, upward)
      ensures Climbed(leaf, ctx.parent, upward + [ctx])
      ensures ctx.parent != null ==> ctx.parent.id < ctx.id
    {
      hide IsTree, Wired, Forest, Known, Ids, Chain, Reverse;
      ViewOf(ctx);
      ChainStep(Forest(), ctx.id);
      ReversePush(Ids(upward), ctx.id);
      AddsId({}, upward, ctx);
      Regroup(if ctx.parent == null then [] else Chain(Forest(), ctx.parent.id), ctx.id, Reverse(Ids(upward)));
    }

    lemma Regroup(a: seq<nat>, x: nat, b: seq<nat>)
      ensures a + [x] + b == a + ([x] + b) && [] + [x] == [x]
    {}

    lemma ClimbEnds(leaf: nat, upward: seq<EncapsulationContext>)
      requires Climbed(leaf, null, upward)
      ensures leaf < |Forest()| && Ids(Reverse(upward)) == Chain(Forest(), leaf)
      ensures forall x :: x in Reverse(upward) ==> Known(x)
    {
      hide IsTree, Forest, Known, Ids, Chain;
      IdsOfReverse(upward);
      ReverseKnown(upward);
    }

    /** The climb from a leaf to the root, reversed. */
    method ChainOf(leaf: EncapsulationContext) returns (chain: seq<EncapsulationContext>)
      requires Wired() && IsTree(Forest()) && Known(leaf)
      ensures leaf.id < |Forest()| && Ids(chain) == Chain(Forest(), leaf.id)
      ensures forall x :: x in chain ==> Known(x)
    {
      hide Wired, IsTree, Forest, Known, Ids, Climbed, Chain;
      var upward: seq<EncapsulationContext> := [];
      var ctx: EncapsulationContext? := leaf;
      ClimbStarts(leaf);
      while ctx != null
        invariant Climbed(leaf.id, ctx, upward)
        decreases ctx != null, if ctx != null then ctx.id else 0
      {
        ClimbStep(leaf.id, ctx, upward);
        upward := upward + [ctx];
        ctx := ctx.parent;
      }
      ClimbEnds(leaf.id, upward);
      chain := Reverse(upward);
    }

    /** `collectScopeContexts` */
    method CollectScopeContexts(leaf: EncapsulationContext) returns (ordered: seq<EncapsulationContext>)
      requires Wired() && IsTree(Forest()) && Known(leaf)
      ensures leaf.id < |Forest()| && Ids(ordered) == ScopeContexts(Forest(), leaf.id)
      ensures forall x :: x in ordered ==> Known(x)
    {
      hide Wired, IsTree, Forest, Collect, Chain, Known, Ids, IdSet, ScopeContexts, Marks, Spreading;
      ghost var f := Forest();
      var chain := ChainOf(leaf);
      var c := new Collector(set x | x in chain);
      ghost var now: (set<nat>, seq<nat>) := (Elements(Ids(chain)), []);
      MarksChain(chain);
      SpreadStarts(f, leaf.id);
      var i := 0;
      while i < |chain|
        invariant 0 <= i <= |chain| && Marks(c.seen, c.out, now) && Spreading(f, leaf.id, i, now)
      {
        MarkChild(c.seen, c.out, now, chain[i]);
        SpreadStep(f, leaf.id, i, now);
        c.out := c.out + [chain[i]];
        CollectTransparent(chain[i], c, (now.0, now.1 + [chain[i].id]));
        now := Collect(f, chain[i].id, 0, now.0, now.1 + [chain[i].id]);
        i := i + 1;
      }
      ordered := c.out;
      MarksMean(c.seen, c.out, now);
      SpreadEnds(f, leaf.id, now);
    }

    lemma MarksChain(chain: seq<EncapsulationContext>)
      requires forall x :: x in chain ==> Known(x)
      ensures Marks(set x | x in chain, [], (Elements(Ids(chain)), []))
    {
      IdSetOfSeq(chain);
    }

    lemma MarksMean(seen: set<EncapsulationContext>, out: seq<EncapsulationContext>, m: (set<nat>, seq<nat>))
      requires Marks(seen, out, m)
      ensures (forall x :: x in out ==> Known(x)) && Ids(out) == m.1
    {}

    lemma ReversePush(s: seq<nat>, x: nat)
      ensures Reverse(s + [x]) == [x] + Reverse(s)
    {
      assert (s + [x])[..|s|] == s;
    }

    lemma {:induction false} ReverseKnown(s: seq<EncapsulationContext>)
      requires forall x :: x in s ==> Known(x)
      ensures forall x :: x in Reverse(s) ==> Known(x)
    {
      hide Known;
      if s != [] {
        assert s[|s| - 1] in s && forall x :: x in s[..|s| - 1] ==> x in s;
        ReverseKnown(s[..|s| - 1]);
      }
    }

    lemma IdSetOfSeq(s: seq<EncapsulationContext>)
      ensures IdSet(set x | x in s) == Elements(Ids(s))
    {
      forall k | k in Elements(Ids(s)) ensures k in IdSet(set x | x in s) {
        var i :| 0 <= i < |s| && Ids(s)[i] == k;
        assert s[i] in s;
      }
    }

    // ---- The cache ----

    constructor ()
      ensures !dirty && bindings == [] && contexts == []
    {
      dirty, bindings, contexts := false, [], [];
    }

    /** Only what `c` owns has changed. */
    lemma OwnForest(before: ScopeModel.Forest, c: nat)
      requires IsTree(before) && c < |before| && |contexts| == |before|
      requires forall i :: 0 <= i < |before| && i != c ==> contexts[i].View() == before[i]
      requires var n := contexts[c].View();
        n.parent == before[c].parent && n.prefix == before[c].prefix && n.transparent == before[c].transparent && n.children == before[c].children
      ensures Forest() == before[c := contexts[c].View()] && IsTree(Forest())
    {
      hide IsTree;
      SameShapeIsTree(before, Forest());
    }

    twostate lemma OwnWired()
      requires old(Wired()) && contexts == old(contexts)
      requires forall x :: x in contexts ==> x.children == old(x.children)
      ensures Wired()
    {
      assert forall i :: 0 <= i < |contexts| ==> contexts[i] in contexts;
    }

    /** A new context hangs below `p`. */
    lemma ChildAdded(before: ScopeModel.Forest, p: nat, own: string)
      requires IsTree(before) && p < |before| && |contexts| == |before| + 1
      requires forall i :: 0 <= i < |before| && i != p ==> contexts[i].View() == before[i]
      requires contexts[p].View() == before[p].(children := before[p].children + [|before|])
      requires contexts[|before|].View() == Ctx(Some(p), before[p].prefix + own, own == "", [], NO_HOOKS, map[], map[])
      ensures IsTree(Forest()) && Forest() == AddChild(before, p, own)
    {
      hide IsTree;
      AddChildKeepsTree(before, p, own);
      var after := AddChild(before, p, own);
      assert forall i :: 0 <= i < |after| ==> Forest()[i] == after[i];
      assert Forest() == after;
    }

    /** The new context, and its parent's new link, are wired. */
    twostate lemma StillWired(p: EncapsulationContext)
      requires old(Wired()) && old(Known(p)) && |contexts| == |old(contexts)| + 1 && contexts[..|old(contexts)|] == old(contexts)
      requires forall x :: x in old(contexts) && x != p ==> x.children == old(x.children)
      requires p.children == old(p.children) + [contexts[|old(contexts)|]]
      requires contexts[|old(contexts)|].id == |old(contexts)| && contexts[|old(contexts)|].scopes == this
      requires contexts[|old(contexts)|].parent == p && contexts[|old(contexts)|].children == []
      ensures Wired()
    {
      assert forall i :: 0 <= i < |old(contexts)| ==> contexts[i] == old(contexts)[i] && contexts[i] in old(contexts);
      var n := |old(contexts)|;
      assert contexts[p.id] == p;
      forall i | 0 <= i < n && contexts[i].parent != null ensures Known(contexts[i].parent) {
        var q := old(contexts)[i].parent;
        assert old(contexts)[q.id] == q && contexts[q.id] == q;
      }
      forall i, k | 0 <= i < |contexts| && 0 <= k < |contexts[i].children| ensures Known(contexts[i].children[k]) {
        if i < n && k < |old(contexts[i].children)| {
          var q := old(contexts[i].children[k]);
          assert contexts[i].children == old(contexts[i].children) || contexts[i] == p;
          assert old(Known(contexts[i].children[k]));
          assert contexts[i].children[k] == q && old(contexts)[q.id] == q && contexts[q.id] == q;
        } else {
          assert contexts[i].children[k] == contexts[n];
        }
      }
    }

    /** The second half of `createChild`: push the child and invalidate. */
    method Adopt(p: EncapsulationContext, child: EncapsulationContext, ghost own: string)
      requires Valid() && Known(p) && !Known(child)
      requires child.id == |contexts| && child.scopes == this && child.parent == p && child.children == []
      requires child.View() == Ctx(Some(p.id), p.prefix + own, own == "", [], NO_HOOKS, map[], map[])
      modifies p`children, this`dirty, this`contexts
      ensures Valid() && dirty && old(p.id < |Forest()|) && contexts == old(contexts) + [child]
      ensures Forest() == AddChild(old(Forest()), p.id, own)
    {
      hide IsTree, Wired, Forest, Coherent, AddChild;
      ViewOf(p);
      ghost var before := Forest();
      p.children := p.children + [child];
      contexts := contexts + [child];
      StillWired(p);
      assert Ids(p.children) == before[p.id].children + [child.id];
      ChildAdded(before, p.id, own);
      Invalidate();
    }

    /** `invalidate` */
    method Invalidate()
      requires Wired() && Bound() && IsTree(Forest())
      modifies this`dirty
      ensures Valid() && dirty && Forest() == old(Forest())
    {
      dirty := true;
    }

    /** `register` */
    method Register(b: RouteBinding)
      requires Valid() && Known(b.ctx) && b.scope !in Scopes()
      modifies this`dirty, this`bindings
      ensures Valid() && dirty && bindings == old(bindings) + [b] && Forest() == old(Forest())
    {
      hide IsTree;
      forall i | 0 <= i < |bindings| ensures bindings[i].scope != b.scope { assert bindings[i] in bindings; }
      bindings := bindings + [b];
      dirty := true;
    }

    lemma FilledWith(f: ScopeModel.Forest, chain: seq<EncapsulationContext>, i: nat)
      requires Wired() && f == Forest() && i < |chain| && In(f, Ids(chain)) && forall x :: x in chain ==> Known(x)
      ensures |Ids(chain)| == |chain| && In(f, Ids(chain)[..i]) && In(f, Ids(chain)[..i + 1])
      ensures Filled(f, Ids(chain)[..i + 1]) == With(Filled(f, Ids(chain)[..i]), chain[i])
    {
      hide Wired, Forest, Filled, Joined, In;
      assert chain[i] in chain;
      ViewOf(chain[i]);
      FilledStep(f, Ids(chain), i);
    }

    /** What one context adds. */
    ghost function With(done: Scope, c: EncapsulationContext): Scope
      reads c
    {
      Scope(Joined(done.hooks, c.hooks), done.request + c.requestDecorations, done.reply + c.replyDecorations)
    }

    /** `resolveBinding`: the scope is cleared and refilled in place. */
    method ResolveBinding(b: RouteBinding)
      requires Wired() && IsTree(Forest()) && Known(b.ctx)
      modifies b.scope
      ensures Resolved(b)
    {
      hide Wired, IsTree, Forest, Known, ScopeContexts, Filled, Resolve, Joined, Ids, In;
      ghost var f := Forest();
      ViewOf(b.ctx);
      var chain := CollectScopeContexts(b.ctx);
      ghost var ids := Ids(chain);
      ScopeIsInForest(f, b.ctx.id);
      b.scope.Clear();
      FilledStarts(f, ids);
      var i := 0;
      while i < |chain|
        invariant 0 <= i <= |chain|
        invariant In(f, ids[..i]) && b.scope.View() == Filled(f, ids[..i])
      {
        FilledWith(f, chain, i);
        b.scope.Append(chain[i].hooks);
        b.scope.requestDecorations := b.scope.requestDecorations + chain[i].requestDecorations;
        b.scope.replyDecorations := b.scope.replyDecorations + chain[i].replyDecorations;
        i := i + 1;
      }
      assert ids[..|ids|] == ids;
      FilledIsResolved(f, b.ctx.id, b.local);
      b.scope.Append(Local(b.local));
    }

    /** `flush` */
    method Flush()
      requires Valid()
      modifies this`dirty, Scopes()
      ensures Valid() && !dirty && Forest() == old(Forest())
    {
      hide IsTree, Wired, Forest, Resolve;
      if !dirty { return; }
      dirty := false;
      var i := 0;
      while i < |bindings|
        invariant 0 <= i <= |bindings| && !dirty && Forest() == old(Forest()) && Wired() && IsTree(Forest())
        invariant forall j :: 0 <= j < i ==> Resolved(bindings[j])
      {
        assert bindings[i] in bindings && bindings[i].scope in Scopes();
        ResolveBinding(bindings[i]);
        i := i + 1;
      }
      forall j | 0 <= j < |bindings| ensures bindings[j].scope in Scopes() { assert bindings[j] in bindings; }
    }
  }

  /** A scope filled from a list of contexts. */
  ghost function Filled(f: ScopeModel.Forest, cs: seq<nat>): Scope
    requires In(f, cs)
  {
    Scope(HooksOf(f, cs), DecorationsOf(f, cs, false), DecorationsOf(f, cs, true))
  }

  lemma FilledStarts(f: ScopeModel.Forest, cs: seq<nat>)
    ensures In(f, cs[..0]) && Filled(f, cs[..0]) == Scope(NO_HOOKS, map[], map[])
  {}

  lemma FilledIsResolved(f: ScopeModel.Forest, leaf: nat, local: LocalHooks)
    requires IsTree(f) && leaf < |f|
    ensures In(f, ScopeContexts(f, leaf))
    ensures var filled := Filled(f, ScopeContexts(f, leaf));
      Resolve(f, leaf, local) == filled.(hooks := Joined(filled.hooks, Local(local)))
  {
    ScopeIsInForest(f, leaf);
  }

  lemma FilledStep(f: ScopeModel.Forest, cs: seq<nat>, i: nat)
    requires In(f, cs) && i < |cs|
    ensures In(f, cs[..i]) && In(f, cs[..i + 1])
    ensures var done := Filled(f, cs[..i]);
      Filled(f, cs[..i + 1]) ==
        Scope(Joined(done.hooks, f[cs[i]].hooks), done.request + f[cs[i]].request, done.reply + f[cs[i]].reply)
  {
    assert cs[..i + 1][..i] == cs[..i];
  }
}
