/** The application's guards for requests and upgrades that match no route
    (packages/core/src/app.ts). */
module AppGuards {
  import opened Options
  import opened ScopeModel
  import opened ScopeHooks
  import opened ScopeClass

  /** The list one visit fills. */
  class Matched {
    var items: seq<EncapsulationContext>

    constructor ()
      ensures items == []
    {
      items := [];
    }
  }

  class App {
    const scopes: ScopeRegistry
    const rootContext: EncapsulationContext
    const rootScope: ResolvedScope
    var pathScopes: map<EncapsulationContext, ResolvedScope>

    /** A scope of a context that owns no route is kept current by the registry. */
    ghost predicate Registered(ctx: EncapsulationContext, scope: ResolvedScope)
      reads scopes
    {
      scopes.Known(ctx) && RouteBinding(ctx, NO_LOCAL, scope) in scopes.bindings
    }

    ghost predicate Valid()
      reads this, scopes, scopes.contexts, scopes.Scopes()
    {
      && scopes.Valid() && |scopes.contexts| > 0 && scopes.contexts[0] == rootContext
      && Registered(rootContext, rootScope)
      && forall c :: c in pathScopes ==> Registered(c, pathScopes[c])
    }

    /** In a flushed registry a registered scope holds its context's guards. */
    lemma RegisteredHoldsGuards(ctx: EncapsulationContext, scope: ResolvedScope)
      requires scopes.Valid() && !scopes.dirty && Registered(ctx, scope)
      ensures IsTree(scopes.Forest()) && ctx.id < |scopes.Forest()|
      ensures scope.hooks.onRequest == Guards(scopes.Forest(), ctx.id)
    {
      hide IsTree, Resolve;
      var b := RouteBinding(ctx, NO_LOCAL, scope);
      var i :| 0 <= i < |scopes.bindings| && scopes.bindings[i] == b;
      assert scopes.Resolved(scopes.bindings[i]);
    }

    lemma RootIsFirst()
      requires Valid()
      ensures rootContext.id == 0 && rootContext.scopes == scopes && scopes.Known(rootContext)
    {
      hide IsTree;
    }

    constructor (prefix: string)
      ensures Valid() && fresh(scopes) && fresh(scopes.contexts) && fresh(scopes.Scopes())
      ensures scopes.Forest() == [Ctx(None, prefix, prefix == "", [], NO_HOOKS, map[], map[])]
    {
      var registry := new ScopeRegistry();
      var root := new EncapsulationContext(0, null, prefix, registry);
      registry.contexts := [root];
      var scope := new ResolvedScope();
      registry.bindings := [RouteBinding(root, NO_LOCAL, scope)];
      registry.dirty := true;
      scopes, rootContext, rootScope, pathScopes := registry, root, scope, map[];
      new;
      hide IsTree;
      assert Ids([]) == [];
      assert scopes.Forest() == [root.View()];
      OneContextIsTree(root.View());
      assert scopes.bindings[0] == RouteBinding(rootContext, NO_LOCAL, rootScope);
    }

    static lemma OneContextIsTree(c: Ctx)
      requires c.parent == None && c.children == []
      ensures IsTree([c])
    {}

    /** `contextScope` */
    method ContextScope(ctx: EncapsulationContext) returns (scope: ResolvedScope)
      requires Valid() && !scopes.dirty && scopes.Known(ctx) && ctx.scopes == scopes
      modifies this`pathScopes, scopes`dirty, scopes`bindings, scopes.Scopes()
      ensures Valid() && !scopes.dirty && scopes.Forest() == old(scopes.Forest())
      ensures fresh(scopes.Scopes() - old(scopes.Scopes()))
      ensures ctx.id < |scopes.Forest()| && IsTree(scopes.Forest()) && scope.hooks.onRequest == Guards(scopes.Forest(), ctx.id)
    {
      hide IsTree, Guards, ScopeRegistry.Wired, ScopeRegistry.Forest, ScopeRegistry.Valid, ScopeRegistry.Scopes;
      if ctx in pathScopes {
        scope := pathScopes[ctx];
      } else {
        scope := ctx.CreateContextScope();
        pathScopes := pathScopes[ctx := scope];
        scopes.Flush();
      }
      RegisteredHoldsGuards(ctx, scope);
    }

    /** The contexts visited so far, by their numbers. */
    ghost predicate Holds(items: seq<EncapsulationContext>, ids: seq<nat>)
      reads scopes`contexts
    {
      Ids(items) == ids && forall x :: x in items ==> scopes.Known(x) && x.scopes == scopes
    }

    lemma HoldsMore(items: seq<EncapsulationContext>, ids: seq<nat>, child: EncapsulationContext)
      requires Holds(items, ids) && scopes.Known(child) && child.scopes == scopes
      ensures Holds(items + [child], ids + [child.id])
    {}

    /** `visit`, the inner function of `onRequestHooksForPath` */
    method VisitChildren(ctx: EncapsulationContext, pathname: string, matched: Matched, ghost ids: seq<nat>)
      requires scopes.Wired() && IsTree(scopes.Forest()) && scopes.Known(ctx) && Holds(matched.items, ids)
      modifies matched
      ensures ctx.id < |scopes.Forest()| && Holds(matched.items, ids + Visit(scopes.Forest(), ctx.id, 0, pathname))
      decreases |scopes.contexts| - ctx.id
    {
      hide IsTree, Covers, ScopeRegistry.Wired, ScopeRegistry.Forest, ScopeRegistry.Known, Holds, Visit, Visiting, Ids;
      scopes.ViewOf(ctx);
      ghost var f := scopes.Forest();
      ghost var now := ids;
      VisitingStarts(f, ctx.id, pathname, ids);
      var i := 0;
      while i < |ctx.children|
        invariant 0 <= i <= |ctx.children| && Holds(matched.items, now)
        invariant Visiting(f, ctx.id, i, pathname, ids, now)
      {
        var child := ctx.children[i];
        scopes.ChildKnown(ctx, i);
        VisitingStep(f, ctx.id, i, pathname, ids, now);
        if child.transparent {
          VisitChildren(child, pathname, matched, now);
          now := now + Visit(f, child.id, 0, pathname);
        } else if Covers(child.prefix, pathname) {
          HoldsMore(matched.items, now, child);
          matched.items := matched.items + [child];
          VisitChildren(child, pathname, matched, now + [child.id]);
          now := now + [child.id] + Visit(f, child.id, 0, pathname);
        }
        i := i + 1;
      }
      VisitingEnds(f, ctx.id, pathname, ids, now);
    }

    /** Append a context's guards that are not there yet. */
    method Merge(hooks: seq<Hook>, guards: seq<Hook>) returns (r: seq<Hook>)
      ensures r == AddNew(hooks, guards)
    {
      r := hooks;
      var seen := set h | h in hooks;
      var j := 0;
      while j < |guards|
        invariant 0 <= j <= |guards| && seen == set h | h in r
        invariant AddNew(r, guards[j..]) == AddNew(hooks, guards)
      {
        assert guards[j..][0] == guards[j] && guards[j..][1..] == guards[j + 1..];
        if guards[j] !in seen {
          seen := seen + {guards[j]};
          r := r + [guards[j]];
        }
        j := j + 1;
      }
    }

    /** The loop of `onRequestHooksForPath` over the visited contexts. */
    method MergeAll(start: seq<Hook>, contexts: seq<EncapsulationContext>, ghost ids: seq<nat>) returns (hooks: seq<Hook>)
      requires Valid() && !scopes.dirty && Holds(contexts, ids)
      modifies this`pathScopes, scopes`dirty, scopes`bindings, scopes.Scopes()
      ensures Valid() && !scopes.dirty && scopes.Forest() == old(scopes.Forest())
      ensures IsTree(scopes.Forest()) && In(scopes.Forest(), ids)
      ensures hooks == AddGuards(scopes.Forest(), start, ids)
    {
      hide IsTree, Guards, ScopeRegistry.Wired, ScopeRegistry.Forest, ScopeRegistry.Coherent, Holds, AddGuards, AddNew;
      ghost var f := scopes.Forest();
      HoldsMeans(contexts, ids);
      assert ids[0..] == ids && ids[|ids|..] == [];
      assert IsTree(f) by { ForestIsTree(); }
      hooks := start;
      var i := 0;
      while i < |contexts|
        invariant 0 <= i <= |contexts| && Valid() && !scopes.dirty && scopes.Forest() == f
        invariant fresh(scopes.Scopes() - old(scopes.Scopes()))
        invariant In(f, ids[i..])
        invariant AddGuards(f, hooks, ids[i..]) == AddGuards(f, start, ids)
      {
        ghost var known := scopes.Scopes();
        var scope := ContextScope(contexts[i]);
        assert scopes.Scopes() - old(scopes.Scopes()) <= (scopes.Scopes() - known) + (known - old(scopes.Scopes()));
        AddGuardsStep(f, hooks, ids, i);
        hooks := Merge(hooks, scope.hooks.onRequest);
        i := i + 1;
      }
      AddGuardsEnds(f, hooks);
    }

    lemma ForestIsTree()
      requires scopes.Valid()
      ensures IsTree(scopes.Forest())
    {}

    /** `onRequestHooksForPath` */
    method OnRequestHooksForPath(pathname: string) returns (hooks: seq<Hook>)
      requires Valid() && !scopes.dirty
      modifies this`pathScopes, scopes`dirty, scopes`bindings, scopes.Scopes()
      ensures Valid() && !scopes.dirty && scopes.Forest() == old(scopes.Forest())
      ensures IsTree(scopes.Forest()) && hooks == PathHooks(scopes.Forest(), pathname)
    {
      hide IsTree, Guards, ScopeRegistry.Wired, ScopeRegistry.Forest, ScopeRegistry.Scopes, Visit, Holds, AddGuards, AddNew;
      RootIsFirst();
      ghost var f := scopes.Forest();
      RegisteredHoldsGuards(rootContext, rootScope);
      VisitedAreIn(f, pathname);
      var matched := new Matched();
      assert Holds([], []) by { HoldsNone(); }
      VisitChildren(rootContext, pathname, matched, []);
      ghost var ids := Visit(f, 0, 0, pathname);
      assert [] + ids == ids;
      if |matched.items| == 0 {
        HoldsMeans(matched.items, ids);
        AddGuardsEnds(f, rootScope.hooks.onRequest);
        return rootScope.hooks.onRequest;
      }
      hooks := MergeAll(rootScope.hooks.onRequest, matched.items, ids);
    }

    lemma HoldsNone()
      ensures Holds([], [])
    {}

    lemma HoldsMeans(items: seq<EncapsulationContext>, ids: seq<nat>)
      requires Holds(items, ids)
      ensures |items| == |ids| && In(scopes.Forest(), ids)
      ensures forall i :: 0 <= i < |items| ==> items[i].id == ids[i] && scopes.Known(items[i]) && items[i].scopes == scopes
    {
      assert forall i :: 0 <= i < |items| ==> items[i] in items;
    }

    /** `getUpgradeHooks` */
    method GetUpgradeHooks(pathname: Option<string>) returns (hooks: seq<Hook>)
      requires Valid()
      modifies this`pathScopes, scopes`dirty, scopes`bindings, scopes.Scopes()
      ensures Valid() && !scopes.dirty && scopes.Forest() == old(scopes.Forest())
      ensures IsTree(scopes.Forest()) && hooks ==
        match pathname case None => Guards(scopes.Forest(), 0) case Some(p) => PathHooks(scopes.Forest(), p)
    {
      hide IsTree, Guards, ScopeRegistry.Wired, ScopeRegistry.Forest, ScopeRegistry.Scopes, PathHooks;
      if scopes.dirty { scopes.Flush(); }
      match pathname
      case None =>
        RootIsFirst();
        RegisteredHoldsGuards(rootContext, rootScope);
        hooks := rootScope.hooks.onRequest;
      case Some(p) =>
        hooks := OnRequestHooksForPath(p);
    }
  }
}
