module RouterRegistration {
  // What a run of registrations builds: a table that holds exactly the accepted routes.

  import opened Options
  import opened RouterPaths
  import opened RouterModel
  import opened RouterSearch

  function PatternOf(r: Route): Path { EdgesOf(SplitPath(r.url)) }

  ghost predicate NoWild(p: Path) { forall i :: 0 <= i < |p| ==> p[i] != Wild }

  ghost predicate Extends(q: Path, p: Path) { |p| < |q| && q[..|p|] == p }

  lemma ExtendsTransitive(c: Path, b: Path, a: Path)
    requires Extends(b, a)
    ensures Extends(c, b) ==> Extends(c, a)
  {
    if Extends(c, b) { assert c[..|a|] == c[..|b|][..|a|]; }
  }

  /** A node nothing was ever registered at or below. */
  ghost predicate Leaf(tree: Tree, p: Path) {
    p in tree && tree[p] == BLANK && forall q :: q in tree ==> !Extends(q, p)
  }

  lemma {:induction false} PrefixesAreIn(tree: Tree, q: Path, k: nat)
    requires WellFormed(tree) && q in tree && k <= |q|
    ensures q[..k] in tree
    decreases |q|
  {
    if k == |q| {
      assert q[..k] == q;
    } else {
      PrefixesAreIn(tree, Parent(q), k);
      assert Parent(q)[..k] == q[..k];
    }
  }

  lemma GrownChildIsLeaf(tree: Tree, path: Path, seg: string)
    requires path in tree && path + [EdgeOf(seg)] !in tree
    requires forall q :: q in tree ==> !Extends(q, path + [EdgeOf(seg)])
    ensures Leaf(Grow(tree, path, seg), path + [EdgeOf(seg)])
  {
    hide Named;
  }

  /** Once the walk has left the old tree nothing stands in its way. */
  lemma {:induction false} LeafWalk(tree: Tree, path: Path, segs: seq<string>)
    requires Leaf(tree, path)
    ensures var r := Walk(tree, path, segs); r.1.Some? && r.0[r.1.value] == BLANK
    decreases |segs|
  {
    if segs != [] {
      var child := path + [EdgeOf(segs[0])];
      assert Extends(child, path);
      assert Extends(path + [Param], path);
      forall q | q in tree ensures !Extends(q, child) {
        ExtendsTransitive(q, child, path);
      }
      GrownChildIsLeaf(tree, path, segs[0]);
      if !IsWild(segs[0]) { LeafWalk(Grow(tree, path, segs[0]), child, segs[1..]); }
    }
  }

  lemma {:induction false} WalkIsAllOrNothing(tree: Tree, path: Path, segs: seq<string>)
    requires WellFormed(tree) && path in tree
    ensures var r := Walk(tree, path, segs);
      && (r.1.None? ==> r.0 == tree)
      && (r.1.Some? && r.0 != tree ==> r.0[r.1.value] == BLANK)
    decreases |segs|
  {
    hide WellFormed;
    if segs != [] && !NameConflict(tree, path, segs[0]) {
      var child := path + [EdgeOf(segs[0])];
      if child in tree {
        if !IsWild(segs[0]) { WalkIsAllOrNothing(tree, child, segs[1..]); }
      } else {
        forall q | q in tree ensures !Extends(q, child) {
          if |child| <= |q| { PrefixesAreIn(tree, q, |child|); }
        }
        GrownChildIsLeaf(tree, path, segs[0]);
        if !IsWild(segs[0]) { LeafWalk(Grow(tree, path, segs[0]), child, segs[1..]); }
      }
    }
  }

  /** A registration that throws leaves the tree and the static map as they were. */
  lemma RejectedIsNoOp(t: Table, route: Route)
    requires WellFormed(t.tree)
    ensures var r := AddRoute(t, route); r.1 != Added ==> r.0 == t
  {
    WalkIsAllOrNothing(t.tree, [], SplitPath(route.url));
  }

  // ---- The shape is kept ----

  lemma GrowKeepsWellFormed(tree: Tree, path: Path, seg: string)
    requires WellFormed(tree) && path in tree && NoWild(path)
    ensures WellFormed(Grow(tree, path, seg))
  {
    var child := path + [EdgeOf(seg)];
    if child !in tree {
      var grown := Grow(tree, path, seg);
      assert Parent(child) == path;
      assert Parent(child + [Param]) == child && Parent(child + [Wild]) == child;
      forall p | p in grown && p != [] ensures Parent(p) in grown {
        if p != child { assert p in tree; }
      }
      forall p | p in grown ensures grown[p].paramName.Some? <==> p + [Param] in grown {
        assert Parent(p + [Param]) == p;
        if p in tree { assert tree[p].paramName.Some? <==> p + [Param] in tree; }
      }
      forall p | p in grown ensures grown[p].wildName.Some? <==> p + [Wild] in grown {
        assert Parent(p + [Wild]) == p;
        if p in tree { assert tree[p].wildName.Some? <==> p + [Wild] in tree; }
      }
      forall p, i | p in grown && 0 <= i < |p| - 1 ensures p[i] != Wild {
        if p == child { assert p[i] == path[i]; }
      }
    }
  }

  /** What later registrations may do to a node: name an unnamed child. */
  predicate NodeGrown(a: Node, b: Node) {
    && b.routes == a.routes
    && (a.paramName.Some? ==> b.paramName == a.paramName)
    && (a.wildName.Some? ==> b.wildName == a.wildName)
  }

  ghost predicate Grown(a: Tree, b: Tree) {
    && (forall p :: p in a ==> p in b && NodeGrown(a[p], b[p]))
    && (forall p :: p in b && p !in a ==> b[p].routes == map[])
  }

  lemma GrowGrows(tree: Tree, path: Path, seg: string)
    requires WellFormed(tree) && path in tree
    ensures Grown(tree, Grow(tree, path, seg))
  {
    assert tree[path].paramName.Some? <==> path + [Param] in tree;
    assert tree[path].wildName.Some? <==> path + [Wild] in tree;
  }

  /** The walk of a URL uses the URL's own parameter names. */
  predicate Follows(tree: Tree, path: Path, segs: seq<string>)
    decreases |segs|
  {
    path in tree &&
    (segs == [] ||
     if IsWild(segs[0]) then path + [Wild] in tree
     else
       && (IsParam(segs[0]) ==> tree[path].paramName == Some(NameOf(segs[0])))
       && Follows(tree, path + [EdgeOf(segs[0])], segs[1..]))
  }

  lemma {:induction false} FollowsGrows(a: Tree, b: Tree, path: Path, segs: seq<string>)
    requires Follows(a, path, segs) && forall p :: p in a ==> p in b && NodeGrown(a[p], b[p])
    ensures Follows(b, path, segs)
    decreases |segs|
  {
    if segs != [] && !IsWild(segs[0]) { FollowsGrows(a, b, path + [EdgeOf(segs[0])], segs[1..]); }
  }

  /** The name a URL gives its wildcard. */
  function WildName(segs: seq<string>): string {
    if segs == [] then "" else if IsWild(segs[0]) then NameOf(segs[0]) else WildName(segs[1..])
  }

  /** A wildcard is named once, by the URL that creates it. */
  ghost predicate WildsFrom(a: Tree, b: Tree, at: Path, name: string) {
    forall p {:trigger b[p].wildName} :: p in b && b[p].wildName.Some? && (p in a ==> a[p].wildName.None?) ==>
      p + [Wild] == at && at !in a && b[p].wildName == Some(name)
  }

  lemma ParamNameAfterGrow(tree: Tree, path: Path, seg: string)
    requires WellFormed(tree) && path in tree && !NameConflict(tree, path, seg) && IsParam(seg)
    ensures Grow(tree, path, seg)[path].paramName == Some(NameOf(seg))
  {
    assert tree[path].paramName.Some? <==> path + [Param] in tree;
  }

  lemma GrownTransitive(a: Tree, b: Tree, c: Tree)
    requires Grown(a, b) && Grown(b, c)
    ensures Grown(a, c)
  {}

  lemma {:induction false} WalkKeeps(tree: Tree, path: Path, segs: seq<string>)
    requires WellFormed(tree) && path in tree && NoWild(path)
    ensures var r := Walk(tree, path, segs); WellFormed(r.0) && Grown(tree, r.0)
    ensures var r := Walk(tree, path, segs);
      r.1.Some? ==> r.1.value == path + EdgesOf(segs) && Follows(r.0, path, segs)
    decreases |segs|
  {
    hide WellFormed, Named, NoWild, NodeGrown, Grown;
    if segs == [] {
      assert path + [] == path;
      GrownReflexive(tree);
    } else if NameConflict(tree, path, segs[0]) {
      GrownReflexive(tree);
    } else {
      var e := EdgeOf(segs[0]);
      var grown := Grow(tree, path, segs[0]);
      GrowKeepsWellFormed(tree, path, segs[0]);
      GrowGrows(tree, path, segs[0]);
      if !IsWild(segs[0]) {
        NoWildExtends(path, e);
        WalkKeeps(grown, path + [e], segs[1..]);
        var r := Walk(grown, path + [e], segs[1..]);
        GrownTransitive(tree, grown, r.0);
        if r.1.Some? {
          assert path + [e] + EdgesOf(segs[1..]) == path + ([e] + EdgesOf(segs[1..]));
          if IsParam(segs[0]) {
            ParamNameAfterGrow(tree, path, segs[0]);
            GrownKeepsName(grown, r.0, path);
          }
        }
      }
    }
  }

  lemma NoWildExtends(path: Path, e: Edge)
    requires NoWild(path) && e != Wild
    ensures NoWild(path + [e])
  {}

  lemma GrownReflexive(tree: Tree)
    ensures Grown(tree, tree)
  {}

  lemma GrownKeepsName(a: Tree, b: Tree, path: Path)
    requires Grown(a, b) && path in a && a[path].paramName.Some?
    ensures path in b && b[path].paramName == a[path].paramName
  {}

  lemma GrowNamesWild(tree: Tree, path: Path, seg: string)
    requires path in tree
    ensures WildsFrom(tree, Grow(tree, path, seg), path + [EdgeOf(seg)], if IsWild(seg) then NameOf(seg) else "")
    ensures !IsWild(seg) ==> forall p {:trigger Grow(tree, path, seg)[p].wildName} ::
      p in Grow(tree, path, seg) && Grow(tree, path, seg)[p].wildName.Some? ==> p in tree && tree[p].wildName.Some?
  {}

  lemma {:induction false} WalkNamesWild(tree: Tree, path: Path, segs: seq<string>)
    requires WellFormed(tree) && path in tree && NoWild(path) && Walk(tree, path, segs).1.Some?
    ensures WildsFrom(tree, Walk(tree, path, segs).0, Walk(tree, path, segs).1.value, WildName(segs))
    decreases |segs|
  {
    hide WellFormed, Named, NoWild, Grow;
    if segs != [] {
      GrowNamesWild(tree, path, segs[0]);
      if !IsWild(segs[0]) {
        var grown := Grow(tree, path, segs[0]);
        GrowKeepsWellFormed(tree, path, segs[0]);
        NoWildExtends(path, EdgeOf(segs[0]));
        KeysGrow(tree, path, segs[0]);
        WalkNamesWild(grown, path + [EdgeOf(segs[0])], segs[1..]);
      }
    }
  }

  lemma KeysGrow(tree: Tree, path: Path, seg: string)
    requires path in tree
    ensures tree.Keys <= Grow(tree, path, seg).Keys && path + [EdgeOf(seg)] in Grow(tree, path, seg)
  {}

  // ---- Names ----

  /** The names a URL binds, in order. */
  function OwnNames(segs: seq<string>): seq<string> {
    if segs == [] then []
    else if IsWild(segs[0]) then [NameOf(segs[0])]
    else (if IsParam(segs[0]) then [NameOf(segs[0])] else []) + OwnNames(segs[1..])
  }

  /** No name twice; an empty name binds nothing and may repeat. */
  ghost predicate Distinct(names: seq<string>) {
    forall i, j :: 0 <= i < j < |names| ==> names[i] != names[j] || names[i] == ""
  }

  ghost predicate GoodUrl(url: string) {
    Distinct(OwnNames(SplitPath(url)))
  }

  // ---- Runs of registrations ----

  /** The accepted routes of a run, and the table it leaves. */
  function Build(attempts: seq<Route>): (r: (Table, seq<Route>))
    ensures [] in r.0.tree
  {
    if attempts == [] then (EMPTY_TABLE, [])
    else
      var (t, accepted) := Build(attempts[..|attempts| - 1]);
      var route := attempts[|attempts| - 1];
      var (t', outcome) := AddRoute(t, route);
      (t', if outcome == Added then accepted + [route] else accepted)
  }

  /** The first accepted route at a pattern. */
  function FirstAt(accepted: seq<Route>, p: Path): Option<Route> {
    if accepted == [] then None
    else
      var before := FirstAt(accepted[..|accepted| - 1], p);
      if before.Some? then before
      else if PatternOf(accepted[|accepted| - 1]) == p then Some(accepted[|accepted| - 1])
      else None
  }

  ghost predicate Stored(tree: Tree, r: Route) {
    PatternOf(r) in tree && r.verb in tree[PatternOf(r)].routes && tree[PatternOf(r)].routes[r.verb] == r
  }

  /** The tree holds the accepted routes and no others. */
  ghost predicate Holding(tree: Tree, accepted: seq<Route>) {
    && (forall r :: r in accepted ==> Stored(tree, r))
    && (forall p, m :: p in tree && m in tree[p].routes ==>
          var r := tree[p].routes[m]; r in accepted && r.verb == m && PatternOf(r) == p)
  }

  ghost predicate Following(tree: Tree, accepted: seq<Route>) {
    forall r :: r in accepted ==> Follows(tree, [], SplitPath(r.url))
  }

  ghost predicate WildsNamed(tree: Tree, accepted: seq<Route>) {
    forall p {:trigger tree[p].wildName} :: p in tree && tree[p].wildName.Some? ==>
      var first := FirstAt(accepted, p + [Wild]);
      first.Some? && tree[p].wildName == Some(WildName(SplitPath(first.value.url)))
  }

  /** The static map answers for static routes only, with the route the tree has. */
  ghost predicate StaticsAgree(t: Table) {
    && (forall k :: k in t.statics ==> t.statics[k] != map[] && IsStatic(SplitPath(k)))
    && (forall k, m :: k in t.statics && m in t.statics[k] ==>
          var p := EdgesOf(SplitPath(k));
          p in t.tree && m in t.tree[p].routes && t.tree[p].routes[m] == t.statics[k][m])
  }

  /** Every node lies on the way to an accepted route. */
  ghost predicate Grounded(tree: Tree, accepted: seq<Route>) {
    forall p :: p in tree && p != [] ==> exists r :: r in accepted && p <= PatternOf(r)
  }

  ghost predicate Sound(t: Table, accepted: seq<Route>) {
    && WellFormed(t.tree) && Holding(t.tree, accepted) && Following(t.tree, accepted)
    && WildsNamed(t.tree, accepted) && StaticsAgree(t) && Grounded(t.tree, accepted)
  }

  lemma EdgesFrom(path: Path, segs: seq<string>)
    requires segs != []
    ensures var child := path + [EdgeOf(segs[0])];
      path + EdgesOf(segs) == if IsWild(segs[0]) then child else child + EdgesOf(segs[1..])
  {
    var e, rest := [EdgeOf(segs[0])], EdgesOf(segs[1..]);
    assert IsWild(segs[0]) ==> EdgesOf(segs) == e;
    assert !IsWild(segs[0]) ==> EdgesOf(segs) == e + rest;
    hide EdgesOf;
    assert path + (e + rest) == path + e + rest;
  }

  lemma GrowAdds(tree: Tree, path: Path, seg: string)
    requires path in tree
    ensures path + [EdgeOf(seg)] in Grow(tree, path, seg)
    ensures forall p :: p in Grow(tree, path, seg) ==> p in tree || p == path + [EdgeOf(seg)]
  {}

  lemma WalkUnfolds(tree: Tree, path: Path, segs: seq<string>)
    requires path in tree && segs != [] && !NameConflict(tree, path, segs[0])
    ensures var grown, child := Grow(tree, path, segs[0]), path + [EdgeOf(segs[0])];
      child in grown && Walk(tree, path, segs).0 == if IsWild(segs[0]) then grown else Walk(grown, child, segs[1..]).0
  {}

  /** The walk adds nodes on the way to its URL's pattern only. */
  lemma {:induction false} WalkAddsItsWay(tree: Tree, path: Path, segs: seq<string>)
    requires path in tree
    ensures forall p :: p in Walk(tree, path, segs).0 ==> p in tree || p <= path + EdgesOf(segs)
    decreases |segs|
  {
    if segs != [] && !NameConflict(tree, path, segs[0]) {
      EdgesFrom(path, segs);
      GrowAdds(tree, path, segs[0]);
      WalkUnfolds(tree, path, segs);
      hide Walk, Grow, EdgesOf;
      if !IsWild(segs[0]) { WalkAddsItsWay(Grow(tree, path, segs[0]), path + [EdgeOf(segs[0])], segs[1..]); }
    }
  }

  lemma PutIsGrounded(a: Tree, b: Tree, at: Path, route: Route, accepted: seq<Route>)
    requires Grounded(a, accepted) && at in b && forall p :: p in b ==> p in a || p <= PatternOf(route)
    ensures Grounded(Put(b, at, route), accepted + [route])
  {
    hide PatternOf;
    forall p | p in Put(b, at, route) && p != [] ensures exists r :: r in accepted + [route] && p <= PatternOf(r) {
      if p in a {
        var r :| r in accepted && p <= PatternOf(r);
        assert r in accepted + [route];
      } else {
        assert route in accepted + [route];
      }
    }
  }

  /** The tree after `AddRoute` accepted the route at `at`. */
  function Put(tree: Tree, at: Path, route: Route): Tree
    requires at in tree
  {
    tree[at := tree[at].(routes := tree[at].routes[route.verb := route])]
  }

  lemma PutKeepsShape(tree: Tree, at: Path, route: Route)
    requires WellFormed(tree) && at in tree
    ensures WellFormed(Put(tree, at, route))
  {
    var after := Put(tree, at, route);
    forall p | p in after ensures after[p].paramName.Some? <==> p + [Param] in after {
      assert tree[p].paramName.Some? <==> p + [Param] in tree;
    }
    forall p | p in after ensures after[p].wildName.Some? <==> p + [Wild] in after {
      assert tree[p].wildName.Some? <==> p + [Wild] in tree;
    }
  }

  lemma {:induction false} PutKeepsFollows(tree: Tree, at: Path, route: Route, path: Path, segs: seq<string>)
    requires at in tree && Follows(tree, path, segs)
    ensures Follows(Put(tree, at, route), path, segs)
    decreases |segs|
  {
    if segs != [] && !IsWild(segs[0]) { PutKeepsFollows(tree, at, route, path + [EdgeOf(segs[0])], segs[1..]); }
  }

  lemma PutHolds(a: Tree, b: Tree, at: Path, route: Route, accepted: seq<Route>)
    requires Holding(a, accepted) && Grown(a, b) && at in b && PatternOf(route) == at && route.verb !in b[at].routes
    ensures Holding(Put(b, at, route), accepted + [route])
  {
    hide PatternOf;
    var after := Put(b, at, route);
    forall r | r in accepted + [route] ensures Stored(after, r) {
      if r in accepted {
        assert Stored(a, r);
        assert NodeGrown(a[PatternOf(r)], b[PatternOf(r)]);
      }
    }
    forall p, m | p in after && m in after[p].routes
      ensures var r := after[p].routes[m]; r in accepted + [route] && r.verb == m && PatternOf(r) == p
    {
      if !(p == at && m == route.verb) {
        assert m in b[p].routes && after[p].routes[m] == b[p].routes[m];
        assert p in a && NodeGrown(a[p], b[p]);
      }
    }
  }

  lemma FirstAtKept(accepted: seq<Route>, route: Route, p: Path)
    ensures var before, after := FirstAt(accepted, p), FirstAt(accepted + [route], p);
      && (before.Some? ==> after == before)
      && (before.None? && PatternOf(route) == p ==> after == Some(route))
  {
    assert (accepted + [route])[..|accepted|] == accepted;
  }

  lemma {:induction false} FirstAtIsAccepted(accepted: seq<Route>, p: Path)
    ensures var first := FirstAt(accepted, p); first.Some? ==> first.value in accepted && PatternOf(first.value) == p
  {
    if accepted != [] { FirstAtIsAccepted(accepted[..|accepted| - 1], p); }
  }

  lemma PutNamesWilds(a: Tree, b: Tree, at: Path, route: Route, accepted: seq<Route>)
    requires WildsNamed(a, accepted) && Holding(a, accepted) && Grown(a, b) && at in b && PatternOf(route) == at
    requires WildsFrom(a, b, at, WildName(SplitPath(route.url)))
    ensures WildsNamed(Put(b, at, route), accepted + [route])
  {
    hide SplitPath, FirstAt, WildName;
    var after := Put(b, at, route);
    forall p | p in after && after[p].wildName.Some?
      ensures var first := FirstAt(accepted + [route], p + [Wild]);
        first.Some? && after[p].wildName == Some(WildName(SplitPath(first.value.url)))
    {
      assert after[p].wildName == b[p].wildName;
      FirstAtKept(accepted, route, p + [Wild]);
      if p in a && a[p].wildName.Some? {
        assert NodeGrown(a[p], b[p]);
      } else {
        FirstAtIsAccepted(accepted, p + [Wild]);
        if FirstAt(accepted, at).Some? { assert Stored(a, FirstAt(accepted, at).value); }
      }
    }
  }

  lemma StaticsKept(a: Table, b: Tree, at: Path, route: Route)
    requires StaticsAgree(a) && Grown(a.tree, b) && at in b && PatternOf(route) == at && route.verb !in b[at].routes
    ensures var key := NormalizePathname(route.url);
      StaticsAgree(Table(Put(b, at, route),
        if IsStatic(SplitPath(route.url)) then AddStatic(a.statics, key, route) else a.statics))
  {
    hide SplitPath, EdgesOf, NormalizePathname, IsStatic;
    var key := NormalizePathname(route.url);
    NormalizeKeepsSegments(route.url);
    var isStatic := IsStatic(SplitPath(route.url));
    var statics := if isStatic then AddStatic(a.statics, key, route) else a.statics;
    var after := Put(b, at, route);
    forall k | k in statics ensures statics[k] != map[] && IsStatic(SplitPath(k)) {
      if isStatic && k == key { assert route.verb in statics[k]; } else { assert k in a.statics && statics[k] == a.statics[k]; }
    }
    forall k, m | k in statics && m in statics[k]
      ensures var p := EdgesOf(SplitPath(k)); p in after && m in after[p].routes && after[p].routes[m] == statics[k][m]
    {
      var p := EdgesOf(SplitPath(k));
      if k in a.statics && m in a.statics[k] && statics[k][m] == a.statics[k][m] {
        assert p in a.tree && m in a.tree[p].routes && NodeGrown(a.tree[p], b[p]);
      }
    }
  }

  /** Every accepted registration keeps the table sound. */
  lemma AddKeepsSound(t: Table, accepted: seq<Route>, route: Route)
    requires Sound(t, accepted) && AddRoute(t, route).1 == Added
    ensures Sound(AddRoute(t, route).0, accepted + [route])
  {
    hide WellFormed, Holding, WildsNamed, StaticsAgree, Grounded, Grown, NodeGrown, WildsFrom, Follows, SplitPath, EdgesOf, IsStatic, AddStatic, WildName, NormalizePathname;
    var segs := SplitPath(route.url);
    RootIsIn(t.tree);
    var (tree, at) := Walk(t.tree, [], segs);
    WalkKeeps(t.tree, [], segs);
    WalkNamesWild(t.tree, [], segs);
    WalkAddsItsWay(t.tree, [], segs);
    assert [] + EdgesOf(segs) == EdgesOf(segs);
    assert AddRoute(t, route).0.tree == Put(tree, at.value, route);
    PutKeepsShape(tree, at.value, route);
    PutHolds(t.tree, tree, at.value, route, accepted);
    PutNamesWilds(t.tree, tree, at.value, route, accepted);
    StaticsKept(t, tree, at.value, route);
    PutIsGrounded(t.tree, tree, at.value, route, accepted);
    forall r | r in accepted + [route] ensures Follows(Put(tree, at.value, route), [], SplitPath(r.url)) {
      if r in accepted { GrownMapsNodes(t.tree, tree); FollowsGrows(t.tree, tree, [], SplitPath(r.url)); }
      PutKeepsFollows(tree, at.value, route, [], SplitPath(r.url));
    }
  }

  lemma RootIsIn(tree: Tree)
    requires WellFormed(tree)
    ensures [] in tree
  {}

  lemma GrownMapsNodes(a: Tree, b: Tree)
    requires Grown(a, b)
    ensures forall p :: p in a ==> p in b && NodeGrown(a[p], b[p])
  {}

  lemma EmptyIsSound()
    ensures Sound(EMPTY_TABLE, [])
  {
    var tree := EMPTY_TABLE.tree;
    assert forall p :: p in tree ==> p == [];
    assert BLANK.routes == map[];
    forall p | p in tree ensures tree[p].paramName.Some? <==> p + [Param] in tree { assert |p + [Param]| == 1; }
    forall p | p in tree ensures tree[p].wildName.Some? <==> p + [Wild] in tree { assert |p + [Wild]| == 1; }
  }

  /** Whatever is registered, in whatever order, the table holds exactly the accepted routes. */
  lemma {:induction false} BuildIsSound(attempts: seq<Route>)
    ensures Sound(Build(attempts).0, Build(attempts).1)
  {
    hide Sound, AddRoute;
    if attempts == [] {
      EmptyIsSound();
    } else {
      var before, route := attempts[..|attempts| - 1], attempts[|attempts| - 1];
      BuildIsSound(before);
      var (t, accepted) := Build(before);
      if AddRoute(t, route).1 == Added {
        AddKeepsSound(t, accepted, route);
      } else {
        SoundIsWellFormed(t, accepted);
        RejectedIsNoOp(t, route);
      }
    }
  }

  lemma SoundIsWellFormed(t: Table, accepted: seq<Route>)
    requires Sound(t, accepted)
    ensures WellFormed(t.tree)
  {}

  // ---- Which registrations are accepted ----

  /** The walk meets a parameter that the tree names otherwise. */
  predicate Obstructed(tree: Tree, path: Path, segs: seq<string>, i: nat) {
    && i < |segs| && i < |EdgesOf(segs)| && EdgesOf(segs)[i] == Param
    && path + EdgesOf(segs)[..i] in tree && path + EdgesOf(segs)[..i + 1] in tree
    && (segs[i] == "" || tree[path + EdgesOf(segs)[..i]].paramName != Some(NameOf(segs[i])))
  }

  lemma {:induction false} ParamEdges(segs: seq<string>, i: nat)
    requires i < |EdgesOf(segs)|
    ensures i < |segs| && EdgesOf(segs)[i] == EdgeOf(segs[i])
  {
    if i > 0 { ParamEdges(segs[1..], i - 1); }
  }

  lemma ObstructedBelow(tree: Tree, path: Path, segs: seq<string>, i: nat)
    requires segs != [] && !IsWild(segs[0])
    ensures Obstructed(tree, path, segs, i + 1) <==> Obstructed(tree, path + [EdgeOf(segs[0])], segs[1..], i)
  {
    var e, rest := EdgeOf(segs[0]), EdgesOf(segs[1..]);
    assert EdgesOf(segs) == [e] + rest;
    hide EdgesOf, NameOf;
    if i < |rest| {
      assert path + ([e] + rest)[..i + 1] == path + [e] + rest[..i];
      assert path + ([e] + rest)[..i + 2] == path + [e] + rest[..i + 1];
    }
  }

  lemma ObstructedHere(tree: Tree, path: Path, segs: seq<string>)
    requires path in tree && segs != []
    ensures Obstructed(tree, path, segs, 0) <==> NameConflict(tree, path, segs[0])
  {
    assert |EdgesOf(segs)| > 0 && EdgesOf(segs)[0] == EdgeOf(segs[0]);
    hide EdgesOf;
    assert path + EdgesOf(segs)[..0] == path && EdgesOf(segs)[..1] == [EdgeOf(segs[0])];
  }

  /** A wildcard ends the walk. */
  lemma WildEnds(tree: Tree, path: Path, segs: seq<string>)
    requires segs != [] && IsWild(segs[0])
    ensures forall i: nat :: !Obstructed(tree, path, segs, i)
  {}

  lemma {:induction false} WalkFailsIff(tree: Tree, path: Path, segs: seq<string>)
    requires WellFormed(tree) && path in tree
    ensures Walk(tree, path, segs).1.None? <==> exists i: nat :: Obstructed(tree, path, segs, i)
    decreases |segs|
  {
    if segs != [] {
      hide WellFormed, Obstructed;
      ObstructedHere(tree, path, segs);
      if IsWild(segs[0]) {
        WildEnds(tree, path, segs);
      } else if !NameConflict(tree, path, segs[0]) {
        var child := path + [EdgeOf(segs[0])];
        forall i: nat { ObstructedBelow(tree, path, segs, i); }
        assert forall i: nat :: Obstructed(tree, path, segs, i) ==> Obstructed(tree, child, segs[1..], i - 1) by {
          ObstructedAt(tree, path, segs);
        }
        if child in tree {
          WalkFailsIff(tree, child, segs[1..]);
        } else {
          NothingBelow(tree, child, segs[1..]);
          forall q | q in tree ensures !Extends(q, child) {
            if |child| <= |q| { PrefixesAreIn(tree, q, |child|); }
          }
          GrownChildIsLeaf(tree, path, segs[0]);
          LeafWalk(Grow(tree, path, segs[0]), child, segs[1..]);
        }
      }
    } else {
      assert EdgesOf(segs) == [];
    }
  }

  lemma ObstructedAt(tree: Tree, path: Path, segs: seq<string>)
    requires path in tree && segs != [] && !IsWild(segs[0]) && !NameConflict(tree, path, segs[0])
    ensures forall i: nat :: Obstructed(tree, path, segs, i) ==> i >= 1 && Obstructed(tree, path + [EdgeOf(segs[0])], segs[1..], i - 1)
  {
    hide Obstructed;
    forall i: nat | Obstructed(tree, path, segs, i) ensures i >= 1 && Obstructed(tree, path + [EdgeOf(segs[0])], segs[1..], i - 1) {
      ObstructedHere(tree, path, segs);
      if i >= 1 { ObstructedBelow(tree, path, segs, i - 1); }
    }
  }

  lemma BelowIsOut(tree: Tree, child: Path, rest: Path)
    requires WellFormed(tree)
    ensures child + rest in tree ==> child in tree
  {
    hide WellFormed;
    if child + rest in tree {
      PrefixesAreIn(tree, child + rest, |child|);
      assert (child + rest)[..|child|] == child;
    }
  }

  lemma NothingBelow(tree: Tree, child: Path, segs: seq<string>)
    requires WellFormed(tree) && child !in tree
    ensures forall i: nat :: !Obstructed(tree, child, segs, i)
  {
    hide WellFormed;
    forall i: nat ensures !Obstructed(tree, child, segs, i) {
      if i < |EdgesOf(segs)| { BelowIsOut(tree, child, EdgesOf(segs)[..i]); }
    }
  }

  /** The accepted URL names the parameter at position `i` of the same pattern otherwise. */
  predicate NamedOtherwise(a: Route, r: Route, i: nat) {
    var p, q := PatternOf(a), PatternOf(r);
    && i < |p| && i < |q| && p[..i + 1] == q[..i + 1] && q[i] == Param
    && i < |SplitPath(a.url)| && i < |SplitPath(r.url)| && SplitPath(a.url)[i] != SplitPath(r.url)[i]
  }

  lemma {:induction false} FollowsNames(tree: Tree, path: Path, segs: seq<string>, i: nat)
    requires Follows(tree, path, segs) && i < |segs| && i < |EdgesOf(segs)|
    ensures path + EdgesOf(segs)[..i] in tree && path + EdgesOf(segs)[..i + 1] in tree
    ensures EdgesOf(segs)[i] == Param ==> IsParam(segs[i]) && tree[path + EdgesOf(segs)[..i]].paramName == Some(NameOf(segs[i]))
    decreases |segs|
  {
    var edges := EdgesOf(segs);
    if i == 0 {
      assert path + edges[..0] == path && path + edges[..1] == path + [EdgeOf(segs[0])];
    } else {
      assert edges == [EdgeOf(segs[0])] + EdgesOf(segs[1..]);
      FollowsNames(tree, path + [EdgeOf(segs[0])], segs[1..], i - 1);
      var rest := EdgesOf(segs[1..]);
      assert path + edges[..i] == path + [EdgeOf(segs[0])] + rest[..i - 1];
      assert path + edges[..i + 1] == path + [EdgeOf(segs[0])] + rest[..i];
    }
  }

  lemma ParamsAreTheirNames(a: string, b: string)
    requires IsParam(a) && IsParam(b)
    ensures NameOf(a) == NameOf(b) <==> a == b
  {
    assert a == [a[0]] + a[1..] && b == [b[0]] + b[1..];
  }

  lemma ObstructedIff(t: Table, accepted: seq<Route>, r: Route)
    requires Sound(t, accepted)
    ensures (exists i: nat :: Obstructed(t.tree, [], SplitPath(r.url), i)) <==> exists a, i: nat :: a in accepted && NamedOtherwise(a, r, i)
  {
    hide WellFormed, Holding, WildsNamed, StaticsAgree, Follows, SplitPath, EdgesOf;
    var segs := SplitPath(r.url);
    forall i: nat | Obstructed(t.tree, [], segs, i) ensures exists a :: a in accepted && NamedOtherwise(a, r, i) {
      var p := [] + EdgesOf(segs)[..i + 1];
      var a :| a in accepted && p <= PatternOf(a);
      assert Follows(t.tree, [], SplitPath(a.url));
      NamesAgree(t.tree, a, r, i);
    }
    forall a, i: nat | a in accepted && NamedOtherwise(a, r, i) ensures Obstructed(t.tree, [], segs, i) {
      assert Follows(t.tree, [], SplitPath(a.url));
      NamesAgree(t.tree, a, r, i);
    }
  }

  /** On a pattern they share so far, the tree has the accepted URL's name. */
  lemma NamesAgree(tree: Tree, a: Route, r: Route, i: nat)
    requires Follows(tree, [], SplitPath(a.url))
    requires i < |PatternOf(a)| && i < |PatternOf(r)| && PatternOf(a)[..i + 1] == PatternOf(r)[..i + 1]
    ensures Obstructed(tree, [], SplitPath(r.url), i) <==> NamedOtherwise(a, r, i)
  {
    hide SplitPath, EdgesOf, Follows, NameOf;
    var A, R := SplitPath(a.url), SplitPath(r.url);
    ParamEdges(A, i);
    ParamEdges(R, i);
    assert PatternOf(a)[i] == PatternOf(a)[..i + 1][i] == PatternOf(r)[i];
    assert PatternOf(a)[..i] == PatternOf(a)[..i + 1][..i] == PatternOf(r)[..i];
    FollowsNames(tree, [], A, i);
    if PatternOf(r)[i] == Param {
      assert IsParam(A[i]) && IsParam(R[i]);
      ParamsAreTheirNames(A[i], R[i]);
    }
  }

  /** Same verb, same pattern. */
  predicate SameRoute(a: Route, r: Route) { a.verb == r.verb && PatternOf(a) == PatternOf(r) }

  ghost predicate Clashes(accepted: seq<Route>, r: Route) {
    exists a, i: nat :: a in accepted && NamedOtherwise(a, r, i)
  }

  /** After any attempts, a route is refused for a parameter's name if and only if an accepted URL
      names the parameter at that place otherwise; and else as a duplicate if and only if an
      accepted route has its verb and its pattern. */
  lemma AcceptedIff(attempts: seq<Route>, r: Route)
    ensures var (t, accepted) := Build(attempts); var outcome := AddRoute(t, r).1;
      && (outcome == ParamConflict <==> Clashes(accepted, r))
      && (outcome == Duplicate <==> !Clashes(accepted, r) && exists a :: a in accepted && SameRoute(a, r))
      && (outcome == Added <==> !Clashes(accepted, r) && !exists a :: a in accepted && SameRoute(a, r))
  {
    hide Build, Sound;
    BuildIsSound(attempts);
    var (t, accepted) := Build(attempts);
    OutcomeIff(t, accepted, r);
  }

  lemma OutcomeIff(t: Table, accepted: seq<Route>, r: Route)
    requires Sound(t, accepted)
    ensures [] in t.tree
    ensures var outcome := AddRoute(t, r).1;
      && (outcome == ParamConflict <==> Clashes(accepted, r))
      && (outcome == Duplicate <==> !Clashes(accepted, r) && exists a :: a in accepted && SameRoute(a, r))
  {
    var segs := SplitPath(r.url);
    ObstructedIff(t, accepted, r);
    RootIsIn(t.tree);
    WalkFailsIff(t.tree, [], segs);
    WalkKeeps(t.tree, [], segs);
    assert [] + EdgesOf(segs) == PatternOf(r);
    hide WellFormed, WildsNamed, StaticsAgree, Follows, SplitPath, EdgesOf, Grounded, Obstructed, NamedOtherwise, Walk;
    var (tree, at) := Walk(t.tree, [], segs);
    if at.Some? { StoredThere(t.tree, tree, accepted, r); }
  }

  lemma StoredThere(a: Tree, b: Tree, accepted: seq<Route>, r: Route)
    requires Holding(a, accepted) && Grown(a, b) && PatternOf(r) in b
    ensures r.verb in b[PatternOf(r)].routes <==> exists x :: x in accepted && SameRoute(x, r)
  {
    hide PatternOf;
    var p := PatternOf(r);
    if r.verb in b[p].routes {
      assert p in a && NodeGrown(a[p], b[p]);
      assert a[p].routes[r.verb] in accepted;
    }
    if x :| x in accepted && SameRoute(x, r) {
      assert Stored(a, x);
      assert NodeGrown(a[p], b[p]);
    }
  }
}
