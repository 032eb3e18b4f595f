module RouterParams {
  // What a found route's parameters are, in terms of the accepted URLs
  // (packages/core/src/router.ts).

  import opened Options
  import opened RouterPaths
  import opened RouterModel
  import opened RouterSearch
  import opened RouterBindings
  import opened RouterRegistration
  import opened RouterMatch

  /** A URL's segments make the search try a parameter name before they stop fitting. */
  predicate TriedBy(pattern: seq<string>, segs: seq<string>, name: string)
    decreases |pattern|
  {
    pattern != [] && segs != [] && !IsWild(pattern[0]) &&
    if IsParam(pattern[0]) then
      NameOf(pattern[0]) != "" && (NameOf(pattern[0]) == name || TriedBy(pattern[1..], segs[1..], name))
    else
      pattern[0] == segs[0] && TriedBy(pattern[1..], segs[1..], name)
  }

  /** What is left of a URL once its first segments took the edges `at`. */
  function RestAfter(pattern: seq<string>, at: Path): Option<seq<string>>
    decreases |at|
  {
    if at == [] then Some(pattern)
    else if pattern == [] || IsWild(pattern[0]) || EdgeOf(pattern[0]) != at[0] then None
    else RestAfter(pattern[1..], at[1..])
  }

  function RestOf(r: Route, at: Path): Option<seq<string>> { RestAfter(SplitPath(r.url), at) }

  /** The URL goes through `at`, takes the edge `e` there, and makes the search try the name. */
  predicate Tries(r: Route, at: Path, e: Edge, segs: seq<string>, name: string) {
    RestOf(r, at).Some? && TriedBy(RestOf(r, at).value, segs, name) && EdgeOf(RestOf(r, at).value[0]) == e
  }

  /** Some accepted URL makes the search try the name in a branch more specific than `e`. */
  ghost predicate LostAt(accepted: seq<Route>, at: Path, e: Edge, segs: seq<string>, name: string) {
    exists r, sooner :: r in accepted && Tries(r, at, sooner, segs, name) && Specificity(sooner) < Specificity(e)
  }

  /** Every name the URL binds before a place where it is lost is bound again from there on. */
  ghost predicate KeepsOwn(accepted: seq<Route>, at: Path, pattern: seq<string>, wildName: string, segs: seq<string>, bound: set<string>)
    decreases |pattern|
  {
    pattern == [] || segs == [] ||
    (&& (forall name :: name in bound && LostAt(accepted, at, EdgeOf(pattern[0]), segs, name) ==>
           name in NamesOf(OwnBindings(pattern, wildName, segs)))
     && (IsWild(pattern[0]) || KeepsOwn(accepted, at + [EdgeOf(pattern[0])], pattern[1..], wildName, segs[1..],
           bound + if IsParam(pattern[0]) then {NameOf(pattern[0])} else {})))
  }

  // ---- URLs along the tree ----

  lemma {:induction false} RestSnoc(pattern: seq<string>, at: Path, e: Edge)
    ensures RestAfter(pattern, at + [e]) ==
      match RestAfter(pattern, at)
      case None => None
      case Some(rest) => if rest == [] || IsWild(rest[0]) || EdgeOf(rest[0]) != e then None else Some(rest[1..])
    decreases |at|
  {
    if at == [] {
      assert [] + [e] == [e] && [e][1..] == [];
    } else {
      assert (at + [e])[0] == at[0] && (at + [e])[1..] == at[1..] + [e];
      if pattern != [] { RestSnoc(pattern[1..], at[1..], e); }
    }
  }

  lemma {:induction false} RestExists(pattern: seq<string>, at: Path)
    requires at <= EdgesOf(pattern) && NoWild(at)
    ensures RestAfter(pattern, at).Some?
    decreases |at|
  {
    if at != [] {
      assert at[0] == EdgesOf(pattern)[0] && EdgesOf(pattern)[1..] == EdgesOf(pattern[1..]);
      RestExists(pattern[1..], at[1..]);
    }
  }

  lemma {:induction false} FollowsRest(tree: Tree, path: Path, pattern: seq<string>, at: Path)
    requires Follows(tree, path, pattern) && RestAfter(pattern, at).Some?
    ensures Follows(tree, path + at, RestAfter(pattern, at).value)
    decreases |at|
  {
    if at == [] {
      assert path + [] == path;
    } else {
      assert path + at == path + [at[0]] + at[1..];
      FollowsRest(tree, path + [at[0]], pattern[1..], at[1..]);
    }
  }

  /** What the table knows of a route that goes through `at`. */
  lemma RouteThrough(t: Table, accepted: seq<Route>, r: Route, at: Path)
    requires Sound(t, accepted) && r in accepted && RestOf(r, at).Some?
    ensures Follows(t.tree, at, RestOf(r, at).value)
  {
    hide WellFormed, Holding, WildsNamed, StaticsAgree, Grounded, SplitPath, Follows;
    FollowsRest(t.tree, [], SplitPath(r.url), at);
    assert [] + at == at;
  }

  /** Every node lies on some accepted URL. */
  lemma SomeRouteThrough(t: Table, accepted: seq<Route>, at: Path) returns (r: Route)
    requires Sound(t, accepted) && at in t.tree && at != [] && NoWild(at)
    ensures r in accepted && RestOf(r, at).Some?
  {
    hide WellFormed, Holding, Following, WildsNamed, StaticsAgree, SplitPath;
    r :| r in accepted && at <= PatternOf(r);
    RestExists(SplitPath(r.url), at);
  }

  // ---- The tree tries what the URLs say ----

  lemma NoWildSnoc(path: Path, e: Edge)
    requires NoWild(path) && !e.Wild?
    ensures NoWild(path + [e])
  {}

  /** A URL tries a name below its first edge, or at it. */
  lemma TriedByRoute(t: Table, accepted: seq<Route>, r: Route, at: Path, segs: seq<string>, name: string)
    requires Sound(t, accepted) && NoWild(at) && at in t.tree && r in accepted && RestOf(r, at).Some?
    requires TriedBy(RestOf(r, at).value, segs, name)
    ensures var rest := RestOf(r, at).value;
      && segs != [] && rest != [] && !IsWild(rest[0])
      && (if IsParam(rest[0]) then name in TriedParam(t.tree, at, segs) else name in TriedLit(t.tree, at, segs))
    decreases |segs|, 0
  {
    hide Sound;
    var rest := RestOf(r, at).value;
    var e := EdgeOf(rest[0]);
    RouteThrough(t, accepted, r, at);
    RestSnoc(SplitPath(r.url), at, e);
    NoWildSnoc(at, e);
    FollowedIsIn(t.tree, at, rest);
    if IsParam(rest[0]) {
      ChildIsNamed(t, accepted, at);
    }
    hide SplitPath, RestAfter;
    if TriedBy(rest[1..], segs[1..], name) {
      TriedByRoute(t, accepted, r, at + [e], segs[1..], name);
    }
  }

  lemma FollowedIsIn(tree: Tree, at: Path, rest: seq<string>)
    requires Follows(tree, at, rest) && rest != [] && !IsWild(rest[0])
    ensures at + [EdgeOf(rest[0])] in tree
    ensures IsParam(rest[0]) ==> at in tree && tree[at].paramName == Some(NameOf(rest[0]))
  {}

  lemma ChildIsNamed(t: Table, accepted: seq<Route>, at: Path)
    requires Sound(t, accepted) && at in t.tree
    ensures t.tree[at].paramName.Some? <==> at + [Param] in t.tree
  {}

  lemma {:induction false} TriedIsByRoute(t: Table, accepted: seq<Route>, at: Path, segs: seq<string>, name: string)
    requires Sound(t, accepted) && NoWild(at) && at in t.tree && segs != []
    ensures name in TriedLit(t.tree, at, segs) ==> exists r :: r in accepted && Tries(r, at, Lit(segs[0]), segs, name)
    ensures name in TriedParam(t.tree, at, segs) ==> exists r :: r in accepted && Tries(r, at, Param, segs, name)
    decreases |segs|
  {
    hide Sound, SplitPath, RestAfter, Follows, Tries;
    forall e | (e == Lit(segs[0]) || (e == Param && HasName(t.tree[at].paramName))) && at + [e] in t.tree
      ensures name in Tried(t.tree, at + [e], segs[1..]) || (e == Param && name == t.tree[at].paramName.value) ==>
        exists r :: r in accepted && Tries(r, at, e, segs, name)
    {
      if name in Tried(t.tree, at + [e], segs[1..]) || (e == Param && name == t.tree[at].paramName.value) {
        TriedThrough(t, accepted, at, e, segs, name);
      }
    }
  }

  lemma {:induction false} TriedThrough(t: Table, accepted: seq<Route>, at: Path, e: Edge, segs: seq<string>, name: string)
    requires Sound(t, accepted) && NoWild(at) && at in t.tree && segs != [] && at + [e] in t.tree
    requires e == Lit(segs[0]) || (e == Param && HasName(t.tree[at].paramName))
    requires name in Tried(t.tree, at + [e], segs[1..]) || (e == Param && name == t.tree[at].paramName.value)
    ensures exists r :: r in accepted && Tries(r, at, e, segs, name)
    decreases |segs|, 0
  {
    hide Sound, SplitPath, RestAfter;
    var child := at + [e];
    NoWildSnoc(at, e);
    var r: Route;
    if name in Tried(t.tree, child, segs[1..]) {
      TriedNeedsMore(t.tree, child, segs[1..]);
      TriedIsByRoute(t, accepted, child, segs[1..], name);
      if name in TriedLit(t.tree, child, segs[1..]) {
        r :| r in accepted && Tries(r, child, Lit(segs[1..][0]), segs[1..], name);
      } else {
        r :| r in accepted && Tries(r, child, Param, segs[1..], name);
      }
    } else {
      r := SomeRouteThrough(t, accepted, child);
    }
    RestSnoc(SplitPath(r.url), at, e);
    RouteThrough(t, accepted, r, at);
    FollowedIsIn(t.tree, at, RestOf(r, at).value);
  }

  lemma TriedNeedsMore(tree: Tree, at: Path, segs: seq<string>)
    ensures Tried(tree, at, segs) == TriedLit(tree, at, segs) + TriedParam(tree, at, segs)
    ensures Tried(tree, at, segs) != {} ==> segs != []
  {}

  /** The names lost at an edge are those of the more specific URLs. */
  lemma LostIsByRoutes(t: Table, accepted: seq<Route>, at: Path, e: Edge, segs: seq<string>, name: string)
    requires Sound(t, accepted) && NoWild(at) && at in t.tree && segs != []
    ensures name in Lost(t.tree, at, e, segs) <==> LostAt(accepted, at, e, segs, name)
  {
    hide Sound, RestOf, TriedLit, TriedParam;
    TriedIsByRoute(t, accepted, at, segs, name);
    if LostAt(accepted, at, e, segs, name) {
      var r, sooner :| r in accepted && Tries(r, at, sooner, segs, name) && Specificity(sooner) < Specificity(e);
      TriedByRoute(t, accepted, r, at, segs, name);
    }
  }

  // ---- A record is what the route's own URL binds ----

  ghost predicate WildIsCalled(tree: Tree, at: Path, name: string) {
    forall p {:trigger tree[p].wildName} :: p in tree && tree[p].wildName.Some? && p + [Wild] == at ==> tree[p].wildName == Some(name)
  }

  /** The condition at one edge. */
  ghost predicate KeepsHere(tree: Tree, at: Path, p: Path, segs: seq<string>, bound: set<string>)
    requires p != [] && segs != []
  {
    bound * Lost(tree, at, p[0], segs) <= NamesOf(Bindings(tree, at, p, segs))
  }

  ghost predicate KeepsOwnHere(accepted: seq<Route>, at: Path, pattern: seq<string>, wildName: string, segs: seq<string>, bound: set<string>)
    requires pattern != []
  {
    forall name :: name in bound && LostAt(accepted, at, EdgeOf(pattern[0]), segs, name) ==>
      name in NamesOf(OwnBindings(pattern, wildName, segs))
  }

  lemma HereIsOwn(t: Table, accepted: seq<Route>, at: Path, pattern: seq<string>, wildName: string, segs: seq<string>, bound: set<string>)
    requires Sound(t, accepted) && NoWild(at) && at in t.tree && Follows(t.tree, at, pattern) && Fits(EdgesOf(pattern), segs)
    requires WildIsCalled(t.tree, at + EdgesOf(pattern), wildName)
    requires pattern != [] && segs != [] && EdgesOf(pattern) != [] && EdgesOf(pattern)[0] == EdgeOf(pattern[0])
    ensures KeepsHere(t.tree, at, EdgesOf(pattern), segs, bound) <==> KeepsOwnHere(accepted, at, pattern, wildName, segs, bound)
  {
    hide Sound, Lost, LostAt, Bindings, OwnBindings, NamesOf, EdgesOf, EdgeOf, Fits, Follows;
    SoundIsWellFormed(t, accepted);
    BindingsAreOwn(t.tree, at, pattern, segs, wildName);
    hide WellFormed, WildIsCalled;
    var e := EdgeOf(pattern[0]);
    var lost, names := Lost(t.tree, at, e, segs), NamesOf(OwnBindings(pattern, wildName, segs));
    forall name ensures name in lost <==> LostAt(accepted, at, e, segs, name) {
      LostIsByRoutes(t, accepted, at, e, segs, name);
    }
    if bound * lost <= names {
      forall name | name in bound && name in lost ensures name in names { assert name in bound * lost; }
    }
  }

  lemma {:induction false} KeepsIsOwn(t: Table, accepted: seq<Route>, at: Path, pattern: seq<string>, wildName: string,
                                      segs: seq<string>, bound: set<string>)
    requires Sound(t, accepted) && NoWild(at) && Follows(t.tree, at, pattern) && Fits(EdgesOf(pattern), segs)
    requires WildIsCalled(t.tree, at + EdgesOf(pattern), wildName)
    ensures Keeps(t.tree, at, EdgesOf(pattern), segs, bound) <==> KeepsOwn(accepted, at, pattern, wildName, segs, bound)
    decreases |pattern|
  {
    var own := if pattern != [] && IsParam(pattern[0]) then {NameOf(pattern[0])} else {};
    hide *;
    if pattern == [] {
      KeepsNothing(t.tree, accepted, at, wildName, segs, bound);
    } else {
      FirstFits(pattern, segs);
      FollowsIsIn(t.tree, at, pattern);
      HereIsOwn(t, accepted, at, pattern, wildName, segs, bound);
      var e := EdgeOf(pattern[0]);
      if !IsWild(pattern[0]) {
        NoWildSnoc(at, e);
        FollowedIsIn(t.tree, at, pattern);
        NamesAtEdge(t.tree, at, pattern, segs);
        EdgesSplit(at, pattern);
        KeepsIsOwn(t, accepted, at + [e], pattern[1..], wildName, segs[1..], bound + own);
      }
      KeepsFirst(t.tree, at, EdgesOf(pattern), segs, bound);
      KeepsOwnFirst(accepted, at, pattern, wildName, segs, bound);
    }
  }

  lemma KeepsNothing(tree: Tree, accepted: seq<Route>, at: Path, wildName: string, segs: seq<string>, bound: set<string>)
    ensures Keeps(tree, at, EdgesOf([]), segs, bound) && KeepsOwn(accepted, at, [], wildName, segs, bound)
  {}

  lemma KeepsFirst(tree: Tree, at: Path, p: Path, segs: seq<string>, bound: set<string>)
    requires p != [] && segs != [] && at in tree
    ensures Keeps(tree, at, p, segs, bound) <==>
      && KeepsHere(tree, at, p, segs, bound)
      && (p[0] == Wild || Keeps(tree, at + [p[0]], p[1..], segs[1..], bound + NamesOf(BindingAt(tree, at, p[0], segs))))
  {
    hide Lost, Bindings, BindingAt, NamesOf;
  }

  lemma KeepsOwnFirst(accepted: seq<Route>, at: Path, pattern: seq<string>, wildName: string, segs: seq<string>, bound: set<string>)
    requires pattern != [] && segs != []
    ensures KeepsOwn(accepted, at, pattern, wildName, segs, bound) <==>
      && KeepsOwnHere(accepted, at, pattern, wildName, segs, bound)
      && (IsWild(pattern[0]) || KeepsOwn(accepted, at + [EdgeOf(pattern[0])], pattern[1..], wildName, segs[1..],
            bound + if IsParam(pattern[0]) then {NameOf(pattern[0])} else {}))
  {
    hide LostAt, OwnBindings, NamesOf;
  }

  lemma FirstFits(pattern: seq<string>, segs: seq<string>)
    requires pattern != [] && Fits(EdgesOf(pattern), segs)
    ensures segs != [] && EdgesOf(pattern) != [] && EdgesOf(pattern)[0] == EdgeOf(pattern[0])
    ensures !IsWild(pattern[0]) ==> EdgesOf(pattern)[1..] == EdgesOf(pattern[1..]) && Fits(EdgesOf(pattern[1..]), segs[1..])
    ensures IsWild(pattern[0]) <==> EdgeOf(pattern[0]) == Wild
  {
    if !IsWild(pattern[0]) { assert EdgesOf(pattern)[1..] == EdgesOf(pattern[1..]); }
  }

  lemma EdgesSplit(at: Path, pattern: seq<string>)
    requires pattern != [] && !IsWild(pattern[0])
    ensures at + EdgesOf(pattern) == at + [EdgeOf(pattern[0])] + EdgesOf(pattern[1..])
  {}

  lemma FollowsIsIn(tree: Tree, at: Path, pattern: seq<string>)
    requires Follows(tree, at, pattern)
    ensures at in tree
    ensures pattern != [] && !IsWild(pattern[0]) ==> Follows(tree, at + [EdgeOf(pattern[0])], pattern[1..])
  {}

  lemma NamesAtEdge(tree: Tree, at: Path, pattern: seq<string>, segs: seq<string>)
    requires pattern != [] && segs != [] && at in tree && !IsWild(pattern[0])
    requires IsParam(pattern[0]) ==> tree[at].paramName == Some(NameOf(pattern[0]))
    ensures NamesOf(BindingAt(tree, at, EdgeOf(pattern[0]), segs)) == if IsParam(pattern[0]) then {NameOf(pattern[0])} else {}
  {}

  /** What the parameters of a found route are, for every run of registrations and every request:
      those its own URL binds, if and only if every name it binds before a place where a more
      specific URL tried that name in vain is bound again from there on. */
  lemma MatchBindsItsOwnIff(attempts: seq<Route>, d: Decoder, ignoreSlash: bool, verb: Method, pathname: string, c: string)
    requires Canonicalize(pathname, ignoreSlash) == Some(c)
    ensures var (t, accepted) := Build(attempts); var answer := Match(t, d, ignoreSlash, verb, pathname);
      answer.Found? ==>
        var url, wildName := SplitPath(answer.route.url), WildNameAt(accepted, PatternOf(answer.route));
        var bindings := OwnBindings(url, wildName, SplitPath(c));
        && (answer.params == BindAll(Decoded(d), map[], bindings) <==> KeepsOwn(accepted, [], url, wildName, SplitPath(c), {}))
        && (answer.raw == BindAll(Verbatim(), map[], bindings) <==> KeepsOwn(accepted, [], url, wildName, SplitPath(c), {}))
  {
    hide Build, Sound, Match, SplitPath, Canonicalize, OwnBindings, SearchAt, WildNameAt, Best, WellFormed, PatternOf, KeepsOwn, Keeps, BindAll, Final;
    BuildIsSound(attempts);
    StaticMapRefinesTree(attempts, d, ignoreSlash, verb, pathname);
    var (t, accepted) := Build(attempts);
    var segs := SplitPath(c);
    SoundIsWellFormed(t, accepted);
    RootIsIn(t.tree);
    var r := SearchAt(d, t.tree, [], segs, verb, map[], map[]);
    if r.Hit? {
      var p := HitIsBest(d, t.tree, [], segs, verb, map[], map[]);
      assert [] + p == p;
      BestIsMostSpecific(t, accepted, p, segs, verb);
      SearchLeaves(d, t.tree, [], segs, verb, map[], map[]);
      assert p[0..] == p;
      var none: Params := map[];
      assert none.Keys == {};
      FoundBindsItsOwn(t, accepted, t.tree[p].routes[verb], verb, segs);
      FoundKeepsItsOwn(t, accepted, t.tree[p].routes[verb], verb, segs);
      FinalIff(Decoded(d), t.tree, [], p, segs, map[]);
      FinalIff(Verbatim(), t.tree, [], p, segs, map[]);
    }
  }

  lemma FoundKeepsItsOwn(t: Table, accepted: seq<Route>, route: Route, verb: Method, segs: seq<string>)
    requires Sound(t, accepted) && MostSpecific(accepted, route, verb, segs)
    ensures Keeps(t.tree, [], PatternOf(route), segs, {})
      <==> KeepsOwn(accepted, [], SplitPath(route.url), WildNameAt(accepted, PatternOf(route)), segs, {})
  {
    hide SplitPath, WellFormed, Holding, Follows, Fits, Keeps, KeepsOwn, StaticsAgree, FirstAt, Grounded;
    var pattern, wildName := SplitPath(route.url), WildNameAt(accepted, PatternOf(route));
    assert [] + EdgesOf(pattern) == PatternOf(route);
    assert Follows(t.tree, [], pattern);
    KeepsIsOwn(t, accepted, [], pattern, wildName, segs, {});
  }

  // ---- Distinct names are enough ----

  /** The names a URL binds along the edges `at`. */
  function NamesBefore(pattern: seq<string>, at: Path): seq<string>
    decreases |at|
  {
    if at == [] || pattern == [] then []
    else (if IsParam(pattern[0]) then [NameOf(pattern[0])] else []) + NamesBefore(pattern[1..], at[1..])
  }

  lemma {:induction false} OwnNamesSplit(pattern: seq<string>, at: Path)
    requires RestAfter(pattern, at).Some?
    ensures OwnNames(pattern) == NamesBefore(pattern, at) + OwnNames(RestAfter(pattern, at).value)
    decreases |at|
  {
    if at == [] {
      assert [] + OwnNames(pattern) == OwnNames(pattern);
    } else {
      OwnNamesSplit(pattern[1..], at[1..]);
    }
  }

  lemma {:induction false} NamesBeforeSnoc(pattern: seq<string>, at: Path, e: Edge)
    requires RestAfter(pattern, at).Some? && RestAfter(pattern, at).value != []
    ensures var rest := RestAfter(pattern, at).value;
      NamesBefore(pattern, at + [e]) == NamesBefore(pattern, at) + if IsParam(rest[0]) then [NameOf(rest[0])] else []
    decreases |at|
  {
    if at == [] {
      assert [] + [e] == [e] && [e][1..] == [];
      assert NamesBefore(pattern[1..], []) == [];
    } else {
      assert (at + [e])[0] == at[0] && (at + [e])[1..] == at[1..] + [e];
      NamesBeforeSnoc(pattern[1..], at[1..], e);
    }
  }

  /** URLs that share their first edges share the names they bind there. */
  lemma {:induction false} SameNamesBefore(tree: Tree, path: Path, u: seq<string>, v: seq<string>, at: Path)
    requires Follows(tree, path, u) && Follows(tree, path, v) && RestAfter(u, at).Some? && RestAfter(v, at).Some?
    ensures NamesBefore(u, at) == NamesBefore(v, at)
    decreases |at|
  {
    if at != [] { SameNamesBefore(tree, path + [at[0]], u[1..], v[1..], at[1..]); }
  }

  lemma {:induction false} TriedIsOwnName(pattern: seq<string>, segs: seq<string>, name: string)
    requires TriedBy(pattern, segs, name)
    ensures name != "" && name in OwnNames(pattern)
    decreases |pattern|
  {
    if !(IsParam(pattern[0]) && NameOf(pattern[0]) == name) { TriedIsOwnName(pattern[1..], segs[1..], name); }
  }

  lemma NothingIsLost(t: Table, accepted: seq<Route>, route: Route, at: Path, e: Edge, segs: seq<string>, name: string)
    requires Sound(t, accepted) && route in accepted && RestOf(route, at).Some? && name in NamesBefore(SplitPath(route.url), at)
    requires forall r :: r in accepted ==> GoodUrl(r.url)
    ensures !LostAt(accepted, at, e, segs, name)
  {
    hide WellFormed, Holding, WildsNamed, StaticsAgree, Grounded, SplitPath, Follows, TriedBy, RestAfter, OwnNames, NamesBefore;
    forall r, sooner | r in accepted ensures !Tries(r, at, sooner, segs, name) {
      if Tries(r, at, sooner, segs, name) {
        SameNamesBefore(t.tree, [], SplitPath(route.url), SplitPath(r.url), at);
        OwnNamesSplit(SplitPath(r.url), at);
        TriedIsOwnName(RestOf(r, at).value, segs, name);
        NotDistinct(NamesBefore(SplitPath(r.url), at), OwnNames(RestOf(r, at).value), name);
        assert false;
      }
    }
  }

  lemma NotDistinct(a: seq<string>, b: seq<string>, name: string)
    requires name in a && name in b && name != ""
    ensures !Distinct(a + b)
  {
    var i :| 0 <= i < |a| && a[i] == name;
    var j :| 0 <= j < |b| && b[j] == name;
    assert (a + b)[i] == name && (a + b)[|a| + j] == name;
  }

  lemma {:induction false} GoodUrlsKeep(t: Table, accepted: seq<Route>, route: Route, at: Path, pattern: seq<string>,
                                        wildName: string, segs: seq<string>, bound: set<string>)
    requires Sound(t, accepted) && route in accepted && RestOf(route, at) == Some(pattern)
    requires forall name :: name in bound ==> name in NamesBefore(SplitPath(route.url), at)
    requires forall r :: r in accepted ==> GoodUrl(r.url)
    ensures KeepsOwn(accepted, at, pattern, wildName, segs, bound)
    decreases |pattern|
  {
    hide Sound, SplitPath, GoodUrl, LostAt, NamesBefore, RestAfter, OwnBindings;
    if pattern != [] && segs != [] {
      var e := EdgeOf(pattern[0]);
      forall name | name in bound ensures !LostAt(accepted, at, e, segs, name) {
        NothingIsLost(t, accepted, route, at, e, segs, name);
      }
      if !IsWild(pattern[0]) {
        RestSnoc(SplitPath(route.url), at, e);
        NamesBeforeSnoc(SplitPath(route.url), at, e);
        GoodUrlsKeep(t, accepted, route, at + [e], pattern[1..], wildName, segs[1..],
          bound + if IsParam(pattern[0]) then {NameOf(pattern[0])} else {});
      }
    }
  }

  /** So if no accepted URL repeats a name, every found route's parameters are those its own URL
      binds. */
  lemma MatchBindsItsOwn(attempts: seq<Route>, d: Decoder, ignoreSlash: bool, verb: Method, pathname: string, c: string)
    requires Canonicalize(pathname, ignoreSlash) == Some(c)
    requires forall r :: r in Build(attempts).1 ==> GoodUrl(r.url)
    ensures var (t, accepted) := Build(attempts); var answer := Match(t, d, ignoreSlash, verb, pathname);
      answer.Found? ==>
        var bindings := OwnBindings(SplitPath(answer.route.url), WildNameAt(accepted, PatternOf(answer.route)), SplitPath(c));
        answer.params == BindAll(Decoded(d), map[], bindings) && answer.raw == BindAll(Verbatim(), map[], bindings)
  {
    hide Build, Sound, Match, SplitPath, Canonicalize, OwnBindings, GoodUrl, WildNameAt, PatternOf, KeepsOwn, BindAll, Reached, Blocked, Fits;
    BuildIsSound(attempts);
    MatchIsExact(attempts, d, ignoreSlash, verb, pathname, c);
    MatchBindsItsOwnIff(attempts, d, ignoreSlash, verb, pathname, c);
    var (t, accepted) := Build(attempts);
    var answer := Match(t, d, ignoreSlash, verb, pathname);
    if answer.Found? {
      var url := SplitPath(answer.route.url);
      GoodUrlsKeep(t, accepted, answer.route, [], url, WildNameAt(accepted, PatternOf(answer.route)), SplitPath(c), {});
    }
  }
}
