module RouterMatch {
  // What `match`, `hasPath` and `allowedMethods` answer, in terms of the accepted routes.

  import opened Options
  import opened RouterPaths
  import opened RouterModel
  import opened RouterSearch
  import opened RouterRegistration

  // ---- The static fast path refines the tree ----

  /** A literal pattern in the tree is found first, without decoding anything. */
  lemma {:induction false} LiteralsWin(d: Decoder, tree: Tree, path: Path, segs: seq<string>, verb: Method, params: Params, raw: Params)
    requires WellFormed(tree) && path in tree && IsStatic(segs)
    requires path + EdgesOf(segs) in tree && verb in tree[path + EdgesOf(segs)].routes
    ensures SearchAt(d, tree, path, segs, verb, params, raw) == Hit(path + EdgesOf(segs), params, raw)
    decreases |segs|
  {
    hide WellFormed;
    if segs == [] {
      assert path + [] == path;
    } else {
      var e := Lit(segs[0]);
      assert !IsParam(segs[0]) && !IsWild(segs[0]);
      assert EdgesOf(segs) == [e] + EdgesOf(segs[1..]);
      assert path + EdgesOf(segs) == path + [e] + EdgesOf(segs[1..]);
      PrefixesAreIn(tree, path + EdgesOf(segs), |path| + 1);
      assert (path + EdgesOf(segs))[..|path| + 1] == path + [e];
      LiteralsWin(d, tree, path + [e], segs[1..], verb, params, raw);
    }
  }

  /** In every reachable table, for every method and pathname, the static map answers what the
      tree walk alone would: same route, no parameters, no decode error. */
  lemma StaticMapRefinesTree(attempts: seq<Route>, d: Decoder, ignoreSlash: bool, verb: Method, pathname: string)
    ensures var t, c := Build(attempts).0, Canonicalize(pathname, ignoreSlash);
      Match(t, d, ignoreSlash, verb, pathname) == if c.None? then NotFound else MatchTree(t, d, verb, c.value)
  {
    hide Canonicalize, SplitPath, Holding, Following, WildsNamed, WellFormed, Build, IsStatic;
    BuildIsSound(attempts);
    var t, canonical := Build(attempts).0, Canonicalize(pathname, ignoreSlash);
    if canonical.Some? && canonical.value in t.statics && verb in t.statics[canonical.value] {
      var segs := SplitPath(canonical.value);
      assert [] + EdgesOf(segs) == EdgesOf(segs);
      LiteralsWin(d, t.tree, [], segs, verb, map[], map[]);
    }
  }

  // ---- Match is exact ----

  /** What a route's own URL binds; the wildcard goes by the name it was first registered with. */
  function OwnBindings(pattern: seq<string>, wildName: string, segs: seq<string>): seq<Binding> {
    if pattern == [] || segs == [] then []
    else if IsWild(pattern[0]) then [Binding(wildName, Joined(segs), true)]
    else (if IsParam(pattern[0]) then [Binding(NameOf(pattern[0]), segs[0], false)] else [])
         + OwnBindings(pattern[1..], wildName, segs[1..])
  }

  /** The name of the wildcard at a pattern: the first accepted URL's. */
  function WildNameAt(accepted: seq<Route>, p: Path): string {
    match FirstAt(accepted, p) case Some(r) => WildName(SplitPath(r.url)) case None => ""
  }

  lemma {:induction false} BindingsAreOwn(tree: Tree, path: Path, pattern: seq<string>, segs: seq<string>, wildName: string)
    requires WellFormed(tree) && Follows(tree, path, pattern) && Fits(EdgesOf(pattern), segs)
    requires forall p {:trigger tree[p].wildName} :: p in tree && tree[p].wildName.Some? && p + [Wild] == path + EdgesOf(pattern) ==>
      tree[p].wildName == Some(wildName)
    ensures Bindings(tree, path, EdgesOf(pattern), segs) == OwnBindings(pattern, wildName, segs)
    decreases |pattern|
  {
    hide WellFormed, NodeGrown;
    if pattern != [] {
      if IsWild(pattern[0]) {
        WildIsNamed(tree, path);
        assert [Wild] == EdgesOf(pattern);
      } else {
        var e := EdgeOf(pattern[0]);
        assert EdgesOf(pattern)[1..] == EdgesOf(pattern[1..]);
        assert path + EdgesOf(pattern) == path + [e] + EdgesOf(pattern[1..]);
        BindingsAreOwn(tree, path + [e], pattern[1..], segs[1..], wildName);
      }
    }
  }

  lemma WildIsNamed(tree: Tree, path: Path)
    requires WellFormed(tree) && path in tree && path + [Wild] in tree
    ensures tree[path].wildName.Some?
  {}

  /** Every parameter and wildcard of the URL has a name, as the search needs. */
  predicate Nameable(url: string) { "" !in OwnNames(SplitPath(url)) }

  /** A registered route that fits the request and that the search can get to. */
  ghost predicate Answering(accepted: seq<Route>, r: Route, verb: Method, segs: seq<string>) {
    r in accepted && r.verb == verb && Fits(PatternOf(r), segs) && Nameable(r.url)
  }

  /** No answering route is more specific. */
  ghost predicate MostSpecific(accepted: seq<Route>, route: Route, verb: Method, segs: seq<string>) {
    && Answering(accepted, route, verb, segs)
    && forall other :: Answering(accepted, other, verb, segs) ==> Precedes(PatternOf(route), PatternOf(other))
  }

  /** The decoding fails that the URL asks for at its `n`-th edge: of a named parameter's segment,
      or of the tail of its wildcard, if it carries the verb. */
  predicate Fails(d: Decoder, pattern: seq<string>, n: nat, segs: seq<string>, carries: bool)
    decreases n
  {
    n > 0 && pattern != [] && segs != [] &&
    if IsWild(pattern[0]) then n == 1 && carries && d.decode(Joined(segs)).None?
    else if IsParam(pattern[0]) then
      NameOf(pattern[0]) != "" && if n == 1 then DecodeParam(d, segs[0]).None? else Fails(d, pattern[1..], n - 1, segs[1..], carries)
    else pattern[0] == segs[0] && Fails(d, pattern[1..], n - 1, segs[1..], carries)
  }

  /** Some registered URL asks for a decoding that fails after the edges `o`. */
  ghost predicate InTheWay(accepted: seq<Route>, d: Decoder, verb: Method, segs: seq<string>, o: Path) {
    exists r :: r in accepted && o <= PatternOf(r) && Fails(d, SplitPath(r.url), |o|, segs, r.verb == verb)
  }

  /** The most specific answering route has no failing decoding before it. */
  ghost predicate Reached(accepted: seq<Route>, d: Decoder, verb: Method, segs: seq<string>) {
    exists r :: MostSpecific(accepted, r, verb, segs) && forall o :: InTheWay(accepted, d, verb, segs, o) ==> !Before(o, PatternOf(r))
  }

  /** A failing decoding comes before every answering route. */
  ghost predicate Blocked(accepted: seq<Route>, d: Decoder, verb: Method, segs: seq<string>) {
    exists o :: InTheWay(accepted, d, verb, segs, o) && forall r :: Answering(accepted, r, verb, segs) ==> Before(o, PatternOf(r))
  }

  /** What `match` answers, in terms of the accepted routes. */
  ghost predicate ExactAnswer(accepted: seq<Route>, d: Decoder, verb: Method, segs: seq<string>, answer: MatchResult) {
    && (answer.Found? <==> Reached(accepted, d, verb, segs))
    && (answer.Found? ==> MostSpecific(accepted, answer.route, verb, segs))
    && (answer.BadRequest? <==> Blocked(accepted, d, verb, segs))
  }

  // ---- Patterns of the tree are URLs of routes ----

  lemma {:induction false} WildNameIsReal(segs: seq<string>)
    requires Wild in EdgesOf(segs)
    ensures WildName(segs) != ""
    decreases |segs|
  {
    if segs != [] && !IsWild(segs[0]) {
      assert EdgesOf(segs) == [EdgeOf(segs[0])] + EdgesOf(segs[1..]);
      WildNameIsReal(segs[1..]);
    }
  }

  lemma WildsHaveNames(t: Table, accepted: seq<Route>, path: Path)
    requires Sound(t, accepted) && path in t.tree && path + [Wild] in t.tree
    ensures HasName(t.tree[path].wildName)
  {
    hide Holding, Following, StaticsAgree, Grounded, SplitPath, WildName, FirstAt;
    assert t.tree[path].wildName.Some?;
    var first := FirstAt(accepted, path + [Wild]);
    FirstAtIsAccepted(accepted, path + [Wild]);
    assert (path + [Wild])[|path|] == Wild;
    WildNameIsReal(SplitPath(first.value.url));
  }

  lemma {:induction false} NamedIsNameable(t: Table, accepted: seq<Route>, path: Path, pattern: seq<string>)
    requires Sound(t, accepted) && Follows(t.tree, path, pattern)
    ensures NamedAlong(t.tree, path, EdgesOf(pattern)) <==> "" !in OwnNames(pattern)
    decreases |pattern|
  {
    if pattern != [] {
      if IsWild(pattern[0]) {
        WildsHaveNames(t, accepted, path);
        assert EdgesOf(pattern)[1..] == [] && NamedAlong(t.tree, path + [Wild], []);
        assert OwnNames(pattern) == [NameOf(pattern[0])];
      } else {
        assert EdgesOf(pattern)[1..] == EdgesOf(pattern[1..]);
        NamedIsNameable(t, accepted, path + [EdgeOf(pattern[0])], pattern[1..]);
        hide Sound;
      }
    }
  }

  lemma OpenIsAnswering(t: Table, accepted: seq<Route>, p: Path, segs: seq<string>, verb: Method)
    requires Sound(t, accepted) && Open(t.tree, [], p, segs, verb)
    ensures p in t.tree && verb in t.tree[p].routes
    ensures var r := t.tree[p].routes[verb]; Answering(accepted, r, verb, segs) && PatternOf(r) == p
  {
    hide WellFormed, WildsNamed, StaticsAgree, Grounded, SplitPath, Fits, EdgesOf, Follows, NamedAlong, OwnNames;
    assert [] + p == p;
    var r := t.tree[p].routes[verb];
    NamedIsNameable(t, accepted, [], SplitPath(r.url));
  }

  lemma AnsweringIsOpen(t: Table, accepted: seq<Route>, r: Route, segs: seq<string>, verb: Method)
    requires Sound(t, accepted) && Answering(accepted, r, verb, segs)
    ensures Open(t.tree, [], PatternOf(r), segs, verb)
  {
    hide WellFormed, WildsNamed, StaticsAgree, Grounded, SplitPath, Fits, EdgesOf, Follows, NamedAlong, OwnNames;
    assert [] + PatternOf(r) == PatternOf(r);
    assert Stored(t.tree, r);
    NamedIsNameable(t, accepted, [], SplitPath(r.url));
  }

  lemma BestIsMostSpecific(t: Table, accepted: seq<Route>, p: Path, segs: seq<string>, verb: Method)
    requires Sound(t, accepted) && Best(t.tree, [], p, segs, verb)
    ensures p in t.tree && verb in t.tree[p].routes && MostSpecific(accepted, t.tree[p].routes[verb], verb, segs)
    ensures PatternOf(t.tree[p].routes[verb]) == p
  {
    hide Sound, PatternOf, Open, Answering;
    OpenIsAnswering(t, accepted, p, segs, verb);
    forall other | Answering(accepted, other, verb, segs) ensures Precedes(p, PatternOf(other)) {
      AnsweringIsOpen(t, accepted, other, segs, verb);
    }
  }

  lemma MostSpecificIsBest(t: Table, accepted: seq<Route>, r: Route, segs: seq<string>, verb: Method)
    requires Sound(t, accepted) && MostSpecific(accepted, r, verb, segs)
    ensures Best(t.tree, [], PatternOf(r), segs, verb)
  {
    hide Sound, PatternOf, Open, Answering;
    AnsweringIsOpen(t, accepted, r, segs, verb);
    forall q | Open(t.tree, [], q, segs, verb) ensures Precedes(PatternOf(r), q) {
      OpenIsAnswering(t, accepted, q, segs, verb);
    }
  }

  /** An obstacle along a route is a failing decoding of its URL. */
  lemma {:induction false} ObstacleFails(d: Decoder, tree: Tree, path: Path, pattern: seq<string>, o: Path, segs: seq<string>, verb: Method, carries: bool)
    requires Follows(tree, path, pattern) && o <= EdgesOf(pattern)
    requires o != [] && o[|o| - 1] == Wild && path + o in tree && verb in tree[path + o].routes ==> carries
    ensures Obstacle(d, tree, path, o, segs, verb) ==> Fails(d, pattern, |o|, segs, carries)
    decreases |pattern|
  {
    if o == [] || segs == [] {
    } else if IsWild(pattern[0]) {
      assert o == [Wild];
    } else {
      var e := EdgeOf(pattern[0]);
      assert EdgesOf(pattern)[1..] == EdgesOf(pattern[1..]);
      assert o == [e] + o[1..] && path + o == path + [e] + o[1..];
      ObstacleFails(d, tree, path + [e], pattern[1..], o[1..], segs[1..], verb, carries);
    }
  }

  ghost predicate WildsReal(tree: Tree) {
    forall p {:trigger tree[p].wildName} :: p in tree && p + [Wild] in tree ==> HasName(tree[p].wildName)
  }

  lemma SoundWilds(t: Table, accepted: seq<Route>)
    requires Sound(t, accepted)
    ensures WildsReal(t.tree)
  {
    hide Sound;
    forall p | p in t.tree && p + [Wild] in t.tree ensures HasName(t.tree[p].wildName) { WildsHaveNames(t, accepted, p); }
  }

  lemma {:induction false} FailsIsObstacle(d: Decoder, tree: Tree, path: Path, pattern: seq<string>, o: Path,
                                           segs: seq<string>, verb: Method, carries: bool)
    requires WellFormed(tree) && WildsReal(tree) && Follows(tree, path, pattern) && o <= EdgesOf(pattern)
    requires path + EdgesOf(pattern) in tree && (carries ==> verb in tree[path + EdgesOf(pattern)].routes)
    requires Fails(d, pattern, |o|, segs, carries)
    ensures Obstacle(d, tree, path, o, segs, verb)
    decreases |pattern|
  {
    PrefixInTree(tree, path, EdgesOf(pattern));
    if IsWild(pattern[0]) {
      assert path + EdgesOf(pattern) == path + [Wild] && o == [Wild];
      assert HasName(tree[path].wildName);
    } else {
      hide WellFormed, WildsReal;
      var e := EdgeOf(pattern[0]);
      assert EdgesOf(pattern)[1..] == EdgesOf(pattern[1..]);
      assert o == [e] + o[1..] && path + EdgesOf(pattern) == path + [e] + EdgesOf(pattern[1..]);
      if |o| > 1 {
        FailsIsObstacle(d, tree, path + [e], pattern[1..], o[1..], segs[1..], verb, carries);
      }
    }
  }

  lemma {:induction false} ObstacleIsIn(d: Decoder, tree: Tree, path: Path, o: Path, segs: seq<string>, verb: Method)
    requires Obstacle(d, tree, path, o, segs, verb)
    ensures path + o in tree && o != [] && (o[|o| - 1] == Wild ==> verb in tree[path + o].routes)
    decreases |o|
  {
    if |o| == 1 {
      assert o == [o[0]];
    } else {
      assert o == [o[0]] + o[1..] && path + o == path + [o[0]] + o[1..];
      ObstacleIsIn(d, tree, path + [o[0]], o[1..], segs[1..], verb);
    }
  }

  lemma ObstacleIsInTheWay(t: Table, accepted: seq<Route>, d: Decoder, verb: Method, segs: seq<string>, o: Path)
    requires Sound(t, accepted) && Obstacle(d, t.tree, [], o, segs, verb)
    ensures InTheWay(accepted, d, verb, segs, o)
  {
    hide WellFormed, WildsNamed, StaticsAgree, SplitPath, EdgesOf, Follows, Obstacle, Fails;
    assert [] + o == o;
    ObstacleIsIn(d, t.tree, [], o, segs, verb);
    var any :| any in accepted && o <= PatternOf(any);
    var r := if o[|o| - 1] == Wild then t.tree[o].routes[verb] else any;
    assert r in accepted && Follows(t.tree, [], SplitPath(r.url));
    ObstacleFails(d, t.tree, [], SplitPath(r.url), o, segs, verb, r.verb == verb);
  }

  lemma InTheWayIsObstacle(t: Table, accepted: seq<Route>, d: Decoder, verb: Method, segs: seq<string>, o: Path)
    requires Sound(t, accepted) && InTheWay(accepted, d, verb, segs, o)
    ensures Obstacle(d, t.tree, [], o, segs, verb)
  {
    hide WellFormed, WildsNamed, StaticsAgree, Grounded, SplitPath, EdgesOf, Follows, Obstacle, Fails, WildsReal;
    SoundWilds(t, accepted);
    var r :| r in accepted && o <= PatternOf(r) && Fails(d, SplitPath(r.url), |o|, segs, r.verb == verb);
    assert Stored(t.tree, r) && [] + PatternOf(r) == PatternOf(r);
    FailsIsObstacle(d, t.tree, [], SplitPath(r.url), o, segs, verb, r.verb == verb);
  }

  // ---- The router's promise ----

  lemma TreeMatchIsExact(t: Table, accepted: seq<Route>, d: Decoder, verb: Method, c: string)
    requires Sound(t, accepted)
    ensures [] in t.tree
    ensures ExactAnswer(accepted, d, verb, SplitPath(c), MatchTree(t, d, verb, c))
  {
    hide SplitPath, Sound, WellFormed, Obstacle, Before, Best, Open, SearchAt, ExactAnswer, MatchTree;
    var segs := SplitPath(c);
    SoundIsWellFormed(t, accepted);
    RootIsIn(t.tree);
    HitIff(d, t.tree, [], segs, verb, map[], map[]);
    HitIsFound(t, accepted, d, verb, c);
    MalformedIsBadRequest(t, accepted, d, verb, segs);
    hide *;
    AnswerOf(t, accepted, d, verb, c);
  }

  /** The search's outcome and the answer. */
  lemma AnswerOf(t: Table, accepted: seq<Route>, d: Decoder, verb: Method, c: string)
    requires [] in t.tree
    requires var segs := SplitPath(c); var r := SearchAt(d, t.tree, [], segs, verb, map[], map[]);
      && (r.Hit? <==> Reached(accepted, d, verb, segs))
      && (r.Hit? ==> r.at in t.tree && verb in t.tree[r.at].routes && MostSpecific(accepted, t.tree[r.at].routes[verb], verb, segs))
      && (r.Malformed? <==> Blocked(accepted, d, verb, segs))
    ensures ExactAnswer(accepted, d, verb, SplitPath(c), MatchTree(t, d, verb, c))
  {
    hide SearchAt, Reached, Blocked, MostSpecific;
  }

  lemma HitIsFound(t: Table, accepted: seq<Route>, d: Decoder, verb: Method, c: string)
    requires Sound(t, accepted) && [] in t.tree && WellFormed(t.tree)
    ensures var segs := SplitPath(c); var r := SearchAt(d, t.tree, [], segs, verb, map[], map[]);
      && (r.Hit? <==> Reached(accepted, d, verb, segs))
      && (r.Hit? ==> r.at in t.tree && verb in t.tree[r.at].routes && MostSpecific(accepted, t.tree[r.at].routes[verb], verb, segs))
  {
    hide SplitPath, Sound, WellFormed, Obstacle, Before, Best, Open, SearchAt, MostSpecific, InTheWay, PatternOf;
    var segs := SplitPath(c);
    var r := SearchAt(d, t.tree, [], segs, verb, map[], map[]);
    HitIff(d, t.tree, [], segs, verb, map[], map[]);
    if r.Hit? {
      var p := HitIsBest(d, t.tree, [], segs, verb, map[], map[]);
      assert [] + p == p;
      BestIsMostSpecific(t, accepted, p, segs, verb);
      forall o | InTheWay(accepted, d, verb, segs, o) ensures !Before(o, p) { InTheWayIsObstacle(t, accepted, d, verb, segs, o); }
    }
    if Reached(accepted, d, verb, segs) {
      var route :| MostSpecific(accepted, route, verb, segs)
        && forall o :: InTheWay(accepted, d, verb, segs, o) ==> !Before(o, PatternOf(route));
      MostSpecificIsBest(t, accepted, route, segs, verb);
      forall o | Obstacle(d, t.tree, [], o, segs, verb) ensures !Before(o, PatternOf(route)) {
        ObstacleIsInTheWay(t, accepted, d, verb, segs, o);
      }
    }
  }

  lemma MalformedIsBadRequest(t: Table, accepted: seq<Route>, d: Decoder, verb: Method, segs: seq<string>)
    requires Sound(t, accepted) && [] in t.tree && WellFormed(t.tree)
    ensures SearchAt(d, t.tree, [], segs, verb, map[], map[]).Malformed? <==> Blocked(accepted, d, verb, segs)
  {
    hide SplitPath, Sound, WellFormed, Obstacle, Before, Best, Open, SearchAt, Answering, InTheWay, PatternOf;
    HitIff(d, t.tree, [], segs, verb, map[], map[]);
    if o :| Obstacle(d, t.tree, [], o, segs, verb) && forall q :: Open(t.tree, [], q, segs, verb) ==> Before(o, q) {
      ObstacleIsInTheWay(t, accepted, d, verb, segs, o);
      forall r | Answering(accepted, r, verb, segs) ensures Before(o, PatternOf(r)) { AnsweringIsOpen(t, accepted, r, segs, verb); }
    }
    if o :| InTheWay(accepted, d, verb, segs, o) && forall r :: Answering(accepted, r, verb, segs) ==> Before(o, PatternOf(r)) {
      InTheWayIsObstacle(t, accepted, d, verb, segs, o);
      forall q | Open(t.tree, [], q, segs, verb) ensures Before(o, q) { OpenIsAnswering(t, accepted, q, segs, verb); }
    }
  }

  /** The router's promise, for every run of registrations, whatever their names, and every request
      whether it decodes or not. */
  lemma MatchIsExact(attempts: seq<Route>, d: Decoder, ignoreSlash: bool, verb: Method, pathname: string, c: string)
    requires Canonicalize(pathname, ignoreSlash) == Some(c)
    ensures var (t, accepted) := Build(attempts);
      ExactAnswer(accepted, d, verb, SplitPath(c), Match(t, d, ignoreSlash, verb, pathname))
  {
    hide Build, Sound, Match, MatchTree, SplitPath, ExactAnswer, Canonicalize;
    BuildIsSound(attempts);
    StaticMapRefinesTree(attempts, d, ignoreSlash, verb, pathname);
    TreeMatchIsExact(Build(attempts).0, Build(attempts).1, d, verb, c);
  }

  lemma DecodesHasNothingInTheWay(t: Table, accepted: seq<Route>, d: Decoder, verb: Method, segs: seq<string>)
    requires Sound(t, accepted) && Decodes(d, segs)
    ensures forall o :: !InTheWay(accepted, d, verb, segs, o)
  {
    hide Sound, InTheWay, Obstacle, Decodes;
    forall o ensures !InTheWay(accepted, d, verb, segs, o) {
      DecodesIsClear(d, t.tree, [], o, segs, verb);
      if InTheWay(accepted, d, verb, segs, o) { InTheWayIsObstacle(t, accepted, d, verb, segs, o); }
    }
  }

  /** When everything decodes, a route is found exactly when a registered one fits whose names are
      not empty, whatever else is registered; and it is the most specific such route. */
  lemma DecodedMatchIff(attempts: seq<Route>, d: Decoder, ignoreSlash: bool, verb: Method, pathname: string, c: string)
    requires Canonicalize(pathname, ignoreSlash) == Some(c) && Decodes(d, SplitPath(c))
    ensures var (t, accepted) := Build(attempts); var answer := Match(t, d, ignoreSlash, verb, pathname);
      && (answer.Found? <==> exists r :: Answering(accepted, r, verb, SplitPath(c)))
      && (answer.Found? ==> MostSpecific(accepted, answer.route, verb, SplitPath(c)))
      && !answer.BadRequest?
  {
    hide Build, Sound, Match, MatchTree, SplitPath, Canonicalize, Answering, InTheWay, Decodes, SearchAt, WellFormed, Open;
    BuildIsSound(attempts);
    var (t, accepted) := Build(attempts);
    var segs := SplitPath(c);
    MatchIsExact(attempts, d, ignoreSlash, verb, pathname, c);
    DecodesHasNothingInTheWay(t, accepted, d, verb, segs);
    StaticMapRefinesTree(attempts, d, ignoreSlash, verb, pathname);
    if r :| Answering(accepted, r, verb, segs) { AnsweringIsFound(t, accepted, r, d, verb, c); }
  }

  lemma AnsweringIsFound(t: Table, accepted: seq<Route>, r: Route, d: Decoder, verb: Method, c: string)
    requires Sound(t, accepted) && Answering(accepted, r, verb, SplitPath(c)) && Decodes(d, SplitPath(c))
    ensures [] in t.tree && MatchTree(t, d, verb, c).Found?
  {
    hide Sound, SplitPath, Answering, Open, Decodes, SearchAt, WellFormed, Best;
    SoundIsWellFormed(t, accepted);
    RootIsIn(t.tree);
    AnsweringIsOpen(t, accepted, r, SplitPath(c), verb);
    DecodedHitIff(d, t.tree, [], SplitPath(c), verb, map[], map[]);
    var p := HitIsBest(d, t.tree, [], SplitPath(c), verb, map[], map[]);
    assert [] + p == p;
    BestIsMostSpecific(t, accepted, p, SplitPath(c), verb);
  }

  lemma FoundBindsItsOwn(t: Table, accepted: seq<Route>, route: Route, verb: Method, segs: seq<string>)
    requires Sound(t, accepted) && MostSpecific(accepted, route, verb, segs)
    ensures Bindings(t.tree, [], PatternOf(route), segs)
      == OwnBindings(SplitPath(route.url), WildNameAt(accepted, PatternOf(route)), segs)
  {
    hide SplitPath, WellFormed, Holding, Follows, Fits, Bindings, OwnBindings, StaticsAgree, FirstAt, Grounded;
    var pattern, wildName := SplitPath(route.url), WildNameAt(accepted, PatternOf(route));
    assert [] + EdgesOf(pattern) == PatternOf(route);
    assert Follows(t.tree, [], pattern);
    BindingsAreOwn(t.tree, [], pattern, segs, wildName);
  }

  // ---- 405 data ----

  lemma CandidatesAreAccepted(tree: Tree, accepted: seq<Route>, p: Path, segs: seq<string>, verb: Method)
    requires Holding(tree, accepted)
    ensures Candidate(tree, [], p, segs, verb) ==>
      p in tree && verb in tree[p].routes && tree[p].routes[verb] in accepted && tree[p].routes[verb].verb == verb && PatternOf(tree[p].routes[verb]) == p
  {
    assert [] + p == p;
  }

  lemma AcceptedAreCandidates(tree: Tree, accepted: seq<Route>, r: Route, segs: seq<string>)
    requires Holding(tree, accepted) && r in accepted && Fits(PatternOf(r), segs)
    ensures Candidate(tree, [], PatternOf(r), segs, r.verb)
  {
    assert [] + PatternOf(r) == PatternOf(r);
    assert Stored(tree, r);
  }

  /** A pattern without a wildcard fits and carries the verb. */
  predicate ExactCandidate(tree: Tree, path: Path, p: Path, segs: seq<string>, verb: Method) {
    Candidate(tree, path, p, segs, verb) && Wild !in p
  }

  lemma ExactBelow(tree: Tree, path: Path, e: Edge, p: Path, segs: seq<string>, verb: Method)
    requires segs != [] && (e == Lit(segs[0]) || e == Param)
    ensures ExactCandidate(tree, path, [e] + p, segs, verb) <==> ExactCandidate(tree, path + [e], p, segs[1..], verb)
  {
    CandidateBelow(tree, path, e, p, segs, verb);
  }

  lemma ExactFirstEdge(tree: Tree, path: Path, p: Path, segs: seq<string>, verb: Method)
    requires WellFormed(tree) && ExactCandidate(tree, path, p, segs, verb) && segs != []
    ensures p != [] && (p[0] == Lit(segs[0]) || p[0] == Param) && path + [p[0]] in tree
    ensures ExactCandidate(tree, path + [p[0]], p[1..], segs[1..], verb)
  {
    assert p != [] && p[0] in p;
    PrefixInTree(tree, path, p);
    assert p == [p[0]] + p[1..];
    ExactBelow(tree, path, p[0], p[1..], segs, verb);
  }

  /** `_collectMethods` gathers the verbs of the fitting wildcard-free patterns, all of them. */
  lemma {:induction false} MethodsAreExact(tree: Tree, path: Path, segs: seq<string>, verb: Method)
    requires WellFormed(tree) && path in tree
    ensures verb in MethodsAt(tree, path, segs) <==> exists p :: ExactCandidate(tree, path, p, segs, verb)
    decreases |segs|
  {
    hide WellFormed, Candidate;
    if segs == [] {
      assert path + [] == path;
      EmptyFits(tree, path, verb);
    } else {
      forall e | (e == Lit(segs[0]) || e == Param) && path + [e] in tree
        ensures verb in MethodsAt(tree, path + [e], segs[1..]) ==> exists p :: ExactCandidate(tree, path, p, segs, verb)
      {
        MethodsAreExact(tree, path + [e], segs[1..], verb);
        if verb in MethodsAt(tree, path + [e], segs[1..]) {
          var p :| ExactCandidate(tree, path + [e], p, segs[1..], verb);
          ExactBelow(tree, path, e, p, segs, verb);
        }
      }
      if p :| ExactCandidate(tree, path, p, segs, verb) {
        ExactFirstEdge(tree, path, p, segs, verb);
        MethodsAreExact(tree, path + [p[0]], segs[1..], verb);
      }
    }
  }

  lemma EmptyFits(tree: Tree, path: Path, verb: Method)
    requires path in tree
    ensures verb in tree[path].routes <==> exists p :: ExactCandidate(tree, path, p, [], verb)
  {
    assert path + [] == path;
    if verb in tree[path].routes { assert ExactCandidate(tree, path, [], [], verb); }
    if p :| ExactCandidate(tree, path, p, [], verb) { assert p == []; }
  }

  /** The two walks agree, node by node. */
  lemma {:induction false} WalksAgree(tree: Tree, path: Path, segs: seq<string>)
    requires path in tree
    ensures HasPathAt(tree, path, segs) <==> MethodsAt(tree, path, segs) != {}
    decreases |segs|
  {
    if segs == [] {
      assert tree[path].routes != map[] <==> tree[path].routes.Keys != {};
    } else {
      if path + [Lit(segs[0])] in tree { WalksAgree(tree, path + [Lit(segs[0])], segs[1..]); }
      if path + [Param] in tree { WalksAgree(tree, path + [Param], segs[1..]); }
    }
  }

  lemma {:induction false} InOrderHolds(order: seq<Method>, found: set<Method>, m: Method)
    ensures m in InOrder(order, found) <==> m in order && m in found
  {
    if order != [] { InOrderHolds(order[1..], found, m); }
  }

  lemma AllMethodsListed(m: Method)
    ensures m in METHOD_ORDER
  {
    assert METHOD_ORDER == [GET, HEAD, POST, PUT, PATCH, DELETE, OPTIONS];
    assert METHOD_ORDER[0] == GET && METHOD_ORDER[1] == HEAD && METHOD_ORDER[2] == POST && METHOD_ORDER[3] == PUT;
    assert METHOD_ORDER[4] == PATCH && METHOD_ORDER[5] == DELETE && METHOD_ORDER[6] == OPTIONS;
  }

  /** A registered, wildcard-free route that fits. */
  ghost predicate Answers(accepted: seq<Route>, r: Route, segs: seq<string>) {
    r in accepted && Wild !in PatternOf(r) && Fits(PatternOf(r), segs)
  }

  lemma MethodsAreRegistered(tree: Tree, accepted: seq<Route>, segs: seq<string>, verb: Method)
    requires WellFormed(tree) && Holding(tree, accepted)
    ensures [] in tree
    ensures verb in MethodsAt(tree, [], segs) <==> exists r :: Answers(accepted, r, segs) && r.verb == verb
  {
    hide WellFormed, Holding, PatternOf, Fits;
    RootIsIn(tree);
    MethodsAreExact(tree, [], segs, verb);
    if p :| ExactCandidate(tree, [], p, segs, verb) {
      CandidatesAreAccepted(tree, accepted, p, segs, verb);
      assert [] + p == p;
      assert Answers(accepted, tree[p].routes[verb], segs);
    }
    if r :| Answers(accepted, r, segs) && r.verb == verb {
      AcceptedAreCandidates(tree, accepted, r, segs);
      assert ExactCandidate(tree, [], PatternOf(r), segs, verb);
    }
  }

  lemma {:induction false} StaticsAreInTree(tree: Tree, path: Path, segs: seq<string>)
    requires WellFormed(tree) && path in tree && IsStatic(segs) && path + EdgesOf(segs) in tree
    ensures tree[path + EdgesOf(segs)].routes.Keys <= MethodsAt(tree, path, segs)
    decreases |segs|
  {
    hide WellFormed;
    if segs == [] {
      assert path + [] == path;
    } else {
      var e := Lit(segs[0]);
      assert !IsParam(segs[0]) && !IsWild(segs[0]);
      assert path + EdgesOf(segs) == path + [e] + EdgesOf(segs[1..]);
      PrefixesAreIn(tree, path + EdgesOf(segs), |path| + 1);
      assert (path + EdgesOf(segs))[..|path| + 1] == path + [e];
      StaticsAreInTree(tree, path + [e], segs[1..]);
    }
  }

  lemma StaticMapAddsNothing(t: Table, accepted: seq<Route>, c: string)
    requires Sound(t, accepted) && c in t.statics
    ensures t.statics[c] != map[] && [] in t.tree && t.statics[c].Keys <= MethodsAt(t.tree, [], SplitPath(c))
  {
    hide SplitPath, WellFormed, Holding, WildsNamed, Following, MethodsAt;
    RootIsIn(t.tree);
    var segs := SplitPath(c);
    assert [] + EdgesOf(segs) == EdgesOf(segs);
    var m :| m in t.statics[c];
    StaticsAreInTree(t.tree, [], segs);
  }

  /** `hasPath`, `allowedMethods` and the registered routes agree: a method is allowed exactly
      when a fitting wildcard-free route carries it (GET standing in for HEAD), and there is
      a 405 to answer exactly when some method is allowed. */
  lemma AllowedIsExact(attempts: seq<Route>, ignoreSlash: bool, pathname: string, c: string)
    requires Canonicalize(pathname, ignoreSlash) == Some(c)
    ensures var (t, accepted) := Build(attempts); var segs := SplitPath(c);
      && (HasPath(t, ignoreSlash, pathname) <==> AllowedMethods(t, ignoreSlash, pathname) != [])
      && (HasPath(t, ignoreSlash, pathname) <==> exists r :: Answers(accepted, r, segs))
      && forall m :: m in AllowedMethods(t, ignoreSlash, pathname) <==>
           exists r :: Answers(accepted, r, segs) && (r.verb == m || (m == HEAD && r.verb == GET))
  {
    hide Canonicalize, SplitPath, WellFormed, Holding, WildsNamed, Following, StaticsAgree, MethodsAt, HasPathAt, InOrder, Build, Answers, METHOD_ORDER;
    var (t, accepted) := Build(attempts);
    var segs := SplitPath(c);
    BuildIsSound(attempts);
    var listed := MethodsAt(t.tree, [], segs);
    WalksAgree(t.tree, [], segs);
    var found := (if c in t.statics then t.statics[c].Keys else {}) + listed;
    if c in t.statics {
      StaticMapAddsNothing(t, accepted, c);
      assert t.statics[c].Keys != {};
    }
    assert found == listed;
    var all := if GET in found then found + {HEAD} else found;
    forall m ensures m in InOrder(METHOD_ORDER, all) <==> m in all {
      InOrderHolds(METHOD_ORDER, all, m);
      AllMethodsListed(m);
    }
    forall m ensures m in listed <==> exists r :: Answers(accepted, r, segs) && r.verb == m {
      MethodsAreRegistered(t.tree, accepted, segs, m);
    }
    forall r | Answers(accepted, r, segs) ensures r.verb in listed {}
    if listed != {} {
      var m :| m in listed;
      assert m in InOrder(METHOD_ORDER, all);
    }
    if InOrder(METHOD_ORDER, all) != [] { assert InOrder(METHOD_ORDER, all)[0] in all; }
  }

  /** A method is matched by `match`, HEAD through GET. */
  predicate Matchable(t: Table, d: Decoder, ignoreSlash: bool, pathname: string, m: Method)
    requires [] in t.tree
  {
    Match(t, d, ignoreSlash, m, pathname).Found? || (m == HEAD && Match(t, d, ignoreSlash, GET, pathname).Found?)
  }

  /** A method is matchable exactly when some route that carries it, or GET for HEAD, fits and has
      no empty name. So a listed method that is not matchable is one all of whose fitting routes
      have an empty name. */
  lemma MatchableIff(attempts: seq<Route>, d: Decoder, ignoreSlash: bool, pathname: string, c: string, m: Method)
    requires Canonicalize(pathname, ignoreSlash) == Some(c) && Decodes(d, SplitPath(c))
    ensures var (t, accepted) := Build(attempts); var segs := SplitPath(c);
      Matchable(t, d, ignoreSlash, pathname, m) <==>
        exists r :: Answering(accepted, r, m, segs) || (m == HEAD && Answering(accepted, r, GET, segs))
  {
    hide Canonicalize, SplitPath, Build, Match, Decodes, Answering;
    DecodedMatchIff(attempts, d, ignoreSlash, m, pathname, c);
    DecodedMatchIff(attempts, d, ignoreSlash, GET, pathname, c);
  }

  /** `Allow` lists a method that `match` will not serve exactly when a wildcard-free route fits
      that carries it, and every fitting route that carries it has an empty name. */
  lemma ListedAndUnmatchedIff(attempts: seq<Route>, d: Decoder, ignoreSlash: bool, pathname: string, c: string, m: Method)
    requires Canonicalize(pathname, ignoreSlash) == Some(c) && Decodes(d, SplitPath(c))
    ensures var (t, accepted) := Build(attempts); var segs := SplitPath(c);
      m in AllowedMethods(t, ignoreSlash, pathname) && !Matchable(t, d, ignoreSlash, pathname, m) <==>
        && (exists r :: Answers(accepted, r, segs) && (r.verb == m || (m == HEAD && r.verb == GET)))
        && forall r :: r in accepted && (r.verb == m || (m == HEAD && r.verb == GET)) && Fits(PatternOf(r), segs) ==> !Nameable(r.url)
  {
    hide Canonicalize, SplitPath, Build, Match, AllowedMethods, Decodes, PatternOf, Fits, Nameable, HasPath, Matchable;
    AllowedIsExact(attempts, ignoreSlash, pathname, c);
    MatchableIff(attempts, d, ignoreSlash, pathname, c, m);
    var (t, accepted) := Build(attempts);
    var segs := SplitPath(c);
    forall r | r in accepted && (r.verb == m || (m == HEAD && r.verb == GET)) && Fits(PatternOf(r), segs) && Nameable(r.url)
      ensures Matchable(t, d, ignoreSlash, pathname, m)
    {
      assert Answering(accepted, r, m, segs) || (m == HEAD && Answering(accepted, r, GET, segs));
    }
  }

  lemma SplitOne(c: char)
    requires c != '/'
    ensures Split(['/', c]) == ["", [c]] && SplitPath(['/', c]) == [[c]]
  {
    var one: string, two: string := [c], ['/', c];
    assert one[1..] == "" && two[1..] == one;
    var r := Split(one[1..]);
    assert r == [""] && |r[1..]| == 0 && [one[0]] + r[0] == one;
    assert Split(one) == [one];
    var last, none: seq<string> := [one], [];
    assert ["", one][1..] == last && last[1..] == none;
    assert NonEmpty(none) == [] && NonEmpty(last) == [one] && NonEmpty(["", one]) == [one];
  }

  /** Without a name the walks part: `/:` is listed by `hasPath` and never matched. */
  lemma NamelessParamIsUnmatchable(d: Decoder)
    ensures var t := Build([Route(GET, "/:", "h")]).0;
      HasPath(t, true, "/x") && Match(t, d, true, GET, "/x") == NotFound
  {
    hide Split, SplitPath;
    var route, child := Route(GET, "/:", "h"), [] + [Param];
    SplitOne(':');
    SplitOne('x');
    assert "/:" == ['/', ':'] && "/x" == ['/', 'x'] && ":" == [':'] && "x" == ['x'];
    assert |["x"][1..]| == 0 && |[":"][1..]| == 0 && ":"[1..] == "";
    var grown := Grow(EMPTY_TABLE.tree, [], ":");
    assert Walk(grown, child, []) == (grown, Some(child));
    var t := Build([route]).0;
    var none: seq<Route> := [];
    assert [route][..|[route]| - 1] == none && Build(none).0 == EMPTY_TABLE;
    assert IsParam(":") && !IsStatic([":"]);
    assert AddRoute(EMPTY_TABLE, route) == (Table(Put(grown, child, route), map[]), Added);
    assert t == AddRoute(EMPTY_TABLE, route).0;
    assert t.tree == Put(grown, child, route) && t.statics == map[];
    assert HasPathAt(t.tree, child, []) by { assert GET in t.tree[child].routes; }
    assert t.tree.Keys == {[], child};
    assert ([] + [Lit("x")])[0] == Lit("x") && ([] + [Wild])[0] == Wild && child[0] == Param;
    assert [] + [Lit("x")] !in t.tree && [] + [Wild] !in t.tree && t.tree[[]].paramName == Some("");
    assert SearchAt(d, t.tree, [], ["x"], GET, map[], map[]).Miss?;
  }

  // ---- Why names must be distinct for the bindings ----

  lemma {:induction false} SplitUndoesSlashed(segs: seq<string>)
    requires segs != [] && forall i :: 0 <= i < |segs| ==> segs[i] != "" && '/' !in segs[i]
    ensures Split(Slashed(segs)) == [""] + segs && NonEmpty(segs) == segs && SplitPath(Slashed(segs)) == segs
    decreases |segs|
  {
    var rest := segs[1..];
    assert Slashed(segs) == "/" + (segs[0] + Slashed(rest));
    assert ("/" + (segs[0] + Slashed(rest)))[1..] == segs[0] + Slashed(rest);
    if rest == [] {
      assert segs == [segs[0]] && Slashed(rest) == "" && NonEmpty(rest) == [];
      SplitSegment(segs[0], "", []);
    } else {
      SplitUndoesSlashed(rest);
      SplitSegment(segs[0], Slashed(rest), rest);
    }
    assert [segs[0]] + rest == segs;
    assert ([""] + segs)[1..] == segs;
  }

  /** A segment in front of text that is empty or starts with a slash is a part of its own. */
  lemma {:induction false} SplitSegment(seg: string, rest: string, parts: seq<string>)
    requires '/' !in seg && Split(rest) == [""] + parts
    ensures Split(seg + rest) == [seg] + parts
    decreases |seg|
  {
    if seg == "" {
      assert seg + rest == rest;
    } else {
      assert (seg + rest)[1..] == seg[1..] + rest;
      SplitSegment(seg[1..], rest, parts);
      assert ([seg[1..]] + parts)[1..] == parts && [seg[0]] + seg[1..] == seg;
    }
  }

  const TWICE := Route(GET, "/:a/:a/x", "twice")
  const REST := Route(GET, "/:a/*", "rest")

  function At(edges: seq<Edge>): Path { edges }

  // The tree after both were registered.
  const REPEATED: Tree := map[
    [] := Node(Some("a"), None, map[]),
    [Param] := Node(Some("a"), Some("*"), map[]),
    [Param, Param] := BLANK,
    [Param, Param, Lit("x")] := Node(None, None, map[GET := TWICE]),
    [Param, Wild] := Node(None, None, map[GET := REST])]

  lemma RepeatedUrls()
    ensures SplitPath(TWICE.url) == [":a", ":a", "x"] && SplitPath(REST.url) == [":a", "*"]
    ensures SplitPath("/1/2/3") == ["1", "2", "3"]
  {
    hide *;
    ThreeSegments(":a", ":a", "x");
    ThreeSegments("1", "2", "3");
    SplitUndoesSlashed([":a", "*"]);
    SlashedTwo(":a", "*");
    UrlTexts();
  }

  lemma UrlTexts()
    ensures "/" + ":a" + "/" + ":a" + "/" + "x" == TWICE.url && "/" + ":a" + "/" + "*" == REST.url
    ensures "/" + "1" + "/" + "2" + "/" + "3" == "/1/2/3"
  {}

  lemma ThreeSegments(a: string, b: string, c: string)
    requires a != "" && b != "" && c != "" && '/' !in a && '/' !in b && '/' !in c
    ensures SplitPath("/" + a + "/" + b + "/" + c) == [a, b, c]
  {
    hide *;
    SplitUndoesSlashed([a, b, c]);
    SlashedThree(a, b, c);
  }

  lemma SlashedTwo(a: string, b: string)
    ensures Slashed([a, b]) == "/" + a + "/" + b
  {
    assert [a, b][1..] == [b] && [b][1..] == [];
    assert Slashed([b]) == "/" + b + "";
  }

  lemma SlashedThree(a: string, b: string, c: string)
    ensures Slashed([a, b, c]) == "/" + a + "/" + b + "/" + c
  {
    assert [a, b, c][1..] == [b, c];
    SlashedTwo(b, c);
  }

  lemma ExtendTwice(p: Path, e: Edge)
    ensures p + [e] != p && |p + [e]| == |p| + 1 && (p + [e])[|p|] == e && (p + [e])[..|p|] == p
  {}

  lemma RepeatedIsBuilt()
    ensures Build([TWICE, REST]) == (Table(REPEATED, map[]), [TWICE, REST])
  {
    BuildOneMore([], TWICE);
    BuildOneMore([TWICE], REST);
    assert [] + [TWICE] == [TWICE] && [TWICE] + [REST] == [TWICE, REST] && Build([]) == (EMPTY_TABLE, []);
    hide *;
    FirstIsBuilt();
    SecondIsBuilt();
  }

  lemma BuildOneMore(before: seq<Route>, route: Route)
    ensures var (t, accepted) := Build(before);
      Build(before + [route]) ==
        (AddRoute(t, route).0, if AddRoute(t, route).1 == Added then accepted + [route] else accepted)
  {
    hide AddRoute;
    assert (before + [route])[..|before + [route]| - 1] == before;
  }

  // The tree after the first was registered.
  const FIRST: Tree := map[
    [] := Node(Some("a"), None, map[]),
    [Param] := Node(Some("a"), None, map[]),
    [Param, Param] := BLANK,
    [Param, Param, Lit("x")] := Node(None, None, map[GET := TWICE])]

  lemma FirstIsBuilt()
    ensures AddRoute(EMPTY_TABLE, TWICE) == (Table(FIRST, map[]), Added)
  {
    hide SplitPath;
    RepeatedUrls();
    var s := [":a", ":a", "x"];
    assert s[1..] == [":a", "x"] && s[1..][1..] == ["x"] && s[1..][1..][1..] == [];
    assert ":a"[1..] == "a";
    var p0, p1, p2, p3 := At([]), At([Param]), At([Param, Param]), At([Param, Param, Lit("x")]);
    assert p0 + [Param] == p1 && p1 + [Param] == p2 && p2 + [Lit("x")] == p3;
    var t0 := EMPTY_TABLE.tree;
    var t1, t2, t3 := Grow(t0, p0, ":a"), Grow(Grow(t0, p0, ":a"), p1, ":a"), Grow(Grow(Grow(t0, p0, ":a"), p1, ":a"), p2, "x");
    assert t1 == map[p0 := Node(Some("a"), None, map[]), p1 := BLANK];
    assert t2 == map[p0 := Node(Some("a"), None, map[]), p1 := Node(Some("a"), None, map[]), p2 := BLANK];
    assert t3 == t2[p3 := BLANK];
    assert Walk(t3, p3, []) == (t3, Some(p3));
    assert Walk(t2, p2, ["x"]) == (t3, Some(p3));
    assert Walk(t1, p1, [":a", "x"]) == (t3, Some(p3));
    assert Walk(t0, p0, s) == (t3, Some(p3));
    assert IsParam(s[0]) && !IsStatic(s);
    assert Put(t3, p3, TWICE) == FIRST;
  }

  lemma SecondIsBuilt()
    ensures AddRoute(Table(FIRST, map[]), REST) == (Table(REPEATED, map[]), Added)
  {
    hide SplitPath;
    RepeatedUrls();
    var s := [":a", "*"];
    assert s[1..] == ["*"] && s[1..][1..] == [] && ":a"[1..] == "a" && "*"[1..] == "";
    var p0, p1, p2 := At([]), At([Param]), At([Param, Wild]);
    assert p0 + [Param] == p1 && p1 + [Wild] == p2;
    var t1 := Grow(FIRST, p1, "*");
    assert Grow(FIRST, p0, ":a") == FIRST;
    assert t1 == FIRST[p1 := Node(Some("a"), Some("*"), map[])][p2 := BLANK];
    assert Walk(FIRST, p1, ["*"]) == (t1, Some(p2));
    assert Walk(FIRST, p0, s) == (t1, Some(p2));
    assert IsParam(s[0]) && !IsStatic(s);
    assert Put(t1, p2, REST) == REPEATED;
  }

  lemma DeadEnd(d: Decoder, v: Params, r: Params)
    ensures At([Param, Param]) in REPEATED && SearchAt(d, REPEATED, At([Param, Param]), ["3"], GET, v, r) == Miss(v, r)
  {
    var p2 := At([Param, Param]);
    ExtendTwice(p2, Lit("3"));
    ExtendTwice(p2, Param);
    ExtendTwice(p2, Wild);
    assert p2 + [Lit("3")] !in REPEATED;
  }

  lemma SecondOverwrites(d: Decoder, one: string)
    requires DecodeParam(d, "2").Some? && d.decode("2/3").Some?
    ensures At([Param]) in REPEATED
    ensures SearchAt(d, REPEATED, At([Param]), ["2", "3"], GET, map["a" := one], map["a" := "1"])
      == Hit(At([Param, Wild]), map["*" := d.decode("2/3").value], map["*" := "2/3"])
  {
    var p1, p2, two := At([Param]), At([Param, Param]), DecodeParam(d, "2").value;
    var v1: Params, r1: Params := map["a" := one], map["a" := "1"];
    var v2: Params, r2: Params := map["a" := two], map["a" := "2"];
    hide SearchAt, DecodeParam;
    assert p1 + [Param] == p2 && p1 + [Wild] == At([Param, Wild]);
    ExtendTwice(p1, Lit("2"));
    assert p1 + [Lit("2")] !in REPEATED;
    assert ["2", "3"][1..] == ["3"] && Joined(["2", "3"]) == "2/3" by { JoinedTwo(); }
    assert v1["a" := two] == v2 && r1["a" := "2"] == r2 && v2 - {"a"} == map[] && r2 - {"a"} == map[];
    DeadEnd(d, v2, r2);
    SearchAtParam(d, REPEATED, p1, ["2", "3"], GET, v1, r1);
  }

  lemma JoinedTwo()
    ensures Joined(["2", "3"]) == "2/3"
  {
    assert ["2", "3"][1..] == ["3"] && Joined(["3"]) == "3" && "2" + "/" + "3" == "2/3";
  }

  /** Where no literal child fits. */
  lemma SearchAtParam(d: Decoder, tree: Tree, path: Path, segs: seq<string>, verb: Method, params: Params, raw: Params)
    requires path in tree && segs != [] && path + [Lit(segs[0])] !in tree
    ensures SearchAt(d, tree, path, segs, verb, params, raw) ==
      var par := SearchParam(d, tree, path, segs, verb, params, raw);
      if par.Miss? then SearchWild(d, tree, path, segs, verb, par.params, par.raw) else par
  {
    hide SearchParam, SearchWild;
  }

  /** The search tries the second parameter, which overwrites the first binding, and on its way
      back deletes it: the wildcard route is found without its `a`. */
  lemma RepeatedIsSearched(d: Decoder)
    requires DecodeParam(d, "1").Some? && DecodeParam(d, "2").Some? && d.decode("2/3").Some?
    ensures [] in REPEATED
    ensures SearchAt(d, REPEATED, [], ["1", "2", "3"], GET, map[], map[])
      == Hit([Param, Wild], map["*" := d.decode("2/3").value], map["*" := "2/3"])
  {
    var s, p0 := ["1", "2", "3"], At([]);
    var one := DecodeParam(d, "1").value;
    hide SearchAt, SearchWild, DecodeParam;
    assert s[1..] == ["2", "3"] && p0 + [Param] == At([Param]);
    ExtendTwice(p0, Lit("1"));
    assert p0 + [Lit("1")] !in REPEATED;
    SecondOverwrites(d, one);
    var none: Params := map[];
    assert none["a" := one] == map["a" := one] && none["a" := "1"] == map["a" := "1"];
    SearchAtParam(d, REPEATED, p0, s, GET, map[], map[]);
  }

  /** Distinct names are needed for the bindings: with two accepted routes of which one repeats
      `a`, the other is found and its own `a` is missing. */
  lemma RepeatedNameLosesBinding(d: Decoder)
    requires DecodeParam(d, "1").Some? && DecodeParam(d, "2").Some? && d.decode("2/3").Some?
    ensures Canonicalize("/1/2/3", true) == Some("/1/2/3")
    ensures var (t, accepted) := Build([TWICE, REST]); var answer := Match(t, d, true, GET, "/1/2/3");
      && accepted == [TWICE, REST] && OwnNames(SplitPath(REST.url)) == ["a", "*"]
      && answer.Found? && answer.route == REST && "a" !in answer.params
  {
    hide *;
    RepeatedIsSearched(d);
    RepeatedIsCanonical();
    OwnNamesOfRest();
    RepeatedUrls();
    RepeatedIsBuilt();
    AnswerOfHit(d);
  }

  lemma AnswerOfHit(d: Decoder)
    requires [] in REPEATED && SplitPath("/1/2/3") == ["1", "2", "3"] && Canonicalize("/1/2/3", true) == Some("/1/2/3")
    requires d.decode("2/3").Some?
    requires SearchAt(d, REPEATED, [], ["1", "2", "3"], GET, map[], map[])
      == Hit([Param, Wild], map["*" := d.decode("2/3").value], map["*" := "2/3"])
    ensures var answer := Match(Table(REPEATED, map[]), d, true, GET, "/1/2/3");
      answer.Found? && answer.route == REST && "a" !in answer.params
  {
    var at := At([Param, Wild]);
    assert at in REPEATED && REPEATED[at].routes == map[GET := REST];
    hide SearchAt, SplitPath, Canonicalize, REPEATED;
  }

  lemma OwnNamesOfRest()
    ensures OwnNames(SplitPath(REST.url)) == ["a", "*"]
  {
    hide SplitPath;
    RepeatedUrls();
    assert [":a", "*"][1..] == ["*"] && ":a"[1..] == "a" && "*"[1..] == "";
  }

  lemma RepeatedIsCanonical()
    ensures Canonicalize("/1/2/3", true) == Some("/1/2/3")
  {
    hide SplitPath;
    SplitUndoesSlashed(["1", "2", "3"]);
    SlashedThree("1", "2", "3");
    assert "/" + "1" + "/" + "2" + "/" + "3" == "/1/2/3";
    var parts := Split("/1/2/3");
    assert parts == [""] + ["1", "2", "3"];
  }

  // ---- Strict parameters ----

  /** No slash of either kind, and no NUL. */
  predicate HoldsNoSeparator(v: string) { forall i :: 0 <= i < |v| ==> v[i] != '/' && v[i] != '\\' && v[i] != '\0' }

  ghost predicate AllClean(params: Params) { forall k :: k in params ==> HoldsNoSeparator(params[k]) }

  /** Only what the wildcard at the end of the pattern binds may hold one. */
  ghost predicate CleanButWild(tree: Tree, r: Search) {
    match r
    case Hit(at, params, _) => forall k :: k in params ==>
      HoldsNoSeparator(params[k]) || (at != [] && at[|at| - 1] == Wild && at[..|at| - 1] in tree && tree[at[..|at| - 1]].wildName == Some(k))
    case Miss(params, _) => AllClean(params)
    case Malformed => true
  }

  /** A parameter is bound to what its segment decodes to, unless that holds a separator and
      `strictParams` is on. */
  lemma DecodeParamIff(d: Decoder, seg: string, v: string)
    ensures DecodeParam(d, seg) == Some(v) <==> d.decode(seg) == Some(v) && (d.strict ==> HoldsNoSeparator(v))
  {
    if HoldsNoSeparator(v) { assert !HasSeparator(v); }
    if d.strict && DecodeParam(d, seg) == Some(v) { DecodedIsClean(d, seg); }
  }

  lemma DecodedIsClean(d: Decoder, seg: string)
    requires d.strict && DecodeParam(d, seg).Some?
    ensures HoldsNoSeparator(DecodeParam(d, seg).value)
  {
    var v := DecodeParam(d, seg).value;
    assert forall i :: 0 <= i < |v| ==> v[i] in v;
  }

  lemma WildIsLast(d: Decoder, tree: Tree, path: Path, segs: seq<string>, verb: Method, params: Params, raw: Params)
    requires path in tree && AllClean(params)
    ensures CleanButWild(tree, SearchWild(d, tree, path, segs, verb, params, raw))
  {
    var at := path + [Wild];
    assert at[|at| - 1] == Wild && at[..|at| - 1] == path;
    hide HoldsNoSeparator, Joined;
  }

  lemma {:induction false} StrictSearch(d: Decoder, tree: Tree, path: Path, segs: seq<string>, verb: Method, params: Params, raw: Params)
    requires d.strict && path in tree && AllClean(params)
    ensures CleanButWild(tree, SearchAt(d, tree, path, segs, verb, params, raw))
    decreases |segs|, 1
  {
    hide HoldsNoSeparator, DecodeParam, SearchWild;
    if segs != [] {
      if path + [Lit(segs[0])] in tree { StrictSearch(d, tree, path + [Lit(segs[0])], segs[1..], verb, params, raw); }
      var lit := SearchLit(d, tree, path, segs, verb, params, raw);
      if lit.Miss? {
        StrictParam(d, tree, path, segs, verb, lit.params, lit.raw);
        var par := SearchParam(d, tree, path, segs, verb, lit.params, lit.raw);
        if par.Miss? { WildIsLast(d, tree, path, segs, verb, par.params, par.raw); }
        hide SearchParam;
      }
      hide SearchLit;
    }
  }

  lemma {:induction false} StrictParam(d: Decoder, tree: Tree, path: Path, segs: seq<string>, verb: Method, params: Params, raw: Params)
    requires d.strict && path in tree && segs != [] && AllClean(params)
    ensures CleanButWild(tree, SearchParam(d, tree, path, segs, verb, params, raw))
    decreases |segs|, 0
  {
    hide HoldsNoSeparator, DecodeParam, SearchAt;
    var name := tree[path].paramName;
    if path + [Param] in tree && name.Some? && name.value != "" && DecodeParam(d, segs[0]).Some? {
      var v := DecodeParam(d, segs[0]).value;
      DecodedIsClean(d, segs[0]);
      StrictSearch(d, tree, path + [Param], segs[1..], verb, params[name.value := v], raw[name.value := segs[0]]);
    }
  }

  /** With `strictParams` every parameter of a found route is free of separators, whatever its decoding
      gave, but for what a wildcard at the end of the route's pattern binds. */
  lemma StrictParamsAreSegments(attempts: seq<Route>, d: Decoder, ignoreSlash: bool, verb: Method, pathname: string)
    requires d.strict
    ensures var (t, accepted) := Build(attempts); var answer := Match(t, d, ignoreSlash, verb, pathname);
      answer.Found? ==> forall k :: k in answer.params ==>
        HoldsNoSeparator(answer.params[k])
        || (var p := PatternOf(answer.route); p != [] && p[|p| - 1] == Wild && k == WildNameAt(accepted, p))
  {
    hide Build, Match, Canonicalize, SplitPath, SearchAt, HoldsNoSeparator;
    BuildIsSound(attempts);
    StaticMapRefinesTree(attempts, d, ignoreSlash, verb, pathname);
    var (t, accepted) := Build(attempts);
    var c := Canonicalize(pathname, ignoreSlash);
    if c.Some? {
      RootIsIn(t.tree);
      StrictSearch(d, t.tree, [], SplitPath(c.value), verb, map[], map[]);
      var r := SearchAt(d, t.tree, [], SplitPath(c.value), verb, map[], map[]);
      if r.Hit? && r.at in t.tree && verb in t.tree[r.at].routes {
        FoundAtPattern(t, accepted, r.at, verb);
        WildHasItsName(t, accepted, r.at);
      }
    }
  }

  lemma FoundAtPattern(t: Table, accepted: seq<Route>, at: Path, verb: Method)
    requires Sound(t, accepted) && at in t.tree && verb in t.tree[at].routes
    ensures PatternOf(t.tree[at].routes[verb]) == at
  {
    hide WellFormed, Following, WildsNamed, StaticsAgree, Grounded, PatternOf;
  }

  lemma WildHasItsName(t: Table, accepted: seq<Route>, at: Path)
    requires Sound(t, accepted)
    ensures at != [] && at[|at| - 1] == Wild && at[..|at| - 1] in t.tree ==>
      forall k :: t.tree[at[..|at| - 1]].wildName == Some(k) ==> k == WildNameAt(accepted, at)
  {
    hide WellFormed, Holding, Following, StaticsAgree, Grounded, FirstAt, SplitPath, WildName;
    if at != [] && at[|at| - 1] == Wild { assert at[..|at| - 1] + [Wild] == at; }
  }
}
