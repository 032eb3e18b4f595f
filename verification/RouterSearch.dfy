module RouterSearch {
  // The search returns the most specific pattern it can get to.

  import opened Options
  import opened RouterModel

  function Parent(p: Path): Path
    requires p != []
  {
    p[..|p| - 1]
  }

  /** The shape every registered tree has. */
  ghost predicate WellFormed(tree: Tree) {
    && [] in tree
    && (forall p {:trigger Parent(p)} :: p in tree && p != [] ==> Parent(p) in tree)
    && (forall p {:trigger tree[p].paramName} :: p in tree ==> (tree[p].paramName.Some? <==> p + [Param] in tree))
    && (forall p {:trigger tree[p].wildName} :: p in tree ==> (tree[p].wildName.Some? <==> p + [Wild] in tree))
    && (forall p, i :: p in tree && 0 <= i < |p| - 1 ==> p[i] != Wild)
  }

  /** A pattern fits a list of segments. */
  predicate Fits(p: Path, segs: seq<string>) {
    if p == [] then segs == []
    else segs != [] && match p[0]
      case Wild => |p| == 1
      case Lit(s) => s == segs[0] && Fits(p[1..], segs[1..])
      case Param => Fits(p[1..], segs[1..])
  }

  /** A route for the verb, below `path`, that fits. */
  predicate Candidate(tree: Tree, path: Path, p: Path, segs: seq<string>, verb: Method) {
    path + p in tree && verb in tree[path + p].routes && Fits(p, segs)
  }

  /** The search skips a parameter or wildcard whose name is missing or empty. */
  predicate HasName(name: Option<string>) { name.Some? && name.value != "" }

  /** Every parameter and wildcard of the pattern, below `path`, has a name. */
  predicate NamedAlong(tree: Tree, path: Path, p: Path)
    decreases |p|
  {
    p == [] ||
    (path in tree
     && (p[0].Param? ==> HasName(tree[path].paramName))
     && (p[0].Wild? ==> HasName(tree[path].wildName))
     && NamedAlong(tree, path + [p[0]], p[1..]))
  }

  /** A candidate the search can get to. */
  predicate Open(tree: Tree, path: Path, p: Path, segs: seq<string>, verb: Method) {
    Candidate(tree, path, p, segs, verb) && NamedAlong(tree, path, p)
  }

  /** A decoding that fails on the way: of the segment a last parameter edge stands for, or of the
      tail of a wildcard that carries the verb. */
  predicate Obstacle(d: Decoder, tree: Tree, path: Path, o: Path, segs: seq<string>, verb: Method)
    decreases |o|
  {
    o != [] && segs != [] && path in tree && path + [o[0]] in tree &&
    match o[0]
    case Lit(s) => s == segs[0] && Obstacle(d, tree, path + [o[0]], o[1..], segs[1..], verb)
    case Param =>
      HasName(tree[path].paramName) &&
      if |o| == 1 then DecodeParam(d, segs[0]).None?
      else Obstacle(d, tree, path + [Param], o[1..], segs[1..], verb)
    case Wild =>
      |o| == 1 && HasName(tree[path].wildName) && verb in tree[path + [Wild]].routes && d.decode(Joined(segs)).None?
  }

  /** The search comes to `o` before it could find `p`, or on the way to it. */
  predicate Before(o: Path, p: Path) {
    o == [] ||
    (p != [] && (Specificity(o[0]) < Specificity(p[0]) || (o[0] == p[0] && Before(o[1..], p[1..]))))
  }

  function Specificity(e: Edge): nat {
    match e case Lit(_) => 0 case Param => 1 case Wild => 2
  }

  /** Segment by segment: static before parameter before wildcard. */
  predicate Precedes(p: Path, q: Path) {
    p == q ||
    (p != [] && q != [] &&
     (Specificity(p[0]) < Specificity(q[0]) || (p[0] == q[0] && Precedes(p[1..], q[1..]))))
  }

  ghost predicate Best(tree: Tree, path: Path, p: Path, segs: seq<string>, verb: Method) {
    && Open(tree, path, p, segs, verb)
    && forall q :: Open(tree, path, q, segs, verb) ==> Precedes(p, q)
  }

  datatype Binding = Binding(name: string, raw: string, wild: bool)

  /** What a fitting pattern binds: the node's own names, to the segments they stand for. */
  function Bindings(tree: Tree, path: Path, p: Path, segs: seq<string>): seq<Binding>
    decreases |p|
  {
    if p == [] || segs == [] || path !in tree then []
    else match p[0]
      case Lit(_) => Bindings(tree, path + [p[0]], p[1..], segs[1..])
      case Param =>
        (if tree[path].paramName.Some? then [Binding(tree[path].paramName.value, segs[0], false)] else [])
        + Bindings(tree, path + [Param], p[1..], segs[1..])
      case Wild =>
        if tree[path].wildName.Some? then [Binding(tree[path].wildName.value, Joined(segs), true)] else []
  }

  /** Bindings entered one after the other. */
  function BindAll(value: Binding -> string, params: Params, bs: seq<Binding>): Params
    decreases |bs|
  {
    if bs == [] then params else BindAll(value, params[bs[0].name := value(bs[0])], bs[1..])
  }

  /** What `params` and `rawParams` record of a binding. */
  function Decoded(d: Decoder): Binding -> string {
    (b: Binding) => match (if b.wild then d.decode(b.raw) else DecodeParam(d, b.raw)) case Some(v) => v case None => ""
  }

  function Verbatim(): Binding -> string { (b: Binding) => b.raw }

  // ---- Which route is found ----

  /** Patterns whose first edge is at most this unspecific (or that are empty). */
  predicate Within(p: Path, upTo: nat) {
    p == [] || Specificity(p[0]) <= upTo
  }

  lemma AlwaysWithin(p: Path)
    ensures Within(p, 2)
  {}

  /** What the outcome says of the patterns of a class: a hit is the best one, and no obstacle lies
      before it; without one, either nothing is in the way, or something is before all of them. */
  ghost predicate Exact(d: Decoder, tree: Tree, path: Path, segs: seq<string>, verb: Method, r: Search, upTo: nat) {
    match r
    case Hit(at, _, _) => exists p ::
      && Best(tree, path, p, segs, verb) && Within(p, upTo) && at == path + p
      && forall o :: Obstacle(d, tree, path, o, segs, verb) ==> !Before(o, p)
    case Miss(_, _) =>
      && (forall q :: Open(tree, path, q, segs, verb) ==> !Within(q, upTo))
      && (forall o :: Obstacle(d, tree, path, o, segs, verb) ==> !Within(o, upTo))
    case Malformed => exists o ::
      && Obstacle(d, tree, path, o, segs, verb) && Within(o, upTo)
      && forall q :: Open(tree, path, q, segs, verb) ==> Before(o, q)
  }

  /** A candidate one edge further down. */
  lemma CandidateBelow(tree: Tree, path: Path, e: Edge, p: Path, segs: seq<string>, verb: Method)
    requires segs != [] && (e == Lit(segs[0]) || e == Param)
    ensures Candidate(tree, path, [e] + p, segs, verb) <==> Candidate(tree, path + [e], p, segs[1..], verb)
  {
    assert path + ([e] + p) == path + [e] + p;
    assert ([e] + p)[1..] == p;
  }

  lemma OpenBelow(tree: Tree, path: Path, e: Edge, p: Path, segs: seq<string>, verb: Method)
    requires path in tree && segs != [] && (e == Lit(segs[0]) || (e == Param && HasName(tree[path].paramName)))
    ensures Open(tree, path, [e] + p, segs, verb) <==> Open(tree, path + [e], p, segs[1..], verb)
  {
    CandidateBelow(tree, path, e, p, segs, verb);
    assert ([e] + p)[1..] == p;
  }

  lemma ObstacleBelow(d: Decoder, tree: Tree, path: Path, e: Edge, o: Path, segs: seq<string>, verb: Method)
    requires path in tree && path + [e] in tree && segs != []
    requires e == Lit(segs[0]) || (e == Param && HasName(tree[path].paramName) && DecodeParam(d, segs[0]).Some?)
    ensures Obstacle(d, tree, path, [e] + o, segs, verb) <==> Obstacle(d, tree, path + [e], o, segs[1..], verb)
  {
    assert ([e] + o)[1..] == o;
  }

  /** Nothing of the class before edge `e` is left. */
  ghost predicate From(d: Decoder, tree: Tree, path: Path, segs: seq<string>, verb: Method, e: Edge) {
    && (forall q :: Open(tree, path, q, segs, verb) ==> q != [] && Specificity(q[0]) >= Specificity(e))
    && (forall o :: Obstacle(d, tree, path, o, segs, verb) ==> o != [] && Specificity(o[0]) >= Specificity(e))
  }

  lemma SameFirst(tree: Tree, path: Path, e: Edge, q: Path, segs: seq<string>, verb: Method)
    requires segs != [] && (e == Lit(segs[0]) || e == Param) && Candidate(tree, path, q, segs, verb)
    requires q != [] && Specificity(q[0]) == Specificity(e)
    ensures q == [e] + q[1..]
  {}

  lemma SameFirstObstacle(d: Decoder, tree: Tree, path: Path, e: Edge, o: Path, segs: seq<string>, verb: Method)
    requires segs != [] && (e == Lit(segs[0]) || e == Param) && Obstacle(d, tree, path, o, segs, verb)
    requires Specificity(o[0]) == Specificity(e)
    ensures o == [e] + o[1..]
  {}

  /** The edge leads on: its child is there, it has a name, and its segment decodes. */
  ghost predicate LeadsOn(d: Decoder, tree: Tree, path: Path, e: Edge, segs: seq<string>) {
    && path in tree && path + [e] in tree && segs != []
    && (e == Lit(segs[0]) || (e == Param && HasName(tree[path].paramName) && DecodeParam(d, segs[0]).Some?))
  }

  lemma HitFromBelow(d: Decoder, tree: Tree, path: Path, e: Edge, p: Path, segs: seq<string>, verb: Method)
    requires LeadsOn(d, tree, path, e, segs) && From(d, tree, path, segs, verb, e)
    requires Best(tree, path + [e], p, segs[1..], verb)
    requires forall o :: Obstacle(d, tree, path + [e], o, segs[1..], verb) ==> !Before(o, p)
    ensures Best(tree, path, [e] + p, segs, verb)
    ensures forall o :: Obstacle(d, tree, path, o, segs, verb) ==> !Before(o, [e] + p)
  {
    hide Candidate, NamedAlong, Obstacle;
    var r := [e] + p;
    assert r[1..] == p;
    OpenBelow(tree, path, e, p, segs, verb);
    forall q | Open(tree, path, q, segs, verb) ensures Precedes(r, q) {
      if Specificity(q[0]) == Specificity(e) {
        SameFirst(tree, path, e, q, segs, verb);
        OpenBelow(tree, path, e, q[1..], segs, verb);
      }
    }
    forall o | Obstacle(d, tree, path, o, segs, verb) ensures !Before(o, r) {
      if Specificity(o[0]) == Specificity(e) {
        SameFirstObstacle(d, tree, path, e, o, segs, verb);
        ObstacleBelow(d, tree, path, e, o[1..], segs, verb);
      }
    }
  }

  lemma MalformedFromBelow(d: Decoder, tree: Tree, path: Path, e: Edge, o: Path, segs: seq<string>, verb: Method)
    requires LeadsOn(d, tree, path, e, segs) && From(d, tree, path, segs, verb, e)
    requires Obstacle(d, tree, path + [e], o, segs[1..], verb)
    requires forall q :: Open(tree, path + [e], q, segs[1..], verb) ==> Before(o, q)
    ensures Obstacle(d, tree, path, [e] + o, segs, verb)
    ensures forall q :: Open(tree, path, q, segs, verb) ==> Before([e] + o, q)
  {
    hide Candidate, NamedAlong, Obstacle;
    var r := [e] + o;
    assert r[1..] == o;
    ObstacleBelow(d, tree, path, e, o, segs, verb);
    forall q | Open(tree, path, q, segs, verb) ensures Before(r, q) {
      if Specificity(q[0]) == Specificity(e) {
        SameFirst(tree, path, e, q, segs, verb);
        OpenBelow(tree, path, e, q[1..], segs, verb);
      }
    }
  }

  lemma MissFromBelow(d: Decoder, tree: Tree, path: Path, e: Edge, segs: seq<string>, verb: Method)
    requires LeadsOn(d, tree, path, e, segs) && From(d, tree, path, segs, verb, e)
    requires forall q :: !Open(tree, path + [e], q, segs[1..], verb)
    requires forall o :: !Obstacle(d, tree, path + [e], o, segs[1..], verb)
    ensures forall q :: Open(tree, path, q, segs, verb) ==> !Within(q, Specificity(e))
    ensures forall o :: Obstacle(d, tree, path, o, segs, verb) ==> !Within(o, Specificity(e))
  {
    hide Candidate, NamedAlong, Obstacle;
    forall q | Open(tree, path, q, segs, verb) ensures !Within(q, Specificity(e)) {
      if Specificity(q[0]) == Specificity(e) {
        SameFirst(tree, path, e, q, segs, verb);
        OpenBelow(tree, path, e, q[1..], segs, verb);
      }
    }
    forall o | Obstacle(d, tree, path, o, segs, verb) ensures !Within(o, Specificity(e)) {
      if Specificity(o[0]) == Specificity(e) {
        SameFirstObstacle(d, tree, path, e, o, segs, verb);
        ObstacleBelow(d, tree, path, e, o[1..], segs, verb);
      }
    }
  }

  /** The same outcome, but for what a miss leaves of the records. */
  predicate SameOutcome(a: Search, b: Search) {
    match a
    case Hit(_, _, _) => a == b
    case Miss(_, _) => b.Miss?
    case Malformed => b.Malformed?
  }

  /** An outcome below an edge, seen from above it. */
  lemma FromBelow(d: Decoder, tree: Tree, path: Path, e: Edge, segs: seq<string>, verb: Method, inner: Search, r: Search)
    requires LeadsOn(d, tree, path, e, segs) && From(d, tree, path, segs, verb, e) && SameOutcome(inner, r)
    requires Exact(d, tree, path + [e], segs[1..], verb, inner, 2)
    ensures Exact(d, tree, path, segs, verb, r, Specificity(e))
  {
    assert segs != [];
    hide Best, Open, Obstacle, Before, From, LeadsOn, Within;
    forall q ensures Within(q, 2) { AlwaysWithin(q); }
    match inner
    case Hit(at, _, _) =>
      var p :| Best(tree, path + [e], p, segs[1..], verb) && at == path + [e] + p
        && forall o :: Obstacle(d, tree, path + [e], o, segs[1..], verb) ==> !Before(o, p);
      HitFromBelow(d, tree, path, e, p, segs, verb);
      Regroup(path, e, p);
      WithinFirst(e, p);
    case Miss(_, _) => MissFromBelow(d, tree, path, e, segs, verb);
    case Malformed =>
      var o :| Obstacle(d, tree, path + [e], o, segs[1..], verb)
        && forall q :: Open(tree, path + [e], q, segs[1..], verb) ==> Before(o, q);
      MalformedFromBelow(d, tree, path, e, o, segs, verb);
      WithinFirst(e, o);
  }

  lemma Regroup(path: Path, e: Edge, p: Path)
    ensures path + ([e] + p) == path + [e] + p
  {}

  lemma WithinFirst(e: Edge, p: Path)
    ensures Within([e] + p, Specificity(e))
  {}

  lemma {:induction false} PrefixInTree(tree: Tree, path: Path, q: Path)
    requires WellFormed(tree) && path + q in tree && q != []
    ensures path + [q[0]] in tree
    decreases |q|
  {
    if |q| == 1 {
      assert q == [q[0]];
    } else {
      var shorter := q[..|q| - 1];
      assert Parent(path + q) == path + shorter;
      PrefixInTree(tree, path, shorter);
    }
  }

  /** An edge that is not there, or has no name, starts no pattern and no obstacle. */
  lemma NothingOn(d: Decoder, tree: Tree, path: Path, e: Edge, segs: seq<string>, verb: Method)
    requires WellFormed(tree) && path in tree && segs != [] && (e == Lit(segs[0]) || e == Param) && From(d, tree, path, segs, verb, e)
    requires path + [e] !in tree || (e == Param && !HasName(tree[path].paramName))
    ensures forall q :: Open(tree, path, q, segs, verb) ==> !Within(q, Specificity(e))
    ensures forall o :: Obstacle(d, tree, path, o, segs, verb) ==> !Within(o, Specificity(e))
  {
    hide WellFormed, Fits;
    forall q | Open(tree, path, q, segs, verb) ensures !Within(q, Specificity(e)) {
      PrefixInTree(tree, path, q);
      if Specificity(q[0]) == Specificity(e) { SameFirst(tree, path, e, q, segs, verb); }
    }
    forall o | Obstacle(d, tree, path, o, segs, verb) ensures !Within(o, Specificity(e)) {
      if Specificity(o[0]) == Specificity(e) { SameFirstObstacle(d, tree, path, e, o, segs, verb); }
    }
  }

  lemma StartsFromLit(d: Decoder, tree: Tree, path: Path, segs: seq<string>, verb: Method)
    requires segs != []
    ensures From(d, tree, path, segs, verb, Lit(segs[0]))
  {}

  lemma NextFrom(d: Decoder, tree: Tree, path: Path, segs: seq<string>, verb: Method, r: Search, e: Edge)
    requires segs != [] && r.Miss? && !e.Lit? && Exact(d, tree, path, segs, verb, r, Specificity(e) - 1)
    ensures From(d, tree, path, segs, verb, e)
  {
    hide Open, Obstacle;
  }

  lemma {:induction false} LitIsExact(d: Decoder, tree: Tree, path: Path, segs: seq<string>, verb: Method, params: Params, raw: Params)
    requires WellFormed(tree) && path in tree && segs != []
    ensures Exact(d, tree, path, segs, verb, SearchLit(d, tree, path, segs, verb, params, raw), 0)
    decreases |segs|, 0
  {
    hide WellFormed, Open, Obstacle, SearchAt, From;
    var e := Lit(segs[0]);
    StartsFromLit(d, tree, path, segs, verb);
    if path + [e] in tree {
      var r := SearchLit(d, tree, path, segs, verb, params, raw);
      SearchIsExact(d, tree, path + [e], segs[1..], verb, params, raw);
      hide Exact;
      FromBelow(d, tree, path, e, segs, verb, r, r);
    } else {
      NothingOn(d, tree, path, e, segs, verb);
    }
  }

  lemma {:induction false} ParamIsExact(d: Decoder, tree: Tree, path: Path, segs: seq<string>, verb: Method, params: Params, raw: Params)
    requires WellFormed(tree) && path in tree && segs != [] && From(d, tree, path, segs, verb, Param)
    ensures Exact(d, tree, path, segs, verb, SearchParam(d, tree, path, segs, verb, params, raw), 1)
    decreases |segs|, 0
  {
    hide WellFormed, Open, Obstacle, SearchAt, From;
    var child, name := path + [Param], tree[path].paramName;
    if child !in tree || !HasName(name) {
      NothingOn(d, tree, path, Param, segs, verb);
    } else if DecodeParam(d, segs[0]).None? {
      BlockedAtParam(d, tree, path, segs, verb);
      assert Within([Param], 1);
    } else {
      var value := DecodeParam(d, segs[0]).value;
      SearchIsExact(d, tree, child, segs[1..], verb, params[name.value := value], raw[name.value := segs[0]]);
      hide Exact;
      FromBelow(d, tree, path, Param, segs, verb,
        SearchAt(d, tree, child, segs[1..], verb, params[name.value := value], raw[name.value := segs[0]]),
        SearchParam(d, tree, path, segs, verb, params, raw));
    }
  }

  lemma BlockedAtParam(d: Decoder, tree: Tree, path: Path, segs: seq<string>, verb: Method)
    requires path in tree && path + [Param] in tree && segs != [] && HasName(tree[path].paramName)
    requires DecodeParam(d, segs[0]).None? && From(d, tree, path, segs, verb, Param)
    ensures Obstacle(d, tree, path, [Param], segs, verb)
    ensures forall q :: Open(tree, path, q, segs, verb) ==> Before([Param], q)
  {
    hide Open, Obstacle;
    assert Obstacle(d, tree, path, [Param], segs, verb) by { ParamObstacle(d, tree, path, segs, verb); }
    forall q | Open(tree, path, q, segs, verb) ensures Before([Param], q) {
      var none: Path := [];
      assert [Param][1..] == none && Before(none, q[1..]);
    }
  }

  lemma ParamObstacle(d: Decoder, tree: Tree, path: Path, segs: seq<string>, verb: Method)
    requires path in tree && path + [Param] in tree && segs != [] && HasName(tree[path].paramName)
    requires DecodeParam(d, segs[0]).None?
    ensures Obstacle(d, tree, path, [Param], segs, verb)
  {}

  lemma OnlyWild(d: Decoder, tree: Tree, path: Path, segs: seq<string>, verb: Method)
    requires segs != [] && From(d, tree, path, segs, verb, Wild)
    ensures forall q :: Open(tree, path, q, segs, verb) ==> q == [Wild]
    ensures forall o :: Obstacle(d, tree, path, o, segs, verb) ==> o == [Wild]
  {
    forall q | Open(tree, path, q, segs, verb) ensures q == [Wild] { assert q[0] == Wild; }
    forall o | Obstacle(d, tree, path, o, segs, verb) ensures o == [Wild] { assert o[0] == Wild; }
  }

  lemma WildCases(d: Decoder, tree: Tree, path: Path, segs: seq<string>, verb: Method)
    requires path in tree && segs != []
    ensures var there := path + [Wild] in tree && HasName(tree[path].wildName) && verb in tree[path + [Wild]].routes;
      && (Open(tree, path, [Wild], segs, verb) <==> there)
      && (Obstacle(d, tree, path, [Wild], segs, verb) <==> there && d.decode(Joined(segs)).None?)
  {
    assert NamedAlong(tree, path + [Wild], []);
    assert [Wild][1..] == [];
  }

  lemma {:induction false} WildIsExact(d: Decoder, tree: Tree, path: Path, segs: seq<string>, verb: Method, params: Params, raw: Params)
    requires path in tree && segs != [] && From(d, tree, path, segs, verb, Wild)
    ensures Exact(d, tree, path, segs, verb, SearchWild(d, tree, path, segs, verb, params, raw), 2)
  {
    OnlyWild(d, tree, path, segs, verb);
    WildCases(d, tree, path, segs, verb);
    hide Open, Obstacle, From;
    var r := SearchWild(d, tree, path, segs, verb, params, raw);
    var none: Path := [];
    assert [Wild][1..] == none && Before(none, none) && Precedes([Wild], [Wild]);
    if r.Hit? {
      assert Best(tree, path, [Wild], segs, verb) && Within([Wild], 2);
    } else if r.Malformed? {
      assert Obstacle(d, tree, path, [Wild], segs, verb) && Within([Wild], 2) && Before([Wild], [Wild]);
    }
  }

  lemma EmptyIsExact(d: Decoder, tree: Tree, path: Path, verb: Method, params: Params, raw: Params)
    requires path in tree
    ensures Exact(d, tree, path, [], verb, SearchAt(d, tree, path, [], verb, params, raw), 2)
  {
    assert path + [] == path;
    assert forall q :: Open(tree, path, q, [], verb) ==> q == [];
    if verb in tree[path].routes {
      assert Best(tree, path, [], [], verb) && Within([], 2);
    }
  }

  lemma Widen(d: Decoder, tree: Tree, path: Path, segs: seq<string>, verb: Method, r: Search, a: nat, b: nat)
    requires Exact(d, tree, path, segs, verb, r, a) && !r.Miss? && a <= b
    ensures Exact(d, tree, path, segs, verb, r, b)
  {
    hide Best, Open, Obstacle, Before;
  }

  /** The outcome of the search, for every well-formed tree, decoder and request. */
  lemma {:induction false} SearchIsExact(d: Decoder, tree: Tree, path: Path, segs: seq<string>, verb: Method, params: Params, raw: Params)
    requires WellFormed(tree) && path in tree
    ensures Exact(d, tree, path, segs, verb, SearchAt(d, tree, path, segs, verb, params, raw), 2)
    decreases |segs|, 1
  {
    hide WellFormed, Exact, SearchLit, SearchParam, SearchWild, From;
    if segs == [] {
      EmptyIsExact(d, tree, path, verb, params, raw);
      return;
    }
    LitIsExact(d, tree, path, segs, verb, params, raw);
    var lit := SearchLit(d, tree, path, segs, verb, params, raw);
    if !lit.Miss? {
      Widen(d, tree, path, segs, verb, lit, 0, 2);
      return;
    }
    NextFrom(d, tree, path, segs, verb, lit, Param);
    ParamIsExact(d, tree, path, segs, verb, lit.params, lit.raw);
    var par := SearchParam(d, tree, path, segs, verb, lit.params, lit.raw);
    if !par.Miss? {
      Widen(d, tree, path, segs, verb, par, 1, 2);
      return;
    }
    NextFrom(d, tree, path, segs, verb, par, Wild);
    WildIsExact(d, tree, path, segs, verb, par.params, par.raw);
  }

  /** Soundness, completeness and priority, with no condition on names or decoding: some route is
      found exactly when a pattern fits whose parameters are all named and no failing decoding
      comes before the best such pattern; the request is malformed exactly when one comes before
      all of them. */
  lemma HitIff(d: Decoder, tree: Tree, path: Path, segs: seq<string>, verb: Method, params: Params, raw: Params)
    requires WellFormed(tree) && path in tree
    ensures var r := SearchAt(d, tree, path, segs, verb, params, raw);
      && (r.Hit? <==> exists p :: Best(tree, path, p, segs, verb) && forall o :: Obstacle(d, tree, path, o, segs, verb) ==> !Before(o, p))
      && (r.Malformed? <==> exists o :: Obstacle(d, tree, path, o, segs, verb) && forall q :: Open(tree, path, q, segs, verb) ==> Before(o, q))
  {
    hide WellFormed, Obstacle, Before, SearchAt, Open;
    var r := SearchAt(d, tree, path, segs, verb, params, raw);
    SearchIsExact(d, tree, path, segs, verb, params, raw);
    forall q ensures Within(q, 2) { AlwaysWithin(q); }
    if p :| Best(tree, path, p, segs, verb) && forall o :: Obstacle(d, tree, path, o, segs, verb) ==> !Before(o, p) {
      assert Open(tree, path, p, segs, verb);
      assert r.Hit?;
    }
    if o :| Obstacle(d, tree, path, o, segs, verb) && forall q :: Open(tree, path, q, segs, verb) ==> Before(o, q) {
      assert Within(o, 2);
      BehindHit(d, tree, path, segs, verb, r, o);
    }
  }

  /** What is hit is the best pattern. */
  lemma HitIsBest(d: Decoder, tree: Tree, path: Path, segs: seq<string>, verb: Method, params: Params, raw: Params) returns (p: Path)
    requires WellFormed(tree) && path in tree && SearchAt(d, tree, path, segs, verb, params, raw).Hit?
    ensures SearchAt(d, tree, path, segs, verb, params, raw).at == path + p && Best(tree, path, p, segs, verb)
    ensures forall o :: Obstacle(d, tree, path, o, segs, verb) ==> !Before(o, p)
  {
    hide WellFormed, Obstacle, Before, SearchAt, Open, Best;
    SearchIsExact(d, tree, path, segs, verb, params, raw);
    var r := SearchAt(d, tree, path, segs, verb, params, raw);
    p :| Best(tree, path, p, segs, verb) && Within(p, 2) && r.at == path + p
      && forall o :: Obstacle(d, tree, path, o, segs, verb) ==> !Before(o, p);
  }

  /** An obstacle lies behind a hit. */
  lemma BehindHit(d: Decoder, tree: Tree, path: Path, segs: seq<string>, verb: Method, r: Search, o: Path)
    requires Exact(d, tree, path, segs, verb, r, 2) && Obstacle(d, tree, path, o, segs, verb)
    ensures r.Hit? ==> exists p :: Open(tree, path, p, segs, verb) && !Before(o, p)
  {
    hide Open, Obstacle, Before;
    if r.Hit? {
      var p :| Best(tree, path, p, segs, verb) && r.at == path + p
        && forall o :: Obstacle(d, tree, path, o, segs, verb) ==> !Before(o, p);
      assert Open(tree, path, p, segs, verb);
    }
  }

  /** Every segment, and every tail a wildcard may take, decodes. */
  ghost predicate Decodes(d: Decoder, segs: seq<string>) {
    && (forall i :: 0 <= i < |segs| ==> DecodeParam(d, segs[i]).Some?)
    && (forall i :: 0 <= i < |segs| ==> d.decode(Joined(segs[i..])).Some?)
  }

  lemma DecodesTail(d: Decoder, segs: seq<string>)
    requires Decodes(d, segs) && segs != []
    ensures Decodes(d, segs[1..]) && DecodeParam(d, segs[0]).Some? && d.decode(Joined(segs)).Some?
  {
    assert segs[0..] == segs;
    forall i | 0 <= i < |segs[1..]| ensures d.decode(Joined(segs[1..][i..])).Some? {
      assert segs[1..][i..] == segs[i + 1..];
    }
  }

  lemma {:induction false} DecodesIsClear(d: Decoder, tree: Tree, path: Path, o: Path, segs: seq<string>, verb: Method)
    requires Decodes(d, segs)
    ensures !Obstacle(d, tree, path, o, segs, verb)
    decreases |o|
  {
    hide Decodes;
    if o != [] && segs != [] {
      DecodesTail(d, segs);
      DecodesIsClear(d, tree, path + [o[0]], o[1..], segs[1..], verb);
    }
  }

  /** When everything decodes, a pattern is found as soon as one can be got to. */
  lemma DecodedHitIff(d: Decoder, tree: Tree, path: Path, segs: seq<string>, verb: Method, params: Params, raw: Params)
    requires WellFormed(tree) && path in tree && Decodes(d, segs)
    ensures var r := SearchAt(d, tree, path, segs, verb, params, raw);
      !r.Malformed? && (r.Hit? <==> exists p :: Open(tree, path, p, segs, verb))
  {
    hide WellFormed, Obstacle, Before, SearchAt, Decodes, Open;
    SearchIsExact(d, tree, path, segs, verb, params, raw);
    forall q ensures Within(q, 2) { AlwaysWithin(q); }
    forall o ensures !Obstacle(d, tree, path, o, segs, verb) { DecodesIsClear(d, tree, path, o, segs, verb); }
  }
}
