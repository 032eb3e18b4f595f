module RouterBindings {
  // What the search leaves in the parameter records, whatever the names are
  // (packages/core/src/router.ts): a branch that fails deletes every name it tried.

  import opened Options
  import opened RouterModel
  import opened RouterSearch

  /** The names tried below the literal child. */
  function TriedLit(tree: Tree, path: Path, segs: seq<string>): set<string>
    decreases |segs|, 0
  {
    if segs != [] && path + [Lit(segs[0])] in tree then Tried(tree, path + [Lit(segs[0])], segs[1..]) else {}
  }

  /** The name of the parameter child and those tried below it. */
  function TriedParam(tree: Tree, path: Path, segs: seq<string>): set<string>
    decreases |segs|, 0
  {
    if segs != [] && path in tree && path + [Param] in tree && HasName(tree[path].paramName)
    then {tree[path].paramName.value} + Tried(tree, path + [Param], segs[1..])
    else {}
  }

  /** The parameter names a search below `path` that fails comes to. */
  function Tried(tree: Tree, path: Path, segs: seq<string>): set<string>
    decreases |segs|, 1
  {
    TriedLit(tree, path, segs) + TriedParam(tree, path, segs)
  }

  /** The names lost before the search takes an edge: those tried below more specific ones. */
  function Lost(tree: Tree, path: Path, e: Edge, segs: seq<string>): set<string> {
    match e
    case Lit(_) => {}
    case Param => TriedLit(tree, path, segs)
    case Wild => Tried(tree, path, segs)
  }

  /** The binding a pattern makes at an edge. */
  function BindingAt(tree: Tree, path: Path, e: Edge, segs: seq<string>): seq<Binding>
    requires segs != []
  {
    if path !in tree then []
    else match e
      case Lit(_) => []
      case Param => if tree[path].paramName.Some? then [Binding(tree[path].paramName.value, segs[0], false)] else []
      case Wild => if tree[path].wildName.Some? then [Binding(tree[path].wildName.value, Joined(segs), true)] else []
  }

  function NamesOf(bs: seq<Binding>): set<string> { set b | b in bs :: b.name }

  /** A record after the search found pattern `p` below `path`. */
  function Final(value: Binding -> string, tree: Tree, path: Path, p: Path, segs: seq<string>, params: Params): Params
    decreases |p|
  {
    if p == [] || segs == [] || path !in tree then params
    else
      var bound := BindAll(value, params - Lost(tree, path, p[0], segs), BindingAt(tree, path, p[0], segs));
      if p[0].Wild? then bound else Final(value, tree, path + [p[0]], p[1..], segs[1..], bound)
  }

  // ---- The search computes it ----

  /** What an outcome leaves of a record. */
  ghost predicate Leaves(value: Binding -> string, tree: Tree, path: Path, segs: seq<string>, lost: set<string>,
                         params: Params, r: Search, after: Params) {
    match r
    case Malformed => true
    case Miss(_, _) => after == params - lost
    case Hit(at, _, _) => path <= at && after == Final(value, tree, path, at[|path|..], segs, params)
  }

  function ParamsOf(r: Search): Params { if r.Malformed? then map[] else r.params }

  function RawOf(r: Search): Params { if r.Malformed? then map[] else r.raw }

  ghost predicate LeavesBoth(d: Decoder, tree: Tree, path: Path, segs: seq<string>, lost: set<string>,
                             params: Params, raw: Params, r: Search) {
    && Leaves(Decoded(d), tree, path, segs, lost, params, r, ParamsOf(r))
    && Leaves(Verbatim(), tree, path, segs, lost, raw, r, RawOf(r))
  }

  /** A hit below an edge, seen from above it. */
  lemma FinalFromBelow(value: Binding -> string, tree: Tree, path: Path, e: Edge, at: Path, segs: seq<string>,
                       params: Params, below: Params)
    requires path in tree && segs != [] && !e.Wild? && path + [e] <= at
    requires below == BindAll(value, params - Lost(tree, path, e, segs), BindingAt(tree, path, e, segs))
    ensures path <= at
    ensures Final(value, tree, path, at[|path|..], segs, params)
      == Final(value, tree, path + [e], at[|path| + 1..], segs[1..], below)
  {
    var p := at[|path|..];
    assert p[0] == at[|path|] == (path + [e])[|path|] && p[1..] == at[|path| + 1..];
    hide Lost, BindAll, BindingAt;
  }

  lemma {:induction false} SearchLeaves(d: Decoder, tree: Tree, path: Path, segs: seq<string>, verb: Method, params: Params, raw: Params)
    requires path in tree
    ensures LeavesBoth(d, tree, path, segs, Tried(tree, path, segs), params, raw, SearchAt(d, tree, path, segs, verb, params, raw))
    decreases |segs|, 1
  {
    hide SearchLit, SearchParam, SearchWild, TriedLit, TriedParam, Final;
    if segs == [] {
      EmptyLeaves(d, tree, path, verb, params, raw);
    } else {
      LitLeaves(d, tree, path, segs, verb, params, raw);
      var lit := SearchLit(d, tree, path, segs, verb, params, raw);
      if lit.Miss? {
        ParamLeaves(d, tree, path, segs, verb, params, raw);
        var par := SearchParam(d, tree, path, segs, verb, lit.params, lit.raw);
        MinusMinus(params, TriedLit(tree, path, segs), TriedParam(tree, path, segs));
        MinusMinus(raw, TriedLit(tree, path, segs), TriedParam(tree, path, segs));
        if par.Miss? { WildLeaves(d, tree, path, segs, verb, params, raw); }
      }
    }
  }

  lemma MinusMinus(m: Params, a: set<string>, b: set<string>)
    ensures (m - a) - b == m - (a + b)
  {}

  lemma EmptyLeaves(d: Decoder, tree: Tree, path: Path, verb: Method, params: Params, raw: Params)
    requires path in tree
    ensures LeavesBoth(d, tree, path, [], Tried(tree, path, []), params, raw, SearchAt(d, tree, path, [], verb, params, raw))
  {
    assert path[|path|..] == [];
    assert params - {} == params && raw - {} == raw;
  }

  lemma {:induction false} LitLeaves(d: Decoder, tree: Tree, path: Path, segs: seq<string>, verb: Method, params: Params, raw: Params)
    requires path in tree && segs != []
    ensures LeavesBoth(d, tree, path, segs, TriedLit(tree, path, segs), params, raw, SearchLit(d, tree, path, segs, verb, params, raw))
    decreases |segs|, 0
  {
    hide SearchAt, Final, Tried;
    var e := Lit(segs[0]);
    var r := SearchLit(d, tree, path, segs, verb, params, raw);
    assert params - {} == params && raw - {} == raw;
    if path + [e] in tree {
      SearchLeaves(d, tree, path + [e], segs[1..], verb, params, raw);
      if r.Hit? {
        FinalFromBelow(Decoded(d), tree, path, e, r.at, segs, params, params);
        FinalFromBelow(Verbatim(), tree, path, e, r.at, segs, raw, raw);
      }
    }
  }

  /** After the literal child failed. */
  lemma {:induction false} ParamLeaves(d: Decoder, tree: Tree, path: Path, segs: seq<string>, verb: Method, params: Params, raw: Params)
    requires path in tree && segs != []
    ensures var lost := TriedLit(tree, path, segs);
      var r := SearchParam(d, tree, path, segs, verb, params - lost, raw - lost);
      && (r.Miss? ==> r.params == params - lost - TriedParam(tree, path, segs) && r.raw == raw - lost - TriedParam(tree, path, segs))
      && (r.Hit? ==> LeavesBoth(d, tree, path, segs, {}, params, raw, r))
    decreases |segs|, 0
  {
    hide SearchAt, Final, Tried, TriedLit;
    var child, lost := path + [Param], TriedLit(tree, path, segs);
    var before, rawBefore := params - lost, raw - lost;
    assert before - {} == before && rawBefore - {} == rawBefore;
    if child in tree && HasName(tree[path].paramName) && DecodeParam(d, segs[0]).Some? {
      var name := tree[path].paramName.value;
      var b := Binding(name, segs[0], false);
      OneBinding(Decoded(d), before, b);
      OneBinding(Verbatim(), rawBefore, b);
      var below, rawBelow := before[name := Decoded(d)(b)], rawBefore[name := segs[0]];
      SearchLeaves(d, tree, child, segs[1..], verb, below, rawBelow);
      var inner := SearchAt(d, tree, child, segs[1..], verb, below, rawBelow);
      var tried := Tried(tree, child, segs[1..]);
      BoundAndLost(before, name, Decoded(d)(b), tried);
      BoundAndLost(rawBefore, name, segs[0], tried);
      if inner.Hit? {
        FinalFromBelow(Decoded(d), tree, path, Param, inner.at, segs, params, below);
        FinalFromBelow(Verbatim(), tree, path, Param, inner.at, segs, raw, rawBelow);
      }
    }
  }

  lemma OneBinding(value: Binding -> string, m: Params, b: Binding)
    ensures BindAll(value, m, [b]) == m[b.name := value(b)]
  {
    assert [b][1..] == [];
  }

  lemma BoundAndLost(m: Params, name: string, value: string, tried: set<string>)
    ensures m[name := value] - tried - {name} == m - ({name} + tried)
  {}

  /** After the other children failed. */
  lemma WildLeaves(d: Decoder, tree: Tree, path: Path, segs: seq<string>, verb: Method, params: Params, raw: Params)
    requires path in tree && segs != []
    ensures var lost := Tried(tree, path, segs);
      LeavesBoth(d, tree, path, segs, lost, params, raw, SearchWild(d, tree, path, segs, verb, params - lost, raw - lost))
  {
    hide Tried;
    var lost := Tried(tree, path, segs);
    var r := SearchWild(d, tree, path, segs, verb, params - lost, raw - lost);
    if r.Hit? {
      var b := Binding(tree[path].wildName.value, Joined(segs), true);
      assert r.at[|path|..] == [Wild];
      OneBinding(Decoded(d), params - lost, b);
      OneBinding(Verbatim(), raw - lost, b);
    }
  }

  // ---- When it is what the pattern binds ----

  lemma {:induction false} BindingsStep(tree: Tree, path: Path, p: Path, segs: seq<string>)
    requires p != [] && segs != [] && path in tree
    ensures Bindings(tree, path, p, segs) ==
      BindingAt(tree, path, p[0], segs) + if p[0].Wild? then [] else Bindings(tree, path + [p[0]], p[1..], segs[1..])
  {}

  /** Every name bound before an edge and lost there is bound again from there on. */
  ghost predicate Keeps(tree: Tree, path: Path, p: Path, segs: seq<string>, bound: set<string>)
    decreases |p|
  {
    p == [] || segs == [] || path !in tree ||
    (&& bound * Lost(tree, path, p[0], segs) <= NamesOf(Bindings(tree, path, p, segs))
     && (p[0].Wild? || Keeps(tree, path + [p[0]], p[1..], segs[1..], bound + NamesOf(BindingAt(tree, path, p[0], segs)))))
  }

  /** The keys of the record. */
  function FinalKeys(tree: Tree, path: Path, p: Path, segs: seq<string>, keys: set<string>): set<string>
    decreases |p|
  {
    if p == [] || segs == [] || path !in tree then keys
    else
      var bound := keys - Lost(tree, path, p[0], segs) + NamesOf(BindingAt(tree, path, p[0], segs));
      if p[0].Wild? then bound else FinalKeys(tree, path + [p[0]], p[1..], segs[1..], bound)
  }

  predicate PartOf(a: Params, b: Params) { forall k :: k in a ==> k in b && a[k] == b[k] }

  lemma {:induction false} BindAllKeys(value: Binding -> string, m: Params, bs: seq<Binding>)
    ensures BindAll(value, m, bs).Keys == m.Keys + NamesOf(bs)
    decreases |bs|
  {
    if bs != [] {
      BindAllKeys(value, m[bs[0].name := value(bs[0])], bs[1..]);
      assert bs == [bs[0]] + bs[1..];
      assert NamesOf(bs) == {bs[0].name} + NamesOf(bs[1..]);
    }
  }

  lemma {:induction false} BindAllGrows(value: Binding -> string, m: Params, n: Params, bs: seq<Binding>)
    requires PartOf(m, n)
    ensures PartOf(BindAll(value, m, bs), BindAll(value, n, bs))
    decreases |bs|
  {
    if bs != [] { BindAllGrows(value, m[bs[0].name := value(bs[0])], n[bs[0].name := value(bs[0])], bs[1..]); }
  }

  lemma {:induction false} BindAllAppends(value: Binding -> string, m: Params, a: seq<Binding>, b: seq<Binding>)
    ensures BindAll(value, m, a + b) == BindAll(value, BindAll(value, m, a), b)
    decreases |a|
  {
    if a == [] {
      assert a + b == b;
    } else {
      assert (a + b)[0] == a[0] && (a + b)[1..] == a[1..] + b;
      BindAllAppends(value, m[a[0].name := value(a[0])], a[1..], b);
    }
  }

  /** What the search leaves is part of what the pattern binds, and never with another value. */
  lemma {:induction false} FinalIsWithin(value: Binding -> string, tree: Tree, path: Path, p: Path, segs: seq<string>, m: Params, n: Params)
    requires PartOf(m, n)
    ensures PartOf(Final(value, tree, path, p, segs, m), BindAll(value, n, Bindings(tree, path, p, segs)))
    ensures Final(value, tree, path, p, segs, m).Keys == FinalKeys(tree, path, p, segs, m.Keys)
    decreases |p|
  {
    hide BindAll, Bindings, Lost, BindingAt, NamesOf;
    if p == [] || segs == [] || path !in tree {
      NoBindings(value, tree, path, p, segs, n);
    } else {
      var lost, b := Lost(tree, path, p[0], segs), BindingAt(tree, path, p[0], segs);
      BindingsStep(tree, path, p, segs);
      assert (m - lost).Keys == m.Keys - lost && PartOf(m - lost, n);
      BindAllKeys(value, m - lost, b);
      BindAllGrows(value, m - lost, n, b);
      if p[0].Wild? {
        assert b + [] == b;
      } else {
        BindAllAppends(value, n, b, Bindings(tree, path + [p[0]], p[1..], segs[1..]));
        FinalIsWithin(value, tree, path + [p[0]], p[1..], segs[1..], BindAll(value, m - lost, b), BindAll(value, n, b));
      }
    }
  }

  lemma NoBindings(value: Binding -> string, tree: Tree, path: Path, p: Path, segs: seq<string>, n: Params)
    requires p == [] || segs == [] || path !in tree
    ensures Bindings(tree, path, p, segs) == [] && BindAll(value, n, []) == n && NamesOf([]) == {}
  {}

  lemma NamesOfSum(a: seq<Binding>, b: seq<Binding>)
    ensures NamesOf(a + b) == NamesOf(a) + NamesOf(b)
  {
    assert forall x :: x in a + b <==> x in a || x in b;
  }

  /** Names the rest binds anyway make no difference. */
  lemma {:induction false} KeepsAlsoOwn(tree: Tree, path: Path, p: Path, segs: seq<string>, x: set<string>, y: set<string>)
    requires Keeps(tree, path, p, segs, x) && y <= x + NamesOf(Bindings(tree, path, p, segs))
    ensures Keeps(tree, path, p, segs, y)
    decreases |p|
  {
    hide Bindings, Lost, BindingAt, NamesOf;
    if p != [] && segs != [] && path in tree && !p[0].Wild? {
      var b, rest := BindingAt(tree, path, p[0], segs), Bindings(tree, path + [p[0]], p[1..], segs[1..]);
      BindingsStep(tree, path, p, segs);
      NamesOfSum(b, rest);
      KeepsAlsoOwn(tree, path + [p[0]], p[1..], segs[1..], x + NamesOf(b), y + NamesOf(b));
    }
  }

  lemma {:induction false} FinalKeysAtMost(tree: Tree, path: Path, p: Path, segs: seq<string>, keys: set<string>)
    ensures FinalKeys(tree, path, p, segs, keys) <= keys + NamesOf(Bindings(tree, path, p, segs))
    decreases |p|
  {
    hide Bindings, Lost, BindingAt, NamesOf;
    if p != [] && segs != [] && path in tree {
      var b := BindingAt(tree, path, p[0], segs);
      BindingsStep(tree, path, p, segs);
      if p[0].Wild? {
        assert b + [] == b;
      } else {
        NamesOfSum(b, Bindings(tree, path + [p[0]], p[1..], segs[1..]));
        FinalKeysAtMost(tree, path + [p[0]], p[1..], segs[1..], keys - Lost(tree, path, p[0], segs) + NamesOf(b));
      }
    }
  }

  lemma LostOrBoundAgain(keys: set<string>, lost: set<string>, b: set<string>, rest: set<string>)
    ensures keys * lost <= b + rest ==> keys + (b + rest) <= keys - lost + b + rest
    ensures keys + (b + rest) <= keys - lost + b + rest ==> keys + b <= keys - lost + b + rest
    ensures keys + b <= keys - lost + b + rest ==> keys * lost <= b + rest
  {
    if keys * lost <= b + rest {
      forall k | k in keys + (b + rest) ensures k in keys - lost + b + rest {
        if k in keys && k in lost { assert k in keys * lost; }
      }
    }
    if keys + (b + rest) <= keys - lost + b + rest {
      forall k | k in keys + b ensures k in keys - lost + b + rest { assert k in keys + (b + rest); }
    }
    if keys + b <= keys - lost + b + rest {
      forall k | k in keys * lost ensures k in b + rest { assert k in keys + b && k !in keys - lost; }
    }
  }

  lemma {:induction false} KeepsIff(tree: Tree, path: Path, p: Path, segs: seq<string>, keys: set<string>)
    ensures keys + NamesOf(Bindings(tree, path, p, segs)) <= FinalKeys(tree, path, p, segs, keys) <==> Keeps(tree, path, p, segs, keys)
    decreases |p|
  {
    hide Bindings, Lost, BindingAt, NamesOf;
    if p == [] || segs == [] || path !in tree {
      NoBindings(Verbatim(), tree, path, p, segs, map[]);
    } else {
      var lost, b := Lost(tree, path, p[0], segs), BindingAt(tree, path, p[0], segs);
      BindingsStep(tree, path, p, segs);
      if p[0].Wild? {
        assert b + [] == b;
      } else {
        var next, rest := path + [p[0]], Bindings(tree, path + [p[0]], p[1..], segs[1..]);
        var below, wider := keys - lost + NamesOf(b), keys + NamesOf(b);
        NamesOfSum(b, rest);
        LostOrBoundAgain(keys, lost, NamesOf(b), NamesOf(rest));
        KeepsIff(tree, next, p[1..], segs[1..], below);
        FinalKeysAtMost(tree, next, p[1..], segs[1..], below);
        if Keeps(tree, next, p[1..], segs[1..], below) && wider <= below + NamesOf(rest) {
          KeepsAlsoOwn(tree, next, p[1..], segs[1..], below, wider);
        }
        if Keeps(tree, next, p[1..], segs[1..], wider) {
          KeepsAlsoOwn(tree, next, p[1..], segs[1..], wider, below);
        }
      }
    }
  }

  /** The record after a hit holds exactly what the pattern binds, on top of what was there, if
      and only if every name lost on the way is bound again. */
  lemma FinalIff(value: Binding -> string, tree: Tree, path: Path, p: Path, segs: seq<string>, params: Params)
    ensures Final(value, tree, path, p, segs, params) == BindAll(value, params, Bindings(tree, path, p, segs))
      <==> Keeps(tree, path, p, segs, params.Keys)
  {
    hide Final, Bindings, BindAll, Keeps, FinalKeys;
    FinalIsWithin(value, tree, path, p, segs, params, params);
    BindAllKeys(value, params, Bindings(tree, path, p, segs));
    KeepsIff(tree, path, p, segs, params.Keys);
    FinalKeysAtMost(tree, path, p, segs, params.Keys);
  }
}
