/** The router's mutable tree (packages/core/src/router.ts), proved against the table of
    RouterModel. */
module RouterClass {
  import opened Options
  import opened RouterPaths
  import opened RouterModel

  class RadixNode {
    ghost const path: Path
    var children: map<string, RadixNode>
    var paramChild: RadixNode?
    var paramName: Option<string>
    var wildcardChild: RadixNode?
    var wildcardName: Option<string>
    var routes: map<Method, Route>

    constructor (ghost path: Path)
      ensures this.path == path && children == map[] && paramChild == null && wildcardChild == null && View() == BLANK
    {
      this.path := path;
      children, paramChild, wildcardChild := map[], null, null;
      paramName, wildcardName, routes := None, None, map[];
    }

    /** Point the edge of a segment at a child, which is named if a parameter or wildcard. */
    method Link(seg: string, child: RadixNode)
      modifies this
      ensures View() == Named(old(View()), seg)
      ensures NodeLinks(children, paramChild, wildcardChild) == Hang(old(NodeLinks(children, paramChild, wildcardChild)), EdgeOf(seg), child)
    {
      if IsParam(seg) {
        paramChild, paramName := child, Some(NameOf(seg));
      } else if IsWild(seg) {
        wildcardChild, wildcardName := child, Some(NameOf(seg));
      } else {
        children := children[seg := child];
      }
    }

    function View(): Node reads this { Node(paramName, wildcardName, routes) }
  }

  /** The parameter records one `match` call fills in. */
  class Record {
    var params: Params
    var raw: Params

    constructor ()
      ensures params == map[] && raw == map[]
    {
      params, raw := map[], map[];
    }
  }

  class MethodSet {
    var found: set<Method>

    constructor ()
      ensures found == {}
    {
      found := {};
    }
  }

  lemma ParamStep(d: Decoder, tree: Tree, path: Path, segs: seq<string>, verb: Method, params: Params, raw: Params)
    requires segs != [] && path in tree
    ensures var name := tree[path].paramName;
      SearchParam(d, tree, path, segs, verb, params, raw) ==
        if path + [Param] !in tree || name.None? || name.value == "" then Miss(params, raw)
        else if DecodeParam(d, segs[0]).None? then Malformed
        else
          var r := SearchAt(d, tree, path + [Param], segs[1..], verb,
            params[name.value := DecodeParam(d, segs[0]).value], raw[name.value := segs[0]]);
          if r.Miss? then Miss(r.params - {name.value}, r.raw - {name.value}) else r
  {
    hide DecodeParam, SearchAt;
  }

  /** The links of a node lead to the nodes one edge further, and to nothing else. */
  ghost predicate Links(nodes: map<Path, RadixNode>, p: Path, children: map<string, RadixNode>, param: RadixNode?, wild: RadixNode?) {
    && (forall s :: s in children <==> p + [Lit(s)] in nodes)
    && (forall s :: s in children ==> children[s] == nodes[p + [Lit(s)]])
    && (if p + [Param] in nodes then param == nodes[p + [Param]] else param == null)
    && (if p + [Wild] in nodes then wild == nodes[p + [Wild]] else wild == null)
  }

  ghost predicate Closed(nodes: map<Path, RadixNode>) {
    [] in nodes && forall p :: p in nodes && p != [] ==> p[..|p| - 1] in nodes
  }

  lemma SameEdge(p: Path, e: Edge, q: Path, f: Edge)
    ensures p + [e] == q + [f] <==> p == q && e == f
  {
    if p + [e] == q + [f] {
      assert (p + [e])[..|p|] == p && (q + [f])[..|q|] == q;
      assert (p + [e])[|p|] == e && (q + [f])[|q|] == f;
    }
  }

  /** A new node changes the links of its parent only. */
  lemma LinksKept(nodes: map<Path, RadixNode>, at: Path, e: Edge, child: RadixNode,
                  p: Path, children: map<string, RadixNode>, param: RadixNode?, wild: RadixNode?)
    requires Links(nodes, p, children, param, wild) && p != at
    ensures Links(nodes[at + [e] := child], p, children, param, wild)
  {
    forall f ensures p + [f] != at + [e] { SameEdge(p, f, at, e); }
  }

  lemma LinksOfNew(nodes: map<Path, RadixNode>, at: Path, e: Edge, child: RadixNode)
    requires Closed(nodes) && at + [e] !in nodes
    ensures Links(nodes[at + [e] := child], at + [e], map[], null, null)
  {
    var p := at + [e];
    forall f ensures p + [f] !in nodes[p := child] {
      assert (p + [f])[..|p + [f]| - 1] == p;
      assert |p + [f]| == |p| + 1;
    }
  }

  lemma LinksOfParent(nodes: map<Path, RadixNode>, at: Path, e: Edge, child: RadixNode,
                      children: map<string, RadixNode>, param: RadixNode?, wild: RadixNode?)
    requires Links(nodes, at, children, param, wild)
    ensures Links(nodes[at + [e] := child], at,
      if e.Lit? then children[e.seg := child] else children, if e.Param? then child else param, if e.Wild? then child else wild)
  {
    forall f ensures at + [f] == at + [e] <==> f == e { SameEdge(at, f, at, e); }
  }

  lemma RootLinks(root: RadixNode)
    ensures Closed(map[[] := root]) && Links(map[[] := root], [], map[], null, null)
  {
    forall e: Edge ensures [] + [e] !in map[[] := root] { assert |[] + [e]| == 1; }
  }

  datatype NodeLinks = NodeLinks(children: map<string, RadixNode>, param: RadixNode?, wild: RadixNode?)

  /** A node's links once a child hangs on edge `e`. */
  function Hang(links: NodeLinks, e: Edge, child: RadixNode): NodeLinks {
    match e
    case Lit(s) => links.(children := links.children[s := child])
    case Param => links.(param := child)
    case Wild => links.(wild := child)
  }

  class Router {
    const root: RadixNode
    var staticRoutes: map<string, map<Method, Route>>
    const ignoreTrailingSlash: bool
    const decoder: Decoder
    /** Every node of the tree, by the edges that lead to it. */
    ghost var nodes: map<Path, RadixNode>

    ghost predicate Linked(p: Path)
      requires p in nodes
      reads this, nodes[p]
    {
      nodes[p].path == p && Links(nodes, p, nodes[p].children, nodes[p].paramChild, nodes[p].wildcardChild)
    }

    ghost predicate Valid()
      reads this, nodes.Values
    {
      && Closed(nodes) && nodes[[]] == root
      && (forall p :: p in nodes ==> nodes[p] in nodes.Values && Linked(p))
    }

    ghost function Tree(): (tree: RouterModel.Tree)
      reads this, nodes.Values
      ensures tree.Keys == nodes.Keys
    {
      map p | p in nodes :: assert nodes[p] in nodes.Values; nodes[p].View()
    }

    ghost function Table(): RouterModel.Table
      reads this, nodes.Values
    {
      RouterModel.Table(Tree(), staticRoutes)
    }

    constructor (ignoreTrailingSlash: bool, decoder: Decoder)
      ensures Valid() && Table() == EMPTY_TABLE && fresh(nodes.Values)
      ensures this.ignoreTrailingSlash == ignoreTrailingSlash && this.decoder == decoder
    {
      this.ignoreTrailingSlash, this.decoder := ignoreTrailingSlash, decoder;
      staticRoutes := map[];
      root := new RadixNode([]);
      nodes := map[];
      new;
      nodes := map[[] := root];
      hide Valid, Table;
      Started();
    }

    lemma Started()
      requires nodes == map[[] := root] && staticRoutes == map[]
      requires root.path == [] && root.View() == BLANK
      requires root.children == map[] && root.paramChild == null && root.wildcardChild == null
      ensures Valid() && Table() == EMPTY_TABLE && nodes.Values == {root}
    {
      hide Links, Closed;
      RootLinks(root);
      assert nodes[[]] == root && nodes.Values == {root};
      assert Linked([]);
      ViewAt([]);
      assert Tree() == map[[] := BLANK];
    }

    ghost function Shapes(): (r: map<Path, NodeLinks>)
      reads this, nodes.Values
      ensures r.Keys == nodes.Keys && forall p :: p in nodes ==> r[p] == Shape(p)
    {
      map p | p in nodes :: assert nodes[p] in nodes.Values; Shape(p)
    }

    ghost function Shape(p: Path): NodeLinks
      requires p in nodes
      reads this, nodes[p]
    {
      NodeLinks(nodes[p].children, nodes[p].paramChild, nodes[p].wildcardChild)
    }

    /** A new child hung below `at` leaves every link right. */
    lemma Adopted(before: map<Path, RadixNode>, shapes: map<Path, NodeLinks>, at: Path, e: Edge, child: RadixNode)
      requires Closed(before) && at in before && before[[]] == root && before.Keys == shapes.Keys
      requires forall p :: p in before ==> Links(before, p, shapes[p].children, shapes[p].param, shapes[p].wild)
      requires at + [e] !in before && nodes == before[at + [e] := child]
      requires forall p :: p in before ==> nodes[p].path == p && (p != at ==> Shape(p) == shapes[p])
      requires Shape(at) == Hang(shapes[at], e, child)
      requires child.path == at + [e] && Shape(at + [e]) == NodeLinks(map[], null, null)
      ensures Valid()
    {
      hide Links;
      assert at + [e] != [] && (at + [e])[..|at + [e]| - 1] == at;
      forall p | p in nodes ensures nodes[p] in nodes.Values && Linked(p) {
        if p == at + [e] {
          LinksOfNew(before, at, e, child);
        } else if p == at {
          LinksOfParent(before, at, e, child, shapes[at].children, shapes[at].param, shapes[at].wild);
        } else {
          LinksKept(before, at, e, child, p, shapes[p].children, shapes[p].param, shapes[p].wild);
        }
      }
    }

    lemma NodeAt(p: Path)
      requires Valid() && p in nodes
      ensures nodes[p] in nodes.Values && nodes[p].path == p
      ensures forall s {:trigger s in nodes[p].children} ::
        (s in nodes[p].children <==> p + [Lit(s)] in nodes) &&
        (s in nodes[p].children ==> nodes[p].children[s] == nodes[p + [Lit(s)]])
      ensures if p + [Param] in nodes then nodes[p].paramChild == nodes[p + [Param]] else nodes[p].paramChild == null
      ensures if p + [Wild] in nodes then nodes[p].wildcardChild == nodes[p + [Wild]] else nodes[p].wildcardChild == null
    {
      assert Linked(p);
    }

    lemma Unfold()
      requires Valid()
      ensures Closed(nodes) && nodes[[]] == root
      ensures forall p :: p in nodes ==>
        nodes[p].path == p && Links(nodes, p, Shape(p).children, Shape(p).param, Shape(p).wild)
    {
      hide Links, Closed;
      forall p | p in nodes ensures nodes[p].path == p && Links(nodes, p, Shape(p).children, Shape(p).param, Shape(p).wild) {
        assert Linked(p);
      }
    }

    lemma Alone(at: Path)
      requires Valid() && at in nodes
      ensures forall p :: p in nodes && p != at ==> nodes[p] != nodes[at]
    {
      NodeAt(at);
      forall p | p in nodes && p != at ensures nodes[p] != nodes[at] { NodeAt(p); }
    }

    lemma TreeGrows(tree: RouterModel.Tree, at: Path, e: Edge, seg: string)
      requires at in tree && at + [e] !in tree && nodes.Keys == tree.Keys + {at + [e]}
      requires forall p :: p in tree ==> nodes[p].View() == if p == at then Named(tree[at], seg) else tree[p]
      requires nodes[at + [e]].View() == BLANK
      ensures Tree() == tree[at := Named(tree[at], seg)][at + [e] := BLANK]
    {
      hide Named;
    }

    /** A new, named child. */
    method Attach(node: RadixNode, ghost at: Path, seg: string) returns (child: RadixNode)
      requires Valid() && at in nodes && nodes[at] == node && at + [EdgeOf(seg)] !in nodes
      modifies this`nodes, node
      ensures Valid() && Tree() == Grow(old(Tree()), at, seg)
      ensures fresh(child) && nodes == old(nodes)[at + [EdgeOf(seg)] := child]
    {
      hide Closed, Links, Named, EdgeOf, Hang, Valid, Shapes;
      ghost var e, before, shapes := EdgeOf(seg), nodes, Shapes();
      ghost var tree := Tree();
      Unfold();
      Alone(at);
      child := new RadixNode(at + [e]);
      node.Link(seg, child);
      nodes := nodes[at + [e] := child];
      assert forall p :: p in before && p != at ==> nodes[p] == before[p] && nodes[p] != node && nodes[p] != child;
      Adopted(before, shapes, at, e, child);
      TreeGrows(tree, at, e, seg);
    }

    /** The child for a segment, created and named when missing. */
    method Descend(node: RadixNode, ghost at: Path, seg: string) returns (child: RadixNode)
      requires Valid() && at in nodes && nodes[at] == node && !NameConflict(Tree(), at, seg)
      modifies this`nodes, node
      ensures Valid() && Tree() == Grow(old(Tree()), at, seg)
      ensures at + [EdgeOf(seg)] in nodes && nodes[at + [EdgeOf(seg)]] == child
      ensures forall p :: p in old(nodes) ==> p in nodes && nodes[p] == old(nodes)[p]
      ensures forall p :: p in nodes && p !in old(nodes) ==> fresh(nodes[p])
    {
      hide Closed, Links, Valid, Tree;
      NodeAt(at);
      if IsParam(seg) && node.paramChild != null {
        child := node.paramChild;
      } else if IsWild(seg) && node.wildcardChild != null {
        child := node.wildcardChild;
      } else if !IsParam(seg) && !IsWild(seg) && seg in node.children {
        child := node.children[seg];
      } else {
        child := Attach(node, at, seg);
      }
    }

    lemma ViewAt(p: Path)
      requires p in nodes
      ensures p in Tree() && Tree()[p] == nodes[p].View()
    {}

    lemma RootIn()
      requires Valid()
      ensures [] in nodes && nodes[[]] == root
    {}

    method SetRoute(node: RadixNode, ghost at: Path, route: Route)
      requires Valid() && at in nodes && nodes[at] == node
      modifies node`routes
      ensures Valid() && Tree() == old(Tree())[at := old(Tree())[at].(routes := old(Tree())[at].routes[route.verb := route])]
    {
      hide Links, Closed;
      Alone(at);
      forall p | p in nodes ensures Linked(p) {}
      node.routes := node.routes[route.verb := route];
      forall p | p in nodes ensures Linked(p) {}
    }

    lemma ConflictSeen(p: Path, seg: string)
      requires Valid() && p in nodes
      ensures p in Tree()
      ensures NameConflict(Tree(), p, seg) <==>
        IsParam(seg) && nodes[p].paramChild != null && nodes[p].paramName != Some(NameOf(seg))
    {
      hide Valid;
      NodeAt(p);
      ViewAt(p);
    }

    lemma WalkOn(tree: RouterModel.Tree, at: Path, rest: seq<string>)
      requires at in tree && rest != [] && !NameConflict(tree, at, rest[0])
      ensures at + [EdgeOf(rest[0])] in Grow(tree, at, rest[0])
      ensures Walk(tree, at, rest) == if IsWild(rest[0]) then (Grow(tree, at, rest[0]), Some(at + [EdgeOf(rest[0])]))
        else Walk(Grow(tree, at, rest[0]), at + [EdgeOf(rest[0])], rest[1..])
    {}

    /** The loop of `addRoute` over the segments; null when it throws. */
    method FindOrCreate(segments: seq<string>) returns (node: RadixNode?, isStatic: bool, ghost at: Path)
      requires Valid()
      modifies this`nodes, nodes.Values
      ensures Valid() && [] in old(Tree())
      ensures Walk(old(Tree()), [], segments) == (Tree(), if node == null then None else Some(at))
      ensures node != null ==> at in nodes && nodes[at] == node && isStatic == IsStatic(segments)
      ensures forall p :: p in old(nodes) ==> p in nodes && nodes[p] == old(nodes)[p]
      ensures forall p :: p in nodes && p !in old(nodes) ==> fresh(nodes[p])
    {
      hide Valid, Tree, Walk, NameConflict, Grow, EdgeOf;
      RootIn();
      ghost var before := Tree();
      node, isStatic, at := root, true, [];
      var i := 0;
      while i < |segments|
        invariant 0 <= i <= |segments| && Valid() && at in nodes && nodes[at] == node
        invariant isStatic == IsStatic(segments[..i])
        invariant forall p :: p in old(nodes) ==> p in nodes && nodes[p] == old(nodes)[p]
        invariant forall p :: p in nodes && p !in old(nodes) ==> fresh(nodes[p])
        invariant Walk(before, [], segments) == Walk(Tree(), at, segments[i..])
      {
        var seg := segments[i];
        assert segments[i..][0] == seg && segments[i..][1..] == segments[i + 1..];
        assert segments[..i + 1] == segments[..i] + [seg];
        ConflictSeen(at, seg);
        if IsParam(seg) && node.paramChild != null && node.paramName != Some(NameOf(seg)) {
          WalkStops(Tree(), at, segments[i..]);
          return null, false, at;
        }
        WalkOn(Tree(), at, segments[i..]);
        isStatic := isStatic && !IsParam(seg) && !IsWild(seg);
        node := Descend(node, at, seg);
        at := at + [EdgeOf(seg)];
        i := i + 1;
        if IsWild(seg) {
          assert seg in segments;
          return;
        }
      }
      assert segments[..|segments|] == segments && segments[i..] == [];
      WalkEnds(Tree(), at);
    }

    lemma WalkStops(tree: RouterModel.Tree, at: Path, rest: seq<string>)
      requires at in tree && rest != [] && NameConflict(tree, at, rest[0])
      ensures Walk(tree, at, rest) == (tree, None)
    {}

    lemma WalkEnds(tree: RouterModel.Tree, at: Path)
      requires at in tree
      ensures Walk(tree, at, []) == (tree, Some(at))
    {}

    method SetStatic(key: string, route: Route)
      requires Valid()
      modifies this`staticRoutes
      ensures Valid() && Tree() == old(Tree()) && staticRoutes == AddStatic(old(staticRoutes), key, route)
    {
      hide Links, Closed;
      forall p | p in nodes ensures Linked(p) {}
      staticRoutes := AddStatic(staticRoutes, key, route);
      forall p | p in nodes ensures Linked(p) {}
    }

    /** `addRoute`; an outcome other than Added is the source's thrown error. */
    method AddRoute(route: Route) returns (outcome: Outcome)
      requires Valid()
      modifies this, nodes.Values
      ensures Valid() && [] in old(Tree())
      ensures (Table(), outcome) == RouterModel.AddRoute(old(Table()), route)
      ensures forall p :: p in nodes && p !in old(nodes) ==> fresh(nodes[p])
    {
      hide SplitPath, NormalizePathname, Valid, Tree, Walk, IsStatic, AddStatic;
      var segments := SplitPath(route.url);
      var node, isStatic, at := FindOrCreate(segments);
      if node == null {
        return ParamConflict;
      }
      ViewAt(at);
      if route.verb in node.routes {
        return Duplicate;
      }
      assert at in old(nodes) ==> old(nodes)[at] in old(nodes).Values;
      SetRoute(node, at, route);
      if isStatic {
        SetStatic(NormalizePathname(route.url), route);
      }
      return Added;
    }

    // ---- Requests ----

    /** What a call of `matchNode` leaves: the node found or null, and the records; a segment
        that does not decode throws. */
    ghost predicate Reports(search: Search, found: RadixNode?, malformed: bool, params: Params, raw: Params)
      reads this
    {
      match search
      case Hit(p, ps, rs) => !malformed && p in nodes && found == nodes[p] && params == ps && raw == rs
      case Miss(ps, rs) => !malformed && found == null && params == ps && raw == rs
      case Malformed => malformed
    }

    /** `matchNode`, literal child */
    method MatchLiteral(node: RadixNode, ghost at: Path, segments: seq<string>, index: nat, record: Record, verb: Method)
      returns (found: RadixNode?, malformed: bool)
      requires Valid() && at in nodes && nodes[at] == node && index < |segments|
      modifies record
      ensures at in Tree()
      ensures Reports(SearchLit(decoder, Tree(), at, segments[index..], verb, old(record.params), old(record.raw)),
                      found, malformed, record.params, record.raw)
      decreases |segments| - index, 0
    {
      hide Valid, Tree, SearchAt;
      ViewAt(at);
      NodeAt(at);
      assert segments[index..][0] == segments[index] && segments[index..][1..] == segments[index + 1..];
      if segments[index] !in node.children { return null, false; }
      found, malformed := MatchNode(node.children[segments[index]], at + [Lit(segments[index])], segments, index + 1, record, verb);
    }

    /** `matchNode`, parameter child: a binding that does not lead anywhere is deleted again. */
    method MatchParam(node: RadixNode, ghost at: Path, segments: seq<string>, index: nat, record: Record, verb: Method)
      returns (found: RadixNode?, malformed: bool)
      requires Valid() && at in nodes && nodes[at] == node && index < |segments|
      modifies record
      ensures at in Tree()
      ensures Reports(SearchParam(decoder, Tree(), at, segments[index..], verb, old(record.params), old(record.raw)),
                      found, malformed, record.params, record.raw)
      decreases |segments| - index, 0
    {
      hide Valid, Tree, SearchAt, SearchParam, DecodeParam;
      ViewAt(at);
      NodeAt(at);
      ParamStep(decoder, Tree(), at, segments[index..], verb, record.params, record.raw);
      assert segments[index..][0] == segments[index] && segments[index..][1..] == segments[index + 1..];
      if node.paramChild == null || node.paramName.None? || node.paramName.value == "" { return null, false; }
      var seg, name := segments[index], node.paramName.value;
      var decoded := DecodeParam(decoder, seg);
      if decoded.None? { return null, true; }
      record.params := record.params[name := decoded.value];
      record.raw := record.raw[name := seg];
      found, malformed := MatchNode(node.paramChild, at + [Param], segments, index + 1, record, verb);
      if malformed || found != null { return; }
      record.params := record.params - {name};
      record.raw := record.raw - {name};
    }

    /** `matchNode`, wildcard child */
    method MatchWildcard(node: RadixNode, ghost at: Path, segments: seq<string>, index: nat, record: Record, verb: Method)
      returns (found: RadixNode?, malformed: bool)
      requires Valid() && at in nodes && nodes[at] == node && index < |segments|
      modifies record
      ensures at in Tree()
      ensures Reports(SearchWild(decoder, Tree(), at, segments[index..], verb, old(record.params), old(record.raw)),
                      found, malformed, record.params, record.raw)
    {
      hide Valid, Tree, Joined;
      ViewAt(at);
      NodeAt(at);
      if node.wildcardChild == null || node.wildcardName.None? || node.wildcardName.value == "" { return null, false; }
      ViewAt(at + [Wild]);
      if verb !in node.wildcardChild.routes { return null, false; }
      var raw := Joined(segments[index..]);
      var decoded := decoder.decode(raw);
      if decoded.None? { return null, true; }
      record.params := record.params[node.wildcardName.value := decoded.value];
      record.raw := record.raw[node.wildcardName.value := raw];
      return node.wildcardChild, false;
    }

    /** `matchNode`: literal, then parameter, then wildcard, updating the records in place. */
    method MatchNode(node: RadixNode, ghost at: Path, segments: seq<string>, index: nat, record: Record, verb: Method)
      returns (found: RadixNode?, malformed: bool)
      requires Valid() && at in nodes && nodes[at] == node && index <= |segments|
      modifies record
      ensures at in Tree()
      ensures Reports(SearchAt(decoder, Tree(), at, segments[index..], verb, old(record.params), old(record.raw)),
                      found, malformed, record.params, record.raw)
      decreases |segments| - index, 1
    {
      hide Valid, Tree, SearchLit, SearchParam, SearchWild;
      ViewAt(at);
      if index >= |segments| {
        assert segments[index..] == [];
        found, malformed := if verb in node.routes then node else null, false;
        return;
      }
      found, malformed := MatchLiteral(node, at, segments, index, record, verb);
      if malformed || found != null { return; }
      found, malformed := MatchParam(node, at, segments, index, record, verb);
      if malformed || found != null { return; }
      found, malformed := MatchWildcard(node, at, segments, index, record, verb);
    }

    /** `match` */
    method Match(verb: Method, pathname: string) returns (r: MatchResult)
      requires Valid()
      ensures [] in Tree() && r == RouterModel.Match(Table(), decoder, ignoreTrailingSlash, verb, pathname)
    {
      hide Valid, Tree, Canonicalize, SplitPath, SearchAt;
      RootIn();
      var canonical := Canonicalize(pathname, ignoreTrailingSlash);
      if canonical.None? { return NotFound; }
      if canonical.value in staticRoutes && verb in staticRoutes[canonical.value] {
        return Found(staticRoutes[canonical.value][verb], map[], map[]);
      }
      var segments := SplitPath(canonical.value);
      var record := new Record();
      assert segments[0..] == segments;
      var found, malformed := MatchNode(root, [], segments, 0, record, verb);
      if malformed { return BadRequest; }
      if found == null { return NotFound; }
      ghost var search := SearchAt(decoder, Tree(), [], segments, verb, map[], map[]);
      ViewAt(search.at);
      if verb !in found.routes { return NotFound; }
      return Found(found.routes[verb], record.params, record.raw);
    }

    /** `_hasPath` */
    method HasPathBelow(node: RadixNode, ghost at: Path, segments: seq<string>, index: nat) returns (r: bool)
      requires Valid() && at in nodes && nodes[at] == node && index <= |segments|
      ensures at in Tree() && r == HasPathAt(Tree(), at, segments[index..])
      decreases |segments| - index
    {
      hide Valid, Tree;
      ViewAt(at);
      NodeAt(at);
      if index >= |segments| { return |node.routes| > 0; }
      var seg := segments[index];
      assert segments[index..][0] == seg && segments[index..][1..] == segments[index + 1..];
      if seg in node.children {
        var below := HasPathBelow(node.children[seg], at + [Lit(seg)], segments, index + 1);
        if below { return true; }
      }
      if node.paramChild != null {
        var below := HasPathBelow(node.paramChild, at + [Param], segments, index + 1);
        if below { return true; }
      }
      return false;
    }

    /** `hasPath` */
    method HasPath(pathname: string) returns (r: bool)
      requires Valid()
      ensures [] in Tree() && r == RouterModel.HasPath(Table(), ignoreTrailingSlash, pathname)
    {
      hide Valid, Tree, Canonicalize, SplitPath, HasPathAt;
      RootIn();
      var canonical := Canonicalize(pathname, ignoreTrailingSlash);
      if canonical.None? { return false; }
      if canonical.value in staticRoutes { return true; }
      var segments := SplitPath(canonical.value);
      assert segments[0..] == segments;
      r := HasPathBelow(root, [], segments, 0);
    }

    /** `_collectMethods` */
    method CollectMethods(node: RadixNode, ghost at: Path, segments: seq<string>, index: nat, out: MethodSet)
      requires Valid() && at in nodes && nodes[at] == node && index <= |segments|
      modifies out
      ensures at in Tree() && out.found == old(out.found) + MethodsAt(Tree(), at, segments[index..])
      decreases |segments| - index
    {
      hide Valid, Tree;
      ViewAt(at);
      NodeAt(at);
      if index >= |segments| {
        out.found := out.found + node.routes.Keys;
        return;
      }
      var seg := segments[index];
      assert segments[index..][0] == seg && segments[index..][1..] == segments[index + 1..];
      if seg in node.children {
        CollectMethods(node.children[seg], at + [Lit(seg)], segments, index + 1, out);
      }
      if node.paramChild != null {
        CollectMethods(node.paramChild, at + [Param], segments, index + 1, out);
      }
    }

    /** `allowedMethods` */
    method AllowedMethods(pathname: string) returns (r: seq<Method>)
      requires Valid()
      ensures [] in Tree() && r == RouterModel.AllowedMethods(Table(), ignoreTrailingSlash, pathname)
    {
      hide Valid, Tree, Canonicalize, SplitPath, MethodsAt, InOrder;
      RootIn();
      var canonical := Canonicalize(pathname, ignoreTrailingSlash);
      if canonical.None? { return []; }
      var out := new MethodSet();
      if canonical.value in staticRoutes {
        out.found := out.found + staticRoutes[canonical.value].Keys;
      }
      var segments := SplitPath(canonical.value);
      assert segments[0..] == segments;
      CollectMethods(root, [], segments, 0, out);
      assert out.found == (if canonical.value in staticRoutes then staticRoutes[canonical.value].Keys else {}) + MethodsAt(Tree(), [], segments);
      if GET in out.found { out.found := out.found + {HEAD}; }
      r := InOrder(METHOD_ORDER, out.found);
    }
  }
}
