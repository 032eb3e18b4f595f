module RouterModel {
  // The radix router on values: the tree as a table of nodes by the edges that lead to them
  // (packages/core/src/router.ts). The mutable tree is in RouterClass.dfy.

  import opened Options
  import opened RouterPaths

  datatype Method = GET | HEAD | POST | PUT | PATCH | DELETE | OPTIONS

  datatype Route = Route(verb: Method, url: string, handler: string)

  /** How a node hangs below its parent. */
  datatype Edge = Lit(seg: string) | Param | Wild

  type Path = seq<Edge>

  datatype Node = Node(paramName: Option<string>, wildName: Option<string>, routes: map<Method, Route>)

  type Tree = map<Path, Node>

  const BLANK := Node(None, None, map[])

  datatype Table = Table(tree: Tree, statics: map<string, map<Method, Route>>)

  const EMPTY_TABLE := Table(map[[] := BLANK], map[])

  // ---- Registration ----

  predicate IsParam(seg: string) { seg != "" && seg[0] == ':' }

  predicate IsWild(seg: string) { seg != "" && seg[0] == '*' }

  function EdgeOf(seg: string): Edge {
    if IsParam(seg) then Param else if IsWild(seg) then Wild else Lit(seg)
  }

  function NameOf(seg: string): string
    requires seg != ""
  {
    if IsWild(seg) && seg[1..] == "" then "*" else seg[1..]
  }

  /** The edges a URL's segments spell; a wildcard ends the pattern. */
  function EdgesOf(segs: seq<string>): Path {
    if segs == [] then []
    else if IsWild(segs[0]) then [Wild]
    else [EdgeOf(segs[0])] + EdgesOf(segs[1..])
  }

  /** The node with its first parameter or wildcard child named. */
  function Named(n: Node, seg: string): Node {
    if IsParam(seg) then n.(paramName := Some(NameOf(seg)))
    else if IsWild(seg) then n.(wildName := Some(NameOf(seg)))
    else n
  }

  /** The tree with the child for `seg` below `path`, created when missing. */
  function Grow(tree: Tree, path: Path, seg: string): Tree
    requires path in tree
  {
    var child := path + [EdgeOf(seg)];
    if child in tree then tree else tree[path := Named(tree[path], seg)][child := BLANK]
  }

  predicate NameConflict(tree: Tree, path: Path, seg: string)
    requires path in tree
  {
    IsParam(seg) && path + [Param] in tree && tree[path].paramName != Some(NameOf(seg))
  }

  /** The walk of `addRoute`: the tree it leaves, and the node it ends at unless a parameter
      name conflicts on the way. */
  function Walk(tree: Tree, path: Path, segs: seq<string>): (r: (Tree, Option<Path>))
    requires path in tree
    ensures r.1.Some? ==> r.1.value in r.0
    ensures tree.Keys <= r.0.Keys
    decreases |segs|
  {
    if segs == [] then (tree, Some(path))
    else if NameConflict(tree, path, segs[0]) then (tree, None)
    else
      var grown := Grow(tree, path, segs[0]);
      var child := path + [EdgeOf(segs[0])];
      if IsWild(segs[0]) then (grown, Some(child)) else Walk(grown, child, segs[1..])
  }

  datatype Outcome = Added | ParamConflict | Duplicate

  predicate IsStatic(segs: seq<string>) {
    forall seg :: seg in segs ==> !IsParam(seg) && !IsWild(seg)
  }

  function AddStatic(statics: map<string, map<Method, Route>>, key: string, route: Route): map<string, map<Method, Route>> {
    statics[key := (if key in statics then statics[key] else map[])[route.verb := route]]
  }

  function AddRoute(t: Table, route: Route): (r: (Table, Outcome))
    requires [] in t.tree
    ensures [] in r.0.tree
  {
    var segs := SplitPath(route.url);
    var (tree, at) := Walk(t.tree, [], segs);
    if at.None? then (t.(tree := tree), ParamConflict)
    else if route.verb in tree[at.value].routes then (t.(tree := tree), Duplicate)
    else
      var n := tree[at.value];
      (Table(tree[at.value := n.(routes := n.routes[route.verb := route])],
             if IsStatic(segs) then AddStatic(t.statics, NormalizePathname(route.url), route) else t.statics),
       Added)
  }

  // ---- Matching ----

  type Params = map<string, string>

  /** Percent-decoding (None for malformed input) and the `strictParams` option. */
  datatype Decoder = Decoder(decode: string -> Option<string>, strict: bool)

  predicate HasSeparator(s: string) { '/' in s || '\\' in s || '\0' in s }

  function DecodeParam(d: Decoder, seg: string): Option<string> {
    match d.decode(seg)
    case None => None
    case Some(v) => if d.strict && HasSeparator(v) then None else Some(v)
  }

  /** `segs.join("/")` */
  function Joined(segs: seq<string>): string {
    if segs == [] then "" else if |segs| == 1 then segs[0] else segs[0] + "/" + Joined(segs[1..])
  }

  /** Outcome of the search below a node, with the parameter records as it leaves them. */
  datatype Search =
    | Hit(at: Path, params: Params, raw: Params)
    | Miss(params: Params, raw: Params)
    | Malformed

  function SearchLit(d: Decoder, tree: Tree, path: Path, segs: seq<string>, verb: Method, params: Params, raw: Params): Search
    requires segs != []
    decreases |segs|, 0
  {
    if path + [Lit(segs[0])] in tree
    then SearchAt(d, tree, path + [Lit(segs[0])], segs[1..], verb, params, raw)
    else Miss(params, raw)
  }

  function SearchParam(d: Decoder, tree: Tree, path: Path, segs: seq<string>, verb: Method, params: Params, raw: Params): Search
    requires segs != [] && path in tree
    decreases |segs|, 0
  {
    var name := tree[path].paramName;
    if path + [Param] in tree && name.Some? && name.value != "" then
      match DecodeParam(d, segs[0])
      case None => Malformed
      case Some(v) =>
        var r := SearchAt(d, tree, path + [Param], segs[1..], verb, params[name.value := v], raw[name.value := segs[0]]);
        if r.Miss? then Miss(r.params - {name.value}, r.raw - {name.value}) else r
    else Miss(params, raw)
  }

  function SearchWild(d: Decoder, tree: Tree, path: Path, segs: seq<string>, verb: Method, params: Params, raw: Params): Search
    requires path in tree
  {
    var name := tree[path].wildName;
    if path + [Wild] in tree && name.Some? && name.value != "" && verb in tree[path + [Wild]].routes then
      match d.decode(Joined(segs))
      case None => Malformed
      case Some(v) => Hit(path + [Wild], params[name.value := v], raw[name.value := Joined(segs)])
    else Miss(params, raw)
  }

  /** `matchNode`: literal child first, then parameter, then wildcard. */
  function SearchAt(d: Decoder, tree: Tree, path: Path, segs: seq<string>, verb: Method, params: Params, raw: Params): Search
    requires path in tree
    decreases |segs|, 1
  {
    if segs == [] then
      if verb in tree[path].routes then Hit(path, params, raw) else Miss(params, raw)
    else
      var lit := SearchLit(d, tree, path, segs, verb, params, raw);
      if !lit.Miss? then lit else
      var par := SearchParam(d, tree, path, segs, verb, lit.params, lit.raw);
      if !par.Miss? then par else
      SearchWild(d, tree, path, segs, verb, par.params, par.raw)
  }

  datatype MatchResult = NotFound | BadRequest | Found(route: Route, params: Params, raw: Params)

  /** The slow path of `match`: the tree walk alone. */
  function MatchTree(t: Table, d: Decoder, verb: Method, canonical: string): MatchResult
    requires [] in t.tree
  {
    match SearchAt(d, t.tree, [], SplitPath(canonical), verb, map[], map[])
    case Miss(_, _) => NotFound
    case Malformed => BadRequest
    case Hit(at, params, raw) =>
      if at in t.tree && verb in t.tree[at].routes then Found(t.tree[at].routes[verb], params, raw) else NotFound
  }

  /** `match`, with the static-route map in front. */
  function Match(t: Table, d: Decoder, ignoreSlash: bool, verb: Method, pathname: string): MatchResult
    requires [] in t.tree
  {
    match Canonicalize(pathname, ignoreSlash)
    case None => NotFound
    case Some(c) =>
      if c in t.statics && verb in t.statics[c] then Found(t.statics[c][verb], map[], map[])
      else MatchTree(t, d, verb, c)
  }

  // ---- 405 and Allow ----

  function HasPathAt(tree: Tree, path: Path, segs: seq<string>): bool
    requires path in tree
    decreases |segs|
  {
    if segs == [] then tree[path].routes != map[]
    else
      || (path + [Lit(segs[0])] in tree && HasPathAt(tree, path + [Lit(segs[0])], segs[1..]))
      || (path + [Param] in tree && HasPathAt(tree, path + [Param], segs[1..]))
  }

  function MethodsAt(tree: Tree, path: Path, segs: seq<string>): set<Method>
    requires path in tree
    decreases |segs|
  {
    if segs == [] then tree[path].routes.Keys
    else
      (if path + [Lit(segs[0])] in tree then MethodsAt(tree, path + [Lit(segs[0])], segs[1..]) else {})
      + (if path + [Param] in tree then MethodsAt(tree, path + [Param], segs[1..]) else {})
  }

  predicate HasPath(t: Table, ignoreSlash: bool, pathname: string)
    requires [] in t.tree
  {
    match Canonicalize(pathname, ignoreSlash)
    case None => false
    case Some(c) => c in t.statics || HasPathAt(t.tree, [], SplitPath(c))
  }

  const METHOD_ORDER := [GET, HEAD, POST, PUT, PATCH, DELETE, OPTIONS]

  function InOrder(order: seq<Method>, found: set<Method>): seq<Method> {
    if order == [] then []
    else (if order[0] in found then [order[0]] else []) + InOrder(order[1..], found)
  }

  function AllowedMethods(t: Table, ignoreSlash: bool, pathname: string): seq<Method>
    requires [] in t.tree
  {
    match Canonicalize(pathname, ignoreSlash)
    case None => []
    case Some(c) =>
      var found := (if c in t.statics then t.statics[c].Keys else {}) + MethodsAt(t.tree, [], SplitPath(c));
      InOrder(METHOD_ORDER, if GET in found then found + {HEAD} else found)
  }
}
