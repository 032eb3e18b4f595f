module CacheKey {
  // Response-cache keys: a canonical, injective encoding of a request, and the parser that
  // undoes it for invalidation (packages/cache/src/response-cache.ts).

  import opened Options

  /** A request as the key generator sees it; `query` is the decoded parameter list. */
  datatype Request = Request(verb: string, scheme: string, host: string, path: string,
                             query: seq<(string, string)>, headers: map<string, string>)

  /** `keep` is the `queryParams` allow-list; `vary` the represented headers, in order;
      `encode` is `encodeURIComponent`. */
  datatype Config = Config(prefix: string, vary: seq<string>, keep: Option<set<string>>, encode: string -> string)

  predicate Avoids(s: string, chars: string) {
    forall i :: 0 <= i < |s| ==> s[i] !in chars
  }

  /** What the URL parser guarantees of a request. */
  ghost predicate WellFormed(r: Request) {
    && Avoids(r.verb, ":|#?") && r.scheme != "" && Avoids(r.scheme, ":/|#?") && Avoids(r.host, "/|#?")
    && r.path != "" && r.path[0] == '/' && Avoids(r.path, "#?")
  }

  /** `encodeURIComponent` is injective and emits no separator; header names hold none. */
  ghost predicate Faithful(c: Config) {
    && (forall a, b {:trigger c.encode(a), c.encode(b)} :: c.encode(a) == c.encode(b) ==> a == b)
    && (forall s :: Avoids(c.encode(s), "|=&?#"))
    && (forall i :: 0 <= i < |c.vary| ==> Avoids(c.vary[i], "|=#"))
  }

  // ---- Query normalisation ----

  /** `a < b` on strings, by code unit. */
  predicate Less(a: string, b: string) {
    b != "" && (a == "" || a[0] < b[0] || (a[0] == b[0] && Less(a[1..], b[1..])))
  }

  predicate Kept(keep: Option<set<string>>, name: string) { keep.None? || name in keep.value }

  function Filtered(keep: Option<set<string>>, ps: seq<(string, string)>): seq<(string, string)> {
    if ps == [] then []
    else (if Kept(keep, ps[0].0) then [ps[0]] else []) + Filtered(keep, ps[1..])
  }

  /** Put a parameter before the first one whose name is not smaller. */
  function Insert(p: (string, string), ps: seq<(string, string)>): seq<(string, string)> {
    if ps == [] || !Less(ps[0].0, p.0) then [p] + ps else [ps[0]] + Insert(p, ps[1..])
  }

  /** The stable sort by name. */
  function Sorted(ps: seq<(string, string)>): seq<(string, string)> {
    if ps == [] then [] else Insert(ps[0], Sorted(ps[1..]))
  }

  function Pair(c: Config, p: (string, string)): string { c.encode(p.0) + "=" + c.encode(p.1) }

  function JoinPairs(c: Config, ps: seq<(string, string)>): string {
    if ps == [] then "" else if |ps| == 1 then Pair(c, ps[0]) else Pair(c, ps[0]) + "&" + JoinPairs(c, ps[1..])
  }

  /** `normalizeSearch` */
  function NormalizeSearch(c: Config, query: seq<(string, string)>): string {
    var params := Filtered(c.keep, query);
    if params == [] then "" else "?" + JoinPairs(c, Sorted(params))
  }

  // ---- The key ----

  function Authority(r: Request): string { r.scheme + "//" + r.host }

  /** A request line with the given search text. */
  function Line(r: Request, search: string): string {
    r.verb + ":" + Authority(r) + ":" + r.path + search
  }

  /** `defaultKeyGenerator` */
  function Readable(c: Config, r: Request): string {
    Line(r, NormalizeSearch(c, r.query))
  }

  function HeaderValue(r: Request, name: string): string {
    if name in r.headers then r.headers[name] else ""
  }

  function Partition(c: Config, name: string, r: Request): string {
    name + "=" + c.encode(HeaderValue(r, name))
  }

  /** The eager partitions, in the order of the represented headers. */
  function Partitions(c: Config, names: seq<string>, r: Request): string {
    if names == [] then ""
    else Partitions(c, names[..|names| - 1], r) + "|" + Partition(c, names[|names| - 1], r)
  }

  /** The verbatim key; one over the length budget is hashed, outside this model. */
  function Plain(c: Config, r: Request): string {
    c.prefix + Readable(c, r) + Partitions(c, c.vary, r)
  }

  // ---- Sorting is a normal form ----

  /** The values of one name, in order. */
  function Values(ps: seq<(string, string)>, name: string): seq<string> {
    if ps == [] then [] else (if ps[0].0 == name then [ps[0].1] else []) + Values(ps[1..], name)
  }

  lemma {:induction false} LessIsTotal(a: string, b: string)
    ensures Less(a, b) || Less(b, a) || a == b
    ensures !(Less(a, b) && Less(b, a)) && !Less(a, a)
    decreases |a|
  {
    if a != "" && b != "" && a[0] == b[0] {
      LessIsTotal(a[1..], b[1..]);
      assert a == [a[0]] + a[1..] && b == [b[0]] + b[1..];
    }
    if a != "" { LessIsTotal(a[1..], a[1..]); }
  }

  lemma {:induction false} LessIsTransitive(a: string, b: string, d: string)
    requires Less(a, b) && Less(b, d)
    ensures Less(a, d)
    decreases |a|
  {
    if a != "" && a[0] == b[0] && b[0] == d[0] { LessIsTransitive(a[1..], b[1..], d[1..]); }
  }

  ghost predicate InOrder(ps: seq<(string, string)>) {
    forall i :: 0 <= i < |ps| - 1 ==> !Less(ps[i + 1].0, ps[i].0)
  }

  lemma {:induction false} InsertKeepsValues(p: (string, string), ps: seq<(string, string)>, name: string)
    ensures Values(Insert(p, ps), name) == (if p.0 == name then [p.1] else []) + Values(ps, name)
  {
    if !(ps == [] || !Less(ps[0].0, p.0)) {
      InsertKeepsValues(p, ps[1..], name);
      LessIsTotal(ps[0].0, p.0);
      assert ([ps[0]] + Insert(p, ps[1..]))[1..] == Insert(p, ps[1..]);
    } else {
      assert ([p] + ps)[1..] == ps;
    }
  }

  lemma {:induction false} SortKeepsValues(ps: seq<(string, string)>, name: string)
    ensures Values(Sorted(ps), name) == Values(ps, name)
  {
    if ps != [] {
      SortKeepsValues(ps[1..], name);
      InsertKeepsValues(ps[0], Sorted(ps[1..]), name);
    }
  }

  lemma {:induction false} InsertKeepsOrder(p: (string, string), ps: seq<(string, string)>)
    requires InOrder(ps)
    ensures InOrder(Insert(p, ps))
    ensures Insert(p, ps)[0] == p || (ps != [] && Insert(p, ps)[0] == ps[0])
  {
    var r := Insert(p, ps);
    if !(ps == [] || !Less(ps[0].0, p.0)) {
      LessIsTotal(ps[0].0, p.0);
      InsertKeepsOrder(p, ps[1..]);
      assert r[1..] == Insert(p, ps[1..]);
      forall i | 0 <= i < |r| - 1 ensures !Less(r[i + 1].0, r[i].0) {
        if i > 0 { assert r[i] == r[1..][i - 1] && r[i + 1] == r[1..][i]; }
      }
    } else {
      forall i | 0 <= i < |r| - 1 ensures !Less(r[i + 1].0, r[i].0) {
        if i > 0 { assert r[i] == ps[i - 1] && r[i + 1] == ps[i]; }
      }
    }
  }

  lemma {:induction false} SortGivesOrder(ps: seq<(string, string)>)
    ensures InOrder(Sorted(ps))
  {
    if ps != [] {
      SortGivesOrder(ps[1..]);
      InsertKeepsOrder(ps[0], Sorted(ps[1..]));
    }
  }

  /** Nothing smaller than the head of a sorted list is in it. */
  lemma {:induction false} HeadIsSmallest(ps: seq<(string, string)>, name: string)
    requires InOrder(ps) && ps != [] && Less(name, ps[0].0)
    ensures Values(ps, name) == []
    decreases |ps|
  {
    LessIsTotal(name, ps[0].0);
    if |ps| > 1 {
      LessIsTotal(ps[0].0, ps[1].0);
      if ps[0].0 != ps[1].0 { LessIsTransitive(name, ps[0].0, ps[1].0); }
      assert forall i :: 0 <= i < |ps[1..]| - 1 ==> ps[1..][i] == ps[i + 1];
      HeadIsSmallest(ps[1..], name);
    }
  }

  lemma ValuesStep(ps: seq<(string, string)>, name: string)
    requires ps != []
    ensures ps[0].0 == name ==> |Values(ps, name)| > 0 && Values(ps[1..], name) == Values(ps, name)[1..]
    ensures ps[0].0 != name ==> Values(ps[1..], name) == Values(ps, name)
  {
    var rest := Values(ps[1..], name);
    assert ([ps[0].1] + rest)[1..] == rest && [] + rest == rest;
  }

  lemma SomeName(ps: seq<(string, string)>) returns (name: string)
    ensures ps != [] ==> |Values(ps, name)| > 0
  {
    name := if ps == [] then "" else ps[0].0;
  }

  /** Sorted lists with the same values for every name are equal. */
  lemma {:induction false} SortedIsDetermined(ps: seq<(string, string)>, qs: seq<(string, string)>)
    requires InOrder(ps) && InOrder(qs) && forall name :: Values(ps, name) == Values(qs, name)
    ensures ps == qs
    decreases |ps|
  {
    if ps == [] {
      var name := SomeName(qs);
      assert Values(ps, name) == Values(qs, name);
    } else {
      var a := ps[0].0;
      assert Values(ps, a) != [] && Values(qs, a) != [];
      var b := qs[0].0;
      assert Values(qs, b) != [] && Values(ps, b) != [];
      LessIsTotal(a, b);
      if Less(a, b) { HeadIsSmallest(qs, a); }
      if Less(b, a) { HeadIsSmallest(ps, b); }
      assert a == b && Values(ps, a)[0] == ps[0].1 && Values(qs, a)[0] == qs[0].1;
      forall name ensures Values(ps[1..], name) == Values(qs[1..], name) {
        assert Values(ps, name) == Values(qs, name);
        ValuesStep(ps, name);
        ValuesStep(qs, name);
      }
      assert InOrder(ps[1..]) && InOrder(qs[1..]);
      SortedIsDetermined(ps[1..], qs[1..]);
      assert ps == [ps[0]] + ps[1..] && qs == [qs[0]] + qs[1..];
    }
  }

  /** The stable name sort is a normal form: it identifies exactly the queries that agree on
      each name's ordered values. */
  lemma SortIsNormalForm(ps: seq<(string, string)>, qs: seq<(string, string)>)
    ensures Sorted(ps) == Sorted(qs) <==> forall name :: Values(ps, name) == Values(qs, name)
  {
    SortGivesOrder(ps);
    SortGivesOrder(qs);
    if forall name :: Values(ps, name) == Values(qs, name) {
      forall name ensures Values(Sorted(ps), name) == Values(Sorted(qs), name) {
        SortKeepsValues(ps, name);
        SortKeepsValues(qs, name);
      }
      SortedIsDetermined(Sorted(ps), Sorted(qs));
    } else {
      var name :| Values(ps, name) != Values(qs, name);
      SortKeepsValues(ps, name);
      SortKeepsValues(qs, name);
    }
  }

  lemma {:induction false} FilterKeepsValues(keep: Option<set<string>>, ps: seq<(string, string)>, name: string)
    ensures Values(Filtered(keep, ps), name) == if Kept(keep, name) then Values(ps, name) else []
  {
    if ps != [] {
      FilterKeepsValues(keep, ps[1..], name);
      if Kept(keep, ps[0].0) {
        assert ([ps[0]] + Filtered(keep, ps[1..]))[1..] == Filtered(keep, ps[1..]);
      } else {
        assert [] + Filtered(keep, ps[1..]) == Filtered(keep, ps[1..]);
      }
    }
  }

  // ---- Cutting at separators ----

  /** Two texts cut at their first separator. */
  lemma CutAtFirst(a: string, b: string, x: string, y: string, c: char)
    requires c !in a && c !in x && a + [c] + b == x + [c] + y
    ensures a == x && b == y
  {
    var s := a + [c] + b;
    assert s[|a|] == c && s[|x|] == c;
    assert forall i :: 0 <= i < |a| ==> s[i] == a[i];
    assert forall i :: 0 <= i < |x| ==> s[i] == x[i];
    assert |a| == |x|;
    assert a == s[..|a|] && x == s[..|x|] && b == s[|a| + 1..] && y == s[|x| + 1..];
  }

  lemma NoCut(s: string, a: string, b: string, c: char)
    requires c !in s
    ensures s != a + [c] + b
  {
    assert (a + [c] + b)[|a|] == c;
  }

  /** Two texts cut at their last separator. */
  lemma CutAtLast(a: string, b: string, x: string, y: string, c: char)
    requires c !in b && c !in y && a + [c] + b == x + [c] + y
    ensures a == x && b == y
  {
    var s := a + [c] + b;
    assert s[|a|] == c && s[|x|] == c;
    assert forall i :: |a| < i < |s| ==> s[i] == b[i - |a| - 1];
    assert forall i :: |x| < i < |s| ==> s[i] == y[i - |x| - 1];
    assert |a| == |x|;
    assert a == s[..|a|] && x == s[..|x|] && b == s[|a| + 1..] && y == s[|x| + 1..];
  }

  // ---- The key is injective ----

  lemma NotIn(s: string, chars: string, c: char)
    requires Avoids(s, chars) && c in chars
    ensures c !in s
  {}

  lemma PairIsInjective(c: Config, p: (string, string), q: (string, string))
    requires Faithful(c) && Pair(c, p) == Pair(c, q)
    ensures p == q
  {
    NotIn(c.encode(p.0), "|=&?#", '=');
    NotIn(c.encode(q.0), "|=&?#", '=');
    CutAtFirst(c.encode(p.0), c.encode(p.1), c.encode(q.0), c.encode(q.1), '=');
  }

  lemma PairAvoids(c: Config, p: (string, string))
    requires Faithful(c)
    ensures Avoids(Pair(c, p), "|&?#")
  {
    assert Avoids(c.encode(p.0), "|=&?#") && Avoids(c.encode(p.1), "|=&?#");
  }

  lemma {:induction false} JoinIsInjective(c: Config, ps: seq<(string, string)>, qs: seq<(string, string)>)
    requires Faithful(c) && ps != [] && qs != [] && JoinPairs(c, ps) == JoinPairs(c, qs)
    ensures ps == qs
    decreases |ps|
  {
    hide Pair, Faithful;
    PairAvoids(c, ps[0]);
    PairAvoids(c, qs[0]);
    var p, q := Pair(c, ps[0]), Pair(c, qs[0]);
    NotIn(p, "|&?#", '&');
    NotIn(q, "|&?#", '&');
    NoCut(p, q, JoinPairs(c, qs[1..]), '&');
    NoCut(q, p, JoinPairs(c, ps[1..]), '&');
    if |ps| == 1 && |qs| == 1 {
      PairIsInjective(c, ps[0], qs[0]);
      assert ps == [ps[0]] && qs == [qs[0]];
    } else if |ps| > 1 && |qs| > 1 {
      CutAtFirst(p, JoinPairs(c, ps[1..]), q, JoinPairs(c, qs[1..]), '&');
      PairIsInjective(c, ps[0], qs[0]);
      JoinIsInjective(c, ps[1..], qs[1..]);
      assert ps == [ps[0]] + ps[1..] && qs == [qs[0]] + qs[1..];
    }
  }

  lemma {:induction false} JoinAvoids(c: Config, ps: seq<(string, string)>)
    requires Faithful(c)
    ensures Avoids(JoinPairs(c, ps), "|?#")
    decreases |ps|
  {
    hide Pair, Faithful;
    if ps != [] {
      PairAvoids(c, ps[0]);
      if |ps| > 1 { JoinAvoids(c, ps[1..]); }
    }
  }

  /** Every name keeps the same ordered list of values. */
  ghost predicate SameQuery(c: Config, a: Request, b: Request) {
    forall name :: Kept(c.keep, name) ==> Values(a.query, name) == Values(b.query, name)
  }

  lemma SortedFilterIsCanonical(c: Config, a: Request, b: Request)
    ensures Sorted(Filtered(c.keep, a.query)) == Sorted(Filtered(c.keep, b.query)) <==> SameQuery(c, a, b)
  {
    hide Filtered, Sorted, Values, Kept;
    var p, q := Filtered(c.keep, a.query), Filtered(c.keep, b.query);
    SortIsNormalForm(p, q);
    if SameQuery(c, a, b) {
      forall name ensures Values(p, name) == Values(q, name) {
        FilterKeepsValues(c.keep, a.query, name);
        FilterKeepsValues(c.keep, b.query, name);
      }
    } else {
      var name :| Kept(c.keep, name) && Values(a.query, name) != Values(b.query, name);
      FilterKeepsValues(c.keep, a.query, name);
      FilterKeepsValues(c.keep, b.query, name);
    }
  }

  lemma SearchIsCanonical(c: Config, a: Request, b: Request)
    requires Faithful(c)
    ensures NormalizeSearch(c, a.query) == NormalizeSearch(c, b.query) <==> SameQuery(c, a, b)
  {
    hide Faithful, SameQuery, Filtered, Sorted, JoinPairs;
    var p, q := Filtered(c.keep, a.query), Filtered(c.keep, b.query);
    SortedFilterIsCanonical(c, a, b);
    SortedIsEmpty(p);
    SortedIsEmpty(q);
    var sa, sb := NormalizeSearch(c, a.query), NormalizeSearch(c, b.query);
    if sa == sb && p != [] {
      assert JoinPairs(c, Sorted(p)) == sa[1..] && JoinPairs(c, Sorted(q)) == sb[1..];
      JoinIsInjective(c, Sorted(p), Sorted(q));
    }
  }

  lemma SortedIsEmpty(ps: seq<(string, string)>)
    ensures Sorted(ps) == [] <==> ps == []
  {}

  predicate IsSearch(s: string) { s == "" || s[0] == '?' }

  lemma SearchStarts(c: Config, query: seq<(string, string)>)
    ensures IsSearch(NormalizeSearch(c, query))
  {}

  function AfterScheme(r: Request, search: string): string {
    "/" + r.host + ":" + r.path + search
  }

  lemma LineShape(r: Request, search: string)
    ensures Line(r, search) == r.verb + [':'] + (r.scheme + ['/'] + AfterScheme(r, search))
  {}

  /** Lines are equal only if method, scheme, host, path and search text are. */
  lemma LineIsInjective(a: Request, sa: string, b: Request, sb: string)
    requires WellFormed(a) && WellFormed(b) && IsSearch(sa) && IsSearch(sb) && Line(a, sa) == Line(b, sb)
    ensures a.verb == b.verb && a.scheme == b.scheme && a.host == b.host && a.path == b.path && sa == sb
  {
    hide Line;
    LineShape(a, sa);
    LineShape(b, sb);
    NotIn(a.verb, ":|#?", ':');
    NotIn(b.verb, ":|#?", ':');
    CutAtFirst(a.verb, a.scheme + ['/'] + AfterScheme(a, sa), b.verb, b.scheme + ['/'] + AfterScheme(b, sb), ':');
    NotIn(a.scheme, ":/|#?", '/');
    NotIn(b.scheme, ":/|#?", '/');
    CutAtFirst(a.scheme, AfterScheme(a, sa), b.scheme, AfterScheme(b, sb), '/');
    HostCuts(a, sa, b, sb);
    PathCuts(a, sa, b, sb);
  }

  lemma HostCuts(a: Request, sa: string, b: Request, sb: string)
    requires WellFormed(a) && WellFormed(b)
    requires "/" + a.host + ":" + a.path + sa == "/" + b.host + ":" + b.path + sb
    ensures a.host == b.host && a.path + sa == b.path + sb
  {
    var ua, ub := a.host + ":" + a.path + sa, b.host + ":" + b.path + sb;
    assert ua == ("/" + a.host + ":" + a.path + sa)[1..] && ub == ("/" + b.host + ":" + b.path + sb)[1..];
    assert a.path == "/" + a.path[1..] && b.path == "/" + b.path[1..];
    NotIn(a.host, "/|#?", '/');
    NotIn(b.host, "/|#?", '/');
    assert ua == (a.host + ":") + ['/'] + (a.path[1..] + sa) && ub == (b.host + ":") + ['/'] + (b.path[1..] + sb);
    CutAtFirst(a.host + ":", a.path[1..] + sa, b.host + ":", b.path[1..] + sb, '/');
    assert a.path + sa == "/" + (a.path[1..] + sa) && b.path + sb == "/" + (b.path[1..] + sb);
    assert a.host == (a.host + ":")[..|a.host|] && b.host == (b.host + ":")[..|b.host|];
  }

  lemma PathCuts(a: Request, sa: string, b: Request, sb: string)
    requires WellFormed(a) && WellFormed(b) && a.path + sa == b.path + sb
    requires (sa == "" || sa[0] == '?') && (sb == "" || sb[0] == '?')
    ensures a.path == b.path && sa == sb
  {
    NotIn(a.path, "#?", '?');
    NotIn(b.path, "#?", '?');
    assert a.path + "" == a.path && b.path + "" == b.path;
    if sa != "" {
      assert a.path + sa == a.path + ['?'] + sa[1..];
      NoCut(b.path, a.path, sa[1..], '?');
    }
    if sb != "" {
      assert b.path + sb == b.path + ['?'] + sb[1..];
      NoCut(a.path, b.path, sb[1..], '?');
    }
    if sa != "" && sb != "" {
      CutAtFirst(a.path, sa[1..], b.path, sb[1..], '?');
      assert sa == "?" + sa[1..] && sb == "?" + sb[1..];
    }
  }

  lemma PartitionAvoids(c: Config, i: nat, r: Request)
    requires Faithful(c) && i < |c.vary|
    ensures '|' !in Partition(c, c.vary[i], r)
  {
    var v := c.encode(HeaderValue(r, c.vary[i]));
    assert Avoids(c.vary[i], "|=#") && Avoids(v, "|=&?#");
    NotIn(c.vary[i], "|=#", '|');
    NotIn(v, "|=&?#", '|');
  }

  lemma PartitionsStep(c: Config, names: seq<string>, r: Request, x: string)
    requires names != []
    ensures x + Partitions(c, names, r) == x + Partitions(c, names[..|names| - 1], r) + ['|'] + Partition(c, names[|names| - 1], r)
  {
    hide Partition;
    var front, last := Partitions(c, names[..|names| - 1], r), Partition(c, names[|names| - 1], r);
    assert Partitions(c, names, r) == front + "|" + last;
    assert x + (front + "|" + last) == x + front + ['|'] + last;
  }

  lemma PartitionIsInjective(c: Config, name: string, a: Request, b: Request)
    requires Faithful(c) && Partition(c, name, a) == Partition(c, name, b)
    ensures HeaderValue(a, name) == HeaderValue(b, name)
  {
    var va, vb := c.encode(HeaderValue(a, name)), c.encode(HeaderValue(b, name));
    assert va == Partition(c, name, a)[|name| + 1..] && vb == Partition(c, name, b)[|name| + 1..];
  }

  /** Partitions are cut off again from the right, whatever stands before them. */
  lemma {:induction false} PartitionsAreInjective(c: Config, names: seq<string>, x: string, a: Request, y: string, b: Request)
    requires Faithful(c) && names <= c.vary && x + Partitions(c, names, a) == y + Partitions(c, names, b)
    ensures x == y && forall i :: 0 <= i < |names| ==> HeaderValue(a, names[i]) == HeaderValue(b, names[i])
    decreases |names|
  {
    hide Faithful, Partition, Partitions;
    if names == [] {
      PartitionsOfNone(c, a);
      PartitionsOfNone(c, b);
      assert x + "" == x && y + "" == y;
    } else {
      var n := |names| - 1;
      var front, last := names[..n], names[n];
      PartitionAvoids(c, n, a);
      PartitionAvoids(c, n, b);
      PartitionsStep(c, names, a, x);
      PartitionsStep(c, names, b, y);
      CutAtLast(x + Partitions(c, front, a), Partition(c, last, a), y + Partitions(c, front, b), Partition(c, last, b), '|');
      PartitionIsInjective(c, last, a, b);
      PartitionsAreInjective(c, front, x, a, y, b);
    }
  }

  lemma PartitionsOfNone(c: Config, r: Request)
    ensures Partitions(c, [], r) == ""
  {}

  /** Two requests share a verbatim key exactly when they agree on method, scheme, host, path,
      every represented header, and each represented query name's ordered values. */
  lemma KeyIsCanonical(c: Config, a: Request, b: Request)
    requires Faithful(c) && WellFormed(a) && WellFormed(b)
    ensures Plain(c, a) == Plain(c, b) <==>
      (a.verb == b.verb && a.scheme == b.scheme && a.host == b.host && a.path == b.path && SameQuery(c, a, b)
       && forall i :: 0 <= i < |c.vary| ==> HeaderValue(a, c.vary[i]) == HeaderValue(b, c.vary[i]))
  {
    hide Faithful, Line, NormalizeSearch, SameQuery, Partitions;
    SearchIsCanonical(c, a, b);
    if Plain(c, a) == Plain(c, b) {
      assert Plain(c, a)[|c.prefix|..] == Readable(c, a) + Partitions(c, c.vary, a);
      assert Plain(c, b)[|c.prefix|..] == Readable(c, b) + Partitions(c, c.vary, b);
      PartitionsAreInjective(c, c.vary, Readable(c, a), a, Readable(c, b), b);
      SearchStarts(c, a.query);
      SearchStarts(c, b.query);
      LineIsInjective(a, NormalizeSearch(c, a.query), b, NormalizeSearch(c, b.query));
    }
    if a.verb == b.verb && a.scheme == b.scheme && a.host == b.host && a.path == b.path && SameQuery(c, a, b)
      && forall i :: 0 <= i < |c.vary| ==> HeaderValue(a, c.vary[i]) == HeaderValue(b, c.vary[i])
    {
      SameHeadersSamePartitions(c, c.vary, a, b);
      SameLineSameReadable(c, a, b);
    }
  }

  lemma {:induction false} SameHeadersSamePartitions(c: Config, names: seq<string>, a: Request, b: Request)
    requires forall i :: 0 <= i < |names| ==> HeaderValue(a, names[i]) == HeaderValue(b, names[i])
    ensures Partitions(c, names, a) == Partitions(c, names, b)
  {
    if names != [] { SameHeadersSamePartitions(c, names[..|names| - 1], a, b); }
  }

  lemma SameLineSameReadable(c: Config, a: Request, b: Request)
    requires a.verb == b.verb && a.scheme == b.scheme && a.host == b.host && a.path == b.path
    requires NormalizeSearch(c, a.query) == NormalizeSearch(c, b.query)
    ensures Readable(c, a) == Readable(c, b)
  {}

  // ---- Invalidation ----

  /** `s.indexOf(c)`, or the length. */
  function IndexOf(s: string, c: char): (i: nat)
    ensures i <= |s| && (i < |s| ==> s[i] == c) && forall j :: 0 <= j < i ==> s[j] != c
  {
    if s == "" || s[0] == c then 0 else 1 + IndexOf(s[1..], c)
  }

  /** `s.split(c, 1)[0]` */
  function UpTo(s: string, c: char): string { s[..IndexOf(s, c)] }

  /** `s.indexOf(text)`, or the length. */
  function IndexOfText(s: string, text: string): (i: nat)
    ensures i <= |s| && (i < |s| ==> text <= s[i..]) && forall j :: 0 <= j < i ==> !(text <= s[j..])
  {
    if s == "" || text <= s then
      assert s[0..] == s;
      0
    else
      var i := IndexOfText(s[1..], text);
      assert forall j :: 0 < j <= |s| ==> s[1..][j - 1..] == s[j..];
      assert s[0..] == s;
      1 + i
  }

  /** The request parts of a stored key; absent ones are null in the source. */
  datatype KeyBase = KeyBase(verb: Option<string>, authority: Option<string>, path: string)

  function SplitBase(base: string): KeyBase {
    var separator := IndexOf(base, ':');
    if separator == |base| then KeyBase(None, None, base)
    else
      var rest := base[separator + 1..];
      var pathStart := IndexOfText(rest, ":/");
      if pathStart == |rest| then KeyBase(Some(base[..separator]), None, rest)
      else KeyBase(Some(base[..separator]), Some(rest[..pathStart]), rest[pathStart + 1..])
  }

  const HASH_MARKER := "#sha256="

  /** The readable base of a stored key; a hashed entry may carry its full one. */
  function BaseOf(rest: string, storedBase: Option<string>): string {
    var marker := IndexOfText(rest, HASH_MARKER);
    if marker < |rest| && storedBase.Some? then storedBase.value else UpTo(rest[..marker], '|')
  }

  predicate HitsBase(base: string, target: string) {
    base == target ||
    var parsed := SplitBase(base);
    && parsed.verb.Some? && parsed.authority.Some?
    && var path := if '?' in target then parsed.path else UpTo(parsed.path, '?');
    (parsed.verb.value + ":" + parsed.authority.value + ":" + path == target || parsed.verb.value + ":" + path == target)
  }

  /** `invalidate(target)` deletes the stored key. */
  predicate Hits(prefix: string, candidate: string, storedBase: Option<string>, target: string) {
    prefix <= candidate && HitsBase(BaseOf(candidate[|prefix|..], storedBase), target)
  }

  lemma IndexOfIs(s: string, a: string, b: string, c: char)
    requires s == a + [c] + b && c !in a
    ensures IndexOf(s, c) == |a| && UpTo(s, c) == a
  {
    var i := IndexOf(s, c);
    assert s[|a|] == c;
    assert forall j :: 0 <= j < |a| ==> s[j] == a[j];
  }

  lemma UpToNone(s: string, c: char)
    requires c !in s
    ensures UpTo(s, c) == s
  {}

  lemma AuthorityEnds(r: Request, search: string)
    requires WellFormed(r)
    ensures var rest := Authority(r) + ":" + r.path + search; IndexOfText(rest, ":/") == |Authority(r)|
  {
    var a := Authority(r);
    var rest := a + ":" + r.path + search;
    assert rest[|a|..] == ":" + r.path + search && rest[|a|..][..2] == ":/";
    NotIn(r.scheme, ":/|#?", ':');
    NotIn(r.host, "/|#?", '/');
    forall j | 0 <= j < |a| ensures !(":/" <= rest[j..]) {
      assert rest[j] == a[j] && rest[j..][0] == rest[j];
      if j < |a| - 1 { assert rest[j..][1] == a[j + 1]; } else { assert rest[j..][1] == ':'; }
      if j < |r.scheme| {
        assert a[j] == r.scheme[j];
      } else if j >= |r.scheme| + 2 && j + 1 < |a| {
        assert a[j + 1] == r.host[j + 1 - |r.scheme| - 2];
      }
    }
  }

  /** The parser undoes the generator. */
  lemma SplitUndoesLine(r: Request, search: string)
    requires WellFormed(r)
    ensures SplitBase(Line(r, search)) == KeyBase(Some(r.verb), Some(Authority(r)), r.path + search)
  {
    hide Authority, IndexOf, IndexOfText;
    var rest := Authority(r) + ":" + r.path + search;
    NotIn(r.verb, ":|#?", ':');
    assert Line(r, search) == r.verb + [':'] + rest;
    IndexOfIs(Line(r, search), r.verb, rest, ':');
    assert Line(r, search)[..|r.verb|] == r.verb && Line(r, search)[|r.verb| + 1..] == rest;
    AuthorityEnds(r, search);
    assert rest[..|Authority(r)|] == Authority(r) && rest[|Authority(r)| + 1..] == r.path + search;
  }

  lemma AvoidsBoth(a: string, b: string, chars: string)
    ensures Avoids(a + b, chars) <==> Avoids(a, chars) && Avoids(b, chars)
  {
    forall i | 0 <= i < |a + b| ensures (a + b)[i] == if i < |a| then a[i] else b[i - |a|] {}
    if Avoids(a + b, chars) {
      forall i | 0 <= i < |a| ensures a[i] !in chars { assert a[i] == (a + b)[i]; }
      forall i | 0 <= i < |b| ensures b[i] !in chars { assert b[i] == (a + b)[|a| + i]; }
    }
  }

  lemma AvoidsFewer(s: string, chars: string, fewer: string)
    requires Avoids(s, chars) && forall c :: c in fewer ==> c in chars
    ensures Avoids(s, fewer)
  {}

  lemma SearchAvoids(c: Config, query: seq<(string, string)>)
    requires Faithful(c)
    ensures Avoids(NormalizeSearch(c, query), "|#")
  {
    hide Faithful, JoinPairs, Sorted, Filtered;
    var params := Filtered(c.keep, query);
    if params != [] {
      JoinAvoids(c, Sorted(params));
      AvoidsFewer(JoinPairs(c, Sorted(params)), "|?#", "|#");
      AvoidsBoth("?", JoinPairs(c, Sorted(params)), "|#");
    }
  }

  lemma LineAvoids(r: Request, search: string, chars: string)
    requires WellFormed(r) && chars in ["|#", "#"] && Avoids(r.path, chars) && Avoids(search, chars)
    ensures Avoids(Line(r, search), chars)
  {
    AvoidsFewer(r.verb, ":|#?", chars);
    AvoidsFewer(r.scheme, ":/|#?", chars);
    AvoidsFewer(r.host, "/|#?", chars);
    assert Avoids(":", chars) && Avoids("//", chars);
    hide Avoids;
    AvoidsBoth(r.scheme, "//", chars);
    AvoidsBoth(r.scheme + "//", r.host, chars);
    AvoidsBoth(r.verb, ":", chars);
    AvoidsBoth(r.verb + ":", Authority(r), chars);
    AvoidsBoth(r.verb + ":" + Authority(r), ":", chars);
    AvoidsBoth(r.verb + ":" + Authority(r) + ":", r.path, chars);
    AvoidsBoth(r.verb + ":" + Authority(r) + ":" + r.path, search, chars);
  }

  lemma PlainSeparators()
    ensures Avoids("=", "#") && Avoids("|", "#")
  {}

  lemma {:induction false} PartitionsAvoid(c: Config, names: seq<string>, r: Request)
    requires Faithful(c) && names <= c.vary
    ensures Avoids(Partitions(c, names, r), "#") && (Partitions(c, names, r) == "" || Partitions(c, names, r)[0] == '|')
  {
    if names != [] {
      var n := |names| - 1;
      var front, v := Partitions(c, names[..n], r), c.encode(HeaderValue(r, names[n]));
      PartitionsAvoid(c, names[..n], r);
      assert Avoids(c.vary[n], "|=#") && Avoids(v, "|=&?#");
      hide Faithful;
      AvoidsFewer(names[n], "|=#", "#");
      AvoidsFewer(v, "|=&?#", "#");
      PlainSeparators();
      hide Avoids;
      AvoidsBoth(names[n], "=", "#");
      AvoidsBoth(names[n] + "=", v, "#");
      AvoidsBoth(front, "|", "#");
      AvoidsBoth(front + "|", Partition(c, names[n], r), "#");
    }
  }

  lemma NoMarker(s: string)
    requires Avoids(s, "#")
    ensures IndexOfText(s, HASH_MARKER) == |s|
  {
    NotIn(s, "#", '#');
    assert HASH_MARKER[0] == '#';
    forall i | 0 <= i < |s| ensures !(HASH_MARKER <= s[i..]) { assert s[i..][0] == s[i] && s[i] in s; }
  }

  lemma NoMarkerInKey(c: Config, r: Request)
    requires Faithful(c) && WellFormed(r)
    ensures var rest := Readable(c, r) + Partitions(c, c.vary, r); IndexOfText(rest, HASH_MARKER) == |rest|
  {
    hide Faithful, Line, NormalizeSearch, Partitions, IndexOfText;
    SearchAvoids(c, r.query);
    AvoidsFewer(NormalizeSearch(c, r.query), "|#", "#");
    AvoidsFewer(r.path, "#?", "#");
    LineAvoids(r, NormalizeSearch(c, r.query), "#");
    PartitionsAvoid(c, c.vary, r);
    AvoidsBoth(Readable(c, r), Partitions(c, c.vary, r), "#");
    NoMarker(Readable(c, r) + Partitions(c, c.vary, r));
  }

  lemma UpToBar(base: string, tail: string)
    requires '|' !in base && (tail == "" || tail[0] == '|')
    ensures UpTo(base + tail, '|') == base
  {
    if tail == "" {
      assert base + tail == base;
      UpToNone(base, '|');
    } else {
      assert base + tail == base + ['|'] + tail[1..];
      IndexOfIs(base + tail, base, tail[1..], '|');
    }
  }

  /** The base of a verbatim entry is what stands before its first `|`. */
  lemma BaseIsUpToBar(c: Config, r: Request, storedBase: Option<string>)
    requires Faithful(c) && WellFormed(r)
    ensures c.prefix <= Plain(c, r)
    ensures BaseOf(Plain(c, r)[|c.prefix|..], storedBase) == UpTo(Readable(c, r) + Partitions(c, c.vary, r), '|')
  {
    hide Faithful, Readable, Partitions, WellFormed, UpTo, IndexOfText;
    var rest := Readable(c, r) + Partitions(c, c.vary, r);
    assert Plain(c, r)[|c.prefix|..] == rest && rest[..|rest|] == rest;
    NoMarkerInKey(c, r);
  }

  /** The base of a verbatim entry is its whole request line when the path holds no `|`. */
  lemma BaseOfVerbatim(c: Config, r: Request, storedBase: Option<string>)
    requires Faithful(c) && WellFormed(r) && '|' !in r.path
    ensures c.prefix <= Plain(c, r) && BaseOf(Plain(c, r)[|c.prefix|..], storedBase) == Readable(c, r)
  {
    assert Avoids(r.path, "|#");
    hide Faithful, Line, NormalizeSearch, Partitions, WellFormed, UpTo, BaseOf, Plain;
    BaseIsUpToBar(c, r, storedBase);
    SearchAvoids(c, r.query);
    LineAvoids(r, NormalizeSearch(c, r.query), "|#");
    PartitionsAvoid(c, c.vary, r);
    NotIn(Readable(c, r), "|#", '|');
    UpToBar(Readable(c, r), Partitions(c, c.vary, r));
  }

  /** The part of a request before the first `|` of its path. */
  function CutPath(r: Request): Request { r.(path := UpTo(r.path, '|')) }

  lemma CutPathIsWellFormed(r: Request)
    requires WellFormed(r) && '|' in r.path
    ensures WellFormed(CutPath(r)) && Avoids(CutPath(r).path, "|#") && |CutPath(r).path| < |r.path|
    ensures r.path == CutPath(r).path + "|" + r.path[|CutPath(r).path| + 1..]
  {
    var i := IndexOf(r.path, '|');
    var k :| 0 <= k < |r.path| && r.path[k] == '|';
    assert i < |r.path| && i > 0;
  }

  /** A `|` in the path cuts the base short. */
  lemma BaseOfBarred(c: Config, r: Request, storedBase: Option<string>)
    requires Faithful(c) && WellFormed(r) && '|' in r.path
    ensures c.prefix <= Plain(c, r) && BaseOf(Plain(c, r)[|c.prefix|..], storedBase) == Line(CutPath(r), "")
  {
    CutPathIsWellFormed(r);
    hide Faithful, Line, NormalizeSearch, Partitions, WellFormed, UpTo, BaseOf, Plain, CutPath, Avoids;
    BaseIsUpToBar(c, r, storedBase);
    var cut := CutPath(r);
    SameButPath(r);
    LineAvoids(cut, "", "|#");
    NotIn(Line(cut, ""), "|#", '|');
    var after := BarSplits(r, cut, NormalizeSearch(c, r.query), Partitions(c, c.vary, r));
    UpToBar(Line(cut, ""), after);
  }

  lemma SameButPath(r: Request)
    ensures CutPath(r).verb == r.verb && CutPath(r).scheme == r.scheme && CutPath(r).host == r.host
  {}

  lemma BarSplits(r: Request, cut: Request, search: string, tail: string) returns (after: string)
    requires cut.verb == r.verb && cut.scheme == r.scheme && cut.host == r.host
    requires |cut.path| < |r.path| && r.path == cut.path + "|" + r.path[|cut.path| + 1..]
    ensures after != "" && after[0] == '|' && Line(r, search) + tail == Line(cut, "") + after
  {
    var head, more := r.verb + ":" + Authority(r) + ":", r.path[|cut.path| + 1..];
    assert Line(cut, "") == head + cut.path + "" == head + cut.path;
    assert Line(r, search) == head + (cut.path + "|" + more) + search;
    after := "|" + more + search + tail;
    assert head + (cut.path + "|" + more) + search + tail == head + cut.path + after;
  }

  /** What a caller asks to invalidate: `METHOD:/path`, or with the authority in between; with
      a query or without. */
  datatype Target = Target(line: Request, search: string, hostless: bool)

  ghost predicate ValidTarget(t: Target) {
    WellFormed(t.line) && IsSearch(t.search)
  }

  function Short(verb: string, path: string): string { verb + ":" + path }

  function Text(t: Target): string {
    if t.hostless then Short(t.line.verb, t.line.path + t.search) else Line(t.line, t.search)
  }

  /** The request lines a target names. */
  predicate Names(t: Target, c: Config, r: Request) {
    && r.verb == t.line.verb && r.path == t.line.path
    && (t.hostless || (r.scheme == t.line.scheme && r.host == t.line.host))
    && (t.search == "" || t.search == NormalizeSearch(c, r.query))
  }

  /** A text with an authority is no text without one. */
  lemma ShortIsNotLine(a: Request, sa: string, verb: string, path: string)
    requires WellFormed(a) && ':' !in verb && path != "" && path[0] == '/'
    ensures Line(a, sa) != Short(verb, path)
  {
    NotIn(a.verb, ":|#?", ':');
    NotIn(a.scheme, ":/|#?", '/');
    var rest := a.scheme + ['/'] + AfterScheme(a, sa);
    LineShape(a, sa);
    assert rest[0] == a.scheme[0] && a.scheme[0] in a.scheme;
    assert Short(verb, path) == verb + [':'] + path;
    if Line(a, sa) == Short(verb, path) {
      CutAtFirst(a.verb, rest, verb, path, ':');
    }
  }

  lemma ShortIsInjective(a: Request, sa: string, b: Request, sb: string)
    requires WellFormed(a) && WellFormed(b) && IsSearch(sa) && IsSearch(sb)
    ensures Short(a.verb, a.path + sa) == Short(b.verb, b.path + sb) <==> a.verb == b.verb && a.path == b.path && sa == sb
  {
    NotIn(a.verb, ":|#?", ':');
    NotIn(b.verb, ":|#?", ':');
    assert Short(a.verb, a.path + sa) == a.verb + [':'] + (a.path + sa);
    assert Short(b.verb, b.path + sb) == b.verb + [':'] + (b.path + sb);
    if Short(a.verb, a.path + sa) == Short(b.verb, b.path + sb) {
      CutAtFirst(a.verb, a.path + sa, b.verb, b.path + sb, ':');
      PathCuts(a, sa, b, sb);
    }
  }

  lemma LineEquality(a: Request, sa: string, b: Request, sb: string)
    requires WellFormed(a) && WellFormed(b) && IsSearch(sa) && IsSearch(sb)
    ensures Line(a, sa) == Line(b, sb) <==>
      a.verb == b.verb && a.scheme == b.scheme && a.host == b.host && a.path == b.path && sa == sb
  {
    if Line(a, sa) == Line(b, sb) { LineIsInjective(a, sa, b, sb); }
  }

  lemma TargetHasQuery(t: Target)
    requires ValidTarget(t)
    ensures '?' in Text(t) <==> t.search != ""
  {
    var r := t.line;
    NotIn(r.verb, ":|#?", '?');
    NotIn(r.scheme, ":/|#?", '?');
    NotIn(r.host, "/|#?", '?');
    NotIn(r.path, "#?", '?');
    if t.search != "" {
      var s := Text(t);
      assert s[|s| - |t.search|] == '?';
    } else {
      assert r.path + "" == r.path && ':' != '?' && '/' != '?';
      assert Line(r, "") == r.verb + ":" + (r.scheme + "//" + r.host) + ":" + r.path;
    }
  }

  lemma PathOfSearch(r: Request, search: string)
    requires WellFormed(r) && IsSearch(search)
    ensures UpTo(r.path + search, '?') == r.path
  {
    NotIn(r.path, "#?", '?');
    if search == "" {
      assert r.path + "" == r.path;
      UpToNone(r.path, '?');
    } else {
      assert r.path + search == r.path + ['?'] + search[1..];
      IndexOfIs(r.path + search, r.path, search[1..], '?');
    }
  }

  lemma LineHits(r: Request, search: string, t: Target)
    requires WellFormed(r) && IsSearch(search) && ValidTarget(t)
    ensures HitsBase(Line(r, search), Text(t)) <==>
      (r.verb == t.line.verb && r.path == t.line.path
       && (t.hostless || (r.scheme == t.line.scheme && r.host == t.line.host))
       && (t.search == "" || t.search == search))
  {
    hide Line, WellFormed, SplitBase, UpTo, Short;
    SplitUndoesLine(r, search);
    TargetHasQuery(t);
    PathOfSearch(r, search);
    var kept := if t.search == "" then "" else search;
    assert r.path + "" == r.path;
    LineIs(r, kept);
    ShortIs(r.verb, r.path + kept);
    VerbIsPlain(r);
    VerbIsPlain(t.line);
    LineEquality(r, search, t.line, t.search);
    LineEquality(r, kept, t.line, t.search);
    ShortIsInjective(r, kept, t.line, t.search);
    ShortIsNotLine(r, search, t.line.verb, t.line.path + t.search);
    ShortIsNotLine(r, kept, t.line.verb, t.line.path + t.search);
    ShortIsNotLine(t.line, t.search, r.verb, r.path + kept);
  }

  lemma LineIs(r: Request, search: string)
    ensures Line(r, search) == r.verb + ":" + Authority(r) + ":" + (r.path + search)
  {
    assert r.verb + ":" + Authority(r) + ":" + r.path + search == r.verb + ":" + Authority(r) + ":" + (r.path + search);
  }

  lemma ShortIs(verb: string, path: string)
    ensures Short(verb, path) == verb + ":" + path
  {}

  lemma VerbIsPlain(r: Request)
    requires WellFormed(r)
    ensures ':' !in r.verb && r.path != "" && r.path[0] == '/'
  {
    NotIn(r.verb, ":|#?", ':');
  }

  /** `invalidate` deletes exactly the named path's verbatim entries: over all partitions,
      over all hosts unless one is given, and over all queries unless one is given. */
  lemma InvalidateIsExact(c: Config, r: Request, t: Target, storedBase: Option<string>)
    requires Faithful(c) && WellFormed(r) && '|' !in r.path && ValidTarget(t)
    ensures Hits(c.prefix, Plain(c, r), storedBase, Text(t)) <==> Names(t, c, r)
  {
    hide Faithful, WellFormed, HitsBase, Line, BaseOf, NormalizeSearch, Partitions, Text;
    BaseOfVerbatim(c, r, storedBase);
    SearchStarts(c, r.query);
    LineHits(r, NormalizeSearch(c, r.query), t);
  }

  /** Invalidating a request's own `METHOD:/path` deletes its entry exactly when the path holds
      no `|`: the base is cut at the first one. */
  lemma OwnPathIsInvalidated(c: Config, r: Request, storedBase: Option<string>)
    requires Faithful(c) && WellFormed(r)
    ensures Hits(c.prefix, Plain(c, r), storedBase, Short(r.verb, r.path)) <==> '|' !in r.path
  {
    var t := Target(r, "", true);
    assert r.path + "" == r.path;
    hide Faithful, WellFormed, HitsBase, Line, BaseOf, NormalizeSearch, Partitions, Short;
    if '|' !in r.path {
      InvalidateIsExact(c, r, t, storedBase);
    } else {
      BaseOfBarred(c, r, storedBase);
      CutPathIsWellFormed(r);
      LineHits(CutPath(r), "", t);
    }
  }
}
