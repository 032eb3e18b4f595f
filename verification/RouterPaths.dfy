module RouterPaths {
  // Path splitting and canonicalisation (packages/core/src/router.ts, module-level helpers).

  import opened Options

  /** `s.split("/")` */
  function Split(s: string): (r: seq<string>)
    ensures |r| >= 1
  {
    if s == [] then [""]
    else if s[0] == '/' then [""] + Split(s[1..])
    else var r := Split(s[1..]); [[s[0]] + r[0]] + r[1..]
  }

  function NonEmpty(parts: seq<string>): seq<string> {
    if parts == [] then [] else if parts[0] == "" then NonEmpty(parts[1..]) else [parts[0]] + NonEmpty(parts[1..])
  }

  /** `splitPath` */
  function SplitPath(path: string): seq<string> { NonEmpty(Split(path)) }

  /** Each segment behind a slash. */
  function Slashed(segs: seq<string>): string {
    if segs == [] then "" else "/" + segs[0] + Slashed(segs[1..])
  }

  /** Segments joined back into a path. */
  function Rebuild(segs: seq<string>): string {
    if segs == [] then "/" else Slashed(segs)
  }

  predicate EndsWithSlash(p: string) { p != [] && p[|p| - 1] == '/' }

  predicate HasDoubleSlash(p: string) {
    exists i :: 0 <= i < |p| - 1 && p[i] == '/' && p[i + 1] == '/'
  }

  predicate HasDotSegment(parts: seq<string>) {
    "." in parts || ".." in parts
  }

  /** `normalizePathname`: the key of the static-route map. */
  function NormalizePathname(p: string): string {
    if p == "/" || p == "" then "/" else if EndsWithSlash(p) then p[..|p| - 1] else p
  }

  /** `canonicalizePath`; None is a path that matches nothing. */
  function Canonicalize(pathname: string, ignoreTrailingSlash: bool): Option<string> {
    if pathname == "" || pathname == "/" then Some("/")
    else if pathname[0] != '/' then None
    else if HasDoubleSlash(pathname) then None
    else if EndsWithSlash(pathname) && !ignoreTrailingSlash then None
    else
      var path := if EndsWithSlash(pathname) then pathname[..|pathname| - 1] else pathname;
      if HasDotSegment(Split(path)) then None else Some(path)
  }

  /** The root, or slashes each before a segment that is neither empty nor a dot nor two. */
  ghost predicate IsCanonical(c: string) {
    c == "/" || (c != "" && c[0] == '/' && !HasDoubleSlash(c) && c[|c| - 1] != '/' && forall part :: part in Split(c) ==> part != "." && part != "..")
  }

  lemma CanonicalizeGivesCanonical(p: string, ignoreTrailingSlash: bool)
    ensures var c := Canonicalize(p, ignoreTrailingSlash); c.Some? ==> IsCanonical(c.value)
  {
    if p != "" && p != "/" && EndsWithSlash(p) && p[0] == '/' && !HasDoubleSlash(p) {
      var path := p[..|p| - 1];
      assert p[|p| - 2] != '/';
      forall i | 0 <= i < |path| - 1 ensures !(path[i] == '/' && path[i + 1] == '/') {
        assert p[i] == path[i] && p[i + 1] == path[i + 1];
      }
    }
  }

  lemma CanonicalIsKept(c: string, ignoreTrailingSlash: bool)
    requires IsCanonical(c)
    ensures Canonicalize(c, ignoreTrailingSlash) == Some(c)
  {}

  lemma OneSlashIsDropped(c: string)
    requires IsCanonical(c) && c != "/"
    ensures Canonicalize(c + "/", true) == Some(c) && Canonicalize(c + "/", false) == None
  {
    var p := c + "/";
    assert p[..|p| - 1] == c && p[0] == '/' && p != "/" && EndsWithSlash(p);
    forall i | 0 <= i < |p| - 1 ensures !(p[i] == '/' && p[i + 1] == '/') {
      assert p[i] == c[i] && (i < |c| - 1 ==> p[i + 1] == c[i + 1]);
    }
    assert !HasDoubleSlash(p);
  }

  /** Accepted are exactly the canonical paths, the empty one for the root, and, unless slashes at
      the end count, a canonical path with one slash more. */
  lemma CanonicalizeIff(p: string, ignoreTrailingSlash: bool, c: string)
    ensures Canonicalize(p, ignoreTrailingSlash) == Some(c) <==>
      IsCanonical(c) && (p == c || (p == "" && c == "/") || (ignoreTrailingSlash && c != "/" && p == c + "/"))
  {
    CanonicalizeGivesCanonical(p, ignoreTrailingSlash);
    if Canonicalize(p, ignoreTrailingSlash) == Some(c) && p != c && p != "" {
      assert p == c + "/";
      assert c != "/";
    }
    if IsCanonical(c) {
      CanonicalIsKept(c, ignoreTrailingSlash);
      if c != "/" { OneSlashIsDropped(c); }
    }
  }

  /** Canonicalising twice is canonicalising once. */
  lemma CanonicalizeIsIdempotent(p: string, ignoreTrailingSlash: bool)
    ensures var c := Canonicalize(p, ignoreTrailingSlash);
      c.Some? ==> Canonicalize(c.value, ignoreTrailingSlash) == c
  {
    CanonicalizeGivesCanonical(p, ignoreTrailingSlash);
  }

  /** No aliases: two accepted spellings of one canonical path differ by one trailing slash at
      most, and not even by that when trailing slashes are significant (except "" and "/"). */
  lemma CanonicalizeIsInjective(p: string, q: string, ignoreTrailingSlash: bool)
    requires Canonicalize(p, ignoreTrailingSlash).Some?
    requires Canonicalize(p, ignoreTrailingSlash) == Canonicalize(q, ignoreTrailingSlash)
    ensures p == q || p == q + "/" || q == p + "/"
    ensures !ignoreTrailingSlash ==> p == q || {p, q} == {"", "/"}
  {
    CanonicalizeGivesCanonical(p, ignoreTrailingSlash);
    var c := Canonicalize(p, ignoreTrailingSlash).value;
    assert p == c || p + "/" == c || p == c + "/";
    assert q == c || q + "/" == c || q == c + "/";
  }

  lemma {:induction false} SplitThenJoin(s: string)
    ensures s == Split(s)[0] + Slashed(Split(s)[1..])
  {
    if s != [] {
      SplitThenJoin(s[1..]);
      var r := Split(s[1..]);
      if s[0] == '/' {
        assert Split(s)[1..] == r && Slashed(r) == "/" + r[0] + Slashed(r[1..]);
        assert s == "/" + s[1..];
      } else {
        assert Split(s)[1..] == r[1..];
        assert s == [s[0]] + s[1..];
      }
    }
  }

  /** No part after the first is empty when slashes neither repeat nor end the path. */
  lemma {:induction false} PartsAreNonEmpty(s: string)
    requires !HasDoubleSlash(s) && !EndsWithSlash(s)
    ensures forall i :: 1 <= i < |Split(s)| ==> Split(s)[i] != ""
    ensures s != "" && s[0] != '/' ==> Split(s)[0] != ""
  {
    if s != [] {
      forall i | 0 <= i < |s[1..]| - 1 ensures !(s[1..][i] == '/' && s[1..][i + 1] == '/') {
        assert s[i + 1] == s[1..][i] && s[i + 2] == s[1..][i + 1];
      }
      assert s[1..] != "" ==> !EndsWithSlash(s[1..]);
      PartsAreNonEmpty(s[1..]);
      if s[0] == '/' {
        assert s[1..] != "" && s[1] != '/';
      }
    }
  }

  lemma {:induction false} NonEmptyKeepsAll(parts: seq<string>)
    requires forall i :: 0 <= i < |parts| ==> parts[i] != ""
    ensures NonEmpty(parts) == parts
  {
    if parts != [] { NonEmptyKeepsAll(parts[1..]); }
  }

  /** A canonical path is exactly its segments joined with slashes. */
  lemma RebuildUndoesSplit(c: string)
    requires IsCanonical(c)
    ensures Rebuild(SplitPath(c)) == c
  {
    if c == "/" {
      assert Split("/") == ["", ""];
    } else {
      PartsAreNonEmpty(c);
      SplitThenJoin(c);
      var r := Split(c);
      assert r[0] == "";
      NonEmptyKeepsAll(r[1..]);
    }
  }

  lemma {:induction false} NonEmptyAppends(a: seq<string>, b: seq<string>)
    ensures NonEmpty(a + b) == NonEmpty(a) + NonEmpty(b)
  {
    if a == [] {
      assert a + b == b;
    } else {
      assert (a + b)[1..] == a[1..] + b;
      NonEmptyAppends(a[1..], b);
    }
  }

  lemma {:induction false} SplitTrailing(s: string)
    ensures Split(s + "/") == Split(s) + [""]
  {
    if s == [] {
      assert s + "/" == "/" && "/"[1..] == "";
    } else {
      assert (s + "/")[1..] == s[1..] + "/";
      SplitTrailing(s[1..]);
    }
  }

  /** The static-map key of a URL has the URL's own segments. */
  lemma NormalizeKeepsSegments(url: string)
    ensures SplitPath(NormalizePathname(url)) == SplitPath(url)
  {
    if url == "/" || url == "" {
      assert Split("/") == ["", ""] && Split("") == [""];
    } else if EndsWithSlash(url) {
      var u := url[..|url| - 1];
      assert url == u + "/";
      SplitTrailing(u);
      NonEmptyAppends(Split(u), [""]);
    }
  }
}
