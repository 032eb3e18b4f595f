module Glob {
  // Glob patterns: the compiled matcher against the language of the pattern
  // (packages/cache/src/store.ts).

  datatype Token = Literal(c: char) | Single | Star | Globstar

  // ---- The language of a pattern ----

  /** The texts one token stands for. */
  predicate InToken(t: Token, s: string) {
    match t
    case Literal(c) => s == [c]
    case Single => |s| == 1
    case Star => ':' !in s
    case Globstar => true
  }

  function Concat(parts: seq<string>): string {
    if parts == [] then "" else Concat(parts[..|parts| - 1]) + parts[|parts| - 1]
  }

  /** The key cut into one part for each token. */
  ghost predicate Cuts(ts: seq<Token>, parts: seq<string>, key: string) {
    |parts| == |ts| && Concat(parts) == key && forall i :: 0 <= i < |ts| ==> InToken(ts[i], parts[i])
  }

  ghost predicate InLanguage(ts: seq<Token>, key: string) {
    exists parts :: Cuts(ts, parts, key)
  }

  /** A pattern read pair by pair, as the regular expression it replaces would be: `**` is any
      run, a single `*` a run without a colon. */
  function Read(pattern: string): seq<Token> {
    if pattern == "" then []
    else if |pattern| >= 2 && pattern[..2] == "**" then [Globstar] + Read(pattern[2..])
    else [if pattern[0] == '*' then Star else if pattern[0] == '?' then Single else Literal(pattern[0])] + Read(pattern[1..])
  }

  // ---- The compiled pattern ----

  /** The number of stars a pattern starts with. */
  function Stars(pattern: string): (n: nat)
    ensures n <= |pattern| && forall i :: 0 <= i < n ==> pattern[i] == '*'
    ensures n < |pattern| ==> pattern[n] != '*'
  {
    if pattern == "" || pattern[0] != '*' then 0 else 1 + Stars(pattern[1..])
  }

  /** `parseGlob`, with every run of stars collapsed to one token. */
  function Parse(pattern: string): seq<Token>
    decreases |pattern|
  {
    if pattern == "" then []
    else if pattern[0] == '*' then [if Stars(pattern) >= 2 then Globstar else Star] + Parse(pattern[Stars(pattern)..])
    else [if pattern[0] == '?' then Single else Literal(pattern[0])] + Parse(pattern[1..])
  }

  lemma {:induction false} StarsFrom(pattern: string, n: nat)
    requires n <= Stars(pattern)
    ensures Stars(pattern[n..]) == Stars(pattern) - n
  {
    if n > 0 {
      StarsFrom(pattern[1..], n - 1);
      assert pattern[1..][n - 1..] == pattern[n..];
    } else {
      assert pattern[0..] == pattern;
    }
  }

  lemma MoreStars(pattern: string, n: nat)
    requires n <= Stars(pattern) && n < |pattern| && pattern[n] == '*'
    ensures n < Stars(pattern)
  {}

  lemma AllStars(pattern: string, n: nat)
    requires n <= Stars(pattern) && (n < |pattern| ==> pattern[n] != '*')
    ensures n == Stars(pattern)
  {}

  lemma ParseOfNone()
    ensures Parse("") == []
  {}

  lemma ParseStep(rest: string, stars: nat)
    requires rest != "" && stars == Stars(rest)
    ensures Parse(rest) ==
      if stars >= 1 then [if stars >= 2 then Globstar else Star] + Parse(rest[stars..])
      else [if rest[0] == '?' then Single else Literal(rest[0])] + Parse(rest[1..])
  {}

  /** The tokens so far, and those of the rest. */
  ghost predicate Parsed(pattern: string, i: nat, tokens: seq<Token>)
    requires i <= |pattern|
  {
    tokens + Parse(pattern[i..]) == Parse(pattern)
  }

  lemma ParsedStarts(pattern: string)
    ensures Parsed(pattern, 0, [])
  {
    hide Parse;
    assert pattern[0..] == pattern;
    assert [] + Parse(pattern) == Parse(pattern);
  }

  lemma ParsedEnds(pattern: string, tokens: seq<Token>)
    requires Parsed(pattern, |pattern|, tokens)
    ensures tokens == Parse(pattern)
  {
    ParseOfNone();
    hide Parse;
    assert pattern[|pattern|..] == "";
  }

  function TokenAt(rest: string, stars: nat): Token
    requires rest != ""
  {
    if stars >= 2 then Globstar else if stars == 1 then Star else if rest[0] == '?' then Single else Literal(rest[0])
  }

  lemma ParsedStep(pattern: string, i: nat, tokens: seq<Token>, stars: nat)
    requires i < |pattern| && Parsed(pattern, i, tokens) && stars == Stars(pattern[i..])
    ensures var next := i + (if stars >= 1 then stars else 1);
      next <= |pattern| && Parsed(pattern, next, tokens + [TokenAt(pattern[i..], stars)])
  {
    hide Stars, Parse;
    var rest, next := pattern[i..], i + (if stars >= 1 then stars else 1);
    ParseStep(rest, stars);
    assert rest[next - i..] == pattern[next..];
    var t := [TokenAt(rest, stars)];
    assert Parse(rest) == t + Parse(pattern[next..]);
    Regroup(tokens, t, Parse(pattern[next..]));
  }

  lemma Regroup(a: seq<Token>, b: seq<Token>, c: seq<Token>)
    ensures a + (b + c) == a + b + c
  {}

  method ParseGlob(pattern: string) returns (tokens: seq<Token>)
    ensures tokens == Parse(pattern)
  {
    hide Stars, Parse, Parsed;
    tokens := [];
    var i := 0;
    ParsedStarts(pattern);
    while i < |pattern|
      invariant 0 <= i <= |pattern| && Parsed(pattern, i, tokens)
    {
      var c := pattern[i];
      ghost var rest := pattern[i..];
      assert rest[0] == c;
      if c == '*' {
        var stars, start := 0, i;
        while i < |pattern| && pattern[i] == '*'
          invariant start <= i <= |pattern| && stars == i - start <= Stars(rest)
        {
          MoreStars(rest, stars);
          stars := stars + 1;
          i := i + 1;
        }
        if i < |pattern| { assert rest[stars] == pattern[i]; }
        AllStars(rest, stars);
        ParsedStep(pattern, start, tokens, stars);
        tokens := tokens + [if stars >= 2 then Globstar else Star];
      } else {
        AllStars(rest, 0);
        ParsedStep(pattern, i, tokens, 0);
        tokens := tokens + [if c == '?' then Single else Literal(c)];
        i := i + 1;
      }
    }
    ParsedEnds(pattern, tokens);
  }

  // ---- The matcher ----

  lemma {:induction false} ConcatAppends(a: seq<string>, b: seq<string>)
    ensures Concat(a + b) == Concat(a) + Concat(b)
  {
    if b == [] {
      assert a + b == a;
    } else {
      assert (a + b)[..|a + b| - 1] == a + b[..|b| - 1];
      ConcatAppends(a, b[..|b| - 1]);
    }
  }

  /** The first tokens take a prefix of the key, which ends at `j`. */
  lemma CutInTwo(a: seq<Token>, b: seq<Token>, key: string) returns (j: nat)
    requires InLanguage(a + b, key)
    ensures j <= |key| && InLanguage(a, key[..j]) && InLanguage(b, key[j..])
  {
    hide InToken, Concat;
    var parts :| Cuts(a + b, parts, key);
    var p, q := parts[..|a|], parts[|a|..];
    assert parts == p + q;
    ConcatAppends(p, q);
    j := |Concat(p)|;
    assert key[..j] == Concat(p) && key[j..] == Concat(q);
    assert forall i :: 0 <= i < |a| ==> (a + b)[i] == a[i];
    assert forall i :: 0 <= i < |b| ==> (a + b)[|a| + i] == b[i];
    assert Cuts(a, p, key[..j]) && Cuts(b, q, key[j..]);
  }

  lemma CutsTogether(a: seq<Token>, b: seq<Token>, key: string, j: nat)
    requires j <= |key| && InLanguage(a, key[..j]) && InLanguage(b, key[j..])
    ensures InLanguage(a + b, key)
  {
    hide InToken, Concat;
    var p :| Cuts(a, p, key[..j]);
    var q :| Cuts(b, q, key[j..]);
    ConcatAppends(p, q);
    assert key[..j] + key[j..] == key;
    assert Cuts(a + b, p + q, key);
  }

  /** The first tokens take a prefix and the others the rest. */
  lemma LanguageAppends(a: seq<Token>, b: seq<Token>, key: string)
    ensures InLanguage(a + b, key) <==>
      exists j :: 0 <= j <= |key| && InLanguage(a, key[..j]) && InLanguage(b, key[j..])
  {
    hide InLanguage;
    if InLanguage(a + b, key) { var j := CutInTwo(a, b, key); }
    if j :| 0 <= j <= |key| && InLanguage(a, key[..j]) && InLanguage(b, key[j..]) { CutsTogether(a, b, key, j); }
  }

  lemma OneToken(t: Token, key: string)
    ensures InLanguage([t], key) <==> InToken(t, key)
  {
    hide InToken;
    forall parts: seq<string> | |parts| == 1 ensures Concat(parts) == parts[0] {
      assert parts[..0] == [];
    }
    if InToken(t, key) { assert Cuts([t], [key], key); }
  }

  lemma EmptyLanguage(key: string)
    ensures InLanguage([], key) <==> key == ""
  {
    if key == "" { assert Cuts([], [], key); }
  }

  /** The last token takes some suffix of the key. */
  lemma LanguageSnoc(ts: seq<Token>, t: Token, key: string)
    ensures InLanguage(ts + [t], key) <==>
      exists j :: 0 <= j <= |key| && InLanguage(ts, key[..j]) && InToken(t, key[j..])
  {
    hide InLanguage, InToken;
    if InLanguage(ts + [t], key) {
      var j := CutInTwo(ts, [t], key);
      OneToken(t, key[j..]);
    }
    if j :| 0 <= j <= |key| && InLanguage(ts, key[..j]) && InToken(t, key[j..]) {
      OneToken(t, key[j..]);
      CutsTogether(ts, [t], key, j);
    }
  }

  /** What `row` says about the tokens seen so far. */
  ghost predicate Row(ts: seq<Token>, key: string, n: nat) {
    n <= |key| && InLanguage(ts, key[..n])
  }

  /** One cell of the next row, from its left neighbour and the row before. */
  predicate Cell(t: Token, key: string, n: nat, above: bool, aboveLeft: bool, left: bool)
    requires n <= |key|
  {
    match t
    case Literal(c) => n > 0 && aboveLeft && key[n - 1] == c
    case Single => n > 0 && aboveLeft
    case Star => above || (n > 0 && left && key[n - 1] != ':')
    case Globstar => above || (n > 0 && left)
  }

  lemma OneCharacterCell(ts: seq<Token>, t: Token, key: string, n: nat)
    requires n <= |key| && (t.Literal? || t.Single?)
    ensures Row(ts + [t], key, n) <==> n > 0 && Row(ts, key, n - 1) && InToken(t, [key[n - 1]])
  {
    hide InLanguage;
    LanguageSnoc(ts, t, key[..n]);
    if n > 0 { assert key[..n][..n - 1] == key[..n - 1] && key[..n][n - 1..] == [key[n - 1]]; }
    if j :| 0 <= j <= n && InLanguage(ts, key[..n][..j]) && InToken(t, key[..n][j..]) { assert j == n - 1; }
  }

  lemma RunCell(ts: seq<Token>, t: Token, key: string, n: nat)
    requires n <= |key| && (t.Star? || t.Globstar?)
    ensures Row(ts + [t], key, n) <==>
      (Row(ts, key, n) || (n > 0 && Row(ts + [t], key, n - 1) && InToken(t, [key[n - 1]])))
  {
    hide InLanguage, InToken;
    var now := key[..n];
    LanguageSnoc(ts, t, now);
    if n > 0 { LanguageSnoc(ts, t, key[..n - 1]); }
    if Row(ts + [t], key, n) {
      var j :| 0 <= j <= n && InLanguage(ts, now[..j]) && InToken(t, now[j..]);
      if j < n { RunSplits(ts, t, key, n, j); } else { assert now[..j] == now; }
    }
    if Row(ts, key, n) {
      assert now[..n] == now && InToken(t, now[n..]) by { EmptyRun(t, now[n..]); }
    }
    if n > 0 && Row(ts + [t], key, n - 1) && InToken(t, [key[n - 1]]) {
      var j :| 0 <= j <= n - 1 && InLanguage(ts, key[..n - 1][..j]) && InToken(t, key[..n - 1][j..]);
      RunSplits(ts, t, key, n, j);
    }
  }

  lemma EmptyRun(t: Token, s: string)
    requires (t.Star? || t.Globstar?) && s == ""
    ensures InToken(t, s)
  {}

  lemma RunSplits(ts: seq<Token>, t: Token, key: string, n: nat, j: nat)
    requires j < n <= |key| && (t.Star? || t.Globstar?)
    ensures key[..n][..j] == key[..n - 1][..j]
    ensures InToken(t, key[..n][j..]) <==> InToken(t, key[..n - 1][j..]) && InToken(t, [key[n - 1]])
  {
    assert key[..n][j..] == key[..n - 1][j..] + [key[n - 1]];
  }

  /** The recurrence of the matcher computes the language, prefix by prefix. */
  lemma CellIsRow(ts: seq<Token>, t: Token, key: string, n: nat)
    requires n <= |key|
    ensures Row(ts + [t], key, n) <==>
      Cell(t, key, n, Row(ts, key, n), n > 0 && Row(ts, key, n - 1), n > 0 && Row(ts + [t], key, n - 1))
  {
    hide Row;
    match t {
      case Literal(_) => OneCharacterCell(ts, t, key, n);
      case Single => OneCharacterCell(ts, t, key, n);
      case Star => RunCell(ts, t, key, n);
      case Globstar => RunCell(ts, t, key, n);
    }
  }

  /** `matchGlob`: the answer, and the number of cells filled. */
  method MatchGlob(tokens: seq<Token>, key: string) returns (r: bool, cells: nat)
    ensures r <==> InLanguage(tokens, key)
    ensures cells == |tokens| * (|key| + 1)
  {
    var n := |key|;
    var row := new bool[n + 1](i => i == 0);
    cells := 0;
    forall j | 0 <= j <= n ensures row[j] <==> Row(tokens[..0], key, j) { EmptyLanguage(key[..j]); }
    var k := 0;
    while k < |tokens|
      invariant 0 <= k <= |tokens| && row.Length == n + 1 && cells == k * (n + 1)
      invariant forall j :: 0 <= j <= n ==> (row[j] <==> Row(tokens[..k], key, j))
    {
      hide Row;
      var token := tokens[k];
      var next := new bool[n + 1](_ => false);
      assert tokens[..k + 1] == tokens[..k] + [token];
      var i := 0;
      while i <= n
        invariant 0 <= i <= n + 1 && cells == k * (n + 1) + i && row != next
        invariant forall j :: 0 <= j <= n ==> (row[j] <==> Row(tokens[..k], key, j))
        invariant forall j :: i <= j <= n ==> !next[j]
        invariant forall j :: 0 <= j < i ==> (next[j] <==> Row(tokens[..k + 1], key, j))
      {
        CellIsRow(tokens[..k], token, key, i);
        match token {
          case Literal(c) => if i > 0 && row[i - 1] && key[i - 1] == c { next[i] := true; }
          case Single => if i > 0 && row[i - 1] { next[i] := true; }
          case Star => if row[i] { next[i] := true; } else if i > 0 && next[i - 1] && key[i - 1] != ':' { next[i] := true; }
          case Globstar => if row[i] || (i > 0 && next[i - 1]) { next[i] := true; }
        }
        cells := cells + 1;
        i := i + 1;
      }
      row := next;
      k := k + 1;
    }
    assert tokens[..|tokens|] == tokens && key[..n] == key;
    r := row[n];
  }

  // ---- Collapsing stars keeps the language ----

  /** Two token lists with one language. */
  ghost predicate SameLanguage(a: seq<Token>, b: seq<Token>) {
    forall key :: InLanguage(a, key) <==> InLanguage(b, key)
  }

  lemma SameLanguageAppends(a: seq<Token>, b: seq<Token>, c: seq<Token>, d: seq<Token>)
    requires SameLanguage(a, b) && SameLanguage(c, d)
    ensures SameLanguage(a + c, b + d)
  {
    hide InLanguage;
    forall key ensures InLanguage(a + c, key) <==> InLanguage(b + d, key) {
      LanguageAppends(a, c, key);
      LanguageAppends(b, d, key);
    }
  }

  /** Pairs of stars, and an odd one left over. */
  function StarPairs(n: nat): seq<Token> {
    if n == 0 then [] else if n == 1 then [Star] else [Globstar] + StarPairs(n - 2)
  }

  lemma {:induction false} PairsAreAny(n: nat)
    requires n >= 2
    ensures SameLanguage(StarPairs(n), [Globstar])
  {
    forall key ensures InLanguage(StarPairs(n), key) <==> InLanguage([Globstar], key) {
      OneToken(Globstar, key);
      LanguageAppends([Globstar], StarPairs(n - 2), key);
      assert key[..|key|] == key && key[|key|..] == "";
      if n == 2 {
        EmptyLanguage("");
      } else if n == 3 {
        assert StarPairs(1) == [Star];
        OneToken(Star, "");
      } else {
        PairsAreAny(n - 2);
        OneToken(Globstar, "");
      }
    }
  }

  lemma {:induction false} ReadStars(pattern: string)
    ensures Read(pattern) == StarPairs(Stars(pattern)) + Read(pattern[Stars(pattern)..])
    decreases |pattern|
  {
    hide Stars;
    var n := Stars(pattern);
    if n >= 2 {
      assert pattern[0] == '*' && pattern[1] == '*';
      assert pattern[..2] == "**";
      StarsFrom(pattern, 2);
      ReadStars(pattern[2..]);
      assert pattern[2..][n - 2..] == pattern[n..];
      assert StarPairs(n) == [Globstar] + StarPairs(n - 2);
    } else if n == 1 {
      assert pattern[0] == '*' && (|pattern| >= 2 ==> pattern[..2][1] != '*');
      assert StarPairs(1) == [Star];
    } else {
      assert pattern[0..] == pattern;
    }
  }

  lemma SameLanguageReflexive(a: seq<Token>)
    ensures SameLanguage(a, a)
  {}

  /** A run of stars, of whatever length, means what its pairs mean: collapsing it to one token
      changes no answer. */
  lemma {:induction false} CollapsingKeepsLanguage(pattern: string)
    ensures SameLanguage(Parse(pattern), Read(pattern))
    decreases |pattern|
  {
    hide SameLanguage;
    var n := Stars(pattern);
    if pattern == "" {
      SameLanguageReflexive([]);
    } else if n >= 1 {
      ReadStars(pattern);
      CollapsingKeepsLanguage(pattern[n..]);
      var one := [if n >= 2 then Globstar else Star];
      if n >= 2 {
        PairsAreAny(n);
        SameLanguageSymmetric(StarPairs(n), one);
      } else {
        SameLanguageReflexive(one);
      }
      SameLanguageAppends(one, StarPairs(n), Parse(pattern[n..]), Read(pattern[n..]));
    } else {
      CollapsingKeepsLanguage(pattern[1..]);
      var one := [if pattern[0] == '?' then Single else Literal(pattern[0])];
      SameLanguageReflexive(one);
      SameLanguageAppends(one, one, Parse(pattern[1..]), Read(pattern[1..]));
    }
  }

  lemma SameLanguageSymmetric(a: seq<Token>, b: seq<Token>)
    requires SameLanguage(a, b)
    ensures SameLanguage(b, a)
  {}

  /** A key matches a pattern. */
  ghost predicate Matches(pattern: string, key: string) {
    InLanguage(Read(pattern), key)
  }

  /** Compiling and matching decide the language of the pattern. */
  lemma CompiledMatches(pattern: string, key: string)
    ensures InLanguage(Parse(pattern), key) <==> Matches(pattern, key)
  {
    CollapsingKeepsLanguage(pattern);
  }
}
