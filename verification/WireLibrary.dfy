/** Some library meets what Wire asks of one, so its theorems are about something. */
module WireLibrary {
  import opened Options
  import opened Wire

  /** `n` marks and an end. */
  function Count(n: nat): string {
    if n == 0 then "." else "1" + Count(n - 1)
  }

  /** A text behind its length. */
  function Sized(s: string): string { Count(|s|) + s }

  /** An unambiguous printer; that nothing else is asked of it is the point. */
  function Print(j: Json): string
    decreases j, 0
  {
    match j
    case JNull => "n"
    case JBool(b) => if b then "t" else "f"
    case JNum(bits) => "d" + Count(bits)
    case JStr(s) => "s" + Sized(s)
    case JArr(items) => "a" + Count(|items|) + PrintAll(items)
    case JObj(fields) => "o" + Count(|fields|) + PrintFields(fields)
  }

  function PrintAll(js: seq<Json>): string
    decreases js, 1
  {
    if js == [] then "" else Print(js[0]) + PrintAll(js[1..])
  }

  function PrintFields(fs: seq<Field<Json>>): string
    decreases fs, 1
  {
    if fs == [] then "" else Sized(fs[0].name) + Print(fs[0].value) + PrintFields(fs[1..])
  }

  function PrintInt(i: int): string { if i >= 0 then "+" + Count(i) else "-" + Count(-i) }

  lemma Cons(c: char, a: string, d: char, b: string)
    requires [c] + a == [d] + b
    ensures c == d && a == b
  {
    assert ([c] + a)[0] == c && ([d] + b)[0] == d && ([c] + a)[1..] == a && ([d] + b)[1..] == b;
  }

  lemma Assoc(a: string, b: string, c: string)
    ensures a + b + c == a + (b + c)
  {}

  lemma {:induction false} CountIsPrefixFree(m: nat, a: string, n: nat, b: string)
    requires Count(m) + a == Count(n) + b
    ensures m == n && a == b
    decreases m
  {
    var (c, x) := if m > 0 then ('1', Count(m - 1) + a) else ('.', a);
    var (d, y) := if n > 0 then ('1', Count(n - 1) + b) else ('.', b);
    assert Count(m) + a == [c] + x && Count(n) + b == [d] + y;
    Cons(c, x, d, y);
    if m > 0 { CountIsPrefixFree(m - 1, a, n - 1, b); }
  }

  lemma SizedIsPrefixFree(s: string, a: string, t: string, b: string)
    requires Sized(s) + a == Sized(t) + b
    ensures s == t && a == b
  {
    Assoc(Count(|s|), s, a);
    Assoc(Count(|t|), t, b);
    CountIsPrefixFree(|s|, s + a, |t|, t + b);
    assert (s + a)[..|s|] == s && (t + b)[..|t|] == t && (s + a)[|s|..] == a && (t + b)[|t|..] == b;
  }

  /** The head letter and what is printed behind it. */
  function Letter(j: Json): char {
    match j
    case JNull => 'n'
    case JBool(b) => if b then 't' else 'f'
    case JNum(_) => 'd'
    case JStr(_) => 's'
    case JArr(_) => 'a'
    case JObj(_) => 'o'
  }

  function Body(j: Json): string {
    match j
    case JNull => ""
    case JBool(_) => ""
    case JNum(bits) => Count(bits)
    case JStr(s) => Sized(s)
    case JArr(items) => Count(|items|) + PrintAll(items)
    case JObj(fields) => Count(|fields|) + PrintFields(fields)
  }

  lemma PrintIsLetterAndBody(j: Json, a: string)
    ensures Print(j) + a == [Letter(j)] + (Body(j) + a)
  {
    hide Count, PrintAll, PrintFields, Sized;
  }

  lemma {:induction false} PrintIsPrefixFree(j: Json, a: string, k: Json, b: string)
    requires Print(j) + a == Print(k) + b
    ensures j == k && a == b
    decreases j, 0
  {
    PrintIsLetterAndBody(j, a);
    PrintIsLetterAndBody(k, b);
    Cons(Letter(j), Body(j) + a, Letter(k), Body(k) + b);
    hide Print, Count, PrintAll, PrintFields, Sized;
    match j
    case JNum(bits) => CountIsPrefixFree(bits, a, k.bits, b);
    case JStr(s) => SizedIsPrefixFree(s, a, k.s, b);
    case JArr(items) =>
      Assoc(Count(|items|), PrintAll(items), a);
      Assoc(Count(|k.items|), PrintAll(k.items), b);
      CountIsPrefixFree(|items|, PrintAll(items) + a, |k.items|, PrintAll(k.items) + b);
      AllArePrefixFree(items, a, k.items, b);
    case JObj(fields) =>
      Assoc(Count(|fields|), PrintFields(fields), a);
      Assoc(Count(|k.fields|), PrintFields(k.fields), b);
      CountIsPrefixFree(|fields|, PrintFields(fields) + a, |k.fields|, PrintFields(k.fields) + b);
      FieldsArePrefixFree(fields, a, k.fields, b);
    case _ => assert Body(j) == "" && Body(k) == "" && "" + a == a && "" + b == b;
  }

  lemma {:induction false} AllArePrefixFree(js: seq<Json>, a: string, ks: seq<Json>, b: string)
    requires |js| == |ks| && PrintAll(js) + a == PrintAll(ks) + b
    ensures js == ks && a == b
    decreases js, 1
  {
    hide Print;
    if js != [] {
      Assoc(Print(js[0]), PrintAll(js[1..]), a);
      Assoc(Print(ks[0]), PrintAll(ks[1..]), b);
      PrintIsPrefixFree(js[0], PrintAll(js[1..]) + a, ks[0], PrintAll(ks[1..]) + b);
      AllArePrefixFree(js[1..], a, ks[1..], b);
      assert js == [js[0]] + js[1..] && ks == [ks[0]] + ks[1..];
    } else {
      assert "" + a == a && "" + b == b;
    }
  }

  lemma FieldsSplit(fs: seq<Field<Json>>, a: string)
    requires fs != []
    ensures PrintFields(fs) + a == Sized(fs[0].name) + (Print(fs[0].value) + (PrintFields(fs[1..]) + a))
  {
    hide Print, Sized;
  }

  lemma {:induction false} FieldsArePrefixFree(fs: seq<Field<Json>>, a: string, gs: seq<Field<Json>>, b: string)
    requires |fs| == |gs| && PrintFields(fs) + a == PrintFields(gs) + b
    ensures fs == gs && a == b
    decreases fs, 1
  {
    hide Print, Sized;
    if fs != [] {
      FieldsSplit(fs, a);
      FieldsSplit(gs, b);
      SizedIsPrefixFree(fs[0].name, Print(fs[0].value) + (PrintFields(fs[1..]) + a), gs[0].name, Print(gs[0].value) + (PrintFields(gs[1..]) + b));
      PrintIsPrefixFree(fs[0].value, PrintFields(fs[1..]) + a, gs[0].value, PrintFields(gs[1..]) + b);
      FieldsArePrefixFree(fs[1..], a, gs[1..], b);
      assert fs == [fs[0]] + fs[1..] && gs == [gs[0]] + gs[1..];
    } else {
      assert "" + a == a && "" + b == b;
    }
  }

  lemma PrintIntIsInjective(i: int, k: int)
    requires PrintInt(i) == PrintInt(k)
    ensures i == k
  {
    var m, n: nat := if i >= 0 then i else -i, if k >= 0 then k else -k;
    Cons(if i >= 0 then '+' else '-', Count(m), if k >= 0 then '+' else '-', Count(n));
    assert Count(m) + "" == Count(m) && Count(n) + "" == Count(n);
    CountIsPrefixFree(m, "", n, "");
  }

  ghost function Parse(s: string): Option<Json> {
    if exists j :: Print(j) == s then
      var j :| Print(j) == s;
      Some(j)
    else None
  }

  ghost function ParseInt(j: Json): Option<int> {
    if j.JStr? && exists i :: PrintInt(i) == j.s then
      var i :| PrintInt(i) == j.s;
      Some(i)
    else None
  }

  /** A library whose parsers undo its printers exists. */
  lemma FaithfulIsMet() returns (lib: Library)
    ensures Faithful(lib)
  {
    lib := Library(Print, s => Parse(s), (j: Json) => if j.JStr? then j.s else "", PrintInt, j => ParseInt(j), PrintInt, j => ParseInt(j));
    forall j ensures Parse(Print(j)) == Some(j) {
      var k := Parse(Print(j)).value;
      assert Print(j) + "" == Print(j) && Print(k) + "" == Print(k);
      PrintIsPrefixFree(j, "", k, "");
    }
    forall i ensures ParseInt(JStr(PrintInt(i))) == Some(i) {
      var k := ParseInt(JStr(PrintInt(i))).value;
      PrintIntIsInjective(i, k);
    }
  }
}
