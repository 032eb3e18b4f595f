module IpText {
  // Parsing and formatting of addresses; one bucket key for every spelling of a host
  // (packages/rate-limit/src/ip.ts).

  import opened Options

  datatype Ip = V4(value: nat) | V6(groups: seq<nat>)

  predicate WellFormed(ip: Ip) {
    match ip
    case V4(value) => value < 0x1_0000_0000
    case V6(groups) => |groups| == 8 && forall i :: 0 <= i < 8 ==> groups[i] < 0x1_0000
  }

  // ---- Text ----

  predicate IsDigit(c: char) { '0' <= c <= '9' }

  predicate IsHex(c: char) { IsDigit(c) || 'a' <= c <= 'f' || 'A' <= c <= 'F' }

  /** White space and line terminators, as `trim` removes them. */
  predicate IsSpace(c: char) {
    var n := c as int;
    9 <= n <= 13 || n == 32 || n == 0xA0 || n == 0x1680 || 0x2000 <= n <= 0x200A
    || n == 0x2028 || n == 0x2029 || n == 0x202F || n == 0x205F || n == 0x3000 || n == 0xFEFF
  }

  predicate IsLineEnd(c: char) { c == '\n' || c == '\r' || c as int == 0x2028 || c as int == 0x2029 }

  function TrimStart(s: string): string {
    if s != "" && IsSpace(s[0]) then TrimStart(s[1..]) else s
  }

  function TrimEnd(s: string): string {
    if s != "" && IsSpace(s[|s| - 1]) then TrimEnd(s[..|s| - 1]) else s
  }

  function Trim(s: string): string { TrimEnd(TrimStart(s)) }

  /** `s.split(c)` */
  function SplitOn(s: string, c: char): (r: seq<string>)
    ensures |r| >= 1
  {
    if s == "" then [""]
    else if s[0] == c then [""] + SplitOn(s[1..], c)
    else var r := SplitOn(s[1..], c); [[s[0]] + r[0]] + r[1..]
  }

  /** `s.split("::")` */
  function SplitOnDouble(s: string): (r: seq<string>)
    ensures |r| >= 1
    decreases |s|
  {
    if |s| < 2 then [s]
    else if s[0] == ':' && s[1] == ':' then [""] + SplitOnDouble(s[2..])
    else var r := SplitOnDouble(s[1..]); [[s[0]] + r[0]] + r[1..]
  }

  predicate All(s: string, p: char -> bool) { forall i :: 0 <= i < |s| ==> p(s[i]) }

  predicate IsDecimal(part: string) { 1 <= |part| <= 3 && All(part, IsDigit) }

  predicate IsHexGroup(part: string) { 1 <= |part| <= 4 && All(part, IsHex) }

  function DigitValue(c: char): nat
    requires IsHex(c)
  {
    if IsDigit(c) then c as int - '0' as int
    else if 'a' <= c then c as int - 'a' as int + 10
    else c as int - 'A' as int + 10
  }

  function NumberOf(s: string, base: nat): nat
    requires All(s, IsHex)
  {
    if s == "" then 0 else NumberOf(s[..|s| - 1], base) * base + DigitValue(s[|s| - 1])
  }

  lemma DecimalIsHex(s: string)
    requires All(s, IsDigit)
    ensures All(s, IsHex)
  {}

  // ---- Normalisation ----

  predicate EndsWith(s: string, tail: string) { |tail| <= |s| && s[|s| - |tail|..] == tail }

  function DropDigits(s: string): string {
    if s != "" && IsDigit(s[|s| - 1]) then DropDigits(s[..|s| - 1]) else s
  }

  /** What a bracketed address holds: `[...]`, with or without a port. */
  function Bracketed(s: string): Option<string> {
    if s == "" || s[0] != '[' then None
    else
      var body := if EndsWith(s, "]") then s[..|s| - 1]
        else
          var t := DropDigits(s);
          if |t| < |s| && EndsWith(t, "]:") then t[..|t| - 2] else "";
      if |body| >= 2 && All(body, c => !IsLineEnd(c)) then Some(body[1..]) else None
  }

  function Lower(c: char): char {
    if 'A' <= c <= 'Z' then (c as int + 32) as char else c
  }

  predicate IsDottedQuad(s: string) {
    var parts := SplitOn(s, '.');
    |parts| == 4 && forall i :: 0 <= i < 4 ==> IsDecimal(parts[i])
  }

  const MAPPED := "::ffff:"

  /** The version 4 address mapped into a version 6 one. */
  function Mapped(s: string): Option<string> {
    if |s| >= |MAPPED| && (forall i :: 0 <= i < |MAPPED| ==> Lower(s[i]) == MAPPED[i]) && IsDottedQuad(s[|MAPPED|..])
    then Some(s[|MAPPED|..]) else None
  }

  /** `normalize` */
  function Normalize(raw: string): string {
    var value := Trim(raw);
    match Bracketed(value)
    case Some(inner) => inner
    case None =>
      var parts := SplitOn(value, ':');
      var host := if '.' in value && |parts| == 2 then parts[0] else value;
      match Mapped(host) case Some(v4) => v4 case None => host
  }

  // ---- Parsing ----

  /** The loop of `parseIpv4` over the parts. */
  function Octets(parts: seq<string>, acc: nat): Option<nat>
    decreases |parts|
  {
    if parts == [] then Some(acc)
    else if !IsDecimal(parts[0]) then None
    else
      DecimalIsHex(parts[0]);
      var octet := NumberOf(parts[0], 10);
      if octet > 255 then None else Octets(parts[1..], acc * 256 + octet)
  }

  function Ipv4Of(value: string): Option<nat> {
    var parts := SplitOn(value, '.');
    if |parts| != 4 then None else Octets(parts, 0)
  }

  /** Four decimal octets with points between them. */
  predicate IsQuad(s: string, a: string, b: string, c: string, d: string) {
    s == a + "." + b + "." + c + "." + d && IsOctet(a) && IsOctet(b) && IsOctet(c) && IsOctet(d)
  }

  predicate IsOctet(part: string) {
    IsDecimal(part) && All(part, IsHex) && NumberOf(part, 10) <= 255
  }

  /** Each octet has 256 times the place value of the next. */
  function QuadValue(a: string, b: string, c: string, d: string): nat
    requires IsOctet(a) && IsOctet(b) && IsOctet(c) && IsOctet(d)
  {
    NumberOf(a, 10) * 0x100_0000 + NumberOf(b, 10) * 0x1_0000 + NumberOf(c, 10) * 0x100 + NumberOf(d, 10)
  }

  ghost predicate IsQuadOf(s: string, v: nat) {
    exists a, b, c, d :: IsQuad(s, a, b, c, d) && QuadValue(a, b, c, d) == v
  }

  /** Accepted are exactly the texts of four decimal octets, with their place value. */
  method ParseIpv4(value: string) returns (r: Option<nat>)
    ensures r == Ipv4Of(value)
    ensures forall v: nat :: r == Some(v) <==> IsQuadOf(value, v)
  {
    forall v: nat ensures Ipv4Of(value) == Some(v) <==> IsQuadOf(value, v) { Ipv4OfIff(value, v); }
    var parts := SplitOn(value, '.');
    if |parts| != 4 { return None; }
    var result, i := 0, 0;
    assert parts[0..] == parts;
    while i < |parts|
      invariant 0 <= i <= |parts| && Octets(parts[i..], result) == Octets(parts, 0)
    {
      assert parts[i..][0] == parts[i] && parts[i..][1..] == parts[i + 1..];
      if !IsDecimal(parts[i]) { return None; }
      DecimalIsHex(parts[i]);
      var octet := NumberOf(parts[i], 10);
      if octet > 255 { return None; }
      result := result * 256 + octet;
      i := i + 1;
    }
    return Some(result);
  }

  function Groups(parts: seq<string>): Option<seq<nat>>
    decreases |parts|
  {
    if parts == [] then Some([])
    else if !IsHexGroup(parts[0]) then None
    else match Groups(parts[1..])
      case None => None
      case Some(rest) => Some([NumberOf(parts[0], 16)] + rest)
  }

  /** `toGroups` */
  function GroupsOf(segment: string): Option<seq<nat>> {
    if segment == "" then Some([]) else Groups(SplitOn(segment, ':'))
  }

  /** Groups parsed later go behind those parsed before. */
  function Behind(groups: seq<nat>, rest: Option<seq<nat>>): Option<seq<nat>> {
    if rest.None? then None else Some(groups + rest.value)
  }

  lemma BehindNone(rest: Option<seq<nat>>)
    ensures Behind([], rest) == rest
  {
    if rest.Some? { assert [] + rest.value == rest.value; }
  }

  lemma GroupsStep(parts: seq<string>, groups: seq<nat>)
    requires parts != []
    ensures Behind(groups, Groups(parts)) ==
      if IsHexGroup(parts[0]) then Behind(groups + [NumberOf(parts[0], 16)], Groups(parts[1..])) else None
  {
    var rest := Groups(parts[1..]);
    if IsHexGroup(parts[0]) && rest.Some? {
      assert groups + ([NumberOf(parts[0], 16)] + rest.value) == groups + [NumberOf(parts[0], 16)] + rest.value;
    }
  }

  function JoinWith(parts: seq<string>, c: char): string
    requires parts != []
  {
    if |parts| == 1 then parts[0] else parts[0] + [c] + JoinWith(parts[1..], c)
  }

  /** Each part is a hexadecimal group of that value. */
  ghost predicate Spell(parts: seq<string>, groups: seq<nat>) {
    |parts| == |groups|
    && forall i :: 0 <= i < |parts| ==> IsHexGroup(parts[i]) && NumberOf(parts[i], 16) == groups[i]
  }

  /** The groups in hexadecimal, with colons between them. */
  ghost predicate Spells(s: string, groups: seq<nat>) {
    if groups == [] then s == "" else exists parts :: parts != [] && JoinWith(parts, ':') == s && Spell(parts, groups)
  }

  /** Accepted are exactly the texts of hexadecimal groups, with their values. */
  method ToGroups(segment: string) returns (r: Option<seq<nat>>)
    ensures r == GroupsOf(segment)
    ensures forall g: seq<nat> :: r == Some(g) <==> Spells(segment, g)
  {
    forall g: seq<nat> ensures GroupsOf(segment) == Some(g) <==> Spells(segment, g) { GroupsOfIff(segment, g); }
    if segment == "" { return Some([]); }
    var parts := SplitOn(segment, ':');
    var groups, i := [], 0;
    assert parts[0..] == parts;
    BehindNone(Groups(parts));
    while i < |parts|
      invariant 0 <= i <= |parts|
      invariant Groups(parts) == Behind(groups, Groups(parts[i..]))
    {
      hide Groups;
      GroupsStep(parts[i..], groups);
      assert parts[i..][0] == parts[i] && parts[i..][1..] == parts[i + 1..];
      if !IsHexGroup(parts[i]) { return None; }
      groups := groups + [NumberOf(parts[i], 16)];
      i := i + 1;
    }
    assert groups + [] == groups;
    return Some(groups);
  }

  function Zeros(n: nat): seq<nat> { seq(n, i => 0) }

  /** `parseIpv6` */
  function Ipv6Of(value: string): Option<seq<nat>> {
    if ':' !in value then None
    else
      var halves := SplitOnDouble(value);
      if |halves| > 2 then None
      else match GroupsOf(halves[0])
        case None => None
        case Some(head) =>
          if |halves| == 1 then (if |head| == 8 then Some(head) else None)
          else match GroupsOf(halves[1])
            case None => None
            case Some(tail) =>
              if 8 - |head| - |tail| < 0 then None else Some(head + Zeros(8 - |head| - |tail|) + tail)
  }

  /** `parseIp` */
  function Parse(raw: string): Option<Ip> {
    var value := Normalize(raw);
    match Ipv4Of(value)
    case Some(v) => Some(V4(v))
    case None => match Ipv6Of(value) case Some(g) => Some(V6(g)) case None => None
  }

  // ---- Formatting ----

  function Digit(n: nat): char
    requires n < 16
  {
    if n < 10 then ('0' as int + n) as char else ('a' as int + n - 10) as char
  }

  /** A number below 256 in decimal. */
  function Octet(n: nat): string
    requires n < 256
  {
    if n < 10 then [Digit(n)]
    else if n < 100 then [Digit(n / 10), Digit(n % 10)]
    else [Digit(n / 100), Digit(n / 10 % 10), Digit(n % 10)]
  }

  /** Four hexadecimal digits, padded with zeros. */
  function Group(n: nat): string
    requires n < 0x1_0000
  {
    [Digit(n / 4096), Digit(n / 256 % 16), Digit(n / 16 % 16), Digit(n % 16)]
  }

  function JoinGroups(g: seq<nat>): string
    requires forall i :: 0 <= i < |g| ==> g[i] < 0x1_0000
  {
    if g == [] then "" else if |g| == 1 then Group(g[0]) else Group(g[0]) + ":" + JoinGroups(g[1..])
  }

  /** `formatIp` */
  function Format(ip: Ip): string
    requires WellFormed(ip)
  {
    match ip
    case V4(v) =>
      Octet(v / 0x100_0000 % 256) + "." + Octet(v / 0x1_0000 % 256) + "." + Octet(v / 0x100 % 256) + "." + Octet(v % 256)
    case V6(g) => JoinGroups(g)
  }

  // ---- Parsing gives well-formed addresses ----

  lemma {:induction false} OctetsAreSmall(parts: seq<string>, acc: nat, n: nat)
    requires acc < n && Octets(parts, acc).Some? && n >= 1
    ensures Octets(parts, acc).value < Scale(n, |parts|)
    decreases |parts|
  {
    if parts != [] {
      DecimalIsHex(parts[0]);
      OctetsAreSmall(parts[1..], acc * 256 + NumberOf(parts[0], 10), n * 256);
    }
  }

  function Scale(n: nat, k: nat): nat
    decreases k
  {
    if k == 0 then n else Scale(n * 256, k - 1)
  }

  lemma {:induction false} HexGroupIsSmall(s: string)
    requires All(s, IsHex) && |s| <= 4
    ensures NumberOf(s, 16) < [1, 16, 256, 4096, 0x1_0000][|s|]
  {
    if s != "" { HexGroupIsSmall(s[..|s| - 1]); }
  }

  lemma {:induction false} GroupsAreSmall(parts: seq<string>)
    ensures var r := Groups(parts); r.Some? ==> |r.value| == |parts| && forall i :: 0 <= i < |r.value| ==> r.value[i] < 0x1_0000
    decreases |parts|
  {
    if parts != [] && IsHexGroup(parts[0]) {
      HexGroupIsSmall(parts[0]);
      GroupsAreSmall(parts[1..]);
    }
  }

  /** Whatever text is accepted, the address is well formed. */
  lemma ParseGivesWellFormed(raw: string)
    ensures Parse(raw).Some? ==> WellFormed(Parse(raw).value)
  {
    hide Normalize, SplitOn, SplitOnDouble, Groups;
    var value := Normalize(raw);
    if Ipv4Of(value).Some? {
      OctetsAreSmall(SplitOn(value, '.'), 0, 1);
      assert Scale(1, 4) == 0x1_0000_0000;
    } else if Ipv6Of(value).Some? {
      var halves := SplitOnDouble(value);
      GroupsAreSmall(SplitOn(halves[0], ':'));
      if |halves| == 2 { GroupsAreSmall(SplitOn(halves[1], ':')); }
    }
  }

  // ---- Formatting and parsing again ----

  lemma {:induction false} SplitAtFirst(a: string, c: char, rest: string)
    requires c !in a
    ensures SplitOn(a + [c] + rest, c) == [a] + SplitOn(rest, c)
  {
    var s := a + [c] + rest;
    if a == "" {
      assert s[1..] == rest;
    } else {
      assert s[1..] == a[1..] + [c] + rest && a == [a[0]] + a[1..];
      SplitAtFirst(a[1..], c, rest);
    }
  }

  lemma {:induction false} SplitNone(a: string, c: char)
    requires c !in a
    ensures SplitOn(a, c) == [a]
  {
    if a != "" {
      SplitNone(a[1..], c);
      assert a == [a[0]] + a[1..];
    }
  }

  lemma DigitsAreDigits(n: nat)
    requires n < 16
    ensures IsHex(Digit(n)) && DigitValue(Digit(n)) == n && (n < 10 ==> IsDigit(Digit(n)))
  {}

  lemma NumberPush(s: string, n: nat, base: nat)
    requires All(s, IsHex) && n < 16
    ensures All(s + [Digit(n)], IsHex) && NumberOf(s + [Digit(n)], base) == NumberOf(s, base) * base + n
  {
    DigitsAreDigits(n);
    var t := s + [Digit(n)];
    assert t[..|t| - 1] == s;
  }

  lemma NumberOfNone(base: nat)
    ensures NumberOf("", base) == 0
  {}

  lemma ThreeDigits(a: nat, b: nat, c: nat)
    requires a < 16 && b < 16 && c < 16
    ensures NumberOf([], 10) == 0 && All([Digit(c)], IsHex) && NumberOf([Digit(c)], 10) == c
    ensures var s := [Digit(b), Digit(c)]; All(s, IsHex) && NumberOf(s, 10) == b * 10 + c
    ensures var s := [Digit(a), Digit(b), Digit(c)]; All(s, IsHex) && NumberOf(s, 10) == (a * 10 + b) * 10 + c
  {
    hide NumberOf, Digit;
    NumberOfNone(10);
    assert forall x: char :: "" + [x] == [x];
    assert forall x: char, y: char :: [x] + [y] == [x, y];
    assert [Digit(a), Digit(b)] + [Digit(c)] == [Digit(a), Digit(b), Digit(c)];
    NumberPush("", a, 10);
    NumberPush("", b, 10);
    NumberPush("", c, 10);
    NumberPush([Digit(b)], c, 10);
    NumberPush([Digit(a)], b, 10);
    NumberPush([Digit(a), Digit(b)], c, 10);
  }

  /** An octet reads back. */
  lemma OctetReadsBack(n: nat)
    requires n < 256
    ensures IsDecimal(Octet(n)) && All(Octet(n), IsHex) && NumberOf(Octet(n), 10) == n
  {
    hide NumberOf, Digit;
    DigitsAreDigits(n / 100);
    DigitsAreDigits(n / 10 % 10);
    DigitsAreDigits(n % 10);
    ThreeDigits(n / 100, n / 10 % 10, n % 10);
  }

  lemma FourDigits(a: nat, b: nat, c: nat, d: nat)
    requires a < 16 && b < 16 && c < 16 && d < 16
    ensures var s := [Digit(a), Digit(b), Digit(c), Digit(d)];
      All(s, IsHex) && NumberOf(s, 16) == ((a * 16 + b) * 16 + c) * 16 + d
  {
    hide NumberOf, Digit;
    NumberOfNone(16);
    assert "" + [Digit(a)] == [Digit(a)] && [Digit(a)] + [Digit(b)] == [Digit(a), Digit(b)];
    assert [Digit(a), Digit(b)] + [Digit(c)] == [Digit(a), Digit(b), Digit(c)];
    assert [Digit(a), Digit(b), Digit(c)] + [Digit(d)] == [Digit(a), Digit(b), Digit(c), Digit(d)];
    NumberPush("", a, 16);
    NumberPush([Digit(a)], b, 16);
    NumberPush([Digit(a), Digit(b)], c, 16);
    NumberPush([Digit(a), Digit(b), Digit(c)], d, 16);
  }

  lemma HexDigitsOf(n: nat)
    requires n < 0x1_0000
    ensures ((n / 4096 * 16 + n / 256 % 16) * 16 + n / 16 % 16) * 16 + n % 16 == n
  {
    assert n / 16 == n / 256 * 16 + n / 16 % 16;
    assert n / 256 == n / 4096 * 16 + n / 256 % 16;
  }

  /** A group reads back. */
  lemma GroupReadsBack(n: nat)
    requires n < 0x1_0000
    ensures IsHexGroup(Group(n)) && All(Group(n), IsHex) && NumberOf(Group(n), 16) == n
  {
    hide NumberOf, Digit;
    FourDigits(n / 4096, n / 256 % 16, n / 16 % 16, n % 16);
    HexDigitsOf(n);
  }

  predicate Plain4(s: string) {
    s != "" && forall i :: 0 <= i < |s| ==> IsDigit(s[i]) || (s[i] == '.' && 0 < i < |s| - 1)
  }

  predicate Plain6(s: string) {
    s != "" && forall i :: 0 <= i < |s| ==> IsHex(s[i]) || (s[i] == ':' && 0 < i < |s| - 1)
  }

  lemma DigitsJoin(a: string, rest: string)
    requires IsDecimal(a) && Plain4(rest)
    ensures Plain4(a) && Plain4(a + ['.'] + rest)
  {
    var s := a + ['.'] + rest;
    assert forall i :: 0 <= i < |s| ==> s[i] == if i < |a| then a[i] else if i == |a| then '.' else rest[i - |a| - 1];
  }

  lemma TrimKeeps(s: string)
    requires s != "" && !IsSpace(s[0]) && !IsSpace(s[|s| - 1])
    ensures Trim(s) == s
  {}

  lemma NormalizeKeeps4(s: string)
    requires Plain4(s)
    ensures Normalize(s) == s
  {
    TrimKeeps(s);
    assert ':' !in s && s[0] != ':';
    SplitNone(s, ':');
    assert MAPPED[0] == ':' && Lower(s[0]) != ':';
  }

  lemma NormalizeKeeps6(s: string)
    requires Plain6(s)
    ensures Normalize(s) == s
  {
    TrimKeeps(s);
    assert '.' !in s && Lower(s[0]) != ':' && MAPPED[0] == ':';
  }

  lemma Ipv4ReadsBack(a: nat, b: nat, c: nat, d: nat)
    requires a < 256 && b < 256 && c < 256 && d < 256
    ensures var s := Octet(a) + "." + Octet(b) + "." + Octet(c) + "." + Octet(d);
      Plain4(s) && Ipv4Of(s) == Some(((a * 256 + b) * 256 + c) * 256 + d)
  {
    hide Octet, NumberOf, SplitOn, Octets;
    OctetReadsBack(a);
    OctetReadsBack(b);
    OctetReadsBack(c);
    OctetReadsBack(d);
    var s3 := Octet(d);
    var s2 := Octet(c) + ['.'] + s3;
    var s1 := Octet(b) + ['.'] + s2;
    var s0 := Octet(a) + ['.'] + s1;
    assert Plain4(s3);
    DigitsJoin(Octet(c), s3);
    DigitsJoin(Octet(b), s2);
    DigitsJoin(Octet(a), s1);
    hide Plain4;
    SplitNone(s3, '.');
    SplitAtFirst(Octet(c), '.', s3);
    SplitAtFirst(Octet(b), '.', s2);
    SplitAtFirst(Octet(a), '.', s1);
    assert Octet(a) + "." + Octet(b) + "." + Octet(c) + "." + Octet(d) == s0;
    var parts := SplitOn(s0, '.');
    assert parts == [Octet(a)] + ([Octet(b)] + ([Octet(c)] + ([Octet(d)] + [])));
    OctetsStep(Octet(a), [Octet(b)] + ([Octet(c)] + ([Octet(d)] + [])), 0);
    OctetsStep(Octet(b), [Octet(c)] + ([Octet(d)] + []), a);
    OctetsStep(Octet(c), [Octet(d)] + [], a * 256 + b);
    OctetsStep(Octet(d), [], (a * 256 + b) * 256 + c);
    OctetsEnd(((a * 256 + b) * 256 + c) * 256 + d);
  }

  lemma OctetsStep(part: string, rest: seq<string>, acc: nat)
    requires IsDecimal(part) && All(part, IsHex) && NumberOf(part, 10) <= 255
    ensures Octets([part] + rest, acc) == Octets(rest, acc * 256 + NumberOf(part, 10))
  {
    assert ([part] + rest)[1..] == rest;
  }

  lemma OctetsEnd(acc: nat)
    ensures Octets([], acc) == Some(acc)
  {}

  lemma JoinShape(g: seq<nat>)
    requires |g| > 1 && forall i :: 0 <= i < |g| ==> g[i] < 0x1_0000
    ensures JoinGroups(g) == Group(g[0]) + [':'] + JoinGroups(g[1..]) && g == [g[0]] + g[1..]
  {}

  lemma GroupIsPlain(n: nat)
    requires n < 0x1_0000
    ensures ':' !in Group(n) && Plain6(Group(n))
  {
    GroupReadsBack(n);
    hide Digit;
    assert forall i :: 0 <= i < 4 ==> IsHex(Group(n)[i]);
  }

  lemma PlainJoins(a: string, rest: string)
    requires Plain6(a) && Plain6(rest)
    ensures Plain6(a + [':'] + rest) && ':' in a + [':'] + rest
  {
    var s := a + [':'] + rest;
    assert s[|a|] == ':';
    assert forall i :: 0 <= i < |s| ==> s[i] == if i < |a| then a[i] else if i == |a| then ':' else rest[i - |a| - 1];
  }

  lemma {:induction false} JoinReadsBack(g: seq<nat>)
    requires g != [] && forall i :: 0 <= i < |g| ==> g[i] < 0x1_0000
    ensures var s := JoinGroups(g);
      && Plain6(s) && Groups(SplitOn(s, ':')) == Some(g) && SplitOnDouble(s) == [s]
      && (|g| > 1 ==> ':' in s)
    decreases |g|
  {
    hide Group, NumberOf, SplitOn, SplitOnDouble, Plain6, Groups, IsHexGroup;
    var s, first := JoinGroups(g), Group(g[0]);
    GroupReadsBack(g[0]);
    GroupIsPlain(g[0]);
    GroupsOfOne(first, []);
    if |g| == 1 {
      assert s == first && g == [g[0]];
      SplitNone(s, ':');
      NoDouble(s, "");
      assert s + "" == s;
    } else {
      var rest := JoinGroups(g[1..]);
      JoinReadsBack(g[1..]);
      JoinShape(g);
      SplitAtFirst(first, ':', rest);
      GroupsOfOne(first, SplitOn(rest, ':'));
      PlainJoins(first, rest);
      PlainStart(rest);
      SingleColon(rest);
      NoDouble(first, [':'] + rest);
      assert first + ([':'] + rest) == s;
    }
  }

  lemma PlainStart(s: string)
    requires Plain6(s)
    ensures s != "" && s[0] != ':'
  {}

  lemma GroupsOfOne(part: string, rest: seq<string>)
    requires IsHexGroup(part)
    ensures Groups([part] + rest) == if Groups(rest).None? then None else Some([NumberOf(part, 16)] + Groups(rest).value)
    ensures rest == [] ==> Groups(rest) == Some([]) && Groups([part]) == Some([NumberOf(part, 16)])
  {
    assert ([part] + rest)[1..] == rest;
    if rest == [] { assert [part] + rest == [part] && [NumberOf(part, 16)] + [] == [NumberOf(part, 16)]; }
  }

  lemma SingleColon(rest: string)
    requires rest != "" && rest[0] != ':' && SplitOnDouble(rest) == [rest]
    ensures SplitOnDouble([':'] + rest) == [[':'] + rest]
  {
    assert ([':'] + rest)[1..] == rest && ([':'] + rest)[1] == rest[0];
  }

  /** Text without a colon in front changes nothing. */
  lemma {:induction false} NoDouble(a: string, rest: string)
    requires ':' !in a && (rest == "" || SplitOnDouble(rest) == [rest])
    ensures SplitOnDouble(a + rest) == [a + rest]
  {
    if a == "" {
      assert a + rest == rest;
    } else {
      assert (a + rest)[1..] == a[1..] + rest;
      NoDouble(a[1..], rest);
      assert a + rest == [a[0]] + (a[1..] + rest);
    }
  }

  lemma NotDotted(s: string)
    requires Plain6(s)
    ensures Ipv4Of(s) == None
  {
    assert '.' !in s;
    SplitNone(s, '.');
  }

  lemma OctetsOf(v: nat)
    requires v < 0x1_0000_0000
    ensures ((v / 0x100_0000 % 256 * 256 + v / 0x1_0000 % 256) * 256 + v / 0x100 % 256) * 256 + v % 256 == v
  {
    assert v / 0x100 == v / 0x1_0000 * 256 + v / 0x100 % 256;
    assert v / 0x1_0000 == v / 0x100_0000 * 256 + v / 0x1_0000 % 256;
  }

  lemma V4ReadsBack(v: nat)
    requires v < 0x1_0000_0000
    ensures Parse(Format(V4(v))) == Some(V4(v))
  {
    hide Octet, Normalize, Ipv4Of, Plain4;
    Ipv4ReadsBack(v / 0x100_0000 % 256, v / 0x1_0000 % 256, v / 0x100 % 256, v % 256);
    OctetsOf(v);
    NormalizeKeeps4(Format(V4(v)));
  }

  lemma V6ReadsBack(g: seq<nat>)
    requires WellFormed(V6(g))
    ensures Parse(Format(V6(g))) == Some(V6(g))
  {
    hide Normalize, JoinGroups, Plain6, Ipv4Of, Groups, SplitOn, SplitOnDouble;
    JoinReadsBack(g);
    NormalizeKeeps6(JoinGroups(g));
    NotDotted(JoinGroups(g));
  }

  /** Formatting and parsing give every well-formed address back. */
  lemma ParseUndoesFormat(ip: Ip)
    requires WellFormed(ip)
    ensures Parse(Format(ip)) == Some(ip)
  {
    match ip
    case V4(v) => V4ReadsBack(v);
    case V6(g) => V6ReadsBack(g);
  }

  // ---- What is accepted ----

  lemma {:induction false} JoinUndoesSplit(s: string, c: char)
    ensures JoinWith(SplitOn(s, c), c) == s && forall i :: 0 <= i < |SplitOn(s, c)| ==> c !in SplitOn(s, c)[i]
  {
    if s != "" {
      JoinUndoesSplit(s[1..], c);
      SplitStep(s, c);
      hide SplitOn, JoinWith;
      var r := SplitOn(s[1..], c);
      assert s == [s[0]] + s[1..];
      if s[0] == c {
        JoinStep("", r, c);
      } else if |r| == 1 {
        JoinOne([s[0]] + r[0], c);
        JoinOne(r[0], c);
        assert r == [r[0]] && [[s[0]] + r[0]] + r[1..] == [[s[0]] + r[0]];
      } else {
        JoinStep([s[0]] + r[0], r[1..], c);
        JoinStep(r[0], r[1..], c);
        assert r == [r[0]] + r[1..];
      }
    }
  }

  lemma JoinOne(part: string, c: char)
    ensures JoinWith([part], c) == part
  {}

  lemma SplitStep(s: string, c: char)
    requires s != ""
    ensures var r := SplitOn(s[1..], c); SplitOn(s, c) == if s[0] == c then [""] + r else [[s[0]] + r[0]] + r[1..]
  {}

  lemma JoinStep(part: string, rest: seq<string>, c: char)
    requires rest != []
    ensures JoinWith([part] + rest, c) == part + [c] + JoinWith(rest, c)
  {
    assert ([part] + rest)[1..] == rest;
  }

  lemma {:induction false} SplitUndoesJoin(parts: seq<string>, c: char)
    requires parts != [] && forall i :: 0 <= i < |parts| ==> c !in parts[i]
    ensures SplitOn(JoinWith(parts, c), c) == parts
    decreases |parts|
  {
    hide SplitOn;
    if |parts| == 1 {
      SplitNone(parts[0], c);
      assert parts == [parts[0]];
    } else {
      SplitUndoesJoin(parts[1..], c);
      SplitAtFirst(parts[0], c, JoinWith(parts[1..], c));
      assert parts == [parts[0]] + parts[1..];
    }
  }

  lemma FourJoined(a: string, b: string, c: string, d: string)
    ensures JoinWith([a, b, c, d], '.') == a + "." + b + "." + c + "." + d
  {
    assert [a, b, c, d] == [a] + [b, c, d] && [b, c, d] == [b] + [c, d] && [c, d] == [c] + [d];
    JoinStep(a, [b, c, d], '.');
    JoinStep(b, [c, d], '.');
    JoinStep(c, [d], '.');
    assert JoinWith([d], '.') == d;
  }

  lemma FourOctets(a: string, b: string, c: string, d: string)
    ensures Octets([a, b, c, d], 0) ==
      if IsOctet(a) && IsOctet(b) && IsOctet(c) && IsOctet(d) then Some(QuadValue(a, b, c, d)) else None
  {
    hide NumberOf;
    OctetsFirst(a, [b, c, d], 0);
    if IsOctet(a) { OctetsFirst(b, [c, d], NumberOf(a, 10)); }
    if IsOctet(a) && IsOctet(b) { OctetsFirst(c, [d], NumberOf(a, 10) * 256 + NumberOf(b, 10)); }
    if IsOctet(a) && IsOctet(b) && IsOctet(c) {
      OctetsFirst(d, [], (NumberOf(a, 10) * 256 + NumberOf(b, 10)) * 256 + NumberOf(c, 10));
    }
  }

  lemma OctetsFirst(part: string, rest: seq<string>, acc: nat)
    ensures Octets([part] + rest, acc) == if IsOctet(part) then Octets(rest, acc * 256 + NumberOf(part, 10)) else None
    ensures rest == [] ==> [part] == [part] + rest
  {
    assert ([part] + rest)[1..] == rest;
    if IsDecimal(part) { DecimalIsHex(part); }
  }

  lemma Ipv4OfIff(s: string, v: nat)
    ensures Ipv4Of(s) == Some(v) <==> IsQuadOf(s, v)
  {
    hide SplitOn, Octets, NumberOf, JoinWith;
    if Ipv4Of(s) == Some(v) {
      var p := SplitOn(s, '.');
      JoinUndoesSplit(s, '.');
      assert p == [p[0], p[1], p[2], p[3]];
      FourOctets(p[0], p[1], p[2], p[3]);
      FourJoined(p[0], p[1], p[2], p[3]);
      assert IsQuad(s, p[0], p[1], p[2], p[3]);
    }
    forall a, b, c, d | IsQuad(s, a, b, c, d) ensures Ipv4Of(s) == Some(QuadValue(a, b, c, d)) {
      var p := [a, b, c, d];
      assert forall i :: 0 <= i < 4 ==> '.' !in p[i];
      FourJoined(a, b, c, d);
      SplitUndoesJoin(p, '.');
      FourOctets(a, b, c, d);
    }
  }

  lemma {:induction false} GroupsIff(parts: seq<string>, g: seq<nat>)
    ensures Groups(parts) == Some(g) <==> Spell(parts, g)
    decreases |parts|
  {
    if parts != [] {
      var rest := Groups(parts[1..]);
      if g != [] { GroupsIff(parts[1..], g[1..]); }
      if Groups(parts) == Some(g) {
        assert g[1..] == rest.value;
        assert forall i :: 0 < i < |parts| ==> parts[i] == parts[1..][i - 1] && g[i] == g[1..][i - 1];
      }
      if Spell(parts, g) {
        assert g == [g[0]] + g[1..];
        assert forall i :: 0 <= i < |parts| - 1 ==> parts[1..][i] == parts[i + 1] && g[1..][i] == g[i + 1];
      }
    }
  }

  lemma GroupsOfIff(s: string, g: seq<nat>)
    ensures GroupsOf(s) == Some(g) <==> Spells(s, g)
  {
    hide SplitOn, Groups, NumberOf, JoinWith, Spell;
    var p := SplitOn(s, ':');
    GroupsIff(p, g);
    JoinUndoesSplit(s, ':');
    SpellIsAsLong(p, g);
    forall parts | parts != [] && JoinWith(parts, ':') == s && Spell(parts, g) ensures p == parts && s != "" {
      SpellsApart(parts, g);
      SplitUndoesJoin(parts, ':');
    }
  }

  lemma SpellIsAsLong(parts: seq<string>, g: seq<nat>)
    ensures Spell(parts, g) ==> |parts| == |g|
  {}

  lemma SpellsApart(parts: seq<string>, g: seq<nat>)
    requires parts != [] && Spell(parts, g)
    ensures JoinWith(parts, ':') != "" && forall i :: 0 <= i < |parts| ==> ':' !in parts[i]
  {}

  /** Eight groups, or two lists of groups around a double colon that stands for zeros. */
  ghost predicate IsIpv6Of(s: string, g: seq<nat>) {
    (|g| == 8 && Spells(s, g))
    || exists head, tail, before, after :: Compresses(s, g, head, tail, before, after)
  }

  ghost predicate Compresses(s: string, g: seq<nat>, head: string, tail: string, before: seq<nat>, after: seq<nat>) {
    && s == head + "::" + tail && Spells(head, before) && Spells(tail, after)
    && |before| + |after| <= 8 && g == before + Zeros(8 - |before| - |after|) + after
  }

  /** No double colon inside, and no colon at either end. */
  predicate Single(s: string) {
    && (s != "" ==> s[0] != ':' && s[|s| - 1] != ':')
    && forall i :: 0 < i < |s| ==> !(s[i - 1] == ':' && s[i] == ':')
  }

  lemma {:induction false} SpellsIsSingle(parts: seq<string>, g: seq<nat>)
    requires parts != [] && Spell(parts, g)
    ensures Single(JoinWith(parts, ':')) && JoinWith(parts, ':') != ""
    ensures forall i :: 0 <= i < |JoinWith(parts, ':')| ==> IsHex(JoinWith(parts, ':')[i]) || JoinWith(parts, ':')[i] == ':'
    decreases |parts|
  {
    if |parts| > 1 {
      var s, rest := JoinWith(parts, ':'), JoinWith(parts[1..], ':');
      SpellsIsSingle(parts[1..], g[1..]);
      var n := |parts[0]|;
      assert forall i :: 0 <= i < |s| ==> s[i] == if i < n then parts[0][i] else if i == n then ':' else rest[i - n - 1];
    }
  }

  /** Text before and after a double colon. */
  lemma {:induction false} DoubleSplits(head: string, tail: string)
    requires Single(head) && Single(tail)
    ensures SplitOnDouble(head + "::" + tail) == [head, tail]
    decreases |head|
  {
    var s := head + "::" + tail;
    if head == "" {
      assert s[2..] == tail;
      NoDoubleInside(tail);
    } else {
      assert s[0] == head[0] && s[1] == if |head| > 1 then head[1] else ':';
      assert s[1..] == head[1..] + "::" + tail && head == [head[0]] + head[1..];
      assert forall i :: 0 < i < |head| - 1 ==> head[1..][i] == head[i + 1] && head[1..][i - 1] == head[i];
      if |head| > 1 && head[1] == ':' { ColonBeforeDouble(head, tail); } else { DoubleSplits(head[1..], tail); }
    }
  }

  /** A colon that stands between two groups does not pair with what follows. */
  lemma ColonBeforeDouble(head: string, tail: string)
    requires |head| > 1 && head[1] == ':' && Single(head) && Single(tail)
    ensures SplitOnDouble(head + "::" + tail) == [head, tail]
    decreases |head|, 0
  {
    var last := head[2..];
    SingleAfter(head);
    DoubleSplits(last, tail);
    hide Single;
    var s := last + "::" + tail;
    assert head + "::" + tail == [head[0]] + ([':'] + s) && head == [head[0]] + ([':'] + last) by { hide SplitOnDouble; }
    StepOver(':', s);
    StepOver(head[0], [':'] + s);
    assert [':'] + last != "" && s[0] == last[0];
  }

  lemma SingleAfter(head: string)
    requires |head| > 1 && head[1] == ':' && Single(head)
    ensures |head| > 2 && head[2] != ':' && head[0] != ':' && Single(head[2..])
  {
    assert forall i :: 0 <= i < |head| - 2 ==> head[2..][i] == head[i + 2];
  }

  lemma StepOver(c: char, s: string)
    requires s != "" && !(c == ':' && s[0] == ':')
    ensures var r := SplitOnDouble(s); SplitOnDouble([c] + s) == [[c] + r[0]] + r[1..]
  {
    assert ([c] + s)[1..] == s;
  }

  predicate Doubleless(s: string) { forall i :: 0 < i < |s| ==> !(s[i - 1] == ':' && s[i] == ':') }

  lemma {:induction false} NoDoubleInside(s: string)
    requires Doubleless(s)
    ensures SplitOnDouble(s) == [s]
  {
    if |s| >= 2 {
      assert s[1] == s[0 + 1];
      assert forall i :: 0 < i < |s| - 1 ==> s[1..][i] == s[i + 1] && s[1..][i - 1] == s[i];
      NoDoubleInside(s[1..]);
      assert s == [s[0]] + s[1..];
    }
  }

  /** One part is the whole text; two parts stood around a double colon. */
  lemma {:induction false} DoubleRejoins(s: string)
    ensures var r := SplitOnDouble(s); (|r| == 1 ==> r[0] == s) && (|r| == 2 ==> s == r[0] + "::" + r[1])
    decreases |s|
  {
    if |s| >= 2 {
      if s[0] == ':' && s[1] == ':' {
        DoubleRejoins(s[2..]);
        assert s == "::" + s[2..];
      } else {
        DoubleRejoins(s[1..]);
        assert s == [s[0]] + s[1..];
      }
    }
  }

  lemma SpelledIsSingle(s: string, g: seq<nat>)
    requires Spells(s, g)
    ensures Single(s) && (|g| > 1 ==> ':' in s) && forall i :: 0 <= i < |s| ==> IsHex(s[i]) || s[i] == ':'
  {
    if g != [] {
      var parts :| parts != [] && JoinWith(parts, ':') == s && Spell(parts, g);
      SpellsIsSingle(parts, g);
      if |g| > 1 { assert s[|parts[0]|] == ':'; }
    }
  }

  /** Which texts are version 6 addresses, and of which groups. */
  lemma Ipv6OfIff(s: string, g: seq<nat>)
    ensures Ipv6Of(s) == Some(g) <==> IsIpv6Of(s, g)
  {
    hide SplitOnDouble, GroupsOf, Spells, Zeros, Single;
    DoubleRejoins(s);
    if Ipv6Of(s) == Some(g) {
      var r := SplitOnDouble(s);
      var before := GroupsOf(r[0]).value;
      GroupsOfIff(r[0], before);
      if |r| == 2 {
        GroupsOfIff(r[1], GroupsOf(r[1]).value);
        assert Compresses(s, g, r[0], r[1], before, GroupsOf(r[1]).value);
      }
    }
    if |g| == 8 && Spells(s, g) {
      SpelledIsSingle(s, g);
      GroupsOfIff(s, g);
      SingleIsDoubleless(s);
      NoDoubleInside(s);
    }
    forall head, tail, before, after | Compresses(s, g, head, tail, before, after) ensures Ipv6Of(s) == Some(g) {
      SpelledIsSingle(head, before);
      SpelledIsSingle(tail, after);
      GroupsOfIff(head, before);
      GroupsOfIff(tail, after);
      DoubleSplits(head, tail);
      assert s[|head|] == ':';
    }
  }

  lemma SingleIsDoubleless(s: string)
    requires Single(s)
    ensures Doubleless(s)
  {}

  // ---- One bucket for each host ----

  /** `canonicalizeIp` */
  function Canonicalize(raw: string): Option<string> {
    ParseGivesWellFormed(raw);
    if Parse(raw).None? then None else Some(Format(Parse(raw).value))
  }

  /** Canonical text is its own canonical form. */
  lemma CanonicalizeIsIdempotent(raw: string)
    ensures var c := Canonicalize(raw); c.Some? ==> Canonicalize(c.value) == c
  {
    hide Parse, Format;
    ParseGivesWellFormed(raw);
    if Parse(raw).Some? { ParseUndoesFormat(Parse(raw).value); }
  }

  /** A version 6 address that stands for a version 4 host (section 2.5.5.2 of RFC 4291). */
  predicate IsMapped(ip: Ip) {
    ip.V6? && |ip.groups| == 8 && ip.groups[..6] == [0, 0, 0, 0, 0, 0xffff]
  }

  /** The host an address names. */
  function Host(ip: Ip): Ip {
    if IsMapped(ip) then V4(ip.groups[6] * 0x1_0000 + ip.groups[7]) else ip
  }

  /** Two accepted texts share a bucket exactly when they name one host and either both or neither
      are version 4 addresses written as a version 6 one in hexadecimal. */
  lemma OneBucketPerHostIff(a: string, b: string)
    requires Parse(a).Some? && Parse(b).Some?
    ensures Canonicalize(a) == Canonicalize(b) <==>
      (Host(Parse(a).value) == Host(Parse(b).value) && (IsMapped(Parse(a).value) <==> IsMapped(Parse(b).value)))
  {
    hide Parse, Host;
    var x, y := Parse(a).value, Parse(b).value;
    ParseGivesWellFormed(a);
    ParseGivesWellFormed(b);
    OneBucketPerAddress(a, b);
    HostIsInjective(x, y);
  }

  lemma HostIsInjective(x: Ip, y: Ip)
    requires WellFormed(x) && WellFormed(y)
    ensures Host(x) == Host(y) && (IsMapped(x) <==> IsMapped(y)) <==> x == y
  {
    if IsMapped(x) && IsMapped(y) && Host(x) == Host(y) {
      var g, h := x.groups, y.groups;
      assert g == g[..6] + [g[6], g[7]] && h == h[..6] + [h[6], h[7]];
    }
  }

  function MappedGroups(v: nat): seq<nat> { [0, 0, 0, 0, 0, 0xffff, v / 0x1_0000, v % 0x1_0000] }

  /** Every version 4 host has a second bucket under its hexadecimal spelling. */
  lemma EveryHostHasTwoBuckets(v: nat)
    requires v < 0x1_0000_0000
    ensures var a, b := Format(V4(v)), HexMapped(v);
      && Parse(a) == Some(V4(v)) && Parse(b) == Some(V6(MappedGroups(v)))
      && Host(Parse(a).value) == Host(Parse(b).value) && Canonicalize(a) != Canonicalize(b)
  {
    hide Parse, Format;
    ParseUndoesFormat(V4(v));
    ParseUndoesFormat(V6(MappedGroups(v)));
    OneBucketPerAddress(Format(V4(v)), HexMapped(v));
    assert MappedGroups(v)[..6] == [0, 0, 0, 0, 0, 0xffff];
  }

  function HexMapped(v: nat): string
    requires v < 0x1_0000_0000
  {
    Format(V6(MappedGroups(v)))
  }

  lemma HexOf102()
    ensures Spells("ffff:102:304", [0xffff, 0x102, 0x304])
  {
    var parts := ["ffff", "102", "304"];
    assert parts == ["ffff"] + ["102", "304"] && ["102", "304"] == ["102"] + ["304"];
    JoinStep("ffff", ["102", "304"], ':');
    JoinStep("102", ["304"], ':');
    assert JoinWith(["304"], ':') == "304";
    assert JoinWith(parts, ':') == "ffff:102:304";
    assert "ffff"[..3] == "fff" && "fff"[..2] == "ff" && "ff"[..1] == "f" && "f"[..0] == "";
    assert "102"[..2] == "10" && "10"[..1] == "1" && "1"[..0] == "";
    assert "304"[..2] == "30" && "30"[..1] == "3" && "3"[..0] == "";
    assert Spell(parts, [0xffff, 0x102, 0x304]);
  }

  /** A decorated mapped address: accepted without brackets, refused within them, for every host. */
  lemma BracketedMappedIsRefused(v: nat)
    requires v < 0x1_0000_0000
    ensures var mapped := MAPPED + Format(V4(v)); Parse(mapped) == Some(V4(v)) && Parse("[" + mapped + "]") == None
  {
    Dotted(v);
    hide *;
    var s := Format(V4(v));
    MappedIsStripped(s);
    BracketsAreStripped(s);
    NotAnAddress(s);
    ParseOf(MAPPED + s, s);
    ParseOf("[" + (MAPPED + s) + "]", MAPPED + s);
    Regroup("[", MAPPED, s, "]");
  }

  lemma Regroup(a: string, b: string, c: string, d: string)
    ensures a + (b + c) + d == a + b + c + d
  {}

  lemma ParseOf(raw: string, value: string)
    requires Normalize(raw) == value
    ensures Ipv4Of(value).Some? ==> Parse(raw) == Some(V4(Ipv4Of(value).value))
    ensures Ipv4Of(value).None? && Ipv6Of(value).Some? ==> Parse(raw) == Some(V6(Ipv6Of(value).value))
    ensures Ipv4Of(value).None? && Ipv6Of(value).None? ==> Parse(raw) == None
  {
    hide Normalize, Ipv4Of, Ipv6Of;
  }

  lemma Dotted(v: nat)
    requires v < 0x1_0000_0000
    ensures Plain4(Format(V4(v))) && Ipv4Of(Format(V4(v))) == Some(v)
  {
    hide Octet, Ipv4Of, Plain4;
    Ipv4ReadsBack(v / 0x100_0000 % 256, v / 0x1_0000 % 256, v / 0x100 % 256, v % 256);
    OctetsOf(v);
  }

  /** One host, two buckets: `1.2.3.4` and `::ffff:102:304`. */
  lemma OneHostTwoBuckets()
    ensures Parse("1.2.3.4") == Some(V4(0x102_0304)) && Parse("::ffff:102:304") == Some(V6(MappedGroups(0x102_0304)))
    ensures Host(V6(MappedGroups(0x102_0304))) == Host(V4(0x102_0304))
    ensures Canonicalize("1.2.3.4") != Canonicalize("::ffff:102:304")
  {
    EveryHostHasTwoBuckets(0x102_0304);
    assert Format(V4(0x102_0304)) == "1.2.3.4" by { DottedLiteral(); }
    HexOf102();
    Literal6();
    hide *;
    ParseOf("::ffff:102:304", "::ffff:102:304");
    OneBucketPerAddress("1.2.3.4", "::ffff:102:304");
  }

  /** Two spellings share a bucket exactly when they are read as one address. */
  lemma OneBucketPerAddress(a: string, b: string)
    requires Parse(a).Some? && Parse(b).Some?
    ensures Canonicalize(a) == Canonicalize(b) <==> Parse(a) == Parse(b)
  {
    hide Parse, Format;
    ParseGivesWellFormed(a);
    ParseGivesWellFormed(b);
    ParseUndoesFormat(Parse(a).value);
    ParseUndoesFormat(Parse(b).value);
  }

  lemma MappedIsStripped(s: string)
    requires Plain4(s) && Ipv4Of(s).Some?
    ensures Normalize(MAPPED + s) == s
  {
    var t := MAPPED + s;
    QuadIsDotted(s);
    ManyColons(t);
    MappedText(s);
    assert Trim(t) == t && Bracketed(t) == None by { TrimKeeps(t); }
    hide SplitOn, Mapped, Trim, Bracketed, Plain4, IsDottedQuad, Ipv4Of;
  }

  lemma MappedText(s: string)
    requires IsDottedQuad(s)
    ensures Mapped(MAPPED + s) == Some(s)
  {
    var t := MAPPED + s;
    hide IsDottedQuad;
    assert t[|MAPPED|..] == s;
    assert forall i :: 0 <= i < |MAPPED| ==> t[i] == MAPPED[i] && Lower(t[i]) == MAPPED[i];
  }

  lemma ManyColons(t: string)
    requires |t| >= 2 && t[0] == ':' && t[1] == ':'
    ensures |SplitOn(t, ':')| > 2
  {
    assert t == "" + [':'] + t[1..] && t[1..] == "" + [':'] + t[2..];
    SplitAtFirst("", ':', t[1..]);
    SplitAtFirst("", ':', t[2..]);
  }

  lemma QuadIsDotted(s: string)
    requires Ipv4Of(s).Some?
    ensures IsDottedQuad(s)
  {
    hide SplitOn, Octets, NumberOf;
    Ipv4OfIff(s, Ipv4Of(s).value);
    var a, b, c, d :| IsQuad(s, a, b, c, d);
    var p := [a, b, c, d];
    FourJoined(a, b, c, d);
    SplitUndoesJoin(p, '.');
  }

  lemma BracketsAreStripped(s: string)
    requires Plain4(s)
    ensures Normalize("[" + (MAPPED + s) + "]") == MAPPED + s
  {
    var t := MAPPED + s;
    var u := "[" + t + "]";
    TrimKeeps(u);
    var body := u[..|u| - 1];
    assert u[|u| - 1..] == "]" && body[1..] == t;
    assert forall i :: 0 <= i < |body| ==> body[i] == if i == 0 then '[' else if i <= |MAPPED| then MAPPED[i - 1] else s[i - 1 - |MAPPED|];
    assert All(body, c => !IsLineEnd(c));
  }

  /** With both colons and points, and no brackets to strip, nothing is an address. */
  lemma NotAnAddress(s: string)
    requires Ipv4Of(s).Some?
    ensures Ipv4Of(MAPPED + s) == None && Ipv6Of(MAPPED + s) == None
  {
    var t := MAPPED + s;
    QuadIsText(s);
    QuadIsText(t);
    PointIn(MAPPED, s);
    assert t[0] == ':';
    hide Ipv4Of, Ipv6Of;
    if Ipv6Of(t).Some? { Ipv6IsBare(t); }
  }

  lemma PointIn(a: string, s: string)
    requires '.' in s
    ensures '.' in a + s
  {
    var i :| 0 <= i < |s| && s[i] == '.';
    assert (a + s)[|a| + i] == '.';
  }

  lemma QuadIsText(s: string)
    ensures Ipv4Of(s).Some? ==> '.' in s && s[0] != ':'
  {
    hide NumberOf, Ipv4Of;
    if Ipv4Of(s).Some? {
      Ipv4OfIff(s, Ipv4Of(s).value);
      var a, b, c, d :| IsQuad(s, a, b, c, d);
      assert s[0] == a[0] && s[|a|] == '.';
    }
  }

  lemma DottedLiteral()
    ensures Format(V4(0x102_0304)) == "1.2.3.4"
  {
    assert Octet(1) == "1" && Octet(2) == "2" && Octet(3) == "3" && Octet(4) == "4";
    hide Octet;
    assert 0x102_0304 / 0x100_0000 % 256 == 1 && 0x102_0304 / 0x1_0000 % 256 == 2;
    assert 0x102_0304 / 0x100 % 256 == 3 && 0x102_0304 % 256 == 4;
  }

  lemma Literal6()
    requires Spells("ffff:102:304", [0xffff, 0x102, 0x304])
    ensures Normalize("::ffff:102:304") == "::ffff:102:304" && Ipv4Of("::ffff:102:304") == None
    ensures Ipv6Of("::ffff:102:304") == Some(MappedGroups(0x102_0304))
  {
    var s, g := "::ffff:102:304", MappedGroups(0x102_0304);
    LiteralIsPlain();
    assert Compresses(s, g, "", "ffff:102:304", [], [0xffff, 0x102, 0x304]) by { LiteralCompresses(); }
    hide *;
    Ipv6OfIff(s, g);
    assert IsIpv6Of(s, g) by { Compressed(s, g, "", "ffff:102:304", [], [0xffff, 0x102, 0x304]); }
  }

  lemma Compressed(s: string, g: seq<nat>, head: string, tail: string, before: seq<nat>, after: seq<nat>)
    requires Compresses(s, g, head, tail, before, after)
    ensures IsIpv6Of(s, g)
  {}

  lemma LiteralIsPlain()
    ensures Normalize("::ffff:102:304") == "::ffff:102:304" && Ipv4Of("::ffff:102:304") == None
  {
    var s := "::ffff:102:304";
    assert forall i :: 0 <= i < |s| ==> s[i] != '.' && s[i] != '[' && !IsSpace(s[i]);
    hide *;
    UndottedIsKept(s);
  }

  lemma UndottedIsKept(s: string)
    requires s != "" && forall i :: 0 <= i < |s| ==> s[i] != '.' && s[i] != '[' && !IsSpace(s[i])
    ensures Normalize(s) == s && Ipv4Of(s) == None
  {
    SplitNone(s, '.');
    if |s| >= |MAPPED| { SplitNone(s[|MAPPED|..], '.'); }
    assert Trim(s) == s by { TrimKeeps(s); }
    hide SplitOn, Trim;
  }

  lemma LiteralCompresses()
    requires Spells("ffff:102:304", [0xffff, 0x102, 0x304])
    ensures Compresses("::ffff:102:304", MappedGroups(0x102_0304), "", "ffff:102:304", [], [0xffff, 0x102, 0x304])
  {
    EmptySpells();
    hide Spells;
    assert MappedGroups(0x102_0304) == [] + Zeros(5) + [0xffff, 0x102, 0x304];
    assert "::ffff:102:304" == "" + "::" + "ffff:102:304";
  }

  lemma EmptySpells()
    ensures Spells("", [])
  {}

  // ---- Decorations ----

  /** What an address consists of. */
  predicate IsAddressChar(c: char) { IsHex(c) || c == '.' || c == ':' }

  predicate Bare(s: string) { s != "" && forall i :: 0 <= i < |s| ==> IsAddressChar(s[i]) }

  lemma QuadIsBare(s: string)
    requires Ipv4Of(s).Some?
    ensures Bare(s) && ':' !in s && '.' in s
  {
    hide NumberOf, Ipv4Of;
    Ipv4OfIff(s, Ipv4Of(s).value);
    var a, b, c, d :| IsQuad(s, a, b, c, d);
    assert s[|a|] == '.';
    assert forall i :: 0 <= i < |s| ==> s[i] in a || s[i] in b || s[i] in c || s[i] in d || s[i] == '.';
  }

  lemma Ipv6IsBare(s: string)
    requires Ipv6Of(s).Some?
    ensures Bare(s) && '.' !in s
  {
    hide Ipv6Of, Spells;
    var g := Ipv6Of(s).value;
    Ipv6OfIff(s, g);
    if |g| == 8 && Spells(s, g) {
      SpelledIsSingle(s, g);
    } else {
      var head, tail, before, after :| Compresses(s, g, head, tail, before, after);
      SpelledIsSingle(head, before);
      SpelledIsSingle(tail, after);
      assert forall i :: 0 <= i < |s| ==> (s[i] in head || s[i] == ':' || s[i] in tail);
    }
  }

  predicate Blank(s: string) { forall i :: 0 <= i < |s| ==> IsSpace(s[i]) }

  lemma {:induction false} TrimStartDrops(pre: string, s: string)
    requires Blank(pre) && s != "" && !IsSpace(s[0])
    ensures TrimStart(pre + s) == s
  {
    if pre == "" {
      assert pre + s == s;
    } else {
      assert (pre + s)[1..] == pre[1..] + s;
      TrimStartDrops(pre[1..], s);
    }
  }

  lemma {:induction false} TrimEndDrops(s: string, post: string)
    requires Blank(post) && s != "" && !IsSpace(s[|s| - 1])
    ensures TrimEnd(s + post) == s
  {
    if post == "" {
      assert s + post == s;
    } else {
      var front := post[..|post| - 1];
      assert (s + post)[..|s + post| - 1] == s + front;
      TrimEndDrops(s, front);
    }
  }

  lemma TrimDrops(pre: string, s: string, post: string)
    requires Blank(pre) && Blank(post) && s != "" && !IsSpace(s[0]) && !IsSpace(s[|s| - 1])
    ensures Trim(pre + s + post) == s
  {
    assert pre + s + post == pre + (s + post);
    TrimStartDrops(pre, s + post);
    TrimEndDrops(s, post);
  }

  predicate IsPort(s: string) { s != "" && All(s, IsDigit) }

  lemma {:induction false} DigitsDrop(s: string, port: string)
    requires s != "" && !IsDigit(s[|s| - 1]) && All(port, IsDigit)
    ensures DropDigits(s + port) == s
  {
    if port == "" {
      assert s + port == s;
    } else {
      assert (s + port)[..|s + port| - 1] == s + port[..|port| - 1];
      DigitsDrop(s, port[..|port| - 1]);
    }
  }

  lemma BracketsStrip(inner: string)
    requires Bare(inner)
    ensures Bracketed("[" + inner + "]") == Some(inner)
  {
    var s := "[" + inner + "]";
    var body := s[..|s| - 1];
    assert s[|s| - 1..] == "]" && body == "[" + inner && body[1..] == inner;
    assert All(body, c => !IsLineEnd(c));
  }

  lemma PortStrips(inner: string, port: string)
    requires Bare(inner) && IsPort(port)
    ensures Bracketed("[" + inner + "]:" + port) == Some(inner)
  {
    var front := "[" + inner + "]:";
    var s := front + port;
    DigitsDrop(front, port);
    assert s[|s| - 1] == port[|port| - 1] && !EndsWith(s, "]") by { assert s[|s| - 1..] == [s[|s| - 1]]; }
    assert front[|front| - 2..] == "]:";
    var body := front[..|front| - 2];
    assert body == "[" + inner && body[1..] == inner;
    assert All(body, c => !IsLineEnd(c));
  }

  lemma NormalizeOfBracketed(raw: string, s: string, inner: string)
    requires Trim(raw) == s && Bracketed(s) == Some(inner)
    ensures Normalize(raw) == inner
  {}

  lemma BareEnds(s: string)
    requires Bare(s)
    ensures !IsSpace(s[0]) && !IsSpace(s[|s| - 1]) && s[0] != '['
  {}

  /** Without brackets: a version 6 address as it is, a version 4 one also with a port. */
  lemma UnbracketedIs(raw: string, inner: string)
    requires Trim(raw) == inner && Bare(inner) && ('.' in inner ==> ':' !in inner)
    ensures Normalize(raw) == inner
  {
    BareEnds(inner);
    assert Bracketed(inner) == None;
    if '.' in inner {
      SplitNone(inner, ':');
      assert inner[0] != ':';
    } else if |inner| >= |MAPPED| {
      SplitNone(inner[|MAPPED|..], '.');
    }
    hide SplitOn, Trim, Bracketed;
  }

  lemma PortedIs(raw: string, inner: string, port: string)
    requires Trim(raw) == inner + ":" + port && Bare(inner) && '.' in inner && ':' !in inner && IsPort(port)
    ensures Normalize(raw) == inner
  {
    var s := inner + ":" + port;
    SplitAtFirst(inner, ':', port);
    SplitNone(port, ':');
    assert SplitOn(s, ':') == [inner, port];
    BareEnds(inner);
    assert s[0] == inner[0] && inner[0] != ':';
    assert Bracketed(s) == None;
    var i :| 0 <= i < |inner| && inner[i] == '.';
    assert s[i] == '.';
    hide SplitOn, Trim, Bracketed;
  }

  lemma NormalMapped(raw: string, s: string)
    requires Trim(raw) == MAPPED + s && Bare(s) && Ipv4Of(s).Some?
    ensures Normalize(raw) == s
  {
    var t := MAPPED + s;
    QuadIsDotted(s);
    ManyColons(t);
    MappedText(s);
    assert Bracketed(t) == None;
    hide SplitOn, Mapped, Trim, Bracketed, IsDottedQuad, Ipv4Of;
  }

  /** The address a bare text is. */
  function Denoted(inner: string): Option<Ip> {
    match Ipv4Of(inner)
    case Some(v) => Some(V4(v))
    case None => match Ipv6Of(inner) case Some(g) => Some(V6(g)) case None => None
  }

  lemma ReadAs(raw: string, inner: string)
    requires Normalize(raw) == inner
    ensures Parse(raw) == Denoted(inner)
  {
    hide Normalize, Ipv4Of, Ipv6Of;
  }

  lemma DenotedIsBare(inner: string)
    requires Denoted(inner).Some?
    ensures Bare(inner) && (Ipv4Of(inner).Some? ==> ':' !in inner && '.' in inner) && ('.' in inner ==> ':' !in inner)
  {
    hide Ipv4Of, Ipv6Of, Bare;
    if Ipv4Of(inner).Some? { QuadIsBare(inner); } else { Ipv6IsBare(inner); }
  }

  /** Decorations do not matter: between white space, an address is read alike plain, in brackets, and
      in brackets with a port; a version 4 one also with a port alone, and mapped. */
  lemma DecorationsDoNotMatter(inner: string, port: string, pre: string, post: string)
    requires Denoted(inner).Some? && IsPort(port) && Blank(pre) && Blank(post)
    ensures Parse(pre + inner + post) == Denoted(inner)
    ensures Parse(pre + ("[" + inner + "]") + post) == Denoted(inner)
    ensures Parse(pre + ("[" + inner + "]:" + port) + post) == Denoted(inner)
    ensures Ipv4Of(inner).Some? ==> Parse(pre + (inner + ":" + port) + post) == Denoted(inner)
    ensures Ipv4Of(inner).Some? ==> Parse(pre + (MAPPED + inner) + post) == Denoted(inner)
  {
    DenotedIsBare(inner);
    PlainRead(inner, pre, post);
    BracketRead(inner, port, pre, post);
    if Ipv4Of(inner).Some? { QuadRead(inner, port, pre, post); }
  }

  lemma PlainRead(inner: string, pre: string, post: string)
    requires Bare(inner) && ('.' in inner ==> ':' !in inner) && Blank(pre) && Blank(post)
    ensures Parse(pre + inner + post) == Denoted(inner)
  {
    hide *;
    BareEnds(inner);
    BareIsText(inner);
    TrimDrops(pre, inner, post);
    UnbracketedIs(pre + inner + post, inner);
    ReadAs(pre + inner + post, inner);
  }

  lemma BareIsText(s: string)
    requires Bare(s)
    ensures s != ""
  {}

  lemma BracketRead(inner: string, port: string, pre: string, post: string)
    requires Bare(inner) && IsPort(port) && Blank(pre) && Blank(post)
    ensures Parse(pre + ("[" + inner + "]") + post) == Denoted(inner)
    ensures Parse(pre + ("[" + inner + "]:" + port) + post) == Denoted(inner)
  {
    var a, b := "[" + inner + "]", "[" + inner + "]:" + port;
    assert !IsSpace(a[0]) && !IsSpace(a[|a| - 1]) && !IsSpace(b[0]);
    assert !IsSpace(b[|b| - 1]) by { assert b[|b| - 1] == port[|port| - 1]; }
    hide *;
    TrimDrops(pre, a, post);
    TrimDrops(pre, b, post);
    BracketsStrip(inner);
    PortStrips(inner, port);
    NormalizeOfBracketed(pre + a + post, a, inner);
    NormalizeOfBracketed(pre + b + post, b, inner);
    ReadAs(pre + a + post, inner);
    ReadAs(pre + b + post, inner);
  }

  lemma QuadRead(inner: string, port: string, pre: string, post: string)
    requires Bare(inner) && Ipv4Of(inner).Some? && ':' !in inner && '.' in inner && IsPort(port) && Blank(pre) && Blank(post)
    ensures Parse(pre + (inner + ":" + port) + post) == Denoted(inner)
    ensures Parse(pre + (MAPPED + inner) + post) == Denoted(inner)
  {
    var a, b := inner + ":" + port, MAPPED + inner;
    assert a[0] == inner[0] && a[|a| - 1] == port[|port| - 1] && b[0] == ':' && b[|b| - 1] == inner[|inner| - 1];
    assert !IsSpace(a[0]) && !IsSpace(a[|a| - 1]) && !IsSpace(b[0]) && !IsSpace(b[|b| - 1]);
    hide *;
    TrimDrops(pre, a, post);
    TrimDrops(pre, b, post);
    PortedIs(pre + a + post, inner, port);
    NormalMapped(pre + b + post, inner);
    ReadAs(pre + a + post, inner);
    ReadAs(pre + b + post, inner);
  }
}
