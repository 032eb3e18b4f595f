module Wire {
  // The tagged wire format of the RPC layer and its depth-capped decoder
  // (packages/rpc/src/wire.ts).

  import opened Options

  /** Values as the application has them. Plain objects list their own keys in order; a number is
      given by its 64 bits. */
  datatype Field<T> = Field(name: string, value: T)

  datatype Entry<T> = Entry(key: T, value: T)

  datatype Value =
    | Undefined | Null | Bool(b: bool) | Num(bits: nat) | Str(s: string)
    | Date(time: Option<int>) | BigInt(i: int) | SetOf(items: seq<Value>) | MapOf(entries: seq<Entry<Value>>)
    | RegExp(text: string) | Arr(elems: seq<Value>) | Obj(fields: seq<Field<Value>>)

  datatype Json =
    | JNull | JBool(b: bool) | JNum(bits: nat) | JStr(s: string) | JArr(items: seq<Json>) | JObj(fields: seq<Field<Json>>)

  datatype Error = TooDeep | NotAnArray | Unparsable

  datatype Decoded<+T> = Ok(value: T) | Fail(error: Error)

  /** The library the codec stands on: `JSON`, `String`, `Date`, `BigInt`. */
  datatype Library = Library(
    stringify: Json -> string, parse: string -> Option<Json>, text: Json -> string,
    isoString: int -> string, dateOf: Json -> Option<int>, bigText: int -> string, bigOf: Json -> Option<int>)

  /** What is used of the library, on what the language can build. `WireLibrary` shows that some
      library meets it. */
  ghost predicate Faithful(lib: Library) {
    && (forall j :: OwnJson(j) ==> lib.parse(lib.stringify(j)) == Some(j))
    && (forall s :: lib.text(JStr(s)) == s)
    && (forall t :: IsTime(t) ==> lib.dateOf(JStr(lib.isoString(t))) == Some(t))
    && (forall i :: lib.bigOf(JStr(lib.bigText(i))) == Some(i))
  }

  // ---- What the language can build ----

  /** A finite number other than -0, which JSON prints as 0. */
  predicate Finite(bits: nat) {
    bits < 0x1_0000_0000_0000_0000 && bits != 0x8000_0000_0000_0000 && (bits / 0x10_0000_0000_0000) % 0x800 != 0x7ff
  }

  /** The times a date can hold, in milliseconds. */
  predicate IsTime(t: int) { -8_640_000_000_000_000 <= t <= 8_640_000_000_000_000 }

  predicate Digits(s: string) { forall i :: 0 <= i < |s| ==> '0' <= s[i] <= '9' }

  /** Numeric order on decimal texts without leading zeros. */
  predicate Below(a: string, b: string) {
    |a| < |b| || (|a| == |b| && exists i :: 0 <= i < |a| && a[..i] == b[..i] && a[i] < b[i])
  }

  /** An array index below 2^32 - 1, as a key. */
  predicate IsIndex(s: string) {
    s != "" && Digits(s) && (s[0] != '0' || |s| == 1) && Below(s, "4294967295")
  }

  /** Own keys are listed with the array indices first, in ascending order. */
  predicate InKeyOrder(a: string, b: string) {
    a != b && (IsIndex(b) ==> IsIndex(a) && Below(a, b))
  }

  predicate OwnKeys<T>(fs: seq<Field<T>>) {
    forall i, j :: 0 <= i < j < |fs| ==> InKeyOrder(fs[i].name, fs[j].name)
  }

  /** JSON values with finite numbers, whose objects are objects of the language. */
  predicate OwnJson(j: Json)
    decreases j, 0
  {
    match j
    case JNum(bits) => Finite(bits)
    case JArr(items) => OwnItems(items)
    case JObj(fields) => OwnKeys(fields) && OwnFields(fields)
    case _ => true
  }

  predicate OwnItems(js: seq<Json>)
    decreases js, 1
  {
    js == [] || (OwnJson(js[0]) && OwnItems(js[1..]))
  }

  predicate OwnFields(fs: seq<Field<Json>>)
    decreases fs, 1
  {
    fs == [] || (OwnJson(fs[0].value) && OwnFields(fs[1..]))
  }

  const MAX_DEPTH: nat := 32

  predicate Blocked(key: string) { key == "__proto__" || key == "constructor" || key == "prototype" }

  // ---- Encoding ----

  function Tag(tag: string, v: string): Json { JObj([Field("__t", JStr(tag)), Field("v", JStr(v))]) }

  /** An invalid date has no ISO form: encoding it throws. */
  predicate Encodable(v: Value)
    decreases v, 0
  {
    match v
    case Date(t) => t.Some?
    case SetOf(items) => AllEncodable(items)
    case MapOf(entries) => forall i :: 0 <= i < |entries| ==> Encodable(entries[i].key) && Encodable(entries[i].value)
    case Arr(items) => AllEncodable(items)
    case Obj(fields) => forall i :: 0 <= i < |fields| ==> Encodable(fields[i].value)
    case _ => true
  }

  predicate AllEncodable(vs: seq<Value>)
    decreases vs, 1
  {
    forall i :: 0 <= i < |vs| ==> Encodable(vs[i])
  }

  /** `encode` */
  function Encode(lib: Library, v: Value): Json
    requires Encodable(v)
    decreases v, 0
  {
    match v
    case Undefined => Tag("Undefined", "")
    case Null => JNull
    case Bool(b) => JBool(b)
    case Num(n) => JNum(n)
    case Str(s) => JStr(s)
    case Date(t) => Tag("Date", lib.isoString(t.value))
    case BigInt(i) => Tag("BigInt", lib.bigText(i))
    case SetOf(items) => Tag("Set", lib.stringify(JArr(EncodeAll(lib, items))))
    case MapOf(entries) => Tag("Map", lib.stringify(JArr(EncodeEntries(lib, entries))))
    case RegExp(s) => Tag("RegExp", s)
    case Arr(items) => JArr(EncodeAll(lib, items))
    case Obj(fields) => JObj(EncodeFields(lib, fields))
  }

  function EncodeAll(lib: Library, vs: seq<Value>): seq<Json>
    requires AllEncodable(vs)
    decreases vs, 1
  {
    if vs == [] then [] else [Encode(lib, vs[0])] + EncodeAll(lib, vs[1..])
  }

  function EncodeEntries(lib: Library, es: seq<Entry<Value>>): seq<Json>
    requires forall i :: 0 <= i < |es| ==> Encodable(es[i].key) && Encodable(es[i].value)
    decreases es, 1
  {
    if es == [] then []
    else [EncodeEntry(lib, es[0])] + EncodeEntries(lib, es[1..])
  }

  function EncodeEntry(lib: Library, e: Entry<Value>): Json
    requires Encodable(e.key) && Encodable(e.value)
    decreases e, 0
  {
    JArr([Encode(lib, e.key), Encode(lib, e.value)])
  }

  /** Assigning `__proto__` sets the prototype instead of a key. */
  function EncodeFields(lib: Library, fs: seq<Field<Value>>): seq<Field<Json>>
    requires forall i :: 0 <= i < |fs| ==> Encodable(fs[i].value)
    decreases fs, 1
  {
    if fs == [] then []
    else (if fs[0].name == "__proto__" then [] else [Field(fs[0].name, Encode(lib, fs[0].value))]) + EncodeFields(lib, fs[1..])
  }

  // ---- Decoding ----

  function Lookup<T>(fs: seq<Field<T>>, key: string): Option<T> {
    if fs == [] then None else if fs[0].name == key then Some(fs[0].value) else Lookup(fs[1..], key)
  }

  predicate IsPrimitive(v: Value) {
    v.Undefined? || v.Null? || v.Bool? || v.Num? || v.Str? || v.BigInt?
  }

  /** `new Set(items)`: equal primitives are one element, objects are always distinct. */
  function NewSet(items: seq<Value>): seq<Value> {
    if items == [] then []
    else
      var s := NewSet(items[..|items| - 1]);
      var x := items[|items| - 1];
      if IsPrimitive(x) && x in s then s else s + [x]
  }

  function KeyAt(es: seq<Entry<Value>>, k: Value): nat {
    if es == [] then 0 else if es[0].key == k then 0 else 1 + KeyAt(es[1..], k)
  }

  /** `new Map(entries)`: a later value for an equal primitive key takes the earlier place. */
  function NewMap(entries: seq<Entry<Value>>): seq<Entry<Value>> {
    if entries == [] then []
    else
      var m := NewMap(entries[..|entries| - 1]);
      var e := entries[|entries| - 1];
      if IsPrimitive(e.key) && KeyAt(m, e.key) < |m| then m[KeyAt(m, e.key) := e] else m + [e]
  }

  /** A payload handed back as it was parsed. */
  function Raw(j: Json): Value
    decreases j, 0
  {
    match j
    case JNull => Null
    case JBool(b) => Bool(b)
    case JNum(n) => Num(n)
    case JStr(s) => Str(s)
    case JArr(items) => Arr(RawAll(items))
    case JObj(fields) => Obj(RawFields(fields))
  }

  function RawAll(js: seq<Json>): seq<Value>
    decreases js, 1
  {
    if js == [] then [] else [Raw(js[0])] + RawAll(js[1..])
  }

  function RawFields(fs: seq<Field<Json>>): seq<Field<Value>>
    decreases fs, 1
  {
    if fs == [] then [] else [Field(fs[0].name, Raw(fs[0].value))] + RawFields(fs[1..])
  }

  /** The items of an entry, destructured as a pair; a string is iterated too. */
  function Pair(j: Json): Option<(Option<Json>, Option<Json>)> {
    match j
    case JArr(a) => Some((if |a| > 0 then Some(a[0]) else None, if |a| > 1 then Some(a[1]) else None))
    case JStr(s) => Some((if |s| > 0 then Some(JStr([s[0]])) else None, if |s| > 1 then Some(JStr([s[1]])) else None))
    case _ => None
  }

  /** `parseNested` */
  function ParseNested(lib: Library, v: Json, depth: nat): Decoded<seq<Json>> {
    if depth >= MAX_DEPTH then Fail(TooDeep)
    else match lib.parse(lib.text(v))
      case None => Fail(Unparsable)
      case Some(JArr(items)) => Ok(items)
      case Some(_) => Fail(NotAnArray)
  }

  predicate Known(tag: string) {
    tag == "Date" || tag == "BigInt" || tag == "Undefined" || tag == "Set" || tag == "Map" || tag == "RegExp"
  }

  /** The tag and payload of a tagged object with a known tag. */
  function Tagged(fs: seq<Field<Json>>): Option<(string, Json)> {
    var t, v := Lookup(fs, "__t"), Lookup(fs, "v");
    if t.Some? && v.Some? && t.value.JStr? && Known(t.value.s) then Some((t.value.s, v.value)) else None
  }

  /** `decodeValue` */
  function Decode(lib: Library, j: Json, depth: nat): Decoded<Value>
    requires depth <= MAX_DEPTH
    decreases 2 * (MAX_DEPTH - depth), 0
  {
    match j
    case JNull => Ok(Null)
    case JBool(b) => Ok(Bool(b))
    case JNum(n) => Ok(Num(n))
    case JStr(s) => Ok(Str(s))
    case JArr(items) =>
      if depth >= MAX_DEPTH then Fail(TooDeep)
      else (match DecodeAll(lib, items, depth + 1) case Fail(e) => Fail(e) case Ok(vs) => Ok(Arr(vs)))
    case JObj(fields) =>
      if depth >= MAX_DEPTH then Fail(TooDeep)
      else match Tagged(fields)
        case Some((tag, v)) => DecodeTag(lib, tag, v, depth)
        case None => match RebuildFields(lib, fields, depth + 1) case Fail(e) => Fail(e) case Ok(fs) => Ok(Obj(fs))
  }

  function DecodeTag(lib: Library, tag: string, v: Json, depth: nat): Decoded<Value>
    requires depth < MAX_DEPTH && Known(tag)
    decreases 2 * (MAX_DEPTH - depth) - 1, 0
  {
    if tag == "Date" then Ok(Date(lib.dateOf(v)))
    else if tag == "BigInt" then (match lib.bigOf(v) case Some(i) => Ok(BigInt(i)) case None => Fail(Unparsable))
    else if tag == "Undefined" then Ok(Undefined)
    else if tag == "RegExp" then Ok(Raw(v))
    else match ParseNested(lib, v, depth)
      case Fail(e) => Fail(e)
      case Ok(items) =>
        if tag == "Set" then
          (match DecodeAll(lib, items, depth + 1) case Fail(e) => Fail(e) case Ok(vs) => Ok(SetOf(NewSet(vs))))
        else
          (match DecodeEntries(lib, items, depth + 1) case Fail(e) => Fail(e) case Ok(es) => Ok(MapOf(NewMap(es))))
  }

  function DecodeAll(lib: Library, js: seq<Json>, depth: nat): (r: Decoded<seq<Value>>)
    requires depth <= MAX_DEPTH
    ensures r.Ok? ==> |r.value| == |js|
    decreases 2 * (MAX_DEPTH - depth), |js| + 1
  {
    if js == [] then Ok([])
    else match Decode(lib, js[0], depth)
      case Fail(e) => Fail(e)
      case Ok(v) => match DecodeAll(lib, js[1..], depth) case Fail(e) => Fail(e) case Ok(vs) => Ok([v] + vs)
  }

  /** A missing half of an entry decodes to undefined, if the depth allows. */
  function DecodeOption(lib: Library, j: Option<Json>, depth: nat): Decoded<Value>
    requires depth <= MAX_DEPTH
    decreases 2 * (MAX_DEPTH - depth), 1
  {
    if j.Some? then Decode(lib, j.value, depth) else if depth >= MAX_DEPTH then Fail(TooDeep) else Ok(Undefined)
  }

  function DecodeEntries(lib: Library, js: seq<Json>, depth: nat): (r: Decoded<seq<Entry<Value>>>)
    requires depth <= MAX_DEPTH
    ensures r.Ok? ==> |r.value| == |js|
    decreases 2 * (MAX_DEPTH - depth), |js| + 2
  {
    if js == [] then Ok([])
    else match Pair(js[0])
      case None => Fail(Unparsable)
      case Some((a, b)) =>
        match DecodeOption(lib, a, depth)
        case Fail(e) => Fail(e)
        case Ok(k) => match DecodeOption(lib, b, depth)
          case Fail(e) => Fail(e)
          case Ok(v) =>
            match DecodeEntries(lib, js[1..], depth) case Fail(e) => Fail(e) case Ok(es) => Ok([Entry(k, v)] + es)
  }

  /** `rebuildPlainObject` */
  function RebuildFields(lib: Library, fs: seq<Field<Json>>, depth: nat): (r: Decoded<seq<Field<Value>>>)
    requires depth <= MAX_DEPTH
    ensures r.Ok? ==> |r.value| <= |fs|
    decreases 2 * (MAX_DEPTH - depth), |fs| + 1
  {
    if fs == [] then Ok([])
    else if Blocked(fs[0].name) then RebuildFields(lib, fs[1..], depth)
    else match Decode(lib, fs[0].value, depth)
      case Fail(e) => Fail(e)
      case Ok(v) =>
        match RebuildFields(lib, fs[1..], depth) case Fail(e) => Fail(e) case Ok(rest) => Ok([Field(fs[0].name, v)] + rest)
  }

  // ---- What survives the trip ----

  function Max(a: nat, b: nat): nat { if a < b then b else a }

  /** Nesting as the decoder counts it: every array, object and tag is a level. */
  function Nest(v: Value): nat
    decreases v, 0
  {
    match v
    case Null => 0
    case Bool(_) => 0
    case Num(_) => 0
    case Str(_) => 0
    case SetOf(items) => 1 + NestAll(items)
    case MapOf(entries) => 1 + NestEntries(entries)
    case Arr(items) => 1 + NestAll(items)
    case Obj(fields) => 1 + NestFields(fields)
    case _ => 1
  }

  function NestAll(vs: seq<Value>): nat
    decreases vs, 1
  {
    if vs == [] then 0 else Max(Nest(vs[0]), NestAll(vs[1..]))
  }

  function NestEntries(es: seq<Entry<Value>>): nat
    decreases es, 1
  {
    if es == [] then 0 else Max(NestEntry(es[0]), NestEntries(es[1..]))
  }

  function NestEntry(e: Entry<Value>): nat
    decreases e, 0
  {
    Max(Nest(e.key), Nest(e.value))
  }

  function NestFields(fs: seq<Field<Value>>): nat
    decreases fs, 1
  {
    if fs == [] then 0 else Max(Nest(fs[0].value), NestFields(fs[1..]))
  }

  /** A plain object that would be read as a tag. */
  predicate Misleading(fs: seq<Field<Value>>) {
    var t, v := Lookup(fs, "__t"), Lookup(fs, "v");
    t.Some? && v.Some? && t.value.Str? && Known(t.value.s)
  }

  /** No regular expression, no blocked key, no plain object that looks like a tag. */
  predicate Clean(v: Value)
    decreases v, 0
  {
    match v
    case RegExp(_) => false
    case SetOf(items) => CleanAll(items)
    case MapOf(entries) => CleanEntries(entries)
    case Arr(items) => CleanAll(items)
    case Obj(fields) => !Misleading(fields) && CleanFields(fields)
    case _ => true
  }

  predicate CleanAll(vs: seq<Value>)
    decreases vs, 1
  {
    vs == [] || (Clean(vs[0]) && CleanAll(vs[1..]))
  }

  predicate CleanEntries(es: seq<Entry<Value>>)
    decreases es, 1
  {
    es == [] || (CleanEntry(es[0]) && CleanEntries(es[1..]))
  }

  predicate CleanEntry(e: Entry<Value>)
    decreases e, 0
  {
    Clean(e.key) && Clean(e.value)
  }

  predicate CleanFields(fs: seq<Field<Value>>)
    decreases fs, 1
  {
    fs == [] || (!Blocked(fs[0].name) && Clean(fs[0].value) && CleanFields(fs[1..]))
  }

  /** Numbers, dates, sets, maps and objects as the language builds them. */
  predicate Proper(v: Value)
    decreases v, 0
  {
    match v
    case Num(bits) => Finite(bits)
    case Date(t) => t.Some? ==> IsTime(t.value)
    case SetOf(items) => NewSet(items) == items && ProperAll(items)
    case MapOf(entries) => NewMap(entries) == entries && ProperEntries(entries)
    case Arr(items) => ProperAll(items)
    case Obj(fields) => OwnKeys(fields) && ProperFields(fields)
    case _ => true
  }

  predicate ProperAll(vs: seq<Value>)
    decreases vs, 1
  {
    vs == [] || (Proper(vs[0]) && ProperAll(vs[1..]))
  }

  predicate ProperEntries(es: seq<Entry<Value>>)
    decreases es, 1
  {
    es == [] || (ProperEntry(es[0]) && ProperEntries(es[1..]))
  }

  predicate ProperEntry(e: Entry<Value>)
    decreases e, 0
  {
    Proper(e.key) && Proper(e.value)
  }

  predicate ProperFields(fs: seq<Field<Value>>)
    decreases fs, 1
  {
    fs == [] || (Proper(fs[0].value) && ProperFields(fs[1..]))
  }

  // ---- Tags ----

  lemma Names()
    ensures "__t" != "v" && "__t" != "__proto__" && "v" != "__proto__"
    ensures "BigInt" != "Date" && "Undefined" != "Date" && "Undefined" != "BigInt"
    ensures "RegExp" != "Date" && "RegExp" != "BigInt" && "RegExp" != "Undefined"
    ensures "Set" != "Date" && "Set" != "BigInt" && "Set" != "Undefined" && "Set" != "RegExp"
    ensures "Map" != "Date" && "Map" != "BigInt" && "Map" != "Undefined" && "Map" != "RegExp" && "Map" != "Set"
  {
    assert "__t"[0] == '_' && "v"[0] == 'v';
    assert |"__t"| == 3 && |"v"| == 1 && |"__proto__"| == 9;
    assert |"Date"| == 4 && |"BigInt"| == 6 && |"Undefined"| == 9 && |"RegExp"| == 6 && |"Set"| == 3 && |"Map"| == 3;
    assert "RegExp"[0] == 'R' && "BigInt"[0] == 'B' && "Map"[0] == 'M' && "Set"[0] == 'S';
  }

  lemma TagIsTagged(tag: string, s: string)
    requires Known(tag)
    ensures Tagged(Tag(tag, s).fields) == Some((tag, JStr(s)))
  {
    hide Known;
    Names();
    var fs := Tag(tag, s).fields;
    assert fs[1..][0] == Field("v", JStr(s)) && fs[0] == Field("__t", JStr(tag));
    assert Lookup(fs, "__t") == Some(JStr(tag));
    assert Lookup(fs[1..], "v") == Some(JStr(s)) && Lookup(fs, "v") == Some(JStr(s));
  }

  lemma DecodeOfTag(lib: Library, tag: string, s: string, depth: nat)
    requires Known(tag) && depth <= MAX_DEPTH
    ensures Decode(lib, Tag(tag, s), depth) == if depth >= MAX_DEPTH then Fail(TooDeep) else DecodeTag(lib, tag, JStr(s), depth)
  {
    TagIsTagged(tag, s);
    hide Tagged, Known, DecodeTag;
  }

  lemma {:induction false} LookupEncoded(lib: Library, fs: seq<Field<Value>>, key: string)
    requires (forall i :: 0 <= i < |fs| ==> Encodable(fs[i].value)) && key != "__proto__"
    ensures var x := Lookup(fs, key);
      && (x.Some? ==> Encodable(x.value) && Lookup(EncodeFields(lib, fs), key) == Some(Encode(lib, x.value)))
      && (x.None? ==> Lookup(EncodeFields(lib, fs), key) == None)
  {
    hide Encode;
    if fs != [] {
      LookupEncoded(lib, fs[1..], key);
      var rest := EncodeFields(lib, fs[1..]);
      assert fs[0].name != "__proto__" ==> ([Field(fs[0].name, Encode(lib, fs[0].value))] + rest)[1..] == rest;
      assert [] + rest == rest;
    }
  }

  lemma StrOnly(lib: Library, v: Value)
    requires Encodable(v)
    ensures Encode(lib, v).JStr? <==> v.Str?
    ensures v.Str? ==> Encode(lib, v) == JStr(v.s)
  {}

  /** An encoded object is taken for a tag exactly when it looked like one. */
  lemma MisleadingIsTagged(lib: Library, fs: seq<Field<Value>>)
    requires forall i :: 0 <= i < |fs| ==> Encodable(fs[i].value)
    ensures Tagged(EncodeFields(lib, fs)).Some? <==> Misleading(fs)
    ensures Misleading(fs) ==>
      (Encodable(Lookup(fs, "v").value)
       && Tagged(EncodeFields(lib, fs)) == Some((Lookup(fs, "__t").value.s, Encode(lib, Lookup(fs, "v").value))))
  {
    hide Encode, EncodeFields, Lookup, Known;
    Names();
    LookupEncoded(lib, fs, "__t");
    LookupEncoded(lib, fs, "v");
    var t := Lookup(fs, "__t");
    if t.Some? { StrOnly(lib, t.value); }
  }

  // ---- Sets and maps of the same size ----

  lemma {:induction false} NewSetOfFull(items: seq<Value>)
    ensures |NewSet(items)| <= |items|
    ensures |NewSet(items)| == |items| ==> NewSet(items) == items
  {
    if items != [] {
      NewSetOfFull(items[..|items| - 1]);
      assert items == items[..|items| - 1] + [items[|items| - 1]];
    }
  }

  lemma {:induction false} NewMapOfFull(entries: seq<Entry<Value>>)
    ensures |NewMap(entries)| <= |entries|
    ensures |NewMap(entries)| == |entries| ==> NewMap(entries) == entries
  {
    if entries != [] {
      NewMapOfFull(entries[..|entries| - 1]);
      assert entries == entries[..|entries| - 1] + [entries[|entries| - 1]];
    }
  }

  // ---- A misleading object never comes back ----

  lemma {:induction false} RawKeeps(fs: seq<Field<Json>>, key: string)
    ensures var x := Lookup(fs, key);
      Lookup(RawFields(fs), key) == if x.Some? then Some(Raw(x.value)) else None
  {
    hide Raw;
    if fs != [] {
      RawKeeps(fs[1..], key);
      var rest := RawFields(fs[1..]);
      assert ([Field(fs[0].name, Raw(fs[0].value))] + rest)[1..] == rest;
    }
  }

  lemma LookupIsSmaller(fs: seq<Field<Value>>, key: string)
    requires Lookup(fs, key).Some?
    ensures exists i :: 0 <= i < |fs| && fs[i].value == Lookup(fs, key).value
  {
    if fs[0].name != key {
      LookupIsSmaller(fs[1..], key);
      var i :| 0 <= i < |fs[1..]| && fs[1..][i].value == Lookup(fs[1..], key).value;
      assert fs[i + 1] == fs[1..][i];
    }
  }

  lemma RawOfTag(tag: string, s: string)
    ensures Raw(Tag(tag, s)).Obj? && Lookup(Raw(Tag(tag, s)).fields, "__t") == Some(Str(tag))
    ensures Lookup(Raw(Tag(tag, s)).fields, "v") == Some(Str(s))
  {
    var fs := Tag(tag, s).fields;
    Names();
    assert fs[1..][0] == Field("v", JStr(s)) && fs[0] == Field("__t", JStr(tag));
    assert Lookup(fs[1..], "v") == Some(JStr(s));
    RawKeeps(fs, "__t");
    RawKeeps(fs, "v");
  }

  /** The raw form of an encoded value is an object tagged "RegExp" only for such a value. */
  lemma RawOfEncoded(lib: Library, x: Value)
    requires Encodable(x) && Raw(Encode(lib, x)).Obj? && Lookup(Raw(Encode(lib, x)).fields, "__t") == Some(Str("RegExp"))
    ensures x.RegExp? || (x.Obj? && Lookup(x.fields, "__t") == Some(Str("RegExp")))
    ensures x.RegExp? ==> Lookup(Raw(Encode(lib, x)).fields, "v") == Some(Str(x.text))
    ensures x.Obj? ==>
      (Lookup(Raw(Encode(lib, x)).fields, "v") ==
       if Lookup(x.fields, "v").Some? then Some(Raw(EncodedAt(lib, x.fields, "v"))) else None)
  {
    Names();
    match x
    case Undefined => RawOfTag("Undefined", "");
    case Date(t) => RawOfTag("Date", lib.isoString(t.value));
    case BigInt(i) => RawOfTag("BigInt", lib.bigText(i));
    case SetOf(items) => RawOfTag("Set", lib.stringify(JArr(EncodeAll(lib, items))));
    case MapOf(entries) => RawOfTag("Map", lib.stringify(JArr(EncodeEntries(lib, entries))));
    case RegExp(s) => RawOfTag("RegExp", s);
    case Obj(fields) =>
      RawKeeps(EncodeFields(lib, fields), "__t");
      RawKeeps(EncodeFields(lib, fields), "v");
      LookupEncoded(lib, fields, "__t");
      LookupEncoded(lib, fields, "v");
      var t := Lookup(fields, "__t");
      if t.Some? { StrOnly(lib, t.value); RawStr(Encode(lib, t.value)); }
    case _ =>
  }

  lemma RawStr(j: Json)
    ensures Raw(j).Str? <==> j.JStr?
    ensures j.JStr? ==> Raw(j) == Str(j.s)
  {}

  function EncodedAt(lib: Library, fs: seq<Field<Value>>, key: string): Json
    requires (forall i :: 0 <= i < |fs| ==> Encodable(fs[i].value)) && key != "__proto__" && Lookup(fs, key).Some?
  {
    LookupEncoded(lib, fs, key);
    Encode(lib, Lookup(fs, key).value)
  }

  /** An object tagged "RegExp" is never its own payload. */
  lemma {:induction false} PayloadIsSmaller(lib: Library, fs: seq<Field<Value>>)
    requires (forall i :: 0 <= i < |fs| ==> Encodable(fs[i].value)) && Lookup(fs, "v").Some?
    requires Lookup(fs, "__t") == Some(Str("RegExp"))
    ensures "v" != "__proto__" && Raw(EncodedAt(lib, fs, "v")) != Obj(fs)
    decreases fs
  {
    Names();
    LookupEncoded(lib, fs, "v");
    var x := Lookup(fs, "v").value;
    if Raw(Encode(lib, x)) == Obj(fs) {
      hide Raw, Encode;
      RawOfEncoded(lib, x);
      if x.Obj? {
        LookupIsSmaller(fs, "v");
        var i :| 0 <= i < |fs| && fs[i].value == x;
        FieldsAreEncodable(x);
        PayloadIsSmaller(lib, x.fields);
      }
    }
  }

  lemma FieldsAreEncodable(x: Value)
    requires x.Obj? && Encodable(x)
    ensures forall i :: 0 <= i < |x.fields| ==> Encodable(x.fields[i].value)
  {}

  lemma MisleadingIsLost(lib: Library, fs: seq<Field<Value>>, depth: nat)
    requires (forall i :: 0 <= i < |fs| ==> Encodable(fs[i].value)) && Misleading(fs) && depth <= MAX_DEPTH
    ensures Decode(lib, JObj(EncodeFields(lib, fs)), depth) != Ok(Obj(fs))
  {
    MisleadingIsTagged(lib, fs);
    Names();
    hide Encode, EncodeFields, Raw, Lookup, Tagged, NewSet, NewMap;
    var tag := Lookup(fs, "__t").value.s;
    if tag == "RegExp" { PayloadIsSmaller(lib, fs); }
  }

  // ---- What is printed is JSON of the language ----

  lemma TagIsOwn(tag: string, v: string)
    ensures OwnJson(Tag(tag, v))
  {
    var fs := Tag(tag, v).fields;
    assert !IsIndex("v") by { assert !('0' <= "v"[0] <= '9'); }
    assert fs[0].name == "__t" && fs[1].name == "v" && |"__t"| != |"v"|;
    assert InKeyOrder("__t", "v");
    assert fs[1..][1..] == [] && OwnFields(fs[1..][1..]) && OwnJson(JStr(v)) && OwnJson(JStr(tag));
    assert OwnFields(fs[1..]);
  }

  lemma {:induction false} EncodedIsOwn(lib: Library, v: Value)
    requires Encodable(v) && Proper(v)
    ensures OwnJson(Encode(lib, v))
    decreases v, 0
  {
    hide Finite, IsTime, OwnKeys, InKeyOrder, NewSet, NewMap, ProperFields, EncodeFields, ProperAll, EncodeAll, OwnItems, OwnFields;
    match v
    case Undefined => TagIsOwn("Undefined", "");
    case Date(t) => TagIsOwn("Date", lib.isoString(t.value));
    case BigInt(i) => TagIsOwn("BigInt", lib.bigText(i));
    case SetOf(items) => TagIsOwn("Set", lib.stringify(JArr(EncodeAll(lib, items))));
    case MapOf(entries) => TagIsOwn("Map", lib.stringify(JArr(EncodeEntries(lib, entries))));
    case RegExp(s) => TagIsOwn("RegExp", s);
    case Arr(items) => AllAreOwn(lib, items);
    case Obj(fields) =>
      FieldsAreEncodable(v);
      FieldsAreOwn(lib, fields);
      NamesStayOrdered(lib, fields);
    case _ =>
  }

  lemma {:induction false} AllAreOwn(lib: Library, vs: seq<Value>)
    requires AllEncodable(vs) && ProperAll(vs)
    ensures OwnItems(EncodeAll(lib, vs))
    decreases vs, 1
  {
    hide Encode, OwnJson, Proper;
    if vs != [] {
      EncodedIsOwn(lib, vs[0]);
      AllAreOwn(lib, vs[1..]);
      var rest := EncodeAll(lib, vs[1..]);
      assert ([Encode(lib, vs[0])] + rest)[1..] == rest;
    }
  }

  lemma {:induction false} EntriesAreOwn(lib: Library, es: seq<Entry<Value>>)
    requires (forall i :: 0 <= i < |es| ==> Encodable(es[i].key) && Encodable(es[i].value)) && ProperEntries(es)
    ensures OwnItems(EncodeEntries(lib, es))
    decreases es, 1
  {
    hide EncodeEntry, OwnJson, ProperEntry;
    if es != [] {
      EntryIsOwn(lib, es[0]);
      EntriesAreOwn(lib, es[1..]);
      var rest := EncodeEntries(lib, es[1..]);
      assert ([EncodeEntry(lib, es[0])] + rest)[1..] == rest;
    }
  }

  lemma {:induction false} EntryIsOwn(lib: Library, e: Entry<Value>)
    requires Encodable(e.key) && Encodable(e.value) && ProperEntry(e)
    ensures OwnJson(EncodeEntry(lib, e))
    decreases e, 0
  {
    hide Encode, Proper;
    EncodedIsOwn(lib, e.key);
    EncodedIsOwn(lib, e.value);
    var k, v := Encode(lib, e.key), Encode(lib, e.value);
    assert [k, v][1..] == [v] && [v][1..] == [];
    assert OwnItems([v]);
  }

  lemma {:induction false} FieldsAreOwn(lib: Library, fs: seq<Field<Value>>)
    requires (forall i :: 0 <= i < |fs| ==> Encodable(fs[i].value)) && ProperFields(fs)
    ensures OwnFields(EncodeFields(lib, fs))
    decreases fs, 1
  {
    hide Encode, OwnJson, Proper;
    if fs != [] {
      EncodedIsOwn(lib, fs[0].value);
      FieldsAreOwn(lib, fs[1..]);
      var rest := EncodeFields(lib, fs[1..]);
      assert ([Field(fs[0].name, Encode(lib, fs[0].value))] + rest)[1..] == rest && [] + rest == rest;
    }
  }

  predicate KeysAfter<T>(name: string, fs: seq<Field<T>>) {
    forall i :: 0 <= i < |fs| ==> InKeyOrder(name, fs[i].name)
  }

  lemma OwnKeysSplit<T>(first: Field<T>, rest: seq<Field<T>>)
    ensures OwnKeys([first] + rest) <==> KeysAfter(first.name, rest) && OwnKeys(rest)
    ensures forall name :: KeysAfter(name, [first] + rest) <==> InKeyOrder(name, first.name) && KeysAfter(name, rest)
  {
    hide InKeyOrder;
    var fs := [first] + rest;
    assert fs[0] == first;
    assert forall i :: 0 <= i < |rest| ==> fs[i + 1] == rest[i];
    forall i, j | KeysAfter(first.name, rest) && OwnKeys(rest) && 0 <= i < j < |fs| ensures InKeyOrder(fs[i].name, fs[j].name) {
      assert fs[j] == rest[j - 1];
      if i > 0 { assert fs[i] == rest[i - 1]; }
    }
  }

  lemma {:induction false} KeysStayAfter(lib: Library, fs: seq<Field<Value>>, name: string)
    requires (forall i :: 0 <= i < |fs| ==> Encodable(fs[i].value)) && KeysAfter(name, fs)
    ensures KeysAfter(name, EncodeFields(lib, fs))
    decreases fs
  {
    hide Encode, InKeyOrder;
    if fs != [] {
      EncodeFirst(lib, fs);
      assert fs == [fs[0]] + fs[1..];
      OwnKeysSplit(fs[0], fs[1..]);
      hide KeysAfter, EncodeFields;
      KeysStayAfter(lib, fs[1..], name);
      OwnKeysSplit(Field(fs[0].name, Encode(lib, fs[0].value)), EncodeFields(lib, fs[1..]));
    }
  }

  /** Leaving a name out keeps the others in order. */
  lemma {:induction false} NamesStayOrdered(lib: Library, fs: seq<Field<Value>>)
    requires (forall i :: 0 <= i < |fs| ==> Encodable(fs[i].value)) && OwnKeys(fs)
    ensures OwnKeys(EncodeFields(lib, fs))
    decreases fs
  {
    hide Encode, InKeyOrder;
    if fs != [] {
      EncodeFirst(lib, fs);
      assert fs == [fs[0]] + fs[1..];
      OwnKeysSplit(fs[0], fs[1..]);
      hide OwnKeys, KeysAfter, EncodeFields;
      NamesStayOrdered(lib, fs[1..]);
      KeysStayAfter(lib, fs[1..], fs[0].name);
      OwnKeysSplit(Field(fs[0].name, Encode(lib, fs[0].value)), EncodeFields(lib, fs[1..]));
    }
  }

  // ---- The round trip ----

  lemma {:induction false} TripAll(lib: Library, vs: seq<Value>, depth: nat)
    requires Faithful(lib) && AllEncodable(vs) && ProperAll(vs) && depth <= MAX_DEPTH
    ensures DecodeAll(lib, EncodeAll(lib, vs), depth) == Ok(vs) <==> CleanAll(vs) && depth + NestAll(vs) <= MAX_DEPTH
    decreases vs, 1
  {
    hide Faithful, Encode, Decode, Clean, Nest, Proper;
    if vs != [] {
      var rest := EncodeAll(lib, vs[1..]);
      assert ([Encode(lib, vs[0])] + rest)[1..] == rest && vs == [vs[0]] + vs[1..];
      RoundTrip(lib, vs[0], depth);
      TripAll(lib, vs[1..], depth);
    }
  }

  lemma {:induction false} TripEntry(lib: Library, e: Entry<Value>, depth: nat)
    requires Faithful(lib) && Encodable(e.key) && Encodable(e.value) && ProperEntry(e) && depth <= MAX_DEPTH
    ensures var p := Pair(EncodeEntry(lib, e)); p == Some((Some(Encode(lib, e.key)), Some(Encode(lib, e.value))))
    ensures Decode(lib, Encode(lib, e.key), depth) == Ok(e.key) && Decode(lib, Encode(lib, e.value), depth) == Ok(e.value)
      <==> CleanEntry(e) && depth + NestEntry(e) <= MAX_DEPTH
    decreases e, 0
  {
    hide Faithful, Encode, Decode, Clean, Nest, Proper;
    RoundTrip(lib, e.key, depth);
    RoundTrip(lib, e.value, depth);
  }

  lemma {:induction false} TripEntries(lib: Library, es: seq<Entry<Value>>, depth: nat)
    requires Faithful(lib) && (forall i :: 0 <= i < |es| ==> Encodable(es[i].key) && Encodable(es[i].value))
    requires ProperEntries(es) && depth <= MAX_DEPTH
    ensures DecodeEntries(lib, EncodeEntries(lib, es), depth) == Ok(es) <==> CleanEntries(es) && depth + NestEntries(es) <= MAX_DEPTH
    decreases es, 1
  {
    hide Faithful, Encode, Decode, CleanEntry, NestEntry, ProperEntry, Pair, EncodeEntry;
    if es != [] {
      var rest := EncodeEntries(lib, es[1..]);
      assert ([EncodeEntry(lib, es[0])] + rest)[1..] == rest && es == [es[0]] + es[1..];
      TripEntry(lib, es[0], depth);
      TripEntries(lib, es[1..], depth);
    }
  }

  lemma {:induction false} TripFields(lib: Library, fs: seq<Field<Value>>, depth: nat)
    requires Faithful(lib) && (forall i :: 0 <= i < |fs| ==> Encodable(fs[i].value))
    requires ProperFields(fs) && depth <= MAX_DEPTH
    ensures RebuildFields(lib, EncodeFields(lib, fs), depth) == Ok(fs) <==> CleanFields(fs) && depth + NestFields(fs) <= MAX_DEPTH
    ensures |EncodeFields(lib, fs)| <= |fs|
    decreases fs, 1
  {
    hide Faithful, Encode, Decode, Clean, Nest, Proper, Blocked, RebuildFields;
    if fs != [] {
      RoundTrip(lib, fs[0].value, depth);
      TripFields(lib, fs[1..], depth);
      EncodeFirst(lib, fs);
      ProtoIsBlocked();
      var rest := EncodeFields(lib, fs[1..]);
      RebuildFirst(lib, Field(fs[0].name, Encode(lib, fs[0].value)), rest, depth);
      ShorterIsOther(lib, rest, fs, depth);
      var d, r := Decode(lib, Encode(lib, fs[0].value), depth), RebuildFields(lib, rest, depth);
      if d.Ok? && r.Ok? { SplitFirst(fs, d.value, r.value); }
    } else {
      RebuildNone(lib, depth);
    }
  }

  lemma SplitFirst(fs: seq<Field<Value>>, v: Value, r: seq<Field<Value>>)
    requires fs != []
    ensures [Field(fs[0].name, v)] + r == fs <==> v == fs[0].value && r == fs[1..]
  {
    var whole := [Field(fs[0].name, v)] + r;
    assert whole[1..] == r && fs == [fs[0]] + fs[1..];
    assert whole == fs ==> whole[0] == fs[0];
  }

  lemma ProtoIsBlocked()
    ensures Blocked("__proto__")
  {}

  lemma RebuildNone(lib: Library, depth: nat)
    requires depth <= MAX_DEPTH
    ensures RebuildFields(lib, [], depth) == Ok([])
  {}

  lemma EncodeFirst(lib: Library, fs: seq<Field<Value>>)
    requires fs != [] && forall i :: 0 <= i < |fs| ==> Encodable(fs[i].value)
    ensures var rest := EncodeFields(lib, fs[1..]);
      EncodeFields(lib, fs) == if fs[0].name == "__proto__" then rest else [Field(fs[0].name, Encode(lib, fs[0].value))] + rest
  {
    var rest := EncodeFields(lib, fs[1..]);
    assert [] + rest == rest;
    hide Encode;
  }

  lemma ShorterIsOther(lib: Library, js: seq<Field<Json>>, fs: seq<Field<Value>>, depth: nat)
    requires |js| < |fs| && depth <= MAX_DEPTH
    ensures RebuildFields(lib, js, depth) != Ok(fs)
  {
    var r := RebuildFields(lib, js, depth);
    assert r.Ok? ==> |r.value| <= |js|;
    hide RebuildFields;
  }

  lemma RebuildFirst(lib: Library, f: Field<Json>, rest: seq<Field<Json>>, depth: nat)
    requires depth <= MAX_DEPTH
    ensures RebuildFields(lib, [f] + rest, depth) ==
      if Blocked(f.name) then RebuildFields(lib, rest, depth)
      else match Decode(lib, f.value, depth)
        case Fail(e) => Fail(e)
        case Ok(v) => match RebuildFields(lib, rest, depth) case Fail(e) => Fail(e) case Ok(r) => Ok([Field(f.name, v)] + r)
  {
    hide Decode, Blocked;
    assert ([f] + rest)[1..] == rest;
  }

  lemma NestedIsRead(lib: Library, items: seq<Json>, depth: nat)
    requires Faithful(lib) && OwnItems(items) && depth < MAX_DEPTH
    ensures ParseNested(lib, JStr(lib.stringify(JArr(items))), depth) == Ok(items)
  {
    hide OwnItems;
    assert OwnJson(JArr(items));
  }

  lemma LibraryReads(lib: Library, n: int)
    requires Faithful(lib)
    ensures IsTime(n) ==> lib.dateOf(JStr(lib.isoString(n))) == Some(n)
    ensures lib.bigOf(JStr(lib.bigText(n))) == Some(n)
  {
    hide IsTime;
  }

  /** Decoding what was encoded gives the value back exactly when its nesting, as the decoder
      counts it, fits, and it holds no regular expression, blocked key or tag look-alike. */
  lemma {:induction false} RoundTrip(lib: Library, v: Value, depth: nat)
    requires Faithful(lib) && Encodable(v) && Proper(v) && depth <= MAX_DEPTH
    ensures Decode(lib, Encode(lib, v), depth) == Ok(v) <==> Clean(v) && depth + Nest(v) <= MAX_DEPTH
    decreases v, 0
  {
    hide DecodeAll, DecodeEntries, RebuildFields, EncodeAll, EncodeEntries, EncodeFields, Tagged, Misleading, NewSet, NewMap;
    hide CleanAll, CleanEntries, CleanFields, NestAll, NestEntries, NestFields, Faithful, Finite, IsTime, OwnKeys;
    Names();
    match v
    case Undefined => DecodeOfTag(lib, "Undefined", "", depth);
    case Date(t) =>
      DecodeOfTag(lib, "Date", lib.isoString(t.value), depth);
      LibraryReads(lib, t.value);
    case BigInt(i) =>
      DecodeOfTag(lib, "BigInt", lib.bigText(i), depth);
      LibraryReads(lib, i);
    case RegExp(s) =>
      DecodeOfTag(lib, "RegExp", s, depth);
      assert Raw(JStr(s)) == Str(s);
    case SetOf(items) => SetTrip(lib, items, depth);
    case MapOf(entries) => MapTrip(lib, entries, depth);
    case Arr(items) => if depth < MAX_DEPTH { TripAll(lib, items, depth + 1); }
    case Obj(fields) => ObjTrip(lib, fields, depth);
    case _ =>
  }

  lemma {:induction false} SetTrip(lib: Library, items: seq<Value>, depth: nat)
    requires Faithful(lib) && AllEncodable(items) && ProperAll(items) && NewSet(items) == items && depth <= MAX_DEPTH
    ensures var v := SetOf(items);
      Decode(lib, Encode(lib, v), depth) == Ok(v) <==> Clean(v) && depth + Nest(v) <= MAX_DEPTH
    decreases items, 2
  {
    hide DecodeAll, EncodeAll, Tagged, NewSet, CleanAll, NestAll, ParseNested, Faithful;
    Names();
    var js := EncodeAll(lib, items);
    DecodeOfTag(lib, "Set", lib.stringify(JArr(js)), depth);
    if depth < MAX_DEPTH {
      AllAreOwn(lib, items);
      NestedIsRead(lib, js, depth);
      TripAll(lib, items, depth + 1);
      SameLengthAll(lib, items);
      var r := DecodeAll(lib, js, depth + 1);
      if r.Ok? { NewSetOfFull(r.value); }
    }
  }

  lemma {:induction false} SameLengthAll(lib: Library, vs: seq<Value>)
    requires AllEncodable(vs)
    ensures |EncodeAll(lib, vs)| == |vs|
  {
    if vs != [] { SameLengthAll(lib, vs[1..]); }
  }

  lemma {:induction false} SameLengthEntries(lib: Library, es: seq<Entry<Value>>)
    requires forall i :: 0 <= i < |es| ==> Encodable(es[i].key) && Encodable(es[i].value)
    ensures |EncodeEntries(lib, es)| == |es|
  {
    if es != [] { SameLengthEntries(lib, es[1..]); }
  }

  lemma {:induction false} MapTrip(lib: Library, entries: seq<Entry<Value>>, depth: nat)
    requires Faithful(lib) && Encodable(MapOf(entries)) && ProperEntries(entries) && NewMap(entries) == entries && depth <= MAX_DEPTH
    ensures var v := MapOf(entries);
      Decode(lib, Encode(lib, v), depth) == Ok(v) <==> Clean(v) && depth + Nest(v) <= MAX_DEPTH
    decreases entries, 2
  {
    hide DecodeEntries, EncodeEntries, Tagged, NewMap, CleanEntries, NestEntries, ParseNested, Faithful;
    Names();
    var js := EncodeEntries(lib, entries);
    DecodeOfTag(lib, "Map", lib.stringify(JArr(js)), depth);
    if depth < MAX_DEPTH {
      EntriesAreOwn(lib, entries);
      NestedIsRead(lib, js, depth);
      TripEntries(lib, entries, depth + 1);
      SameLengthEntries(lib, entries);
      var r := DecodeEntries(lib, js, depth + 1);
      if r.Ok? { NewMapOfFull(r.value); }
    }
  }

  lemma {:induction false} ObjTrip(lib: Library, fields: seq<Field<Value>>, depth: nat)
    requires Faithful(lib) && Encodable(Obj(fields)) && ProperFields(fields) && depth <= MAX_DEPTH
    ensures var v := Obj(fields);
      Decode(lib, Encode(lib, v), depth) == Ok(v) <==> Clean(v) && depth + Nest(v) <= MAX_DEPTH
    decreases fields, 2
  {
    hide RebuildFields, EncodeFields, Tagged, Misleading, CleanFields, NestFields, Faithful;
    FieldsAreEncodable(Obj(fields));
    MisleadingIsTagged(lib, fields);
    if Misleading(fields) {
      MisleadingIsLost(lib, fields, depth);
    } else if depth < MAX_DEPTH {
      TripFields(lib, fields, depth + 1);
    }
  }

  // ---- Blocked keys ----

  /** No plain object in the value has a blocked key. */
  predicate Safe(v: Value)
    decreases v, 0
  {
    match v
    case SetOf(items) => SafeAll(items)
    case MapOf(entries) => SafeEntries(entries)
    case Arr(items) => SafeAll(items)
    case Obj(fields) => SafeFields(fields)
    case _ => true
  }

  predicate SafeAll(vs: seq<Value>)
    decreases vs, 1
  {
    forall i :: 0 <= i < |vs| ==> Safe(vs[i])
  }

  predicate SafeEntries(es: seq<Entry<Value>>)
    decreases es, 1
  {
    forall i :: 0 <= i < |es| ==> SafeEntry(es[i])
  }

  predicate SafeEntry(e: Entry<Value>)
    decreases e, 0
  {
    Safe(e.key) && Safe(e.value)
  }

  predicate SafeFields(fs: seq<Field<Value>>)
    decreases fs, 1
  {
    fs == [] || (!Blocked(fs[0].name) && Safe(fs[0].value) && SafeFields(fs[1..]))
  }

  /** No object in the JSON text has a blocked key. */
  predicate Unblocked(j: Json)
    decreases j, 0
  {
    match j
    case JArr(items) => UnblockedAll(items)
    case JObj(fields) => UnblockedFields(fields)
    case _ => true
  }

  predicate UnblockedAll(js: seq<Json>)
    decreases js, 1
  {
    js == [] || (Unblocked(js[0]) && UnblockedAll(js[1..]))
  }

  predicate UnblockedFields(fs: seq<Field<Json>>)
    decreases fs, 1
  {
    fs == [] || (!Blocked(fs[0].name) && Unblocked(fs[0].value) && UnblockedFields(fs[1..]))
  }

  /** Every "RegExp" payload that the decoder reaches and keeps is free of blocked keys. */
  predicate Harmless(lib: Library, j: Json, depth: nat)
    requires depth <= MAX_DEPTH
    decreases 2 * (MAX_DEPTH - depth), 0
  {
    depth == MAX_DEPTH ||
    match j
    case JArr(items) => HarmlessAll(lib, items, depth + 1)
    case JObj(fields) =>
      (match Tagged(fields)
       case Some((tag, v)) => HarmlessTag(lib, tag, v, depth)
       case None => HarmlessFields(lib, fields, depth + 1))
    case _ => true
  }

  predicate HarmlessTag(lib: Library, tag: string, v: Json, depth: nat)
    requires depth < MAX_DEPTH
    decreases 2 * (MAX_DEPTH - depth) - 1, 0
  {
    && (tag == "RegExp" ==> Unblocked(v))
    && (tag == "Set" && ParseNested(lib, v, depth).Ok? ==> HarmlessAll(lib, ParseNested(lib, v, depth).value, depth + 1))
    && (tag == "Map" && ParseNested(lib, v, depth).Ok? ==> HarmlessEntries(lib, ParseNested(lib, v, depth).value, depth + 1))
  }

  predicate HarmlessAll(lib: Library, js: seq<Json>, depth: nat)
    requires depth <= MAX_DEPTH
    decreases 2 * (MAX_DEPTH - depth), |js| + 1
  {
    forall i :: 0 <= i < |js| ==> Harmless(lib, js[i], depth)
  }

  /** A map keeps the last entry of a primitive key and every entry of another key. */
  predicate Kept(es: seq<Entry<Value>>, i: nat)
    requires i < |es|
  {
    !IsPrimitive(es[i].key) || forall j :: i < j < |es| ==> es[j].key != es[i].key
  }

  predicate HarmlessEntries(lib: Library, js: seq<Json>, depth: nat)
    requires depth <= MAX_DEPTH
    decreases 2 * (MAX_DEPTH - depth), |js| + 2
  {
    var es := DecodeEntries(lib, js, depth);
    es.Ok? ==> forall i :: 0 <= i < |js| && Kept(es.value, i) && Pair(js[i]).Some? ==> HarmlessHalves(lib, Pair(js[i]).value, depth)
  }

  predicate HarmlessHalves(lib: Library, p: (Option<Json>, Option<Json>), depth: nat)
    requires depth <= MAX_DEPTH
    decreases 2 * (MAX_DEPTH - depth), 1
  {
    (p.0.Some? ==> Harmless(lib, p.0.value, depth)) && (p.1.Some? ==> Harmless(lib, p.1.value, depth))
  }

  predicate HarmlessFields(lib: Library, fs: seq<Field<Json>>, depth: nat)
    requires depth <= MAX_DEPTH
    decreases 2 * (MAX_DEPTH - depth), |fs| + 1
  {
    fs == [] || ((!Blocked(fs[0].name) ==> Harmless(lib, fs[0].value, depth)) && HarmlessFields(lib, fs[1..], depth))
  }

  /** A payload handed back raw is as safe as the text was. */
  lemma {:induction false} RawIsSafe(j: Json)
    ensures Safe(Raw(j)) <==> Unblocked(j)
    decreases j, 0
  {
    match j
    case JArr(items) => RawAllIsSafe(items);
    case JObj(fields) => RawFieldsAreSafe(fields);
    case _ =>
  }

  lemma {:induction false} RawAllIsSafe(js: seq<Json>)
    ensures SafeAll(RawAll(js)) <==> UnblockedAll(js)
    decreases js, 1
  {
    if js != [] {
      RawIsSafe(js[0]);
      RawAllIsSafe(js[1..]);
      SafeAllSplits(Raw(js[0]), RawAll(js[1..]));
    }
  }

  lemma SafeAllSplits(v: Value, vs: seq<Value>)
    ensures SafeAll([v] + vs) <==> Safe(v) && SafeAll(vs)
  {
    hide Safe;
    assert ([v] + vs)[0] == v;
    assert forall i :: 0 <= i < |vs| ==> ([v] + vs)[i + 1] == vs[i];
  }

  lemma {:induction false} RawFieldsAreSafe(fs: seq<Field<Json>>)
    ensures SafeFields(RawFields(fs)) <==> UnblockedFields(fs)
    decreases fs, 1
  {
    if fs != [] {
      RawIsSafe(fs[0].value);
      RawFieldsAreSafe(fs[1..]);
      var rest := RawFields(fs[1..]);
      assert ([Field(fs[0].name, Raw(fs[0].value))] + rest)[1..] == rest;
    }
  }

  /** A set drops only primitive items. */
  lemma {:induction false} NewSetIsSafe(items: seq<Value>)
    ensures SafeAll(NewSet(items)) <==> SafeAll(items)
    ensures forall x :: x in NewSet(items) ==> x in items
  {
    hide Safe;
    if items != [] {
      var n := |items| - 1;
      NewSetIsSafe(items[..n]);
      SafeAllEnds(items[..n], items[n]);
      SafeAllEnds(NewSet(items[..n]), items[n]);
      PrimitiveIsSafe(items[n]);
      assert items == items[..n] + [items[n]];
    }
  }

  lemma PrimitiveIsSafe(v: Value)
    ensures IsPrimitive(v) ==> Safe(v)
  {}

  lemma SafeAllEnds(vs: seq<Value>, v: Value)
    ensures SafeAll(vs + [v]) <==> SafeAll(vs) && Safe(v)
  {
    hide Safe;
    assert (vs + [v])[|vs|] == v;
    assert forall i :: 0 <= i < |vs| ==> (vs + [v])[i] == vs[i];
  }

  lemma {:induction false} KeyIsAt(es: seq<Entry<Value>>, k: Value)
    ensures KeyAt(es, k) <= |es| && (KeyAt(es, k) < |es| ==> es[KeyAt(es, k)].key == k)
    ensures forall i :: 0 <= i < KeyAt(es, k) && i < |es| ==> es[i].key != k
  {
    if es != [] && es[0].key != k {
      KeyIsAt(es[1..], k);
      assert forall i :: 0 < i < |es| ==> es[i] == es[1..][i - 1];
    }
  }

  /** No primitive key twice. */
  predicate OneKeyEach(m: seq<Entry<Value>>) {
    forall i, j :: 0 <= i < j < |m| && IsPrimitive(m[i].key) ==> m[i].key != m[j].key
  }

  /** What a new map holds: the entries that are kept. */
  lemma {:induction false} MapHolds(es: seq<Entry<Value>>)
    ensures OneKeyEach(NewMap(es))
    ensures forall x :: x in NewMap(es) <==> exists i :: 0 <= i < |es| && es[i] == x && Kept(es, i)
  {
    if es != [] {
      var n := |es| - 1;
      var front, e := es[..n], es[n];
      MapHolds(front);
      KeyIsAt(NewMap(front), e.key);
      hide Kept;
      forall x ensures x in NewMap(es) <==> KeptIn(es, x) {
        assert x in NewMap(front) <==> KeptIn(front, x);
        MapHoldsMore(front, es, x);
      }
    }
  }

  lemma KeptInFront(es: seq<Entry<Value>>, i: nat)
    requires i < |es| - 1
    ensures Kept(es, i) <==> Kept(es[..|es| - 1], i) && (IsPrimitive(es[i].key) ==> es[|es| - 1].key != es[i].key)
  {
    var front := es[..|es| - 1];
    assert forall j :: 0 <= j < |front| ==> front[j] == es[j];
  }

  ghost predicate KeptIn(es: seq<Entry<Value>>, x: Entry<Value>) {
    exists i :: 0 <= i < |es| && es[i] == x && Kept(es, i)
  }

  lemma MapHoldsMore(front: seq<Entry<Value>>, es: seq<Entry<Value>>, x: Entry<Value>)
    requires es != [] && front == es[..|es| - 1] && OneKeyEach(NewMap(front))
    requires x in NewMap(front) <==> KeptIn(front, x)
    ensures x in NewMap(es) <==> KeptIn(es, x)
  {
    MapAdds(front, es, x);
    KeptMore(es, x);
    hide *;
  }

  lemma KeptMore(es: seq<Entry<Value>>, x: Entry<Value>)
    requires es != []
    ensures var front, e := es[..|es| - 1], es[|es| - 1];
      KeptIn(es, x) <==> x == e || (KeptIn(front, x) && !(IsPrimitive(x.key) && x.key == e.key))
  {
    var n := |es| - 1;
    var front := es[..n];
    assert Kept(es, n);
    hide Kept;
    if KeptIn(front, x) && !(IsPrimitive(x.key) && x.key == es[n].key) {
      var i :| 0 <= i < n && front[i] == x && Kept(front, i);
      KeptInFront(es, i);
      assert es[i] == x;
    }
    if i :| 0 <= i < n && es[i] == x && Kept(es, i) {
      KeptInFront(es, i);
      assert front[i] == x;
    }
  }

  /** One entry more: it displaces an entry of the same primitive key and no other. */
  lemma MapAdds(front: seq<Entry<Value>>, es: seq<Entry<Value>>, x: Entry<Value>)
    requires es != [] && front == es[..|es| - 1] && OneKeyEach(NewMap(front))
    ensures var e := es[|es| - 1];
      x in NewMap(es) <==> x == e || (x in NewMap(front) && !(IsPrimitive(x.key) && x.key == e.key))
  {
    var m, e := NewMap(front), es[|es| - 1];
    KeyIsAt(m, e.key);
    if IsPrimitive(e.key) && KeyAt(m, e.key) < |m| { MapReplaces(m, KeyAt(m, e.key), e, x); }
  }

  lemma MapReplaces(m: seq<Entry<Value>>, at: nat, e: Entry<Value>, x: Entry<Value>)
    requires OneKeyEach(m) && at < |m| && m[at].key == e.key && IsPrimitive(e.key)
    ensures x in m[at := e] <==> x == e || (x in m && x.key != e.key)
  {
    var r := m[at := e];
    if x in r {
      var i :| 0 <= i < |r| && r[i] == x;
      assert i != at ==> m[i] == x && m[i].key != e.key;
    }
    if x in m && x.key != e.key {
      var i :| 0 <= i < |m| && m[i] == x;
      assert r[i] == x;
    }
    assert r[at] == e;
  }

  lemma NewMapIsSafe(es: seq<Entry<Value>>)
    ensures SafeEntries(NewMap(es)) <==> forall i :: 0 <= i < |es| && Kept(es, i) ==> SafeEntry(es[i])
  {
    hide SafeEntry, NewMap, Kept;
    MapHolds(es);
    var m := NewMap(es);
    if SafeEntries(m) {
      forall i | 0 <= i < |es| && Kept(es, i) ensures SafeEntry(es[i]) {
        assert es[i] in m;
      }
    }
    if forall i :: 0 <= i < |es| && Kept(es, i) ==> SafeEntry(es[i]) {
      forall k | 0 <= k < |m| ensures SafeEntry(m[k]) {
        assert m[k] in m;
        var i :| 0 <= i < |es| && es[i] == m[k] && Kept(es, i);
      }
    }
  }

  lemma {:induction false} AllAreSafe(lib: Library, js: seq<Json>, depth: nat)
    requires depth <= MAX_DEPTH && DecodeAll(lib, js, depth).Ok?
    ensures SafeAll(DecodeAll(lib, js, depth).value) <==> HarmlessAll(lib, js, depth)
    decreases 2 * (MAX_DEPTH - depth), |js| + 1
  {
    hide Decode, Harmless, Safe;
    if js != [] {
      DecodedIsSafeIff(lib, js[0], depth);
      AllAreSafe(lib, js[1..], depth);
      SafeAllSplits(Decode(lib, js[0], depth).value, DecodeAll(lib, js[1..], depth).value);
      HarmlessAllSplits(lib, js, depth);
      hide HarmlessAll, SafeAll;
    }
  }

  lemma HarmlessAllSplits(lib: Library, js: seq<Json>, depth: nat)
    requires depth <= MAX_DEPTH && js != []
    ensures HarmlessAll(lib, js, depth) <==> Harmless(lib, js[0], depth) && HarmlessAll(lib, js[1..], depth)
  {
    hide Harmless;
    assert forall i :: 0 <= i < |js[1..]| ==> js[1..][i] == js[i + 1];
    forall i | HarmlessAll(lib, js[1..], depth) && 0 < i < |js| ensures Harmless(lib, js[i], depth) {
      assert js[i] == js[1..][i - 1];
    }
  }

  lemma {:induction false} OptionIsSafe(lib: Library, j: Option<Json>, depth: nat)
    requires depth <= MAX_DEPTH && DecodeOption(lib, j, depth).Ok?
    ensures Safe(DecodeOption(lib, j, depth).value) <==> (j.Some? ==> Harmless(lib, j.value, depth))
    decreases 2 * (MAX_DEPTH - depth), 1
  {
    hide Harmless, Decode;
    if j.Some? { DecodedIsSafeIff(lib, j.value, depth); }
  }

  lemma {:induction false} EntryIsSafe(lib: Library, js: seq<Json>, depth: nat, i: nat)
    requires depth <= MAX_DEPTH && DecodeEntries(lib, js, depth).Ok? && i < |js|
    ensures Pair(js[i]).Some?
    ensures SafeEntry(DecodeEntries(lib, js, depth).value[i]) <==> HarmlessHalves(lib, Pair(js[i]).value, depth)
    decreases 2 * (MAX_DEPTH - depth), |js| + 2
  {
    hide DecodeOption, Harmless, Safe, Pair;
    if i == 0 {
      var p := Pair(js[0]).value;
      OptionIsSafe(lib, p.0, depth);
      OptionIsSafe(lib, p.1, depth);
    } else {
      hide HarmlessHalves, SafeEntry;
      EntryIsSafe(lib, js[1..], depth, i - 1);
    }
  }

  lemma {:induction false} EntriesAreSafe(lib: Library, js: seq<Json>, depth: nat)
    requires depth <= MAX_DEPTH && DecodeEntries(lib, js, depth).Ok?
    ensures SafeEntries(NewMap(DecodeEntries(lib, js, depth).value)) <==> HarmlessEntries(lib, js, depth)
    decreases 2 * (MAX_DEPTH - depth), |js| + 3
  {
    hide DecodeEntries, SafeEntries, SafeEntry, NewMap, Kept, HarmlessHalves, Pair;
    var es := DecodeEntries(lib, js, depth).value;
    NewMapIsSafe(es);
    forall i | 0 <= i < |js|
      ensures Pair(js[i]).Some? && (SafeEntry(es[i]) <==> HarmlessHalves(lib, Pair(js[i]).value, depth))
    {
      EntryIsSafe(lib, js, depth, i);
    }
  }

  lemma {:induction false} FieldsAreSafe(lib: Library, fs: seq<Field<Json>>, depth: nat)
    requires depth <= MAX_DEPTH && RebuildFields(lib, fs, depth).Ok?
    ensures SafeFields(RebuildFields(lib, fs, depth).value) <==> HarmlessFields(lib, fs, depth)
    decreases 2 * (MAX_DEPTH - depth), |fs| + 1
  {
    hide Decode, Harmless, Safe, Blocked;
    if fs != [] {
      FieldsAreSafe(lib, fs[1..], depth);
      if !Blocked(fs[0].name) {
        DecodedIsSafeIff(lib, fs[0].value, depth);
        var first, rest := Field(fs[0].name, Decode(lib, fs[0].value, depth).value), RebuildFields(lib, fs[1..], depth).value;
        assert ([first] + rest)[1..] == rest;
      }
    }
  }

  /** A decoded value is free of blocked keys exactly when every "RegExp" payload is that the
      decoder hands back, as it was parsed, and that no later map entry displaces. */
  lemma {:induction false} DecodedIsSafeIff(lib: Library, j: Json, depth: nat)
    requires depth <= MAX_DEPTH && Decode(lib, j, depth).Ok?
    ensures Safe(Decode(lib, j, depth).value) <==> Harmless(lib, j, depth)
    decreases 2 * (MAX_DEPTH - depth), 0
  {
    hide DecodeAll, DecodeEntries, RebuildFields, Tagged, NewSet, NewMap, SafeAll, SafeEntries, SafeFields, ParseNested, Raw, Unblocked;
    hide HarmlessAll, HarmlessFields, HarmlessTag;
    if depth < MAX_DEPTH {
      match j
      case JArr(items) => AllAreSafe(lib, items, depth + 1);
      case JObj(fields) =>
        TaggedIsKnown(fields);
        if Tagged(fields).Some? {
          TagIsSafe(lib, Tagged(fields).value.0, Tagged(fields).value.1, depth);
        } else {
          FieldsAreSafe(lib, fields, depth + 1);
        }
      case _ =>
    }
  }

  lemma TaggedIsKnown(fs: seq<Field<Json>>)
    ensures Tagged(fs).Some? ==> Known(Tagged(fs).value.0)
  {}

  lemma {:induction false} TagIsSafe(lib: Library, tag: string, v: Json, depth: nat)
    requires depth < MAX_DEPTH && Known(tag) && DecodeTag(lib, tag, v, depth).Ok?
    ensures Safe(DecodeTag(lib, tag, v, depth).value) <==> HarmlessTag(lib, tag, v, depth)
    decreases 2 * (MAX_DEPTH - depth) - 1, 0
  {
    hide DecodeAll, DecodeEntries, NewSet, NewMap, SafeAll, SafeEntries, ParseNested, Raw, Unblocked, HarmlessAll, HarmlessEntries;
    Names();
    if tag == "RegExp" {
      RawIsSafe(v);
    } else if tag == "Set" {
      var items := ParseNested(lib, v, depth).value;
      AllAreSafe(lib, items, depth + 1);
      NewSetIsSafe(DecodeAll(lib, items, depth + 1).value);
    } else if tag == "Map" {
      EntriesAreSafe(lib, ParseNested(lib, v, depth).value, depth + 1);
    }
  }

  /** The shortest case: a "RegExp" tag gives its payload back, blocked keys and all, and
      is safe exactly when the payload is free of them. */
  lemma RegExpPayloadIsRaw(lib: Library, v: Json, depth: nat)
    requires depth < MAX_DEPTH
    ensures var j := JObj([Field("__t", JStr("RegExp")), Field("v", v)]);
      Decode(lib, j, depth) == Ok(Raw(v)) && (Safe(Raw(v)) <==> Unblocked(v))
    ensures !Unblocked(JObj([Field("constructor", JNull)]))
  {
    Names();
    RawIsSafe(v);
    var fs := [Field("__t", JStr("RegExp")), Field("v", v)];
    assert fs[1..][0] == Field("v", v) && fs[0] == Field("__t", JStr("RegExp"));
    assert Lookup(fs, "__t") == Some(JStr("RegExp")) && Lookup(fs[1..], "v") == Some(v) && Lookup(fs, "v") == Some(v);
    assert Tagged(fs) == Some(("RegExp", v));
  }
}
