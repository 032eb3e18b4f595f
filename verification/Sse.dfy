module Sse {
  // The server-sent event printer, read back by the event stream interpretation of the WHATWG
  // HTML Living Standard, sections 9.2.5 and 9.2.6 (packages/core/src/sse.ts).

  import opened Options

  /** `data` is the text sent; `retry` the truncated number as text. */
  datatype Event = Event(event: Option<string>, id: Option<string>, retry: Option<string>, data: string)

  predicate IsLineEnd(c: char) { c == '\r' || c == '\n' }

  predicate OneLine(s: string) { forall i :: 0 <= i < |s| ==> !IsLineEnd(s[i]) }

  // ---- The printer ----

  /** `sanitizeSSEField` */
  function Sanitize(s: string): string {
    if s == "" then "" else (if IsLineEnd(s[0]) then "" else [s[0]]) + Sanitize(s[1..])
  }

  /** `data.split(/\r\n|[\r\n]/)` */
  function SplitLines(s: string): (r: seq<string>)
    ensures |r| >= 1
  {
    if s == "" then [""]
    else if s[0] == '\r' && |s| > 1 && s[1] == '\n' then [""] + SplitLines(s[2..])
    else if IsLineEnd(s[0]) then [""] + SplitLines(s[1..])
    else var r := SplitLines(s[1..]); [[s[0]] + r[0]] + r[1..]
  }

  function DataLines(lines: seq<string>): seq<string> {
    if lines == [] then [] else DataLines(lines[..|lines| - 1]) + ["data: " + lines[|lines| - 1]]
  }

  function EventLines(e: Event): seq<string> {
    if e.event.Some? && e.event.value != "" then ["event: " + Sanitize(e.event.value)] else []
  }

  function IdLines(e: Event): seq<string> {
    if e.id.Some? then ["id: " + Sanitize(e.id.value)] else []
  }

  function RetryLines(e: Event): seq<string> {
    if e.retry.Some? then ["retry: " + e.retry.value] else []
  }

  function Head(e: Event): seq<string> {
    EventLines(e) + IdLines(e) + RetryLines(e)
  }

  /** The lines of a frame; the empty one ends the event. */
  function FrameLines(e: Event): seq<string> {
    Head(e) + DataLines(SplitLines(e.data)) + [""]
  }

  /** Lines, each ended by a line feed. */
  function Text(lines: seq<string>): string {
    if lines == [] then "" else Text(lines[..|lines| - 1]) + lines[|lines| - 1] + "\n"
  }

  lemma TextOne(line: string)
    ensures Text([line]) == line + "\n"
  {
    assert [line][..0] == [];
    assert Text([]) + line + "\n" == line + "\n";
  }

  lemma {:induction false} TextAppends(a: seq<string>, b: seq<string>)
    ensures Text(a + b) == Text(a) + Text(b)
  {
    if b == [] {
      assert a + b == a && Text(a) + "" == Text(a);
    } else {
      var front, last := b[..|b| - 1], b[|b| - 1];
      assert (a + b)[..|a + b| - 1] == a + front;
      TextAppends(a, front);
      assert Text(a) + (Text(front) + last + "\n") == Text(a) + Text(front) + last + "\n";
    }
  }

  lemma PushLine(lines: seq<string>, line: string)
    ensures Text(lines + [line]) == Text(lines) + (line + "\n")
  {
    assert (lines + [line])[..|lines|] == lines;
    assert Text(lines) + line + "\n" == Text(lines) + (line + "\n");
  }

  /** The loop of `formatSSEEvent` over the data lines. */
  method AppendData(text: string, lines: seq<string>, ghost done: seq<string>) returns (result: string)
    requires text == Text(done)
    ensures result == Text(done + DataLines(lines))
  {
    hide Text;
    result := text;
    assert done + DataLines(lines[..0]) == done;
    var i := 0;
    while i < |lines|
      invariant 0 <= i <= |lines| && result == Text(done + DataLines(lines[..i]))
    {
      assert lines[..i + 1][..i] == lines[..i];
      PushLine(done + DataLines(lines[..i]), "data: " + lines[i]);
      assert done + DataLines(lines[..i]) + ["data: " + lines[i]] == done + DataLines(lines[..i + 1]);
      result := result + ("data: " + lines[i] + "\n");
      i := i + 1;
    }
    assert lines[..i] == lines;
  }

  /** `formatSSEEvent` */
  method FormatSSEEvent(e: Event) returns (result: string)
    ensures result == Text(FrameLines(e))
  {
    hide Sanitize, SplitLines, Text, DataLines;
    ghost var done: seq<string> := [];
    result := "";
    assert Text(done) == "" by { TextNone(); }
    if e.event.Some? && e.event.value != "" {
      PushLine(done, "event: " + Sanitize(e.event.value));
      result := result + ("event: " + Sanitize(e.event.value) + "\n");
      done := done + ["event: " + Sanitize(e.event.value)];
    }
    if e.id.Some? {
      PushLine(done, "id: " + Sanitize(e.id.value));
      result := result + ("id: " + Sanitize(e.id.value) + "\n");
      done := done + ["id: " + Sanitize(e.id.value)];
    }
    if e.retry.Some? {
      PushLine(done, "retry: " + e.retry.value);
      result := result + ("retry: " + e.retry.value + "\n");
      done := done + ["retry: " + e.retry.value];
    }
    result := AppendData(result, SplitLines(e.data), done);
    PushLine(done + DataLines(SplitLines(e.data)), "");
    result := result + "\n";
    assert "" + "\n" == "\n" && FrameLines(e) == done + DataLines(SplitLines(e.data)) + [""];
  }

  lemma TextNone()
    ensures Text([]) == ""
  {}

  const PING := ": ping\n\n"

  // ---- The reader of the standard ----

  function EndOfLine(s: string): (i: nat)
    ensures i <= |s| && (i < |s| ==> IsLineEnd(s[i])) && forall j :: 0 <= j < i ==> !IsLineEnd(s[j])
  {
    if s == "" || IsLineEnd(s[0]) then 0 else 1 + EndOfLine(s[1..])
  }

  /** The complete lines of a stream, ended by CRLF, LF or CR (section 9.2.5). */
  function Lines(s: string): seq<string>
    decreases |s|
  {
    var i := EndOfLine(s);
    if i == |s| then []
    else if s[i] == '\r' && i + 1 < |s| && s[i + 1] == '\n' then [s[..i]] + Lines(s[i + 2..])
    else [s[..i]] + Lines(s[i + 1..])
  }

  datatype Dispatched = Dispatched(kind: string, data: string, lastEventId: string)

  /** The buffers of section 9.2.6 and what has been dispatched; `retry` is the reconnection time. */
  datatype Reader = Reader(kind: string, data: string, lastEventId: string, retry: string, events: seq<Dispatched>)

  function Colon(s: string): (i: nat)
    ensures i <= |s| && (i < |s| ==> s[i] == ':') && forall j :: 0 <= j < i ==> s[j] != ':'
  {
    if s == "" || s[0] == ':' then 0 else 1 + Colon(s[1..])
  }

  predicate AllDigits(s: string) { forall i :: 0 <= i < |s| ==> '0' <= s[i] <= '9' }

  function Field(r: Reader, name: string, value: string): Reader {
    if name == "event" then r.(kind := value)
    else if name == "data" then r.(data := r.data + value + "\n")
    else if name == "id" then (if '\0' in value then r else r.(lastEventId := value))
    else if name == "retry" then (if AllDigits(value) && value != "" then r.(retry := value) else r)
    else r
  }

  function Dispatch(r: Reader): Reader {
    if r.data == "" then r.(kind := "", data := "")
    else
      var data := if r.data[|r.data| - 1] == '\n' then r.data[..|r.data| - 1] else r.data;
      r.(kind := "", data := "",
         events := r.events + [Dispatched(if r.kind == "" then "message" else r.kind, data, r.lastEventId)])
  }

  function ReadLine(r: Reader, line: string): Reader {
    if line == "" then Dispatch(r)
    else if line[0] == ':' then r
    else
      var i := Colon(line);
      if i == |line| then Field(r, line, "")
      else
        var value := line[i + 1..];
        Field(r, line[..i], if value != "" && value[0] == ' ' then value[1..] else value)
  }

  function ReadLines(r: Reader, lines: seq<string>): Reader {
    if lines == [] then r else ReadLine(ReadLines(r, lines[..|lines| - 1]), lines[|lines| - 1])
  }

  const FRESH := Reader("", "", "", "", [])

  function Read(s: string): Reader { ReadLines(FRESH, Lines(s)) }

  // ---- What a send should be read as ----

  /** Line terminators normalised to line feeds. */
  function Normalised(data: string): string { JoinLines(SplitLines(data)) }

  function JoinLines(lines: seq<string>): string {
    if lines == [] then "" else if |lines| == 1 then lines[0] else JoinLines(lines[..|lines| - 1]) + "\n" + lines[|lines| - 1]
  }

  function IdAfter(e: Event, lastEventId: string): string {
    if e.id.Some? && '\0' !in Sanitize(e.id.value) then Sanitize(e.id.value) else lastEventId
  }

  function KindOf(e: Event): string {
    if e.event.Some? && Sanitize(e.event.value) != "" then Sanitize(e.event.value) else "message"
  }

  /** The one event a send is dispatched as. */
  function Sent(e: Event, lastEventId: string): Dispatched {
    Dispatched(KindOf(e), Normalised(e.data), IdAfter(e, lastEventId))
  }

  function RetryAfter(e: Event, retry: string): string {
    if e.retry.Some? && AllDigits(e.retry.value) && e.retry.value != "" then e.retry.value else retry
  }

  /** Between frames the buffers are empty. */
  predicate Idle(r: Reader) { r.kind == "" && r.data == "" }

  // ---- Printing, then reading ----

  lemma {:induction false} ReadLinesAppends(r: Reader, a: seq<string>, b: seq<string>)
    ensures ReadLines(r, a + b) == ReadLines(ReadLines(r, a), b)
  {
    if b == [] {
      assert a + b == a;
    } else {
      var front := b[..|b| - 1];
      assert (a + b)[..|a + b| - 1] == a + front;
      ReadLinesAppends(r, a, front);
    }
  }

  lemma FirstLine(line: string, rest: string)
    requires OneLine(line)
    ensures Lines(line + "\n" + rest) == [line] + Lines(rest)
  {
    var s := line + "\n" + rest;
    assert s[|line|] == '\n' && forall j :: 0 <= j < |line| ==> s[j] == line[j];
    assert EndOfLine(s) == |line|;
    assert s[..|line|] == line && s[|line| + 1..] == rest;
  }

  lemma Regroup(a: string, b: string, c: string, d: string)
    ensures a + b + c + d == a + (b + c + d)
  {}

  lemma TextSnoc(lines: seq<string>, rest: string)
    requires lines != []
    ensures Text(lines) + rest == Text(lines[..|lines| - 1]) + (lines[|lines| - 1] + "\n" + rest)
  {
    var front, last := Text(lines[..|lines| - 1]), lines[|lines| - 1];
    assert Text(lines) == front + last + "\n";
    hide Text;
    Regroup(front, last, "\n", rest);
  }

  /** Text printed line by line is read line by line. */
  lemma {:induction false} LinesOfText(lines: seq<string>, rest: string)
    requires forall i :: 0 <= i < |lines| ==> OneLine(lines[i])
    ensures Lines(Text(lines) + rest) == lines + Lines(rest)
    decreases |lines|
  {
    hide Lines, Text;
    if lines == [] {
      TextNone();
      assert "" + rest == rest && [] + Lines(rest) == Lines(rest);
    } else {
      var front, last := lines[..|lines| - 1], lines[|lines| - 1];
      TextSnoc(lines, rest);
      LinesOfText(front, last + "\n" + rest);
      FirstLine(last, rest);
      assert lines + Lines(rest) == front + ([last] + Lines(rest));
    }
  }

  lemma {:induction false} SanitizedIsOneLine(s: string)
    ensures OneLine(Sanitize(s))
  {
    if s != "" { SanitizedIsOneLine(s[1..]); }
  }

  lemma {:induction false} SplitIsOneLine(s: string)
    ensures forall i :: 0 <= i < |SplitLines(s)| ==> OneLine(SplitLines(s)[i])
    decreases |s|
  {
    if s != "" {
      SplitIsOneLine(s[1..]);
      if |s| > 1 { SplitIsOneLine(s[2..]); }
    }
  }

  lemma FieldLine(r: Reader, name: string, value: string)
    requires name != "" && ':' !in name
    ensures ReadLine(r, name + ": " + value) == Field(r, name, value)
  {
    var line := name + ": " + value;
    assert line[|name|] == ':' && forall j :: 0 <= j < |name| ==> line[j] == name[j];
    assert Colon(line) == |name|;
    assert line[..|name|] == name && line[|name| + 1..] == " " + value && (" " + value)[1..] == value;
  }

  lemma FieldNames()
    ensures "data" != "event" && "id" != "event" && "id" != "data"
    ensures "retry" != "event" && "retry" != "data" && "retry" != "id"
  {
    assert |"data"| == 4 && |"event"| == 5 && |"id"| == 2 && |"retry"| == 5;
    assert "retry"[0] == 'r' && "event"[0] == 'e';
  }

  /** What each field line does. */
  lemma ReadField(r: Reader, value: string)
    ensures ReadLine(r, "event: " + value) == r.(kind := value)
    ensures ReadLine(r, "data: " + value) == r.(data := r.data + value + "\n")
    ensures ReadLine(r, "id: " + value) == if '\0' in value then r else r.(lastEventId := value)
    ensures ReadLine(r, "retry: " + value) == if AllDigits(value) && value != "" then r.(retry := value) else r
  {
    hide ReadLine, Colon;
    FieldNames();
    FieldLine(r, "event", value);
    FieldLine(r, "data", value);
    FieldLine(r, "id", value);
    FieldLine(r, "retry", value);
    assert "event" + ": " == "event: " && "data" + ": " == "data: " && "id" + ": " == "id: " && "retry" + ": " == "retry: ";
  }

  lemma ReadOne(r: Reader, line: string)
    ensures ReadLines(r, [line]) == ReadLine(r, line)
  {
    assert [line][..0] == [];
  }

  /** The data lines leave the joined text, with a line feed behind. */
  lemma {:induction false} DataIsJoined(r: Reader, lines: seq<string>)
    requires lines != [] && r.data == ""
    ensures ReadLines(r, DataLines(lines)) == r.(data := JoinLines(lines) + "\n")
  {
    hide ReadLine;
    var front, last := lines[..|lines| - 1], lines[|lines| - 1];
    ReadLinesAppends(r, DataLines(front), ["data: " + last]);
    var before := ReadLines(r, DataLines(front));
    ReadOne(before, "data: " + last);
    ReadField(before, last);
    if |lines| == 1 {
      assert front == [] && DataLines(front) == [] && ReadLines(r, []) == r;
      assert "" + last + "\n" == last + "\n" && JoinLines(lines) == last;
    } else {
      DataIsJoined(r, front);
      assert JoinLines(front) + "\n" + last + "\n" == JoinLines(lines) + "\n";
    }
  }

  /** `retry` is printed from a number: it holds no line terminator. */
  predicate Printable(e: Event) {
    e.retry.Some? ==> OneLine(e.retry.value)
  }

  lemma PrefixIsOneLine(prefix: string, s: string)
    requires OneLine(prefix) && OneLine(s)
    ensures OneLine(prefix + s)
  {}

  lemma {:induction false} DataLinesAreOneLine(lines: seq<string>)
    requires forall i :: 0 <= i < |lines| ==> OneLine(lines[i])
    ensures forall i :: 0 <= i < |DataLines(lines)| ==> OneLine(DataLines(lines)[i])
  {
    if lines != [] {
      DataLinesAreOneLine(lines[..|lines| - 1]);
      PrefixIsOneLine("data: ", lines[|lines| - 1]);
    }
  }

  /** Nothing in an event can break out of its line. */
  lemma FrameIsOneLiners(e: Event)
    requires Printable(e)
    ensures forall i :: 0 <= i < |FrameLines(e)| ==> OneLine(FrameLines(e)[i])
  {
    hide OneLine, Sanitize, SplitLines, DataLines;
    SplitIsOneLine(e.data);
    DataLinesAreOneLine(SplitLines(e.data));
    Prefixes();
    if e.event.Some? { SanitizedIsOneLine(e.event.value); PrefixIsOneLine("event: ", Sanitize(e.event.value)); }
    if e.id.Some? { SanitizedIsOneLine(e.id.value); PrefixIsOneLine("id: ", Sanitize(e.id.value)); }
    if e.retry.Some? { PrefixIsOneLine("retry: ", e.retry.value); }
  }

  lemma Prefixes()
    ensures OneLine("event: ") && OneLine("id: ") && OneLine("retry: ") && OneLine("")
  {}

  lemma EventLinesAreRead(e: Event, r: Reader)
    requires r.kind == ""
    ensures ReadLines(r, EventLines(e)) == r.(kind := if e.event.Some? then Sanitize(e.event.value) else "")
  {
    SanitizeNothing();
    hide ReadLine, Sanitize;
    if EventLines(e) != [] {
      ReadOne(r, EventLines(e)[0]);
      ReadField(r, Sanitize(e.event.value));
    }
  }

  lemma IdLinesAreRead(e: Event, r: Reader)
    ensures ReadLines(r, IdLines(e)) == r.(lastEventId := IdAfter(e, r.lastEventId))
  {
    hide ReadLine, Sanitize;
    if IdLines(e) != [] {
      ReadOne(r, IdLines(e)[0]);
      ReadField(r, Sanitize(e.id.value));
    }
  }

  lemma RetryLinesAreRead(e: Event, r: Reader)
    ensures ReadLines(r, RetryLines(e)) == r.(retry := RetryAfter(e, r.retry))
  {
    hide ReadLine;
    if RetryLines(e) != [] {
      ReadOne(r, RetryLines(e)[0]);
      ReadField(r, e.retry.value);
    }
  }

  /** The fields before the data. */
  lemma HeadIsRead(e: Event, r: Reader)
    requires r.kind == ""
    ensures ReadLines(r, Head(e)) ==
      r.(kind := if e.event.Some? then Sanitize(e.event.value) else "",
         lastEventId := IdAfter(e, r.lastEventId), retry := RetryAfter(e, r.retry))
  {
    hide ReadLines, EventLines, IdLines, RetryLines, Sanitize, IdAfter, RetryAfter;
    ReadLinesAppends(r, EventLines(e) + IdLines(e), RetryLines(e));
    ReadLinesAppends(r, EventLines(e), IdLines(e));
    EventLinesAreRead(e, r);
    var r1 := ReadLines(r, EventLines(e));
    IdLinesAreRead(e, r1);
    RetryLinesAreRead(e, ReadLines(r1, IdLines(e)));
  }

  lemma SanitizeNothing()
    ensures Sanitize("") == ""
  {}

  /** A frame is dispatched as exactly one event. */
  lemma FrameIsOneEvent(e: Event, r: Reader)
    requires Idle(r)
    ensures ReadLines(r, FrameLines(e)) ==
      Reader("", "", IdAfter(e, r.lastEventId), RetryAfter(e, r.retry), r.events + [Sent(e, r.lastEventId)])
  {
    hide ReadLines, Sanitize, SplitLines, DataLines;
    var lines := SplitLines(e.data);
    assert FrameLines(e) == Head(e) + (DataLines(lines) + [""]);
    ReadLinesAppends(r, Head(e), DataLines(lines) + [""]);
    HeadIsRead(e, r);
    var r1 := ReadLines(r, Head(e));
    ReadLinesAppends(r1, DataLines(lines), [""]);
    DataIsJoined(r1, lines);
    var r2 := ReadLines(r1, DataLines(lines));
    ReadOne(r2, "");
    var joined := JoinLines(lines) + "\n";
    assert joined[|joined| - 1] == '\n' && joined[..|joined| - 1] == JoinLines(lines);
  }

  /** A ping dispatches nothing and changes nothing. */
  lemma PingIsSilent(r: Reader)
    requires Idle(r)
    ensures ReadLines(r, [": ping", ""]) == r
  {
    assert [": ping", ""] == [": ping"] + [""];
    ReadLinesAppends(r, [": ping"], [""]);
    ReadOne(r, ": ping");
    ReadOne(r, "");
  }

  // ---- Whole streams ----

  datatype Item = Send(e: Event) | Ping

  function ItemText(item: Item): string {
    match item case Send(e) => Text(FrameLines(e)) case Ping => PING
  }

  function Stream(items: seq<Item>): string {
    if items == [] then "" else Stream(items[..|items| - 1]) + ItemText(items[|items| - 1])
  }

  /** What the reader should hold after the items. */
  function Expected(items: seq<Item>): Reader {
    if items == [] then FRESH
    else
      var r := Expected(items[..|items| - 1]);
      match items[|items| - 1]
      case Ping => r
      case Send(e) => Reader("", "", IdAfter(e, r.lastEventId), RetryAfter(e, r.retry), r.events + [Sent(e, r.lastEventId)])
  }

  function ItemLines(item: Item): seq<string> {
    match item case Send(e) => FrameLines(e) case Ping => [": ping", ""]
  }

  function AllLines(items: seq<Item>): seq<string> {
    if items == [] then [] else AllLines(items[..|items| - 1]) + ItemLines(items[|items| - 1])
  }

  ghost predicate AllPrintable(items: seq<Item>) {
    forall i :: 0 <= i < |items| ==> (items[i].Send? ==> Printable(items[i].e))
  }

  lemma ItemIsLines(item: Item)
    requires item.Send? ==> Printable(item.e)
    ensures ItemText(item) == Text(ItemLines(item))
    ensures forall i :: 0 <= i < |ItemLines(item)| ==> OneLine(ItemLines(item)[i])
  {
    match item
    case Send(e) => FrameIsOneLiners(e);
    case Ping =>
      TextAppends([": ping"], [""]);
      TextOne(": ping");
      TextOne("");
      assert [": ping"] + [""] == [": ping", ""];
  }

  lemma {:induction false} StreamIsLines(items: seq<Item>)
    requires AllPrintable(items)
    ensures Stream(items) == Text(AllLines(items))
    ensures forall i :: 0 <= i < |AllLines(items)| ==> OneLine(AllLines(items)[i])
  {
    hide OneLine, Text, ItemText, ItemLines;
    if items == [] {
      TextNone();
    } else {
      StreamIsLines(items[..|items| - 1]);
      ItemIsLines(items[|items| - 1]);
      TextAppends(AllLines(items[..|items| - 1]), ItemLines(items[|items| - 1]));
    }
  }

  lemma {:induction false} LinesAreRead(items: seq<Item>)
    ensures ReadLines(FRESH, AllLines(items)) == Expected(items) && Idle(Expected(items))
  {
    if items != [] {
      hide ReadLines, FrameLines, Sent, IdAfter, RetryAfter;
      var front, last := items[..|items| - 1], items[|items| - 1];
      LinesAreRead(front);
      ReadLinesAppends(FRESH, AllLines(front), ItemLines(last));
      match last
      case Ping => PingIsSilent(Expected(front));
      case Send(e) => FrameIsOneEvent(e, Expected(front));
    }
  }

  lemma NoLines()
    ensures Lines("") == []
  {}

  /** Read by the standard, a stream of frames and pings dispatches exactly one event per send,
      in order, with its type, its data up to line terminators, and the last event id. */
  lemma StreamReadsBack(items: seq<Item>)
    requires AllPrintable(items)
    ensures Read(Stream(items)) == Expected(items)
    ensures |Read(Stream(items)).events| + Pings(items) == |items|
  {
    OneEventPerSend(items);
    hide Pings, Lines, Text, ReadLines, AllLines, Expected, Stream, OneLine;
    StreamIsLines(items);
    LinesOfText(AllLines(items), "");
    NoLines();
    assert Text(AllLines(items)) + "" == Text(AllLines(items)) && AllLines(items) + [] == AllLines(items);
    LinesAreRead(items);
  }

  lemma {:induction false} OneEventPerSend(items: seq<Item>)
    ensures |Expected(items).events| + Pings(items) == |items|
  {
    if items != [] { OneEventPerSend(items[..|items| - 1]); }
  }

  function Pings(items: seq<Item>): nat {
    if items == [] then 0 else Pings(items[..|items| - 1]) + (if items[|items| - 1].Ping? then 1 else 0)
  }

  // ---- What normalising and sanitising do, character by character ----

  /** What becomes of character `i`: of a CRLF the CR goes, any other CR becomes a line feed. */
  function Fed(s: string, i: nat): string
    requires i < |s|
  {
    if s[i] != '\r' then [s[i]] else if i + 1 < |s| && s[i + 1] == '\n' then "" else "\n"
  }

  function FedFrom(s: string, i: nat): string
    requires i <= |s|
    decreases |s| - i
  {
    if i == |s| then "" else Fed(s, i) + FedFrom(s, i + 1)
  }

  lemma {:induction false} JoinFirst(x: string, r: seq<string>)
    requires r != []
    ensures JoinLines([x] + r) == x + "\n" + JoinLines(r)
  {
    var all := [x] + r;
    assert all[..|all| - 1] == [x] + r[..|r| - 1];
    if |r| == 1 {
      assert all[..1] == [x] && JoinLines([x]) == x && JoinLines(r) == r[0];
    } else {
      JoinFirst(x, r[..|r| - 1]);
      var front, last := JoinLines(r[..|r| - 1]), r[|r| - 1];
      assert x + "\n" + front + "\n" + last == x + "\n" + (front + "\n" + last);
    }
  }

  lemma JoinOne(x: string)
    ensures JoinLines([x]) == x
  {}

  lemma Moved(c: string, x: string, rest: string)
    ensures c + x + "\n" + rest == c + (x + "\n" + rest)
  {}

  lemma JoinLonger(c: char, r: seq<string>)
    requires r != []
    ensures JoinLines([[c] + r[0]] + r[1..]) == [c] + JoinLines(r)
  {
    hide JoinLines;
    var x, rest := r[0], r[1..];
    assert r == [x] + rest;
    if rest == [] {
      assert [[c] + x] + rest == [[c] + x] && r == [x];
      JoinOne(x);
      JoinOne([c] + x);
    } else {
      JoinFirst([c] + x, rest);
      JoinFirst(x, rest);
      Moved([c], x, JoinLines(rest));
    }
  }

  lemma SplitUnfolds(s: string)
    requires s != ""
    ensures SplitLines(s) ==
      if s[0] == '\r' && |s| > 1 && s[1] == '\n' then [""] + SplitLines(s[2..])
      else if IsLineEnd(s[0]) then [""] + SplitLines(s[1..])
      else [[s[0]] + SplitLines(s[1..])[0]] + SplitLines(s[1..])[1..]
  {}

  lemma FedUnfolds(s: string, i: nat)
    requires i < |s|
    ensures FedFrom(s, i) ==
      if s[i] == '\r' && i + 1 < |s| && s[i + 1] == '\n' then "\n" + FedFrom(s, i + 2)
      else if IsLineEnd(s[i]) then "\n" + FedFrom(s, i + 1)
      else [s[i]] + FedFrom(s, i + 1)
  {
    if s[i] == '\r' && i + 1 < |s| && s[i + 1] == '\n' {
      assert FedFrom(s, i + 1) == "\n" + FedFrom(s, i + 2);
      assert "" + FedFrom(s, i + 1) == FedFrom(s, i + 1);
    }
  }

  lemma NormalisedUnfolds(t: string)
    requires t != ""
    ensures Normalised(t) ==
      if t[0] == '\r' && |t| > 1 && t[1] == '\n' then "\n" + Normalised(t[2..])
      else if IsLineEnd(t[0]) then "\n" + Normalised(t[1..])
      else [t[0]] + Normalised(t[1..])
  {
    SplitUnfolds(t);
    hide SplitLines, JoinLines;
    if t[0] == '\r' && |t| > 1 && t[1] == '\n' {
      JoinFirst("", SplitLines(t[2..]));
    } else if IsLineEnd(t[0]) {
      JoinFirst("", SplitLines(t[1..]));
    } else {
      JoinLonger(t[0], SplitLines(t[1..]));
    }
    assert "" + "\n" == "\n";
  }

  lemma {:induction false} NormalisedFrom(s: string, i: nat)
    requires i <= |s|
    ensures Normalised(s[i..]) == FedFrom(s, i)
    decreases |s| - i
  {
    var t := s[i..];
    if i == |s| {
      assert SplitLines(t) == [""] && JoinLines([""]) == "";
    } else {
      hide Normalised, FedFrom;
      NormalisedUnfolds(t);
      FedUnfolds(s, i);
      assert t[0] == s[i] && t[1..] == s[i + 1..];
      NormalisedFrom(s, i + 1);
      if i + 1 < |s| {
        assert t[1] == s[i + 1] && t[2..] == s[i + 2..];
        NormalisedFrom(s, i + 2);
      }
    }
  }

  /** Normalised data is the data with every CRLF, and every other CR, become a line feed. */
  lemma NormalisedIs(s: string)
    ensures Normalised(s) == FedFrom(s, 0)
  {
    assert s[0..] == s;
    NormalisedFrom(s, 0);
  }

  /** A sanitised field is the field without its line terminators, and nothing else changes. */
  lemma {:induction false} SanitizedIs(a: string, b: string)
    ensures Sanitize(a + b) == Sanitize(a) + Sanitize(b)
    ensures OneLine(a) ==> Sanitize(a) == a
    ensures Sanitize("\r") == Sanitize("\n") == ""
  {
    NothingLeft('\r');
    NothingLeft('\n');
    if a == "" {
      assert a + b == b;
    } else {
      assert (a + b)[1..] == a[1..] + b && a == [a[0]] + a[1..];
      SanitizedIs(a[1..], b);
      SanitizeUnfolds(a);
      SanitizeUnfolds(a + b);
      hide Sanitize;
      var c := if IsLineEnd(a[0]) then "" else [a[0]];
      assert c + Sanitize(a[1..]) + Sanitize(b) == c + (Sanitize(a[1..]) + Sanitize(b));
    }
  }

  lemma SanitizeUnfolds(s: string)
    requires s != ""
    ensures Sanitize(s) == (if IsLineEnd(s[0]) then "" else [s[0]]) + Sanitize(s[1..])
  {}

  lemma NothingLeft(c: char)
    requires IsLineEnd(c)
    ensures Sanitize([c]) == ""
  {
    SanitizeUnfolds([c]);
    assert [c][1..] == "";
  }

  /** Data without line terminators arrives unchanged. */
  lemma {:induction false} OneLineIsKept(data: string)
    requires OneLine(data)
    ensures SplitLines(data) == [data] && Normalised(data) == data
  {
    if data != "" {
      OneLineIsKept(data[1..]);
      assert data == [data[0]] + data[1..];
    }
  }

  // ---- The channel ----

  /** A stream's writable end; `sent` is what was written while it was open. */
  class Channel {
    var written: string
    var isOpen: bool
    ghost var sent: seq<Item>

    ghost predicate Valid()
      reads this
    {
      AllPrintable(sent) && written == Stream(sent)
    }

    constructor ()
      ensures Valid() && isOpen && sent == []
    {
      written, isOpen, sent := "", true, [];
    }

    /** `send`; after `close` nothing is written. */
    method SendEvent(e: Event)
      requires Valid() && Printable(e)
      modifies this
      ensures Valid() && isOpen == old(isOpen)
      ensures sent == if old(isOpen) then old(sent) + [Send(e)] else old(sent)
      ensures Read(written) == Expected(sent)
    {
      hide Stream, Expected, Read, Text, FrameLines, AllPrintable, Printable;
      SentReadsBack(sent);
      if !isOpen { return; }
      var frame := FormatSSEEvent(e);
      FrameGrows(sent, e);
      written := written + frame;
      sent := sent + [Send(e)];
    }

    /** The keep-alive timer. */
    method KeepAlive()
      requires Valid()
      modifies this
      ensures Valid() && isOpen == old(isOpen)
      ensures Read(written) == old(Read(written))
    {
      hide Stream, Expected, Read;
      StreamReadsBack(sent);
      if !isOpen { return; }
      StreamGrows(sent, Ping);
      PingExpectsNothing(sent);
      written := written + PING;
      sent := sent + [Ping];
      StreamReadsBack(sent);
    }

    method Close()
      requires Valid()
      modifies this
      ensures Valid() && !isOpen && written == old(written) && sent == old(sent)
    {
      isOpen := false;
    }
  }

  lemma SentReadsBack(items: seq<Item>)
    requires AllPrintable(items)
    ensures Read(Stream(items)) == Expected(items)
  {
    StreamReadsBack(items);
  }

  /** One frame more. */
  lemma FrameGrows(items: seq<Item>, e: Event)
    requires AllPrintable(items) && Printable(e)
    ensures AllPrintable(items + [Send(e)])
    ensures Stream(items + [Send(e)]) == Stream(items) + Text(FrameLines(e))
    ensures Read(Stream(items + [Send(e)])) == Expected(items + [Send(e)])
  {
    PrintableGrows(items, e);
    StreamGrows(items, Send(e));
    StreamReadsBack(items + [Send(e)]);
    hide Stream, Expected, Read, Text, FrameLines, AllPrintable;
  }

  lemma PrintableGrows(items: seq<Item>, e: Event)
    requires AllPrintable(items) && Printable(e)
    ensures AllPrintable(items + [Send(e)])
  {}

  lemma StreamGrows(items: seq<Item>, item: Item)
    ensures Stream(items + [item]) == Stream(items) + ItemText(item)
  {
    assert (items + [item])[..|items|] == items;
  }

  lemma PingExpectsNothing(items: seq<Item>)
    ensures Expected(items + [Ping]) == Expected(items)
  {
    assert (items + [Ping])[..|items|] == items;
  }
}
