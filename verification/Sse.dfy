/** Server-sent events: the server's printer and the browser's incremental decoder. */
module Sse {
  import opened Text

  datatype Packet = Packet(event: string, data: string)

  /** What the two server loops yield: events, and heartbeat comments while the agent stream is idle. */
  datatype Item = Event(packet: Packet) | Heartbeat

  function PrintItem(item: Item): string {
    match item
    case Event(p) => "event: " + p.event + "\ndata: " + p.data + "\n\n"
    case Heartbeat => ": heartbeat\n\n"
  }

  function Print(items: seq<Item>): string {
    if items == [] then "" else PrintItem(items[0]) + Print(items[1..])
  }

  function Packets(items: seq<Item>): seq<Packet> {
    if items == [] then []
    else (if items[0].Event? then [items[0].packet] else []) + Packets(items[1..])
  }

  // ---- Decoder -------------------------------------------------------------------------------------------------------

  function SplitNewline(s: string): (lines: seq<string>)
    ensures lines != []
  {
    var i := Find(s, "\n", 0);
    if i == -1 then [s] else [s[..i]] + SplitNewline(s[i + 1..])
  }

  /** One line of a block: blank lines and comments are skipped, unknown fields ignored. */
  function ParseLine(event: string, data: seq<string>, rawLine: string): (string, seq<string>) {
    var line := TrimEnd(rawLine, IsJsSpace);
    if line == "" || line[0] == ':' then (event, data)
    else
      var separator := Find(line, ":", 0);
      var field := if separator >= 0 then line[..separator] else line;
      var rest := if separator >= 0 then line[separator + 1..] else "";
      var value := if rest != "" && rest[0] == ' ' then rest[1..] else rest;
      (if field == "event" then value else event, if field == "data" then data + [value] else data)
  }

  function ParseLines(event: string, data: seq<string>, lines: seq<string>): Packet
    decreases |lines|
  {
    if lines == [] then Packet(event, Join(data, "\n"))
    else
      var next := ParseLine(event, data, lines[0]);
      ParseLines(next.0, next.1, lines[1..])
  }

  function ParseBlock(block: string): Packet { ParseLines("message", [], SplitNewline(block)) }

  method ParseSseBlock(block: string) returns (p: Packet)
    ensures p == ParseBlock(block)
  {
    var event, data: seq<string> := "message", [];
    var lines := SplitNewline(block);
    assert lines[0..] == lines;
    for i := 0 to |lines|
      invariant ParseLines(event, data, lines[i..]) == ParseBlock(block)
    {
      assert lines[i..][0] == lines[i] && lines[i..][1..] == lines[i + 1..];
      var next := ParseLine(event, data, lines[i]);
      event, data := next.0, next.1;
    }
    assert lines[|lines|..] == [];
    p := Packet(event, Join(data, "\n"));
  }

  /** `consume` hands nothing on when the block carries no data. */
  function Consume(block: string): seq<Packet> {
    if ParseBlock(block).data == "" then [] else [ParseBlock(block)]
  }

  /** `replace(/\r\n/g, "\n")` */
  function Unix(s: string): string {
    if |s| >= 2 && s[0] == '\r' && s[1] == '\n' then ['\n'] + Unix(s[2..])
    else if s == "" then ""
    else [s[0]] + Unix(s[1..])
  }

  /** All complete blocks consumed, and the unfinished rest of the buffer. */
  function Drain(buffer: string): (seq<Packet>, string)
    decreases |buffer|
  {
    var i := Find(buffer, "\n\n", 0);
    if i == -1 then ([], buffer)
    else
      var tail := Drain(buffer[i + 2..]);
      (Consume(buffer[..i]) + tail.0, tail.1)
  }

  /** The last `consume` after the stream has ended. */
  function Flush(buffer: string): seq<Packet> {
    if TrimStart(TrimEnd(buffer, IsJsSpace), IsJsSpace) == "" then [] else Consume(buffer)
  }

  /** Decoding the whole text at once. */
  function Decode(text: string): seq<Packet> { Drain(text).0 + Flush(Drain(text).1) }

  function Received(pieces: seq<string>): string {
    if pieces == [] then "" else Received(pieces[..|pieces| - 1]) + Unix(pieces[|pieces| - 1])
  }

  /** The inner loop: every complete block of the buffer is consumed. */
  method DrainBuffer(text: string) returns (consumed: seq<Packet>, buffer: string)
    ensures (consumed, buffer) == Drain(text)
  {
    consumed, buffer := [], text;
    var separator := Find(buffer, "\n\n", 0);
    ghost var goal, todo := Drain(text), Drain(text);
    while separator >= 0
      invariant separator == Find(buffer, "\n\n", 0)
      invariant todo == Drain(buffer)
      invariant consumed + todo.0 == goal.0 && todo.1 == goal.1
      decreases |buffer|
    {
      var block := buffer[..separator];
      assert todo.0 == Consume(block) + Drain(buffer[separator + 2..]).0;
      buffer := buffer[separator + 2..];
      todo := Drain(buffer);
      Assoc(consumed, Consume(block), todo.0);
      var p := ParseSseBlock(block);
      if p.data != "" {
        assert Consume(block) == [p];
        consumed := consumed + [p];
      } else {
        assert Consume(block) == [] && consumed + [] == consumed;
      }
      separator := Find(buffer, "\n\n", 0);
    }
    assert consumed + [] == consumed;
  }

  lemma FindConcat(a: string, b: string)
    requires Find(a, "\n\n", 0) >= 0
    ensures Find(a + b, "\n\n", 0) == Find(a, "\n\n", 0)
  {
    var i := Find(a, "\n\n", 0);
    assert (a + b)[i..i + 2] == a[i..i + 2];
    forall j: nat | j < i ensures !At(a + b, "\n\n", j) {
      assert (a + b)[j..j + 2] == a[j..j + 2];
      assert !At(a, "\n\n", j);
    }
    FindIs(a + b, "\n\n", 0, i);
  }

  /** Draining in two portions equals draining everything. */
  lemma {:induction false} DrainConcat(a: string, b: string)
    ensures Drain(a + b).0 == Drain(a).0 + Drain(Drain(a).1 + b).0
    ensures Drain(a + b).1 == Drain(Drain(a).1 + b).1
    decreases |a|
  {
    var i := Find(a, "\n\n", 0);
    if i == -1 {
      assert [] + Drain(a + b).0 == Drain(a + b).0;
    } else {
      FindConcat(a, b);
      assert (a + b)[..i] == a[..i] && (a + b)[i + 2..] == a[i + 2..] + b;
      DrainConcat(a[i + 2..], b);
      Assoc(Consume(a[..i]), Drain(a[i + 2..]).0, Drain(Drain(a).1 + b).0);
    }
  }

  /** The read loop of `answerQuestionStream` and `streamAgentEvents`: however the text is cut into reads, the packets
      consumed are those of the whole text. */
  method ReadStream(pieces: seq<string>) returns (consumed: seq<Packet>)
    ensures consumed == Decode(Received(pieces))
  {
    consumed := [];
    var buffer := "";
    for k := 0 to |pieces|
      invariant Drain(Received(pieces[..k])) == (consumed, buffer)
    {
      assert pieces[..k + 1][..k] == pieces[..k];
      DrainConcat(Received(pieces[..k]), Unix(pieces[k]));
      var more;
      more, buffer := DrainBuffer(buffer + Unix(pieces[k]));
      consumed := consumed + more;
    }
    assert pieces[..|pieces|] == pieces;
    if TrimStart(TrimEnd(buffer, IsJsSpace), IsJsSpace) != "" {
      var p := ParseSseBlock(buffer);
      if p.data != "" {
        consumed := consumed + [p];
      }
    }
  }

  // ---- Independence of the cuts --------------------------------------------------------------------------------------

  /** A cut between a carriage return and its line feed. */
  predicate SplitsCrlf(a: string, b: string) {
    a != "" && b != "" && a[|a| - 1] == '\r' && b[0] == '\n'
  }

  /** Split, a pair comes out as two characters instead of one. */
  lemma UnixSplitPair(a: string, b: string)
    requires a == "\r" && b != "" && b[0] == '\n'
    ensures |Unix(a)| + |Unix(b)| == |Unix(a + b)| + 1
  {
    assert (a + b)[2..] == b[1..] && a[1..] == "";
    assert Unix(a + b) == ['\n'] + Unix(b[1..]);
    assert Unix(b) == ['\n'] + Unix(b[1..]);
    assert Unix(a) == ['\r'] + Unix("");
  }

  lemma {:induction false} UnixConcat(a: string, b: string)
    ensures !SplitsCrlf(a, b) ==> Unix(a + b) == Unix(a) + Unix(b)
    ensures |Unix(a)| + |Unix(b)| == |Unix(a + b)| + if SplitsCrlf(a, b) then 1 else 0
    decreases |a|
  {
    if a == "" {
      assert a + b == b;
    } else if |a| == 1 && SplitsCrlf(a, b) {
      UnixSplitPair(a, b);
    } else if |a| >= 2 && a[0] == '\r' && a[1] == '\n' {
      assert (a + b)[2..] == a[2..] + b;
      UnixConcat(a[2..], b);
      Assoc(['\n'], Unix(a[2..]), Unix(b));
    } else {
      assert (a + b)[1..] == a[1..] + b && (a + b)[0] == a[0];
      UnixConcat(a[1..], b);
      Assoc([a[0]], Unix(a[1..]), Unix(b));
    }
  }

  function Concat(pieces: seq<string>): string {
    if pieces == [] then "" else Concat(pieces[..|pieces| - 1]) + pieces[|pieces| - 1]
  }

  /** No cut between two reads falls inside a CR LF pair. */
  predicate CleanCuts(pieces: seq<string>) {
    pieces == [] || (!SplitsCrlf(Concat(pieces[..|pieces| - 1]), pieces[|pieces| - 1]) && CleanCuts(pieces[..|pieces| - 1]))
  }

  /** How many cuts fall inside a CR LF pair. */
  function SplitPairs(pieces: seq<string>): nat {
    if pieces == [] then 0
    else
      var front, last := pieces[..|pieces| - 1], pieces[|pieces| - 1];
      SplitPairs(front) + if SplitsCrlf(Concat(front), last) then 1 else 0
  }

  lemma {:induction false} ReceivedLength(pieces: seq<string>)
    ensures |Received(pieces)| == |Unix(Concat(pieces))| + SplitPairs(pieces)
    ensures SplitPairs(pieces) == 0 <==> CleanCuts(pieces)
  {
    if pieces != [] {
      var front, last := pieces[..|pieces| - 1], pieces[|pieces| - 1];
      ReceivedLength(front);
      UnixConcat(Concat(front), last);
    }
  }

  lemma {:induction false} CleanCutsReceive(pieces: seq<string>)
    requires CleanCuts(pieces)
    ensures Received(pieces) == Unix(Concat(pieces))
  {
    if pieces != [] {
      var front, last := pieces[..|pieces| - 1], pieces[|pieces| - 1];
      CleanCutsReceive(front);
      UnixConcat(Concat(front), last);
    }
  }

  /** For every text and every way to cut it, the decoder gets the normalised text if and only if no cut falls inside a
      CR LF pair. */
  lemma CutsDoNotMatter(pieces: seq<string>)
    ensures Received(pieces) == Unix(Concat(pieces)) <==> CleanCuts(pieces)
  {
    ReceivedLength(pieces);
    if CleanCuts(pieces) {
      CleanCutsReceive(pieces);
    }
  }

  /** Every pair that is split leaves one character too many. */
  lemma CutInsideCrlfMatters(pieces: seq<string>)
    requires !CleanCuts(pieces)
    ensures |Received(pieces)| == |Unix(Concat(pieces))| + SplitPairs(pieces) > |Unix(Concat(pieces))|
  {
    ReceivedLength(pieces);
  }

  // ---- Round trip ----------------------------------------------------------------------------------------------------

  predicate Plain(s: string) {
    s != "" && '\n' !in s && '\r' !in s && !IsJsSpace(s[|s| - 1])
  }

  /** What the server prints: event names are identifiers and data is JSON text of an object, which contains no raw
      line break and ends in a brace. */
  predicate Printable(item: Item) {
    item.Event? ==> Plain(item.packet.event) && Plain(item.packet.data)
  }

  function Body(p: Packet): string { "event: " + p.event + "\ndata: " + p.data }

  lemma NoLineBreak(a: string, b: string)
    requires '\n' !in a && '\n' !in b
    ensures '\n' !in a + b
  {
  }

  lemma SplitBody(p: Packet)
    requires Plain(p.event) && Plain(p.data)
    ensures SplitNewline(Body(p)) == ["event: " + p.event, "data: " + p.data]
  {
    var first, second, s := "event: " + p.event, "data: " + p.data, Body(p);
    assert s == first + "\n" + second;
    NoLineBreak("event: ", p.event);
    NoLineBreak("data: ", p.data);
    PartsOf(first, "\n", second);
    assert forall j :: 0 <= j < |first| ==> s[j] == first[j];
    FindFirst(s, "\n", 0, |first|);
    FindNone(second, '\n');
  }

  lemma ParseField(event: string, data: seq<string>, name: string, value: string)
    requires name == "event" || name == "data"
    requires Plain(value)
    ensures ParseLine(event, data, name + ": " + value)
            == if name == "event" then (value, data) else (event, data + [value])
  {
    var line := name + ":" + (" " + value);
    assert ":" + " " == ": ";
    assert name + ": " + value == line;
    assert line[|line| - 1] == value[|value| - 1];
    PartsOf(name, ":", " " + value);
    FindFirst(line, ":", 0, |name|);
  }

  lemma ParseBody(p: Packet)
    requires Plain(p.event) && Plain(p.data)
    ensures ParseBlock(Body(p)) == p
  {
    SplitBody(p);
    var lines := ["event: " + p.event, "data: " + p.data];
    assert "event" + ": " + p.event == lines[0] && "data" + ": " + p.data == lines[1];
    ParseField("message", [], "event", p.event);
    ParseField(p.event, [], "data", p.data);
    assert lines[1..] == [lines[1]] && [lines[1]][1..] == [];
    calc {
      ParseLines("message", [], lines);
      ParseLines(p.event, [], [lines[1]]);
      ParseLines(p.event, [] + [p.data], []);
    }
    assert [] + [p.data] == [p.data];
  }

  function DataLines(values: seq<string>): seq<string> {
    if values == [] then [] else ["data" + ": " + values[0]] + DataLines(values[1..])
  }

  lemma ParseCons(event: string, data: seq<string>, line: string, rest: seq<string>, more: seq<string>)
    requires ParseLine(event, data, line) == (event, more)
    ensures ParseLines(event, data, [line] + rest) == ParseLines(event, more, rest)
  {
    assert ([line] + rest)[1..] == rest;
  }

  lemma MoveFirst(data: seq<string>, values: seq<string>)
    requires values != []
    ensures data + values == data + [values[0]] + values[1..]
  {
  }

  /** Several data lines make one text, a line break between them; without an event line the event stays as it was. */
  lemma {:induction false} DataLinesJoin(event: string, data: seq<string>, values: seq<string>)
    requires forall v <- values :: Plain(v)
    ensures ParseLines(event, data, DataLines(values)) == Packet(event, Join(data + values, "\n"))
    decreases |values|
  {
    if values == [] {
      assert data + values == data;
    } else {
      var value, rest := values[0], values[1..];
      assert value in values && forall v <- rest :: v in values;
      ParseField(event, data, "data", value);
      ParseCons(event, data, "data" + ": " + value, DataLines(rest), data + [value]);
      DataLinesJoin(event, data + [value], rest);
      MoveFirst(data, values);
    }
  }

  /** So a block of data lines alone is a "message". */
  lemma DataBlockIsMessage(block: string, values: seq<string>)
    requires SplitNewline(block) == DataLines(values) && forall v <- values :: Plain(v)
    ensures ParseBlock(block) == Packet("message", Join(values, "\n"))
  {
    DataLinesJoin("message", [], values);
    assert [] + values == values;
  }

  lemma FirstBlank(p: Packet, rest: string)
    requires Plain(p.event) && Plain(p.data)
    ensures Find(Body(p) + "\n\n" + rest, "\n\n", 0) == |Body(p)|
  {
    var body := Body(p);
    var s := body + "\n\n" + rest;
    var n := 7 + |p.event|;
    assert body[n] == '\n' && body[n + 1] == 'd';
    assert forall j :: 7 <= j < n ==> body[j] == p.event[j - 7];
    assert forall j :: n + 7 <= j < |body| ==> body[j] == p.data[j - n - 7];
    assert s[|body|..|body| + 2] == "\n\n";
    FindFirst(s, "\n\n", 0, |body|);
  }

  lemma NoBlankInside(p: Packet)
    requires Plain(p.event) && Plain(p.data)
    ensures Find(Body(p), "\n\n", 0) == -1
  {
    var body := Body(p);
    var longer := body + "\n\n" + "";
    FirstBlank(p, "");
    var i := Find(body, "\n\n", 0);
    if i >= 0 {
      assert longer[i..i + 2] == body[i..i + 2];
      assert At(longer, "\n\n", i);
    }
  }

  /** A last block that the stream does not terminate is consumed when the stream ends. */
  lemma UnterminatedBlockIsConsumed(p: Packet)
    requires Plain(p.event) && Plain(p.data)
    ensures Decode(Body(p)) == [p]
  {
    NoBlankInside(p);
    ParseBody(p);
    var body := Body(p);
    assert body[0] == 'e' && body[|body| - 1] == p.data[|p.data| - 1];
    assert TrimEnd(body, IsJsSpace) == body && TrimStart(body, IsJsSpace) == body;
    assert [] + [p] == [p];
  }

  lemma CommentIsEmpty()
    ensures Consume(": heartbeat") == []
  {
    var block := ": heartbeat";
    FindNone(block, '\n');
    assert SplitNewline(block) == [block];
    assert block[10] == 't' && TrimEnd(block, IsJsSpace) == block;
    assert ParseLine("message", [], block) == ("message", []);
    assert ParseLines("message", [], []) == Packet("message", "");
  }

  lemma HeartbeatIgnored(rest: string)
    ensures Drain(PrintItem(Heartbeat) + rest) == Drain(rest)
  {
    var s := PrintItem(Heartbeat) + rest;
    assert s[11..13] == "\n\n";
    FindFirst(s, "\n\n", 0, 11);
    assert s[..11] == ": heartbeat" && s[13..] == rest;
    CommentIsEmpty();
    assert [] + Drain(rest).0 == Drain(rest).0;
  }

  lemma EventDrained(p: Packet, rest: string)
    requires Plain(p.event) && Plain(p.data)
    ensures Drain(PrintItem(Event(p)) + rest) == ([p] + Drain(rest).0, Drain(rest).1)
  {
    var s := Body(p) + "\n\n" + rest;
    assert PrintItem(Event(p)) + rest == s;
    FirstBlank(p, rest);
    assert s[..|Body(p)|] == Body(p) && s[|Body(p)| + 2..] == rest;
    ParseBody(p);
  }

  lemma PrintedItem(item: Item, rest: string, packets: seq<Packet>)
    requires Printable(item) && Drain(rest) == (packets, "")
    ensures Drain(PrintItem(item) + rest) == ((if item.Event? then [item.packet] else []) + packets, "")
  {
    if item.Heartbeat? {
      HeartbeatIgnored(rest);
      assert [] + packets == packets;
    } else {
      EventDrained(item.packet, rest);
    }
  }

  lemma {:induction false} DrainPrint(items: seq<Item>)
    requires forall item <- items :: Printable(item)
    ensures Drain(Print(items)) == (Packets(items), "")
  {
    if items != [] {
      DrainPrint(items[1..]);
      PrintedItem(items[0], Print(items[1..]), Packets(items[1..]));
    }
  }

  lemma {:induction false} UnixWithoutCr(s: string)
    requires '\r' !in s
    ensures Unix(s) == s
  {
    if s != "" {
      UnixWithoutCr(s[1..]);
    }
  }

  lemma ItemWithoutCr(item: Item)
    requires Printable(item)
    ensures '\r' !in PrintItem(item)
  {
    match item
    case Event(p) =>
      assert '\r' !in "event: " && '\r' !in "\ndata: " && '\r' !in "\n\n";
    case Heartbeat =>
  }

  lemma {:induction false} PrintWithoutCr(items: seq<Item>)
    requires forall item <- items :: Printable(item)
    ensures '\r' !in Print(items)
  {
    if items != [] {
      PrintWithoutCr(items[1..]);
      ItemWithoutCr(items[0]);
    }
  }

  lemma {:induction false} CleanWithoutCr(pieces: seq<string>)
    requires '\r' !in Concat(pieces)
    ensures CleanCuts(pieces)
  {
    if pieces != [] {
      CleanWithoutCr(pieces[..|pieces| - 1]);
    }
  }

  /** Round trip: however the printed stream is cut into reads, exactly the printed packets are consumed, in order. */
  lemma RoundTrip(items: seq<Item>, pieces: seq<string>)
    requires forall item <- items :: Printable(item)
    requires Concat(pieces) == Print(items)
    ensures Decode(Received(pieces)) == Packets(items)
  {
    PrintWithoutCr(items);
    CleanWithoutCr(pieces);
    CutsDoNotMatter(pieces);
    UnixWithoutCr(Print(items));
    DrainPrint(items);
  }

  /** A connection lost at any character loses only a suffix: the complete blocks seen so far are a prefix of what was
      printed. */
  lemma BrokenStreamGivesPrefix(items: seq<Item>, seen: string, unseen: string)
    requires forall item <- items :: Printable(item)
    requires seen + unseen == Print(items)
    ensures Drain(seen).0 <= Packets(items)
  {
    DrainPrint(items);
    DrainConcat(seen, unseen);
  }
}
