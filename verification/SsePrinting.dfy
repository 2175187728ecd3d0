/** Server-sent events as a server prints them: both readers give back what was printed. */
module SsePrinting {
  import opened Prelude
  import opened Framing
  import opened Sse

  /** A line as it is printed: a payload behind "data: ", with either line end, or something else. */
  datatype Line = Data(payload: Bytes, crlf: bool) | Other(bytes: Bytes)

  // "data: "
  const FIELD: Bytes := [100, 97, 116, 97, 58, 32]

  predicate IsField(bytes: Bytes) {
    |bytes| >= 6 && bytes[..6] == FIELD
  }

  predicate Printable(line: Line) {
    match line
    case Data(payload, _) => 10 !in payload && (|payload| > 0 ==> payload[|payload| - 1] != 13)
    case Other(bytes) => 10 !in bytes && !IsField(bytes)
  }

  function Raw(line: Line): Bytes {
    match line
    case Data(payload, crlf) => FIELD + payload + if crlf then [13] else []
    case Other(bytes) => bytes
  }

  function Raws(lines: seq<Line>): seq<Bytes> {
    if |lines| == 0 then [] else [Raw(lines[0])] + Raws(lines[1..])
  }

  function Print(lines: seq<Line>): Bytes {
    if |lines| == 0 then [] else Raw(lines[0]) + [10] + Print(lines[1..])
  }

  /** The payloads printed, in order. */
  function Printed(lines: seq<Line>): seq<Bytes> {
    if |lines| == 0 then []
    else if lines[0].Data? then [lines[0].payload] + Printed(lines[1..])
    else Printed(lines[1..])
  }

  ghost predicate AllPrintable(lines: seq<Line>) {
    forall k :: 0 <= k < |lines| ==> Printable(lines[k])
  }

  lemma {:induction false} RawIsRead(line: Line)
    requires Printable(line)
    ensures 10 !in Raw(line) && Payload(Raw(line)) == if line.Data? then [line.payload] else []
  {
    match line
    case Data(payload, crlf) =>
      var whole := FIELD + payload;
      assert crlf ==> Raw(line)[..|Raw(line)| - 1] == whole;
      assert !crlf ==> Raw(line) == whole;
      assert whole[|whole| - 1] == if |payload| == 0 then 32 else payload[|payload| - 1];
      assert TrimReturn(Raw(line)) == whole;
      assert whole[..6] == FIELD && whole[6..] == payload;
    case Other(bytes) =>
      var trimmed := TrimReturn(bytes);
      assert |trimmed| >= 6 ==> trimmed[..6] == bytes[..6];
  }

  lemma {:induction false} FirstLineIs(raw: Bytes, rest: Bytes)
    requires 10 !in raw
    ensures NextLine(raw + [10] + rest) == Some(Frame(|raw| + 1, raw))
  {
    var buf := raw + [10] + rest;
    assert forall k :: 0 <= k < |raw| ==> buf[k] == raw[k];
    FindNewlineIs(buf, 0, |raw|);
    assert buf[..|raw|] == raw;
  }

  /** The lines of a print, with an incomplete line behind them. */
  lemma {:induction false} PrintIsSplit(lines: seq<Line>, tail: Bytes)
    requires AllPrintable(lines) && 10 !in tail
    ensures Progress(NextLine, Print(lines) + tail)
    ensures Drain(NextLine, Print(lines) + tail) == Drained(Raws(lines), tail)
    ensures Payloads(Raws(lines)) == Printed(lines)
  {
    LinesProgress(Print(lines) + tail);
    if |lines| == 0 {
      assert Print(lines) + tail == tail;
      assert NextLine(tail).None?;
    } else {
      var raw, rest := Raw(lines[0]), Print(lines[1..]) + tail;
      RawIsRead(lines[0]);
      FirstLineIs(raw, rest);
      assert Print(lines) + tail == raw + [10] + rest;
      assert (raw + [10] + rest)[|raw| + 1..] == rest;
      PrintIsSplit(lines[1..], tail);
      DrainStep(NextLine, Print(lines) + tail);
      PayloadsCons(raw, Raws(lines[1..]));
    }
  }

  /** However a print is cut into chunks, reading it gives back the payloads, and keeps back the incomplete line. */
  method ReadPrinted(ghost lines: seq<Line>, ghost tail: Bytes, chunks: seq<Bytes>)
    returns (payloads: seq<Bytes>, rest: Bytes)
    requires AllPrintable(lines) && 10 !in tail
    requires Flatten(chunks) == Print(lines) + tail
    ensures payloads == Printed(lines) && rest == tail
  {
    PrintIsSplit(lines, tail);
    payloads, rest := ReadPayloads(chunks);
  }

  // ----- Events -----

  /** An event: at least one line, and none that is empty. */
  ghost predicate IsEvent(lines: seq<Line>) {
    |lines| > 0 && AllPrintable(lines) && forall k :: 0 <= k < |lines| ==> |Raw(lines[k])| > 0
  }

  /** Each event is followed by an empty line. */
  function PrintEvents(events: seq<seq<Line>>): Bytes {
    if |events| == 0 then [] else Print(events[0]) + [10] + PrintEvents(events[1..])
  }

  ghost predicate AllEvents(events: seq<seq<Line>>) {
    forall k :: 0 <= k < |events| ==> IsEvent(events[k])
  }

  predicate NoBlank(bytes: Bytes) {
    forall k: nat :: k + 1 < |bytes| ==> !IsBlankAt(bytes, k)
  }

  lemma {:induction false} NoBlankInside(lines: seq<Line>)
    requires IsEvent(lines)
    ensures |Print(lines)| > 1 && Print(lines)[|Print(lines)| - 1] == 10 && Print(lines)[0] != 10
    ensures NoBlank(Print(lines))
  {
    var raw, rest := Raw(lines[0]), Print(lines[1..]);
    RawIsRead(lines[0]);
    var all := Print(lines);
    assert raw[0] in raw && all[0] == raw[0];
    if |lines| > 1 {
      assert forall k :: 0 <= k < |lines[1..]| ==> lines[1..][k] == lines[k + 1];
      NoBlankInside(lines[1..]);
    }
    forall k: nat | k + 1 < |all|
      ensures !IsBlankAt(all, k)
    {
      if k < |raw| {
        assert all[k] == raw[k] && raw[k] in raw;
      } else if k > |raw| {
        var i := k - |raw| - 1;
        assert all[k] == rest[i] && all[k + 1] == rest[i + 1] && !IsBlankAt(rest, i);
      } else {
        assert all[k + 1] == rest[0];
      }
    }
  }

  lemma {:induction false} FirstEventIs(lines: seq<Line>, rest: Bytes)
    requires IsEvent(lines)
    ensures NextEvent(Print(lines) + [10] + rest) == Some(Frame(|Print(lines)| + 1, Print(lines) + [10]))
  {
    NoBlankInside(lines);
    var body := Print(lines);
    var buf := body + [10] + rest;
    var at := |body| - 1;
    assert IsBlankAt(buf, at);
    forall k: nat | k < at
      ensures !IsBlankAt(buf, k)
    {
      assert buf[k] == body[k] && buf[k + 1] == body[k + 1] && !IsBlankAt(body, k);
    }
    assert FindDoubleNewline(buf, 0) == Some(at);
    assert buf[..at + 2] == body + [10];
  }

  function LastPayload(lines: seq<Line>): Option<Bytes> {
    var payloads := Printed(lines);
    if |payloads| == 0 then None else Some(payloads[|payloads| - 1])
  }

  /** The data of a printed event is its last payload. */
  lemma {:induction false} EventDataIs(lines: seq<Line>)
    requires AllPrintable(lines)
    ensures EventData(Print(lines) + [10]) == LastPayload(lines)
  {
    var closed := lines + [Other([])];
    assert AllPrintable(closed);
    PrintIsSplit(closed, []);
    PrintSnoc(lines);
    assert Print(closed) + [] == Print(lines) + [10];
  }

  lemma {:induction false} PrintSnoc(lines: seq<Line>)
    ensures Print(lines + [Other([])]) == Print(lines) + [10]
    ensures Printed(lines + [Other([])]) == Printed(lines)
  {
    if |lines| == 0 {
      assert lines + [Other([])] == [Other([])] && [Other([])][1..] == [];
      assert Print([Other([])]) == Raw(Other([])) + [10] + Print([]);
    } else {
      assert (lines + [Other([])])[1..] == lines[1..] + [Other([])];
      PrintSnoc(lines[1..]);
    }
  }

  function EventBytes(events: seq<seq<Line>>): (items: seq<Bytes>)
    ensures |items| == |events| && forall k :: 0 <= k < |items| ==> items[k] == Print(events[k]) + [10]
  {
    if |events| == 0 then [] else [Print(events[0]) + [10]] + EventBytes(events[1..])
  }

  /** What a printed event says: the JSON of its last payload, if it has one. */
  function Meaning(lines: seq<Line>, json: Bytes -> StreamEvent): StreamEvent {
    if LastPayload(lines).Some? then json(LastPayload(lines).value) else Ignored
  }

  function Meant(events: seq<seq<Line>>, json: Bytes -> StreamEvent): (said: seq<StreamEvent>)
    ensures |said| == |events| && forall k :: 0 <= k < |said| ==> said[k] == Meaning(events[k], json)
  {
    if |events| == 0 then [] else [Meaning(events[0], json)] + Meant(events[1..], json)
  }

  lemma {:induction false} EventsAreSplit(events: seq<seq<Line>>, tail: Bytes)
    requires AllEvents(events) && NoBlank(tail)
    ensures Progress(NextEvent, PrintEvents(events) + tail)
    ensures Drain(NextEvent, PrintEvents(events) + tail) == Drained(EventBytes(events), tail)
  {
    EventsProgress(PrintEvents(events) + tail);
    if |events| == 0 {
      assert PrintEvents(events) + tail == tail;
      assert NextEvent(tail).None?;
    } else {
      var body, rest := Print(events[0]), PrintEvents(events[1..]) + tail;
      assert IsEvent(events[0]);
      FirstEventIs(events[0], rest);
      assert PrintEvents(events) + tail == body + [10] + rest;
      assert (body + [10] + rest)[|body| + 1..] == rest;
      EventsAreSplit(events[1..], tail);
      DrainStep(NextEvent, PrintEvents(events) + tail);
    }
  }

  lemma {:induction false} EventsMean(events: seq<seq<Line>>, json: Bytes -> StreamEvent)
    requires AllEvents(events)
    ensures ParseAll(Reader(json), EventBytes(events)) == Meant(events, json)
  {
    hide EventData, Print, LastPayload;
    forall k | 0 <= k < |events|
      ensures Reader(json)(EventBytes(events)[k]) == Meaning(events[k], json)
    {
      assert IsEvent(events[k]);
      EventDataIs(events[k]);
    }
  }

  /** However printed events are cut into chunks, the outcome is that of what they say. */
  method ReadPrintedEvents(ghost events: seq<seq<Line>>, ghost tail: Bytes, chunks: seq<Bytes>, end: StreamEnd,
                           json: Bytes -> StreamEvent)
    returns (outcome: Outcome)
    requires AllEvents(events) && NoBlank(tail)
    requires Flatten(chunks) == PrintEvents(events) + tail
    ensures Yields(Meant(events, json), end, outcome)
  {
    EventsAreSplit(events, tail);
    EventsMean(events, json);
    outcome := ParseSse(chunks, end, json);
  }
}
