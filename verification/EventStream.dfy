/**
 The AWS event-stream framing: a 12-byte prelude with two big-endian lengths, typed
 headers, a payload and a checksum.
 */
module EventStream {
  import opened Prelude
  import opened Framing

  // ":event-type"
  const EVENT_TYPE: Bytes := [58, 101, 118, 101, 110, 116, 45, 116, 121, 112, 101]

  function BE32(b: Bytes): nat
    requires |b| >= 4
  {
    (((b[0] as int) * 256 + b[1]) * 256 + b[2]) * 256 + b[3]
  }

  function BE16(b: Bytes): nat
    requires |b| >= 2
  {
    (b[0] as int) * 256 + b[1]
  }

  function Skip(b: Bytes, n: nat): Bytes {
    if n <= |b| then b[n..] else []
  }

  /** Bytes after the type tag of a header whose value has a fixed size. */
  function FixedSize(tag: byte): Option<nat> {
    if tag == 0 || tag == 1 then Some(0)
    else if tag == 2 then Some(1)
    else if tag == 3 then Some(2)
    else if tag == 4 then Some(4)
    else if tag == 5 || tag == 8 then Some(8)
    else if tag == 9 then Some(16)
    else None
  }

  /** The value of the first string header named `target`; None also when the headers are malformed. */
  function Scan(h: Bytes, target: Bytes): Option<Bytes>
    decreases |h|, 0
  {
    if |h| == 0 || 1 + h[0] >= |h| then None
    else ScanValue(h[1..1 + h[0]], h[1 + h[0]], h[2 + h[0]..], target)
  }

  /** The scan behind a header's name and type tag. */
  function ScanValue(name: Bytes, tag: byte, body: Bytes, target: Bytes): Option<Bytes>
    decreases |body|, 1
  {
    if FixedSize(tag).Some? then Scan(Skip(body, FixedSize(tag).value), target)
    else if tag != 6 && tag != 7 then None
    else if |body| < 2 || 2 + BE16(body) > |body| then None
    else if tag == 7 && name == target then Some(body[2..2 + BE16(body)])
    else Scan(body[2 + BE16(body)..], target)
  }

  /** The name and tag of the header at position `at`. */
  lemma ScanAt(headers: Bytes, at: nat, target: Bytes)
    requires at < |headers|
    ensures var n := headers[at];
            if at + 1 + n >= |headers| then Scan(Skip(headers, at), target) == None
            else Scan(Skip(headers, at), target)
                 == ScanValue(headers[at + 1..at + 1 + n], headers[at + 1 + n], headers[at + 2 + n..], target)
  {
    hide ScanValue;
    var h, n := headers[at..], headers[at];
    if at + 1 + n < |headers| {
      assert headers[at + 1..at + 1 + n] == h[1..1 + n];
      assert headers[at + 2 + n..] == h[2 + n..];
    }
  }

  /** What the tag of a header makes of the bytes from position `p` on. */
  lemma ScanValueAt(headers: Bytes, name: Bytes, tag: byte, p: nat, target: Bytes)
    requires p <= |headers|
    ensures FixedSize(tag).Some? ==>
              ScanValue(name, tag, headers[p..], target) == Scan(Skip(headers, p + FixedSize(tag).value), target)
    ensures FixedSize(tag).None? && tag != 6 && tag != 7 ==> ScanValue(name, tag, headers[p..], target) == None
  {
    hide Scan, BE16;
    if FixedSize(tag).Some? {
      assert Skip(headers[p..], FixedSize(tag).value) == Skip(headers, p + FixedSize(tag).value);
    }
  }

  lemma ScanSizedAt(headers: Bytes, name: Bytes, tag: byte, p: nat, target: Bytes)
    requires p <= |headers| && (tag == 6 || tag == 7)
    ensures var got := ScanValue(name, tag, headers[p..], target);
            if p + 2 > |headers| || p + 2 + BE16(headers[p..]) > |headers| then got == None
            else if tag == 7 && name == target then got == Some(headers[p + 2..p + 2 + BE16(headers[p..])])
            else got == Scan(Skip(headers, p + 2 + BE16(headers[p..])), target)
  {
    hide Scan, BE16;
    var body := headers[p..];
    if |body| >= 2 && 2 + BE16(body) <= |body| {
      var len := BE16(body);
      assert headers[p + 2..p + 2 + len] == body[2..2 + len] && headers[p + 2 + len..] == body[2 + len..];
    }
  }

  /** The same scan with a moving position, as the parser does it. */
  method ExtractStringHeader(headers: Bytes, target: Bytes) returns (value: Option<Bytes>)
    ensures value == Scan(headers, target)
  {
    hide Scan, ScanValue;
    var pos: nat := 0;
    assert Skip(headers, 0) == headers;
    while pos < |headers|
      invariant Scan(Skip(headers, pos), target) == Scan(headers, target)
      decreases |headers| - pos
    {
      ScanAt(headers, pos, target);
      var nameLen := headers[pos];
      pos := pos + 1;
      if pos + nameLen > |headers| { return None; }
      var name := headers[pos..pos + nameLen];
      pos := pos + nameLen;
      if pos >= |headers| { return None; }
      var tag := headers[pos];
      pos := pos + 1;
      ScanValueAt(headers, name, tag, pos, target);
      if tag == 6 || tag == 7 { ScanSizedAt(headers, name, tag, pos, target); }
      if tag == 0 || tag == 1 {
      } else if tag == 2 {
        pos := pos + 1;
      } else if tag == 3 {
        pos := pos + 2;
      } else if tag == 4 {
        pos := pos + 4;
      } else if tag == 5 || tag == 8 {
        pos := pos + 8;
      } else if tag == 6 || tag == 7 {
        if pos + 2 > |headers| { return None; }
        var valLen := BE16(headers[pos..]);
        pos := pos + 2;
        if pos + valLen > |headers| { return None; }
        if tag == 7 && name == target { return Some(headers[pos..pos + valLen]); }
        pos := pos + valLen;
      } else if tag == 9 {
        pos := pos + 16;
      } else {
        return None;
      }
    }
    EmptyScan(Skip(headers, pos), target);
    value := None;
  }

  lemma EmptyScan(h: Bytes, target: Bytes)
    ensures |h| == 0 ==> Scan(h, target) == None
  {
  }

  datatype Event = Event(eventType: Bytes, payload: Bytes)

  function OrEmpty(o: Option<Bytes>): Bytes {
    if o.Some? then o.value else []
  }

  /** One frame at the front of `buf`; contradictory lengths make an empty event of the stated size. */
  function ParseMessage(buf: Bytes): Option<Frame<Event>> {
    if |buf| < 12 then None
    else
      var total := BE32(buf);
      if |buf| < total then None
      else
        var start := 12 + BE32(buf[4..]);
        var end := if total >= 4 then total - 4 else 0;
        if end < start || start > total then Some(Frame(total, Event([], [])))
        else Some(Frame(total, Event(OrEmpty(Scan(buf[12..start], EVENT_TYPE)), buf[start..end])))
  }

  lemma ParseIsStable()
    ensures Stable(ParseMessage)
  {
    forall a: Bytes, b: Bytes
      ensures StableAt(ParseMessage, a, b)
    {
      if ParseMessage(a).Some? {
        var total, start := BE32(a), 12 + BE32(a[4..]);
        assert BE32((a + b)[4..]) == BE32(a[4..]);
        var end := if total >= 4 then total - 4 else 0;
        if start <= end {
          assert (a + b)[12..start] == a[12..start] && (a + b)[start..end] == a[start..end];
        }
      }
    }
  }

  /** Only a frame that claims to be empty can keep the buffer loop from making progress. */
  lemma StuckOnlyOnZero(buf: Bytes)
    requires ParseMessage(buf).Some?
    ensures ParseMessage(buf).value.consumed == 0 <==> buf[..4] == [0, 0, 0, 0]
  {
    assert buf[..4] == [buf[0], buf[1], buf[2], buf[3]];
  }

  const ZEROS: Bytes := [0, 0, 0, 0, 0, 0, 0, 0, 0, 0, 0, 0]

  /** Twelve zero bytes claim a frame of length zero, and the buffer loop never ends on them. */
  lemma ZeroFrameLoops()
    ensures !Ends(ParseMessage, ZEROS)
  {
    assert BE32(ZEROS) == 0 && ParseMessage(ZEROS).Some?;
    LoopEndsIff(ParseMessage, ZEROS);
  }

  // ----- Encoding -----

  datatype HeaderValue =
    | Fixed(tag: byte, bytes: Bytes)
    | Blob(bytes: Bytes)
    | Str(text: Bytes)

  datatype Header = Header(name: Bytes, value: HeaderValue)

  /** Booleans, bytes, shorts, integers, longs and timestamps, and identifiers, with the sizes of their values. */
  predicate IsFixed(tag: byte, size: nat) {
    || (tag in {0, 1} && size == 0) || (tag == 2 && size == 1) || (tag == 3 && size == 2) || (tag == 4 && size == 4)
    || (tag in {5, 8} && size == 8) || (tag == 9 && size == 16)
  }

  predicate ValidHeader(h: Header) {
    |h.name| < 256 &&
    match h.value
    case Fixed(tag, bytes) => IsFixed(tag, |bytes|)
    case Blob(bytes) => |bytes| < 65536
    case Str(text) => |text| < 65536
  }

  function ToBE16(n: nat): Bytes
    requires n < 65536
  {
    [n / 256, n % 256]
  }

  function ToBE32(n: nat): (b: Bytes)
    requires n < 0x1_0000_0000
    ensures |b| == 4
  {
    [n / 16777216, n / 65536 % 256, n / 256 % 256, n % 256]
  }

  function EncodeValue(v: HeaderValue): Bytes
    requires v.Blob? ==> |v.bytes| < 65536
    requires v.Str? ==> |v.text| < 65536
  {
    match v
    case Fixed(tag, bytes) => [tag] + bytes
    case Blob(bytes) => [6] + ToBE16(|bytes|) + bytes
    case Str(text) => [7] + ToBE16(|text|) + text
  }

  function EncodeHeader(h: Header): Bytes
    requires ValidHeader(h)
  {
    [|h.name|] + h.name + EncodeValue(h.value)
  }

  function EncodeHeaders(hs: seq<Header>): Bytes
    requires forall k :: 0 <= k < |hs| ==> ValidHeader(hs[k])
  {
    if |hs| == 0 then [] else EncodeHeader(hs[0]) + EncodeHeaders(hs[1..])
  }

  function FirstString(hs: seq<Header>, target: Bytes): Option<Bytes> {
    if |hs| == 0 then None
    else if hs[0].value.Str? && hs[0].name == target then Some(hs[0].value.text)
    else FirstString(hs[1..], target)
  }

  /** A message to encode; the two checksums are free, since the parser skips them. */
  datatype Wire = Wire(headers: seq<Header>, payload: Bytes, preludeCrc: Bytes, messageCrc: Bytes)

  ghost predicate ValidWire(w: Wire) {
    && (forall k :: 0 <= k < |w.headers| ==> ValidHeader(w.headers[k]))
    && |w.preludeCrc| == 4 && |w.messageCrc| == 4
    && 16 + |EncodeHeaders(w.headers)| + |w.payload| < 0x1_0000_0000
  }

  ghost function Encode(w: Wire): Bytes
    requires ValidWire(w)
  {
    var h := EncodeHeaders(w.headers);
    ToBE32(16 + |h| + |w.payload|) + ToBE32(|h|) + w.preludeCrc + h + w.payload + w.messageCrc
  }

  ghost function EventOf(w: Wire): Event {
    // ":event-type"
    var name := [58, 101, 118, 101, 110, 116, 45, 116, 121, 112, 101];
    Event(OrEmpty(FirstString(w.headers, name)), w.payload)
  }

  lemma BE32Inverts(n: nat, tail: Bytes)
    requires n < 0x1_0000_0000
    ensures BE32(ToBE32(n) + tail) == n
  {
    var b := ToBE32(n) + tail;
    var m := n / 256;
    var l := m / 256;
    assert n / 65536 == l && n / 16777216 == l / 256;
    assert b[0] == l / 256 && b[1] == l % 256 && b[2] == m % 256 && b[3] == n % 256;
  }

  lemma ScanNamed(name: Bytes, tag: byte, body: Bytes, target: Bytes)
    requires |name| < 256
    ensures Scan([|name|] + name + ([tag] + body), target) == ScanValue(name, tag, body, target)
  {
    hide ScanValue;
    var h := [|name|] + name + ([tag] + body);
    assert h[1..1 + |name|] == name && h[2 + |name|..] == body;
  }

  lemma ScanSkipsFixed(name: Bytes, tag: byte, bytes: Bytes, tail: Bytes, target: Bytes)
    requires |name| < 256 && FixedSize(tag) == Some(|bytes|)
    ensures Scan([|name|] + name + ([tag] + bytes) + tail, target) == Scan(tail, target)
  {
    hide Scan;
    ScanNamed(name, tag, bytes + tail, target);
    assert [|name|] + name + ([tag] + bytes) + tail == [|name|] + name + ([tag] + (bytes + tail));
    assert Skip(bytes + tail, |bytes|) == tail;
  }

  lemma ScanSized(name: Bytes, tag: byte, bytes: Bytes, tail: Bytes, target: Bytes)
    requires |name| < 256 && |bytes| < 65536 && (tag == 6 || tag == 7)
    ensures Scan([|name|] + name + ([tag] + ToBE16(|bytes|) + bytes) + tail, target)
            == if tag == 7 && name == target then Some(bytes) else Scan(tail, target)
  {
    hide Scan;
    var body := ToBE16(|bytes|) + bytes + tail;
    ScanNamed(name, tag, body, target);
    assert [|name|] + name + ([tag] + ToBE16(|bytes|) + bytes) + tail == [|name|] + name + ([tag] + body);
    assert BE16(body) == |bytes|;
    assert body[2..2 + |bytes|] == bytes && body[2 + |bytes|..] == tail;
  }

  /** Behind encoded headers the scan goes on, unless one of them is what it looks for. */
  lemma {:induction false} ScanSkipsHeaders(hs: seq<Header>, tail: Bytes, target: Bytes)
    requires forall k :: 0 <= k < |hs| ==> ValidHeader(hs[k])
    ensures Scan(EncodeHeaders(hs) + tail, target)
            == if FirstString(hs, target).Some? then FirstString(hs, target) else Scan(tail, target)
  {
    if |hs| == 0 {
      assert EncodeHeaders(hs) + tail == tail;
    } else {
      var h, rest := hs[0], EncodeHeaders(hs[1..]) + tail;
      ScanSkipsHeaders(hs[1..], tail, target);
      assert EncodeHeaders(hs) + tail == EncodeHeader(h) + rest;
      match h.value
      case Fixed(tag, bytes) => ScanSkipsFixed(h.name, tag, bytes, rest, target);
      case Blob(bytes) => ScanSized(h.name, 6, bytes, rest, target);
      case Str(text) => ScanSized(h.name, 7, text, rest, target);
    }
  }

  /** On encoded headers the scan returns the first string of the name, whatever stands before it. */
  lemma ScanFindsFirst(hs: seq<Header>, target: Bytes)
    requires forall k :: 0 <= k < |hs| ==> ValidHeader(hs[k])
    ensures Scan(EncodeHeaders(hs), target) == FirstString(hs, target)
  {
    ScanSkipsHeaders(hs, [], target);
    EmptyScan([], target);
    assert EncodeHeaders(hs) + [] == EncodeHeaders(hs);
  }

  /** No complete header stands at the front: a part of it is missing, or its type is unknown. */
  predicate Broken(h: Bytes) {
    || |h| == 0 || |h| < (h[0] as int) + 2
    || IsCutOff(h[(h[0] as int) + 1], h[(h[0] as int) + 2..])
  }

  /** The value of a header with this type is missing or incomplete. */
  predicate IsCutOff(tag: byte, body: Bytes) {
    || tag > 9 || (tag == 2 && |body| < 1) || (tag == 3 && |body| < 2) || (tag == 4 && |body| < 4)
    || ((tag == 5 || tag == 8) && |body| < 8) || (tag == 9 && |body| < 16)
    || ((tag == 6 || tag == 7) && (|body| < 2 || |body| < 2 + (body[0] as int) * 256 + body[1]))
  }

  lemma {:induction false} CutOffHasNoValue(name: Bytes, tag: byte, body: Bytes, target: Bytes)
    requires IsCutOff(tag, body)
    ensures ScanValue(name, tag, body, target) == None
  {
    hide Scan;
    EmptyScan([], target);
  }

  /** The scan gives up at a broken header: what stands before it counts, and nothing behind it. */
  lemma {:induction false} BrokenHeaderEndsScan(hs: seq<Header>, rest: Bytes, target: Bytes)
    requires (forall k :: 0 <= k < |hs| ==> ValidHeader(hs[k])) && Broken(rest)
    ensures Scan(EncodeHeaders(hs) + rest, target) == FirstString(hs, target)
  {
    hide IsCutOff, ScanValue, EncodeHeaders, FirstString;
    ScanSkipsHeaders(hs, rest, target);
    if |rest| > 0 && |rest| >= (rest[0] as int) + 2 {
      CutOffHasNoValue(rest[1..1 + rest[0] as int], rest[1 + rest[0] as int], rest[2 + rest[0] as int..], target);
    }
  }

  /** The parts of a frame, found again at their offsets. */
  lemma Layout(total: Bytes, len: Bytes, crc: Bytes, h: Bytes, payload: Bytes, end: Bytes, tail: Bytes)
    requires |total| == |len| == |crc| == |end| == 4
    ensures var buf := total + len + crc + h + payload + end + tail;
            && buf == total + (len + (crc + h + payload + end + tail))
            && buf[4..] == len + (crc + h + payload + end + tail)
            && buf[12..12 + |h|] == h
            && buf[12 + |h|..12 + |h| + |payload|] == payload
  {
    var buf := total + len + crc + h + payload + end + tail;
    assert buf[4..] == len + (crc + h + payload + end + tail);
    var rest := h + payload + end + tail;
    assert buf[12..] == rest;
    assert rest[..|h|] == h && rest[|h|..|h| + |payload|] == payload;
  }

  /** Decoding the front of encoded bytes. */
  lemma ParseInvertsEncode(w: Wire, tail: Bytes)
    requires ValidWire(w)
    ensures ParseMessage(Encode(w) + tail) == Some(Frame(|Encode(w)|, EventOf(w)))
  {
    hide Scan, FirstString, EncodeHeaders, BE32, ToBE32;
    var h := EncodeHeaders(w.headers);
    var total, len := ToBE32(16 + |h| + |w.payload|), ToBE32(|h|);
    var buf := Encode(w) + tail;
    Layout(total, len, w.preludeCrc, h, w.payload, w.messageCrc, tail);
    assert buf == total + len + w.preludeCrc + h + w.payload + w.messageCrc + tail;
    BE32Inverts(16 + |h| + |w.payload|, len + (w.preludeCrc + h + w.payload + w.messageCrc + tail));
    BE32Inverts(|h|, w.preludeCrc + h + w.payload + w.messageCrc + tail);
    ScanFindsFirst(w.headers, EVENT_TYPE);
  }

  /**
   What the parser makes of any bytes that open with two lengths: it waits until as many bytes as stated have
   come, and if the headers do not fit into them the event is empty.
   */
  lemma ParseIs(total: nat, len: nat, rest: Bytes)
    requires total < 0x1_0000_0000 && len < 0x1_0000_0000
    ensures var buf := ToBE32(total) + ToBE32(len) + rest;
            if |rest| < 4 || |buf| < total then ParseMessage(buf) == None
            else if 16 + len > total then ParseMessage(buf) == Some(Frame(total, Event([], [])))
            else ParseMessage(buf)
                 == Some(Frame(total, Event(OrEmpty(Scan(buf[12..12 + len], EVENT_TYPE)), buf[12 + len..total - 4])))
  {
    hide Scan, BE32, ToBE32;
    var buf := ToBE32(total) + ToBE32(len) + rest;
    assert buf == ToBE32(total) + (ToBE32(len) + rest) && buf[4..] == ToBE32(len) + rest;
    BE32Inverts(total, ToBE32(len) + rest);
    BE32Inverts(len, rest);
  }

  ghost function EncodeAll(ws: seq<Wire>): Bytes
    requires forall k :: 0 <= k < |ws| ==> ValidWire(ws[k])
  {
    if |ws| == 0 then [] else Encode(ws[0]) + EncodeAll(ws[1..])
  }

  ghost function EventsOf(ws: seq<Wire>): seq<Event> {
    if |ws| == 0 then [] else [EventOf(ws[0])] + EventsOf(ws[1..])
  }

  lemma {:induction false} DrainInvertsEncode(ws: seq<Wire>)
    requires forall k :: 0 <= k < |ws| ==> ValidWire(ws[k])
    ensures Progress(ParseMessage, EncodeAll(ws))
    ensures Drain(ParseMessage, EncodeAll(ws)) == Drained(EventsOf(ws), [])
  {
    if |ws| > 0 {
      var tail := EncodeAll(ws[1..]);
      DrainInvertsEncode(ws[1..]);
      ParseInvertsEncode(ws[0], tail);
      assert EncodeAll(ws)[|Encode(ws[0])|..] == tail;
    }
  }

  /** The streaming loop over any chunks of a byte stream without zero-length frames. */
  method ReadEvents(chunks: seq<Bytes>) returns (d: Drained<Event>)
    requires Progress(ParseMessage, Flatten(chunks))
    ensures d == Drain(ParseMessage, Flatten(chunks))
  {
    ParseIsStable();
    d := Pump(ParseMessage, chunks);
  }

  /** However an encoded stream is cut into chunks, reading it gives back its messages and leaves nothing over. */
  method ReadEncoded(ghost ws: seq<Wire>, chunks: seq<Bytes>) returns (events: seq<Event>)
    requires forall k :: 0 <= k < |ws| ==> ValidWire(ws[k])
    requires Flatten(chunks) == EncodeAll(ws)
    ensures events == EventsOf(ws)
  {
    DrainInvertsEncode(ws);
    var d := ReadEvents(chunks);
    events := d.items;
  }
}
