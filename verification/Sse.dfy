/**
 Two readers of server-sent events: one takes the `data: ` lines as they come, the
 other splits at blank lines and reassembles content blocks from their deltas.
 */
module Sse {
  import opened Prelude
  import opened Framing

  const NEWLINE: byte := 10
  const RETURN: byte := 13
  // "data: "
  const DATA: Bytes := [100, 97, 116, 97, 58, 32]

  // ----- Lines -----

  /** The first newline at or after `from`. */
  function FindNewline(buf: Bytes, from: nat): (at: Option<nat>)
    requires from <= |buf|
    ensures at.Some? ==> from <= at.value < |buf| && buf[at.value] == NEWLINE
    ensures forall k :: from <= k < |buf| && (at.Some? ==> k < at.value) ==> buf[k] != NEWLINE
    decreases |buf| - from
  {
    if from == |buf| then None else if buf[from] == NEWLINE then Some(from) else FindNewline(buf, from + 1)
  }

  lemma FindNewlineIs(buf: Bytes, from: nat, at: nat)
    requires from <= at < |buf| && buf[at] == NEWLINE && forall k :: from <= k < at ==> buf[k] != NEWLINE
    ensures FindNewline(buf, from) == Some(at)
  {
    assert buf[at] == NEWLINE;
  }

  function TrimReturn(line: Bytes): Bytes {
    if |line| > 0 && line[|line| - 1] == RETURN then line[..|line| - 1] else line
  }

  /** The payload of a line, if it is a data line. */
  function Payload(raw: Bytes): seq<Bytes> {
    var line := TrimReturn(raw);
    if |line| >= |DATA| && line[..|DATA|] == DATA then [line[|DATA|..]] else []
  }

  /** One complete line at the front of `buf`. */
  function NextLine(buf: Bytes): Option<Frame<Bytes>> {
    match FindNewline(buf, 0)
    case None => None
    case Some(at) => Some(Frame(at + 1, buf[..at]))
  }

  lemma LinesAreStable()
    ensures Stable(NextLine)
  {
    forall a: Bytes, b: Bytes
      ensures StableAt(NextLine, a, b)
    {
      var at := FindNewline(a, 0);
      if at.Some? {
        FindNewlineIs(a + b, 0, at.value);
        assert (a + b)[..at.value] == a[..at.value];
      }
    }
  }

  lemma {:induction false} LinesProgress(buf: Bytes)
    ensures Progress(NextLine, buf)
    decreases |buf|
  {
    if NextLine(buf).Some? { LinesProgress(buf[NextLine(buf).value.consumed..]); }
  }

  function Payloads(lines: seq<Bytes>): seq<Bytes> {
    if |lines| == 0 then [] else Payload(lines[0]) + Payloads(lines[1..])
  }

  lemma {:induction false} PayloadsAppend(a: seq<Bytes>, b: seq<Bytes>)
    ensures Payloads(a + b) == Payloads(a) + Payloads(b)
  {
    hide Payload;
    if |a| == 0 {
      assert a + b == b;
    } else {
      assert (a + b)[1..] == a[1..] + b;
      PayloadsAppend(a[1..], b);
    }
  }

  /** One pass over the buffer: the payloads of its complete lines and the bytes they occupy. */
  method ParseSseDataEvents(buf: Bytes) returns (payloads: seq<Bytes>, consumed: nat)
    ensures Progress(NextLine, buf) && consumed <= |buf|
    ensures payloads == Payloads(Drain(NextLine, buf).items) && buf[consumed..] == Drain(NextLine, buf).rest
  {
    hide Payloads, NextLine, Drain, Progress;
    LinesProgress(buf);
    payloads, consumed := [], 0;
    ghost var d := Drain(NextLine, buf);
    assert buf[0..] == buf;
    var searching := true;
    while consumed < |buf| && searching
      invariant consumed <= |buf| && Progress(NextLine, buf[consumed..])
      invariant payloads + Payloads(Drain(NextLine, buf[consumed..]).items) == Payloads(d.items)
      invariant Drain(NextLine, buf[consumed..]).rest == d.rest
      invariant !searching ==> NextLine(buf[consumed..]).None?
      decreases searching, |buf| - consumed
    {
      var rest := buf[consumed..];
      DrainStep(NextLine, rest);
      match NextLine(rest)
      case None => searching := false;
      case Some(line) =>
        assert rest[line.consumed..] == buf[consumed + line.consumed..];
        PayloadsCons(line.item, Drain(NextLine, rest[line.consumed..]).items);
        payloads := payloads + Payload(line.item);
        consumed := consumed + line.consumed;
    }
    NoLineLeft(buf[consumed..]);
  }

  lemma PayloadsCons(line: Bytes, lines: seq<Bytes>)
    ensures Payloads([line] + lines) == Payload(line) + Payloads(lines)
  {
  }

  lemma NoLineLeft(rest: Bytes)
    requires |rest| == 0 || NextLine(rest).None?
    ensures Progress(NextLine, rest) && Drain(NextLine, rest) == Drained([], rest) && Payloads([]) == []
  {
  }

  /** The streaming loop: any chunking gives the payloads of the whole, and keeps no complete line back. */
  method ReadPayloads(chunks: seq<Bytes>) returns (payloads: seq<Bytes>, rest: Bytes)
    ensures Progress(NextLine, Flatten(chunks))
    ensures payloads == Payloads(Drain(NextLine, Flatten(chunks)).items)
            && rest == Drain(NextLine, Flatten(chunks)).rest
    ensures NEWLINE !in rest
  {
    hide Payload;
    LinesAreStable();
    payloads, rest := [], [];
    LinesProgress([]);
    for n := 0 to |chunks|
      invariant Progress(NextLine, Flatten(chunks[..n]))
      invariant payloads == Payloads(Drain(NextLine, Flatten(chunks[..n])).items)
      invariant rest == Drain(NextLine, Flatten(chunks[..n])).rest
    {
      assert chunks[..n + 1][..n] == chunks[..n];
      ghost var before := Flatten(chunks[..n]);
      LinesProgress(before + chunks[n]);
      DrainSplits(NextLine, before, chunks[n]);
      rest := rest + chunks[n];
      PayloadsAppend(Drain(NextLine, before).items, Drain(NextLine, rest).items);
      var more, consumed := ParseSseDataEvents(rest);
      payloads := payloads + more;
      rest := rest[consumed..];
    }
    assert chunks[..|chunks|] == chunks;
    assert NextLine(rest).None?;
  }

  // ----- Events -----

  /** The first of two adjacent newlines at or after `from`. */
  function FindDoubleNewline(buf: Bytes, from: nat): (at: Option<nat>)
    requires from <= |buf|
    ensures at.Some? ==> from <= at.value && IsBlankAt(buf, at.value)
    ensures forall k: nat :: from <= k && (at.Some? ==> k < at.value) ==> !IsBlankAt(buf, k)
    decreases |buf| - from
  {
    if from + 1 >= |buf| then None
    else if IsBlankAt(buf, from) then Some(from)
    else FindDoubleNewline(buf, from + 1)
  }

  predicate IsBlankAt(buf: Bytes, k: nat) {
    k + 1 < |buf| && buf[k] == NEWLINE && buf[k + 1] == NEWLINE
  }

  /** One complete event at the front of `buf`, with the blank line that ends it. */
  function NextEvent(buf: Bytes): Option<Frame<Bytes>> {
    match FindDoubleNewline(buf, 0)
    case None => None
    case Some(at) => Some(Frame(at + 2, buf[..at + 2]))
  }

  lemma EventsAreStable()
    ensures Stable(NextEvent)
  {
    forall a: Bytes, b: Bytes
      ensures StableAt(NextEvent, a, b)
    {
      var at, found := FindDoubleNewline(a, 0), FindDoubleNewline(a + b, 0);
      if at.Some? {
        assert IsBlankAt(a + b, at.value);
        assert found.Some? && found.value <= at.value;
        assert forall k: nat :: k < at.value ==> IsBlankAt(a + b, k) == IsBlankAt(a, k);
        assert (a + b)[..at.value + 2] == a[..at.value + 2];
      }
    }
  }

  lemma {:induction false} EventsProgress(buf: Bytes)
    ensures Progress(NextEvent, buf)
    decreases |buf|
  {
    if NextEvent(buf).Some? { EventsProgress(buf[NextEvent(buf).value.consumed..]); }
  }

  // ----- Reassembly -----

  datatype BlockKind = TextBlock | ToolUseBlock(id: string, name: string) | ThinkingBlock

  datatype DeltaKind = TextDelta | InputJsonDelta | ThinkingDelta

  /** What the JSON of an event says. Starts of unknown kinds and deltas without text are `Ignored`. */
  datatype StreamEvent =
    | BlockStart(index: nat, kind: BlockKind)
    | BlockDelta(index: nat, delta: DeltaKind, text: string)
    | StopSeen(reason: string)
    | StreamError(message: string)
    | Ignored

  /** The JSON of an event stands in the last data line of it. */
  function EventData(event: Bytes): Option<Bytes> {
    LinesProgress(event);
    var payloads := Payloads(Drain(NextLine, event).items);
    if |payloads| == 0 then None else Some(payloads[|payloads| - 1])
  }

  /** Reads events by way of a JSON parser. */
  function Reader(json: Bytes -> StreamEvent): Bytes -> StreamEvent {
    (event: Bytes) => if EventData(event).Some? then json(EventData(event).value) else Ignored
  }

  datatype PendingBlock = PendingBlock(kind: BlockKind, content: string)

  type Blocks = map<nat, PendingBlock>

  /** The message as far as it has been read. */
  datatype Partial = Partial(blocks: Blocks, stop: Option<string>)

  predicate Fits(kind: BlockKind, delta: DeltaKind) {
    match kind
    case TextBlock => delta.TextDelta?
    case ToolUseBlock(_, _) => delta.InputJsonDelta?
    case ThinkingBlock => delta.ThinkingDelta?
  }

  function Apply(p: Partial, e: StreamEvent): Partial {
    match e
    case BlockStart(index, kind) => p.(blocks := p.blocks[index := PendingBlock(kind, "")])
    case BlockDelta(index, delta, text) =>
      if index in p.blocks && Fits(p.blocks[index].kind, delta)
      then p.(blocks := p.blocks[index := PendingBlock(p.blocks[index].kind, p.blocks[index].content + text)])
      else p
    case StopSeen(reason) => p.(stop := Some(reason))
    case StreamError(_) => p
    case Ignored => p
  }

  function ApplyAll(events: seq<StreamEvent>, n: nat): Partial
    requires n <= |events|
  {
    if n == 0 then Partial(map[], None) else Apply(ApplyAll(events, n - 1), events[n - 1])
  }

  predicate StartsBlock(e: StreamEvent, index: nat) {
    e.BlockStart? && e.index == index
  }

  /** The latest start of block `index` among the first `n` events. */
  ghost predicate LastStart(events: seq<StreamEvent>, n: nat, index: nat, at: nat)
    requires n <= |events|
  {
    at < n && StartsBlock(events[at], index) && forall k :: at < k < n ==> !StartsBlock(events[k], index)
  }

  /** Text deltas make up text blocks, JSON deltas tool calls, and thinking deltas thinking blocks. */
  predicate Belongs(delta: DeltaKind, kind: BlockKind) {
    || (delta.TextDelta? && kind.TextBlock?) || (delta.InputJsonDelta? && kind.ToolUseBlock?)
    || (delta.ThinkingDelta? && kind.ThinkingBlock?)
  }

  /** The texts of the fitting deltas for block `index` among the events from `from` up to `to`. */
  function DeltaText(events: seq<StreamEvent>, from: nat, to: nat, index: nat, kind: BlockKind): string
    requires from <= to <= |events|
  {
    if from == to then ""
    else
      var e := events[to - 1];
      if e.BlockDelta? && e.index == index && Belongs(e.delta, kind)
      then DeltaText(events, from, to - 1, index, kind) + e.text
      else DeltaText(events, from, to - 1, index, kind)
  }

  /** A block's content is the concatenation of its deltas since its last start. */
  lemma {:induction false} ContentSinceLastStart(events: seq<StreamEvent>, n: nat, index: nat, at: nat)
    requires n <= |events| && LastStart(events, n, index, at)
    ensures var blocks := ApplyAll(events, n).blocks;
            && index in blocks
            && blocks[index] == PendingBlock(events[at].kind, DeltaText(events, at + 1, n, index, events[at].kind))
  {
    if at < n - 1 {
      assert !StartsBlock(events[n - 1], index);
      ContentSinceLastStart(events, n - 1, index, at);
    }
  }

  lemma {:induction false} NoStartNoBlock(events: seq<StreamEvent>, n: nat, index: nat)
    requires n <= |events| && forall k :: 0 <= k < n ==> !StartsBlock(events[k], index)
    ensures index !in ApplyAll(events, n).blocks
  {
    if n > 0 {
      NoStartNoBlock(events, n - 1, index);
      assert !StartsBlock(events[n - 1], index);
    }
  }

  /** The stop reason is the one seen last, and there is none exactly when none was seen. */
  lemma {:induction false} StopIsLast(events: seq<StreamEvent>, n: nat)
    requires n <= |events|
    ensures match ApplyAll(events, n).stop
            case None => forall k :: 0 <= k < n ==> !events[k].StopSeen?
            case Some(reason) => exists at :: 0 <= at < n && events[at] == StopSeen(reason) &&
                                   forall k :: at < k < n ==> !events[k].StopSeen?
  {
    if n > 0 {
      StopIsLast(events, n - 1);
      assert events[n - 1].StopSeen? ==> ApplyAll(events, n).stop == Some(events[n - 1].reason);
      assert !events[n - 1].StopSeen? ==> ApplyAll(events, n).stop == ApplyAll(events, n - 1).stop;
    }
  }

  function ParseAll(parse: Bytes -> StreamEvent, items: seq<Bytes>): (events: seq<StreamEvent>)
    ensures |events| == |items| && forall k :: 0 <= k < |items| ==> events[k] == parse(items[k])
  {
    if |items| == 0 then [] else ParseAll(parse, items[..|items| - 1]) + [parse(items[|items| - 1])]
  }

  /** How the byte stream ends: it is closed, or reading the next chunk fails. */
  datatype StreamEnd = Closed | ReadFailed(message: string)

  datatype Outcome =
    | Complete(blocks: Blocks, stop: string)
    | Truncated
    | Transport(message: string)
    | Upstream(message: string)

  ghost predicate NoError(events: seq<StreamEvent>, n: nat)
    requires n <= |events|
  {
    forall k :: 0 <= k < n ==> !events[k].StreamError?
  }

  ghost predicate FirstError(events: seq<StreamEvent>, k: nat) {
    k < |events| && events[k].StreamError? && forall j :: 0 <= j < k ==> !events[j].StreamError?
  }

  /**
   What the events received lead to: their first error, else the failed read, else the blocks
   if they came to a stop.
   */
  ghost predicate Yields(events: seq<StreamEvent>, end: StreamEnd, outcome: Outcome) {
    match outcome
    case Complete(blocks, stop) =>
      NoError(events, |events|) && end.Closed? && ApplyAll(events, |events|) == Partial(blocks, Some(stop))
    case Truncated => NoError(events, |events|) && end.Closed? && ApplyAll(events, |events|).stop.None?
    case Transport(message) => NoError(events, |events|) && end == ReadFailed(message)
    case Upstream(message) => exists k: nat :: FirstError(events, k) && events[k].message == message
  }

  /** The events and the end of the stream determine the outcome. */
  lemma OutcomeIsUnique(events: seq<StreamEvent>, end: StreamEnd, a: Outcome, b: Outcome)
    requires Yields(events, end, a) && Yields(events, end, b)
    ensures a == b
  {
    if a.Upstream? && b.Upstream? {
      var j: nat :| FirstError(events, j) && events[j].message == a.message;
      var k: nat :| FirstError(events, k) && events[k].message == b.message;
      assert j == k;
    }
  }

  lemma DrainExtends(chunks: seq<Bytes>, n: nat)
    requires n < |chunks|
    ensures Progress(NextEvent, Flatten(chunks[..n])) && Progress(NextEvent, Flatten(chunks[..n + 1]))
    ensures var d := Drain(NextEvent, Flatten(chunks[..n]));
            && Progress(NextEvent, d.rest + chunks[n])
            && Drain(NextEvent, Flatten(chunks[..n + 1])).items == d.items + Drain(NextEvent, d.rest + chunks[n]).items
            && Drain(NextEvent, Flatten(chunks[..n + 1])).rest == Drain(NextEvent, d.rest + chunks[n]).rest
  {
    EventsAreStable();
    assert chunks[..n + 1][..n] == chunks[..n];
    EventsProgress(Flatten(chunks[..n]) + chunks[n]);
    DrainSplits(NextEvent, Flatten(chunks[..n]), chunks[n]);
  }

  /** The events of the first chunks open the events of all of them. */
  lemma {:induction false} DrainPrefix(chunks: seq<Bytes>, n: nat)
    requires n <= |chunks|
    ensures Progress(NextEvent, Flatten(chunks)) && Progress(NextEvent, Flatten(chunks[..n]))
    ensures Drain(NextEvent, Flatten(chunks[..n])).items <= Drain(NextEvent, Flatten(chunks)).items
    decreases |chunks| - n
  {
    EventsProgress(Flatten(chunks));
    if n == |chunks| {
      assert chunks[..n] == chunks;
    } else {
      DrainExtends(chunks, n);
      DrainPrefix(chunks, n + 1);
    }
  }

  /** From `at` on the items stand in `all`. */
  ghost predicate ItemsFrom(all: seq<Bytes>, at: nat, items: seq<Bytes>) {
    at + |items| <= |all| && forall k :: 0 <= k < |items| ==> all[at + k] == items[k]
  }

  /** From `at` on the events are what the items say. */
  ghost predicate SaysFrom(events: seq<StreamEvent>, at: nat, parse: Bytes -> StreamEvent, items: seq<Bytes>) {
    at + |items| <= |events| && forall k :: 0 <= k < |items| ==> events[at + k] == parse(items[k])
  }

  /** Takes the complete events off the buffer until none is left or one reports an error. */
  method TakeEvents(buf0: Bytes, p0: Partial, parse: Bytes -> StreamEvent, ghost events: seq<StreamEvent>,
                    ghost seen: nat)
    returns (buf: Bytes, p: Partial, error: Option<string>)
    requires Progress(NextEvent, buf0)
    requires SaysFrom(events, seen, parse, Drain(NextEvent, buf0).items)
    requires p0 == ApplyAll(events, seen) && NoError(events, seen)
    ensures error.Some? ==> exists k: nat :: FirstError(events, k) && events[k].message == error.value
    ensures error.None? ==>
              var n := seen + |Drain(NextEvent, buf0).items|;
              buf == Drain(NextEvent, buf0).rest && p == ApplyAll(events, n) && NoError(events, n)
  {
    hide NextEvent, ApplyAll, Apply, Drain, Progress;
    buf, p := buf0, p0;
    ghost var items, done := Drain(NextEvent, buf0).items, 0;
    while NextEvent(buf).Some?
      invariant Progress(NextEvent, buf) && 0 <= done <= |items|
      invariant Drain(NextEvent, buf).items == items[done..]
                && Drain(NextEvent, buf).rest == Drain(NextEvent, buf0).rest
      invariant p == ApplyAll(events, seen + done) && NoError(events, seen + done)
      decreases |buf|
    {
      var f := NextEvent(buf).value;
      DrainStep(NextEvent, buf);
      assert items[done] == items[done..][0] == f.item && items[done..][1..] == items[done + 1..];
      buf := buf[f.consumed..];
      var e := parse(f.item);
      assert e == events[seen + done];
      if e.StreamError? {
        assert FirstError(events, seen + done);
        return buf, p, Some(e.message);
      }
      AppliedOne(events, seen + done);
      p := Apply(p, e);
      done := done + 1;
    }
    DrainStep(NextEvent, buf);
    error := None;
  }

  /** How many events the first `n` chunks complete. */
  ghost function Completed(chunks: seq<Bytes>, n: nat): nat
    requires n <= |chunks| && Progress(NextEvent, Flatten(chunks[..n]))
  {
    |Drain(NextEvent, Flatten(chunks[..n])).items|
  }

  /** The next chunk completes the next events of the whole stream. */
  lemma NextChunk(chunks: seq<Bytes>, n: nat, parse: Bytes -> StreamEvent, events: seq<StreamEvent>, buf: Bytes)
    requires n < |chunks| && Progress(NextEvent, Flatten(chunks)) && Progress(NextEvent, Flatten(chunks[..n]))
    requires events == ParseAll(parse, Drain(NextEvent, Flatten(chunks)).items)
    requires buf == Drain(NextEvent, Flatten(chunks[..n])).rest
    ensures Progress(NextEvent, Flatten(chunks[..n + 1])) && Progress(NextEvent, buf + chunks[n])
    ensures var d := Drain(NextEvent, buf + chunks[n]);
            && Completed(chunks, n + 1) == Completed(chunks, n) + |d.items|
            && Drain(NextEvent, Flatten(chunks[..n + 1])).rest == d.rest
            && SaysFrom(events, Completed(chunks, n), parse, d.items)
  {
    hide *;
    DrainExtends(chunks, n);
    DrainPrefix(chunks, n + 1);
    CompletedIs(chunks, n);
    CompletedIs(chunks, n + 1);
    var all, items := Drain(NextEvent, Flatten(chunks)).items, Drain(NextEvent, buf + chunks[n]).items;
    ItemsAt(all, Drain(NextEvent, Flatten(chunks[..n])).items, items, Drain(NextEvent, Flatten(chunks[..n + 1])).items);
    ParseAt(parse, all, Completed(chunks, n), items);
  }

  lemma CompletedIs(chunks: seq<Bytes>, n: nat)
    requires n <= |chunks| && Progress(NextEvent, Flatten(chunks[..n]))
    ensures Completed(chunks, n) == |Drain(NextEvent, Flatten(chunks[..n])).items|
  {
  }

  lemma ParseAt(parse: Bytes -> StreamEvent, all: seq<Bytes>, at: nat, items: seq<Bytes>)
    requires ItemsFrom(all, at, items)
    ensures SaysFrom(ParseAll(parse, all), at, parse, items)
  {
    hide ParseAll;
  }

  lemma ItemsAt(all: seq<Bytes>, before: seq<Bytes>, items: seq<Bytes>, later: seq<Bytes>)
    requires later == before + items && later <= all
    ensures |before| + |items| == |later| && ItemsFrom(all, |before|, items)
  {
    forall k | 0 <= k < |items|
      ensures all[|before| + k] == items[k]
    {
      assert later[|before| + k] == items[k];
    }
  }

  /**
   The streaming loop with its early exits: the outcome depends on the bytes received and the end of
   the stream alone, not on how the bytes were cut into chunks.
   */
  method ParseSse(chunks: seq<Bytes>, end: StreamEnd, json: Bytes -> StreamEvent) returns (outcome: Outcome)
    ensures Progress(NextEvent, Flatten(chunks))
    ensures Yields(ParseAll(Reader(json), Drain(NextEvent, Flatten(chunks)).items), end, outcome)
  {
    hide NextEvent, ApplyAll, Drain, Progress, Flatten, ParseAll, Completed, Reader;
    EventsProgress(Flatten(chunks));
    var parse := Reader(json);
    ghost var events := ParseAll(parse, Drain(NextEvent, Flatten(chunks)).items);
    var buf: Bytes, p := [], Partial(map[], None);
    NothingApplied(events);
    NothingDrained(chunks);
    for n := 0 to |chunks|
      invariant Progress(NextEvent, Flatten(chunks[..n])) && Completed(chunks, n) <= |events|
      invariant buf == Drain(NextEvent, Flatten(chunks[..n])).rest
      invariant p == ApplyAll(events, Completed(chunks, n)) && NoError(events, Completed(chunks, n))
    {
      NextChunk(chunks, n, parse, events, buf);
      var error;
      buf, p, error := TakeEvents(buf + chunks[n], p, parse, events, Completed(chunks, n));
      if error.Some? { return Upstream(error.value); }
    }
    AllCompleted(chunks);
    if end.ReadFailed? { return Transport(end.message); }
    outcome := if p.stop.Some? then Complete(p.blocks, p.stop.value) else Truncated;
  }

  lemma AllCompleted(chunks: seq<Bytes>)
    requires Progress(NextEvent, Flatten(chunks))
    ensures Progress(NextEvent, Flatten(chunks[..|chunks|]))
    ensures Completed(chunks, |chunks|) == |Drain(NextEvent, Flatten(chunks)).items|
  {
    assert chunks[..|chunks|] == chunks;
  }

  lemma NothingApplied(events: seq<StreamEvent>)
    ensures ApplyAll(events, 0) == Partial(map[], None)
  {
  }

  lemma AppliedOne(events: seq<StreamEvent>, n: nat)
    requires n < |events|
    ensures ApplyAll(events, n + 1) == Apply(ApplyAll(events, n), events[n])
  {
  }

  lemma NothingDrained(chunks: seq<Bytes>)
    ensures Progress(NextEvent, Flatten(chunks[..0])) && Drain(NextEvent, Flatten(chunks[..0])) == Drained([], [])
    ensures Completed(chunks, 0) == 0
  {
    EventsProgress([]);
  }
}
