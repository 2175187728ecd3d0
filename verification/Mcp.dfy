/**
 The request/response demultiplexer of the MCP clients: callers register under fresh
 ids in a shared map, one reader task completes them, timeouts and the end of the
 stream remove them. Each event below is one section executed under the lock or
 without an await, so any order of enabled events is an interleaving.
 */
module Mcp {
  import opened Prelude

  // Request ids come from a 64-bit counter that wraps around.
  const U64: nat := 0x1_0000_0000_0000_0000

  datatype Body = Value(json: string) | Error(code: int, message: string)

  /** A line from the server that parses as a response; `id` is its numeric id, if it has one. */
  datatype Response = Response(id: Option<nat>, body: Body)

  /** What the one-shot channel of a call carries; `line` numbers the server's lines. */
  datatype Delivery = Answer(line: nat, response: Response) | StreamEnded

  datatype Outcome =
    | Completed(body: Body)
    | StreamClosed
    | ChannelClosed
    | WriteFailed
    | TimedOut

  /** `Expired` and `Dropped` calls have let go of their end of the channel. */
  datatype Phase =
    | Allocated
    | Writing
    | Waiting
    | Expired
    | Dropped
    | Finished(outcome: Outcome)

  datatype Call = Call(id: nat, phase: Phase, slot: Option<Delivery>, late: bool)

  /** `pending` maps ids to calls, by their number; `open` says whether the reader task still runs. */
  datatype Client = Client(nextId: nat, pending: map<nat, nat>, calls: seq<Call>, lines: nat, open: bool)

  const INITIAL: Client := Client(1, map[], [], 0, true)

  datatype Event =
    | Issue
    | Register(c: nat)
    | WriteDone(c: nat)
    | WriteFails(c: nat)
    | Line(response: Response)
    | EndOfStream
    | Receive(c: nat)
    | Expire(c: nat)
    | Forget(c: nat)
    | FindClosed(c: nat)
    | Drop(c: nat)

  predicate Listening(call: Call) {
    call.phase.Writing? || call.phase.Waiting?
  }

  /** Sending to a receiver that is gone has no effect. */
  function Deliver(calls: seq<Call>, c: nat, d: Delivery): (now: seq<Call>)
    ensures |now| == |calls|
  {
    if c < |calls| && Listening(calls[c]) then calls[c := calls[c].(slot := Some(d))] else calls
  }

  function DeliverAll(calls: seq<Call>, waiters: set<nat>, n: nat): (now: seq<Call>)
    requires n <= |calls|
    ensures |now| == n
    ensures forall c :: 0 <= c < n ==>
              now[c] == if c in waiters && Listening(calls[c]) then calls[c].(slot := Some(StreamEnded)) else calls[c]
  {
    if n == 0 then []
    else DeliverAll(calls, waiters, n - 1)
         + [if n - 1 in waiters && Listening(calls[n - 1])
            then calls[n - 1].(slot := Some(StreamEnded)) else calls[n - 1]]
  }

  function OutcomeOf(d: Delivery): Outcome {
    match d
    case Answer(_, response) => Completed(response.body)
    case StreamEnded => StreamClosed
  }

  function WithPhase(s: Client, c: nat, phase: Phase): Client
    requires c < |s.calls|
  {
    s.(calls := s.calls[c := s.calls[c].(phase := phase)])
  }

  /** The sender of call `c` is gone when the map no longer holds it. */
  predicate SenderDropped(s: Client, c: nat) {
    c !in s.pending.Values
  }

  predicate Enabled(s: Client, e: Event) {
    match e
    case Issue => true
    case Line(_) => s.open
    case EndOfStream => s.open
    case Register(c) => c < |s.calls| && s.calls[c].phase.Allocated?
    case WriteDone(c) => c < |s.calls| && s.calls[c].phase.Writing?
    case WriteFails(c) => c < |s.calls| && s.calls[c].phase.Writing?
    case Receive(c) => c < |s.calls| && s.calls[c].phase.Waiting? && s.calls[c].slot.Some?
    case Expire(c) => c < |s.calls| && s.calls[c].phase.Waiting? && s.calls[c].slot.None?
    case Forget(c) => c < |s.calls| && s.calls[c].phase.Expired?
    case FindClosed(c) => c < |s.calls| && s.calls[c].phase.Waiting? && s.calls[c].slot.None? && SenderDropped(s, c)
    case Drop(c) => c < |s.calls| && (s.calls[c].phase.Allocated? || Listening(s.calls[c]) || s.calls[c].phase.Expired?)
  }

  function Step(s: Client, e: Event): Client
    requires Enabled(s, e)
  {
    match e
    case Issue => s.(nextId := (s.nextId + 1) % U64, calls := s.calls + [Call(s.nextId, Allocated, None, false)])
    case Register(c) =>
      var call := s.calls[c];
      s.(pending := s.pending[call.id := c], calls := s.calls[c := call.(phase := Writing, late := !s.open)])
    case WriteDone(c) => WithPhase(s, c, Waiting)
    case WriteFails(c) => WithPhase(s, c, Finished(WriteFailed))
    case Line(r) =>
      var t := s.(lines := s.lines + 1);
      if r.id.Some? && r.id.value in s.pending
      then t.(pending := s.pending - {r.id.value}, calls := Deliver(s.calls, s.pending[r.id.value], Answer(s.lines, r)))
      else t
    case EndOfStream =>
      s.(open := false, pending := map[], calls := DeliverAll(s.calls, s.pending.Values, |s.calls|))
    case Receive(c) => WithPhase(s, c, Finished(OutcomeOf(s.calls[c].slot.value)))
    case Expire(c) => WithPhase(s, c, Expired)
    case Forget(c) => WithPhase(s.(pending := s.pending - {s.calls[c].id}), c, Finished(TimedOut))
    case FindClosed(c) => WithPhase(s, c, Finished(ChannelClosed))
    case Drop(c) => WithPhase(s, c, Dropped)
  }

  function Exec(events: seq<Event>): Option<Client> {
    if |events| == 0 then Some(INITIAL)
    else
      match Exec(events[..|events| - 1])
      case None => None
      case Some(s) => if Enabled(s, events[|events| - 1]) then Some(Step(s, events[|events| - 1])) else None
  }

  // ----- The invariant -----

  /** Call `c` has its own id, and its outcome is what its channel carried. */
  predicate CallOk(s: Client, c: nat)
    requires c < |s.calls|
  {
    var call := s.calls[c];
    && call.id == c + 1
    && (call.phase.Allocated? ==> call.slot.None?)
    && (Listening(call) ==> call.slot.Some? || (call.id in s.pending && s.pending[call.id] == c))
    && (call.slot.Some? && call.slot.value.Answer? ==>
          call.slot.value.response.id == Some(call.id) && call.slot.value.line < s.lines)
    && (call.phase.Finished? && (call.phase.outcome.Completed? || call.phase.outcome.StreamClosed?) ==>
          call.slot.Some? && call.phase.outcome == OutcomeOf(call.slot.value))
    && (call.phase.Finished? ==> !call.phase.outcome.ChannelClosed?)
    && (call.late ==> !s.open && call.slot.None?)
  }

  predicate EntryOk(s: Client, id: nat)
    requires id in s.pending
  {
    var c := s.pending[id];
    && c < |s.calls| && s.calls[c].id == id
    && !s.calls[c].phase.Allocated? && s.calls[c].slot.None? && s.calls[c].late == !s.open
  }

  ghost predicate AnswersDistinct(s: Client) {
    forall c, d :: 0 <= c < d < |s.calls| && AnswerLine(s.calls[c]).Some? && AnswerLine(s.calls[d]).Some? ==>
      AnswerLine(s.calls[c]) != AnswerLine(s.calls[d])
  }

  function AnswerLine(call: Call): Option<nat> {
    if call.slot.Some? && call.slot.value.Answer? then Some(call.slot.value.line) else None
  }

  ghost predicate Inv(s: Client) {
    && s.nextId == |s.calls| + 1
    && (forall c :: 0 <= c < |s.calls| ==> CallOk(s, c))
    && (forall id :: id in s.pending ==> EntryOk(s, id))
    && AnswersDistinct(s)
  }

  /** Events that touch one call, its phase or its entry. */
  lemma LocalKeeps(s: Client, e: Event)
    requires Inv(s) && Enabled(s, e)
    requires e.Register? || e.WriteDone? || e.WriteFails? || e.Receive? || e.Expire? || e.Forget? || e.Drop?
    ensures Inv(Step(s, e))
  {
    var t := Step(s, e);
    forall d | 0 <= d < |t.calls|
      ensures CallOk(t, d)
    {
      assert CallOk(s, d);
      assert CallOk(s, e.c);
    }
    forall id | id in t.pending
      ensures EntryOk(t, id)
    {
      if id in s.pending { assert EntryOk(s, id); }
      assert CallOk(s, e.c);
    }
    forall c | 0 <= c < |t.calls|
      ensures AnswerLine(t.calls[c]) == AnswerLine(s.calls[c])
    {
    }
  }

  lemma IssueKeeps(s: Client)
    requires Inv(s) && |s.calls| + 2 < U64
    ensures Inv(Step(s, Issue))
  {
    var t := Step(s, Issue);
    forall d | 0 <= d < |t.calls|
      ensures CallOk(t, d)
    {
      if d < |s.calls| { assert CallOk(s, d); }
    }
    forall id | id in t.pending
      ensures EntryOk(t, id)
    {
      assert EntryOk(s, id);
    }
    assert AnswerLine(t.calls[|s.calls|]).None?;
    assert forall c :: 0 <= c < |s.calls| ==> t.calls[c] == s.calls[c];
  }

  lemma LineKeeps(s: Client, r: Response)
    requires Inv(s) && s.open
    ensures Inv(Step(s, Line(r)))
  {
    var t := Step(s, Line(r));
    forall c | 0 <= c < |t.calls|
      ensures CallOk(t, c)
      ensures AnswerLine(t.calls[c]) == AnswerLine(s.calls[c]) ||
              (AnswerLine(t.calls[c]) == Some(s.lines) && r.id.Some? && r.id.value in s.pending
                && c == s.pending[r.id.value])
      ensures AnswerLine(s.calls[c]).Some? ==> AnswerLine(s.calls[c]).value < s.lines
    {
      assert CallOk(s, c);
      if r.id.Some? && r.id.value in s.pending { assert EntryOk(s, r.id.value); }
    }
    forall id | id in t.pending
      ensures EntryOk(t, id)
    {
      assert EntryOk(s, id);
      if r.id.Some? && r.id.value in s.pending { assert EntryOk(s, r.id.value); }
    }
  }

  lemma EndKeeps(s: Client)
    requires Inv(s) && s.open
    ensures Inv(Step(s, EndOfStream))
  {
    var t := Step(s, EndOfStream);
    forall c | 0 <= c < |t.calls|
      ensures CallOk(t, c)
      ensures AnswerLine(t.calls[c]) == (if t.calls[c] == s.calls[c] then AnswerLine(s.calls[c]) else None)
    {
      assert CallOk(s, c);
      if c in s.pending.Values {
        var id :| id in s.pending && s.pending[id] == c;
        assert EntryOk(s, id);
      }
    }
  }

  lemma {:induction false} EveryRunKeeps(events: seq<Event>)
    requires Exec(events).Some? && |Exec(events).value.calls| + 1 < U64
    ensures Inv(Exec(events).value)
  {
    hide CallOk, EntryOk, AnswersDistinct, Inv;
    if |events| == 0 {
      InitialOk();
    } else {
      var before, e := events[..|events| - 1], events[|events| - 1];
      var s := Exec(before).value;
      CallsStay(s, e);
      EveryRunKeeps(before);
      StepKeeps(s, e);
    }
  }

  lemma InitialOk()
    ensures Inv(INITIAL)
  {
  }

  lemma CallsStay(s: Client, e: Event)
    requires Enabled(s, e)
    ensures |s.calls| <= |Step(s, e).calls|
  {
  }

  lemma NeverClosed(s: Client, c: nat)
    requires Inv(s)
    ensures !Enabled(s, FindClosed(c))
  {
    assert c < |s.calls| ==> CallOk(s, c);
  }

  lemma StepKeeps(s: Client, e: Event)
    requires Inv(s) && Enabled(s, e) && |Step(s, e).calls| + 1 < U64
    ensures Inv(Step(s, e))
  {
    match e
    case Issue => IssueKeeps(s);
    case Line(r) => LineKeeps(s, r);
    case EndOfStream => EndKeeps(s);
    case FindClosed(c) => NeverClosed(s, c);
    case _ => LocalKeeps(s, e);
  }

  // ----- What callers may rely on -----

  /** No run reaches a caller that waits with its sender gone: the "channel closed" branch is dead. */
  lemma ChannelClosedIsDead(events: seq<Event>, c: nat)
    requires Exec(events).Some? && |Exec(events).value.calls| + 1 < U64
    ensures var s := Exec(events).value;
            && !Enabled(s, FindClosed(c))
            && (c < |s.calls| && Listening(s.calls[c]) && s.calls[c].slot.None? ==>
                  s.calls[c].id in s.pending && s.pending[s.calls[c].id] == c)
  {
    EveryRunKeeps(events);
    var s := Exec(events).value;
    if c < |s.calls| { assert CallOk(s, c); }
  }

  /** A completed call has the body of a response that carried its own id, and no response completes two calls. */
  lemma AnswersAreOwn(events: seq<Event>, c: nat)
    requires Exec(events).Some? && |Exec(events).value.calls| + 1 < U64 && c < |Exec(events).value.calls|
    requires var p := Exec(events).value.calls[c].phase; p.Finished? && p.outcome.Completed?
    ensures var calls := Exec(events).value.calls;
            && calls[c].slot.Some? && calls[c].slot.value.Answer?
            && calls[c].slot.value.response.id == Some(calls[c].id)
            && calls[c].phase.outcome.body == calls[c].slot.value.response.body
            && forall d :: 0 <= d < |calls| && d != c ==>
                 calls[d].id != calls[c].id && AnswerLine(calls[d]) != AnswerLine(calls[c])
  {
    EveryRunKeeps(events);
    var s := Exec(events).value;
    assert CallOk(s, c);
    forall d | 0 <= d < |s.calls| && d != c
      ensures s.calls[d].id != s.calls[c].id && AnswerLine(s.calls[d]) != AnswerLine(s.calls[c])
    {
      assert CallOk(s, d);
    }
  }

  /** The drain at the end of the stream leaves no listening caller without an outcome. */
  lemma DrainReleasesAll(events: seq<Event>, c: nat)
    requires Exec(events).Some? && |Exec(events).value.calls| + 1 < U64 && Exec(events).value.open
    requires c < |Exec(events).value.calls| && Listening(Exec(events).value.calls[c])
    ensures var t := Step(Exec(events).value, EndOfStream);
            t.calls[c].slot.Some? && (t.calls[c].phase.Waiting? ==> Enabled(t, Receive(c)))
  {
    EveryRunKeeps(events);
    var s := Exec(events).value;
    assert CallOk(s, c);
    if s.calls[c].slot.None? { assert s.pending[s.calls[c].id] in s.pending.Values; }
  }

  /**
   A call registered after the end of the stream never gets an answer: it can only fail to
   write, time out or be dropped.
   */
  lemma LateCallsGetNoAnswer(events: seq<Event>, c: nat)
    requires Exec(events).Some? && |Exec(events).value.calls| + 1 < U64 && c < |Exec(events).value.calls|
    requires Exec(events).value.calls[c].late
    ensures var call := Exec(events).value.calls[c];
            call.slot.None? && (call.phase.Finished? ==>
                call.phase.outcome.WriteFailed? || call.phase.outcome.TimedOut?)
  {
    EveryRunKeeps(events);
    assert CallOk(Exec(events).value, c);
  }

  /** Once the stream has ended, a caller that still listens has its outcome exactly if it registered in time. */
  lemma ReleasedIffInTime(events: seq<Event>, c: nat)
    requires Exec(events).Some? && |Exec(events).value.calls| + 1 < U64 && !Exec(events).value.open
    requires c < |Exec(events).value.calls| && Listening(Exec(events).value.calls[c])
    ensures Exec(events).value.calls[c].slot.Some? <==> !Exec(events).value.calls[c].late
  {
    EveryRunKeeps(events);
    var s := Exec(events).value;
    assert CallOk(s, c);
    assert s.calls[c].id in s.pending ==> EntryOk(s, s.calls[c].id);
  }

  lemma ExecSnoc(events: seq<Event>, e: Event)
    requires Exec(events).Some? && Enabled(Exec(events).value, e)
    ensures Exec(events + [e]) == Some(Step(Exec(events).value, e))
  {
    assert (events + [e])[..|events|] == events;
  }

  /** A call issued after the end of the stream is written without complaint and then waits for its timeout. */
  lemma LateCallWaits()
    ensures var events := [EndOfStream, Issue, Register(0), WriteDone(0), Expire(0), Forget(0)];
            && Exec(events[..4]).Some? && Exec(events).Some?
            && Exec(events[..4]).value.calls == [Call(1, Waiting, None, true)]
            && Exec(events).value.calls == [Call(1, Finished(TimedOut), None, true)]
  {
    var events := [EndOfStream, Issue, Register(0), WriteDone(0), Expire(0), Forget(0)];
    var ended := Client(1, map[], [], 0, false);
    assert Exec([]) == Some(INITIAL) && Step(INITIAL, EndOfStream) == ended;
    ExecSnoc([], EndOfStream);
    assert [] + [EndOfStream] == events[..1];
    ExecSnoc(events[..1], Issue);
    assert events[..1] + [Issue] == events[..2];
    assert Exec(events[..2]).value.calls == [Call(1, Allocated, None, false)];
    ExecSnoc(events[..2], Register(0));
    assert events[..2] + [Register(0)] == events[..3];
    ExecSnoc(events[..3], WriteDone(0));
    assert events[..3] + [WriteDone(0)] == events[..4];
    ExecSnoc(events[..4], Expire(0));
    assert events[..4] + [Expire(0)] == events[..5];
    ExecSnoc(events[..5], Forget(0));
    assert events[..5] + [Forget(0)] == events;
  }

  /** An unsolicited response, or a second one for an answered call, changes no call and no entry. */
  lemma StrayLinesAreIgnored(events: seq<Event>, r: Response)
    requires Exec(events).Some? && |Exec(events).value.calls| + 1 < U64 && Exec(events).value.open
    requires var s := Exec(events).value;
             r.id.None? || (forall c :: 0 <= c < |s.calls| && Some(s.calls[c].id) == r.id ==>
                              s.calls[c].phase.Allocated? || s.calls[c].slot.Some?)
    ensures var s, t := Exec(events).value, Step(Exec(events).value, Line(r));
            t.calls == s.calls && t.pending == s.pending
  {
    EveryRunKeeps(events);
    var s := Exec(events).value;
    assert r.id.Some? && r.id.value in s.pending ==> EntryOk(s, r.id.value);
  }

  /** Failing one more waiter. */
  lemma DeliverOneMore(calls: seq<Call>, done: set<nat>, c: nat)
    ensures Deliver(DeliverAll(calls, done, |calls|), c, StreamEnded) == DeliverAll(calls, done + {c}, |calls|)
  {
    hide DeliverAll;
  }

  // ----- The shared state, section by section -----

  class ClientState {
    var nextId: nat
    var pending: map<nat, nat>
    var calls: seq<Call>
    var lines: nat
    var open: bool

    constructor ()
      ensures State() == INITIAL
    {
      nextId, pending, calls, lines, open := 1, map[], [], 0, true;
    }

    function State(): Client
      reads this
    {
      Client(nextId, pending, calls, lines, open)
    }

    /** `fetch_add` on the id counter. */
    method AllocateId() returns (c: nat)
      modifies this
      ensures State() == Step(old(State()), Issue)
      ensures c == |old(calls)| && calls[c].id == old(nextId)
    {
      c := |calls|;
      calls := calls + [Call(nextId, Allocated, None, false)];
      nextId := (nextId + 1) % U64;
    }

    method RegisterWaiter(c: nat)
      requires Enabled(State(), Register(c))
      modifies this
      ensures State() == Step(old(State()), Register(c))
    {
      pending := pending[calls[c].id := c];
      calls := calls[c := calls[c].(phase := Writing, late := !open)];
    }

    /** The reader's reaction to one line. */
    method OnResponse(r: Response)
      requires Enabled(State(), Line(r))
      modifies this
      ensures State() == Step(old(State()), Line(r))
    {
      if r.id.Some? {
        var id := r.id.value;
        if id in pending {
          var c := pending[id];
          pending := pending - {id};
          if c < |calls| && Listening(calls[c]) { calls := calls[c := calls[c].(slot := Some(Answer(lines, r)))]; }
        }
      }
      lines := lines + 1;
    }

    /** The reader's last act: take the whole map and fail every waiter in it. */
    method DrainPending()
      requires Enabled(State(), EndOfStream)
      modifies this
      ensures State() == Step(old(State()), EndOfStream)
    {
      hide DeliverAll, Deliver;
      var taken := pending;
      pending, open := map[], false;
      var left := taken.Keys;
      ghost var done: set<nat> := {};
      assert calls == DeliverAll(calls, done, |calls|);
      while |left| > 0
        invariant left <= taken.Keys && done <= taken.Values
        invariant forall id :: id in taken && id !in left ==> taken[id] in done
        invariant nextId == old(nextId) && lines == old(lines) && !open && pending == map[]
        invariant calls == DeliverAll(old(calls), done, |old(calls)|)
        decreases |left|
      {
        var id :| id in left;
        left := left - {id};
        DeliverOneMore(old(calls), done, taken[id]);
        calls := Deliver(calls, taken[id], StreamEnded);
        done := done + {taken[id]};
      }
      assert done == taken.Values;
    }

    /** A caller whose timer fired takes its own entry out, if it is still there. */
    method ForgetWaiter(c: nat)
      requires Enabled(State(), Forget(c))
      modifies this
      ensures State() == Step(old(State()), Forget(c))
    {
      pending := pending - {calls[c].id};
      calls := calls[c := calls[c].(phase := Finished(TimedOut))];
    }

    /** A step of one caller that touches nothing but its own phase. */
    method SetPhase(c: nat, phase: Phase)
      requires c < |calls|
      modifies this`calls
      ensures State() == WithPhase(old(State()), c, phase)
    {
      calls := calls[c := calls[c].(phase := phase)];
    }

    /** The section of the caller or of the reader task that the event stands for. */
    method Perform(e: Event)
      requires Enabled(State(), e)
      modifies this
      ensures State() == Step(old(State()), e)
    {
      match e {
        case Issue => var c := AllocateId();
        case Register(c) => RegisterWaiter(c);
        case WriteDone(c) => SetPhase(c, Waiting);
        case WriteFails(c) => SetPhase(c, Finished(WriteFailed));
        case Line(r) => OnResponse(r);
        case EndOfStream => DrainPending();
        case Receive(c) => SetPhase(c, Finished(OutcomeOf(calls[c].slot.value)));
        case Expire(c) => SetPhase(c, Expired);
        case Forget(c) => ForgetWaiter(c);
        case FindClosed(c) => SetPhase(c, Finished(ChannelClosed));
        case Drop(c) => SetPhase(c, Dropped);
      }
    }
  }

  lemma {:induction false} PrefixRuns(events: seq<Event>, n: nat)
    requires Exec(events).Some? && n <= |events|
    ensures Exec(events[..n]).Some?
    decreases |events| - n
  {
    if n == |events| {
      assert events[..n] == events;
    } else {
      PrefixRuns(events, n + 1);
      assert events[..n + 1][..n] == events[..n];
    }
  }
}
