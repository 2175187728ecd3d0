/**
 What a run of the demultiplexer leaves behind, read off its events alone: which calls wait, which
 response each of them carries, which entries the map holds, and how each call ends.
 */
module McpHistory {
  import opened Prelude
  import opened Mcp

  /** A section of call `c` itself. */
  predicate Own(e: Event, c: nat) {
    !e.Issue? && !e.Line? && !e.EndOfStream? && e.c == c
  }

  /** A section after which call `c` no longer listens. */
  predicate Leaves(e: Event, c: nat) {
    Own(e, c) && !e.Register? && !e.WriteDone?
  }

  predicate Answering(e: Event, c: nat) {
    e.Line? && e.response.id == Some(c + 1)
  }

  /** What the reader task does about call `c`. */
  predicate Reaches(e: Event, c: nat) {
    Answering(e, c) || e.EndOfStream?
  }

  /** Call `c` registered at event `i` and has not left before event `n`. */
  ghost predicate ListensSince(events: seq<Event>, n: nat, c: nat, i: nat)
    requires n <= |events|
  {
    i < n && events[i] == Register(c) && forall j :: i < j < n ==> !Leaves(events[j], c)
  }

  /** Event `k` is the first by which the reader reaches call `c`, which listens since event `i`. */
  ghost predicate FirstReach(events: seq<Event>, c: nat, i: nat, k: nat)
    requires k < |events|
  {
    ListensSince(events, k, c, i) && Reaches(events[k], c) && forall j :: i < j < k ==> !Reaches(events[j], c)
  }

  function LinesIn(events: seq<Event>, n: nat): nat
    requires n <= |events|
  {
    if n == 0 then 0 else LinesIn(events, n - 1) + if events[n - 1].Line? then 1 else 0
  }

  function IssuedIn(events: seq<Event>, n: nat): nat
    requires n <= |events|
  {
    if n == 0 then 0 else IssuedIn(events, n - 1) + if events[n - 1].Issue? then 1 else 0
  }

  /** What event `k` puts on the channel of the call that it reaches. */
  function Carried(events: seq<Event>, k: nat): Delivery
    requires k < |events|
  {
    if events[k].Line? then Answer(LinesIn(events, k), events[k].response) else StreamEnded
  }

  // ----- The state after the first n events -----

  ghost predicate Delivered(events: seq<Event>, n: nat, c: nat, d: Delivery)
    requires n <= |events|
  {
    exists i: nat, k: nat :: k < n && FirstReach(events, c, i, k) && d == Carried(events, k)
  }

  ghost predicate Listens(events: seq<Event>, n: nat, c: nat)
    requires n <= |events|
  {
    exists i: nat :: ListensSince(events, n, c, i)
  }

  /** Call `c` registered at event `i`, and nothing has taken its entry out since. */
  ghost predicate EntersAt(events: seq<Event>, n: nat, c: nat, i: nat)
    requires n <= |events|
  {
    && i < n && events[i] == Register(c)
    && forall j :: i < j < n ==> !Reaches(events[j], c) && events[j] != Forget(c)
  }

  ghost predicate Entered(events: seq<Event>, n: nat, c: nat)
    requires n <= |events|
  {
    exists i: nat :: EntersAt(events, n, c, i)
  }

  ghost predicate Silent(events: seq<Event>, n: nat, c: nat)
    requires n <= |events|
  {
    forall j :: 0 <= j < n ==> !Own(events[j], c)
  }

  /** At most one registration, and nothing of the call before it. */
  ghost predicate RegistersFirst(events: seq<Event>, n: nat, c: nat)
    requires n <= |events|
  {
    forall i :: 0 <= i < n && events[i] == Register(c) ==> Silent(events, i, c)
  }

  /** Event `k` is the last section of call `c` itself. */
  ghost predicate LastOwn(events: seq<Event>, n: nat, c: nat, k: nat)
    requires n <= |events|
  {
    k < n && Own(events[k], c) && forall j :: k < j < n ==> !Own(events[j], c)
  }

  /** Where its last own section leaves a call whose channel carries `slot`. */
  ghost predicate LeftAt(e: Event, call: Call) {
    match call.phase
    case Allocated => false
    case Writing => e.Register?
    case Waiting => e.WriteDone?
    case Expired => e.Expire? && call.slot.None?
    case Dropped => e.Drop?
    case Finished(Completed(body)) =>
      e.Receive? && call.slot.Some? && call.slot.value.Answer? && call.slot.value.response.body == body
    case Finished(StreamClosed) => e.Receive? && call.slot == Some(StreamEnded)
    case Finished(ChannelClosed) => false
    case Finished(WriteFailed) => e.WriteFails?
    case Finished(TimedOut) => e.Forget? && call.slot.None?
  }

  /** Call `c` registered when the stream had already ended. */
  ghost predicate Belated(events: seq<Event>, n: nat, c: nat)
    requires n <= |events|
  {
    exists k :: 0 <= k < n && events[k] == Register(c) && Ended(events, k)
  }

  ghost predicate Ended(events: seq<Event>, n: nat)
    requires n <= |events|
  {
    exists j :: 0 <= j < n && events[j].EndOfStream?
  }

  /** Whether call `c` listens and has an entry, as its history says. */
  ghost predicate Stands(events: seq<Event>, n: nat, s: Client, c: nat)
    requires n <= |events| && c < |s.calls|
  {
    && (s.calls[c].phase.Allocated? <==> Silent(events, n, c))
    && (Listening(s.calls[c]) <==> Listens(events, n, c))
    && (c + 1 in s.pending <==> Entered(events, n, c))
    && (s.calls[c].late <==> Belated(events, n, c))
  }

  ghost predicate Carries(events: seq<Event>, n: nat, call: Call, c: nat)
    requires n <= |events|
  {
    forall d :: call.slot == Some(d) <==> Delivered(events, n, c, d)
  }

  ghost predicate Rests(events: seq<Event>, n: nat, call: Call, c: nat)
    requires n <= |events|
  {
    && (forall k: nat :: LastOwn(events, n, c, k) ==> LeftAt(events[k], call))
    && (call.phase.Expired? ==> call.slot.None?)
  }

  /** Call `c` is what its history makes of it. */
  ghost predicate Follows(events: seq<Event>, n: nat, s: Client, c: nat)
    requires n <= |events| && c < |s.calls|
  {
    && RegistersFirst(events, n, c) && Stands(events, n, s, c)
    && Carries(events, n, s.calls[c], c) && Rests(events, n, s.calls[c], c)
  }

  ghost predicate AllFollow(events: seq<Event>, n: nat, s: Client)
    requires n <= |events|
  {
    && s.lines == LinesIn(events, n) && |s.calls| == IssuedIn(events, n)
    && (s.open <==> !Ended(events, n))
    && (forall c :: 0 <= c < |s.calls| ==> Follows(events, n, s, c))
    && (forall c: nat :: c >= |s.calls| ==> Silent(events, n, c))
  }

  // ----- One event more -----

  lemma {:induction false} ListensNext(events: seq<Event>, n: nat, c: nat)
    requires n < |events|
    ensures Listens(events, n + 1, c) <==>
            events[n] == Register(c) || (Listens(events, n, c) && !Leaves(events[n], c))
  {
    if events[n] == Register(c) { assert ListensSince(events, n + 1, c, n); }
    if i: nat :| ListensSince(events, n, c, i) && !Leaves(events[n], c) { assert ListensSince(events, n + 1, c, i); }
    var m := n + 1;
    if i: nat :| ListensSince(events, m, c, i) { assert i == n || ListensSince(events, n, c, i); }
  }

  lemma {:induction false} EnteredNext(events: seq<Event>, n: nat, c: nat)
    requires n < |events|
    ensures Entered(events, n + 1, c) <==>
            events[n] == Register(c) || (Entered(events, n, c) && !Reaches(events[n], c) && events[n] != Forget(c))
  {
    if events[n] == Register(c) { assert EntersAt(events, n + 1, c, n); }
    if i: nat :| EntersAt(events, n, c, i) && !Reaches(events[n], c) && events[n] != Forget(c) {
      assert EntersAt(events, n + 1, c, i);
    }
    var m := n + 1;
    if i: nat :| EntersAt(events, m, c, i) { assert i == n || EntersAt(events, n, c, i); }
  }

  lemma {:induction false} OneRegistration(events: seq<Event>, n: nat, c: nat, i: nat, j: nat)
    requires n <= |events| && RegistersFirst(events, n, c) && i < n && j < n
    requires events[i] == Register(c) && events[j] == Register(c)
    ensures i == j
  {
    assert Own(Register(c), c);
  }

  lemma {:induction false} DeliveredNext(events: seq<Event>, n: nat, c: nat, d: Delivery)
    requires n < |events| && RegistersFirst(events, n, c)
    ensures Delivered(events, n + 1, c, d) <==>
            || Delivered(events, n, c, d)
            || (Listens(events, n, c) && Entered(events, n, c) && Reaches(events[n], c) && d == Carried(events, n))
  {
    if Listens(events, n, c) && Entered(events, n, c) && Reaches(events[n], c) && d == Carried(events, n) {
      var i: nat :| ListensSince(events, n, c, i);
      var j: nat :| EntersAt(events, n, c, j);
      OneRegistration(events, n, c, i, j);
      assert FirstReach(events, c, i, n);
    }
    if i: nat :| FirstReach(events, c, i, n) && d == Carried(events, n) {
      assert EntersAt(events, n, c, i);
    }
  }

  /** What one event makes of one call. */
  ghost predicate Moves(s: Client, e: Event, t: Client, c: nat)
    requires c < |s.calls|
  {
    && c < |t.calls| && (t.calls[c].phase.Expired? ==> t.calls[c].slot.None?)
    && (e == Register(c) ==> s.calls[c].phase.Allocated?)
    && (t.calls[c].phase.Allocated? <==> s.calls[c].phase.Allocated? && !Own(e, c))
    && (Listening(t.calls[c]) <==> e == Register(c) || (Listening(s.calls[c]) && !Leaves(e, c)))
    && (c + 1 in t.pending <==> e == Register(c) || (c + 1 in s.pending && !Reaches(e, c) && e != Forget(c)))
    && t.calls[c].slot == (
         if Reaches(e, c) && Listening(s.calls[c]) && c + 1 in s.pending
         then Some(if e.Line? then Answer(s.lines, e.response) else StreamEnded) else s.calls[c].slot)
    && (if Own(e, c) then LeftAt(e, t.calls[c]) else t.calls[c].phase == s.calls[c].phase)
    && (t.calls[c].late <==> if e == Register(c) then !s.open else s.calls[c].late)
  }

  /** Ids are numbers of calls, counted from one. */
  ghost predicate Numbered(s: Client) {
    && s.nextId == |s.calls| + 1
    && (forall id :: id in s.pending ==> 1 <= id <= |s.calls| && s.pending[id] == id - 1)
    && (forall c :: 0 <= c < |s.calls| ==> s.calls[c].id == c + 1)
  }

  lemma {:induction false} InvNumbers(s: Client)
    requires Inv(s)
    ensures Numbered(s)
  {
    hide AnswersDistinct;
    forall c | 0 <= c < |s.calls|
      ensures s.calls[c].id == c + 1
    {
      assert CallOk(s, c);
    }
    forall id | id in s.pending
      ensures 1 <= id <= |s.calls| && s.pending[id] == id - 1
    {
      assert EntryOk(s, id) && CallOk(s, s.pending[id]);
    }
  }

  lemma {:induction false} CallStep(s: Client, e: Event, c: nat)
    requires Inv(s) && Enabled(s, e) && c < |s.calls| && (s.calls[c].phase.Expired? ==> s.calls[c].slot.None?)
    ensures Moves(s, e, Step(s, e), c)
  {
    hide Inv;
    InvNumbers(s);
    NeverClosed(s, c);
    EntryIsEmpty(s, c);
    match e
    case Issue =>
    case Line(r) =>
    case EndOfStream => WaitersAre(s, c);
    case _ => OwnStep(s, e, c);
  }

  lemma {:induction false} WaitersAre(s: Client, c: nat)
    requires Numbered(s) && c < |s.calls|
    ensures c in s.pending.Values <==> c + 1 in s.pending
  {
    if c in s.pending.Values {
      var id :| id in s.pending && s.pending[id] == c;
    }
    if c + 1 in s.pending { assert s.pending[c + 1] == c; }
  }

  lemma {:induction false} OwnStep(s: Client, e: Event, c: nat)
    requires Numbered(s) && Enabled(s, e) && c < |s.calls| && (s.calls[c].phase.Expired? ==> s.calls[c].slot.None?)
    requires !Enabled(s, FindClosed(c))
    requires !e.Issue? && !e.Line? && !e.EndOfStream?
    ensures Moves(s, e, Step(s, e), c)
  {
  }

  lemma {:induction false} SilentNext(events: seq<Event>, n: nat, c: nat)
    requires n < |events|
    ensures Silent(events, n + 1, c) <==> Silent(events, n, c) && !Own(events[n], c)
    ensures Silent(events, n, c) ==> !Belated(events, n, c)
  {
  }

  lemma {:induction false} BelatedNext(events: seq<Event>, n: nat, c: nat)
    requires n < |events|
    ensures Belated(events, n + 1, c) <==> Belated(events, n, c) || (events[n] == Register(c) && Ended(events, n))
  {
  }

  lemma {:induction false} EndedNext(events: seq<Event>, n: nat)
    requires n < |events|
    ensures Ended(events, n + 1) <==> Ended(events, n) || events[n].EndOfStream?
  {
  }

  /** The last own section after one event more. */
  lemma {:induction false} LastOwnNext(events: seq<Event>, n: nat, c: nat, k: nat)
    requires n < |events| && LastOwn(events, n + 1, c, k)
    ensures if Own(events[n], c) then k == n else LastOwn(events, n, c, k)
  {
  }

  lemma {:induction false} LeftStays(e: Event, was: Call, now: Call)
    requires LeftAt(e, was) && now.phase == was.phase && (now.slot == was.slot || Listening(was))
    ensures LeftAt(e, now)
  {
  }

  lemma {:induction false} CarriesOn(events: seq<Event>, n: nat, s: Client, t: Client, c: nat)
    requires n < |events| && c < |s.calls| && Moves(s, events[n], t, c)
    requires RegistersFirst(events, n, c) && Stands(events, n, s, c) && Carries(events, n, s.calls[c], c)
    requires s.lines == LinesIn(events, n) && (c + 1 in s.pending ==> s.calls[c].slot.None?)
    ensures Carries(events, n + 1, t.calls[c], c)
  {
    hide Listening, Listens, Entered, Delivered, Leaves, Reaches, LeftAt, LastOwn, Belated, Silent, RegistersFirst,
         Carried;
    var m := n + 1;
    CarriedIs(events, n);
    forall d
      ensures t.calls[c].slot == Some(d) <==> Delivered(events, m, c, d)
    {
      DeliveredNext(events, n, c, d);
    }
  }

  lemma {:induction false} CarriedIs(events: seq<Event>, k: nat)
    requires k < |events|
    ensures Carried(events, k)
            == if events[k].Line? then Answer(LinesIn(events, k), events[k].response) else StreamEnded
  {
  }

  lemma {:induction false} RestsOn(events: seq<Event>, n: nat, s: Client, t: Client, c: nat)
    requires n < |events| && c < |s.calls| && Rests(events, n, s.calls[c], c) && Moves(s, events[n], t, c)
    ensures Rests(events, n + 1, t.calls[c], c)
  {
    hide LastOwn, LeftAt;
    var m := n + 1;
    forall k: nat | LastOwn(events, m, c, k)
      ensures k < m && LeftAt(events[k], t.calls[c])
    {
      LastOwnNext(events, n, c, k);
      if !Own(events[n], c) { LeftStays(events[k], s.calls[c], t.calls[c]); }
    }
  }

  lemma {:induction false} StandsOn(events: seq<Event>, n: nat, s: Client, t: Client, c: nat)
    requires n < |events| && c < |s.calls| && Stands(events, n, s, c) && Moves(s, events[n], t, c)
    requires s.open <==> !Ended(events, n)
    ensures Stands(events, n + 1, t, c)
  {
    hide Listening, Listens, Entered, Leaves, Reaches, LeftAt, Belated, Ended, Silent;
    SilentNext(events, n, c);
    BelatedNext(events, n, c);
    ListensNext(events, n, c);
    EnteredNext(events, n, c);
  }

  lemma {:induction false} FollowsOn(events: seq<Event>, n: nat, s: Client, t: Client, c: nat)
    requires n < |events| && c < |s.calls| && Follows(events, n, s, c) && Moves(s, events[n], t, c)
    requires s.lines == LinesIn(events, n) && (s.open <==> !Ended(events, n))
    requires c + 1 in s.pending ==> s.calls[c].slot.None?
    ensures Follows(events, n + 1, t, c)
  {
    RestsOn(events, n, s, t, c);
    StandsOn(events, n, s, t, c);
    CarriesOn(events, n, s, t, c);
    hide Stands, Carries, Rests;
    var m := n + 1;
    forall i | 0 <= i < m && events[i] == Register(c)
      ensures Silent(events, i, c)
    {
      if i == n { AllocatedIsSilent(events, n, s, c); }
    }
  }

  lemma {:induction false} AllocatedIsSilent(events: seq<Event>, n: nat, s: Client, c: nat)
    requires n <= |events| && c < |s.calls| && Stands(events, n, s, c)
    ensures s.calls[c].phase.Allocated? ==> Silent(events, n, c)
  {
  }

  lemma {:induction false} EntryIsEmpty(s: Client, c: nat)
    requires Inv(s) && c < |s.calls|
    ensures c + 1 in s.pending ==> s.calls[c].slot.None?
  {
    if c + 1 in s.pending { assert EntryOk(s, c + 1) && CallOk(s, s.pending[c + 1]); }
  }

  lemma {:induction false} FreshFollows(events: seq<Event>, n: nat, s: Client)
    requires n < |events| && Inv(s) && events[n].Issue? && Silent(events, n, |s.calls|)
    ensures Follows(events, n + 1, Step(s, Issue), |s.calls|)
  {
    var c := |s.calls|;
    assert Silent(events, n + 1, c);
    assert !Listens(events, n + 1, c) && !Entered(events, n + 1, c) && !Belated(events, n + 1, c);
    InvNumbers(s);
  }

  lemma {:induction false} OwnIsIssued(s: Client, e: Event, c: nat)
    requires Enabled(s, e) && Own(e, c)
    ensures c < |s.calls|
  {
  }

  lemma {:induction false} StepCounts(s: Client, e: Event)
    requires Enabled(s, e)
    ensures var t := Step(s, e);
            && t.lines == s.lines + (if e.Line? then 1 else 0)
            && |t.calls| == |s.calls| + (if e.Issue? then 1 else 0)
            && (t.open <==> s.open && !e.EndOfStream?)
  {
  }

  lemma {:induction false} NoSlotWhenExpired(events: seq<Event>, n: nat, s: Client, c: nat)
    requires n <= |events| && c < |s.calls| && Follows(events, n, s, c)
    ensures s.calls[c].phase.Expired? ==> s.calls[c].slot.None?
  {
  }

  lemma {:induction false} AllFollowOn(events: seq<Event>, n: nat, s: Client)
    requires n < |events| && Inv(s) && Enabled(s, events[n]) && AllFollow(events, n, s)
    ensures AllFollow(events, n + 1, Step(s, events[n]))
  {
    hide Inv, Enabled, Step, Follows, Ended;
    var e, t, m := events[n], Step(s, events[n]), n + 1;
    StepCounts(s, e);
    EndedNext(events, n);
    forall c | 0 <= c < |t.calls|
      ensures Follows(events, m, t, c)
    {
      if c < |s.calls| {
        assert Follows(events, n, s, c);
        NoSlotWhenExpired(events, n, s, c);
        CallStep(s, e, c);
        EntryIsEmpty(s, c);
        FollowsOn(events, n, s, t, c);
      } else { FreshFollows(events, n, s); }
    }
    forall c: nat | c >= |t.calls|
      ensures Silent(events, m, c)
    {
      assert Silent(events, n, c);
      if Own(e, c) { OwnIsIssued(s, e, c); }
    }
  }

  lemma {:induction false} NothingFollows(events: seq<Event>)
    ensures AllFollow(events, 0, INITIAL)
  {
  }

  /** The run up to event `n`, and one event further. */
  lemma {:induction false} RunStep(events: seq<Event>, n: nat)
    requires Exec(events).Some? && n < |events|
    ensures Exec(events[..n]).Some? && Enabled(Exec(events[..n]).value, events[n])
    ensures Exec(events[..n + 1]) == Some(Step(Exec(events[..n]).value, events[n]))
  {
    hide Step, Enabled;
    PrefixRuns(events, n);
    PrefixRuns(events, n + 1);
    assert events[..n + 1][..n] == events[..n];
  }

  lemma {:induction false} FewerCalls(events: seq<Event>, n: nat)
    requires Exec(events).Some? && n <= |events|
    ensures Exec(events[..n]).Some? && |Exec(events[..n]).value.calls| <= |Exec(events).value.calls|
    decreases |events| - n
  {
    if n == |events| {
      assert events[..n] == events;
    } else {
      RunStep(events, n);
      FewerCalls(events, n + 1);
      CallsStay(Exec(events[..n]).value, events[n]);
    }
  }

  lemma {:induction false} PrefixFollows(events: seq<Event>, n: nat)
    requires Exec(events).Some? && |Exec(events).value.calls| + 1 < U64 && n <= |events|
    ensures Exec(events[..n]).Some? && AllFollow(events, n, Exec(events[..n]).value)
  {
    hide Inv, Enabled, Step, AllFollow;
    if n == 0 {
      NothingFollows(events);
    } else {
      PrefixFollows(events, n - 1);
      RunStep(events, n - 1);
      FewerCalls(events, n - 1);
      EveryRunKeeps(events[..n - 1]);
      AllFollowOn(events, n - 1, Exec(events[..n - 1]).value);
    }
  }

  /**
   The state after a run is what its events say: lines and calls are counted, the stream is open until it
   ends, and each call follows its own history.
   */
  lemma {:induction false} RunFollows(events: seq<Event>)
    requires Exec(events).Some? && |Exec(events).value.calls| + 1 < U64
    ensures AllFollow(events, |events|, Exec(events).value)
    ensures Numbered(Exec(events).value)
  {
    hide AllFollow, Inv;
    PrefixFollows(events, |events|);
    assert events[..|events|] == events;
    EveryRunKeeps(events);
    InvNumbers(Exec(events).value);
  }

  // ----- What a caller gets -----

  /** The first line with the id of call `c` after it registered, while it listened and the stream was open. */
  ghost predicate FirstAnswer(events: seq<Event>, c: nat, i: nat, k: nat) {
    && i < k < |events| && events[i] == Register(c) && Answering(events[k], c)
    && forall j :: i < j < k ==> !Answering(events[j], c)
  }

  /**
   A call that has registered and still listens carries an answer exactly if a line with its id has come since.
   It is the first one, its entry has left the map, and receiving it completes the call with its body.
   */
  lemma {:induction false} AnswerArrivesIff(events: seq<Event>, c: nat)
    requires Exec(events).Some? && |Exec(events).value.calls| + 1 < U64
    requires c < |Exec(events).value.calls| && Listening(Exec(events).value.calls[c])
    ensures var s := Exec(events).value;
            var call := s.calls[c];
            && (call.slot.Some? && call.slot.value.Answer? <==> exists i: nat, k: nat :: FirstAnswer(events, c, i, k))
            && forall i: nat, k: nat :: FirstAnswer(events, c, i, k) ==> Gets(s, c, events[k].response)
  {
    hide Gets;
    var call := Exec(events).value.calls[c];
    forall i: nat, k: nat | FirstAnswer(events, c, i, k)
      ensures Gets(Exec(events).value, c, events[k].response) && call.slot.Some? && call.slot.value.Answer?
    {
      AnswerIsGot(events, c, i, k);
      GetsAnswer(Exec(events).value, c, events[k].response);
    }
    if call.slot.Some? && call.slot.value.Answer? {
      var i, k := AnswerCame(events, c);
    }
  }

  /** Call `c` carries the response, has no entry any more, and is completed with its body when it receives it. */
  ghost predicate Gets(s: Client, c: nat, r: Response)
    requires c < |s.calls|
  {
    && s.calls[c].slot.Some? && s.calls[c].slot.value.Answer? && s.calls[c].slot.value.response == r
    && c + 1 !in s.pending
    && (s.calls[c].phase.Waiting? ==>
          && Enabled(s, Receive(c))
          && Step(s, Receive(c)).calls[c].phase == Finished(Completed(r.body)))
  }

  lemma {:induction false} GetsAnswer(s: Client, c: nat, r: Response)
    requires c < |s.calls| && Gets(s, c, r)
    ensures s.calls[c].slot.Some? && s.calls[c].slot.value.Answer?
  {
  }

  lemma {:induction false} AnswerIsGot(events: seq<Event>, c: nat, i: nat, k: nat)
    requires Exec(events).Some? && |Exec(events).value.calls| + 1 < U64
    requires c < |Exec(events).value.calls| && Listening(Exec(events).value.calls[c])
    requires FirstAnswer(events, c, i, k)
    ensures k < |events| && Gets(Exec(events).value, c, events[k].response)
  {
    var n, s := |events|, Exec(events).value;
    AnswerIsDelivered(events, c, i, k);
    hide FirstReach, Inv;
    assert Delivered(events, n, c, Carried(events, k));
    RunFollows(events);
    EveryRunKeeps(events);
    assert Follows(events, n, s, c);
    EntryIsEmpty(s, c);
  }

  lemma {:induction false} AnswerCame(events: seq<Event>, c: nat) returns (i: nat, k: nat)
    requires Exec(events).Some? && |Exec(events).value.calls| + 1 < U64
    requires c < |Exec(events).value.calls|
    requires Exec(events).value.calls[c].slot.Some? && Exec(events).value.calls[c].slot.value.Answer?
    ensures FirstAnswer(events, c, i, k)
  {
    var n, call := |events|, Exec(events).value.calls[c];
    RunFollows(events);
    assert Follows(events, n, Exec(events).value, c);
    hide RegistersFirst, Stands, Rests;
    assert Delivered(events, n, c, call.slot.value);
    i, k :| k < n && FirstReach(events, c, i, k) && call.slot.value == Carried(events, k);
  }

  /** No stream ends before a line comes. */
  lemma {:induction false} LineMeansOpen(events: seq<Event>, k: nat)
    requires Exec(events).Some? && |Exec(events).value.calls| + 1 < U64
    requires k < |events| && events[k].Line?
    ensures forall j :: 0 <= j < k ==> !events[j].EndOfStream?
  {
    PrefixFollows(events, k);
    RunStep(events, k);
  }

  lemma {:induction false} AnswerIsDelivered(events: seq<Event>, c: nat, i: nat, k: nat)
    requires Exec(events).Some? && |Exec(events).value.calls| + 1 < U64
    requires c < |Exec(events).value.calls| && Listening(Exec(events).value.calls[c])
    requires FirstAnswer(events, c, i, k)
    ensures FirstReach(events, c, i, k)
  {
    RunFollows(events);
    var n := |events|;
    assert Follows(events, n, Exec(events).value, c);
    var since: nat :| ListensSince(events, n, c, since);
    OneRegistration(events, n, c, since, i);
    LineMeansOpen(events, k);
  }

  /** How a call ends: its last own section says it, and a caller whose answer is there does not time out. */
  lemma {:induction false} HowCallsEnd(events: seq<Event>, c: nat, k: nat)
    requires Exec(events).Some? && |Exec(events).value.calls| + 1 < U64
    requires LastOwn(events, |events|, c, k)
    ensures c < |Exec(events).value.calls| && LeftAt(events[k], Exec(events).value.calls[c])
  {
    RunFollows(events);
    var s := Exec(events).value;
    assert !Silent(events, |events|, c) && c < |s.calls|;
    assert Follows(events, |events|, s, c);
  }

  /** Event `k` leaves call `c` waiting, or about to write, and nothing of its own has happened since. */
  ghost predicate LastWas(events: seq<Event>, c: nat, e: Event) {
    exists k: nat :: LastOwn(events, |events|, c, k) && events[k] == e
  }

  ghost predicate Reached(events: seq<Event>, c: nat) {
    exists d :: Delivered(events, |events|, c, d)
  }

  lemma {:induction false} NotOwn(events: seq<Event>, c: nat)
    requires Silent(events, |events|, c)
    ensures forall e :: Own(e, c) ==> !LastWas(events, c, e)
  {
  }

  /** The phases in which a call still has something to do, by its last own section. */
  lemma {:induction false} PhaseIff(events: seq<Event>, s: Client, c: nat)
    requires c < |s.calls| && Follows(events, |events|, s, c)
    ensures var call := s.calls[c];
            && (call.phase.Allocated? <==> Silent(events, |events|, c))
            && (call.phase.Writing? <==> LastWas(events, c, Register(c)))
            && (call.phase.Waiting? <==> LastWas(events, c, WriteDone(c)))
            && (call.phase.Expired? <==> LastWas(events, c, Expire(c)))
            && (call.slot.Some? <==> Reached(events, c))
  {
    hide Delivered;
    var n, call := |events|, s.calls[c];
    if Silent(events, n, c) {
      NotOwn(events, c);
    } else {
      var k := SomeLast(events, n, c);
      assert LeftAt(events[k], call);
      assert forall m: nat :: LastOwn(events, n, c, m) ==> m == k;
      assert events[k].c == c;
    }
    if call.slot.Some? { assert Delivered(events, n, c, call.slot.value); }
  }

  /** Which sections may come next, after any run: those that the events so far call for. */
  lemma {:induction false} NextIff(events: seq<Event>, c: nat, r: Response)
    requires Exec(events).Some? && |Exec(events).value.calls| + 1 < U64
    ensures var s, n := Exec(events).value, |events|;
            && Enabled(s, Issue)
            && (Enabled(s, Line(r)) <==> !Ended(events, n))
            && (Enabled(s, EndOfStream) <==> !Ended(events, n))
            && (Enabled(s, Register(c)) <==> c < IssuedIn(events, n) && Silent(events, n, c))
            && (Enabled(s, WriteDone(c)) <==> LastWas(events, c, Register(c)))
            && (Enabled(s, WriteFails(c)) <==> LastWas(events, c, Register(c)))
            && (Enabled(s, Receive(c)) <==> LastWas(events, c, WriteDone(c)) && Reached(events, c))
            && (Enabled(s, Expire(c)) <==> LastWas(events, c, WriteDone(c)) && !Reached(events, c))
            && (Enabled(s, Forget(c)) <==> LastWas(events, c, Expire(c)))
            && !Enabled(s, FindClosed(c))
            && (Enabled(s, Drop(c)) <==>
                  || (c < IssuedIn(events, n) && Silent(events, n, c))
                  || LastWas(events, c, Register(c)) || LastWas(events, c, WriteDone(c))
                  || LastWas(events, c, Expire(c)))
  {
    hide Inv, Silent, LastWas, Reached, Ended, Follows;
    var s, n := Exec(events).value, |events|;
    RunFollows(events);
    EveryRunKeeps(events);
    NeverClosed(s, c);
    if c < |s.calls| {
      assert Follows(events, n, s, c);
      PhaseIff(events, s, c);
    } else {
      assert Silent(events, n, c);
      NotOwn(events, c);
    }
  }

  lemma {:induction false} SomeLast(events: seq<Event>, n: nat, c: nat) returns (k: nat)
    requires n <= |events| && !Silent(events, n, c)
    ensures LastOwn(events, n, c, k)
  {
    if Own(events[n - 1], c) { k := n - 1; } else { k := SomeLast(events, n - 1, c); }
  }

  /**
   Callers and reader in any interleaving: what they leave behind is the run of the state machine,
   and so what the events say.
   */
  method Run(events: seq<Event>) returns (client: ClientState)
    requires Exec(events).Some?
    ensures client.State() == Exec(events).value
    ensures |client.calls| + 1 < U64 ==>
              Inv(client.State()) && Numbered(client.State()) && AllFollow(events, |events|, client.State())
  {
    hide Step, Enabled, Inv, AllFollow, Numbered;
    client := new ClientState();
    assert events[..0] == [] && events[..|events|] == events;
    for n := 0 to |events|
      invariant fresh(client) && Exec(events[..n]) == Some(client.State())
    {
      PrefixRuns(events, n + 1);
      assert events[..n + 1][..n] == events[..n];
      client.Perform(events[n]);
    }
    if |client.calls| + 1 < U64 {
      EveryRunKeeps(events);
      RunFollows(events);
    }
  }
}
