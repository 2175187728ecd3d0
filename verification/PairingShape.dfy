/**
 The repaired thread, message by message: where each message of the thread ends up, which of its blocks
 are left, where the answers that were missing go, and what the list of repairs says.
 */
module PairingShape {
  import opened Prelude
  import opened Messages
  import opened Pairing

  predicate Calls(content: seq<ContentBlock>, id: Id) {
    exists q :: 0 <= q < |content| && content[q].ToolUse? && content[q].id == id
  }

  predicate HasAnswer(content: seq<ContentBlock>, id: Id) {
    exists q :: 0 <= q < |content| && content[q].ToolResult? && content[q].toolUseId == id
  }

  lemma {:induction false} IdsAre(content: seq<ContentBlock>, id: Id)
    ensures id in UseIds(content) <==> Calls(content, id)
    ensures id in ResultIds(content) <==> HasAnswer(content, id)
  {
    if |content| > 0 {
      var rest := content[1..];
      IdsAre(rest, id);
      if Calls(rest, id) {
        var q :| 0 <= q < |rest| && rest[q].ToolUse? && rest[q].id == id;
        assert content[q + 1] == rest[q];
      }
      if Calls(content, id) && !(content[0].ToolUse? && content[0].id == id) {
        var q :| 0 <= q < |content| && content[q].ToolUse? && content[q].id == id;
        assert rest[q - 1] == content[q];
      }
      if HasAnswer(rest, id) {
        var q :| 0 <= q < |rest| && rest[q].ToolResult? && rest[q].toolUseId == id;
        assert content[q + 1] == rest[q];
      }
      if HasAnswer(content, id) && !(content[0].ToolResult? && content[0].toolUseId == id) {
        var q :| 0 <= q < |content| && content[q].ToolResult? && content[q].toolUseId == id;
        assert rest[q - 1] == content[q];
      }
    }
  }

  // ----- What is left of a message -----

  /** Block `p` answers no call, or one of the calls in `before`. */
  predicate Fits(before: seq<ContentBlock>, content: seq<ContentBlock>, p: nat) {
    p < |content| && (content[p].ToolResult? ==> Calls(before, content[p].toolUseId))
  }

  /** `kept` are the blocks at the positions `at`, which are those that fit. */
  ghost predicate KeptAt(before: seq<ContentBlock>, content: seq<ContentBlock>, kept: seq<ContentBlock>, at: seq<nat>) {
    FitAt(before, content, at) && AllAt(content, kept, at)
  }

  /** `at` lists the positions of the blocks that fit. */
  ghost predicate FitAt(before: seq<ContentBlock>, content: seq<ContentBlock>, at: seq<nat>) {
    Increasing(at) && forall p: nat :: p in at <==> Fits(before, content, p)
  }

  predicate AllAt(content: seq<ContentBlock>, kept: seq<ContentBlock>, at: seq<nat>) {
    |kept| == |at| && forall k :: 0 <= k < |at| ==> IsAt(content, at[k], kept[k])
  }

  predicate IsAt(content: seq<ContentBlock>, p: nat, block: ContentBlock) {
    p < |content| && content[p] == block
  }

  /** What a message keeps: the blocks that fit, or a placeholder if it loses all. */
  ghost predicate Cleans(before: seq<ContentBlock>, content: seq<ContentBlock>, out: seq<ContentBlock>) {
    exists kept, at ::
      KeptAt(before, content, kept, at) && out == if |content| > 0 && |kept| == 0 then [Text(PLACEHOLDER)] else kept
  }

  lemma {:induction false} FitsShift(before: seq<ContentBlock>, content: seq<ContentBlock>, p: nat)
    requires |content| > 0
    ensures Fits(before, content, p + 1) <==> Fits(before, content[1..], p)
  {
    hide Calls;
  }

  lemma {:induction false} KeepIs(before: seq<ContentBlock>, content: seq<ContentBlock>) returns (at: seq<nat>)
    ensures KeptAt(before, content, Keep(UseIds(before), content), at)
  {
    hide Fits, UseIds, KeptAt, IsPaired, Shifted;
    if |content| == 0 {
      at := [];
      NoneFits(before, content);
    } else {
      var later := KeepIs(before, content[1..]);
      FirstFits(before, content);
      KeptShift(before, content, Keep(UseIds(before), content[1..]), later);
      at := (if Fits(before, content, 0) then [0] else []) + Shifted(later);
    }
  }

  lemma {:induction false} KeptShift(before: seq<ContentBlock>, content: seq<ContentBlock>, kept: seq<ContentBlock>,
                                     later: seq<nat>)
    requires |content| > 0 && KeptAt(before, content[1..], kept, later)
    ensures Fits(before, content, 0) ==> KeptAt(before, content, [content[0]] + kept, [0] + Shifted(later))
    ensures !Fits(before, content, 0) ==> KeptAt(before, content, kept, [] + Shifted(later))
  {
    hide Fits, FitAt, AllAt;
    if Fits(before, content, 0) {
      FitShift(before, content, later, [0]);
      AllShift(content, kept, later, [0]);
      assert content[..1] == [content[0]];
    } else {
      FitShift(before, content, later, []);
      AllShift(content, kept, later, []);
      assert content[..0] + kept == kept;
    }
  }

  lemma {:induction false} FitShift(before: seq<ContentBlock>, content: seq<ContentBlock>, later: seq<nat>,
                                    first: seq<nat>)
    requires |content| > 0 && FitAt(before, content[1..], later)
    requires first == if Fits(before, content, 0) then [0] else []
    ensures FitAt(before, content, first + Shifted(later))
  {
    hide Fits, Increasing;
    ShiftIncreases(later, first);
    forall p: nat
      ensures p in first + Shifted(later) <==> Fits(before, content, p)
    {
      hide Shifted;
      ShiftMembers(later, first, p);
      if p > 0 { FitsShift(before, content, p - 1); }
    }
  }

  lemma {:induction false} AllShift(content: seq<ContentBlock>, kept: seq<ContentBlock>, later: seq<nat>,
                                    first: seq<nat>)
    requires |content| > 0 && AllAt(content[1..], kept, later) && (first == [] || first == [0])
    ensures AllAt(content, content[..|first|] + kept, first + Shifted(later))
  {
    var at, all := first + Shifted(later), content[..|first|] + kept;
    forall k | 0 <= k < |at|
      ensures IsAt(content, at[k], all[k])
    {
      ShiftedAt(later, first, k);
      if k >= |first| { assert IsAt(content[1..], later[k - |first|], kept[k - |first|]); }
    }
  }

  lemma {:induction false} NoneFits(before: seq<ContentBlock>, content: seq<ContentBlock>)
    requires |content| == 0
    ensures KeptAt(before, content, [], [])
  {
  }

  lemma {:induction false} FirstFits(before: seq<ContentBlock>, content: seq<ContentBlock>)
    requires |content| > 0
    ensures Fits(before, content, 0) <==> IsPaired(UseIds(before), content[0])
  {
    if content[0].ToolResult? { IdsAre(before, content[0].toolUseId); }
  }

  // ----- The answers that were missing -----

  /** Block `p` makes a call that `next` does not answer. */
  predicate Lacks(content: seq<ContentBlock>, next: seq<ContentBlock>, p: nat) {
    p < |content| && content[p].ToolUse? && !HasAnswer(next, content[p].id)
  }

  /** An error answer for each call of `content` that `next` lacks an answer to, in order. */
  ghost predicate AnswersAt(content: seq<ContentBlock>, next: seq<ContentBlock>, answers: seq<ContentBlock>,
                            at: seq<nat>)
  {
    LackAt(content, next, at) && ErrorsAt(content, next, answers, at)
  }

  /** `at` lists the positions of the calls that lack an answer. */
  ghost predicate LackAt(content: seq<ContentBlock>, next: seq<ContentBlock>, at: seq<nat>) {
    Increasing(at) && forall p: nat :: p in at <==> Lacks(content, next, p)
  }

  predicate ErrorsAt(content: seq<ContentBlock>, next: seq<ContentBlock>, answers: seq<ContentBlock>, at: seq<nat>) {
    |answers| == |at| && forall k :: 0 <= k < |at| ==> IsErrorFor(content, next, at[k], answers[k])
  }

  predicate IsErrorFor(content: seq<ContentBlock>, next: seq<ContentBlock>, p: nat, answer: ContentBlock) {
    Lacks(content, next, p) && answer == ToolResult(content[p].id, MISSING_RESULT, true)
  }

  lemma {:induction false} LacksShift(content: seq<ContentBlock>, next: seq<ContentBlock>, p: nat)
    requires |content| > 0
    ensures Lacks(content, next, p + 1) <==> Lacks(content[1..], next, p)
  {
    hide HasAnswer;
  }

  lemma {:induction false} MissingIs(content: seq<ContentBlock>, next: seq<ContentBlock>) returns (at: seq<nat>)
    ensures AnswersAt(content, next, Synthesize(Unanswered(UseIds(content), ResultIds(next))), at)
  {
    hide Lacks, HasAnswer, ResultIds;
    if |content| == 0 {
      at := [];
      NoneLacks(content, next);
    } else {
      var rest := content[1..];
      var later := MissingIs(rest, next);
      FirstLacks(content, next);
      var first := if Lacks(content, next, 0) then [0] else [];
      at := first + Shifted(later);
      AnswersShift(content, next, Synthesize(Unanswered(UseIds(rest), ResultIds(next))), later);
    }
  }

  lemma {:induction false} ErrorShift(content: seq<ContentBlock>, next: seq<ContentBlock>, p: nat, answer: ContentBlock)
    requires |content| > 0
    ensures IsErrorFor(content, next, p + 1, answer) <==> IsErrorFor(content[1..], next, p, answer)
  {
    LacksShift(content, next, p);
    hide HasAnswer;
  }

  lemma {:induction false} AnswersShift(content: seq<ContentBlock>, next: seq<ContentBlock>, answers: seq<ContentBlock>,
                                        later: seq<nat>)
    requires |content| > 0 && AnswersAt(content[1..], next, answers, later)
    ensures Lacks(content, next, 0) ==> content[0].ToolUse?
    ensures Lacks(content, next, 0) ==>
              var error := ToolResult(content[0].id, MISSING_RESULT, true);
              AnswersAt(content, next, [error] + answers, [0] + Shifted(later))
    ensures !Lacks(content, next, 0) ==> AnswersAt(content, next, [] + answers, [] + Shifted(later))
  {
    FirstIsError(content, next);
    hide Lacks, LackAt, ErrorsAt;
    if Lacks(content, next, 0) {
      LackShift(content, next, later, [0]);
      ErrorsShift(content, next, answers, later, [0], [ToolResult(content[0].id, MISSING_RESULT, true)]);
    } else {
      LackShift(content, next, later, []);
      ErrorsShift(content, next, answers, later, [], []);
    }
  }

  lemma {:induction false} LackShift(content: seq<ContentBlock>, next: seq<ContentBlock>, later: seq<nat>,
                                     first: seq<nat>)
    requires |content| > 0 && LackAt(content[1..], next, later)
    requires first == if Lacks(content, next, 0) then [0] else []
    ensures LackAt(content, next, first + Shifted(later))
  {
    hide Lacks, Increasing;
    ShiftIncreases(later, first);
    forall p: nat
      ensures p in first + Shifted(later) <==> Lacks(content, next, p)
    {
      hide Shifted;
      ShiftMembers(later, first, p);
      if p > 0 { LacksShift(content, next, p - 1); }
    }
  }

  lemma {:induction false} ErrorsShift(content: seq<ContentBlock>, next: seq<ContentBlock>, answers: seq<ContentBlock>,
                                       later: seq<nat>, first: seq<nat>, error: seq<ContentBlock>)
    requires |content| > 0 && ErrorsAt(content[1..], next, answers, later) && |error| == |first|
    requires first == [] || (first == [0] && IsErrorFor(content, next, 0, error[0]))
    ensures ErrorsAt(content, next, error + answers, first + Shifted(later))
  {
    hide IsErrorFor;
    var at, all := first + Shifted(later), error + answers;
    forall k | 0 <= k < |at|
      ensures IsErrorFor(content, next, at[k], all[k])
    {
      ShiftedAt(later, first, k);
      if k >= |first| { ErrorShift(content, next, later[k - |first|], answers[k - |first|]); }
    }
  }

  lemma {:induction false} FirstIsError(content: seq<ContentBlock>, next: seq<ContentBlock>)
    requires |content| > 0
    ensures Lacks(content, next, 0) ==>
              content[0].ToolUse? && IsErrorFor(content, next, 0, ToolResult(content[0].id, MISSING_RESULT, true))
  {
  }

  lemma {:induction false} NoneLacks(content: seq<ContentBlock>, next: seq<ContentBlock>)
    requires |content| == 0
    ensures forall p: nat :: !Lacks(content, next, p)
  {
  }

  /** What the first block adds to the answers. */
  lemma {:induction false} FirstLacks(content: seq<ContentBlock>, next: seq<ContentBlock>)
    requires |content| > 0
    ensures var later := Synthesize(Unanswered(UseIds(content[1..]), ResultIds(next)));
            && (Lacks(content, next, 0) ==> content[0].ToolUse?)
            && Synthesize(Unanswered(UseIds(content), ResultIds(next)))
               == (if Lacks(content, next, 0) then [ToolResult(content[0].id, MISSING_RESULT, true)] else []) + later
  {
    hide HasAnswer, ResultIds;
    if content[0].ToolUse? {
      IdsAre(next, content[0].id);
      var ids := UseIds(content);
      assert ids[0] == content[0].id && ids[1..] == UseIds(content[1..]);
    }
  }

  // ----- The whole thread -----

  predicate HoldsResult(m: Message) {
    exists q :: 0 <= q < |m.content| && m.content[q].ToolResult?
  }

  function ContentBefore(ms: seq<Message>, i: nat): seq<ContentBlock>
    requires i < |ms|
  {
    if i == 0 then [] else ms[i - 1].content
  }

  function ContentBehind(ms: seq<Message>, i: nat): seq<ContentBlock>
    requires i < |ms|
  {
    if i + 1 < |ms| then ms[i + 1].content else []
  }

  /** `cs` is the thread without the blocks that do not fit. */
  ghost predicate Left(ms: seq<Message>, cs: seq<Message>) {
    |cs| == |ms| && forall i :: 0 <= i < |ms| ==> LeftOf(ms, i, cs[i])
  }

  ghost predicate LeftOf(ms: seq<Message>, i: nat, m: Message)
    requires i < |ms|
  {
    m.role == ms[i].role && Cleans(ContentBefore(ms, i), ms[i].content, m.content)
  }

  lemma {:induction false} PreviousAre(ms: seq<Message>, i: nat)
    requires i < |ms|
    ensures PreviousUses(ms, i) == UseIds(ContentBefore(ms, i))
  {
  }

  lemma {:induction false} LeftIs(ms: seq<Message>)
    ensures Left(ms, DropOrphans(ms))
  {
    forall i | 0 <= i < |ms|
      ensures LeftOf(ms, i, DropOrphans(ms)[i])
    {
      var at := KeepIs(ContentBefore(ms, i), ms[i].content);
      PreviousAre(ms, i);
    }
  }

  /** The answers that the calls of message `i` lack: only those of the assistant need any. */
  ghost predicate LackedBy(cs: seq<Message>, i: nat, answers: seq<ContentBlock>)
    requires i < |cs|
  {
    if cs[i].role == AssistantRole then exists at :: AnswersAt(cs[i].content, ContentBehind(cs, i), answers, at)
    else |answers| == 0
  }

  /**
   Message `i` as it is sent, and what is inserted behind it: a message that holds results takes the answers
   lacking to the message before it; answers that have no such message to go to get one of their own.
   */
  ghost predicate Placed(cs: seq<Message>, i: nat, here: Message, behind: seq<Message>)
    requires i < |cs|
  {
    exists before, own ::
      && (if i > 0 && HoldsResult(cs[i]) then LackedBy(cs, i - 1, before) else |before| == 0)
      && LackedBy(cs, i, own)
      && here == Message(cs[i].role, cs[i].content + before)
      && behind == if |own| > 0 && !(i + 1 < |cs| && HoldsResult(cs[i + 1])) then [Message(UserRole, own)] else []
  }

  lemma {:induction false} LackedIs(cs: seq<Message>, i: nat)
    requires i < |cs|
    ensures LackedBy(cs, i, Synthesize(Missing(cs, i)))
  {
    if cs[i].role == AssistantRole {
      var at := MissingIs(cs[i].content, ContentBehind(cs, i));
      assert NextResults(cs, i) == ResultIds(ContentBehind(cs, i));
    }
  }

  lemma {:induction false} PlacedIs(cs: seq<Message>, i: nat)
    requires i < |cs|
    ensures Placed(cs, i, Extended(cs, i), Inserted(cs, i))
  {
    hide LackedBy, Missing;
    LackedIs(cs, i);
    var own := Synthesize(Missing(cs, i));
    if i > 0 && HoldsResult(cs[i]) {
      LackedIs(cs, i - 1);
      assert HasResults(cs[i]);
    } else {
      assert cs[i].content + [] == cs[i].content;
      assert Extended(cs, i) == Message(cs[i].role, cs[i].content + []);
    }
    assert i + 1 < |cs| ==> HoldsResult(cs[i + 1]) == HasResults(cs[i + 1]);
  }

  /** Message `i` of the thread stands at position `at[i]`, and what is inserted behind it up to the next one. */
  ghost predicate Shape(cs: seq<Message>, out: seq<Message>, at: seq<nat>) {
    && |at| == |cs| + 1 && at[0] == 0 && at[|cs|] == |out|
    && forall i :: 0 <= i < |cs| ==> ShapeAt(cs, out, at, i)
  }

  ghost predicate ShapeAt(cs: seq<Message>, out: seq<Message>, at: seq<nat>, i: nat)
    requires |at| == |cs| + 1 && i < |cs|
  {
    at[i] < at[i + 1] <= |out| && Placed(cs, i, out[at[i]], out[at[i] + 1..at[i + 1]])
  }

  /** What has been sent stays in front. */
  lemma {:induction false} AnsweredStays(cs: seq<Message>, m: nat, n: nat)
    requires m <= n <= |cs|
    ensures var before, out := Pairing.Answered(cs, m), Pairing.Answered(cs, n);
            |before| <= |out| && out[..|before|] == before
  {
    hide Extended, Inserted;
    if m < n {
      var l := n - 1;
      AnsweredStays(cs, m, l);
      AnsweredNext(cs, l, n);
      InFront(Pairing.Answered(cs, m), Pairing.Answered(cs, l), [Extended(cs, l)], Inserted(cs, l));
    }
  }

  lemma InFront<T>(first: seq<T>, a: seq<T>, b: seq<T>, c: seq<T>)
    requires |first| <= |a| && a[..|first|] == first
    ensures |first| <= |a + b + c| && (a + b + c)[..|first|] == first
  {
  }

  lemma AnsweredNext(cs: seq<Message>, i: nat, n: nat)
    requires i < |cs| && n == i + 1
    ensures Pairing.Answered(cs, n) == Pairing.Answered(cs, i) + [Extended(cs, i)] + Inserted(cs, i)
  {
    hide Extended, Inserted;
  }

  lemma InTheMiddle<T>(a: seq<T>, b: T, c: seq<T>, all: seq<T>)
    requires |all| >= |a + [b] + c| && all[..|a + [b] + c|] == a + [b] + c
    ensures all[|a|] == b && all[|a| + 1..|a + [b] + c|] == c
  {
    var part := a + [b] + c;
    assert all[|a|] == all[..|part|][|a|] && all[|a| + 1..|part|] == all[..|part|][|a| + 1..];
  }

  lemma {:induction false} AnsweredGrows(cs: seq<Message>, i: nat, n: nat)
    requires i < n <= |cs|
    ensures var out := Pairing.Answered(cs, n);
            var k, m := |Pairing.Answered(cs, i)|, |Pairing.Answered(cs, i + 1)|;
            && k < m <= |out| && out[k] == Extended(cs, i) && out[k + 1..m] == Inserted(cs, i)
  {
    hide Extended, Inserted, Pairing.Answered;
    AnsweredNext(cs, i, i + 1);
    AnsweredStays(cs, i + 1, n);
    InTheMiddle(Pairing.Answered(cs, i), Extended(cs, i), Inserted(cs, i), Pairing.Answered(cs, n));
  }

  lemma {:induction false} AnsweredShape(cs: seq<Message>)
    ensures Shape(cs, Pairing.Answered(cs, |cs|), Starts(cs, |cs|))
  {
    hide Placed, Extended, Inserted;
    var at, out := Starts(cs, |cs|), Pairing.Answered(cs, |cs|);
    forall i | 0 <= i < |cs|
      ensures ShapeAt(cs, out, at, i)
    {
      AnsweredGrows(cs, i, |cs|);
      PlacedIs(cs, i);
    }
  }

  /** Every message of the thread is sent, in its place, with the blocks that fit and the answers that were missing. */
  lemma {:induction false} RepairShape(ms: seq<Message>) returns (cs: seq<Message>, at: seq<nat>)
    ensures Left(ms, cs) && Shape(cs, Repaired(ms), at)
    ensures forall id, p :: SynthesizedResult(id, p) in Repairs(ms) <==> ReportedAt(cs, at, id, p)
  {
    hide Left, Shape;
    LeftIs(ms);
    cs := DropOrphans(ms);
    at := Starts(cs, |cs|);
    AnsweredShape(cs);
    forall id, p
      ensures SynthesizedResult(id, p) in Repairs(ms) <==> ReportedAt(cs, at, id, p)
    {
      NotSynthesized(ms, |ms|, id, p);
      SynthesizedIff(cs, |cs|, id, p);
    }
  }

  /** An answer with this id was missing to the message that is sent at position `p`. */
  ghost predicate ReportedAt(cs: seq<Message>, at: seq<nat>, id: Id, p: nat) {
    |at| == |cs| + 1 && exists i :: 0 <= i < |cs| && at[i] == p && LacksAnswer(cs, i, id)
  }

  function Starts(cs: seq<Message>, n: nat): (at: seq<nat>)
    requires n <= |cs|
    ensures |at| == n + 1 && forall i :: 0 <= i <= n ==> at[i] == |Pairing.Answered(cs, i)|
  {
    if n == 0 then [0] else Starts(cs, n - 1) + [|Pairing.Answered(cs, n)|]
  }

  // ----- The repairs reported -----

  /** Assistant message `i` makes a call with this id that the next message does not answer. */
  predicate LacksAnswer(cs: seq<Message>, i: nat, id: Id)
    requires i < |cs|
  {
    cs[i].role == AssistantRole && Calls(cs[i].content, id) && !HasAnswer(ContentBehind(cs, i), id)
  }

  lemma {:induction false} SynthesisIs(ids: seq<Id>, at: nat, r: Repair)
    ensures r in SynthesisRepairs(ids, at) <==> r.SynthesizedResult? && r.at == at && r.id in ids
  {
    if |ids| > 0 { SynthesisIs(ids[1..], at, r); }
  }

  lemma {:induction false} MissingIff(cs: seq<Message>, i: nat, id: Id)
    requires i < |cs|
    ensures id in Missing(cs, i) <==> LacksAnswer(cs, i, id)
  {
    IdsAre(cs[i].content, id);
    IdsAre(ContentBehind(cs, i), id);
    assert NextResults(cs, i) == ResultIds(ContentBehind(cs, i));
  }

  lemma {:induction false} SynthesizedIff(cs: seq<Message>, n: nat, id: Id, p: nat)
    requires n <= |cs|
    ensures SynthesizedResult(id, p) in AnswerRepairs(cs, n) <==>
            exists i :: 0 <= i < n && |Pairing.Answered(cs, i)| == p && LacksAnswer(cs, i, id)
  {
    hide Missing, LacksAnswer, SynthesisRepairs, Extended, Inserted;
    if n > 0 {
      SynthesizedIff(cs, n - 1, id, p);
      MissingIff(cs, n - 1, id);
      SynthesisIs(Missing(cs, n - 1), |Pairing.Answered(cs, n - 1)|, SynthesizedResult(id, p));
    }
  }

  lemma {:induction false} OrphansAre(prev: seq<Id>, content: seq<ContentBlock>, at: nat, r: Repair)
    ensures r in Orphans(prev, content, at) <==>
            r.DroppedOrphan? && r.at == at && r.id !in prev && HasAnswer(content, r.id)
  {
    if |content| > 0 {
      OrphansAre(prev, content[1..], at, r);
      IdsAre(content, r.id);
      IdsAre(content[1..], r.id);
    }
  }

  lemma {:induction false} NotSynthesized(ms: seq<Message>, n: nat, id: Id, p: nat)
    requires n <= |ms|
    ensures SynthesizedResult(id, p) !in OrphanRepairs(ms, n)
  {
    hide Orphans;
    if n > 0 {
      NotSynthesized(ms, n - 1, id, p);
      OrphansAre(PreviousUses(ms, n - 1), ms[n - 1].content, n - 1, SynthesizedResult(id, p));
    }
  }

  /** Message `i` holds a result with this id, and the message before it makes no such call. */
  predicate IsOrphan(ms: seq<Message>, i: nat, id: Id) {
    i < |ms| && HasAnswer(ms[i].content, id) && !Calls(ContentBefore(ms, i), id)
  }

  lemma {:induction false} OrphansIff(ms: seq<Message>, n: nat, id: Id, i: nat)
    requires n <= |ms|
    ensures DroppedOrphan(id, i) in OrphanRepairs(ms, n) <==> i < n && IsOrphan(ms, i, id)
  {
    hide Orphans, HasAnswer, Calls, UseIds;
    if n > 0 {
      OrphansIff(ms, n - 1, id, i);
      OrphansAre(PreviousUses(ms, n - 1), ms[n - 1].content, n - 1, DroppedOrphan(id, i));
      IdsAre(ContentBefore(ms, n - 1), id);
      PreviousAre(ms, n - 1);
    }
  }

  lemma {:induction false} NotDropped(cs: seq<Message>, n: nat, id: Id, i: nat)
    requires n <= |cs|
    ensures DroppedOrphan(id, i) !in AnswerRepairs(cs, n)
  {
    hide Missing, SynthesisRepairs;
    if n > 0 {
      NotDropped(cs, n - 1, id, i);
      SynthesisIs(Missing(cs, n - 1), |Pairing.Answered(cs, n - 1)|, DroppedOrphan(id, i));
    }
  }

  /** A drop is reported exactly for the results without a call, each with its message. */
  lemma {:induction false} DroppedIff(ms: seq<Message>, id: Id, i: nat)
    ensures DroppedOrphan(id, i) in Repairs(ms) <==> IsOrphan(ms, i, id)
  {
    OrphansIff(ms, |ms|, id, i);
    NotDropped(DropOrphans(ms), |ms|, id, i);
  }
}
