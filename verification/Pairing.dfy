/**
 The pre-flight guard that repairs tool_use/tool_result pairing in an outgoing
 message list. Every tool_result must answer a tool_use of the previous message,
 and every tool_use of an assistant message must be answered by the next one.
 */
module Pairing {
  import opened Prelude
  import opened Messages

  // The wording of the two notices is abbreviated: nothing depends on it.
  const PLACEHOLDER: string := "[removed]"
  const MISSING_RESULT: string := "[missing]"

  datatype Repair =
    | DroppedOrphan(id: Id, at: nat)
    | SynthesizedResult(id: Id, at: nat)

  // ----- What a balanced thread is -----

  /** The ids a tool_result in message `i` may refer to. */
  function PreviousUses(ms: seq<Message>, i: nat): seq<Id>
    requires i < |ms|
  {
    if i == 0 then [] else UseIds(ms[i - 1].content)
  }

  function NextResults(ms: seq<Message>, i: nat): seq<Id>
    requires i < |ms|
  {
    if i + 1 < |ms| then ResultIds(ms[i + 1].content) else []
  }

  /** The calls that need an answer: only assistant messages are asked. */
  function Pending(m: Message): seq<Id> {
    if m.role == AssistantRole then UseIds(m.content) else []
  }

  ghost predicate AnswersOnly(prev: seq<Id>, m: Message) {
    forall id :: id in ResultIds(m.content) ==> id in prev
  }

  ghost predicate AnsweredBy(m: Message, next: seq<Id>) {
    forall id :: id in Pending(m) ==> id in next
  }

  ghost predicate OrphanFree(ms: seq<Message>, i: nat)
    requires i < |ms|
  {
    AnswersOnly(PreviousUses(ms, i), ms[i])
  }

  ghost predicate AnsweredAt(ms: seq<Message>, i: nat)
    requires i < |ms|
  {
    AnsweredBy(ms[i], NextResults(ms, i))
  }

  ghost predicate NoOrphans(ms: seq<Message>) {
    forall i :: 0 <= i < |ms| ==> OrphanFree(ms, i)
  }

  ghost predicate AllAnswered(ms: seq<Message>) {
    forall i :: 0 <= i < |ms| ==> AnsweredAt(ms, i)
  }

  ghost predicate Balanced(ms: seq<Message>) {
    NoOrphans(ms) && AllAnswered(ms)
  }

  lemma NothingIsBalanced()
    ensures Balanced([])
  {
  }

  // ----- Pass 1: what remains of each message -----

  predicate IsPaired(prev: seq<Id>, b: ContentBlock) {
    b.ToolResult? ==> b.toolUseId in prev
  }

  function Keep(prev: seq<Id>, content: seq<ContentBlock>): (kept: seq<ContentBlock>) {
    if content == [] then []
    else if IsPaired(prev, content[0]) then [content[0]] + Keep(prev, content[1..])
    else Keep(prev, content[1..])
  }

  /** A message that loses all its blocks gets a placeholder text. */
  function Clean(prev: seq<Id>, content: seq<ContentBlock>): seq<ContentBlock> {
    var kept := Keep(prev, content);
    if |content| > 0 && |kept| == 0 then [Text(PLACEHOLDER)] else kept
  }

  function Orphans(prev: seq<Id>, content: seq<ContentBlock>, at: nat): seq<Repair> {
    if content == [] then []
    else if IsPaired(prev, content[0]) then Orphans(prev, content[1..], at)
    else [DroppedOrphan(content[0].toolUseId, at)] + Orphans(prev, content[1..], at)
  }

  function CleanAt(ms: seq<Message>, i: nat): Message
    requires i < |ms|
  {
    Message(ms[i].role, Clean(PreviousUses(ms, i), ms[i].content))
  }

  function Cleaned(ms: seq<Message>, n: nat): (out: seq<Message>)
    requires n <= |ms|
    ensures |out| == n && forall i :: 0 <= i < n ==> out[i] == CleanAt(ms, i)
  {
    if n == 0 then [] else Cleaned(ms, n - 1) + [CleanAt(ms, n - 1)]
  }

  function DropOrphans(ms: seq<Message>): seq<Message> {
    Cleaned(ms, |ms|)
  }

  function OrphanRepairs(ms: seq<Message>, n: nat): seq<Repair>
    requires n <= |ms|
  {
    if n == 0 then []
    else OrphanRepairs(ms, n - 1) + Orphans(PreviousUses(ms, n - 1), ms[n - 1].content, n - 1)
  }

  // ----- Pass 2: the answers that are added -----

  /** The ids not among `answered`, in order. */
  function Unanswered(ids: seq<Id>, answered: seq<Id>): (missing: seq<Id>)
    ensures forall id :: id in missing <==> id in ids && id !in answered
  {
    if ids == [] then []
    else if ids[0] in answered then Unanswered(ids[1..], answered)
    else [ids[0]] + Unanswered(ids[1..], answered)
  }

  function Missing(ms: seq<Message>, i: nat): seq<Id>
    requires i < |ms|
  {
    Unanswered(Pending(ms[i]), NextResults(ms, i))
  }

  function Synthesize(ids: seq<Id>): (blocks: seq<ContentBlock>)
    ensures |blocks| == |ids|
  {
    if ids == [] then [] else [ToolResult(ids[0], MISSING_RESULT, true)] + Synthesize(ids[1..])
  }

  predicate HasResults(m: Message) {
    exists k :: 0 <= k < |m.content| && m.content[k].ToolResult?
  }

  /** Message `i` with the answers its predecessor still lacked, when it is a tool-result message. */
  function Extended(ms: seq<Message>, i: nat): Message
    requires i < |ms|
  {
    if i > 0 && HasResults(ms[i])
    then Message(ms[i].role, ms[i].content + Synthesize(Missing(ms, i - 1)))
    else ms[i]
  }

  /** The new message inserted after message `i`, if its answers have nowhere else to go. */
  function Inserted(ms: seq<Message>, i: nat): seq<Message>
    requires i < |ms|
  {
    if Missing(ms, i) != [] && !(i + 1 < |ms| && HasResults(ms[i + 1]))
    then [Message(UserRole, Synthesize(Missing(ms, i)))]
    else []
  }

  function Answered(ms: seq<Message>, n: nat): seq<Message>
    requires n <= |ms|
  {
    if n == 0 then [] else Answered(ms, n - 1) + [Extended(ms, n - 1)] + Inserted(ms, n - 1)
  }

  function SynthesisRepairs(ids: seq<Id>, at: nat): (repairs: seq<Repair>)
    ensures |repairs| == |ids|
  {
    if ids == [] then [] else [SynthesizedResult(ids[0], at)] + SynthesisRepairs(ids[1..], at)
  }

  function AnswerRepairs(ms: seq<Message>, n: nat): seq<Repair>
    requires n <= |ms|
  {
    if n == 0 then []
    else AnswerRepairs(ms, n - 1) + SynthesisRepairs(Missing(ms, n - 1), |Answered(ms, n - 1)|)
  }

  function Repaired(ms: seq<Message>): seq<Message> {
    var cleaned := DropOrphans(ms);
    Answered(cleaned, |cleaned|)
  }

  function Repairs(ms: seq<Message>): seq<Repair> {
    var cleaned := DropOrphans(ms);
    OrphanRepairs(ms, |ms|) + AnswerRepairs(cleaned, |cleaned|)
  }

  // ----- Facts about single messages -----

  lemma {:induction false} SynthesizedIds(ids: seq<Id>)
    ensures UseIds(Synthesize(ids)) == [] && ResultIds(Synthesize(ids)) == ids
  {
    if ids != [] {
      SynthesizedIds(ids[1..]);
    }
  }

  lemma {:induction false} KeepIds(prev: seq<Id>, content: seq<ContentBlock>)
    ensures UseIds(Keep(prev, content)) == UseIds(content)
    ensures forall id :: id in ResultIds(Keep(prev, content)) <==> id in ResultIds(content) && id in prev
  {
    if content != [] {
      var rest := Keep(prev, content[1..]);
      KeepIds(prev, content[1..]);
      if IsPaired(prev, content[0]) {
        assert Keep(prev, content) == [content[0]] + rest;
        assert Keep(prev, content)[1..] == rest;
      } else {
        assert Keep(prev, content) == rest;
      }
    }
  }

  lemma CleanIds(prev: seq<Id>, content: seq<ContentBlock>)
    ensures UseIds(Clean(prev, content)) == UseIds(content)
    ensures forall id :: id in ResultIds(Clean(prev, content)) <==> id in ResultIds(content) && id in prev
  {
    KeepIds(prev, content);
    var kept := Keep(prev, content);
    if |content| > 0 && |kept| == 0 {
      var notice := [Text(PLACEHOLDER)];
      assert kept == [] && notice[1..] == [];
      assert UseIds(notice) == [] && ResultIds(notice) == [];
    }
  }

  lemma {:induction false} HasResultsIds(content: seq<ContentBlock>)
    ensures (exists k :: 0 <= k < |content| && content[k].ToolResult?) <==> ResultIds(content) != []
  {
    if content != [] {
      HasResultsIds(content[1..]);
      if exists k :: 0 <= k < |content| && content[k].ToolResult? {
        var k :| 0 <= k < |content| && content[k].ToolResult?;
        if k > 0 { assert content[1..][k - 1].ToolResult?; }
      } else {
        assert forall k :: 0 <= k < |content| - 1 ==> content[1..][k] == content[k + 1];
      }
    }
  }

  lemma ExtendedIds(ms: seq<Message>, i: nat)
    requires i < |ms|
    ensures Extended(ms, i).role == ms[i].role
    ensures UseIds(Extended(ms, i).content) == UseIds(ms[i].content)
    ensures ResultIds(Extended(ms, i).content) ==
            ResultIds(ms[i].content) + (if i > 0 && HasResults(ms[i]) then Missing(ms, i - 1) else [])
  {
    if i > 0 && HasResults(ms[i]) {
      IdsAppend(ms[i].content, Synthesize(Missing(ms, i - 1)));
      SynthesizedIds(Missing(ms, i - 1));
    }
  }

  // ----- The repaired thread is balanced -----

  lemma DropOrphansLeavesNone(ms: seq<Message>)
    ensures NoOrphans(DropOrphans(ms))
  {
    var out := DropOrphans(ms);
    forall i | 0 <= i < |out|
      ensures OrphanFree(out, i)
    {
      CleanIds(PreviousUses(ms, i), ms[i].content);
      if i > 0 { CleanIds(PreviousUses(ms, i - 1), ms[i - 1].content); }
    }
  }

  function Last(ms: seq<Message>): Message
    requires ms != []
  {
    ms[|ms| - 1]
  }

  /** Every message except possibly the last is answered. */
  ghost predicate AnsweredButLast(ms: seq<Message>) {
    forall i :: 0 <= i < |ms| - 1 ==> AnsweredAt(ms, i)
  }

  lemma NoOrphansSnoc(a: seq<Message>, m: Message)
    requires NoOrphans(a)
    requires AnswersOnly(if a == [] then [] else UseIds(Last(a).content), m)
    ensures NoOrphans(a + [m])
  {
    var b := a + [m];
    forall i | 0 <= i < |b|
      ensures OrphanFree(b, i)
    {
      if i < |a| { assert OrphanFree(a, i); }
    }
  }

  lemma AnsweredSnoc(a: seq<Message>, m: Message)
    requires AnsweredButLast(a)
    requires a != [] ==> AnsweredBy(Last(a), ResultIds(m.content))
    ensures AnsweredButLast(a + [m])
  {
    var b := a + [m];
    forall i | 0 <= i < |b| - 1
      ensures AnsweredAt(b, i)
    {
      if i < |a| - 1 { assert AnsweredAt(a, i); }
    }
  }

  /** The last message of the first `n` answered ones is either the copy of message `n - 1` or a new one. */
  lemma AnsweredLast(ms: seq<Message>, n: nat)
    requires 0 < n <= |ms|
    ensures |Answered(ms, n)| > 0
    ensures |Inserted(ms, n - 1)| == 0 ==> Last(Answered(ms, n)) == Extended(ms, n - 1)
    ensures |Inserted(ms, n - 1)| > 0 ==>
              Last(Answered(ms, n)).role == UserRole && (n < |ms| ==> !HasResults(ms[n]))
  {
    hide Missing, Extended, HasResults, Synthesize;
  }

  lemma ExtendedAnswersOnly(ms: seq<Message>, k: nat)
    requires k < |ms| && OrphanFree(ms, k)
    ensures AnswersOnly(PreviousUses(ms, k), Extended(ms, k))
    ensures !HasResults(ms[k]) ==> AnswersOnly([], Extended(ms, k))
  {
    ExtendedIds(ms, k);
    HasResultsIds(ms[k].content);
  }

  lemma InsertedAnswersOnly(ms: seq<Message>, k: nat)
    requires k < |ms| && |Inserted(ms, k)| > 0
    ensures AnswersOnly(UseIds(Extended(ms, k).content), Inserted(ms, k)[0])
  {
    ExtendedIds(ms, k);
    SynthesizedIds(Missing(ms, k));
  }

  /** The copy of message `k` answers only calls of the message that now stands before it. */
  lemma ExtendedFits(ms: seq<Message>, k: nat)
    requires NoOrphans(ms) && k < |ms|
    ensures AnswersOnly(if Answered(ms, k) == [] then [] else UseIds(Last(Answered(ms, k)).content), Extended(ms, k))
  {
    hide UseIds, Missing, Synthesize, Extended, HasResults, AnswersOnly, ResultIds, Inserted, Answered;
    assert OrphanFree(ms, k);
    ExtendedAnswersOnly(ms, k);
    if k > 0 {
      AnsweredLast(ms, k);
      ExtendedIds(ms, k - 1);
      AnswersMore(UseIds(Last(Answered(ms, k)).content), Extended(ms, k));
    } else {
      NoneAnswered(ms);
    }
  }

  lemma NoneAnswered(ms: seq<Message>)
    ensures Answered(ms, 0) == []
  {
  }

  lemma AnsweredSplits(ms: seq<Message>, k: nat)
    requires k < |ms|
    ensures |Inserted(ms, k)| == 0 ==> Answered(ms, k + 1) == Answered(ms, k) + [Extended(ms, k)]
    ensures |Inserted(ms, k)| > 0 ==> Answered(ms, k + 1) == Answered(ms, k) + [Extended(ms, k)] + [Inserted(ms, k)[0]]
  {
    hide Missing, HasResults, Synthesize, Extended;
  }

  /** Pass 2 does not break what pass 1 established. */
  lemma {:induction false} AnsweredNoOrphans(ms: seq<Message>, n: nat)
    requires NoOrphans(ms) && n <= |ms|
    ensures NoOrphans(Answered(ms, n))
  {
    if n == 0 {
      NoneAnswered(ms);
    } else {
      hide NoOrphans, AnswersOnly, Answered, Extended, Inserted, UseIds;
      var k := n - 1;
      AnsweredNoOrphans(ms, k);
      var before, ext, ins := Answered(ms, k), Extended(ms, k), Inserted(ms, k);
      ExtendedFits(ms, k);
      NoOrphansSnoc(before, ext);
      AnsweredSplits(ms, k);
      if |ins| > 0 {
        InsertedAnswersOnly(ms, k);
        NoOrphansSnoc(before + [ext], ins[0]);
      }
    }
  }

  lemma AnswersMore(prev: seq<Id>, m: Message)
    ensures AnswersOnly([], m) ==> AnswersOnly(prev, m)
  {
  }

  /** A call is missing an answer or has one in the next message. */
  lemma MissingOrAnswered(ms: seq<Message>, k: nat)
    requires k < |ms|
    ensures AnsweredBy(ms[k], NextResults(ms, k) + Missing(ms, k))
    ensures Missing(ms, k) == [] ==> AnsweredAt(ms, k)
  {
    forall id | id in Pending(ms[k])
      ensures id in NextResults(ms, k) || id in Missing(ms, k)
    {
    }
  }

  /** What message `k` still waits for when message `k + 1` comes to be extended. */
  lemma ExtendedAnswers(ms: seq<Message>, k: nat)
    requires k + 1 < |ms| && |Inserted(ms, k)| == 0
    ensures AnsweredBy(Extended(ms, k), ResultIds(Extended(ms, k + 1).content))
  {
    ExtendedIds(ms, k);
    ExtendedIds(ms, k + 1);
    MissingOrAnswered(ms, k);
  }

  lemma InsertedAnswers(ms: seq<Message>, k: nat)
    requires k < |ms| && |Inserted(ms, k)| > 0
    ensures AnsweredBy(Extended(ms, k), ResultIds(Inserted(ms, k)[0].content))
  {
    ExtendedIds(ms, k);
    MissingOrAnswered(ms, k);
    SynthesizedIds(Missing(ms, k));
    if k + 1 < |ms| { HasResultsIds(ms[k + 1].content); }
    assert NextResults(ms, k) == [];
  }

  lemma {:induction false} AnsweredAnswers(ms: seq<Message>, n: nat)
    requires n <= |ms|
    ensures AnsweredButLast(Answered(ms, n))
    ensures n == |ms| && n > 0 ==> Pending(Last(Answered(ms, n))) == []
  {
    if n > 0 {
      var k := n - 1;
      AnsweredAnswers(ms, k);
      var before, ext, ins := Answered(ms, k), Extended(ms, k), Inserted(ms, k);
      if k > 0 {
        AnsweredLast(ms, k);
        if |Inserted(ms, k - 1)| == 0 { ExtendedAnswers(ms, k - 1); }
      }
      AnsweredSnoc(before, ext);
      AnsweredLast(ms, n);
      if |ins| > 0 {
        InsertedAnswers(ms, k);
        AnsweredSnoc(before + [ext], ins[0]);
        assert Answered(ms, n) == before + [ext] + [ins[0]];
      } else {
        assert Answered(ms, n) == before + [ext];
        if n == |ms| {
          ExtendedIds(ms, k);
          MissingOrAnswered(ms, k);
        }
      }
    }
  }

  /** Every thread is balanced after the repair. */
  lemma RepairedIsBalanced(ms: seq<Message>)
    ensures Balanced(Repaired(ms))
  {
    var cleaned := DropOrphans(ms);
    DropOrphansLeavesNone(ms);
    AnsweredNoOrphans(cleaned, |ms|);
    AnsweredAnswers(cleaned, |ms|);
    var out := Repaired(ms);
    forall i | 0 <= i < |out|
      ensures AnsweredAt(out, i)
    {
      if i == |out| - 1 { assert out[i] == Last(out); }
    }
  }

  // ----- No repairs exactly on balanced threads -----

  lemma {:induction false} KeptOrDropped(prev: seq<Id>, content: seq<ContentBlock>, at: nat)
    ensures |Orphans(prev, content, at)| + |Keep(prev, content)| == |content|
  {
    if content != [] { KeptOrDropped(prev, content[1..], at); }
  }

  lemma {:induction false} DropsNone(prev: seq<Id>, content: seq<ContentBlock>, at: nat)
    requires |Orphans(prev, content, at)| == 0
    ensures forall id :: id in ResultIds(content) ==> id in prev
    ensures Clean(prev, content) == content
  {
    if content != [] {
      DropsNone(prev, content[1..], at);
      KeptOrDropped(prev, content[1..], at);
      assert content == [content[0]] + content[1..];
    }
  }

  lemma {:induction false} PairedDropsNone(prev: seq<Id>, content: seq<ContentBlock>, at: nat)
    requires forall id :: id in ResultIds(content) ==> id in prev
    ensures |Orphans(prev, content, at)| == 0
  {
    if content != [] { PairedDropsNone(prev, content[1..], at); }
  }

  /** Tool results dropped from the first `n` messages. */
  function Dropped(ms: seq<Message>, n: nat): nat
    requires n <= |ms|
  {
    if n == 0 then 0
    else Dropped(ms, n - 1) + |Orphans(PreviousUses(ms, n - 1), ms[n - 1].content, n - 1)|
  }

  /** Calls of the first `n` messages that lack an answer. */
  function Unmet(ms: seq<Message>, n: nat): nat
    requires n <= |ms|
  {
    if n == 0 then 0 else Unmet(ms, n - 1) + |Missing(ms, n - 1)|
  }

  lemma {:induction false} RepairLengths(ms: seq<Message>, n: nat)
    requires n <= |ms|
    ensures |OrphanRepairs(ms, n)| == Dropped(ms, n) && |AnswerRepairs(ms, n)| == Unmet(ms, n)
  {
    if n > 0 { RepairLengths(ms, n - 1); }
  }

  lemma {:induction false} NoneDropped(ms: seq<Message>, n: nat)
    requires n <= |ms| && Dropped(ms, n) == 0
    ensures forall i :: 0 <= i < n ==> OrphanFree(ms, i) && CleanAt(ms, i) == ms[i]
  {
    hide Orphans, Keep, Clean, ResultIds, UseIds, PreviousUses;
    if n > 0 {
      NoneDropped(ms, n - 1);
      DropsNone(PreviousUses(ms, n - 1), ms[n - 1].content, n - 1);
      assert OrphanFree(ms, n - 1) && CleanAt(ms, n - 1) == ms[n - 1];
    }
  }

  lemma {:induction false} OrphanFreeDropsNone(ms: seq<Message>, n: nat)
    requires n <= |ms| && forall i :: 0 <= i < n ==> OrphanFree(ms, i)
    ensures Dropped(ms, n) == 0
  {
    if n > 0 {
      OrphanFreeDropsNone(ms, n - 1);
      assert OrphanFree(ms, n - 1);
      PairedDropsNone(PreviousUses(ms, n - 1), ms[n - 1].content, n - 1);
    }
  }

  lemma MissingEmpty(ms: seq<Message>, k: nat)
    requires k < |ms|
    ensures |Missing(ms, k)| == 0 <==> AnsweredAt(ms, k)
  {
    MissingOrAnswered(ms, k);
    if |Missing(ms, k)| > 0 { assert Missing(ms, k)[0] in Missing(ms, k); }
  }

  lemma {:induction false} NoneUnmet(ms: seq<Message>, n: nat)
    requires n <= |ms| && Unmet(ms, n) == 0
    ensures forall i :: 0 <= i < n ==> AnsweredAt(ms, i)
  {
    hide AnsweredAt, Missing;
    if n > 0 {
      NoneUnmet(ms, n - 1);
      MissingEmpty(ms, n - 1);
    }
  }

  lemma NothingOwed(ms: seq<Message>, k: nat)
    requires k < |ms| && |Missing(ms, k)| == 0
    ensures |Inserted(ms, k)| == 0
    ensures k + 1 < |ms| ==> Extended(ms, k + 1) == ms[k + 1]
  {
    hide Missing, HasResults;
    if k + 1 < |ms| { assert ms[k + 1].content + [] == ms[k + 1].content; }
  }

  lemma {:induction false} AnsweredUnmetNone(ms: seq<Message>, n: nat)
    requires n <= |ms| && forall i :: 0 <= i < n ==> AnsweredAt(ms, i)
    ensures Unmet(ms, n) == 0
    ensures Answered(ms, n) == ms[..n]
  {
    hide AnsweredAt, Missing, Extended, Inserted;
    if n > 0 {
      AnsweredUnmetNone(ms, n - 1);
      assert AnsweredAt(ms, n - 1);
      MissingEmpty(ms, n - 1);
      NothingOwed(ms, n - 1);
      if n > 1 {
        assert AnsweredAt(ms, n - 2);
        MissingEmpty(ms, n - 2);
        NothingOwed(ms, n - 2);
      } else {
        FirstUnextended(ms);
      }
      assert ms[..n] == ms[..n - 1] + [ms[n - 1]];
    }
  }

  lemma FirstUnextended(ms: seq<Message>)
    requires |ms| > 0
    ensures Extended(ms, 0) == ms[0]
  {
  }

  /** The guard reports nothing exactly on balanced threads, and then changes nothing. */
  lemma NoRepairsIffBalanced(ms: seq<Message>)
    ensures Repairs(ms) == [] <==> Balanced(ms)
    ensures Balanced(ms) ==> Repaired(ms) == ms
  {
    assert ms[..|ms|] == ms;
    RepairLengths(ms, |ms|);
    RepairLengths(DropOrphans(ms), |ms|);
    assert |Repairs(ms)| == Dropped(ms, |ms|) + Unmet(DropOrphans(ms), |ms|);
    if |Repairs(ms)| == 0 {
      NoneDropped(ms, |ms|);
      assert DropOrphans(ms) == ms;
      NoneUnmet(ms, |ms|);
    }
    if Balanced(ms) {
      OrphanFreeDropsNone(ms, |ms|);
      NoneDropped(ms, |ms|);
      assert DropOrphans(ms) == ms;
      AnsweredUnmetNone(ms, |ms|);
    }
  }

  lemma RepairIsIdempotent(ms: seq<Message>)
    ensures Repaired(Repaired(ms)) == Repaired(ms) && Repairs(Repaired(ms)) == []
  {
    RepairedIsBalanced(ms);
    NoRepairsIffBalanced(Repaired(ms));
  }

  // ----- What the repair keeps -----

  function Blocks(ms: seq<Message>): seq<ContentBlock> {
    if ms == [] then [] else ms[0].content + Blocks(ms[1..])
  }

  /** All non-result blocks and all paired results of the first `n` messages. */
  function KeptBlocks(ms: seq<Message>, n: nat): seq<ContentBlock>
    requires n <= |ms|
  {
    if n == 0 then [] else KeptBlocks(ms, n - 1) + Keep(PreviousUses(ms, n - 1), ms[n - 1].content)
  }

  function EmptiedBy(prev: seq<Id>, content: seq<ContentBlock>): nat {
    if |content| > 0 && |Keep(prev, content)| == 0 then 1 else 0
  }

  /** Messages among the first `n` that lose every block. */
  function Emptied(ms: seq<Message>, n: nat): nat
    requires n <= |ms|
  {
    if n == 0 then 0 else Emptied(ms, n - 1) + EmptiedBy(PreviousUses(ms, n - 1), ms[n - 1].content)
  }

  lemma {:induction false} BlocksAppend(a: seq<Message>, b: seq<Message>)
    ensures Blocks(a + b) == Blocks(a) + Blocks(b)
  {
    if a == [] {
      assert a + b == b;
    } else {
      assert (a + b)[1..] == a[1..] + b;
      BlocksAppend(a[1..], b);
    }
  }

  lemma BlocksSnoc(a: seq<Message>, m: Message)
    ensures Blocks(a + [m]) == Blocks(a) + m.content
  {
    BlocksAppend(a, [m]);
    assert Blocks([m]) == m.content + Blocks([]);
  }

  /** Answers already reported that go into message `n`. */
  function Owed(ms: seq<Message>, n: nat): nat
    requires n <= |ms|
  {
    if 0 < n < |ms| && HasResults(ms[n]) then |Missing(ms, n - 1)| else 0
  }

  /** The blocks of message `k` open its extension, and the additions are the answers it owes. */
  lemma ExtendedBlocks(ms: seq<Message>, k: nat)
    requires k < |ms|
    ensures |Extended(ms, k).content| == |ms[k].content| + Owed(ms, k)
    ensures Subsequence(ms[k].content, Extended(ms, k).content)
  {
    SubsequenceSelf(ms[k].content);
    if k > 0 && HasResults(ms[k]) {
      SubsequencePad(ms[k].content, ms[k].content, Synthesize(Missing(ms, k - 1)));
    }
  }

  /** The answers to message `k` are inserted after it or owed by the next message. */
  lemma InsertedBlocks(ms: seq<Message>, k: nat)
    requires k < |ms|
    ensures |Blocks(Inserted(ms, k))| + Owed(ms, k + 1) == |Missing(ms, k)|
  {
    var ids := Missing(ms, k);
    if |Inserted(ms, k)| > 0 {
      assert Blocks(Inserted(ms, k)) == Synthesize(ids) + [];
    }
  }

  /** One more message in: `x` grows to `y`, and `z` goes in behind it. */
  lemma SubsequenceStep<T>(a: seq<T>, out: seq<T>, x: seq<T>, y: seq<T>, z: seq<T>)
    requires Subsequence(a, out) && Subsequence(x, y)
    ensures Subsequence(a + x, out + y + z)
  {
    hide Subsequence;
    SubsequenceAppend(a, out, x, y);
    SubsequencePad(a + x, out + y, z);
  }

  lemma AnsweredBlocks(ms: seq<Message>, k: nat)
    requires k < |ms|
    ensures Blocks(Answered(ms, k + 1)) == Blocks(Answered(ms, k)) + Extended(ms, k).content + Blocks(Inserted(ms, k))
    ensures Unmet(ms, k + 1) == Unmet(ms, k) + |Missing(ms, k)|
    ensures Blocks(ms[..k + 1]) == Blocks(ms[..k]) + ms[k].content
  {
    hide Extended, Inserted, Missing, Blocks;
    BlocksSnoc(Answered(ms, k), Extended(ms, k));
    BlocksAppend(Answered(ms, k) + [Extended(ms, k)], Inserted(ms, k));
    BlocksSnoc(ms[..k], ms[k]);
    assert ms[..k + 1] == ms[..k] + [ms[k]];
  }

  lemma {:induction false} AnsweredKeeps(ms: seq<Message>, n: nat)
    requires n <= |ms|
    ensures Subsequence(Blocks(ms[..n]), Blocks(Answered(ms, n)))
    ensures |Blocks(Answered(ms, n))| + Owed(ms, n) == |Blocks(ms[..n])| + Unmet(ms, n)
  {
    if n > 0 {
      hide Extended, Inserted, Missing, Owed, Unmet, Subsequence, Blocks, Answered;
      var k := n - 1;
      AnsweredKeeps(ms, k);
      ExtendedBlocks(ms, k);
      InsertedBlocks(ms, k);
      AnsweredBlocks(ms, k);
      SubsequenceStep(Blocks(ms[..k]), Blocks(Answered(ms, k)), ms[k].content, Extended(ms, k).content,
                      Blocks(Inserted(ms, k)));
    }
  }

  lemma CleanKeeps(prev: seq<Id>, content: seq<ContentBlock>)
    ensures Subsequence(Keep(prev, content), Clean(prev, content))
    ensures |Clean(prev, content)| == |Keep(prev, content)| + EmptiedBy(prev, content)
  {
    SubsequenceSelf(Keep(prev, content));
  }

  lemma CleanedBlocks(ms: seq<Message>, k: nat)
    requires k < |ms|
    ensures Blocks(Cleaned(ms, k + 1)) == Blocks(Cleaned(ms, k)) + Clean(PreviousUses(ms, k), ms[k].content)
    ensures KeptBlocks(ms, k + 1) == KeptBlocks(ms, k) + Keep(PreviousUses(ms, k), ms[k].content)
    ensures Emptied(ms, k + 1) == Emptied(ms, k) + EmptiedBy(PreviousUses(ms, k), ms[k].content)
  {
    hide Keep, Clean, PreviousUses, EmptiedBy, Blocks;
    BlocksSnoc(Cleaned(ms, k), CleanAt(ms, k));
  }

  lemma {:induction false} CleaningKeeps(ms: seq<Message>, n: nat)
    requires n <= |ms|
    ensures Subsequence(KeptBlocks(ms, n), Blocks(Cleaned(ms, n)))
    ensures |Blocks(Cleaned(ms, n))| == |KeptBlocks(ms, n)| + Emptied(ms, n)
  {
    if n > 0 {
      hide Keep, Clean, Subsequence, PreviousUses, EmptiedBy, Blocks, Cleaned, KeptBlocks, Emptied;
      var k := n - 1;
      var prev := PreviousUses(ms, k);
      CleaningKeeps(ms, k);
      CleanedBlocks(ms, k);
      CleanKeeps(prev, ms[k].content);
      SubsequenceAppend(KeptBlocks(ms, k), Blocks(Cleaned(ms, k)), Keep(prev, ms[k].content),
                        Clean(prev, ms[k].content));
    }
  }

  lemma {:induction false} KeptAndDropped(ms: seq<Message>, n: nat)
    requires n <= |ms|
    ensures |KeptBlocks(ms, n)| + Dropped(ms, n) == |Blocks(ms[..n])|
  {
    if n > 0 {
      var k := n - 1;
      KeptAndDropped(ms, k);
      assert ms[..n] == ms[..k] + [ms[k]];
      BlocksSnoc(ms[..k], ms[k]);
      KeptOrDropped(PreviousUses(ms, k), ms[k].content, k);
    }
  }

  lemma {:induction false} SubsequenceTrans<T>(a: seq<T>, b: seq<T>, c: seq<T>)
    requires Subsequence(a, b) && Subsequence(b, c)
    ensures Subsequence(a, c)
    decreases |c|
  {
    if a != [] {
      if b[0] == c[0] && Subsequence(b[1..], c[1..]) {
        if a[0] == b[0] && Subsequence(a[1..], b[1..]) {
          SubsequenceTrans(a[1..], b[1..], c[1..]);
        } else {
          SubsequenceTrans(a, b[1..], c[1..]);
        }
      } else {
        SubsequenceTrans(a, b, c[1..]);
      }
    }
  }

  /**
   Conservation: the paired blocks survive in their order, and the sizes add up:
   one repair per block dropped or synthesized, one placeholder per emptied message.
   */
  lemma RepairConserves(ms: seq<Message>)
    ensures Subsequence(KeptBlocks(ms, |ms|), Blocks(Repaired(ms)))
    ensures var dropped := |Blocks(ms)| - |KeptBlocks(ms, |ms|)|;
            var synthesized := |Blocks(Repaired(ms))| - |KeptBlocks(ms, |ms|)| - Emptied(ms, |ms|);
            dropped >= 0 && synthesized >= 0 && |Repairs(ms)| == dropped + synthesized
  {
    var cleaned := DropOrphans(ms);
    assert ms[..|ms|] == ms;
    RepairLengths(ms, |ms|);
    RepairLengths(cleaned, |ms|);
    CleaningKeeps(ms, |ms|);
    KeptAndDropped(ms, |ms|);
    AnsweredKeeps(cleaned, |ms|);
    assert cleaned[..|ms|] == cleaned;
    SubsequenceTrans(KeptBlocks(ms, |ms|), Blocks(cleaned), Blocks(Repaired(ms)));
  }

  /** An answer the guard makes up: always an error, and only for a call of the thread. */
  predicate IsSynthesized(b: ContentBlock) {
    b.ToolResult? && b.isError && b.content == MISSING_RESULT
  }

  lemma {:induction false} SynthesizedBlocks(ids: seq<Id>)
    ensures forall b :: b in Synthesize(ids) ==> IsSynthesized(b) && b.toolUseId in ids
  {
    if ids != [] { SynthesizedBlocks(ids[1..]); }
  }

  lemma {:induction false} KeepInvents(prev: seq<Id>, content: seq<ContentBlock>)
    ensures forall b :: b in Keep(prev, content) ==> b in content
  {
    if content != [] { KeepInvents(prev, content[1..]); }
  }

  lemma {:induction false} CleaningInvents(ms: seq<Message>, n: nat)
    requires n <= |ms|
    ensures forall b :: b in Blocks(Cleaned(ms, n)) ==> b in Blocks(ms[..n]) || b == Text(PLACEHOLDER)
  {
    if n > 0 {
      hide Keep, PreviousUses;
      var k := n - 1;
      CleaningInvents(ms, k);
      KeepInvents(PreviousUses(ms, k), ms[k].content);
      BlocksSnoc(Cleaned(ms, k), CleanAt(ms, k));
      BlocksSnoc(ms[..k], ms[k]);
      assert ms[..n] == ms[..k] + [ms[k]];
    }
  }

  lemma AdditionsInvent(ms: seq<Message>, k: nat)
    requires k < |ms|
    ensures forall b :: b in Extended(ms, k).content ==> b in ms[k].content || IsSynthesized(b)
    ensures |Inserted(ms, k)| > 0 ==> forall b :: b in Inserted(ms, k)[0].content ==> IsSynthesized(b)
  {
    hide Missing, HasResults, IsSynthesized;
    if k > 0 { SynthesizedBlocks(Missing(ms, k - 1)); }
    SynthesizedBlocks(Missing(ms, k));
  }

  lemma {:induction false} AnsweringInvents(ms: seq<Message>, n: nat)
    requires n <= |ms|
    ensures forall b :: b in Blocks(Answered(ms, n)) ==> b in Blocks(ms[..n]) || IsSynthesized(b)
  {
    if n == 0 {
      NoneAnswered(ms);
    } else {
      hide Answered, Extended, Inserted, Blocks, IsSynthesized;
      var k := n - 1;
      AnsweringInvents(ms, k);
      AdditionsInvent(ms, k);
      AnsweredBlocks(ms, k);
    }
  }

  /** The repair makes up nothing but placeholders and error answers; no call is ever reported as a success. */
  lemma RepairInventsOnlyErrors(ms: seq<Message>)
    ensures forall b :: b in Blocks(Repaired(ms)) ==> b in Blocks(ms) || b == Text(PLACEHOLDER) || IsSynthesized(b)
  {
    var cleaned := DropOrphans(ms);
    CleaningInvents(ms, |ms|);
    AnsweringInvents(cleaned, |ms|);
    assert ms[..|ms|] == ms && cleaned[..|ms|] == cleaned;
  }

  // ----- The in-place passes -----

  /** `Vec::retain` with the closure that records each dropped result. */
  method RetainPaired(prev: seq<Id>, content: seq<ContentBlock>, at: nat)
    returns (kept: seq<ContentBlock>, repairs: seq<Repair>)
    ensures kept == Keep(prev, content)
    ensures repairs == Orphans(prev, content, at)
  {
    kept, repairs := [], [];
    var k := 0;
    while k < |content|
      invariant 0 <= k <= |content|
      invariant kept + Keep(prev, content[k..]) == Keep(prev, content)
      invariant repairs + Orphans(prev, content[k..], at) == Orphans(prev, content, at)
    {
      assert content[k..][1..] == content[k + 1..];
      if IsPaired(prev, content[k]) {
        kept := kept + [content[k]];
      } else {
        repairs := repairs + [DroppedOrphan(content[k].toolUseId, at)];
      }
      k := k + 1;
    }
  }

  /** Pass 1, in place. The previous message has been cleaned already; its calls are all still there. */
  method DropOrphanResults(input: seq<Message>) returns (messages: seq<Message>, repairs: seq<Repair>)
    ensures messages == DropOrphans(input) && repairs == OrphanRepairs(input, |input|)
  {
    hide UseIds, ResultIds, Keep, Orphans;
    messages, repairs := input, [];
    var i := 0;
    while i < |messages|
      invariant 0 <= i <= |messages| == |input|
      invariant forall k :: 0 <= k < i ==> messages[k] == CleanAt(input, k)
      invariant forall k :: i <= k < |input| ==> messages[k] == input[k]
      invariant repairs == OrphanRepairs(input, i)
    {
      var prevIds := PreviousUses(messages, i);
      if i > 0 { CleanIds(PreviousUses(input, i - 1), input[i - 1].content); }
      var kept, dropped := RetainPaired(prevIds, messages[i].content, i);
      repairs := repairs + dropped;
      if |messages[i].content| > 0 && |kept| == 0 { kept := [Text(PLACEHOLDER)]; }
      messages := messages[i := Message(messages[i].role, kept)];
      i := i + 1;
    }
    assert messages == DropOrphans(input);
  }

  /** What the list holds from message `j` on when pass 2 gets there. */
  function Tail(ms: seq<Message>, j: nat): (rest: seq<Message>)
    requires j <= |ms|
    ensures |rest| == |ms| - j
  {
    if j == |ms| then [] else [Extended(ms, j)] + ms[j + 1..]
  }

  lemma FirstAndLastTail(ms: seq<Message>)
    ensures Answered(ms, 0) == [] && Tail(ms, 0) == ms && Tail(ms, |ms|) == [] && AnswerRepairs(ms, 0) == []
  {
    if |ms| > 0 { assert ms == [ms[0]] + ms[1..]; }
  }

  lemma NothingAdded(ms: seq<Message>, j: nat)
    requires j < |ms| && |Missing(ms, j)| == 0
    ensures Answered(ms, j + 1) + Tail(ms, j + 1) == Answered(ms, j) + Tail(ms, j)
    ensures |Answered(ms, j + 1)| == |Answered(ms, j)| + 1
    ensures AnswerRepairs(ms, j + 1) == AnswerRepairs(ms, j)
  {
    hide Missing, Extended, Inserted, AnswerRepairs, SynthesisRepairs;
    NothingOwed(ms, j);
    NothingReported(ms, j);
    var done, ext, rest := Answered(ms, j), Extended(ms, j), ms[j + 1..];
    assert Answered(ms, j + 1) == done + [ext];
    if j + 1 < |ms| { assert rest == [ms[j + 1]] + ms[j + 2..]; }
    assert Tail(ms, j + 1) == rest && Tail(ms, j) == [ext] + rest;
    assert done + [ext] + rest == done + ([ext] + rest);
  }

  lemma NothingReported(ms: seq<Message>, j: nat)
    requires j < |ms| && |Missing(ms, j)| == 0
    ensures AnswerRepairs(ms, j + 1) == AnswerRepairs(ms, j)
  {
    hide Missing, Answered;
  }

  lemma NextExtended(ms: seq<Message>, j: nat)
    requires j + 1 < |ms| && |Missing(ms, j)| > 0 && HasResults(ms[j + 1])
    ensures Answered(ms, j + 1) + Tail(ms, j + 1)
            == Answered(ms, j) + [Extended(ms, j)] + [Extended(ms, j + 1)] + ms[j + 2..]
    ensures Extended(ms, j + 1) == Message(ms[j + 1].role, ms[j + 1].content + Synthesize(Missing(ms, j)))
    ensures |Answered(ms, j + 1)| == |Answered(ms, j)| + 1
    ensures AnswerRepairs(ms, j + 1) == AnswerRepairs(ms, j) + SynthesisRepairs(Missing(ms, j), |Answered(ms, j)|)
  {
    hide Missing, HasResults, Synthesize, SynthesisRepairs;
    assert Answered(ms, j + 1) == Answered(ms, j) + [Extended(ms, j)];
  }

  lemma NewInserted(ms: seq<Message>, j: nat)
    requires j < |ms| && |Missing(ms, j)| > 0 && !(j + 1 < |ms| && HasResults(ms[j + 1]))
    ensures Answered(ms, j + 1) + Tail(ms, j + 1)
            == Answered(ms, j) + [Extended(ms, j)] + [Message(UserRole, Synthesize(Missing(ms, j)))] + ms[j + 1..]
    ensures |Answered(ms, j + 1)| == |Answered(ms, j)| + 2
    ensures AnswerRepairs(ms, j + 1) == AnswerRepairs(ms, j) + SynthesisRepairs(Missing(ms, j), |Answered(ms, j)|)
  {
    hide Missing;
    if j + 1 < |ms| { assert ms[j + 1..] == [ms[j + 1]] + ms[j + 2..]; }
  }

  /** At message `j` the list shows the calls and the next results of the original. */
  lemma TailView(ms: seq<Message>, j: nat, messages: seq<Message>, i: nat)
    requires j < |ms| && messages == Answered(ms, j) + Tail(ms, j) && i == |Answered(ms, j)|
    ensures i < |messages| && messages[..i + 1] == Answered(ms, j) + [Extended(ms, j)]
    ensures messages[i + 1..] == ms[j + 1..]
    ensures i + 1 < |messages| <==> j + 1 < |ms|
    ensures j + 1 < |ms| ==> messages[i + 1] == ms[j + 1] && messages[i + 2..] == ms[j + 2..]
    ensures Unanswered(Pending(messages[i]), NextResults(messages, i)) == Missing(ms, j)
    ensures |Pending(messages[i])| == 0 ==> |Missing(ms, j)| == 0
  {
    hide *;
    TailCut(ms, j, messages, i);
    AsksTheSame(ms, j, messages, i);
  }

  lemma TailCut(ms: seq<Message>, j: nat, messages: seq<Message>, i: nat)
    requires j < |ms| && messages == Answered(ms, j) + Tail(ms, j) && i == |Answered(ms, j)|
    ensures i < |messages| && messages[i] == Extended(ms, j)
    ensures messages[..i + 1] == Answered(ms, j) + [Extended(ms, j)]
    ensures messages[i + 1..] == ms[j + 1..]
    ensures i + 1 < |messages| <==> j + 1 < |ms|
    ensures j + 1 < |ms| ==> messages[i + 1] == ms[j + 1] && messages[i + 2..] == ms[j + 2..]
  {
    hide Answered, Extended;
    var done, ext, rest := Answered(ms, j), Extended(ms, j), ms[j + 1..];
    assert messages == done + ([ext] + rest);
    assert messages[i + 1..] == rest;
    if j + 1 < |ms| {
      assert messages[i + 1] == messages[i + 1..][0] && ms[j + 1] == rest[0];
      assert messages[i + 2..] == messages[i + 1..][1..] && ms[j + 2..] == rest[1..];
    }
  }

  lemma AsksTheSame(ms: seq<Message>, j: nat, messages: seq<Message>, i: nat)
    requires j < |ms| && i < |messages| && messages[i] == Extended(ms, j)
    requires i + 1 < |messages| <==> j + 1 < |ms|
    requires j + 1 < |ms| ==> messages[i + 1] == ms[j + 1]
    ensures Unanswered(Pending(messages[i]), NextResults(messages, i)) == Missing(ms, j)
    ensures |Pending(messages[i])| == 0 ==> |Missing(ms, j)| == 0
  {
    ExtendedIds(ms, j);
    hide Extended, UseIds, ResultIds;
  }

  /** Pass 2, in place: it inserts into the list it walks, and passes over what it inserted. */
  method AnswerPending(ms: seq<Message>) returns (messages: seq<Message>, repairs: seq<Repair>)
    ensures messages == Answered(ms, |ms|) && repairs == AnswerRepairs(ms, |ms|)
  {
    hide Answered, Tail, AnswerRepairs, Extended, Missing, UseIds, ResultIds;
    hide Synthesize, SynthesisRepairs, Unanswered, NextResults, HasResults;
    messages, repairs := ms, [];
    var i := 0;
    // `j` counts the original messages behind the cursor; `onNew` holds while it stands on an inserted one.
    ghost var j: nat, onNew := 0, false;
    FirstAndLastTail(ms);
    while i < |messages|
      invariant 0 <= i <= |messages| && j <= |ms|
      invariant messages == Answered(ms, j) + Tail(ms, j)
      invariant i == |Answered(ms, j)| - (if onNew then 1 else 0)
      invariant onNew ==> i < |messages| && messages[i].role == UserRole
      invariant repairs == AnswerRepairs(ms, j)
      decreases |ms| - j, onNew
    {
      ghost var inserting := false;
      if !onNew { TailView(ms, j, messages, i); }
      var pending := Pending(messages[i]);
      var missing := if |pending| > 0 then Unanswered(pending, NextResults(messages, i)) else [];
      if |missing| > 0 {
        repairs := repairs + SynthesisRepairs(missing, i);
        if i + 1 < |messages| && HasResults(messages[i + 1]) {
          NextExtended(ms, j);
          var extended := Message(messages[i + 1].role, messages[i + 1].content + Synthesize(missing));
          messages := messages[..i + 1] + [extended] + messages[i + 2..];
        } else {
          NewInserted(ms, j);
          inserting := true;
          messages := messages[..i + 1] + [Message(UserRole, Synthesize(missing))] + messages[i + 1..];
        }
      } else if !onNew {
        NothingAdded(ms, j);
      }
      if !onNew { j := j + 1; }
      onNew := inserting;
      i := i + 1;
    }
  }

  /** Both passes, editing the outgoing list in place. */
  method SanitizeToolPairing(input: seq<Message>) returns (messages: seq<Message>, repairs: seq<Repair>)
    ensures messages == Repaired(input) && repairs == Repairs(input)
    ensures Balanced(messages)
    ensures repairs == [] <==> Balanced(input)
    ensures repairs == [] ==> messages == input
  {
    messages, repairs := DropOrphanResults(input);
    var synthesized;
    messages, synthesized := AnswerPending(messages);
    repairs := repairs + synthesized;
    RepairedIsBalanced(input);
    NoRepairsIffBalanced(input);
  }
}
