/**
 What one turn leaves behind and what comes next, told from the reply, the verdict and the limits:
 which blocks of the reply become calls, what stands behind the exchange, and when the agent goes on.
 */
module TurnOutcome {
  import opened Prelude
  import opened Messages
  import opened History
  import Compaction
  import Execution
  import Pairing
  import opened Sessions

  // ----- The reply -----

  /** `at` lists the positions of the calls in the reply. */
  ghost predicate CallsAt(content: seq<ContentBlock>, at: seq<nat>) {
    Increasing(at) && forall i: nat :: i in at <==> i < |content| && content[i].ToolUse?
  }

  /** `uses` records the first calls of the reply. */
  ghost predicate RecordsCalls(content: seq<ContentBlock>, at: seq<nat>, uses: seq<RecordedToolUse>) {
    && |uses| <= |at| && (forall k :: 0 <= k < |at| ==> at[k] < |content| && content[at[k]].ToolUse?)
    && forall k :: 0 <= k < |uses| ==>
         var block := content[at[k]]; uses[k] == RecordedToolUse(block.id, block.name, block.input)
  }

  lemma {:induction false} ToolUsesSnoc(content: seq<ContentBlock>, block: ContentBlock)
    ensures ToolUses(content + [block])
            == ToolUses(content) + if block.ToolUse? then [RecordedToolUse(block.id, block.name, block.input)] else []
    ensures Texts(content + [block]) == Texts(content) + if block.Text? then [block.text] else []
  {
    if |content| == 0 {
      assert content + [block] == [block] && [block][1..] == [];
    } else {
      assert (content + [block])[1..] == content[1..] + [block];
      ToolUsesSnoc(content[1..], block);
    }
  }

  /** Every call of the reply is recorded, in order, and nothing else. */
  lemma {:induction false} ToolUsesAre(content: seq<ContentBlock>) returns (at: seq<nat>)
    ensures CallsAt(content, at) && RecordsCalls(content, at, ToolUses(content)) && |ToolUses(content)| == |at|
  {
    if |content| == 0 {
      at := [];
    } else {
      var n := |content| - 1;
      var before, block := content[..n], content[n];
      at := ToolUsesAre(before);
      assert content == before + [block];
      ToolUsesSnoc(before, block);
      if block.ToolUse? {
        IncreasingSnoc(at, n);
        at := at + [n];
      }
    }
  }

  /** `parts` stand in `text` one behind the other, with a newline between any two. */
  ghost predicate JoinedAt(text: string, parts: seq<string>, at: seq<nat>) {
    && |at| == |parts| > 0 && at[0] == 0
    && (forall k :: 0 <= k < |at| ==> PartAt(text, parts, at, k))
    && (forall k :: 0 < k < |at| ==> NewlineBefore(text, parts, at, k))
    && |text| == at[|at| - 1] + |parts[|at| - 1]|
  }

  function MovedBy(at: seq<nat>, gap: nat): (out: seq<nat>)
    ensures |out| == |at| && forall k :: 0 <= k < |at| ==> out[k] == at[k] + gap
  {
    if |at| == 0 then [] else [at[0] + gap] + MovedBy(at[1..], gap)
  }

  ghost predicate PartAt(text: string, parts: seq<string>, at: seq<nat>, k: nat)
    requires k < |at| == |parts|
  {
    at[k] + |parts[k]| <= |text| && text[at[k]..at[k] + |parts[k]|] == parts[k]
  }

  ghost predicate NewlineBefore(text: string, parts: seq<string>, at: seq<nat>, k: nat)
    requires 0 < k < |at| == |parts|
  {
    at[k] == at[k - 1] + |parts[k - 1]| + 1 && at[k] <= |text| && text[at[k] - 1] == '\n'
  }

  /** One part more in front. */
  lemma {:induction false} PartMoves(first: string, rest: string, parts: seq<string>, at: seq<nat>, k: nat)
    requires k < |at| == |parts| && PartAt(rest, parts, at, k)
    ensures PartAt(first + "\n" + rest, [first] + parts, [0] + MovedBy(at, |first| + 1), k + 1)
  {
    var text, now := first + "\n" + rest, [0] + MovedBy(at, |first| + 1);
    assert text[|first| + 1..] == rest;
    assert text[now[k + 1]..now[k + 1] + |parts[k]|] == rest[at[k]..at[k] + |parts[k]|];
  }

  lemma {:induction false} NewlineMoves(first: string, rest: string, parts: seq<string>, at: seq<nat>, k: nat)
    requires 0 < k < |at| == |parts| && NewlineBefore(rest, parts, at, k)
    ensures NewlineBefore(first + "\n" + rest, [first] + parts, [0] + MovedBy(at, |first| + 1), k + 1)
  {
  }

  lemma {:induction false} JoinIs(parts: seq<string>) returns (at: seq<nat>)
    requires |parts| > 0
    ensures JoinedAt(JoinLines(parts), parts, at)
  {
    if |parts| == 1 {
      at := [0];
      assert PartAt(parts[0], parts, at, 0);
    } else {
      var first, later := parts[0], parts[1..];
      var rest := JoinLines(later);
      var tail := JoinIs(later);
      at := [0] + MovedBy(tail, |first| + 1);
      assert parts == [first] + later;
      OnePartMore(first, rest, later, tail);
    }
  }

  lemma {:induction false} FirstPart(first: string, rest: string, parts: seq<string>, at: seq<nat>)
    requires JoinedAt(rest, parts, at)
    ensures var text, all, now := first + "\n" + rest, [first] + parts, [0] + MovedBy(at, |first| + 1);
            && |now| == |all| && now[0] == 0 && |text| == now[|now| - 1] + |all[|all| - 1]|
            && PartAt(text, all, now, 0) && NewlineBefore(text, all, now, 1)
  {
    var text := first + "\n" + rest;
    assert text[0..|first|] == first;
  }

  lemma {:induction false} OnePartMore(first: string, rest: string, parts: seq<string>, at: seq<nat>)
    requires JoinedAt(rest, parts, at)
    ensures JoinedAt(first + "\n" + rest, [first] + parts, [0] + MovedBy(at, |first| + 1))
  {
    var text, all, now := first + "\n" + rest, [first] + parts, [0] + MovedBy(at, |first| + 1);
    FirstPart(first, rest, parts, at);
    hide PartAt, NewlineBefore;
    forall k | 0 <= k < |now|
      ensures PartAt(text, all, now, k)
    {
      if k > 0 { PartMoves(first, rest, parts, at, k - 1); }
    }
    forall k | 0 < k < |now|
      ensures NewlineBefore(text, all, now, k)
    {
      if k > 1 { NewlineMoves(first, rest, parts, at, k - 1); }
    }
  }

  /** The texts of a reply are joined by newlines; a reply without texts has none. */
  lemma {:induction false} ReplyTextIs(content: seq<ContentBlock>)
    returns (at: seq<nat>, parts: seq<string>, lines: seq<nat>)
    ensures Increasing(at) && forall i: nat :: i in at <==> i < |content| && content[i].Text?
    ensures |parts| == |at| && forall k :: 0 <= k < |at| ==> at[k] < |content| && parts[k] == TextOf(content[at[k]])
    ensures ReplyText(content).None? <==> |at| == 0
    ensures |at| > 0 ==> JoinedAt(ReplyText(content).value, parts, lines)
  {
    at, parts := TextsAre(content);
    lines := [];
    if |at| > 0 { lines := JoinIs(parts); }
  }

  function TextOf(block: ContentBlock): string {
    if block.Text? then block.text else ""
  }

  lemma {:induction false} TextsAre(content: seq<ContentBlock>) returns (at: seq<nat>, parts: seq<string>)
    ensures Increasing(at) && forall i: nat :: i in at <==> i < |content| && content[i].Text?
    ensures |parts| == |at| && forall k :: 0 <= k < |at| ==> at[k] < |content| && parts[k] == TextOf(content[at[k]])
    ensures parts == Texts(content)
  {
    if |content| == 0 {
      at, parts := [], [];
    } else {
      var n := |content| - 1;
      var before, block := content[..n], content[n];
      at, parts := TextsAre(before);
      assert content == before + [block];
      ToolUsesSnoc(before, block);
      if block.Text? {
        IncreasingSnoc(at, n);
        at, parts := at + [n], parts + [block.text];
      }
    }
  }

  /** The calls carried out: none of a blocked reply, else all of the reply or as many as the limit allows. */
  lemma {:induction false} ExecutedAre(limits: Limits, input: TurnInput, r: Response) returns (at: seq<nat>)
    ensures CallsAt(r.content, at) && RecordsCalls(r.content, at, ExecutedUses(limits, input, r))
    ensures |ExecutedUses(limits, input, r)| ==
            if Blocks(input, r) then 0
            else if limits.maxToolCalls > 0 && |at| > limits.maxToolCalls then limits.maxToolCalls
            else |at|
  {
    hide ToolUses;
    at := ToolUsesAre(r.content);
  }

  /** The self-check gate blocks the text of the reply, if there are a gate and a text. */
  predicate Blocks(input: TurnInput, r: Response) {
    && input.verify.Some? && ReplyText(r.content).Some?
    && input.verify.value(ReplyText(r.content).value).Blocked?
  }

  // ----- The turn -----

  predicate AtLimit(limits: Limits, s: SessionState) {
    limits.maxTurns > 0 && s.turnIndex >= limits.maxTurns
  }

  function Asked(s: SessionState, input: TurnInput): Compaction.Memory {
    match input.userInput
    case None => s.memory
    case Some(text) => Compaction.Memory(s.memory.history + [User(text)], s.memory.used)
  }

  function Compacted(s: SessionState, input: TurnInput): Compaction.Memory {
    Compaction.Compact(Asked(s, input), input.trigger, input.summary).0
  }

  /** Nothing keeps the turn from recording the reply. */
  ghost predicate Replies(limits: Limits, s: SessionState, input: TurnInput) {
    && !AtLimit(limits, s) && input.reply.Replied?
    && (input.hardMode ==> Pairing.Balanced(Translate(Compacted(s, input).history)))
  }

  /** The text recorded: the gate's if it has its say, else the model's. */
  function Shown(input: TurnInput, r: Response): Option<string> {
    match ReplyText(r.content)
    case None => None
    case Some(text) =>
      if input.verify.None? then Some(text)
      else match input.verify.value(text)
           case Passed(message) => Some(message)
           case Blocked(_, sentinel) => Some(sentinel)
  }

  /**
   A turn that records a reply goes on at once exactly if the reply was blocked or its stop is neither an
   end of the turn, a refusal nor a stop sequence.
   */
  predicate GoesOn(input: TurnInput, r: Response) {
    Blocks(input, r) || !(r.stop.EndTurn? || r.stop.Refusal? || r.stop.StopSequence?)
  }

  /** Behind the exchange stands a notice if the reply was blocked, or cut off without calls, and else nothing. */
  function Notice(input: TurnInput, r: Response, uses: seq<RecordedToolUse>): seq<ConversationItem> {
    if Blocks(input, r) then [User(BLOCKED_NOTICE)]
    else if r.stop.MaxTokens? && |uses| == 0 then [User(CUT_OFF_NOTICE)]
    else []
  }

  /** What a turn makes of memory `m`, the world and the permissions when it records reply `r`. */
  ghost predicate RecordsReply(cfg: Execution.Config, limits: Limits, s: SessionState, m: Compaction.Memory,
                               input: TurnInput, r: Response, after: SessionState)
  {
    var uses := ExecutedUses(limits, input, r);
    var ex := Execution.State(s.world, s.gate, []);
    var results := Execution.SequentialResults(cfg, ex, uses, |uses|);
    var exchange := [Assistant(Shown(input, r), uses)] + if |uses| > 0 then [ToolResults(results)] else [];
    && after.memory.history == m.history + exchange + Notice(input, r, uses)
    && after.memory.used == m.used + (if r.usage.Some? then r.usage.value else 0)
    && after.turnIndex == s.turnIndex + 1
    && after.world == Execution.After(cfg, ex, uses, |uses|).world
    && after.gate == Execution.After(cfg, ex, uses, |uses|).gate
  }

  lemma {:induction false} ObservedIs(cfg: Execution.Config, limits: Limits, s: SessionState, input: TurnInput,
                                      r: Response)
    ensures var (after, outcome) := Observe(cfg, limits, s, input, r);
            && (outcome == if GoesOn(input, r) then ContinueImmediately else AwaitUser)
            && RecordsReply(cfg, limits, s, s.memory, input, r, after)
  {
    hide ExecutedUses, ReplyText, Execution.After;
    var uses := ExecutedUses(limits, input, r);
    var results := Execution.SequentialResults(cfg, Execution.State(s.world, s.gate, []), uses, |uses|);
    var exchange := [Assistant(Shown(input, r), uses)] + if |uses| > 0 then [ToolResults(results)] else [];
    assert Recorded(s.memory.history, Shown(input, r), uses, results) == s.memory.history + exchange;
  }

  /** A turn that records a reply: what it leaves, and whether it goes on. */
  lemma {:induction false} RecordedTurn(cfg: Execution.Config, limits: Limits, s: SessionState, input: TurnInput)
    requires Replies(limits, s, input)
    ensures var (after, outcome) := Turn(cfg, limits, s, input);
            var r := input.reply.response;
            && (outcome == if GoesOn(input, r) then ContinueImmediately else AwaitUser)
            && RecordsReply(cfg, limits, s, Compacted(s, input), input, r, after)
  {
    TurnIs(cfg, limits, s, input);
    GuardIsBalance(s, input);
    CompactedIs(s, input);
    var m := Compacted(s, input);
    ObservedIs(cfg, limits, s.(memory := m), input, input.reply.response);
    hide Turn, Compacted, Received, GuardStops, Observe, RecordsReply, Notice, GoesOn;
    SameReply(cfg, limits, s, m, input, input.reply.response, Turn(cfg, limits, s, input).0);
  }

  lemma {:induction false} SameReply(cfg: Execution.Config, limits: Limits, s: SessionState, m: Compaction.Memory,
                                     input: TurnInput, r: Response, after: SessionState)
    requires RecordsReply(cfg, limits, s.(memory := m), m, input, r, after)
    ensures RecordsReply(cfg, limits, s, m, input, r, after)
  {
  }

  lemma {:induction false} CompactedIs(s: SessionState, input: TurnInput)
    ensures Received(s, input) == Asked(s, input)
    ensures Compacted(s, input) == Compaction.Compact(Received(s, input), input.trigger, input.summary).0
  {
    hide Compaction.Compact;
  }

  lemma {:induction false} GuardIsBalance(s: SessionState, input: TurnInput)
    ensures GuardStops(s, input) <==>
              input.hardMode && !Pairing.Balanced(Translate(Compacted(s, input).history))
  {
    hide Compaction.Compact, Pairing.Repairs, Pairing.Balanced;
    CompactedIs(s, input);
    Pairing.NoRepairsIffBalanced(Translate(Compacted(s, input).history));
  }

  /** A turn that records no reply: at the limit it waits for the user, and else it ends in an error. */
  lemma {:induction false} UnrecordedTurn(cfg: Execution.Config, limits: Limits, s: SessionState, input: TurnInput)
    requires !Replies(limits, s, input)
    ensures var (after, outcome) := Turn(cfg, limits, s, input);
            && after == s.(memory := if AtLimit(limits, s) then Asked(s, input) else Compacted(s, input))
            && outcome == if AtLimit(limits, s) then AwaitUser
                          else if input.hardMode && !Pairing.Balanced(Translate(Compacted(s, input).history))
                          then PairingError else LlmError
  {
    TurnIs(cfg, limits, s, input);
    GuardIsBalance(s, input);
    CompactedIs(s, input);
    hide Turn, Compacted, Received, GuardStops, Observe, Asked, Pairing.Balanced;
  }
}
