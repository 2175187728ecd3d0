/** Well-formed histories and their translation to wire messages. */
module History {
  import opened Prelude
  import opened Messages
  import ImageSentinel
  import Pairing

  /** `item` holds the results of `uses`, one for one and in the same order. */
  ghost predicate Answers(item: ConversationItem, uses: seq<RecordedToolUse>) {
    && item.ToolResults?
    && |item.results| == |uses|
    && forall k :: 0 <= k < |uses| ==> item.results[k].toolUseId == uses[k].id
  }

  ghost predicate PairedAt(h: seq<ConversationItem>, i: nat)
    requires i < |h|
  {
    match h[i]
    case User(_) => true
    case Assistant(_, uses) => |uses| > 0 ==> i + 1 < |h| && Answers(h[i + 1], uses)
    case ToolResults(_) => i > 0 && h[i - 1].Assistant? && |h[i - 1].toolUses| > 0 && Answers(h[i], h[i - 1].toolUses)
  }

  /** Tool calls are directly followed by their results, and results directly follow their calls. */
  ghost predicate Paired(h: seq<ConversationItem>) {
    forall i :: 0 <= i < |h| ==> PairedAt(h, i)
  }

  lemma PairedConcat(a: seq<ConversationItem>, b: seq<ConversationItem>)
    requires Paired(a) && Paired(b)
    ensures Paired(a + b)
  {
    var h := a + b;
    forall i | 0 <= i < |h|
      ensures PairedAt(h, i)
    {
      if i < |a| {
        assert PairedAt(a, i);
      } else {
        assert PairedAt(b, i - |a|);
      }
    }
  }

  /** A paired history may be cut anywhere but before tool results. */
  lemma PairedSuffix(h: seq<ConversationItem>, cut: nat)
    requires Paired(h) && cut < |h| && !h[cut].ToolResults?
    ensures Paired(h[cut..])
  {
    forall i | 0 <= i < |h[cut..]|
      ensures PairedAt(h[cut..], i)
    {
      assert PairedAt(h, cut + i);
    }
  }

  lemma PairedUser(text: string)
    ensures Paired([User(text)])
  {
    assert PairedAt([User(text)], 0);
  }

  lemma PairedExchange(reply: Option<string>, uses: seq<RecordedToolUse>, results: seq<RecordedToolResult>)
    requires |results| == |uses| && forall k :: 0 <= k < |uses| ==> results[k].toolUseId == uses[k].id
    ensures |uses| == 0 ==> Paired([Assistant(reply, uses)])
    ensures |uses| > 0 ==> Paired([Assistant(reply, uses), ToolResults(results)])
  {
    var alone, both := [Assistant(reply, uses)], [Assistant(reply, uses), ToolResults(results)];
    assert |uses| == 0 ==> PairedAt(alone, 0);
    assert |uses| > 0 ==> PairedAt(both, 0) && PairedAt(both, 1);
  }

  // ----- Translation -----

  function UseBlocks(uses: seq<RecordedToolUse>): (blocks: seq<ContentBlock>)
    ensures |blocks| == |uses|
  {
    if |uses| == 0 then [] else [ToolUse(uses[0].id, uses[0].name, uses[0].input)] + UseBlocks(uses[1..])
  }

  function ResultBlocks(results: seq<RecordedToolResult>): (blocks: seq<ContentBlock>)
    ensures |blocks| == |results|
  {
    if |results| == 0 then []
    else [ToolResult(results[0].toolUseId, results[0].content, results[0].isError)] + ResultBlocks(results[1..])
  }

  function TranslateItem(item: ConversationItem): Message {
    match item
    case User(text) => Message(UserRole, ImageSentinel.Decode(text))
    case Assistant(reply, uses) =>
      Message(AssistantRole, if reply.Some? then [Text(reply.value)] + UseBlocks(uses) else UseBlocks(uses))
    case ToolResults(results) => Message(UserRole, ResultBlocks(results))
  }

  function Translate(h: seq<ConversationItem>): (ms: seq<Message>)
    ensures |ms| == |h| && forall i :: 0 <= i < |h| ==> ms[i] == TranslateItem(h[i])
  {
    if |h| == 0 then [] else Translate(h[..|h| - 1]) + [TranslateItem(h[|h| - 1])]
  }

  /** The optional text, then the calls, pushed one by one. */
  method AssistantBlocks(reply: Option<string>, uses: seq<RecordedToolUse>) returns (blocks: seq<ContentBlock>)
    ensures blocks == TranslateItem(Assistant(reply, uses)).content
  {
    blocks := [];
    if reply.Some? { blocks := [Text(reply.value)]; }
    ghost var all := TranslateItem(Assistant(reply, uses)).content;
    assert uses[0..] == uses && blocks + UseBlocks(uses) == all;
    for n := 0 to |uses|
      invariant blocks + UseBlocks(uses[n..]) == all
    {
      assert uses[n..][1..] == uses[n + 1..];
      blocks := blocks + [ToolUse(uses[n].id, uses[n].name, uses[n].input)];
    }
    assert blocks + UseBlocks(uses[|uses|..]) == blocks;
  }

  method TranslateHistory(items: seq<ConversationItem>) returns (out: seq<Message>)
    ensures out == Translate(items)
  {
    out := [];
    for n := 0 to |items|
      invariant |out| == n && forall i :: 0 <= i < n ==> out[i] == TranslateItem(items[i])
    {
      match items[n]
      case User(text) =>
        var blocks := ImageSentinel.DecodeUserContent(text);
        out := out + [Message(UserRole, blocks)];
      case Assistant(reply, uses) =>
        var blocks := AssistantBlocks(reply, uses);
        out := out + [Message(AssistantRole, blocks)];
      case ToolResults(results) =>
        out := out + [Message(UserRole, ResultBlocks(results))];
    }
  }

  lemma {:induction false} ContentHasNoIds(blocks: seq<ContentBlock>)
    requires forall b :: b in blocks ==> ImageSentinel.IsContent(b)
    ensures |UseIds(blocks)| == 0 && |ResultIds(blocks)| == 0
  {
    if |blocks| > 0 {
      assert blocks[0] in blocks;
      ContentHasNoIds(blocks[1..]);
    }
  }

  lemma {:induction false} UseBlockIds(uses: seq<RecordedToolUse>)
    ensures |UseIds(UseBlocks(uses))| == |uses| && |ResultIds(UseBlocks(uses))| == 0
    ensures forall k :: 0 <= k < |uses| ==> UseIds(UseBlocks(uses))[k] == uses[k].id
  {
    if |uses| > 0 {
      UseBlockIds(uses[1..]);
      assert UseBlocks(uses)[1..] == UseBlocks(uses[1..]);
    }
  }

  lemma {:induction false} ResultBlockIds(results: seq<RecordedToolResult>)
    ensures |ResultIds(ResultBlocks(results))| == |results| && |UseIds(ResultBlocks(results))| == 0
    ensures forall k :: 0 <= k < |results| ==> ResultIds(ResultBlocks(results))[k] == results[k].toolUseId
  {
    if |results| > 0 {
      ResultBlockIds(results[1..]);
      assert ResultBlocks(results)[1..] == ResultBlocks(results[1..]);
    }
  }

  lemma UserIds(item: ConversationItem)
    requires item.User?
    ensures |UseIds(TranslateItem(item).content)| == 0 && |ResultIds(TranslateItem(item).content)| == 0
  {
    ContentHasNoIds(ImageSentinel.Decode(item.text));
  }

  lemma AssistantIds(item: ConversationItem)
    requires item.Assistant?
    ensures var content := TranslateItem(item).content;
            && |ResultIds(content)| == 0 && |UseIds(content)| == |item.toolUses|
            && forall k :: 0 <= k < |item.toolUses| ==> UseIds(content)[k] == item.toolUses[k].id
  {
    UseBlockIds(item.toolUses);
    if item.reply.Some? {
      assert TranslateItem(item).content[1..] == UseBlocks(item.toolUses);
    }
  }

  /** Calls and results that answer each other name the same ids. */
  lemma AnswersSameIds(assistant: ConversationItem, results: ConversationItem)
    requires assistant.Assistant? && Answers(results, assistant.toolUses)
    ensures UseIds(TranslateItem(assistant).content) == ResultIds(TranslateItem(results).content)
    ensures |UseIds(TranslateItem(results).content)| == 0
  {
    AssistantIds(assistant);
    ResultBlockIds(results.results);
  }

  lemma PairedItemIsOrphanFree(h: seq<ConversationItem>, i: nat)
    requires i < |h| && PairedAt(h, i)
    ensures Pairing.OrphanFree(Translate(h), i)
  {
    hide TranslateItem;
    match h[i]
    case User(_) => UserIds(h[i]);
    case Assistant(_, _) => AssistantIds(h[i]);
    case ToolResults(_) => AnswersSameIds(h[i - 1], h[i]);
  }

  lemma PairedItemIsAnswered(h: seq<ConversationItem>, i: nat)
    requires i < |h| && PairedAt(h, i)
    ensures Pairing.AnsweredAt(Translate(h), i)
  {
    match h[i]
    case User(_) =>
    case ToolResults(_) =>
    case Assistant(_, uses) =>
      AssistantIds(h[i]);
      if |uses| > 0 { AnswersSameIds(h[i], h[i + 1]); }
  }

  /** The translation of a paired history is a balanced thread: the guard leaves it alone. */
  lemma PairedNeedsNoRepair(h: seq<ConversationItem>)
    requires Paired(h)
    ensures Pairing.Repairs(Translate(h)) == [] && Pairing.Repaired(Translate(h)) == Translate(h)
  {
    forall i | 0 <= i < |h|
      ensures Pairing.OrphanFree(Translate(h), i) && Pairing.AnsweredAt(Translate(h), i)
    {
      assert PairedAt(h, i);
      PairedItemIsOrphanFree(h, i);
      PairedItemIsAnswered(h, i);
    }
    Pairing.NoRepairsIffBalanced(Translate(h));
  }
}
