/** What the model is sent for a history, read back: every item is on the wire with all it says. */
module WireHistory {
  import opened Prelude
  import opened Messages
  import opened History
  import ImageSentinel
  import opened Sessions

  lemma {:induction false} UseBlocksReadBack(uses: seq<RecordedToolUse>)
    ensures ToolUses(UseBlocks(uses)) == uses && Texts(UseBlocks(uses)) == []
    ensures forall k :: 0 <= k < |uses| ==> UseBlocks(uses)[k].ToolUse?
  {
    if |uses| > 0 {
      UseBlocksReadBack(uses[1..]);
      assert UseBlocks(uses)[1..] == UseBlocks(uses[1..]);
      assert uses == [uses[0]] + uses[1..];
    }
  }

  /** Reading an assistant item off the wire as one reads a reply gives back its text and its calls. */
  lemma {:induction false} AssistantReadsBack(reply: Option<string>, uses: seq<RecordedToolUse>)
    ensures var m := TranslateItem(Assistant(reply, uses));
            && m.role == AssistantRole
            && ReplyText(m.content) == reply && ToolUses(m.content) == uses
            && |m.content| == |uses| + (if reply.Some? then 1 else 0)
            && (reply.Some? ==> m.content[0] == Text(reply.value))
  {
    UseBlocksReadBack(uses);
    if reply.Some? {
      var content := TranslateItem(Assistant(reply, uses)).content;
      assert content[1..] == UseBlocks(uses);
      assert Texts(content) == [reply.value] + Texts(UseBlocks(uses)) == [reply.value];
    }
  }

  /** The results of a tool-result item come in order, each with its call, its content and its error flag. */
  lemma {:induction false} ResultsReadBack(results: seq<RecordedToolResult>)
    ensures var m := TranslateItem(ToolResults(results));
            && m.role == UserRole && |m.content| == |results|
            && forall k :: 0 <= k < |results| ==>
                 m.content[k] == ToolResult(results[k].toolUseId, results[k].content, results[k].isError)
  {
    if |results| > 0 {
      ResultsReadBack(results[1..]);
      assert ResultBlocks(results)[1..] == ResultBlocks(results[1..]);
    }
  }

  /** What a user says in the documented format arrives as the blocks printed. */
  lemma {:induction false} UserReadsBack(blocks: seq<ContentBlock>)
    requires |blocks| > 0 && ImageSentinel.Printable(blocks)
    ensures TranslateItem(User(ImageSentinel.Print(blocks))) == Message(UserRole, blocks)
  {
    ImageSentinel.DecodeInvertsPrint(blocks);
  }
}
