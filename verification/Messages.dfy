/** The conversation the agent keeps and the wire messages it sends. */
module Messages {
  import opened Prelude

  /** JSON documents are carried around unread, as their text. */
  type Json = string

  /** The id the model gives a tool call. */
  datatype Id = Id(text: string)

  /** The tools that the executor treats by name, and all others. */
  datatype ToolName =
    | Read | Glob | Grep | MemoryRead | WebFetch | WebSearch
    | Write | Edit | NotebookEdit | Bash | MemoryWrite
    | Other(name: string)

  datatype RecordedToolUse = RecordedToolUse(id: Id, name: ToolName, input: Json)
  datatype RecordedToolResult = RecordedToolResult(toolUseId: Id, content: string, isError: bool)

  datatype ConversationItem =
    | User(text: string)
    | Assistant(reply: Option<string>, toolUses: seq<RecordedToolUse>)
    | ToolResults(results: seq<RecordedToolResult>)

  datatype Role = UserRole | AssistantRole

  datatype ContentBlock =
    | Text(text: string)
    | ToolUse(id: Id, name: ToolName, input: Json)
    | ToolResult(toolUseId: Id, content: string, isError: bool)
    | Image(mediaType: string, data: string)
    | Thinking(thought: string)

  datatype Message = Message(role: Role, content: seq<ContentBlock>)

  /** Ids of the tool calls a message makes, in order. */
  function UseIds(content: seq<ContentBlock>): seq<Id> {
    if content == [] then []
    else if content[0].ToolUse? then [content[0].id] + UseIds(content[1..])
    else UseIds(content[1..])
  }

  /** Ids of the tool calls a message answers, in order. */
  function ResultIds(content: seq<ContentBlock>): seq<Id> {
    if content == [] then []
    else if content[0].ToolResult? then [content[0].toolUseId] + ResultIds(content[1..])
    else ResultIds(content[1..])
  }

  lemma {:induction false} IdsAppend(a: seq<ContentBlock>, b: seq<ContentBlock>)
    ensures UseIds(a + b) == UseIds(a) + UseIds(b)
    ensures ResultIds(a + b) == ResultIds(a) + ResultIds(b)
  {
    if a == [] {
      assert a + b == b;
    } else {
      assert (a + b)[1..] == a[1..] + b;
      IdsAppend(a[1..], b);
    }
  }
}
