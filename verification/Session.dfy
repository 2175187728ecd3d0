/**
 One turn of the agent loop: take the user's input, compact, translate, guard the
 pairing, call the model, verify, run the tools, record. Everything the model, the
 verifier, the summarizer and the user decide is an arbitrary input of the turn.
 */
module Sessions {
  import opened Prelude
  import opened Messages
  import opened History
  import Compaction
  import Execution
  import Pairing
  import Planner

  // The wording of the notices is abbreviated: nothing depends on it.
  const BLOCKED_NOTICE: string := "[REVISE]"
  const CUT_OFF_NOTICE: string := "[CONTINUE]"

  datatype StopReason = EndTurn | StopToolUse | MaxTokens | Refusal | StopSequence | PauseTurn

  datatype Response = Response(content: seq<ContentBlock>, stop: StopReason, usage: Option<nat>)

  datatype LlmReply = LlmFailed | Replied(response: Response)

  /** The self-check gate rewrites a reply or blocks it, leaving a sentinel in its place. */
  datatype Verification = Passed(message: string) | Blocked(ruleIds: seq<Planner.Name>, sentinel: string)

  datatype TurnInput = TurnInput(
    userInput: Option<string>,
    trigger: Compaction.Trigger,
    summary: Compaction.Summary,
    reply: LlmReply,
    verify: Option<string -> Verification>,
    hardMode: bool)

  datatype Limits = Limits(maxTurns: nat, maxToolCalls: nat)

  datatype SessionState = SessionState(
    memory: Compaction.Memory,
    turnIndex: nat,
    world: Execution.World,
    gate: Execution.Gate)

  datatype Outcome = AwaitUser | ContinueImmediately | PairingError | LlmError

  // ----- Reading the response -----

  function Texts(content: seq<ContentBlock>): seq<string> {
    if |content| == 0 then []
    else if content[0].Text? then [content[0].text] + Texts(content[1..])
    else Texts(content[1..])
  }

  function ToolUses(content: seq<ContentBlock>): seq<RecordedToolUse> {
    if |content| == 0 then []
    else if content[0].ToolUse?
    then [RecordedToolUse(content[0].id, content[0].name, content[0].input)] + ToolUses(content[1..])
    else ToolUses(content[1..])
  }

  function JoinLines(parts: seq<string>): string {
    if |parts| == 0 then "" else if |parts| == 1 then parts[0] else parts[0] + "\n" + JoinLines(parts[1..])
  }

  function ReplyText(content: seq<ContentBlock>): Option<string> {
    if |Texts(content)| == 0 then None else Some(JoinLines(Texts(content)))
  }

  /** Tool calls beyond the per-turn budget are dropped. */
  function Capped(uses: seq<RecordedToolUse>, cap: nat): seq<RecordedToolUse> {
    if cap > 0 && |uses| > cap then uses[..cap] else uses
  }

  predicate IsBlocked(input: TurnInput, text: Option<string>) {
    input.verify.Some? && text.Some? && input.verify.value(text.value).Blocked?
  }

  function FinalText(input: TurnInput, text: Option<string>): Option<string> {
    if input.verify.Some? && text.Some? then
      match input.verify.value(text.value)
      case Passed(message) => Some(message)
      case Blocked(_, sentinel) => Some(sentinel)
    else text
  }

  // ----- One turn as a function -----

  function Received(s: SessionState, input: TurnInput): Compaction.Memory {
    if input.userInput.Some? then s.memory.(history := s.memory.history + [User(input.userInput.value)]) else s.memory
  }

  predicate OverBudget(limits: Limits, s: SessionState) {
    limits.maxTurns > 0 && s.turnIndex >= limits.maxTurns
  }

  /** What is sent to the model, before the guard. */
  function Outgoing(s: SessionState, input: TurnInput): seq<Message> {
    Translate(Compaction.Compact(Received(s, input), input.trigger, input.summary).0.history)
  }

  function ExecutedUses(limits: Limits, input: TurnInput, r: Response): seq<RecordedToolUse> {
    if IsBlocked(input, ReplyText(r.content)) then [] else Capped(ToolUses(r.content), limits.maxToolCalls)
  }

  function Recorded(h: seq<ConversationItem>, reply: Option<string>, uses: seq<RecordedToolUse>,
                    results: seq<RecordedToolResult>): seq<ConversationItem>
  {
    h + [Assistant(reply, uses)] + (if |results| > 0 then [ToolResults(results)] else [])
  }

  /** The closing of a turn: the item pushed last, if any, and what the caller does next. */
  function Closing(blocked: bool, stop: StopReason, uses: seq<RecordedToolUse>): (seq<ConversationItem>, Outcome) {
    if blocked then ([User(BLOCKED_NOTICE)], ContinueImmediately)
    else match stop
         case EndTurn | Refusal | StopSequence => ([], AwaitUser)
         case StopToolUse | PauseTurn => ([], ContinueImmediately)
         case MaxTokens => (if |uses| == 0 then [User(CUT_OFF_NOTICE)] else [], ContinueImmediately)
  }

  function Observe(cfg: Execution.Config, limits: Limits, s: SessionState, input: TurnInput,
                   r: Response): (SessionState, Outcome) {
    var text := ReplyText(r.content);
    var uses := ExecutedUses(limits, input, r);
    var ex := Execution.State(s.world, s.gate, []);
    var results := Execution.SequentialResults(cfg, ex, uses, |uses|);
    var end := Execution.After(cfg, ex, uses, |uses|);
    var (closing, outcome) := Closing(IsBlocked(input, text), r.stop, uses);
    var history := Recorded(s.memory.history, FinalText(input, text), uses, results) + closing;
    var used := s.memory.used + if r.usage.Some? then r.usage.value else 0;
    (SessionState(Compaction.Memory(history, used), s.turnIndex + 1, end.world, end.gate), outcome)
  }

  lemma CappedIs(uses: seq<RecordedToolUse>, cap: nat)
    ensures Capped(uses, cap) == if cap > 0 && |uses| > cap then uses[..cap] else uses
  {
  }

  lemma ExecutedIs(limits: Limits, input: TurnInput, r: Response)
    ensures ExecutedUses(limits, input, r)
            == if IsBlocked(input, ReplyText(r.content)) then [] else Capped(ToolUses(r.content), limits.maxToolCalls)
  {
  }

  lemma ObserveIs(cfg: Execution.Config, limits: Limits, s: SessionState, input: TurnInput, r: Response)
    ensures var text := ReplyText(r.content);
            var uses := ExecutedUses(limits, input, r);
            var ex := Execution.State(s.world, s.gate, []);
            var results := Execution.SequentialResults(cfg, ex, uses, |uses|);
            var end := Execution.After(cfg, ex, uses, |uses|);
            var closing := Closing(IsBlocked(input, text), r.stop, uses);
            var history := Recorded(s.memory.history, FinalText(input, text), uses, results) + closing.0;
            var used := s.memory.used + if r.usage.Some? then r.usage.value else 0;
            Observe(cfg, limits, s, input, r)
            == (SessionState(Compaction.Memory(history, used), s.turnIndex + 1, end.world, end.gate), closing.1)
  {
    hide ExecutedUses, Closing, Recorded, FinalText, ReplyText, Execution.After, Execution.SequentialResults;
  }

  function Turn(cfg: Execution.Config, limits: Limits, s: SessionState, input: TurnInput): (SessionState, Outcome) {
    var s1 := s.(memory := Received(s, input));
    if OverBudget(limits, s) then (s1, AwaitUser)
    else
      var s2 := s1.(memory := Compaction.Compact(s1.memory, input.trigger, input.summary).0);
      if input.hardMode && |Pairing.Repairs(Outgoing(s, input))| > 0 then (s2, PairingError)
      else match input.reply
           case LlmFailed => (s2, LlmError)
           case Replied(r) => Observe(cfg, limits, s2, input, r)
  }

  // ----- The invariant -----

  lemma ObserveKeepsPairing(cfg: Execution.Config, limits: Limits, s: SessionState, input: TurnInput, r: Response)
    requires Paired(s.memory.history)
    ensures Paired(Observe(cfg, limits, s, input, r).0.memory.history)
  {
    hide Paired, PairedAt, Execution.SequentialResults, Execution.After, ExecutedUses;
    var text := ReplyText(r.content);
    var uses := ExecutedUses(limits, input, r);
    var ex := Execution.State(s.world, s.gate, []);
    var results := Execution.SequentialResults(cfg, ex, uses, |uses|);
    Execution.ResultsCarryIds(cfg, ex, uses);
    var reply := FinalText(input, text);
    PairedExchange(reply, uses, results);
    var exchange := if |uses| > 0 then [Assistant(reply, uses), ToolResults(results)] else [Assistant(reply, uses)];
    PairedConcat(s.memory.history, exchange);
    var recorded := Recorded(s.memory.history, reply, uses, results);
    assert recorded == s.memory.history + exchange;
    var closing := Closing(IsBlocked(input, text), r.stop, uses).0;
    if |closing| > 0 {
      PairedUser(closing[0].text);
      PairedConcat(recorded, closing);
    } else {
      assert recorded + closing == recorded;
    }
  }

  lemma ObserveOutcome(cfg: Execution.Config, limits: Limits, s: SessionState, input: TurnInput, r: Response)
    ensures Observe(cfg, limits, s, input, r).1 == AwaitUser
            || Observe(cfg, limits, s, input, r).1 == ContinueImmediately
  {
  }

  lemma TurnKeepsPairing(cfg: Execution.Config, limits: Limits, s: SessionState, input: TurnInput)
    requires Paired(s.memory.history)
    ensures Paired(Turn(cfg, limits, s, input).0.memory.history)
    ensures Pairing.Repairs(Outgoing(s, input)) == [] && Pairing.Repaired(Outgoing(s, input)) == Outgoing(s, input)
    ensures Turn(cfg, limits, s, input).1 != PairingError
  {
    hide Paired, PairedAt, Compaction.Compact, Observe, Pairing.Repairs, Pairing.Repaired;
    var m := Received(s, input);
    if input.userInput.Some? {
      PairedUser(input.userInput.value);
      PairedConcat(s.memory.history, [User(input.userInput.value)]);
    }
    Compaction.CompactKeepsPairing(m, input.trigger, input.summary);
    var m2 := Compaction.Compact(m, input.trigger, input.summary).0;
    PairedNeedsNoRepair(m2.history);
    if input.reply.Replied? {
      ObserveKeepsPairing(cfg, limits, s.(memory := m2), input, input.reply.response);
      ObserveOutcome(cfg, limits, s.(memory := m2), input, input.reply.response);
    }
  }

  /** The guard turns the turn into an error: only in hard mode, and only if it has something to repair. */
  predicate GuardStops(s: SessionState, input: TurnInput) {
    input.hardMode && |Pairing.Repairs(Outgoing(s, input))| > 0
  }

  /** The ways a turn can go. */
  lemma TurnIs(cfg: Execution.Config, limits: Limits, s: SessionState, input: TurnInput)
    ensures var turn := Turn(cfg, limits, s, input);
            var compacted := Compaction.Compact(Received(s, input), input.trigger, input.summary).0;
            if OverBudget(limits, s) then turn == (s.(memory := Received(s, input)), AwaitUser)
            else if GuardStops(s, input) then turn == (s.(memory := compacted), PairingError)
            else if input.reply.LlmFailed? then turn == (s.(memory := compacted), LlmError)
            else turn == Observe(cfg, limits, s.(memory := compacted), input, input.reply.response)
  {
    hide Pairing.Repairs, Outgoing, Received, Compaction.Compact, Observe;
  }

  /** The session after any number of turns. */
  function AfterTurns(cfg: Execution.Config, limits: Limits, s: SessionState, inputs: seq<TurnInput>): SessionState {
    if |inputs| == 0 then s
    else Turn(cfg, limits, AfterTurns(cfg, limits, s, inputs[..|inputs| - 1]), inputs[|inputs| - 1]).0
  }

  lemma {:induction false} EverySessionIsPaired(cfg: Execution.Config, limits: Limits, s: SessionState,
                                                inputs: seq<TurnInput>)
    requires Paired(s.memory.history)
    ensures Paired(AfterTurns(cfg, limits, s, inputs).memory.history)
  {
    hide Paired, Turn;
    if |inputs| > 0 {
      EverySessionIsPaired(cfg, limits, s, inputs[..|inputs| - 1]);
      TurnKeepsPairing(cfg, limits, AfterTurns(cfg, limits, s, inputs[..|inputs| - 1]), inputs[|inputs| - 1]);
    }
  }

  /**
   Whatever the model, the verifier, the tools, the summarizer and the user do, from the empty
   history on the guard never has anything to repair and never turns a turn into an error.
   */
  lemma GuardIsIdle(cfg: Execution.Config, limits: Limits, s: SessionState, inputs: seq<TurnInput>, next: TurnInput)
    requires |s.memory.history| == 0
    ensures var now := AfterTurns(cfg, limits, s, inputs);
            && Pairing.Repairs(Outgoing(now, next)) == []
            && Pairing.Repaired(Outgoing(now, next)) == Outgoing(now, next)
            && Turn(cfg, limits, now, next).1 != PairingError
  {
    EverySessionIsPaired(cfg, limits, s, inputs);
    TurnKeepsPairing(cfg, limits, AfterTurns(cfg, limits, s, inputs), next);
  }

  // ----- What the next call would find -----

  /**
   A turn that continues at once leaves the history ending in an assistant item exactly when it
   was a server-side pause or an announced but absent tool call.
   */
  lemma ContinuationEnd(cfg: Execution.Config, limits: Limits, s: SessionState, input: TurnInput, r: Response)
    requires Observe(cfg, limits, s, input, r).1 == ContinueImmediately
    ensures var h := Observe(cfg, limits, s, input, r).0.memory.history;
            |h| > 0 && (h[|h| - 1].Assistant? <==>
              && !IsBlocked(input, ReplyText(r.content))
              && |ExecutedUses(limits, input, r)| == 0
              && (r.stop.PauseTurn? || r.stop.StopToolUse?))
  {
    hide ReplyText, ExecutedUses, Execution.After, FinalText;
  }

  /** Pairing is the invariant; alternation of roles is not. */
  lemma PauseBreaksAlternation(cfg: Execution.Config, limits: Limits, s: SessionState, input: TurnInput)
    requires |s.memory.history| == 0 && !OverBudget(limits, s) && input.userInput.None? && input.verify.None?
    requires input.reply == Replied(Response([], PauseTurn, None)) && !input.hardMode
    ensures Turn(cfg, limits, s, input).1 == ContinueImmediately
    ensures Turn(cfg, limits, s, input).0.memory.history == [Assistant(None, [])]
  {
    var m := s.memory;
    assert Compaction.Compact(m, input.trigger, input.summary) == (m, Compaction.Skipped);
  }

  // ----- What a turn tells the plan -----

  function NameOf(tool: ToolName): Planner.Name {
    match tool
    case Read => Planner.Name("Read")
    case Glob => Planner.Name("Glob")
    case Grep => Planner.Name("Grep")
    case MemoryRead => Planner.Name("MemoryRead")
    case WebFetch => Planner.Name("WebFetch")
    case WebSearch => Planner.Name("WebSearch")
    case Write => Planner.Name("Write")
    case Edit => Planner.Name("Edit")
    case NotebookEdit => Planner.Name("NotebookEdit")
    case Bash => Planner.Name("Bash")
    case MemoryWrite => Planner.Name("MemoryWrite")
    case Other(name) => Planner.Name(name)
  }

  /** Every tool counts under its own name. */
  lemma {:induction false} NamesTellTools(a: ToolName, b: ToolName)
    ensures NameOf(a) == NameOf(b) && a.Other? == b.Other? ==> a == b
  {
  }

  /** The first call with this id. */
  function FindUse(uses: seq<RecordedToolUse>, id: Id): Option<RecordedToolUse> {
    if |uses| == 0 then None else if uses[0].id == id then Some(uses[0]) else FindUse(uses[1..], id)
  }

  function OutcomesOf(uses: seq<RecordedToolUse>, results: seq<RecordedToolResult>, n: nat): seq<Planner.ToolOutcome>
    requires n <= |results|
  {
    if n == 0 then []
    else
      var r, before := results[n - 1], OutcomesOf(uses, results, n - 1);
      match FindUse(uses, r.toolUseId)
      case None => before
      case Some(use) => before + [Planner.ToolOutcome(NameOf(use.name), r.isError)]
  }

  /** The first call with the id is found, and none exactly if no call has it. */
  lemma {:induction false} FindUseIs(uses: seq<RecordedToolUse>, id: Id)
    ensures match FindUse(uses, id)
            case None => forall k :: 0 <= k < |uses| ==> uses[k].id != id
            case Some(use) => exists k :: 0 <= k < |uses| && uses[k] == use && use.id == id
                                          && forall j :: 0 <= j < k ==> uses[j].id != id
  {
    if |uses| > 0 && uses[0].id != id {
      FindUseIs(uses[1..], id);
      if FindUse(uses, id).Some? {
        var k :| 0 <= k < |uses[1..]| && uses[1..][k] == FindUse(uses, id).value && uses[1..][k].id == id
                 && forall j :: 0 <= j < k ==> uses[1..][j].id != id;
        assert uses[k + 1] == FindUse(uses, id).value;
        assert forall j :: 0 < j < k + 1 ==> uses[j] == uses[1..][j - 1];
      } else {
        assert forall k :: 0 < k < |uses| ==> uses[k] == uses[1..][k - 1];
      }
    }
  }

  /** Outcome `o` is the one of result `r`: it counts for the first call with the result's id. */
  ghost predicate IsOutcomeOf(o: Planner.ToolOutcome, r: RecordedToolResult, uses: seq<RecordedToolUse>) {
    exists k :: 0 <= k < |uses| && uses[k].id == r.toolUseId && (forall j :: 0 <= j < k ==> uses[j].id != r.toolUseId)
                && o == Planner.ToolOutcome(NameOf(uses[k].name), r.isError)
  }

  /** The result of call `k` counts for the first call with its id. */
  lemma {:induction false} FindsOutcome(uses: seq<RecordedToolUse>, k: nat, r: RecordedToolResult)
    requires k < |uses| && r.toolUseId == uses[k].id
    ensures FindUse(uses, r.toolUseId).Some?
    ensures IsOutcomeOf(Planner.ToolOutcome(NameOf(FindUse(uses, r.toolUseId).value.name), r.isError), r, uses)
  {
    hide NameOf, FindUse;
    FindUseIs(uses, r.toolUseId);
  }

  /** Each result of a call counts, in order, also when ids repeat. */
  lemma {:induction false} OutcomesAreOfFirst(uses: seq<RecordedToolUse>, results: seq<RecordedToolResult>, n: nat)
    requires n <= |results| == |uses| && forall k :: 0 <= k < |uses| ==> results[k].toolUseId == uses[k].id
    ensures |OutcomesOf(uses, results, n)| == n
    ensures forall k :: 0 <= k < n ==> IsOutcomeOf(OutcomesOf(uses, results, n)[k], results[k], uses)
  {
    hide NameOf, FindUse, IsOutcomeOf;
    if n > 0 {
      var m := n - 1;
      OutcomesAreOfFirst(uses, results, m);
      FindsOutcome(uses, m, results[m]);
    }
  }

  lemma {:induction false} FindsOwnUse(uses: seq<RecordedToolUse>, k: nat)
    requires k < |uses| && forall i, j :: 0 <= i < j < |uses| ==> uses[i].id != uses[j].id
    ensures FindUse(uses, uses[k].id) == Some(uses[k])
  {
    if k > 0 { FindsOwnUse(uses[1..], k - 1); }
  }

  /** As long as the model does not repeat an id, each result counts for the tool that produced it. */
  lemma {:induction false} OutcomesAreOwn(uses: seq<RecordedToolUse>, results: seq<RecordedToolResult>, n: nat)
    requires n <= |results| == |uses| && forall k :: 0 <= k < |uses| ==> results[k].toolUseId == uses[k].id
    requires forall i, j :: 0 <= i < j < |uses| ==> uses[i].id != uses[j].id
    ensures |OutcomesOf(uses, results, n)| == n
    ensures forall k :: 0 <= k < n ==>
              OutcomesOf(uses, results, n)[k] == Planner.ToolOutcome(NameOf(uses[k].name), results[k].isError)
  {
    if n > 0 {
      OutcomesAreOwn(uses, results, n - 1);
      FindsOwnUse(uses, n - 1);
    }
  }

  /** The block a blocked reply puts on the log. */
  function BlockEvents(input: TurnInput, text: Option<string>, turn: nat): seq<Planner.Event> {
    if IsBlocked(input, text)
    then [Planner.Blocked(turn, Planner.BlockKeys(input.verify.value(text.value).ruleIds))]
    else []
  }

  lemma NoTextNoBlock(input: TurnInput, turn: nat)
    ensures BlockEvents(input, None, turn) == []
  {
  }

  /** The turn gets as far as recording a reply. */
  predicate Records(limits: Limits, s: SessionState, input: TurnInput) {
    !OverBudget(limits, s) && !GuardStops(s, input) && input.reply.Replied?
  }

  /** What a turn puts on the log: the prune of its refresh, and the block if its reply is blocked. */
  function LogOf(limits: Limits, s: SessionState, input: TurnInput): seq<Planner.Event> {
    if OverBudget(limits, s) then []
    else if !Records(limits, s, input) then [Planner.Pruned(s.turnIndex)]
    else [Planner.Pruned(s.turnIndex)] + BlockEvents(input, ReplyText(input.reply.response.content), s.turnIndex)
  }

  lemma LogIs(events: seq<Planner.Event>, limits: Limits, s: SessionState, input: TurnInput)
    ensures OverBudget(limits, s) ==> events + LogOf(limits, s, input) == events
    ensures !OverBudget(limits, s) && !Records(limits, s, input) ==>
              events + LogOf(limits, s, input) == events + [Planner.Pruned(s.turnIndex)]
    ensures Records(limits, s, input) ==>
              var blocked := BlockEvents(input, ReplyText(input.reply.response.content), s.turnIndex);
              events + LogOf(limits, s, input) == events + [Planner.Pruned(s.turnIndex)] + blocked
  {
    hide BlockEvents, ReplyText, GuardStops;
    if Records(limits, s, input) {
      var blocked := BlockEvents(input, ReplyText(input.reply.response.content), s.turnIndex);
      assert events + ([Planner.Pruned(s.turnIndex)] + blocked) == events + [Planner.Pruned(s.turnIndex)] + blocked;
    }
  }

  lemma OrderIsKept(events: seq<Planner.Event>, limits: Limits, s: SessionState, input: TurnInput, later: nat)
    requires Planner.InOrder(events, s.turnIndex) && s.turnIndex <= later
    ensures Planner.InOrder(events + LogOf(limits, s, input), later)
  {
    hide GuardStops, ReplyText;
    var log := LogOf(limits, s, input);
    LaterIsInOrder(events, s.turnIndex, later);
    if |log| == 0 {
      assert events + log == events;
    } else {
      var pruned := events + [log[0]];
      assert pruned[..|events|] == events;
      if |log| == 1 {
        assert events + log == pruned;
      } else {
        assert (events + log)[..|events| + 1] == pruned;
      }
    }
  }

  lemma {:induction false} LaterIsInOrder(events: seq<Planner.Event>, now: nat, later: nat)
    requires Planner.InOrder(events, now) && now <= later
    ensures Planner.InOrder(events, later)
  {
    if |events| > 0 && events[|events| - 1].Blocked? { LaterIsInOrder(events[..|events| - 1], now, later); }
  }

  /** The turn's own block counts for rule `r`. */
  predicate BlocksRule(input: TurnInput, text: Option<string>, r: Planner.Name) {
    && input.verify.Some? && text.Some? && input.verify.value(text.value).Blocked?
    && var ids := input.verify.value(text.value).ruleIds;
       r in ids || (|ids| == 0 && r == Planner.Name("unknown"))
  }

  /** The blocks of rule `r` inside the window, and the turn's own block behind them. */
  ghost predicate Lists(turns: seq<nat>, events: seq<Planner.Event>, window: Option<nat>, turn: nat, r: Planner.Name,
                        own: bool)
  {
    if own then
      |turns| > 0 && turns[|turns| - 1] == turn
      && Planner.ShowsWindow(turns[..|turns| - 1], events, window, turn, r)
    else Planner.ShowsWindow(turns, events, window, turn, r)
  }

  /** After a turn each counter lists the blocks of the whole session still inside the window, and the turn's own. */
  ghost predicate CountersExact(turns: Planner.TurnMap, events: seq<Planner.Event>, window: Option<nat>, turn: nat,
                                input: TurnInput, text: Option<string>)
  {
    forall r :: Lists(Planner.TurnsOf(turns, r), events, window, turn, r, BlocksRule(input, text, r))
  }

  lemma CountersAreExact(turns: Planner.TurnMap, events: seq<Planner.Event>, window: Option<nat>, input: TurnInput,
                         text: Option<string>, turn: nat)
    requires Planner.InOrder(events, turn)
    requires Planner.TurnsAgree(turns, events + [Planner.Pruned(turn)] + BlockEvents(input, text, turn), window)
    ensures CountersExact(turns, events, window, turn, input, text)
  {
    hide Planner.ShowsWindow, Planner.InOrder;
    var blocked := BlockEvents(input, text, turn);
    var pruned := events + [Planner.Pruned(turn)];
    forall r
      ensures Lists(Planner.TurnsOf(turns, r), events, window, turn, r, BlocksRule(input, text, r))
    {
      Planner.PruneShowsWindow(events, window, turn, r);
      var held := Planner.Held(pruned, window, r);
      if |blocked| > 0 {
        assert (pruned + blocked)[..|pruned|] == pruned;
        assert BlocksRule(input, text, r) ==> (held + [turn])[..|held|] == held;
      } else {
        assert pruned + blocked == pruned;
      }
    }
  }

  // ----- The session object -----

  /** The reminder list plays no part in what tools do. */
  lemma {:induction false} RemindersDoNotMatter(cfg: Execution.Config, a: Execution.State, b: Execution.State,
                                                uses: seq<RecordedToolUse>, n: nat)
    requires n <= |uses| && a.world == b.world && a.gate == b.gate
    ensures Execution.SequentialResults(cfg, a, uses, n) == Execution.SequentialResults(cfg, b, uses, n)
    ensures Execution.After(cfg, a, uses, n).world == Execution.After(cfg, b, uses, n).world
    ensures Execution.After(cfg, a, uses, n).gate == Execution.After(cfg, b, uses, n).gate
  {
    if n > 0 { RemindersDoNotMatter(cfg, a, b, uses, n - 1); }
  }

  lemma {:induction false} OneFollows(cfg: Execution.Config, a: Execution.State, b: Execution.State,
                                      first: seq<Execution.Note>, use: RecordedToolUse)
    requires a.world == b.world && a.gate == b.gate && a.reminders == first + b.reminders
    ensures Execution.RunOne(cfg, a, use).0.reminders == first + Execution.RunOne(cfg, b, use).0.reminders
  {
    hide Execution.Decide, Execution.Attempt, Execution.MakeResult, Execution.PreNotes, Execution.PostNotes;
  }

  /** The reminders of the calls follow those already there. */
  lemma {:induction false} RemindersFollow(cfg: Execution.Config, st: Execution.State, uses: seq<RecordedToolUse>,
                                           n: nat)
    requires n <= |uses|
    ensures Execution.After(cfg, st, uses, n).reminders
            == st.reminders + Execution.After(cfg, st.(reminders := []), uses, n).reminders
  {
    hide Execution.Decide, Execution.Attempt, Execution.MakeResult, Execution.PreNotes, Execution.PostNotes,
         Execution.SequentialResults;
    if n > 0 {
      var m, bare := n - 1, st.(reminders := []);
      RemindersFollow(cfg, st, uses, m);
      RemindersDoNotMatter(cfg, st, bare, uses, m);
      OneFollows(cfg, Execution.After(cfg, st, uses, m), Execution.After(cfg, bare, uses, m), st.reminders, uses[m]);
    }
  }

  lemma RemindersDoNotMatterToReads(cfg: Execution.Config, a: Execution.State, b: Execution.State,
                                    uses: seq<RecordedToolUse>)
    requires a.world == b.world && a.gate == b.gate && Execution.BatchedOnlyRead(cfg, a, uses)
    ensures Execution.BatchedOnlyRead(cfg, b, uses)
  {
    hide Execution.After, Execution.IsBatched;
    forall k | 0 <= k < |uses| && Execution.IsBatched(cfg, uses, k)
      ensures Execution.LeavesWorld(cfg, b, uses, k)
    {
      assert Execution.LeavesWorld(cfg, a, uses, k);
      RemindersDoNotMatter(cfg, a, b, uses, k);
      RemindersDoNotMatter(cfg, a, b, uses, k + 1);
    }
  }

  /** The calls of the reply that are awaited together only read. */
  ghost predicate CallsOnlyRead(cfg: Execution.Config, limits: Limits, world: Execution.World, gate: Execution.Gate,
                                input: TurnInput, r: Response)
  {
    Execution.BatchedOnlyRead(cfg, Execution.State(world, gate, []), ExecutedUses(limits, input, r))
  }

  class Session {
    const limits: Limits
    const executor: Execution.Executor
    const plan: Planner.Plan
    var history: seq<ConversationItem>
    var usageTotal: nat
    var turnIndex: nat
    var pendingReminders: seq<Execution.Note>

    constructor (limits: Limits, executor: Execution.Executor, plan: Planner.Plan)
      requires plan.Valid() && plan.events == [] && executor.state.reminders == []
      ensures this.limits == limits && this.executor == executor && this.plan == plan && Valid()
      ensures history == [] && usageTotal == 0 && turnIndex == 0
    {
      this.limits, this.executor, this.plan := limits, executor, plan;
      history, usageTotal, turnIndex, pendingReminders := [], 0, 0, [];
    }

    ghost function State(): SessionState
      reads this, executor
    {
      SessionState(Compaction.Memory(history, usageTotal), turnIndex, executor.state.world, executor.state.gate)
    }

    /** Turns are logged in order, the plan's counters are the replay of its log, and no reminder waits elsewhere. */
    ghost predicate Valid()
      reads this, plan, executor
    {
      plan.Valid() && Planner.InOrder(plan.events, turnIndex) && executor.state.reminders == []
    }

    /** Drains the head, asks for the summary, and puts the synthetic opening in front of the tail. */
    method CompactInner(t: Compaction.Trigger, s: Compaction.Summary) returns (outcome: Compaction.Outcome)
      modifies this`history, this`usageTotal
      ensures (Compaction.Memory(history, usageTotal), outcome)
              == Compaction.Compact(Compaction.Memory(old(history), old(usageTotal)), t, s)
    {
      if t.disabled { return Compaction.Skipped; }
      if !t.force && usageTotal < t.threshold { return Compaction.Skipped; }
      if |history| < 4 { return Compaction.Skipped; }
      var cut := Compaction.ChooseCut(history);
      if cut.None? { return Compaction.Skipped; }
      history := history[cut.value.at..];
      match s
      case SummaryFailed =>
        return Compaction.Failed;
      case Summarized(text, usage) =>
        if cut.value.withAssistant {
          history := [User(Compaction.NOTICE)] + history;
          history := [history[0]] + [Assistant(Some(text), [])] + history[1..];
        } else {
          history := [User(Compaction.NOTICE + "\n\n" + text)] + history;
        }
        usageTotal := if usage.Some? then usage.value else 0;
        assert history == Compaction.Prefix(cut.value, text) + old(history)[cut.value.at..];
        return Compaction.Ran;
    }

    /** Sorts the response into its text and its tool calls; other blocks are dropped. */
    method ReadContent(content: seq<ContentBlock>) returns (rawText: Option<string>, toolUses: seq<RecordedToolUse>)
      ensures rawText == ReplyText(content) && toolUses == ToolUses(content)
    {
      var texts: seq<string>;
      texts, toolUses := [], [];
      assert content[0..] == content;
      for n := 0 to |content|
        invariant texts + Texts(content[n..]) == Texts(content)
        invariant toolUses + ToolUses(content[n..]) == ToolUses(content)
      {
        assert content[n..][1..] == content[n + 1..];
        match content[n] {
          case Text(text) => texts := texts + [text];
          case ToolUse(id, name, input) => toolUses := toolUses + [RecordedToolUse(id, name, input)];
          case _ =>
        }
      }
      assert texts == Texts(content);
      rawText := if |texts| == 0 then None else Some(JoinLines(texts));
    }

    /** The self-check gate. A block goes on the plan's log under the current turn. */
    method Verify(input: TurnInput, rawText: Option<string>) returns (finalText: Option<string>, blocked: bool)
      requires plan.Valid()
      modifies plan
      ensures finalText == FinalText(input, rawText) && blocked == IsBlocked(input, rawText)
      ensures plan.Valid() && plan.events == old(plan.events) + BlockEvents(input, rawText, turnIndex)
      ensures plan.outcomes == old(plan.outcomes)
    {
      finalText, blocked := rawText, false;
      assert plan.events + [] == plan.events;
      if input.verify.Some? && rawText.Some? {
        match input.verify.value(rawText.value)
        case Passed(message) => finalText := Some(message);
        case Blocked(ruleIds, sentinel) =>
          finalText, blocked := Some(sentinel), true;
          plan.RecordBlock(turnIndex, ruleIds);
      }
    }

    /** Feeds the results into the plan's error streaks. */
    method RecordOutcomes(uses: seq<RecordedToolUse>, results: seq<RecordedToolResult>)
      requires plan.Valid()
      modifies plan`toolErrorCounts, plan`dirty, plan`outcomes
      ensures plan.Valid() && plan.outcomes == old(plan.outcomes) + OutcomesOf(uses, results, |results|)
    {
      hide FindUse, NameOf;
      for n := 0 to |results|
        invariant plan.Valid() && plan.outcomes == old(plan.outcomes) + OutcomesOf(uses, results, n)
      {
        var use := FindUse(uses, results[n].toolUseId);
        if use.Some? {
          if results[n].isError {
            plan.RecordToolError(NameOf(use.value.name));
          } else {
            plan.RecordToolSuccess(NameOf(use.value.name));
          }
        }
      }
    }

    /** Verifies the reply, runs its tool calls and records the exchange. */
    method ObserveResponse(input: TurnInput, resp: Response) returns (outcome: Outcome)
      requires CallsOnlyRead(executor.cfg, limits, executor.state.world, executor.state.gate, input, resp)
      requires plan.Valid()
      modifies this, executor, plan
      ensures (State(), outcome) == Observe(executor.cfg, limits, old(State()), input, resp)
      ensures turnIndex == old(turnIndex) + 1
      ensures plan.Valid()
      ensures plan.events == old(plan.events) + BlockEvents(input, ReplyText(resp.content), old(turnIndex))
      ensures var uses := ExecutedUses(limits, input, resp);
              var ex := Execution.State(old(executor.state.world), old(executor.state.gate), []);
              && plan.outcomes == old(plan.outcomes)
                 + OutcomesOf(uses, Execution.SequentialResults(executor.cfg, ex, uses, |uses|), |uses|)
              && executor.state.reminders == []
              && multiset(pendingReminders)
                 == multiset(old(pendingReminders)) + multiset(old(executor.state.reminders))
                    + multiset(Execution.After(executor.cfg, ex, uses, |uses|).reminders)
    {
      hide Execution.BatchedOnlyRead, Execution.SequentialResults, Execution.After, Texts, JoinLines, ToolUses,
           BlockEvents, OutcomesOf, IsBlocked, FinalText, Closing, ReplyText, Recorded, ExecutedUses, Capped, Observe,
           Planner.TurnsAgree, Planner.CountsAgree, Planner.StreaksAgree, Planner.InOrder;
      usageTotal := usageTotal + if resp.usage.Some? then resp.usage.value else 0;
      var rawText, toolUses := ReadContent(resp.content);
      CappedIs(toolUses, limits.maxToolCalls);
      if limits.maxToolCalls > 0 && |toolUses| > limits.maxToolCalls { toolUses := toolUses[..limits.maxToolCalls]; }
      var finalText, blocked := Verify(input, rawText);
      ExecutedIs(limits, input, resp);
      if blocked { toolUses := []; }
      var results := RunTools(toolUses);
      RecordOutcomes(toolUses, results);
      outcome := Record(finalText, toolUses, results, blocked, resp.stop);
      ObserveIs(executor.cfg, limits, old(State()), input, resp);
    }

    /** Pushes the exchange and decides what comes next. */
    method Record(finalText: Option<string>, toolUses: seq<RecordedToolUse>, results: seq<RecordedToolResult>,
                  blocked: bool, stop: StopReason)
      returns (outcome: Outcome)
      modifies this`history, this`turnIndex
      ensures turnIndex == old(turnIndex) + 1
      ensures history == Recorded(old(history), finalText, toolUses, results) + Closing(blocked, stop, toolUses).0
      ensures outcome == Closing(blocked, stop, toolUses).1
    {
      history := history + [Assistant(finalText, toolUses)];
      if |results| > 0 { history := history + [ToolResults(results)]; }
      ghost var recorded := Recorded(old(history), finalText, toolUses, results);
      assert history == recorded && recorded + [] == recorded;
      turnIndex := turnIndex + 1;
      if blocked {
        history := history + [User(BLOCKED_NOTICE)];
        return ContinueImmediately;
      }
      match stop
      case EndTurn | Refusal | StopSequence => outcome := AwaitUser;
      case StopToolUse | PauseTurn => outcome := ContinueImmediately;
      case MaxTokens =>
        if |toolUses| == 0 { history := history + [User(CUT_OFF_NOTICE)]; }
        outcome := ContinueImmediately;
    }

    /** Hands the calls to the executor and drains its reminders into the session's. */
    method RunTools(uses: seq<RecordedToolUse>) returns (results: seq<RecordedToolResult>)
      requires var ex := Execution.State(executor.state.world, executor.state.gate, []);
               Execution.BatchedOnlyRead(executor.cfg, ex, uses)
      modifies this`pendingReminders, executor
      ensures var ex := Execution.State(old(executor.state.world), old(executor.state.gate), []);
              var end := Execution.After(executor.cfg, ex, uses, |uses|);
              && results == Execution.SequentialResults(executor.cfg, ex, uses, |uses|)
              && executor.state == Execution.State(end.world, end.gate, [])
              && multiset(pendingReminders)
                 == multiset(old(pendingReminders)) + multiset(old(executor.state.reminders)) + multiset(end.reminders)
    {
      ghost var ex := executor.state;
      RemindersFollow(executor.cfg, ex, uses, |uses|);
      RemindersDoNotMatter(executor.cfg, ex, Execution.State(ex.world, ex.gate, []), uses, |uses|);
      RemindersDoNotMatterToReads(executor.cfg, Execution.State(ex.world, ex.gate, []), ex, uses);
      results := [];
      if |uses| > 0 {
        ghost var schedule;
        results, schedule := executor.Execute(uses);
      }
      pendingReminders := pendingReminders + executor.state.reminders;
      executor.state := executor.state.(reminders := []);
    }

    /** Compacts, refreshes the plan, translates and guards. The reminders go out with the system prompt. */
    method Prepare(input: TurnInput, ghost before: SessionState)
      returns (messages: seq<Message>, repairs: seq<Pairing.Repair>)
      requires plan.Valid() && Compaction.Memory(history, usageTotal) == Received(before, input)
      modifies this`history, this`usageTotal, this`pendingReminders, plan
      ensures pendingReminders == []
      ensures Compaction.Memory(history, usageTotal)
              == Compaction.Compact(Received(before, input), input.trigger, input.summary).0
      ensures messages == Pairing.Repaired(Outgoing(before, input))
              && repairs == Pairing.Repairs(Outgoing(before, input))
      ensures plan.Valid() && plan.events == old(plan.events) + [Planner.Pruned(turnIndex)]
      ensures plan.outcomes == old(plan.outcomes)
    {
      hide Compaction.Compact, Pairing.Repairs, Pairing.Repaired, Planner.Refreshed;
      var compacted := CompactInner(input.trigger, input.summary);
      plan.Refresh(turnIndex);
      pendingReminders := [];
      messages := TranslateHistory(history);
      assert messages == Outgoing(before, input);
      messages, repairs := Pairing.SanitizeToolPairing(messages);
    }

    /** What commands do to the history between turns: anything. */
    method EditHistory(edited: seq<ConversationItem>)
      requires Valid()
      modifies this`history
      ensures Valid() && history == edited
    {
      history := edited;
    }

    /**
     One turn, whatever the history has become. What is sent is balanced, and it is the plain translation
     as long as the history is paired, which it then stays. The plan's counters stay exact.
     */
    method AgentTurn(input: TurnInput) returns (outcome: Outcome, ghost sent: seq<Message>)
      requires Valid()
      requires Records(limits, State(), input) ==>
                 CallsOnlyRead(
                   executor.cfg, limits, executor.state.world, executor.state.gate, input, input.reply.response)
      modifies this, executor, plan
      ensures (State(), outcome) == Turn(executor.cfg, limits, old(State()), input)
      ensures sent == (if OverBudget(limits, old(State())) || GuardStops(old(State()), input) then []
                       else Pairing.Repaired(Outgoing(old(State()), input)))
      ensures Pairing.Balanced(sent)
      ensures Paired(old(history)) ==>
                Paired(history) && outcome != PairingError && (sent == [] || sent == Outgoing(old(State()), input))
      ensures Valid() && plan.events == old(plan.events) + LogOf(limits, old(State()), input)
      ensures if OverBudget(limits, old(State())) then plan.blockTurns == old(plan.blockTurns)
              else CountersExact(plan.blockTurns, old(plan.events), plan.window, old(turnIndex), input,
                                 if Records(limits, old(State()), input) then ReplyText(input.reply.response.content)
                                 else None)
      ensures !Records(limits, old(State()), input) ==>
                && plan.outcomes == old(plan.outcomes)
                && pendingReminders == if OverBudget(limits, old(State())) then old(pendingReminders) else []
      ensures Records(limits, old(State()), input) ==>
                var uses := ExecutedUses(limits, input, input.reply.response);
                var ex := Execution.State(old(executor.state.world), old(executor.state.gate), []);
                && plan.outcomes == old(plan.outcomes)
                   + OutcomesOf(uses, Execution.SequentialResults(executor.cfg, ex, uses, |uses|), |uses|)
                && multiset(pendingReminders)
                   == multiset(Execution.After(executor.cfg, ex, uses, |uses|).reminders)
    {
      hide Paired, Compaction.Compact, Observe, Pairing.Repairs, Pairing.Repaired, Planner.InOrder, Planner.TurnsAgree,
           Planner.CountsAgree, Planner.StreaksAgree, CountersExact, BlockEvents, ReplyText, LogOf, Outgoing, Turn,
           ExecutedUses, OutcomesOf, Execution.SequentialResults, Execution.After, Pairing.Balanced, CallsOnlyRead;
      ghost var before, log := State(), plan.events;
      sent := [];
      Pairing.NothingIsBalanced();
      if Paired(history) { TurnKeepsPairing(executor.cfg, limits, before, input); }
      Pairing.RepairedIsBalanced(Outgoing(before, input));
      TurnIs(executor.cfg, limits, before, input);
      LogIs(log, limits, before, input);
      OrderIsKept(log, limits, before, input, turnIndex);
      OrderIsKept(log, limits, before, input, turnIndex + 1);
      if input.userInput.Some? { history := history + [User(input.userInput.value)]; }
      if limits.maxTurns > 0 && turnIndex >= limits.maxTurns { return AwaitUser, sent; }
      var messages, repairs := Prepare(input, before);
      assert plan.events + BlockEvents(input, None, turnIndex) == plan.events by { NoTextNoBlock(input, turnIndex); }
      CountersAreExact(plan.blockTurns, log, plan.window, input, None, turnIndex);
      if input.hardMode && |repairs| > 0 { return PairingError, sent; }
      sent := messages;
      if input.reply.LlmFailed? { return LlmError, sent; }
      ghost var text := ReplyText(input.reply.response.content);
      outcome := ObserveResponse(input, input.reply.response);
      CountersAreExact(plan.blockTurns, log, plan.window, input, text, before.turnIndex);
    }
  }
}
