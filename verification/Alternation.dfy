/**
 Alternation of roles: assistant items and items of the user's side take turns. Providers reject
 requests without it, but turns keep it only under a condition, which is exact here.
 */
module Alternation {
  import opened Prelude
  import opened Messages
  import Compaction
  import Execution
  import Pairing
  import opened Sessions

  ghost predicate Alternates(h: seq<ConversationItem>) {
    forall i :: 0 <= i < |h| - 1 ==> TakeTurns(h[i], h[i + 1])
  }

  predicate TakeTurns(a: ConversationItem, b: ConversationItem) {
    a.Assistant? != b.Assistant?
  }

  predicate EndsInAssistant(h: seq<ConversationItem>) {
    |h| > 0 && h[|h| - 1].Assistant?
  }

  lemma PushAlternates(h: seq<ConversationItem>, item: ConversationItem)
    ensures Alternates(h + [item]) <==> Alternates(h) && (|h| == 0 || TakeTurns(h[|h| - 1], item))
  {
    var now := h + [item];
    assert forall i :: 0 <= i < |h| ==> now[i] == h[i];
    if Alternates(now) {
      forall i | 0 <= i < |h| - 1
        ensures TakeTurns(h[i], h[i + 1])
      {
        assert TakeTurns(now[i], now[i + 1]);
      }
      assert |h| > 0 ==> TakeTurns(now[|h| - 1], now[|h| - 1 + 1]);
    }
  }

  lemma SuffixAlternates(h: seq<ConversationItem>, k: nat)
    requires Alternates(h) && k <= |h|
    ensures Alternates(h[k..])
  {
    forall i | 0 <= i < |h[k..]| - 1
      ensures TakeTurns(h[k..][i], h[k..][i + 1])
    {
      assert TakeTurns(h[k + i], h[k + i + 1]);
    }
  }

  lemma ConcatAlternates(a: seq<ConversationItem>, b: seq<ConversationItem>)
    requires Alternates(a) && Alternates(b)
    requires |a| > 0 && |b| > 0 ==> TakeTurns(a[|a| - 1], b[0])
    ensures Alternates(a + b)
  {
    var h := a + b;
    forall i | 0 <= i < |h| - 1
      ensures TakeTurns(h[i], h[i + 1])
    {
      if i < |a| - 1 {
        assert TakeTurns(a[i], a[i + 1]);
      } else if i >= |a| {
        assert TakeTurns(b[i - |a|], b[i - |a| + 1]);
      }
    }
  }

  // ----- Compaction -----

  /** Both strategies and the failure path keep alternation. */
  lemma CompactAlternates(m: Compaction.Memory, t: Compaction.Trigger, s: Compaction.Summary)
    requires Alternates(m.history)
    ensures Alternates(Compaction.Compact(m, t, s).0.history)
  {
    hide Compaction.FindCut;
    if Compaction.Due(m, t) && Compaction.FindCut(m.history).Some? {
      var cut := Compaction.FindCut(m.history).value;
      SuffixAlternates(m.history, cut.at);
      if s.Summarized? {
        var prefix := Compaction.Prefix(cut, s.text);
        assert Alternates(prefix);
        ConcatAlternates(prefix, m.history[cut.at..]);
      }
    }
  }

  /** The last two items always survive a compaction. */
  lemma CompactKeepsLastTwo(m: Compaction.Memory, t: Compaction.Trigger, s: Compaction.Summary)
    ensures var h, h' := m.history, Compaction.Compact(m, t, s).0.history;
            && (|h| == 0 <==> |h'| == 0)
            && (|h| > 0 ==> h'[|h'| - 1] == h[|h| - 1])
            && (|h| > 1 ==> |h'| > 1 && h'[|h'| - 2] == h[|h| - 2])
  {
    hide Compaction.FindCut;
    if Compaction.Due(m, t) && Compaction.FindCut(m.history).Some? {
      var tail := m.history[Compaction.FindCut(m.history).value.at..];
      assert tail[|tail| - 1] == m.history[|m.history| - 1] && tail[|tail| - 2] == m.history[|m.history| - 2];
    }
  }

  // ----- Recording a reply -----

  lemma BrokenStaysBroken(h: seq<ConversationItem>, more: seq<ConversationItem>)
    requires Alternates(h + more)
    ensures Alternates(h)
  {
    forall i | 0 <= i < |h| - 1
      ensures TakeTurns(h[i], h[i + 1])
    {
      assert TakeTurns((h + more)[i], (h + more)[i + 1]);
    }
  }

  /** What a reply appends alternates in itself and opens with the assistant. */
  lemma ExchangeAlternates(cfg: Execution.Config, limits: Limits, s: SessionState, input: TurnInput, r: Response)
    returns (exchange: seq<ConversationItem>)
    ensures Observe(cfg, limits, s, input, r).0.memory.history == s.memory.history + exchange
    ensures |exchange| > 0 && exchange[0].Assistant? && Alternates(exchange)
  {
    hide ExecutedUses, FinalText, ReplyText, Execution.SequentialResults, Execution.After;
    var text := ReplyText(r.content);
    var uses := ExecutedUses(limits, input, r);
    var ex := Execution.State(s.world, s.gate, []);
    var results := Execution.SequentialResults(cfg, ex, uses, |uses|);
    Execution.ResultsCarryIds(cfg, ex, uses);
    BlockedUsesNothing(limits, input, r);
    var closing := Closing(IsBlocked(input, text), r.stop, uses).0;
    var answers := if |results| > 0 then [ToolResults(results)] else [];
    exchange := [Assistant(FinalText(input, text), uses)] + answers + closing;
    assert Recorded(s.memory.history, FinalText(input, text), uses, results) + closing == s.memory.history + exchange;
    assert |results| > 0 ==> |closing| == 0;
  }

  lemma BlockedUsesNothing(limits: Limits, input: TurnInput, r: Response)
    ensures IsBlocked(input, ReplyText(r.content)) ==> |ExecutedUses(limits, input, r)| == 0
  {
  }

  lemma ObserveAlternates(cfg: Execution.Config, limits: Limits, s: SessionState, input: TurnInput, r: Response)
    ensures Alternates(Observe(cfg, limits, s, input, r).0.memory.history) <==>
            Alternates(s.memory.history) && !EndsInAssistant(s.memory.history)
  {
    hide Observe;
    var h := s.memory.history;
    var exchange := ExchangeAlternates(cfg, limits, s, input, r);
    PushAlternates(h, exchange[0]);
    if Alternates(h + exchange) {
      assert h + exchange == h + [exchange[0]] + exchange[1..];
      BrokenStaysBroken(h + [exchange[0]], exchange[1..]);
    } else if Alternates(h) && !EndsInAssistant(h) {
      ConcatAlternates(h, exchange);
    }
  }

  // ----- A whole turn -----

  /**
   On an alternating history a turn with user input keeps alternation exactly when the history is
   empty or ends in an assistant item; a turn without input that records a reply, exactly when it does not
   end in an assistant item; any other turn keeps it.
   */
  lemma TurnAlternatesIff(cfg: Execution.Config, limits: Limits, s: SessionState, input: TurnInput)
    requires Alternates(s.memory.history)
    ensures Alternates(Turn(cfg, limits, s, input).0.memory.history) <==>
              var h := s.memory.history;
              if input.userInput.Some? then |h| == 0 || EndsInAssistant(h)
              else Records(limits, s, input) ==> !EndsInAssistant(h)
  {
    hide Alternates, Compaction.Compact, Observe, Turn, GuardStops;
    var h, m := s.memory.history, Received(s, input);
    var m2 := Compaction.Compact(m, input.trigger, input.summary).0;
    TurnIs(cfg, limits, s, input);
    if input.reply.Replied? { ObserveAlternates(cfg, limits, s.(memory := m2), input, input.reply.response); }
    CompactKeepsLastTwo(m, input.trigger, input.summary);
    ReceivedAlternates(s, input);
    if Alternates(m.history) {
      CompactAlternates(m, input.trigger, input.summary);
    } else {
      LastPairBroken(m2.history);
    }
  }

  lemma ReceivedAlternates(s: SessionState, input: TurnInput)
    requires Alternates(s.memory.history)
    ensures var h, h' := s.memory.history, Received(s, input).history;
            if input.userInput.None? then h' == h
            else
              && |h'| == |h| + 1 && h'[|h'| - 1].User? && (|h| > 0 ==> h'[|h'| - 2] == h[|h| - 1])
              && (Alternates(h') <==> |h| == 0 || EndsInAssistant(h))
  {
    if input.userInput.Some? { PushAlternates(s.memory.history, User(input.userInput.value)); }
  }

  lemma LastPairBroken(h: seq<ConversationItem>)
    ensures |h| > 1 && !TakeTurns(h[|h| - 2], h[|h| - 1]) ==> !Alternates(h)
  {
    if |h| > 1 {
      var i := |h| - 2;
      assert Alternates(h) ==> TakeTurns(h[i], h[i + 1]);
    }
  }

  /** The same input again after a failed model call: two user items in a row. */
  lemma RetryBreaksAlternation(cfg: Execution.Config, limits: Limits, s: SessionState, input: TurnInput)
    requires |s.memory.history| == 0 && !OverBudget(limits, s)
    requires input.userInput == Some("a") && input.reply.LlmFailed? && !input.hardMode
    ensures var once := Turn(cfg, limits, s, input).0;
            && once.memory.history == [User("a")]
            && Turn(cfg, limits, once, input).0.memory.history == [User("a"), User("a")]
            && !Alternates([User("a"), User("a")])
  {
    hide Pairing.Repairs;
    TurnIs(cfg, limits, s, input);
    var once := Turn(cfg, limits, s, input).0;
    TurnIs(cfg, limits, once, input);
    var h := [User("a"), User("a")];
    assert !TakeTurns(h[0], h[0 + 1]);
  }
}
