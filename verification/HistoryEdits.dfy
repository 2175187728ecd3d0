/**
 Sessions whose history is also edited between turns, as commands of the user do: stripping results,
 trimming either end, loading, merging. The guard answers any edit.
 */
module HistoryEdits {
  import opened Prelude
  import opened Messages
  import opened History
  import Execution
  import Pairing
  import opened Sessions

  datatype Action = Take(input: TurnInput) | Edit(edited: seq<ConversationItem>)

  /** The session after any number of turns and edits. */
  function AfterActions(cfg: Execution.Config, limits: Limits, s: SessionState, actions: seq<Action>): SessionState {
    if |actions| == 0 then s
    else
      var before := AfterActions(cfg, limits, s, actions[..|actions| - 1]);
      match actions[|actions| - 1]
      case Take(input) => Turn(cfg, limits, before, input).0
      case Edit(edited) => before.(memory := before.memory.(history := edited))
  }

  /** Whether the history was paired when it was last edited. */
  ghost predicate PairedSinceEdit(s: SessionState, actions: seq<Action>) {
    if |actions| == 0 then Paired(s.memory.history)
    else
      match actions[|actions| - 1]
      case Take(_) => PairedSinceEdit(s, actions[..|actions| - 1])
      case Edit(edited) => Paired(edited)
  }

  /** Turns repair nothing in the history and break nothing: pairing is lost by edits alone. */
  lemma {:induction false} OnlyEditsBreakPairing(cfg: Execution.Config, limits: Limits, s: SessionState,
                                                 actions: seq<Action>)
    requires PairedSinceEdit(s, actions)
    ensures Paired(AfterActions(cfg, limits, s, actions).memory.history)
  {
    hide Paired, Turn;
    if |actions| > 0 && actions[|actions| - 1].Take? {
      OnlyEditsBreakPairing(cfg, limits, s, actions[..|actions| - 1]);
      TurnKeepsPairing(cfg, limits, AfterActions(cfg, limits, s, actions[..|actions| - 1]),
                       actions[|actions| - 1].input);
    }
  }

  /**
   After any turns and edits the guard sends a balanced thread. It repairs something, and in hard mode
   turns the turn into an error, exactly when the translation at hand is not balanced, which takes an
   edit that leaves the history unpaired.
   */
  lemma GuardAnswersEdits(cfg: Execution.Config, limits: Limits, s: SessionState, actions: seq<Action>, next: TurnInput)
    ensures var now := AfterActions(cfg, limits, s, actions);
            var thread := Outgoing(now, next);
            && Pairing.Balanced(Pairing.Repaired(thread))
            && (Pairing.Repairs(thread) == [] <==> Pairing.Balanced(thread))
            && (Pairing.Balanced(thread) ==> Pairing.Repaired(thread) == thread)
            && (Turn(cfg, limits, now, next).1 == PairingError <==>
                  !OverBudget(limits, now) && next.hardMode && !Pairing.Balanced(thread))
            && (PairedSinceEdit(s, actions) ==> Pairing.Balanced(thread))
  {
    hide Paired, Turn, Outgoing, Observe, AfterActions, Pairing.Balanced, Pairing.Repairs, Pairing.Repaired;
    var now := AfterActions(cfg, limits, s, actions);
    var thread := Outgoing(now, next);
    Pairing.RepairedIsBalanced(thread);
    Pairing.NoRepairsIffBalanced(thread);
    TurnIs(cfg, limits, now, next);
    if next.reply.Replied? { ObserveNeverStops(cfg, limits, now, next); }
    if PairedSinceEdit(s, actions) {
      OnlyEditsBreakPairing(cfg, limits, s, actions);
      TurnKeepsPairing(cfg, limits, now, next);
    }
  }

  lemma ObserveNeverStops(cfg: Execution.Config, limits: Limits, s: SessionState, input: TurnInput)
    requires input.reply.Replied?
    ensures forall t :: Observe(cfg, limits, t, input, input.reply.response).1 != PairingError
  {
    forall t
      ensures Observe(cfg, limits, t, input, input.reply.response).1 != PairingError
    {
      ObserveOutcome(cfg, limits, t, input, input.reply.response);
    }
  }

  // ----- What the common edits do to a paired history -----

  predicate Calls(item: ConversationItem) {
    item.Assistant? && |item.toolUses| > 0
  }

  /** An item with calls that is not followed by results makes the thread unbalanced. */
  lemma UnansweredCall(h: seq<ConversationItem>, i: nat)
    requires i < |h| && Calls(h[i]) && (i + 1 < |h| ==> !h[i + 1].ToolResults?)
    ensures !Pairing.Balanced(Translate(h))
  {
    var ms := Translate(h);
    AssistantIds(h[i]);
    if i + 1 < |h| { NoResultIds(h[i + 1]); }
    assert UseIds(ms[i].content)[0] in Pairing.Pending(ms[i]);
    assert !Pairing.AnsweredAt(ms, i);
  }

  lemma NoResultIds(item: ConversationItem)
    requires !item.ToolResults?
    ensures |ResultIds(TranslateItem(item).content)| == 0
  {
    hide TranslateItem;
    if item.User? { UserIds(item); } else { AssistantIds(item); }
  }

  /** Cutting items off the end leaves a balanced thread exactly unless the last one left makes calls. */
  lemma TrimEndIff(h: seq<ConversationItem>, n: nat)
    requires Paired(h) && n <= |h|
    ensures Pairing.Balanced(Translate(h[..n])) <==> n == 0 || !Calls(h[n - 1])
  {
    var kept := h[..n];
    if n > 0 && Calls(h[n - 1]) {
      UnansweredCall(kept, n - 1);
    } else {
      forall i | 0 <= i < |kept|
        ensures PairedAt(kept, i)
      {
        assert PairedAt(h, i);
      }
      PairedNeedsNoRepair(kept);
      Pairing.NoRepairsIffBalanced(Translate(kept));
    }
  }

  /** Dropping items from the front leaves a balanced thread exactly unless tool results come to the front. */
  lemma TrimFrontIff(h: seq<ConversationItem>, n: nat)
    requires Paired(h) && n <= |h|
    ensures Pairing.Balanced(Translate(h[n..])) <==> n == |h| || !h[n].ToolResults?
  {
    var kept := h[n..];
    if n < |h| && h[n].ToolResults? {
      assert PairedAt(h, n);
      ResultBlockIds(h[n].results);
      var ms := Translate(kept);
      assert ResultIds(ms[0].content)[0] in ResultIds(ms[0].content);
      assert !Pairing.OrphanFree(ms, 0);
    } else {
      if n < |h| { PairedSuffix(h, n); }
      PairedNeedsNoRepair(kept);
      Pairing.NoRepairsIffBalanced(Translate(kept));
    }
  }

  function StripToolResults(h: seq<ConversationItem>): seq<ConversationItem> {
    if |h| == 0 then []
    else if h[0].ToolResults? then StripToolResults(h[1..])
    else [h[0]] + StripToolResults(h[1..])
  }

  lemma {:induction false} StripKeeps(h: seq<ConversationItem>)
    ensures var kept := StripToolResults(h);
            && (forall k :: 0 <= k < |kept| ==> !kept[k].ToolResults? && kept[k] in h)
            && (forall item :: item in h && !item.ToolResults? ==> item in kept)
  {
    if |h| > 0 { StripKeeps(h[1..]); }
  }

  lemma {:induction false} StripSnoc(h: seq<ConversationItem>, item: ConversationItem)
    ensures StripToolResults(h + [item]) == StripToolResults(h) + if item.ToolResults? then [] else [item]
  {
    if |h| == 0 {
      assert h + [item] == [item] && [item][1..] == [];
    } else {
      assert (h + [item])[1..] == h[1..] + [item];
      StripSnoc(h[1..], item);
    }
  }

  /** `kept` are the items at the positions `at`, which are those of all items but tool results. */
  ghost predicate OthersAt(h: seq<ConversationItem>, kept: seq<ConversationItem>, at: seq<nat>) {
    && Increasing(at) && |at| == |kept|
    && (forall i: nat :: i in at <==> i < |h| && !h[i].ToolResults?)
    && forall k :: 0 <= k < |at| ==> at[k] < |h| && kept[k] == h[at[k]]
  }

  lemma {:induction false} OthersNext(h: seq<ConversationItem>, kept: seq<ConversationItem>, at: seq<nat>)
    requires |h| > 0 && OthersAt(h[..|h| - 1], kept, at)
    ensures var n := |h| - 1;
            if h[n].ToolResults? then OthersAt(h, kept, at) else OthersAt(h, kept + [h[n]], at + [n])
  {
    if !h[|h| - 1].ToolResults? { IncreasingSnoc(at, |h| - 1); }
  }

  /** Stripping leaves every other item, in order. */
  lemma {:induction false} StripIs(h: seq<ConversationItem>) returns (at: seq<nat>)
    ensures OthersAt(h, StripToolResults(h), at)
  {
    if |h| == 0 {
      at := [];
    } else {
      hide *;
      var n := |h| - 1;
      at := StripIs(h[..n]);
      OthersNext(h, StripToolResults(h[..n]), at);
      StripNext(h);
      at := if h[n].ToolResults? then at else at + [n];
    }
  }

  lemma {:induction false} StripNext(h: seq<ConversationItem>)
    requires |h| > 0
    ensures var n := |h| - 1;
            StripToolResults(h) == if h[n].ToolResults? then StripToolResults(h[..n])
                                   else StripToolResults(h[..n]) + [h[n]]
  {
    hide *;
    var n := |h| - 1;
    StripSnoc(h[..n], h[n]);
    assert h == h[..n] + [h[n]];
  }

  lemma NoCallsIsPaired(h: seq<ConversationItem>)
    requires forall item :: item in h ==> !item.ToolResults? && !Calls(item)
    ensures Paired(h)
  {
    forall i | 0 <= i < |h|
      ensures PairedAt(h, i)
    {
      assert h[i] in h;
    }
  }

  /** Stripping the tool results leaves a balanced thread exactly if there are no calls at all. */
  lemma StripIff(h: seq<ConversationItem>)
    ensures Pairing.Balanced(Translate(StripToolResults(h))) <==> forall item :: item in h ==> !Calls(item)
  {
    hide StripToolResults, Calls, Paired, Translate, Pairing.Balanced;
    var kept := StripToolResults(h);
    StripKeeps(h);
    if item :| item in h && Calls(item) {
      CallsIsNoResult(item);
      var i :| 0 <= i < |kept| && kept[i] == item;
      UnansweredCall(kept, i);
    } else {
      forall item | item in kept
        ensures !item.ToolResults? && !Calls(item)
      {
        var k :| 0 <= k < |kept| && kept[k] == item;
      }
      NoCallsIsPaired(kept);
      PairedNeedsNoRepair(kept);
      Pairing.NoRepairsIffBalanced(Translate(kept));
    }
  }

  lemma CallsIsNoResult(item: ConversationItem)
    requires Calls(item)
    ensures !item.ToolResults?
  {
  }
}
