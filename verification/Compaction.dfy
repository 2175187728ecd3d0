/**
 Compaction replaces the head of the history by a summary. The head is drained
 before the summary is asked for, so a failed call leaves only the tail.
 */
module Compaction {
  import opened Prelude
  import opened Messages
  import opened History

  // The wording is abbreviated: nothing depends on it.
  const NOTICE: string := "[SUMMARY]"

  datatype Memory = Memory(history: seq<ConversationItem>, used: nat)

  /** `threshold` stands for the token count at which compaction is due. */
  datatype Trigger = Trigger(disabled: bool, force: bool, threshold: nat)

  datatype Summary = SummaryFailed | Summarized(text: string, usage: Option<nat>)

  datatype Outcome = Skipped | Ran | Failed

  /** Where the kept tail begins, and whether the synthetic prefix has an assistant reply. */
  datatype Cut = Cut(at: nat, withAssistant: bool)

  function Max(a: nat, b: nat): nat { if a > b then a else b }

  function KeepCount(n: nat): nat { Max(2, n / 3) }

  predicate IsBoundary(item: ConversationItem, user: bool) {
    if user then item.User? else item.Assistant?
  }

  /** Walks down from `c` to the nearest boundary, at most to item 1. */
  function Snap(h: seq<ConversationItem>, c: nat, user: bool): (at: nat)
    requires 0 < c < |h|
    ensures 0 < at <= c
  {
    if c > 1 && !IsBoundary(h[c], user) then Snap(h, c - 1, user) else c
  }

  function FindCut(h: seq<ConversationItem>): (cut: Option<Cut>)
    requires |h| >= 4
    ensures cut.Some? ==> 0 < cut.value.at <= |h| - KeepCount(|h|)
    ensures cut.Some? ==> IsBoundary(h[cut.value.at], cut.value.withAssistant)
  {
    var initial := |h| - KeepCount(|h|);
    var c := Snap(h, initial, true);
    if h[c].User? then Some(Cut(c, true))
    else
      var c2 := Snap(h, initial, false);
      if h[c2].Assistant? then Some(Cut(c2, false)) else None
  }

  /** The two searches as the loops that perform them. */
  method ChooseCut(h: seq<ConversationItem>) returns (cut: Option<Cut>)
    requires |h| >= 4
    ensures cut == FindCut(h)
  {
    var initial := |h| - KeepCount(|h|);
    var c := initial;
    while c > 1 && !h[c].User?
      invariant 0 < c <= initial
      invariant Snap(h, c, true) == Snap(h, initial, true)
    {
      c := c - 1;
    }
    if h[c].User? { return Some(Cut(c, true)); }
    var c2 := initial;
    while c2 > 1 && !h[c2].Assistant?
      invariant 0 < c2 <= initial
      invariant Snap(h, c2, false) == Snap(h, initial, false)
    {
      c2 := c2 - 1;
    }
    cut := if h[c2].Assistant? then Some(Cut(c2, false)) else None;
  }

  lemma {:induction false} SnapIsLatest(h: seq<ConversationItem>, c: nat, user: bool)
    requires 0 < c < |h|
    ensures var at := Snap(h, c, user);
            && (IsBoundary(h[at], user) || at == 1)
            && forall i :: at < i <= c ==> !IsBoundary(h[i], user)
  {
    if c > 1 && !IsBoundary(h[c], user) { SnapIsLatest(h, c - 1, user); }
  }

  /**
   The cut is the latest user item that leaves enough behind it or, in the absence of one
   after item 0, the latest assistant item.
   */
  lemma CutIsLatest(h: seq<ConversationItem>)
    requires |h| >= 4
    ensures var last := |h| - KeepCount(|h|);
            match FindCut(h)
            case None => forall i :: 0 < i <= last ==> h[i].ToolResults?
            case Some(cut) =>
              && (forall i :: cut.at < i <= last ==> !IsBoundary(h[i], cut.withAssistant))
              && (!cut.withAssistant ==> forall i :: 0 < i <= last ==> !h[i].User?)
  {
    SnapIsLatest(h, |h| - KeepCount(|h|), true);
    SnapIsLatest(h, |h| - KeepCount(|h|), false);
  }

  function Prefix(cut: Cut, summary: string): seq<ConversationItem> {
    if cut.withAssistant then [User(NOTICE), Assistant(Some(summary), [])] else [User(NOTICE + "\n\n" + summary)]
  }

  predicate Due(m: Memory, t: Trigger) {
    !t.disabled && (t.force || m.used >= t.threshold) && |m.history| >= 4
  }

  function Compact(m: Memory, t: Trigger, s: Summary): (Memory, Outcome) {
    if !Due(m, t) || FindCut(m.history).None? then (m, Skipped)
    else
      var cut := FindCut(m.history).value;
      var tail := m.history[cut.at..];
      match s
      case SummaryFailed => (m.(history := tail), Failed)
      case Summarized(text, usage) =>
        (Memory(Prefix(cut, text) + tail, if usage.Some? then usage.value else 0), Ran)
  }

  /** On a paired history the "no safe boundary" exit is dead. */
  lemma CutExists(h: seq<ConversationItem>)
    requires Paired(h) && |h| >= 4
    ensures FindCut(h).Some?
  {
    CutIsLatest(h);
    assert PairedAt(h, 2);
  }

  lemma PrefixIsPaired(cut: Cut, summary: string)
    ensures Paired(Prefix(cut, summary)) && Prefix(cut, summary)[0].User?
  {
    PairedUser(NOTICE);
    PairedUser(NOTICE + "\n\n" + summary);
    PairedExchange(Some(summary), [], []);
    if cut.withAssistant {
      PairedConcat([User(NOTICE)], [Assistant(Some(summary), [])]);
      assert Prefix(cut, summary) == [User(NOTICE)] + [Assistant(Some(summary), [])];
    }
  }

  /** Compaction keeps the pairing on every path, also when the summary call fails. */
  lemma CompactKeepsPairing(m: Memory, t: Trigger, s: Summary)
    requires Paired(m.history)
    ensures Paired(Compact(m, t, s).0.history)
    ensures Due(m, t) ==> Compact(m, t, s).1 != Skipped
  {
    if Due(m, t) {
      CutExists(m.history);
      var cut := FindCut(m.history).value;
      PairedSuffix(m.history, cut.at);
      if s.Summarized? {
        PrefixIsPaired(cut, s.text);
        PairedConcat(Prefix(cut, s.text), m.history[cut.at..]);
      }
    }
  }

  /**
   After a compaction the history is a synthetic opening by the user, which carries the summary,
   and an unchanged suffix of the old one, which always includes the last third and at least two
   items. A failed summary call leaves the suffix alone: what stood before it is lost.
   */
  lemma CompactKeepsRecent(m: Memory, t: Trigger, s: Summary)
    requires Compact(m, t, s).1 != Skipped
    ensures var h, h' := m.history, Compact(m, t, s).0.history;
            exists k :: 0 < k <= |h| - KeepCount(|h|) &&
              match s
              case SummaryFailed => h' == h[k..]
              case Summarized(text, _) =>
                && |h'| >= |h| - k && h'[|h'| - (|h| - k)..] == h[k..]
                && |h'| - (|h| - k) == (if h[k].User? then 2 else 1)
                && h'[0].User?
                && (if h[k].User? then h'[1] == Assistant(Some(text), []) else EndsWith(h'[0].text, text))
  {
    var cut := FindCut(m.history).value;
    var h, h', k := m.history, Compact(m, t, s).0.history, cut.at;
    if s.Summarized? {
      PrefixIsPaired(cut, s.text);
      assert h' == Prefix(cut, s.text) + h[k..];
      assert |h'| - (|h| - k) == |Prefix(cut, s.text)|;
      assert h'[|Prefix(cut, s.text)|..] == h[k..];
    }
  }

  predicate EndsWith(s: string, suffix: string) {
    |suffix| <= |s| && s[|s| - |suffix|..] == suffix
  }

  /** A successful compaction shortens the history exactly when the cut lies behind the prefix it inserts. */
  lemma CompactShrinksIff(m: Memory, t: Trigger, s: Summary)
    requires Due(m, t) && FindCut(m.history).Some? && s.Summarized?
    ensures var cut := FindCut(m.history).value;
            |Compact(m, t, s).0.history| < |m.history| <==> cut.at > (if cut.withAssistant then 2 else 1)
  {
  }

  /** Four items whose only later user item is the second: compaction makes five of them. */
  lemma CompactCanGrow(s: Summary)
    requires s.Summarized?
    ensures var h := [User("a"), User("b"), Assistant(None, []), Assistant(None, [])];
            var t := Trigger(false, true, 0);
            Paired(h) && |Compact(Memory(h, 0), t, s).0.history| == 5
  {
    var h := [User("a"), User("b"), Assistant(None, []), Assistant(None, [])];
    assert Snap(h, 2, true) == Snap(h, 1, true) == 1;
    assert FindCut(h) == Some(Cut(1, true));
    assert h[1..] == [User("b"), Assistant(None, []), Assistant(None, [])];
    forall i | 0 <= i < |h|
      ensures PairedAt(h, i)
    {
    }
  }

  /** The last place a cut may fall: behind it lie a third of the history and at least two items. */
  function LastCut(n: nat): nat
    requires n >= 2
  {
    if n / 3 > 2 then n - n / 3 else n - 2
  }

  /**
   A cut at item `k`: the latest user item up to `last` or, if there is none behind item 0, the latest
   assistant item.
   */
  ghost predicate CutsAt(h: seq<ConversationItem>, last: nat, k: nat)
    requires last < |h|
  {
    && 0 < k <= last
    && if h[k].User? then forall i :: k < i <= last ==> !h[i].User?
       else h[k].Assistant? && forall i :: 0 < i <= last ==> !h[i].User? && (i > k ==> !h[i].Assistant?)
  }

  /** When compaction acts, where it cuts, and what it leaves: told without the search for the cut. */
  lemma CompactIs(m: Memory, t: Trigger, s: Summary) returns (k: nat)
    ensures var h := m.history;
            var (after, outcome) := Compact(m, t, s);
            if t.disabled || (!t.force && m.used < t.threshold) || |h| < 4
               || forall i :: 0 < i <= LastCut(|h|) ==> h[i].ToolResults?
            then after == m && outcome == Skipped
            else
              && CutsAt(h, LastCut(|h|), k)
              && match s
                 case SummaryFailed => outcome == Failed && after == Memory(h[k..], m.used)
                 case Summarized(text, usage) =>
                   && outcome == Ran && after.used == (if usage.Some? then usage.value else 0)
                   && after.history == (
                        if h[k].User? then [User(NOTICE), Assistant(Some(text), [])] + h[k..]
                        else [User(NOTICE + "\n\n" + text)] + h[k..])
  {
    hide Snap;
    var h := m.history;
    k := 0;
    if |h| >= 4 {
      CutIsLatest(h);
      if FindCut(h).Some? { k := FindCut(h).value.at; }
      assert FindCut(h).Some? ==> CutsAt(h, LastCut(|h|), k);
    }
  }
}
