/**
 The plan keeps per-rule block records under an optional sliding window and renders
 them, with the goal and stuck tools, as the lines the model sees.
 */
module Planner {
  import opened Prelude

  const MAX_BLOCK_RECORDS: nat := 10
  const SUSTAINED_THRESHOLD: nat := 3
  const TOOL_ERROR_THRESHOLD: nat := 3
  const USIZE_MAX: nat := 0xFFFF_FFFF_FFFF_FFFF

  /** Rules and tools are known by name. */
  datatype Name = Name(text: string)

  const UNKNOWN: Name := Name("unknown")

  // ----- Names in order -----

  predicate LexLess(a: string, b: string) {
    if |b| == 0 then false
    else if |a| == 0 then true
    else a[0] < b[0] || (a[0] == b[0] && LexLess(a[1..], b[1..]))
  }

  predicate Less(a: Name, b: Name) {
    LexLess(a.text, b.text)
  }

  /** The texts agree on `k` characters, where the first ends or has the smaller character next. */
  predicate LessAfter(a: string, b: string, k: nat) {
    k <= |a| && k < |b| && a[..k] == b[..k] && (k == |a| || a[k] < b[k])
  }

  lemma SameFirst(a: string, b: string, k: nat)
    requires LessAfter(a, b, k)
    ensures k > 0 ==> |a| > 0 && |b| > 0 && a[0] == b[0]
  {
    if k > 0 { assert a[0] == a[..k][0] && b[0] == b[..k][0]; }
  }

  /** Texts are compared at the first character in which they differ, and a text comes before its extensions. */
  lemma {:induction false} LexIs(a: string, b: string)
    ensures LexLess(a, b) <==> exists k :: LessAfter(a, b, k)
  {
    if |b| > 0 && |a| > 0 && a[0] == b[0] {
      var a', b' := a[1..], b[1..];
      assert a == [a[0]] + a' && b == [b[0]] + b';
      LexIs(a', b');
      if LexLess(a', b') {
        var k: nat :| LessAfter(a', b', k);
        var m := k + 1;
        assert a[..m] == [a[0]] + a'[..k] && b[..m] == [b[0]] + b'[..k];
        assert LessAfter(a, b, m);
      }
      if k: nat :| LessAfter(a, b, k) {
        var m := k - 1;
        assert a'[..m] == a[..k][1..] && b'[..m] == b[..k][1..];
        assert LessAfter(a', b', m);
      }
    } else {
      assert LexLess(a, b) ==> LessAfter(a, b, 0);
      forall k: nat | LessAfter(a, b, k)
        ensures k == 0
      {
        SameFirst(a, b, k);
      }
    }
  }

  lemma {:induction false} LexTotal(a: string, b: string)
    ensures a == b || LexLess(a, b) || LexLess(b, a)
    ensures !(LexLess(a, b) && LexLess(b, a)) && !LexLess(a, a)
  {
    if |a| > 0 {
      LexTotal(a[1..], a[1..]);
      if |b| > 0 {
        LexTotal(a[1..], b[1..]);
        if a[0] == b[0] && a[1..] == b[1..] { assert a == [a[0]] + a[1..] && b == [b[0]] + b[1..]; }
      }
    }
  }

  lemma {:induction false} LexTransitive(a: string, b: string, c: string)
    requires LexLess(a, b) && LexLess(b, c)
    ensures LexLess(a, c)
  {
    if |a| > 0 && a[0] == b[0] && b[0] == c[0] { LexTransitive(a[1..], b[1..], c[1..]); }
  }

  predicate IsLeast(m: Name, s: set<Name>) {
    m in s && forall x :: x in s ==> x == m || Less(m, x)
  }

  lemma {:induction false} LeastExists(s: set<Name>)
    requires |s| > 0
    ensures exists m :: IsLeast(m, s)
  {
    var m :| m in s;
    var rest := s - {m};
    assert s == {m} + rest;
    if |rest| == 0 {
      assert IsLeast(m, s);
    } else {
      LeastExists(rest);
      var r :| IsLeast(r, rest);
      LexTotal(m.text, r.text);
      if Less(r, m) {
        assert IsLeast(r, s);
      } else {
        forall x | x in s
          ensures x == m || Less(m, x)
        {
          if x != m && x != r { LexTransitive(m.text, r.text, x.text); }
        }
        assert IsLeast(m, s);
      }
    }
  }

  lemma LeastIsUnique(m: Name, n: Name, s: set<Name>)
    requires IsLeast(m, s) && IsLeast(n, s)
    ensures m == n
  {
    LexTotal(m.text, n.text);
  }

  ghost function Least(s: set<Name>): (m: Name)
    requires |s| > 0
    ensures IsLeast(m, s)
  {
    LeastExists(s);
    var m :| IsLeast(m, s);
    m
  }

  /** The names of a set in increasing order. */
  ghost function Sorted(s: set<Name>): (names: seq<Name>)
    ensures |names| == |s| && forall x :: x in names <==> x in s
    decreases |s|
  {
    if |s| == 0 then [] else [Least(s)] + Sorted(s - {Least(s)})
  }

  lemma {:induction false} SortedIncreases(s: set<Name>, i: nat, j: nat)
    requires i < j < |s|
    ensures Less(Sorted(s)[i], Sorted(s)[j])
    decreases |s|
  {
    var m := Least(s);
    var rest := Sorted(s - {m});
    if i > 0 {
      SortedIncreases(s - {m}, i - 1, j - 1);
    } else {
      assert Sorted(s)[j] == rest[j - 1] && rest[j - 1] in rest;
    }
  }

  lemma SortedStep(s: set<Name>)
    ensures |s| == 0 ==> Sorted(s) == []
    ensures |s| > 0 ==> Sorted(s) == [Least(s)] + Sorted(s - {Least(s)})
  {
  }

  lemma LeastIsListed(s: set<Name>)
    requires |s| > 0
    ensures exists m :: m in s && IsLeast(m, s)
  {
    LeastExists(s);
    var m :| IsLeast(m, s);
    assert m in s && IsLeast(m, s);
  }

  lemma SortedBegins(s: set<Name>, m: Name)
    requires |s| > 0 && IsLeast(m, s)
    ensures Sorted(s) == [m] + Sorted(s - {m})
  {
    LeastIsUnique(m, Least(s), s);
    SortedStep(s);
  }

  /** `names` opens the sorted list of `s`, and the names in `left` are still to come. */
  ghost predicate SortedSoFar(s: set<Name>, left: set<Name>, names: seq<Name>) {
    names + Sorted(left) == Sorted(s)
  }

  lemma NothingSorted(s: set<Name>)
    ensures SortedSoFar(s, s, [])
  {
    assert [] + Sorted(s) == Sorted(s);
  }

  lemma SortedOne(s: set<Name>, left: set<Name>, names: seq<Name>, m: Name)
    requires SortedSoFar(s, left, names) && IsLeast(m, left)
    ensures |left| > 0 && SortedSoFar(s, left - {m}, names + [m])
  {
    hide Sorted, IsLeast;
    assert |left| > 0 by { LeastIsIn(m, left); }
    SortedBegins(left, m);
    assert names + ([m] + Sorted(left - {m})) == names + [m] + Sorted(left - {m});
  }

  lemma LeastIsIn(m: Name, s: set<Name>)
    requires IsLeast(m, s)
    ensures m in s
  {
  }

  lemma AllSorted(s: set<Name>, left: set<Name>, names: seq<Name>)
    requires SortedSoFar(s, left, names) && |left| == 0
    ensures names == Sorted(s)
  {
    hide Sorted;
    SortedStep(left);
    assert names + [] == names;
  }

  method Sort(s: set<Name>) returns (names: seq<Name>)
    ensures names == Sorted(s)
  {
    hide SortedSoFar, IsLeast, Sorted;
    names := [];
    var left := s;
    NothingSorted(s);
    while |left| > 0
      invariant SortedSoFar(s, left, names)
      decreases |left|
    {
      LeastIsListed(left);
      var m :| m in left && IsLeast(m, left);
      SortedOne(s, left, names, m);
      names := names + [m];
      left := left - {m};
    }
    AllSorted(s, left, names);
  }

  // ----- The sliding window -----

  /** A block at turn `t` still counts at turn `now`; the sum saturates. */
  predicate Alive(t: nat, window: nat, now: nat) {
    (if t + window > USIZE_MAX then USIZE_MAX else t + window) > now
  }

  function AliveTurns(turns: seq<nat>, window: nat, now: nat): seq<nat> {
    if |turns| == 0 then []
    else if Alive(turns[|turns| - 1], window, now)
    then AliveTurns(turns[..|turns| - 1], window, now) + [turns[|turns| - 1]]
    else AliveTurns(turns[..|turns| - 1], window, now)
  }

  type TurnMap = map<Name, seq<nat>>

  function TurnsOf(m: TurnMap, r: Name): seq<nat> {
    if r in m then m[r] else []
  }

  /** What happened to the plan: a block of some rules at a turn, or a prune at a turn. */
  datatype Event = Blocked(turn: nat, rules: set<Name>) | Pruned(turn: nat)

  /** All turns at which rule `r` blocked, in order. */
  ghost function Recorded(events: seq<Event>, r: Name): seq<nat> {
    if |events| == 0 then []
    else
      var before, e := Recorded(events[..|events| - 1], r), events[|events| - 1];
      if e.Blocked? && r in e.rules then before + [e.turn] else before
  }

  /** The turns the plan still holds for rule `r`, replaying blocks and prunes as they came. */
  ghost function Held(events: seq<Event>, window: Option<nat>, r: Name): seq<nat> {
    if |events| == 0 then []
    else
      var before, e := Held(events[..|events| - 1], window, r), events[|events| - 1];
      match e
      case Blocked(turn, rules) => if r in rules then before + [turn] else before
      case Pruned(now) => if window.Some? then AliveTurns(before, window.value, now) else before
  }

  /** Prunes come at turns that do not decrease, none after `now`. */
  ghost predicate InOrder(events: seq<Event>, now: nat) {
    |events| > 0 ==>
      var e := events[|events| - 1];
      if e.Pruned? then e.turn <= now && InOrder(events[..|events| - 1], e.turn)
      else InOrder(events[..|events| - 1], now)
  }

  /** Pruning early and pruning again later is pruning once, later. */
  lemma {:induction false} PruneTwice(turns: seq<nat>, window: nat, first: nat, then_: nat)
    requires first <= then_
    ensures AliveTurns(AliveTurns(turns, window, first), window, then_) == AliveTurns(turns, window, then_)
  {
    if |turns| > 0 {
      var rest, t := turns[..|turns| - 1], turns[|turns| - 1];
      PruneTwice(rest, window, first, then_);
      if Alive(t, window, first) {
        assert AliveTurns(turns, window, first)[..|AliveTurns(rest, window, first)|] == AliveTurns(rest, window, first);
      }
    }
  }

  lemma {:induction false} HeldFiltersRecorded(events: seq<Event>, window: nat, now: nat, r: Name)
    requires InOrder(events, now)
    ensures AliveTurns(Held(events, Some(window), r), window, now) == AliveTurns(Recorded(events, r), window, now)
  {
    if |events| > 0 {
      var before, e := events[..|events| - 1], events[|events| - 1];
      match e
      case Blocked(turn, rules) =>
        HeldFiltersRecorded(before, window, now, r);
        if r in rules {
          AliveSnoc(Held(before, Some(window), r), turn, window, now);
          AliveSnoc(Recorded(before, r), turn, window, now);
        }
      case Pruned(turn) =>
        HeldFiltersRecorded(before, window, turn, r);
        PruneTwice(Held(before, Some(window), r), window, turn, now);
        PruneTwice(Recorded(before, r), window, turn, now);
    }
  }

  lemma AliveSnoc(turns: seq<nat>, t: nat, window: nat, now: nat)
    ensures AliveTurns(turns + [t], window, now)
            == AliveTurns(turns, window, now) + if Alive(t, window, now) then [t] else []
  {
    assert (turns + [t])[..|turns|] == turns;
  }

  /** The turns still inside the window, or all of them when there is none. */
  function InWindow(turns: seq<nat>, window: Option<nat>, now: nat): seq<nat> {
    if window.Some? then AliveTurns(turns, window.value, now) else turns
  }

  /** Event `i` of the log is a block of rule `r` that still counts at turn `now`. */
  ghost predicate CountsAt(events: seq<Event>, i: nat, r: Name, window: Option<nat>, now: nat) {
    && i < |events| && events[i].Blocked? && r in events[i].rules
    && (window.Some? ==> events[i].turn + window.value > now && now < USIZE_MAX)
  }

  ghost predicate ShowsAt(turns: seq<nat>, at: seq<nat>, events: seq<Event>, window: Option<nat>, now: nat, r: Name) {
    && Increasing(at) && (forall i: nat :: i in at <==> CountsAt(events, i, r, window, now))
    && |turns| == |at| && forall k :: 0 <= k < |at| ==> at[k] < |events| && BlockAt(events[at[k]], turns[k])
  }

  predicate BlockAt(e: Event, turn: nat) {
    e.Blocked? && e.turn == turn
  }

  /** `turns` lists exactly the blocks of rule `r` that still count at turn `now`, each once and in order. */
  ghost predicate ShowsWindow(turns: seq<nat>, events: seq<Event>, window: Option<nat>, now: nat, r: Name) {
    exists at :: ShowsAt(turns, at, events, window, now, r)
  }

  lemma {:induction false} InWindowShows(events: seq<Event>, window: Option<nat>, now: nat, r: Name)
    returns (at: seq<nat>)
    ensures ShowsAt(InWindow(Recorded(events, r), window, now), at, events, window, now, r)
  {
    if |events| == 0 {
      at := [];
    } else {
      var n := |events| - 1;
      var before, e := events[..n], events[n];
      var turns := Recorded(before, r);
      at := InWindowShows(before, window, now, r);
      LastShows(events, InWindow(turns, window, now), at, window, now, r);
      if e.Blocked? && r in e.rules {
        if window.Some? { AliveSnoc(turns, e.turn, window.value, now); }
        if CountsAt(events, n, r, window, now) { at := at + [n]; }
      }
    }
  }

  lemma {:induction false} LastShows(events: seq<Event>, turns: seq<nat>, at: seq<nat>, window: Option<nat>, now: nat,
                                     r: Name)
    requires |events| > 0 && ShowsAt(turns, at, events[..|events| - 1], window, now, r)
    ensures var n := |events| - 1;
            if CountsAt(events, n, r, window, now)
            then events[n].Blocked? && ShowsAt(turns + [events[n].turn], at + [n], events, window, now, r)
            else ShowsAt(turns, at, events, window, now, r)
  {
    var n := |events| - 1;
    forall i: nat
      ensures CountsAt(events, i, r, window, now) <==>
              CountsAt(events[..n], i, r, window, now) || (i == n && CountsAt(events, n, r, window, now))
    {
    }
    if CountsAt(events, n, r, window, now) {
      hide CountsAt;
      IncreasingSnoc(at, n);
    }
  }

  /** Right after a prune the window holds exactly the recorded turns that are still alive, in order. */
  lemma WindowIsExact(events: seq<Event>, window: nat, now: nat, r: Name)
    requires InOrder(events, now)
    ensures Held(events + [Pruned(now)], Some(window), r) == AliveTurns(Recorded(events, r), window, now)
    ensures ShowsWindow(Held(events + [Pruned(now)], Some(window), r), events, Some(window), now, r)
  {
    assert (events + [Pruned(now)])[..|events|] == events;
    HeldFiltersRecorded(events, window, now, r);
    var at := InWindowShows(events, Some(window), now, r);
  }

  lemma {:induction false} MonotonicKeepsAll(events: seq<Event>, r: Name)
    ensures Held(events, None, r) == Recorded(events, r)
  {
    if |events| > 0 { MonotonicKeepsAll(events[..|events| - 1], r); }
  }

  // ----- The text view -----

  datatype Line =
    | Goal(goal: string)
    | Sustained(rule: Name, count: nat)
    | Stuck(tool: Name, errors: nat)
    | Raw(turn: nat, rules: seq<Name>)
    | Free(text: string)

  type CountMap = map<Name, nat>

  function SustainedRules(counts: CountMap): set<Name> {
    set r | r in counts && counts[r] >= SUSTAINED_THRESHOLD
  }

  function BelowThreshold(counts: CountMap): set<Name> {
    set r | r in counts && 0 < counts[r] < SUSTAINED_THRESHOLD
  }

  function StuckTools(errors: CountMap): set<Name> {
    set t | t in errors && errors[t] >= TOOL_ERROR_THRESHOLD
  }

  function SustainedLines(rules: seq<Name>, counts: CountMap): (lines: seq<Line>)
    requires forall r :: r in rules ==> r in counts
    ensures |lines| == |rules| && forall k :: 0 <= k < |rules| ==> lines[k] == Sustained(rules[k], counts[rules[k]])
  {
    if |rules| == 0 then []
    else
      assert rules[|rules| - 1] in rules;
      SustainedLines(rules[..|rules| - 1], counts) + [Sustained(rules[|rules| - 1], counts[rules[|rules| - 1]])]
  }

  function GoalLines(goal: Option<string>): seq<Line> {
    if goal.Some? then [Goal(goal.value)] else []
  }

  ghost function Head(goal: Option<string>, counts: CountMap): seq<Line> {
    GoalLines(goal) + SustainedLinesOf(counts)
  }

  /** Lines that every refresh writes anew. */
  predicate Generated(line: Line) {
    line.Goal? || line.Sustained? || line.Stuck?
  }

  predicate Introduces(rules: seq<Name>, below: set<Name>, introduced: set<Name>) {
    exists k :: 0 <= k < |rules| && rules[k] in below && rules[k] !in introduced
  }

  function AsSet(rules: seq<Name>): set<Name> {
    set r | r in rules
  }

  predicate Keeps(line: Line, below: set<Name>, introduced: set<Name>) {
    line.Free? || (line.Raw? && Introduces(line.rules, below, introduced))
  }

  function Introduced(line: Line, below: set<Name>, introduced: set<Name>): set<Name> {
    if line.Raw? && Introduces(line.rules, below, introduced) then introduced + AsSet(line.rules) else introduced
  }

  /**
   The old lines that stay, when `n` lines stand before them: free text, and raw records that
   name a live rule not yet shown. The cap is looked at after every line that is not generated.
   */
  function Kept(lines: seq<Line>, n: nat, below: set<Name>, introduced: set<Name>): seq<Line> {
    if |lines| == 0 then []
    else if Generated(lines[0]) then Kept(lines[1..], n, below, introduced)
    else if Keeps(lines[0], below, introduced) then
      [lines[0]] + (if n + 1 >= MAX_BLOCK_RECORDS then []
                    else Kept(lines[1..], n + 1, below, Introduced(lines[0], below, introduced)))
    else if n >= MAX_BLOCK_RECORDS then []
    else Kept(lines[1..], n, below, introduced)
  }

  function StuckLines(tools: seq<Name>, errors: CountMap, n: nat): (lines: seq<Line>)
    requires forall t :: t in tools ==> t in errors
    ensures forall k :: 0 <= k < |lines| ==> lines[k].Stuck?
    ensures n + |lines| <= MAX_BLOCK_RECORDS || |lines| == 0
  {
    if |tools| == 0 || n >= MAX_BLOCK_RECORDS then []
    else
      assert tools[0] in tools;
      [Stuck(tools[0], errors[tools[0]])] + StuckLines(tools[1..], errors, n + 1)
  }

  ghost function Refreshed(goal: Option<string>, counts: CountMap, errors: CountMap, text: seq<Line>): seq<Line> {
    var head := Head(goal, counts);
    var kept := Kept(text, |head|, BelowThreshold(counts), SustainedRules(counts));
    head + kept + StuckLinesOf(errors, |head| + |kept|)
  }

  lemma {:induction false} KeptSkipsGenerated(lines: seq<Line>, more: seq<Line>, n: nat, below: set<Name>,
                                              introduced: set<Name>)
    requires forall k :: 0 <= k < |lines| ==> Generated(lines[k])
    ensures Kept(lines + more, n, below, introduced) == Kept(more, n, below, introduced)
  {
    if |lines| == 0 {
      assert lines + more == more;
    } else {
      assert (lines + more)[1..] == lines[1..] + more;
      KeptSkipsGenerated(lines[1..], more, n, below, introduced);
    }
  }

  /** Keeping what was kept changes nothing, also with generated lines behind it. */
  lemma {:induction false} KeptTwice(lines: seq<Line>, stuck: seq<Line>, n: nat, below: set<Name>,
                                     introduced: set<Name>)
    requires forall k :: 0 <= k < |stuck| ==> Generated(stuck[k])
    ensures Kept(Kept(lines, n, below, introduced) + stuck, n, below, introduced) == Kept(lines, n, below, introduced)
  {
    var kept := Kept(lines, n, below, introduced);
    if |kept| == 0 {
      KeptSkipsGenerated(stuck, [], n, below, introduced);
      assert kept + stuck == stuck + [];
    } else if Generated(lines[0]) || !Keeps(lines[0], below, introduced) {
      KeptTwice(lines[1..], stuck, n, below, introduced);
    } else {
      var next := Introduced(lines[0], below, introduced);
      assert (kept + stuck)[1..] == kept[1..] + stuck;
      if n + 1 < MAX_BLOCK_RECORDS {
        KeptTwice(lines[1..], stuck, n + 1, below, next);
        assert kept[1..] == Kept(lines[1..], n + 1, below, next);
      }
    }
  }

  lemma HeadIsGenerated(goal: Option<string>, counts: CountMap)
    ensures forall k :: 0 <= k < |Head(goal, counts)| ==> Generated(Head(goal, counts)[k])
  {
    hide Sorted;
  }

  /** The rewriting of the old lines between a generated head and the stuck lines. */
  lemma MiddleIsStable(head: seq<Line>, text: seq<Line>, stuck: seq<Line>, below: set<Name>, introduced: set<Name>)
    requires forall k :: 0 <= k < |head| ==> Generated(head[k])
    requires forall k :: 0 <= k < |stuck| ==> Generated(stuck[k])
    ensures var kept := Kept(text, |head|, below, introduced);
            Kept(head + kept + stuck, |head|, below, introduced) == kept
  {
    hide Kept, Generated;
    var kept := Kept(text, |head|, below, introduced);
    assert head + kept + stuck == head + (kept + stuck);
    KeptSkipsGenerated(head, kept + stuck, |head|, below, introduced);
    KeptTwice(text, stuck, |head|, below, introduced);
  }

  /** Refreshing twice at the same turn is refreshing once. */
  lemma RefreshIsIdempotent(goal: Option<string>, counts: CountMap, errors: CountMap, text: seq<Line>)
    ensures var once := Refreshed(goal, counts, errors, text);
            Refreshed(goal, counts, errors, once) == once
  {
    hide Kept, Head, StuckLines, Sorted, BelowThreshold, SustainedRules;
    var head := Head(goal, counts);
    var below, sustained := BelowThreshold(counts), SustainedRules(counts);
    var kept := Kept(text, |head|, below, sustained);
    StuckAreGenerated(errors, |head| + |kept|);
    HeadIsGenerated(goal, counts);
    MiddleIsStable(head, text, StuckLinesOf(errors, |head| + |kept|), below, sustained);
  }

  lemma StuckAreGenerated(errors: CountMap, n: nat)
    ensures forall k :: 0 <= k < |StuckLinesOf(errors, n)| ==> Generated(StuckLinesOf(errors, n)[k])
  {
    hide StuckLines, Sorted;
  }

  lemma {:induction false} KeptIsShort(lines: seq<Line>, n: nat, below: set<Name>, introduced: set<Name>)
    ensures |Kept(lines, n, below, introduced)| <= (if n >= MAX_BLOCK_RECORDS then 1 else MAX_BLOCK_RECORDS - n)
  {
    if |lines| > 0 {
      KeptIsShort(lines[1..], n, below, introduced);
      KeptIsShort(lines[1..], n + 1, below, Introduced(lines[0], below, introduced));
    }
  }

  /** The view is capped, but for the goal, the sustained lines and one more. */
  lemma RefreshIsShort(goal: Option<string>, counts: CountMap, errors: CountMap, text: seq<Line>)
    ensures var fixed := |GoalLines(goal)| + |SustainedRules(counts)|;
            |Refreshed(goal, counts, errors, text)|
            <= (if fixed + 1 > MAX_BLOCK_RECORDS then fixed + 1 else MAX_BLOCK_RECORDS)
  {
    var head := Head(goal, counts);
    KeptIsShort(text, |head|, BelowThreshold(counts), SustainedRules(counts));
  }

  /** The first line that is not generated anew is one to keep. */
  predicate FirstOldIsKept(lines: seq<Line>, below: set<Name>, introduced: set<Name>) {
    |lines| > 0 &&
    if Generated(lines[0]) then FirstOldIsKept(lines[1..], below, introduced) else Keeps(lines[0], below, introduced)
  }

  /** Behind a full head the cap is looked at only after the first old line. */
  lemma {:induction false} FullHeadKeepsIff(lines: seq<Line>, n: nat, below: set<Name>, introduced: set<Name>)
    requires n >= MAX_BLOCK_RECORDS
    ensures |Kept(lines, n, below, introduced)| > 0 <==> FirstOldIsKept(lines, below, introduced)
  {
    if |lines| > 0 && Generated(lines[0]) { FullHeadKeepsIff(lines[1..], n, below, introduced); }
  }

  /**
   The view exceeds its cap exactly when goal and sustained lines do, or when they fill it and the first
   old line is one to keep.
   */
  lemma CapIsExceededIff(goal: Option<string>, counts: CountMap, errors: CountMap, text: seq<Line>)
    ensures var fixed := |GoalLines(goal)| + |SustainedRules(counts)|;
            |Refreshed(goal, counts, errors, text)| > MAX_BLOCK_RECORDS <==>
              || fixed > MAX_BLOCK_RECORDS
              || (fixed == MAX_BLOCK_RECORDS && FirstOldIsKept(text, BelowThreshold(counts), SustainedRules(counts)))
  {
    var n, below, sustained := |Head(goal, counts)|, BelowThreshold(counts), SustainedRules(counts);
    KeptIsShort(text, n, below, sustained);
    if n >= MAX_BLOCK_RECORDS { FullHeadKeepsIff(text, n, below, sustained); }
  }

  const TEN_RULES: set<Name> :=
    {Name("a"), Name("b"), Name("c"), Name("d"), Name("e"), Name("f"), Name("g"), Name("h"), Name("i"), Name("j")}

  /** Ten sustained rules and a line of free text make eleven lines. */
  lemma CapCanBeExceeded()
    ensures |Refreshed(None, map r | r in TEN_RULES :: SUSTAINED_THRESHOLD, map[], [Free("x")])| == 11
  {
    var counts: CountMap := map r | r in TEN_RULES :: SUSTAINED_THRESHOLD;
    assert SustainedRules(counts) == TEN_RULES && |TEN_RULES| == 10;
    assert Kept([Free("x")], 10, BelowThreshold(counts), TEN_RULES) == [Free("x")];
    assert StuckTools(map[]) == {};
  }

  /** After the goal come the sustained rules, in order, and nothing behind them is a goal or sustained line. */
  lemma SustainedComeSorted(goal: Option<string>, counts: CountMap, errors: CountMap, text: seq<Line>)
    ensures var lines, g, s := Refreshed(goal, counts, errors, text), |GoalLines(goal)|, SustainedRules(counts);
            && g + |s| <= |lines|
            && lines[..g] == GoalLines(goal)
            && lines[g..g + |s|] == SustainedLines(Sorted(s), counts)
            && forall k :: g + |s| <= k < |lines| ==> !lines[k].Sustained? && !lines[k].Goal?
  {
    hide Kept, Sorted, BelowThreshold, SustainedRules, StuckLinesOf, Refreshed;
    var s := SustainedRules(counts);
    var goals, sustained := GoalLines(goal), SustainedLinesOf(counts);
    var n := |goals| + |sustained|;
    var kept := Kept(text, n, BelowThreshold(counts), s);
    var stuck := StuckLinesOf(errors, n + |kept|);
    RefreshedParts(goal, counts, errors, text);
    Sections(goals, sustained, kept, stuck);
    KeptIsOld(text, n, BelowThreshold(counts), s);
    StuckAreStuck(errors, n + |kept|);
    BehindIsNoHead(goals + sustained, kept, stuck);
  }

  lemma StuckAreStuck(errors: CountMap, n: nat)
    ensures forall k :: 0 <= k < |StuckLinesOf(errors, n)| ==> StuckLinesOf(errors, n)[k].Stuck?
  {
  }

  lemma BehindIsNoHead(head: seq<Line>, kept: seq<Line>, stuck: seq<Line>)
    requires forall k :: 0 <= k < |kept| ==> !Generated(kept[k])
    requires forall k :: 0 <= k < |stuck| ==> stuck[k].Stuck?
    ensures var lines := head + kept + stuck;
            forall k :: |head| <= k < |lines| ==> !lines[k].Sustained? && !lines[k].Goal?
  {
  }

  lemma {:induction false} RefreshedParts(goal: Option<string>, counts: CountMap, errors: CountMap, text: seq<Line>)
    ensures var goals, sustained := GoalLines(goal), SustainedLinesOf(counts);
            var n := |goals| + |sustained|;
            var kept := Kept(text, n, BelowThreshold(counts), SustainedRules(counts));
            Refreshed(goal, counts, errors, text) == goals + sustained + kept + StuckLinesOf(errors, n + |kept|)
    ensures GoalLines(goal) == if goal.Some? then [Goal(goal.value)] else []
  {
    hide Kept, StuckLinesOf, SustainedLinesOf, BelowThreshold, SustainedRules;
  }

  ghost function SustainedLinesOf(counts: CountMap): seq<Line> {
    SustainedLines(Sorted(SustainedRules(counts)), counts)
  }

  ghost function StuckLinesOf(errors: CountMap, n: nat): seq<Line> {
    StuckLines(Sorted(StuckTools(errors)), errors, n)
  }

  lemma {:induction false} KeptIsOld(lines: seq<Line>, n: nat, below: set<Name>, introduced: set<Name>)
    ensures forall k :: 0 <= k < |Kept(lines, n, below, introduced)| ==>
              var line := Kept(lines, n, below, introduced)[k];
              line in lines && !Generated(line) && (line.Raw? ==> NamesLive(line.rules, below))
  {
    if |lines| > 0 {
      KeptIsOld(lines[1..], n, below, introduced);
      KeptIsOld(lines[1..], n + 1, below, Introduced(lines[0], below, introduced));
    }
  }

  predicate NamesLive(rules: seq<Name>, below: set<Name>) {
    exists k :: 0 <= k < |rules| && rules[k] in below
  }

  ghost predicate ShownIn(r: Name, lines: seq<Line>) {
    exists k :: 0 <= k < |lines| && lines[k].Raw? && r in lines[k].rules
  }

  /** Unless the cap cuts the list, no live rule loses its last raw record. */
  lemma {:induction false} LiveRulesStay(lines: seq<Line>, n: nat, below: set<Name>, introduced: set<Name>, r: Name)
    requires r in below && r !in introduced && ShownIn(r, lines)
    requires n + |Kept(lines, n, below, introduced)| < MAX_BLOCK_RECORDS
    ensures ShownIn(r, Kept(lines, n, below, introduced))
  {
    var line, rest := lines[0], lines[1..];
    var kept := Kept(lines, n, below, introduced);
    var k :| 0 <= k < |lines| && lines[k].Raw? && r in lines[k].rules;
    if line.Raw? && r in line.rules {
      var i :| 0 <= i < |line.rules| && line.rules[i] == r;
      assert Introduces(line.rules, below, introduced);
      assert kept[0] == line;
    } else {
      assert rest[k - 1] == lines[k];
      var next := Introduced(line, below, introduced);
      if Generated(line) || !Keeps(line, below, introduced) {
        LiveRulesStay(rest, n, below, introduced, r);
      } else {
        LiveRulesStay(rest, n + 1, below, next, r);
        var later := Kept(rest, n + 1, below, next);
        var i :| 0 <= i < |later| && later[i].Raw? && r in later[i].rules;
        assert kept[i + 1] == later[i];
      }
    }
  }

  // ----- Tool errors in a row -----

  datatype ToolOutcome = ToolOutcome(tool: Name, failed: bool)

  /** Failures of a tool since its last success. */
  ghost function Streak(outcomes: seq<ToolOutcome>, tool: Name): nat {
    if |outcomes| == 0 then 0
    else
      var o, before := outcomes[|outcomes| - 1], Streak(outcomes[..|outcomes| - 1], tool);
      if o.tool != tool then before else if o.failed then before + 1 else 0
  }

  /** A streak counts the failures since the last success. */
  lemma {:induction false} StreakIs(outcomes: seq<ToolOutcome>, tool: Name) returns (from: nat, at: seq<nat>)
    ensures from <= |outcomes| && (from > 0 ==> outcomes[from - 1] == ToolOutcome(tool, false))
    ensures forall i :: from <= i < |outcomes| ==> outcomes[i] != ToolOutcome(tool, false)
    ensures Increasing(at) && |at| == Streak(outcomes, tool)
    ensures forall i: nat :: i in at <==> from <= i < |outcomes| && outcomes[i] == ToolOutcome(tool, true)
  {
    if |outcomes| == 0 {
      from, at := 0, [];
    } else {
      var n := |outcomes| - 1;
      from, at := StreakIs(outcomes[..n], tool);
      if outcomes[n].tool == tool {
        if outcomes[n].failed {
          IncreasingSnoc(at, n);
          at := at + [n];
        } else {
          from, at := n + 1, [];
        }
      }
    }
  }

  function CountOf(counts: CountMap, n: Name): nat {
    if n in counts then counts[n] else 0
  }

  // ----- Sizes of turn maps -----

  ghost function Total(m: TurnMap, names: set<Name>): nat
    requires names <= m.Keys
    decreases |names|
  {
    if |names| == 0 then 0 else |m[Least(names)]| + Total(m, names - {Least(names)})
  }

  lemma {:induction false} TotalWithout(m: TurnMap, names: set<Name>, r: Name)
    requires names <= m.Keys && r in names
    ensures Total(m, names) == |m[r]| + Total(m, names - {r})
    decreases |names|
  {
    var least := Least(names);
    if r != least {
      TotalWithout(m, names - {least}, r);
      LeastOfFewer(names, r);
      assert names - {least} - {r} == names - {r} - {least};
    }
  }

  lemma LeastOfFewer(names: set<Name>, r: Name)
    requires r in names && r != Least(names)
    ensures Least(names) in names - {r} && Least(names - {r}) == Least(names)
  {
    assert IsLeast(Least(names), names - {r});
    LeastIsUnique(Least(names), Least(names - {r}), names - {r});
  }

  lemma {:induction false} TotalSame(m: TurnMap, m': TurnMap, names: set<Name>)
    requires names <= m.Keys && names <= m'.Keys && forall r :: r in names ==> m[r] == m'[r]
    ensures Total(m, names) == Total(m', names)
    decreases |names|
  {
    if |names| > 0 { TotalSame(m, m', names - {Least(names)}); }
  }

  ghost function Size(m: TurnMap): nat {
    Total(m, m.Keys)
  }

  lemma SizeOfChange(m: TurnMap, r: Name, turns: seq<nat>)
    requires r in m
    ensures Size(m[r := turns]) + |m[r]| == Size(m) + |turns|
    ensures Size(m - {r}) + |m[r]| == Size(m)
  {
    var rest := m.Keys - {r};
    assert m[r := turns].Keys == m.Keys && (m - {r}).Keys == rest;
    TotalWithout(m, m.Keys, r);
    TotalWithout(m[r := turns], m.Keys, r);
    TotalSame(m, m[r := turns], rest);
    TotalSame(m, m - {r}, rest);
  }

  // ----- The plan -----

  lemma {:induction false} AliveIsFewer(turns: seq<nat>, window: nat, now: nat)
    ensures |AliveTurns(turns, window, now)| <= |turns|
  {
    if |turns| > 0 { AliveIsFewer(turns[..|turns| - 1], window, now); }
  }

  lemma SortedIsDistinct(s: set<Name>)
    ensures forall i, j :: 0 <= i < j < |s| ==> Sorted(s)[i] != Sorted(s)[j]
  {
    forall i, j | 0 <= i < j < |s|
      ensures Sorted(s)[i] != Sorted(s)[j]
    {
      SortedIncreases(s, i, j);
      LexTotal(Sorted(s)[i].text, Sorted(s)[j].text);
    }
  }

  lemma NothingToShow(counts: CountMap, errors: CountMap)
    requires |counts| == 0 && |StuckTools(errors)| == 0
    ensures Refreshed(None, counts, errors, []) == []
  {
  }

  /** The rules a block is booked under. */
  function BlockKeys(ruleIds: seq<Name>): set<Name> {
    if |ruleIds| == 0 then {UNKNOWN} else AsSet(ruleIds)
  }

  function FirstLines(lines: seq<Line>): seq<Line> {
    if |lines| > MAX_BLOCK_RECORDS then lines[..MAX_BLOCK_RECORDS] else lines
  }

  /** The counts are the lengths of the turn lists, and no list is empty. */
  ghost predicate CountsAgree(turns: TurnMap, counts: CountMap) {
    counts.Keys == turns.Keys && forall r :: r in turns ==> |turns[r]| > 0 && counts[r] == |turns[r]|
  }

  /** The turn lists are the replay of the log. */
  ghost predicate TurnsAgree(turns: TurnMap, events: seq<Event>, window: Option<nat>) {
    forall r :: TurnsOf(turns, r) == Held(events, window, r)
  }

  /** The error counters are the current streaks of failures. */
  ghost predicate StreaksAgree(errors: CountMap, outcomes: seq<ToolOutcome>) {
    forall t :: CountOf(errors, t) == Streak(outcomes, t)
  }

  /** Each of `ids` gained this turn, and no other rule did. */
  ghost predicate Gained(was: TurnMap, turns: TurnMap, ids: seq<Name>, turn: nat) {
    forall r :: TurnsOf(turns, r) == if r in ids then TurnsOf(was, r) + [turn] else TurnsOf(was, r)
  }

  lemma GainOne(was: TurnMap, turns: TurnMap, counts: CountMap, ids: seq<Name>, rid: Name, turn: nat)
    requires Gained(was, turns, ids, turn) && rid !in ids && CountsAgree(turns, counts)
    ensures Gained(was, turns[rid := TurnsOf(turns, rid) + [turn]], ids + [rid], turn)
    ensures CountsAgree(turns[rid := TurnsOf(turns, rid) + [turn]], counts[rid := CountOf(counts, rid) + 1])
  {
    var next := turns[rid := TurnsOf(turns, rid) + [turn]];
    forall r
      ensures TurnsOf(next, r) == if r in ids + [rid] then TurnsOf(was, r) + [turn] else TurnsOf(was, r)
    {
      assert TurnsOf(turns, r) == if r in ids then TurnsOf(was, r) + [turn] else TurnsOf(was, r);
    }
  }

  lemma BlockIsLogged(was: TurnMap, turns: TurnMap, events: seq<Event>, window: Option<nat>, ids: seq<Name>, turn: nat)
    requires TurnsAgree(was, events, window) && Gained(was, turns, ids, turn)
    ensures TurnsAgree(turns, events + [Blocked(turn, AsSet(ids))], window)
  {
    var e := Blocked(turn, AsSet(ids));
    assert (events + [e])[..|events|] == events;
    forall r
      ensures TurnsOf(turns, r) == Held(events + [e], window, r)
    {
      assert TurnsOf(was, r) == Held(events, window, r);
    }
  }

  /** Every list but those of `left` has been aged. */
  ghost predicate Aged(was: TurnMap, turns: TurnMap, left: set<Name>, window: nat, now: nat) {
    && turns.Keys == was.Keys
    && forall r :: r in was ==> turns[r] == if r in left then was[r] else AliveTurns(was[r], window, now)
  }

  /** The counts are right wherever the aged list is not empty; `gone` lists the empty ones. */
  ghost predicate Recounted(turns: TurnMap, counts: CountMap, left: set<Name>, gone: seq<Name>) {
    && counts.Keys == turns.Keys
    && (forall r :: r in turns && r !in left && |turns[r]| > 0 ==> counts[r] == |turns[r]|)
    && (forall r :: r in gone <==> r in turns && r !in left && |turns[r]| == 0)
  }

  lemma AgeOne(was: TurnMap, turns: TurnMap, left: set<Name>, rid: Name, window: nat, now: nat)
    requires Aged(was, turns, left, window, now) && rid in left && rid in turns
    ensures Aged(was, turns[rid := AliveTurns(turns[rid], window, now)], left - {rid}, window, now)
  {
    hide AliveTurns;
  }

  lemma RecountOne(turns: TurnMap, counts: CountMap, left: set<Name>, gone: seq<Name>, rid: Name, aged: seq<nat>)
    requires Recounted(turns, counts, left, gone) && rid in left && rid in turns
    ensures |aged| == 0 ==> Recounted(turns[rid := aged], counts, left - {rid}, gone + [rid])
    ensures |aged| > 0 ==> Recounted(turns[rid := aged], counts[rid := |aged|], left - {rid}, gone)
  {
  }

  /** Taking the empty lists away leaves the counters exact. */
  lemma WithoutEmpty(was: TurnMap, aged: TurnMap, counts: CountMap, gone: seq<Name>, turns: TurnMap, counts': CountMap,
                     window: nat, now: nat)
    requires Aged(was, aged, {}, window, now) && Recounted(aged, counts, {}, gone)
    requires turns == aged - AsSet(gone) && counts' == counts - AsSet(gone)
    ensures CountsAgree(turns, counts')
    ensures forall r :: TurnsOf(turns, r) == AliveTurns(TurnsOf(was, r), window, now)
  {
    forall r
      ensures TurnsOf(turns, r) == AliveTurns(TurnsOf(was, r), window, now)
    {
      if r in gone { assert |aged[r]| == 0; }
    }
  }

  lemma PruneIsLogged(was: TurnMap, turns: TurnMap, events: seq<Event>, window: nat, now: nat)
    requires TurnsAgree(was, events, Some(window))
    requires forall r :: TurnsOf(turns, r) == AliveTurns(TurnsOf(was, r), window, now)
    ensures TurnsAgree(turns, events + [Pruned(now)], Some(window))
  {
    assert (events + [Pruned(now)])[..|events|] == events;
    forall r
      ensures TurnsOf(turns, r) == Held(events + [Pruned(now)], Some(window), r)
    {
      assert TurnsOf(was, r) == Held(events, Some(window), r);
    }
  }

  lemma NoWindowNoPrune(turns: TurnMap, events: seq<Event>, now: nat)
    requires TurnsAgree(turns, events, None)
    ensures TurnsAgree(turns, events + [Pruned(now)], None)
  {
    assert (events + [Pruned(now)])[..|events|] == events;
    forall r
      ensures TurnsOf(turns, r) == Held(events + [Pruned(now)], None, r)
    {
      assert TurnsOf(turns, r) == Held(events, None, r);
    }
  }

  lemma OutcomeIsCounted(errors: CountMap, outcomes: seq<ToolOutcome>, o: ToolOutcome, errors': CountMap)
    requires StreaksAgree(errors, outcomes)
    requires forall t :: CountOf(errors', t)
                         == if t != o.tool then CountOf(errors, t) else if o.failed then CountOf(errors, t) + 1 else 0
    ensures StreaksAgree(errors', outcomes + [o])
  {
    assert (outcomes + [o])[..|outcomes|] == outcomes;
    forall t
      ensures CountOf(errors', t) == Streak(outcomes + [o], t)
    {
      assert CountOf(errors, t) == Streak(outcomes, t);
    }
  }

  /** What the first remaining line adds to what is kept. */
  lemma KeptFront(line: Line, rest: seq<Line>, n: nat, below: set<Name>, introduced: set<Name>)
    requires |rest| > 0 && line == rest[0]
    ensures var kept := Kept(rest, n, below, introduced);
            if Generated(line) then kept == Kept(rest[1..], n, below, introduced)
            else if Keeps(line, below, introduced) then
              if n + 1 >= MAX_BLOCK_RECORDS then kept == [line]
              else kept == [line] + Kept(rest[1..], n + 1, below, Introduced(line, below, introduced))
            else if n >= MAX_BLOCK_RECORDS then |kept| == 0
            else kept == Kept(rest[1..], n, below, introduced)
  {
    hide Generated, Keeps, Introduced;
  }

  lemma KeptOfNone(rest: seq<Line>, n: nat, below: set<Name>, introduced: set<Name>)
    ensures |rest| == 0 ==> Kept(rest, n, below, introduced) == []
  {
  }

  predicate EndsWithPrune(events: seq<Event>, now: nat) {
    |events| > 0 && events[|events| - 1] == Pruned(now)
  }

  /** Right after a prune at turn `now` the log shows the window, or everything when there is none. */
  lemma PruneShowsWindow(events: seq<Event>, window: Option<nat>, now: nat, r: Name)
    requires InOrder(events, now)
    ensures Held(events + [Pruned(now)], window, r) == InWindow(Recorded(events, r), window, now)
    ensures ShowsWindow(Held(events + [Pruned(now)], window, r), events, window, now, r)
  {
    assert (events + [Pruned(now)])[..|events|] == events;
    var at := InWindowShows(events, window, now, r);
    if window.Some? { WindowIsExact(events, window.value, now, r); } else { MonotonicKeepsAll(events, r); }
  }

  lemma PrunedIsExact(turns: TurnMap, events: seq<Event>, window: Option<nat>, now: nat)
    requires TurnsAgree(turns, events + [Pruned(now)], window)
    ensures InOrder(events, now) ==> forall r :: ShowsWindow(TurnsOf(turns, r), events, window, now, r)
  {
    hide InOrder, ShowsWindow;
    if InOrder(events, now) {
      forall r
        ensures ShowsWindow(TurnsOf(turns, r), events, window, now, r)
      {
        PruneShowsWindow(events, window, now, r);
      }
    }
  }

  lemma SecondPruneIsIdle(was: TurnMap, wasCounts: CountMap, turns: TurnMap, counts: CountMap, events: seq<Event>,
                          window: Option<nat>, now: nat)
    requires CountsAgree(was, wasCounts) && TurnsAgree(was, events, window)
    requires CountsAgree(turns, counts) && TurnsAgree(turns, events + [Pruned(now)], window)
    ensures EndsWithPrune(events, now) ==> turns == was && counts == wasCounts
  {
    if EndsWithPrune(events, now) {
      var first := events[..|events| - 1];
      assert (events + [Pruned(now)])[..|events|] == events;
      forall r
        ensures TurnsOf(turns, r) == TurnsOf(was, r)
      {
        if window.Some? { PruneTwice(Held(first, window, r), window.value, now, now); }
      }
      SameTurns(was, turns);
      SameTurns(turns, was);
    }
  }

  lemma SameTurns(a: TurnMap, b: TurnMap)
    requires forall r :: r in a ==> |a[r]| > 0
    requires forall r :: TurnsOf(a, r) == TurnsOf(b, r)
    ensures a.Keys <= b.Keys && forall r :: r in a ==> a[r] == b[r]
  {
    forall r | r in a
      ensures r in b && a[r] == b[r]
    {
      assert TurnsOf(a, r) == TurnsOf(b, r);
    }
  }

  lemma RefreshAgain(goal: Option<string>, counts: CountMap, errors: CountMap, text: seq<Line>)
    ensures (exists before :: text == Refreshed(goal, counts, errors, before)) ==>
              Refreshed(goal, counts, errors, text) == text
  {
    hide Refreshed;
    if before :| text == Refreshed(goal, counts, errors, before) { RefreshIsIdempotent(goal, counts, errors, before); }
  }

  class Plan {
    var text: seq<Line>
    var blocksRecorded: nat
    var blockTurns: TurnMap
    var blockCounts: CountMap
    const window: Option<nat>
    var toolErrorCounts: CountMap
    var goal: Option<string>
    var dirty: bool
    // The full log, which the counters only summarize.
    ghost var events: seq<Event>
    ghost var outcomes: seq<ToolOutcome>

    ghost predicate Valid()
      reads this
    {
      && CountsAgree(blockTurns, blockCounts)
      && TurnsAgree(blockTurns, events, window)
      && StreaksAgree(toolErrorCounts, outcomes)
    }

    /** The last thing that happened was a refresh at turn `now`. */
    ghost predicate JustRefreshed(now: nat)
      reads this
    {
      && EndsWithPrune(events, now)
      && exists before :: text == Refreshed(goal, blockCounts, toolErrorCounts, before)
    }

    constructor (window: Option<nat>)
      ensures Valid() && this.window == window && events == [] && outcomes == [] && text == []
    {
      this.window := window;
      text, blocksRecorded, goal, dirty := [], 0, None, false;
      blockTurns, blockCounts, toolErrorCounts := map[], map[], map[];
      events, outcomes := [], [];
    }

    method RecordBlock(turn: nat, ruleIds: seq<Name>)
      requires Valid()
      modifies this
      ensures var keys := if |ruleIds| == 0 then {Name("unknown")} else set r | r in ruleIds;
              var lines := [Raw(turn, Sorted(keys))] + old(text);
              Valid() && events == old(events) + [Blocked(turn, keys)]
              && text == if |lines| > 10 then lines[..10] else lines
      ensures blocksRecorded == old(blocksRecorded) + 1 && dirty
      ensures outcomes == old(outcomes) && toolErrorCounts == old(toolErrorCounts) && goal == old(goal)
    {
      hide Sorted, CountsAgree, TurnsAgree, StreaksAgree, Gained, TurnsOf, CountOf;
      var ids := Sort(BlockKeys(ruleIds));
      BookAll(turn, ids, BlockKeys(ruleIds));
      text := FirstLines([Raw(turn, ids)] + text);
      blocksRecorded, dirty := blocksRecorded + 1, true;
    }

    method BookAll(turn: nat, ids: seq<Name>, ghost keys: set<Name>)
      requires Valid() && ids == Sorted(keys)
      modifies this`blockTurns, this`blockCounts, this`events
      ensures Valid() && events == old(events) + [Blocked(turn, keys)]
    {
      hide Sorted, CountsAgree, TurnsAgree, StreaksAgree, TurnsOf, CountOf;
      SortedIsDistinct(keys);
      for k := 0 to |ids|
        invariant events == old(events) && CountsAgree(blockTurns, blockCounts)
        invariant Gained(old(blockTurns), blockTurns, ids[..k], turn)
      {
        var rid := ids[k];
        assert ids[..k + 1] == ids[..k] + [rid];
        GainOne(old(blockTurns), blockTurns, blockCounts, ids[..k], rid, turn);
        blockCounts := blockCounts[rid := CountOf(blockCounts, rid) + 1];
        blockTurns := blockTurns[rid := TurnsOf(blockTurns, rid) + [turn]];
      }
      assert ids[..|ids|] == ids && AsSet(ids) == keys;
      BlockIsLogged(old(blockTurns), blockTurns, events, window, ids, turn);
      events := events + [Blocked(turn, keys)];
    }

    /**
     Ages the turn lists. What goes and what stays add up to what was there, what stays is exactly
     the part of the log inside the window, and a second prune at the same turn finds nothing to do.
     */
    method PruneWindow(now: nat) returns (pruned: nat)
      requires Valid()
      modifies this`blockTurns, this`blockCounts, this`events
      ensures Valid() && events == old(events) + [Pruned(now)]
      ensures pruned + Size(blockTurns) == Size(old(blockTurns))
      ensures InOrder(old(events), now) ==>
                forall r :: ShowsWindow(TurnsOf(blockTurns, r), old(events), window, now, r)
      ensures old(EndsWithPrune(events, now)) ==> blockTurns == old(blockTurns) && blockCounts == old(blockCounts)
    {
      hide Size, CountsAgree, TurnsAgree, StreaksAgree, Aged, TurnsOf, ShowsWindow, InOrder, EndsWithPrune;
      if window.None? {
        pruned := 0;
        NoWindowNoPrune(blockTurns, events, now);
      } else {
        var n := window.value;
        var toRemove;
        pruned, toRemove := RetainAlive(n, now);
        ghost var aged, counts := blockTurns, blockCounts;
        RemoveEmpty(toRemove);
        WithoutEmpty(old(blockTurns), aged, counts, toRemove, blockTurns, blockCounts, n, now);
        PruneIsLogged(old(blockTurns), blockTurns, events, n, now);
      }
      PrunedIsExact(blockTurns, events, window, now);
      SecondPruneIsIdle(old(blockTurns), old(blockCounts), blockTurns, blockCounts, events, window, now);
      events := events + [Pruned(now)];
    }

    method RetainAlive(n: nat, now: nat) returns (pruned: nat, toRemove: seq<Name>)
      requires CountsAgree(blockTurns, blockCounts)
      modifies this`blockTurns, this`blockCounts
      ensures Aged(old(blockTurns), blockTurns, {}, n, now)
      ensures Recounted(blockTurns, blockCounts, {}, toRemove)
      ensures pruned + Size(blockTurns) == Size(old(blockTurns))
    {
      pruned, toRemove := 0, [];
      var left := blockTurns.Keys;
      hide Size, AliveTurns;
      while |left| > 0
        invariant left <= blockTurns.Keys
        invariant Aged(old(blockTurns), blockTurns, left, n, now)
        invariant Recounted(blockTurns, blockCounts, left, toRemove)
        invariant pruned + Size(blockTurns) == Size(old(blockTurns))
        decreases |left|
      {
        hide Aged, Recounted;
        var rid :| rid in left;
        var turns := AliveTurns(blockTurns[rid], n, now);
        AliveIsFewer(blockTurns[rid], n, now);
        SizeOfChange(blockTurns, rid, turns);
        AgeOne(old(blockTurns), blockTurns, left, rid, n, now);
        RecountOne(blockTurns, blockCounts, left, toRemove, rid, turns);
        pruned := pruned + (|blockTurns[rid]| - |turns|);
        blockTurns := blockTurns[rid := turns];
        left := left - {rid};
        if |turns| == 0 { toRemove := toRemove + [rid]; } else { blockCounts := blockCounts[rid := |turns|]; }
      }
      assert left == {};
    }

    method RemoveEmpty(toRemove: seq<Name>)
      requires forall r :: r in toRemove ==> r in blockTurns && |blockTurns[r]| == 0
      modifies this`blockTurns, this`blockCounts
      ensures blockTurns == old(blockTurns) - AsSet(toRemove) && blockCounts == old(blockCounts) - AsSet(toRemove)
      ensures Size(blockTurns) == Size(old(blockTurns))
    {
      hide Size;
      for k := 0 to |toRemove|
        invariant blockTurns == old(blockTurns) - AsSet(toRemove[..k])
                  && blockCounts == old(blockCounts) - AsSet(toRemove[..k])
        invariant Size(blockTurns) == Size(old(blockTurns))
      {
        var rid := toRemove[k];
        assert AsSet(toRemove[..k + 1]) == AsSet(toRemove[..k]) + {rid};
        if rid in blockTurns { SizeOfChange(blockTurns, rid, []); } else { assert blockTurns - {rid} == blockTurns; }
        blockTurns := blockTurns - {rid};
        blockCounts := blockCounts - {rid};
      }
      assert toRemove[..|toRemove|] == toRemove;
    }

    /** Prunes, then rewrites the text; a second refresh at the same turn changes nothing. */
    method Refresh(now: nat)
      requires Valid()
      modifies this
      ensures Valid() && events == old(events) + [Pruned(now)] && JustRefreshed(now)
      ensures old(JustRefreshed(now)) ==>
                text == old(text) && blockTurns == old(blockTurns) && blockCounts == old(blockCounts)
      ensures text == Refreshed(goal, blockCounts, toolErrorCounts, old(text)) && !dirty
      ensures outcomes == old(outcomes) && toolErrorCounts == old(toolErrorCounts) && goal == old(goal)
      ensures blocksRecorded == old(blocksRecorded)
    {
      hide CountsAgree, TurnsAgree, StreaksAgree, Kept, StuckLines, Sorted, SustainedLines, Size, GoalLines,
           SustainedRules, BelowThreshold, StuckTools;
      var pruned := PruneWindow(now);
      RefreshAgain(goal, blockCounts, toolErrorCounts, text);
      var stuckTools := StuckTools(toolErrorCounts);
      if |blockCounts| == 0 && |text| == 0 && |stuckTools| == 0 && goal.None? {
        NothingToShow(blockCounts, toolErrorCounts);
        dirty := false;
        assert text == Refreshed(goal, blockCounts, toolErrorCounts, old(text));
        return;
      }
      var sustained, below := SustainedRules(blockCounts), BelowThreshold(blockCounts);
      var newLines := HeadLines(sustained);
      newLines := KeepLines(newLines, below, sustained);
      newLines := AddStuck(newLines, stuckTools);
      text, dirty := newLines, false;
      assert text == Refreshed(goal, blockCounts, toolErrorCounts, old(text));
    }

    method HeadLines(sustained: set<Name>) returns (lines: seq<Line>)
      requires sustained == SustainedRules(blockCounts)
      ensures lines == Head(goal, blockCounts)
    {
      hide Sorted, SustainedLines;
      var sorted := Sort(sustained);
      lines := GoalLines(goal) + SustainedLines(sorted, blockCounts);
    }

    method KeepLines(head: seq<Line>, below: set<Name>, sustained: set<Name>) returns (lines: seq<Line>)
      ensures lines == head + Kept(text, |head|, below, sustained)
    {
      hide Kept, Introduces;
      lines := head;
      ghost var target := head + Kept(text, |head|, below, sustained);
      var introduced, n, open := sustained, 0, true;
      assert text[0..] == text;
      while n < |text| && open
        invariant 0 <= n <= |text|
        invariant if open then lines + Kept(text[n..], |lines|, below, introduced) == target else lines == target
        decreases |text| - n, open
      {
        var line := text[n];
        KeptFront(line, text[n..], |lines|, below, introduced);
        assert text[n..][1..] == text[n + 1..];
        ghost var later := Kept(text[n + 1..], |lines| + 1, below, Introduced(line, below, introduced));
        assert lines + ([line] + later) == lines + [line] + later;
        ghost var kept := Kept(text[n..], |lines|, below, introduced);
        assert |kept| == 0 ==> lines + kept == lines;
        n := n + 1;
        if Generated(line) { continue; }
        if line.Raw? {
          if Introduces(line.rules, below, introduced) {
            lines := lines + [line];
            introduced := introduced + AsSet(line.rules);
          }
        } else {
          lines := lines + [line];
        }
        if |lines| >= MAX_BLOCK_RECORDS { open := false; }
      }
      KeptOfNone(text[n..], |lines|, below, introduced);
    }

    method AddStuck(lines0: seq<Line>, stuckTools: set<Name>) returns (lines: seq<Line>)
      requires stuckTools == StuckTools(toolErrorCounts)
      ensures lines == lines0 + StuckLinesOf(toolErrorCounts, |lines0|)
    {
      hide Sorted;
      var tools := Sort(stuckTools);
      lines := lines0;
      assert tools[0..] == tools && forall t :: t in tools ==> t in toolErrorCounts;
      for k := 0 to |tools|
        invariant lines + StuckLines(tools[k..], toolErrorCounts, |lines|)
                  == lines0 + StuckLines(tools, toolErrorCounts, |lines0|)
      {
        assert tools[k] in tools && tools[k..][1..] == tools[k + 1..];
        if |lines| < MAX_BLOCK_RECORDS { lines := lines + [Stuck(tools[k], toolErrorCounts[tools[k]])]; }
      }
    }

    method SetGoal(newGoal: string)
      requires Valid()
      modifies this`goal, this`dirty
      ensures Valid() && goal == Some(newGoal) && dirty
    {
      goal, dirty := Some(newGoal), true;
    }

    method ClearGoal()
      requires Valid()
      modifies this`goal, this`dirty
      ensures Valid() && goal == None && (dirty <==> old(dirty) || old(goal).Some?)
    {
      if goal.Some? { goal, dirty := None, true; }
    }

    method RecordToolError(tool: Name)
      requires Valid()
      modifies this`toolErrorCounts, this`dirty, this`outcomes
      ensures Valid() && outcomes == old(outcomes) + [ToolOutcome(tool, true)]
      ensures dirty <==> old(dirty) || Streak(outcomes, tool) >= 3
    {
      hide CountsAgree, TurnsAgree, Streak;
      toolErrorCounts := toolErrorCounts[tool := CountOf(toolErrorCounts, tool) + 1];
      OutcomeIsCounted(old(toolErrorCounts), outcomes, ToolOutcome(tool, true), toolErrorCounts);
      outcomes := outcomes + [ToolOutcome(tool, true)];
      assert CountOf(toolErrorCounts, tool) == Streak(outcomes, tool);
      if toolErrorCounts[tool] >= TOOL_ERROR_THRESHOLD { dirty := true; }
    }

    method RecordToolSuccess(tool: Name)
      requires Valid()
      modifies this`toolErrorCounts, this`dirty, this`outcomes
      ensures Valid() && outcomes == old(outcomes) + [ToolOutcome(tool, false)]
      ensures dirty <==> old(dirty) || Streak(old(outcomes), tool) >= 3
    {
      hide CountsAgree, TurnsAgree, Streak;
      assert CountOf(toolErrorCounts, tool) == Streak(outcomes, tool);
      if tool in toolErrorCounts {
        if toolErrorCounts[tool] >= TOOL_ERROR_THRESHOLD { dirty := true; }
        toolErrorCounts := toolErrorCounts[tool := 0];
      }
      OutcomeIsCounted(old(toolErrorCounts), outcomes, ToolOutcome(tool, false), toolErrorCounts);
      outcomes := outcomes + [ToolOutcome(tool, false)];
    }
  }
}
