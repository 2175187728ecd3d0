/**
 The lines of the plan's text after a refresh, told from the counters and the old text: which rules and
 tools have a line of their own, and which old lines stay.
 */
module PlanView {
  import opened Prelude
  import opened Planner

  /** The rules that count, but for fewer than three blocks. */
  function Below(counts: CountMap): set<Name> {
    set r | r in counts && 0 < counts[r] < 3
  }

  /** No line before `p` is a record that names rule `r`. */
  predicate IsNews(text: seq<Line>, p: nat, r: Name)
    requires p <= |text|
  {
    forall q :: 0 <= q < p && text[q].Raw? ==> r !in text[q].rules
  }

  predicate Stays(text: seq<Line>, p: nat, below: set<Name>, introduced: set<Name>) {
    && p < |text|
    && (text[p].Free? ||
        (text[p].Raw? && exists r :: r in text[p].rules && r in below && r !in introduced && IsNews(text, p, r)))
  }

  /** `kept` are the lines at the positions `at`: the first that stay, as far as the cap allows behind `n` lines. */
  ghost predicate KeptAt(text: seq<Line>, n: nat, below: set<Name>, introduced: set<Name>, kept: seq<Line>,
                         at: seq<nat>)
  {
    && Increasing(at) && StayAll(text, below, introduced, kept, at)
    && forall p: nat :: Stays(text, p, below, introduced) && p !in at ==> CappedBefore(n, at, p)
  }

  predicate StayAll(text: seq<Line>, below: set<Name>, introduced: set<Name>, kept: seq<Line>, at: seq<nat>) {
    |at| == |kept| && forall k :: 0 <= k < |at| ==> StaysAs(text, at[k], below, introduced, kept[k])
  }

  predicate StaysAs(text: seq<Line>, p: nat, below: set<Name>, introduced: set<Name>, line: Line) {
    Stays(text, p, below, introduced) && line == text[p]
  }

  predicate CappedBefore(n: nat, at: seq<nat>, p: nat) {
    n + |at| >= 10 && forall q :: q in at ==> q < p
  }

  /** Whether a later line stays does not depend on whether one looks from the line before it. */
  lemma {:induction false} StaysBehind(text: seq<Line>, p: nat, below: set<Name>, introduced: set<Name>)
    requires |text| > 0
    ensures Stays(text, p + 1, below, introduced) <==>
            Stays(text[1..], p, below, Introduced(text[0], below, introduced))
  {
    var rest, now := text[1..], Introduced(text[0], below, introduced);
    if p < |rest| && text[p + 1].Raw? {
      assert rest[p] == text[p + 1];
      forall r | r in below
        ensures r !in introduced && IsNews(text, p + 1, r) <==> r !in now && IsNews(rest, p, r)
      {
        NewsBehind(text, p, r);
        if text[0].Raw? && r in text[0].rules && r !in introduced {
          var k :| 0 <= k < |text[0].rules| && text[0].rules[k] == r;
          assert Introduces(text[0].rules, below, introduced);
        }
      }
    }
  }

  lemma {:induction false} NewsBehind(text: seq<Line>, p: nat, r: Name)
    requires |text| > 0 && p < |text|
    ensures IsNews(text, p + 1, r) <==> (text[0].Raw? ==> r !in text[0].rules) && IsNews(text[1..], p, r)
  {
    var rest := text[1..];
    if IsNews(text, p + 1, r) {
      forall q | 0 <= q < p && rest[q].Raw?
        ensures r !in rest[q].rules
      {
        assert rest[q] == text[q + 1];
      }
    }
    if (text[0].Raw? ==> r !in text[0].rules) && IsNews(rest, p, r) {
      forall q | 0 <= q < p + 1 && text[q].Raw?
        ensures r !in text[q].rules
      {
        if q > 0 { assert rest[q - 1] == text[q]; }
      }
    }
  }

  lemma {:induction false} FirstStays(text: seq<Line>, below: set<Name>, introduced: set<Name>)
    requires |text| > 0
    ensures Stays(text, 0, below, introduced) <==> !Generated(text[0]) && Keeps(text[0], below, introduced)
  {
    if text[0].Raw? {
      if r :| r in text[0].rules && r in below && r !in introduced && IsNews(text, 0, r) {
        var k :| 0 <= k < |text[0].rules| && text[0].rules[k] == r;
      }
      if Introduces(text[0].rules, below, introduced) {
        var k :| 0 <= k < |text[0].rules| && text[0].rules[k] in below && text[0].rules[k] !in introduced;
        assert IsNews(text, 0, text[0].rules[k]);
      }
    }
  }

  /** The positions of the kept lines. */
  lemma {:induction false} KeptIs(text: seq<Line>, n: nat, below: set<Name>, introduced: set<Name>)
    returns (at: seq<nat>)
    ensures KeptAt(text, n, below, introduced, Kept(text, n, below, introduced), at)
  {
    hide Stays, Keeps, Introduced, Generated, Kept, KeptAt;
    if |text| == 0 {
      at := [];
      NoneKept(text, n, below, introduced);
    } else {
      var line, rest := text[0], text[1..];
      KeptFront(line, text, n, below, introduced);
      if Generated(line) || !Keeps(line, below, introduced) {
        if Generated(line) || n < MAX_BLOCK_RECORDS {
          var later := KeptIs(rest, n, below, introduced);
          at := Shifted(later);
          SkipOne(text, n, below, introduced, Kept(rest, n, below, introduced), later);
        } else {
          at := [];
          NoneKept(text, n, below, introduced);
        }
      } else if n + 1 >= MAX_BLOCK_RECORDS {
        at := [0];
        OneKept(text, n, below, introduced);
      } else {
        var now := Introduced(line, below, introduced);
        var later := KeptIs(rest, n + 1, below, now);
        at := [0] + Shifted(later);
        KeepOne(text, n, below, introduced, Kept(rest, n + 1, below, now), later);
      }
    }
  }

  lemma {:induction false} NoneKept(text: seq<Line>, n: nat, below: set<Name>, introduced: set<Name>)
    requires |text| == 0 || n >= MAX_BLOCK_RECORDS
    ensures KeptAt(text, n, below, introduced, [], [])
    ensures |text| == 0 ==> Kept(text, n, below, introduced) == []
  {
    hide Stays;
    if |text| == 0 { NoneStays(text, below, introduced); }
  }

  lemma {:induction false} OneKept(text: seq<Line>, n: nat, below: set<Name>, introduced: set<Name>)
    requires |text| > 0 && n + 1 >= MAX_BLOCK_RECORDS && !Generated(text[0]) && Keeps(text[0], below, introduced)
    ensures KeptAt(text, n, below, introduced, [text[0]], [0])
  {
    FirstStays(text, below, introduced);
    hide Stays, Generated, Keeps;
  }

  lemma {:induction false} SkipOne(text: seq<Line>, n: nat, below: set<Name>, introduced: set<Name>, kept: seq<Line>,
                                   later: seq<nat>)
    requires |text| > 0 && (Generated(text[0]) || !Keeps(text[0], below, introduced))
    requires KeptAt(text[1..], n, below, introduced, kept, later)
    ensures KeptAt(text, n, below, introduced, kept, Shifted(later))
  {
    FirstStays(text, below, introduced);
    LineIsSkipped(text[0], below, introduced);
    hide KeptAt, Stays, Keeps, Generated, Introduced;
    Shift(text, n, below, introduced, kept, later, []);
    assert text[..0] + kept == kept && [] + Shifted(later) == Shifted(later);
  }

  lemma {:induction false} KeepOne(text: seq<Line>, n: nat, below: set<Name>, introduced: set<Name>, kept: seq<Line>,
                                   later: seq<nat>)
    requires |text| > 0 && !Generated(text[0]) && Keeps(text[0], below, introduced)
    requires KeptAt(text[1..], n + 1, below, Introduced(text[0], below, introduced), kept, later)
    ensures KeptAt(text, n, below, introduced, [text[0]] + kept, [0] + Shifted(later))
  {
    FirstStays(text, below, introduced);
    hide KeptAt, Stays, Keeps, Generated, Introduced;
    Shift(text, n + 1, below, introduced, kept, later, [0]);
    assert text[..1] == [text[0]];
  }

  lemma {:induction false} NoneStays(text: seq<Line>, below: set<Name>, introduced: set<Name>)
    requires |text| == 0
    ensures forall p: nat :: !Stays(text, p, below, introduced)
  {
  }

  lemma {:induction false} LineIsSkipped(line: Line, below: set<Name>, introduced: set<Name>)
    requires Generated(line) || !Keeps(line, below, introduced)
    ensures Introduced(line, below, introduced) == introduced
  {
  }

  lemma {:induction false} ShiftedStay(text: seq<Line>, p: nat, below: set<Name>, introduced: set<Name>, line: Line)
    requires |text| > 0 && StaysAs(text[1..], p, below, Introduced(text[0], below, introduced), line)
    ensures StaysAs(text, p + 1, below, introduced, line)
  {
    StaysBehind(text, p, below, introduced);
  }

  /** From the positions behind the first line to those in the whole text. */
  lemma {:induction false} Shift(text: seq<Line>, n: nat, below: set<Name>, introduced: set<Name>, kept: seq<Line>,
                                 later: seq<nat>, first: seq<nat>)
    requires |text| > 0 && first == (if Stays(text, 0, below, introduced) then [0] else []) && n >= |first|
    requires KeptAt(text[1..], n, below, Introduced(text[0], below, introduced), kept, later)
    ensures KeptAt(text, n - |first|, below, introduced, text[..|first|] + kept, first + Shifted(later))
  {
    ShiftIncreases(later, first);
    ShiftStays(text, below, introduced, kept, later, first);
    ShiftedLength(later, first);
    hide Stays, Introduced, Increasing, CappedBefore, StayAll, Shifted;
    forall p: nat | Stays(text, p, below, introduced) && p !in first + Shifted(later)
      ensures CappedBefore(n - |first|, first + Shifted(later), p)
    {
      RestIsCapped(text, n, below, introduced, kept, later, first, p);
    }
  }

  lemma {:induction false} ShiftedLength(later: seq<nat>, first: seq<nat>)
    ensures |first + Shifted(later)| == |first| + |later|
  {
  }

  lemma {:induction false} ShiftStays(text: seq<Line>, below: set<Name>, introduced: set<Name>, kept: seq<Line>,
                                      later: seq<nat>, first: seq<nat>)
    requires |text| > 0 && first == (if Stays(text, 0, below, introduced) then [0] else [])
    requires StayAll(text[1..], below, Introduced(text[0], below, introduced), kept, later)
    ensures StayAll(text, below, introduced, text[..|first|] + kept, first + Shifted(later))
  {
    var at, all := first + Shifted(later), text[..|first|] + kept;
    ShiftedLength(later, first);
    hide Stays, Introduced;
    forall k | 0 <= k < |at|
      ensures StaysAs(text, at[k], below, introduced, all[k])
    {
      ShiftedAt(later, first, k);
      if k >= |first| { ShiftedStay(text, later[k - |first|], below, introduced, kept[k - |first|]); }
    }
  }

  lemma {:induction false} RestIsCapped(text: seq<Line>, n: nat, below: set<Name>, introduced: set<Name>,
                                        kept: seq<Line>, later: seq<nat>, first: seq<nat>, p: nat)
    requires |text| > 0 && first == (if Stays(text, 0, below, introduced) then [0] else []) && n >= |first|
    requires KeptAt(text[1..], n, below, Introduced(text[0], below, introduced), kept, later)
    requires Stays(text, p, below, introduced) && p !in first + Shifted(later)
    ensures CappedBefore(n - |first|, first + Shifted(later), p)
  {
    hide Stays, KeptAt, Introduced, Shifted;
    ShiftMembers(later, first, p);
    LaterIsCapped(text, n, below, introduced, kept, later, p);
    forall q | q in first + Shifted(later)
      ensures q < p
    {
      ShiftMembers(later, first, q);
    }
  }

  lemma {:induction false} LaterIsCapped(text: seq<Line>, n: nat, below: set<Name>, introduced: set<Name>,
                                         kept: seq<Line>, later: seq<nat>, p: nat)
    requires |text| > 0 && p > 0 && Stays(text, p, below, introduced) && p - 1 !in later
    requires KeptAt(text[1..], n, below, Introduced(text[0], below, introduced), kept, later)
    ensures CappedBefore(n, later, p - 1)
  {
    hide Stays, StaysAs, Introduced, CappedBefore, Increasing;
    StaysBehind(text, p - 1, below, introduced);
  }

  lemma {:induction false} StaysIsListed(text: seq<Line>, p: nat, below: set<Name>, introduced: set<Name>)
    requires Stays(text, p, below, introduced)
    ensures p < |text|
  {
  }

  // ----- The whole view -----

  /** `rules` lists in increasing order the names that `m` maps to `least` or more. */
  ghost predicate RanksFrom(rules: seq<Name>, m: CountMap, least: nat) {
    && (forall r :: r in rules <==> r in m && m[r] >= least)
    && forall i, j :: 0 <= i < j < |rules| ==> Less(rules[i], rules[j])
  }

  lemma {:induction false} SortedRanks(s: set<Name>, m: CountMap, least: nat)
    requires forall r :: r in s <==> r in m && m[r] >= least
    ensures RanksFrom(Sorted(s), m, least)
  {
    hide Less;
    forall i, j | 0 <= i < j < |s|
      ensures Less(Sorted(s)[i], Sorted(s)[j])
    {
      SortedIncreases(s, i, j);
    }
  }

  lemma {:induction false} StuckLinesAre(tools: seq<Name>, errors: CountMap, n: nat)
    requires forall t :: t in tools ==> t in errors
    ensures var lines := StuckLines(tools, errors, n);
            && |lines| == (if n >= 10 then 0 else if |tools| <= 10 - n then |tools| else 10 - n)
            && forall k :: 0 <= k < |lines| ==> lines[k] == Stuck(tools[k], errors[tools[k]])
  {
    if |tools| > 0 && n < MAX_BLOCK_RECORDS { StuckLinesAre(tools[1..], errors, n + 1); }
  }

  /** A line for each rule of `rules`, with its count. */
  ghost predicate SustainedFor(lines: seq<Line>, rules: seq<Name>, counts: CountMap) {
    |lines| == |rules|
    && forall k :: 0 <= k < |lines| ==> rules[k] in counts && lines[k] == Sustained(rules[k], counts[rules[k]])
  }

  /** A line for each of the first tools, as far as there is room for ten lines in all. */
  ghost predicate StuckFor(lines: seq<Line>, tools: seq<Name>, errors: CountMap, before: nat) {
    && |lines| == (if before >= 10 then 0 else if |tools| <= 10 - before then |tools| else 10 - before)
    && forall k :: 0 <= k < |lines| ==> tools[k] in errors && lines[k] == Stuck(tools[k], errors[tools[k]])
  }

  lemma {:induction false} SustainedAre(counts: CountMap)
    ensures RanksFrom(Sorted(SustainedRules(counts)), counts, 3)
    ensures SustainedFor(SustainedLinesOf(counts), Sorted(SustainedRules(counts)), counts)
    ensures AsSet(Sorted(SustainedRules(counts))) == SustainedRules(counts)
    ensures BelowThreshold(counts) == Below(counts)
  {
    SortedRanks(SustainedRules(counts), counts, 3);
  }

  lemma {:induction false} StuckAre(errors: CountMap, before: nat)
    ensures RanksFrom(Sorted(StuckTools(errors)), errors, 3)
    ensures StuckFor(StuckLinesOf(errors, before), Sorted(StuckTools(errors)), errors, before)
  {
    SortedRanks(StuckTools(errors), errors, 3);
    StuckLinesAre(Sorted(StuckTools(errors)), errors, before);
  }

  /**
   After a refresh the text consists of the goal, a line for each rule with three blocks or more, the old
   lines that stay, and a line for each tool with three errors or more in a row, as far as ten lines allow.
   Of the old lines, free text stays, and a record that names a rule below three which no record before it names.
   */
  lemma {:induction false} RefreshedIs(goal: Option<string>, counts: CountMap, errors: CountMap, text: seq<Line>)
    returns (rules: seq<Name>, kept: seq<Line>, at: seq<nat>, tools: seq<Name>)
    ensures RanksFrom(rules, counts, 3) && RanksFrom(tools, errors, 3)
    ensures var lines := Refreshed(goal, counts, errors, text);
            var g := if goal.Some? then 1 else 0;
            var n := g + |rules|;
            && n + |kept| <= |lines|
            && (goal.Some? ==> lines[0] == Goal(goal.value))
            && SustainedFor(lines[g..n], rules, counts)
            && lines[n..n + |kept|] == kept
            && KeptAt(text, n, Below(counts), AsSet(rules), kept, at)
            && StuckFor(lines[n + |kept|..], tools, errors, n + |kept|)
  {
    hide Refreshed, Kept, KeptAt, GoalLines, SustainedLinesOf, StuckLinesOf, RanksFrom, SustainedFor, StuckFor, Sorted,
         BelowThreshold, Below, SustainedRules, StuckTools, AsSet;
    var goals, sustained := GoalLines(goal), SustainedLinesOf(counts);
    var n := |goals| + |sustained|;
    rules, tools := Sorted(SustainedRules(counts)), Sorted(StuckTools(errors));
    SustainedAre(counts);
    LinesAsRules(sustained, rules, counts);
    kept := Kept(text, n, BelowThreshold(counts), SustainedRules(counts));
    at := KeptIs(text, n, BelowThreshold(counts), SustainedRules(counts));
    StuckAre(errors, n + |kept|);
    RefreshedParts(goal, counts, errors, text);
    Sections(goals, sustained, kept, StuckLinesOf(errors, n + |kept|));
  }

  lemma {:induction false} LinesAsRules(lines: seq<Line>, rules: seq<Name>, counts: CountMap)
    requires SustainedFor(lines, rules, counts)
    ensures |lines| == |rules|
  {
  }
}
