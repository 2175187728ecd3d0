/** New inputs by flipping one branch of a recorded path at a time. */
module InputGenerator {
  import opened Prelude
  import opened Constraints
  import opened PushSolver
  import opened SolverReach

  // ----- Flipping branches -----

  datatype BranchDecision = BranchDecision(siteId: string, condition: Constraint, taken: bool)

  datatype PathRecord = PathRecord(decisions: seq<BranchDecision>, entryValues: Env)

  datatype InputCandidate = InputCandidate(flippedIdx: nat, constraints: seq<Constraint>, assignments: Env,
                                           isFeasible: bool)

  function TakenConstraint(d: BranchDecision): Constraint {
    if d.taken then d.condition else Negate(d.condition)
  }

  function FromPath(decisions: seq<BranchDecision>): (cs: seq<Constraint>)
    ensures |cs| == |decisions| && forall k :: 0 <= k < |cs| ==> cs[k] == TakenConstraint(decisions[k])
  {
    if |decisions| == 0 then []
    else FromPath(decisions[..|decisions| - 1]) + [TakenConstraint(decisions[|decisions| - 1])]
  }

  method BuildFromPath(decisions: seq<BranchDecision>) returns (cs: seq<Constraint>)
    ensures cs == FromPath(decisions)
  {
    cs := [];
    for n := 0 to |decisions|
      invariant |cs| == n && forall k :: 0 <= k < n ==> cs[k] == TakenConstraint(decisions[k])
    {
      cs := cs + [if decisions[n].taken then decisions[n].condition else Negate(decisions[n].condition)];
    }
  }

  function WithFlip(cs: seq<Constraint>, idx: nat): (flipped: seq<Constraint>)
    ensures |flipped| == |cs|
  {
    if idx < |cs| then cs[idx := Negate(cs[idx])] else cs
  }

  function CandidateAt(cs: seq<Constraint>, idx: nat): InputCandidate {
    var flipped := WithFlip(cs, idx);
    var feasible := TriviallySatisfiable(flipped);
    InputCandidate(idx, flipped, if feasible then Solve(flipped) else map[], feasible)
  }

  method FlipConstraints(cs: seq<Constraint>) returns (candidates: seq<InputCandidate>)
    ensures |candidates| == |cs| && forall i :: 0 <= i < |cs| ==> candidates[i] == CandidateAt(cs, i)
  {
    candidates := [];
    for i := 0 to |cs|
      invariant |candidates| == i && forall k :: 0 <= k < i ==> candidates[k] == CandidateAt(cs, k)
    {
      var flipped := WithFlip(cs, i);
      var feasible := IsTriviallySatisfiable(flipped);
      var assignments: Env := map[];
      if feasible { assignments := SolveAssignments(flipped); }
      candidates := candidates + [InputCandidate(i, flipped, assignments, feasible)];
    }
  }

  /** The branches that can be flipped as far as the check can tell, in order. */
  function Flippable(cs: seq<Constraint>, n: nat): (idxs: seq<nat>)
    requires n <= |cs|
    ensures Increasing(idxs) && forall i :: i in idxs <==> 0 <= i < n && TriviallySatisfiable(WithFlip(cs, i))
  {
    if n == 0 then []
    else if TriviallySatisfiable(WithFlip(cs, n - 1)) then
      var before := Flippable(cs, n - 1);
      IncreasingSnoc(before, n - 1);
      before + [n - 1]
    else Flippable(cs, n - 1)
  }

  /** Entry values fill in only what the solver left open. */
  function Merge(assignments: Env, entries: Env): Env {
    entries + assignments
  }

  function MergedCandidate(path: PathRecord, idx: nat): InputCandidate {
    var c := CandidateAt(FromPath(path.decisions), idx);
    c.(assignments := Merge(c.assignments, path.entryValues))
  }

  lemma NoneFlippable(cs: seq<Constraint>)
    ensures Flippable(cs, 0) == []
  {
  }

  lemma FlippableNext(cs: seq<Constraint>, n: nat)
    requires n < |cs|
    ensures Flippable(cs, n + 1) == Flippable(cs, n) + if CandidateAt(cs, n).isFeasible then [n] else []
  {
    hide TriviallySatisfiable, Solve, WithFlip;
  }

  /** Drops the candidates that the check refused. */
  method RetainFeasible(cs: seq<Constraint>, candidates: seq<InputCandidate>) returns (kept: seq<InputCandidate>)
    requires |candidates| == |cs| && forall i :: 0 <= i < |cs| ==> candidates[i] == CandidateAt(cs, i)
    ensures var idxs := Flippable(cs, |cs|);
            |kept| == |idxs| && forall k :: 0 <= k < |kept| ==> kept[k] == CandidateAt(cs, idxs[k])
  {
    hide TriviallySatisfiable, Solve, WithFlip, Flippable, Increasing;
    kept := [];
    NoneFlippable(cs);
    for n := 0 to |candidates|
      invariant |kept| == |Flippable(cs, n)|
      invariant forall k :: 0 <= k < |kept| ==> kept[k] == CandidateAt(cs, Flippable(cs, n)[k])
    {
      FlippableNext(cs, n);
      if candidates[n].isFeasible { kept := kept + [candidates[n]]; }
    }
  }

  /** `env` takes the opposite branch at decision `idx` and the recorded branch at every other. */
  ghost predicate FlipsOnly(path: PathRecord, env: Env, idx: nat) {
    forall k :: 0 <= k < |path.decisions| ==>
      Evaluate(path.decisions[k].condition, env)
      == Some(if k == idx then !path.decisions[k].taken else path.decisions[k].taken)
  }

  /**
   The first `max` flippable branches, each with its solved and completed input. With few disequalities
   the input flips its branch and no other exactly when that is within the solver's reach; without any,
   and literals only, whenever some input does; where every comparison can go either way, always.
   */
  method GenerateInputs(path: PathRecord, max: nat) returns (inputs: seq<InputCandidate>)
    ensures var idxs := Flippable(FromPath(path.decisions), |path.decisions|);
            && |inputs| == (if |idxs| <= max then |idxs| else max)
            && forall k :: 0 <= k < |inputs| ==> inputs[k] == MergedCandidate(path, idxs[k])
    ensures forall k :: 0 <= k < |inputs| ==> AsGoodAsReach(path, inputs[k]) && IsCompleted(path, inputs[k])
    ensures OpenPath(path) ==>
              forall k :: 0 <= k < |inputs| ==> FlipsOnly(path, inputs[k].assignments, inputs[k].flippedIdx)
  {
    hide AsGoodAsReach, FlipsOnly, OpenPath, CandidateAt, Flippable, Merge, FromPath, IsCompleted;
    var cs := BuildFromPath(path.decisions);
    inputs := FlipConstraints(cs);
    inputs := RetainFeasible(cs, inputs);
    ghost var idxs := Flippable(cs, |cs|);
    for n := 0 to |inputs|
      invariant |inputs| == |idxs|
      invariant forall k :: 0 <= k < n ==> inputs[k] == MergedCandidate(path, idxs[k])
      invariant forall k :: n <= k < |inputs| ==> inputs[k] == CandidateAt(cs, idxs[k])
    {
      var merged := MergeEntries(inputs[n].assignments, path.entryValues);
      inputs := inputs[n := inputs[n].(assignments := merged)];
    }
    if |inputs| > max { inputs := inputs[..max]; }
    forall k | 0 <= k < |inputs|
      ensures AsGoodAsReach(path, inputs[k]) && IsCompleted(path, inputs[k])
      ensures OpenPath(path) ==> FlipsOnly(path, inputs[k].assignments, inputs[k].flippedIdx)
    {
      assert idxs[k] in idxs;
      CandidateIsGood(path, idxs[k]);
      CandidateIsCompleted(path, idxs[k]);
    }
  }

  /**
   The input is offered for one decision of the path. It keeps the entry value of every variable that the
   path does not constrain, and has a value for every one that it does.
   */
  ghost predicate IsCompleted(path: PathRecord, input: InputCandidate) {
    && input.isFeasible && input.flippedIdx < |path.decisions| == |input.constraints|
    && (forall k :: 0 <= k < |path.decisions| ==>
          VarsOf(path.decisions[k].condition) <= input.assignments.Keys)
    && forall v :: v in path.entryValues ==>
         v in input.assignments
         && ((forall k :: 0 <= k < |path.decisions| ==> v !in VarsOf(path.decisions[k].condition)) ==>
               input.assignments[v] == path.entryValues[v])
  }

  lemma {:induction false} CandidateIsCompleted(path: PathRecord, idx: nat)
    requires idx in Flippable(FromPath(path.decisions), |path.decisions|)
    ensures IsCompleted(path, MergedCandidate(path, idx))
  {
    hide TriviallySatisfiable, Solve, VarsOf, Flippable;
    var flipped := WithFlip(FromPath(path.decisions), idx);
    SolveHasAll(flipped);
    assert idx < |path.decisions| && TriviallySatisfiable(flipped);
    forall k | 0 <= k < |path.decisions|
      ensures VarsOf(flipped[k]) == VarsOf(path.decisions[k].condition)
    {
      FlipKeepsVars(path, idx, k);
    }
    forall v | v in Solve(flipped)
      ensures exists k :: 0 <= k < |path.decisions| && v in VarsOf(path.decisions[k].condition)
    {
      var k := SolveHasOnly(flipped, v);
      assert v in VarsOf(path.decisions[k].condition);
    }
  }

  lemma {:induction false} FlipKeepsVars(path: PathRecord, idx: nat, k: nat)
    requires k < |path.decisions|
    ensures VarsOf(WithFlip(FromPath(path.decisions), idx)[k]) == VarsOf(path.decisions[k].condition)
  {
  }

  /** The input takes the flipped path exactly when the flipped constraints are within the solver's reach. */
  ghost predicate AsGoodAsReach(path: PathRecord, input: InputCandidate) {
    var flipped := WithFlip(FromPath(path.decisions), input.flippedIdx);
    && (FewDisequalities(flipped) ==> (FlipsOnly(path, input.assignments, input.flippedIdx) <==> Reachable(flipped)))
    && (PlainOnly(flipped) ==> (FlipsOnly(path, input.assignments, input.flippedIdx) <==> Satisfiable(flipped)))
  }

  lemma CandidateIsGood(path: PathRecord, idx: nat)
    requires idx in Flippable(FromPath(path.decisions), |path.decisions|)
    ensures AsGoodAsReach(path, MergedCandidate(path, idx))
    ensures var input := MergedCandidate(path, idx);
            OpenPath(path) ==> FlipsOnly(path, input.assignments, input.flippedIdx)
  {
    hide FlipsOnly, WithFlip, OpenPath, PlainOnly, Satisfiable, Reachable;
    var flipped := WithFlip(FromPath(path.decisions), idx);
    CandidateIndex(FromPath(path.decisions), idx);
    if PlainOnly(flipped) { PlainHasFew(flipped, |flipped|); }
    if FewDisequalities(flipped) { InputFlipsOneBranch(path, idx); }
    if OpenPath(path) {
      OfferedIffPossible(path, idx);
      FlipIsPlain(path, idx);
    }
  }

  lemma FlipIsPlain(path: PathRecord, idx: nat)
    requires OpenPath(path)
    ensures PlainOnly(WithFlip(FromPath(path.decisions), idx))
  {
    FlipIsOrder(path, idx);
    var flipped := WithFlip(FromPath(path.decisions), idx);
    forall k | 0 <= k < |flipped|
      ensures IsPlain(flipped[k])
    {
      assert IsOrder(flipped[k]);
    }
  }

  lemma CandidateIndex(cs: seq<Constraint>, idx: nat)
    ensures CandidateAt(cs, idx).flippedIdx == idx
  {
  }

  /** `entry(k).or_insert(v)` for every entry value. */
  method MergeEntries(assignments: Env, entries: Env) returns (merged: Env)
    ensures merged == Merge(assignments, entries)
  {
    merged := assignments;
    var left := entries.Keys;
    while |left| > 0
      invariant left <= entries.Keys
      invariant forall v :: v in merged <==> v in assignments || (v in entries && v !in left)
      invariant forall v :: v in merged ==> merged[v] == if v in assignments then assignments[v] else entries[v]
      decreases |left|
    {
      var v :| v in left;
      left := left - {v};
      if v !in merged { merged := merged[v := entries[v]]; }
    }
    assert merged == Merge(assignments, entries);
  }

  /** A branch on a comparison that can go either way. */
  predicate IsOpen(d: BranchDecision) {
    IsOrder(d.condition) && IsOrder(Negate(d.condition))
  }

  ghost predicate OpenPath(path: PathRecord) {
    forall k :: 0 <= k < |path.decisions| ==> IsOpen(path.decisions[k])
  }

  lemma FlipIsOrder(path: PathRecord, idx: nat)
    requires OpenPath(path)
    ensures OrderOnly(WithFlip(FromPath(path.decisions), idx))
  {
    var flipped := WithFlip(FromPath(path.decisions), idx);
    forall k | 0 <= k < |flipped|
      ensures IsOrder(flipped[k])
    {
      assert IsOpen(path.decisions[k]);
    }
  }

  /**
   With fewer disequalities than rounds the completed input takes the opposite branch at the flipped decision
   and the recorded branch at every other exactly when the flipped constraints are within the solver's reach;
   on literal constraints without disequalities, exactly when any input does.
   */
  lemma InputFlipsOneBranch(path: PathRecord, idx: nat)
    requires idx in Flippable(FromPath(path.decisions), |path.decisions|)
    requires FewDisequalities(WithFlip(FromPath(path.decisions), idx))
    ensures var flipped := WithFlip(FromPath(path.decisions), idx);
            && (FlipsOnly(path, MergedCandidate(path, idx).assignments, idx) <==> Reachable(flipped))
            && (PlainOnly(flipped) ==> (Reachable(flipped) <==> Satisfiable(flipped)))
  {
    hide Solve, TriviallySatisfiable, FlipsOnly, Reachable, Satisfiable;
    var flipped := WithFlip(FromPath(path.decisions), idx);
    SolvesIff(flipped);
    if PlainOnly(flipped) { SolveIsComplete(flipped); }
    FlipsIffSatisfies(path, idx, MergedCandidate(path, idx).assignments);
    MergeKeepsSatisfaction(flipped, path.entryValues);
  }

  /** The bound is sharp: one disequality for each round can be one too many. */
  ghost predicate FewDisequalities(cs: seq<Constraint>) {
    Disequalities(cs, |cs|) < 64
  }

  lemma {:induction false} PlainHasFew(cs: seq<Constraint>, n: nat)
    requires n <= |cs| && PlainOnly(cs)
    ensures Disequalities(cs, n) == 0
  {
    if n > 0 {
      PlainHasFew(cs, n - 1);
      assert IsPlain(cs[n - 1]);
    }
  }

  /** The solver leaves no variable of the constraints open, so the entry values change nothing for them. */
  lemma MergeKeepsSatisfaction(cs: seq<Constraint>, entries: Env)
    ensures Satisfies(Merge(Solve(cs), entries), cs) <==> Satisfies(Solve(cs), cs)
  {
    hide Solve, Holds;
    SolveHasAll(cs);
    forall k | 0 <= k < |cs|
      ensures Evaluate(cs[k], Merge(Solve(cs), entries)) == Evaluate(cs[k], Solve(cs))
    {
      assert cs[k].lhs in VarsOf(cs[k]) && (cs[k].rhsSym.Some? ==> cs[k].rhsSym.value in VarsOf(cs[k]));
    }
  }

  /** Taking the flipped path is satisfying the flipped constraints. */
  lemma FlipsIffSatisfies(path: PathRecord, idx: nat, env: Env)
    requires idx < |path.decisions|
    ensures FlipsOnly(path, env, idx) <==> Satisfies(env, WithFlip(FromPath(path.decisions), idx))
  {
    var flipped := WithFlip(FromPath(path.decisions), idx);
    forall k | 0 <= k < |path.decisions|
      ensures Evaluate(flipped[k], env) == Some(true) <==>
              Evaluate(path.decisions[k].condition, env)
              == Some(if k == idx then !path.decisions[k].taken else path.decisions[k].taken)
    {
      NegateFlips(path.decisions[k].condition, env);
    }
  }

  /** On such a path a branch is offered exactly when some assignment takes it and keeps all others. */
  lemma OfferedIffPossible(path: PathRecord, idx: nat)
    requires OpenPath(path)
    requires idx < |path.decisions|
    ensures idx in Flippable(FromPath(path.decisions), |path.decisions|) <==>
            Satisfiable(WithFlip(FromPath(path.decisions), idx))
  {
    FlipIsOrder(path, idx);
    CheckIsExact(WithFlip(FromPath(path.decisions), idx));
  }
}
