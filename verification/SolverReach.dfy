/**
 How far the push solver gets on constraints of all kinds. It walks upward from zero over the values that
 disequalities forbid, but for variables that the other constraints cap below zero.
 */
module SolverReach {
  import opened Prelude
  import opened Constraints
  import opened PushSolver

  // ----- Assignments that the solver can get to -----

  /** All literal constraints other than disequalities are met. */
  ghost predicate PlainMet(cs: seq<Constraint>, env: Env) {
    forall k :: 0 <= k < |cs| && IsPlain(cs[k]) ==> MetBy(cs[k], env)
  }

  ghost predicate LiteralMet(cs: seq<Constraint>, env: Env) {
    forall k :: 0 <= k < |cs| && cs[k].rhsInt.Some? ==> MetBy(cs[k], env)
  }

  /** No way of meeting the plain constraints has a greater value for `v`. */
  ghost predicate IsGreatest(cs: seq<Constraint>, env: Env, v: Var) {
    forall p :: PlainMet(cs, p) ==> ValueOf(p, v) <= ValueOf(env, v)
  }

  /** The literal constraints are met, and what is below zero is as great as the plain ones allow. */
  ghost predicate Upward(cs: seq<Constraint>, env: Env) {
    LiteralMet(cs, env) && forall v :: ValueOf(env, v) >= 0 || IsGreatest(cs, env, v)
  }

  ghost predicate Below(a: Env, b: Env) {
    forall v :: ValueOf(a, v) <= ValueOf(b, v)
  }

  /** The least of these assignments. */
  ghost predicate IsFirst(cs: seq<Constraint>, p: Env) {
    Upward(cs, p) && forall goal :: Upward(cs, goal) ==> Below(p, goal)
  }

  predicate TrueAt(c: Constraint, env: Env) {
    if c.rhsInt.Some? then Holds(c.kind, ValueOf(env, c.lhs), c.rhsInt.value)
    else c.rhsSym.Some? && Holds(c.kind, ValueOf(env, c.lhs), ValueOf(env, c.rhsSym.value))
  }

  ghost predicate AllTrue(cs: seq<Constraint>, env: Env) {
    forall k :: 0 <= k < |cs| ==> TrueAt(cs[k], env)
  }

  /** The least upward assignment exists and meets the constraints between variables as well. */
  ghost predicate Reachable(cs: seq<Constraint>) {
    exists p :: IsFirst(cs, p) && AllTrue(cs, p)
  }

  predicate IsDisequality(c: Constraint) {
    c.rhsInt.Some? && c.kind.Ne?
  }

  /** Disequalities among the first `n` constraints. */
  function Disequalities(cs: seq<Constraint>, n: nat): (count: nat)
    requires n <= |cs|
    ensures count <= n
  {
    if n == 0 then 0 else Disequalities(cs, n - 1) + if IsDisequality(cs[n - 1]) then 1 else 0
  }

  // ----- One round -----

  lemma PushClimbs(c: Constraint, x: i64, goal: i64)
    requires c.rhsInt.Some? && Holds(c.kind, goal, c.rhsInt.value) && x <= goal
    ensures x <= SatisfyValue(c.kind, x, c.rhsInt.value) <= goal
    ensures IsPlain(c) ==> Holds(c.kind, SatisfyValue(c.kind, x, c.rhsInt.value), c.rhsInt.value)
  {
  }

  lemma PushStaysAbove(c: Constraint, x: i64, floor: i64)
    requires c.rhsInt.Some? && floor <= x
    ensures IsPlain(c) && Holds(c.kind, floor, c.rhsInt.value) ==> floor <= SatisfyValue(c.kind, x, c.rhsInt.value) <= x
    ensures IsDisequality(c) && x < MAX ==> x <= SatisfyValue(c.kind, x, c.rhsInt.value) <= x + 1
  {
  }

  /** From below a solution a value climbs, but not past it, and meets the plain constraints it comes by. */
  lemma {:induction false} ClimbsTo(cs: seq<Constraint>, env: Env, n: nat, goal: Env, v: Var)
    requires n <= |cs| && LiteralMet(cs, goal) && ValueOf(env, v) <= ValueOf(goal, v)
    ensures ValueOf(env, v) <= ValueOf(Round(cs, env, n), v) <= ValueOf(goal, v)
    ensures forall k :: 0 <= k < n && cs[k].lhs == v && IsPlain(cs[k]) ==> MetBy(cs[k], Round(cs, env, n))
  {
    if n > 0 {
      hide SatisfyValue, Holds;
      var c, before := cs[n - 1], Round(cs, env, n - 1);
      ClimbsTo(cs, env, n - 1, goal, v);
      if c.lhs == v && c.rhsInt.Some? {
        assert MetBy(c, goal);
        PushClimbs(c, ValueOf(before, v), ValueOf(goal, v));
      }
      forall k | 0 <= k < n - 1 && cs[k].lhs == v && IsPlain(cs[k])
        ensures MetBy(cs[k], Round(cs, env, n))
      {
        assert MetBy(cs[k], before) && MetBy(cs[k], goal);
        HoldsBetween(cs[k], ValueOf(Round(cs, env, n), v), ValueOf(before, v), ValueOf(goal, v));
      }
    }
  }

  /** From above a value that meets the plain constraints it does not fall below it, nor rise much. */
  lemma {:induction false} StaysAbove(cs: seq<Constraint>, env: Env, n: nat, floor: Env, v: Var)
    requires n <= |cs| && PlainMet(cs, floor) && ValueOf(floor, v) <= ValueOf(env, v)
    requires ValueOf(env, v) + Disequalities(cs, n) <= MAX
    ensures ValueOf(floor, v) <= ValueOf(Round(cs, env, n), v) <= ValueOf(env, v) + Disequalities(cs, n)
  {
    if n > 0 {
      hide SatisfyValue, Holds;
      var c, before := cs[n - 1], Round(cs, env, n - 1);
      StaysAbove(cs, env, n - 1, floor, v);
      if c.lhs == v && c.rhsInt.Some? {
        assert IsPlain(c) ==> MetBy(c, floor);
        PushStaysAbove(c, ValueOf(before, v), ValueOf(floor, v));
      }
    }
  }

  /** The constraint allows `top` and nothing above it. */
  predicate Caps(c: Constraint, v: Var, top: int) {
    && c.lhs == v && c.rhsInt.Some?
    && match c.kind
       case Lt => c.rhsInt.value == top + 1
       case Le => c.rhsInt.value == top
       case Eq => c.rhsInt.value == top
       case _ => false
  }

  lemma OneMore(cs: seq<Constraint>, goal: Env, v: Var)
    requires LiteralMet(cs, goal) && ValueOf(goal, v) < 0
    requires forall j :: 0 <= j < |cs| ==> !Caps(cs[j], v, ValueOf(goal, v))
    ensures PlainMet(cs, goal[v := ValueOf(goal, v) + 1])
  {
    forall j | 0 <= j < |cs| && IsPlain(cs[j])
      ensures MetBy(cs[j], goal[v := ValueOf(goal, v) + 1])
    {
      assert MetBy(cs[j], goal) && !Caps(cs[j], v, ValueOf(goal, v));
    }
  }

  /** A greatest value below zero has a constraint that caps it: else one more would do. */
  lemma CapExists(cs: seq<Constraint>, goal: Env, v: Var) returns (k: nat)
    requires LiteralMet(cs, goal) && ValueOf(goal, v) < 0 && IsGreatest(cs, goal, v)
    ensures k < |cs| && Caps(cs[k], v, ValueOf(goal, v))
  {
    if j: nat :| j < |cs| && Caps(cs[j], v, ValueOf(goal, v)) {
      k := j;
    } else {
      OneMore(cs, goal, v);
      assert false;
    }
  }

  lemma CapPushes(c: Constraint, v: Var, x: i64, top: i64)
    requires Caps(c, v, top) && top <= x
    ensures SatisfyValue(c.kind, x, c.rhsInt.value) == top
  {
  }

  /** A capped value has come down to its cap by the end of the round. */
  lemma {:induction false} CapHolds(cs: seq<Constraint>, env: Env, n: nat, goal: Env, v: Var, k: nat)
    requires k < n <= |cs| && LiteralMet(cs, goal) && ValueOf(goal, v) <= ValueOf(env, v)
    requires ValueOf(env, v) + Disequalities(cs, n) <= MAX && Caps(cs[k], v, ValueOf(goal, v))
    ensures ValueOf(Round(cs, env, n), v) == ValueOf(goal, v)
  {
    hide SatisfyValue, Holds;
    var c, before := cs[n - 1], Round(cs, env, n - 1);
    PlainToo(cs, goal);
    StaysAbove(cs, env, n - 1, goal, v);
    if k == n - 1 {
      CapPushes(c, v, ValueOf(before, v), ValueOf(goal, v));
    } else {
      CapHolds(cs, env, n - 1, goal, v, k);
      if c.lhs == v && c.rhsInt.Some? {
        assert MetBy(c, goal);
        StandsStillIff(c.kind, ValueOf(before, v), c.rhsInt.value);
      }
    }
  }

  lemma PlainToo(cs: seq<Constraint>, goal: Env)
    requires LiteralMet(cs, goal)
    ensures PlainMet(cs, goal)
  {
  }

  /** The first round ends below every upward assignment, with the plain constraints met. */
  lemma FirstRound(cs: seq<Constraint>, goal: Env)
    requires Upward(cs, goal) && Disequalities(cs, |cs|) < ROUNDS
    ensures Below(Round(cs, Start(cs), |cs|), goal) && PlainMet(cs, Round(cs, Start(cs), |cs|))
  {
    hide Holds, IsGreatest;
    var out := Round(cs, Start(cs), |cs|);
    forall v
      ensures ValueOf(out, v) <= ValueOf(goal, v)
      ensures forall k :: 0 <= k < |cs| && cs[k].lhs == v && IsPlain(cs[k]) ==> MetBy(cs[k], out)
    {
      if ValueOf(goal, v) >= 0 {
        ClimbsTo(cs, Start(cs), |cs|, goal, v);
      } else {
        var k := CapExists(cs, goal, v);
        CapHolds(cs, Start(cs), |cs|, goal, v, k);
        assert forall k :: 0 <= k < |cs| && cs[k].lhs == v && IsPlain(cs[k]) ==> MetBy(cs[k], goal);
      }
    }
  }

  // ----- Later rounds -----

  /** Disequalities among the first `n` constraints that a climbing value may still run into. */
  function Pending(cs: seq<Constraint>, env: Env, n: nat): (count: nat)
    requires n <= |cs|
    ensures count <= Disequalities(cs, n)
  {
    if n == 0 then 0
    else Pending(cs, env, n - 1)
         + if IsDisequality(cs[n - 1]) && ValueOf(env, cs[n - 1].lhs) <= cs[n - 1].rhsInt.value then 1 else 0
  }

  /** Disequality `j` is behind the value. */
  predicate Passed(cs: seq<Constraint>, env: Env, now: Env, j: nat)
    requires j < |cs|
  {
    IsDisequality(cs[j]) && ValueOf(env, cs[j].lhs) <= cs[j].rhsInt.value < ValueOf(now, cs[j].lhs)
  }

  lemma {:induction false} PendingDrops(cs: seq<Constraint>, env: Env, now: Env, n: nat)
    requires n <= |cs| && Below(env, now)
    ensures Pending(cs, now, n) <= Pending(cs, env, n)
    ensures (exists j :: 0 <= j < n && Passed(cs, env, now, j)) ==> Pending(cs, now, n) < Pending(cs, env, n)
  {
    if n > 0 {
      PendingDrops(cs, env, now, n - 1);
      assert ValueOf(env, cs[n - 1].lhs) <= ValueOf(now, cs[n - 1].lhs);
    }
  }

  /** Once the plain constraints are met, only disequalities push, and each push passes one. */
  lemma {:induction false} ClimbRound(cs: seq<Constraint>, env: Env, n: nat, goal: Env)
    requires n <= |cs| && LiteralMet(cs, goal) && PlainMet(cs, env) && Below(env, goal)
    ensures var out := Round(cs, env, n);
            && Below(env, out) && Below(out, goal) && PlainMet(cs, out)
            && (RoundChanges(cs, env, n) ==> exists j :: 0 <= j < n && Passed(cs, env, out, j))
  {
    if n > 0 {
      hide SatisfyValue, Holds, RoundChanges;
      var c, before, out := cs[n - 1], Round(cs, env, n - 1), Round(cs, env, n);
      ClimbRound(cs, env, n - 1, goal);
      ClimbPush(cs, before, n - 1, goal);
      assert Below(env, out) by {
        forall v
          ensures ValueOf(env, v) <= ValueOf(out, v)
        {
          assert ValueOf(env, v) <= ValueOf(before, v) <= ValueOf(out, v);
        }
      }
      RoundChangesStep(cs, env, n);
      if RoundChanges(cs, env, n - 1) {
        var j :| 0 <= j < n - 1 && Passed(cs, env, before, j);
        assert ValueOf(before, cs[j].lhs) <= ValueOf(out, cs[j].lhs);
        assert Passed(cs, env, out, j);
      } else if Changes(before, c) {
        assert ValueOf(env, c.lhs) <= ValueOf(before, c.lhs);
        assert Passed(cs, env, out, n - 1);
      }
    }
  }

  lemma RoundChangesStep(cs: seq<Constraint>, env: Env, n: nat)
    requires 0 < n <= |cs|
    ensures RoundChanges(cs, env, n) <==> RoundChanges(cs, env, n - 1) || Changes(Round(cs, env, n - 1), cs[n - 1])
  {
  }

  lemma ClimbPush(cs: seq<Constraint>, env: Env, k: nat, goal: Env)
    requires k < |cs| && LiteralMet(cs, goal) && PlainMet(cs, env) && Below(env, goal)
    ensures var out := Push(env, cs[k]);
            && Below(env, out) && Below(out, goal) && PlainMet(cs, out)
            && (Changes(env, cs[k]) ==> Passed(cs, env, out, k))
  {
    var c, out := cs[k], Push(env, cs[k]);
    if Changes(env, c) {
      assert MetBy(c, goal) && (IsPlain(c) ==> MetBy(c, env));
      StandsStillIff(c.kind, ValueOf(env, c.lhs), c.rhsInt.value);
      assert ValueOf(env, c.lhs) <= ValueOf(goal, c.lhs);
      PushClimbs(c, ValueOf(env, c.lhs), ValueOf(goal, c.lhs));
      assert IsDisequality(c);
      forall j | 0 <= j < |cs| && IsPlain(cs[j])
        ensures MetBy(cs[j], out)
      {
        assert MetBy(cs[j], env) && MetBy(cs[j], goal);
        if cs[j].lhs == c.lhs {
          HoldsBetween(cs[j], ValueOf(out, c.lhs), ValueOf(env, c.lhs), ValueOf(goal, c.lhs));
        }
      }
    }
  }

  /** With a round for every pending disequality the solver settles, below the solution. */
  lemma {:induction false} Settles(cs: seq<Constraint>, env: Env, fuel: nat, goal: Env)
    requires LiteralMet(cs, goal) && PlainMet(cs, env) && Below(env, goal) && Pending(cs, env, |cs|) <= fuel
    ensures LiteralMet(cs, Rounds(cs, env, fuel)) && Below(Rounds(cs, env, fuel), goal)
    decreases fuel
  {
    hide Holds, SatisfyValue, PlainMet, Pending;
    ClimbRound(cs, env, |cs|, goal);
    PendingDrops(cs, env, Round(cs, env, |cs|), |cs|);
    if RoundChanges(cs, env, |cs|) {
      Settles(cs, Round(cs, env, |cs|), fuel - 1, goal);
    } else {
      QuietMeets(cs, env);
    }
  }

  lemma QuietMeets(cs: seq<Constraint>, env: Env)
    requires !RoundChanges(cs, env, |cs|) && PlainMet(cs, env)
    ensures LiteralMet(cs, env)
  {
    StillRound(cs, env, |cs|);
    forall k | 0 <= k < |cs| && cs[k].rhsInt.Some?
      ensures MetBy(cs[k], env)
    {
      StandsStillIff(cs[k].kind, ValueOf(env, cs[k].lhs), cs[k].rhsInt.value);
    }
  }

  // ----- The whole solver -----

  /** Below every upward assignment the solver finds one that meets the literal constraints. */
  lemma SolveReaches(cs: seq<Constraint>, goal: Env)
    requires Upward(cs, goal) && Disequalities(cs, |cs|) < ROUNDS
    ensures LiteralMet(cs, Solve(cs)) && Below(Solve(cs), goal)
  {
    hide PlainMet, IsGreatest;
    var out := Round(cs, Start(cs), |cs|);
    FirstRound(cs, goal);
    if RoundChanges(cs, Start(cs), |cs|) {
      Settles(cs, out, ROUNDS - 1, goal);
    } else {
      StillRound(cs, Start(cs), |cs|);
      QuietMeets(cs, out);
    }
  }

  /** No value ever falls below one at most zero that meets the plain constraints. */
  lemma {:induction false} RoundsStayAbove(cs: seq<Constraint>, env: Env, fuel: nat, floor: Env, v: Var)
    requires PlainMet(cs, floor) && ValueOf(floor, v) <= ValueOf(env, v)
    requires Disequalities(cs, |cs|) < ROUNDS && ValueOf(env, v) + ROUNDS * fuel <= MAX
    ensures ValueOf(floor, v) <= ValueOf(Rounds(cs, env, fuel), v)
    decreases fuel
  {
    if fuel > 0 && RoundChanges(cs, env, |cs|) {
      StaysAbove(cs, env, |cs|, floor, v);
      RoundsStayAbove(cs, Round(cs, env, |cs|), fuel - 1, floor, v);
    }
  }

  /** What the solver finds is upward. */
  lemma SolveIsUpward(cs: seq<Constraint>)
    requires LiteralMet(cs, Solve(cs)) && Disequalities(cs, |cs|) < ROUNDS
    ensures Upward(cs, Solve(cs))
  {
    var out := Solve(cs);
    forall v, p | ValueOf(out, v) < 0 && PlainMet(cs, p)
      ensures ValueOf(p, v) <= ValueOf(out, v)
    {
      if ValueOf(p, v) > ValueOf(out, v) {
        var floor: Env := out[v := Min(ValueOf(p, v), 0)];
        forall k | 0 <= k < |cs| && IsPlain(cs[k])
          ensures MetBy(cs[k], floor)
        {
          assert MetBy(cs[k], out) && MetBy(cs[k], p);
          if cs[k].lhs == v { HoldsBetween(cs[k], ValueOf(floor, v), ValueOf(out, v), ValueOf(p, v)); }
        }
        RoundsStayAbove(cs, Start(cs), ROUNDS, floor, v);
      }
    }
  }

  lemma TrueIsSatisfied(cs: seq<Constraint>, env: Env)
    requires forall k :: 0 <= k < |cs| ==> VarsOf(cs[k]) <= env.Keys
    ensures Satisfies(env, cs) <==> AllTrue(cs, env)
  {
    forall k | 0 <= k < |cs|
      ensures Evaluate(cs[k], env) == Some(true) <==> TrueAt(cs[k], env)
    {
      assert cs[k].lhs in VarsOf(cs[k]) && (cs[k].rhsSym.Some? ==> cs[k].rhsSym.value in VarsOf(cs[k]));
    }
  }

  lemma SolveHasAll(cs: seq<Constraint>)
    ensures forall k :: 0 <= k < |cs| ==> VarsOf(cs[k]) <= Solve(cs).Keys
  {
    SolveKeepsKeys(cs, Start(cs), ROUNDS);
  }

  lemma {:induction false} SolveHasOnly(cs: seq<Constraint>, v: Var) returns (k: nat)
    requires v in Solve(cs)
    ensures k < |cs| && v in VarsOf(cs[k])
  {
    SolveKeepsKeys(cs, Start(cs), ROUNDS);
    k := VariableIsUsed(cs, |cs|, v);
  }

  lemma {:induction false} VariableIsUsed(cs: seq<Constraint>, n: nat, v: Var) returns (k: nat)
    requires n <= |cs| && v in Variables(cs, n)
    ensures k < n && v in VarsOf(cs[k])
  {
    if v in VarsOf(cs[n - 1]) { k := n - 1; } else { k := VariableIsUsed(cs, n - 1, v); }
  }

  lemma TrueIsMet(cs: seq<Constraint>, env: Env)
    requires AllTrue(cs, env)
    ensures LiteralMet(cs, env)
  {
    forall k | 0 <= k < |cs| && cs[k].rhsInt.Some?
      ensures MetBy(cs[k], env)
    {
      assert TrueAt(cs[k], env);
    }
  }

  lemma SameValuesSameTruth(cs: seq<Constraint>, a: Env, b: Env)
    requires AllTrue(cs, a) && Below(a, b) && Below(b, a)
    ensures AllTrue(cs, b)
  {
    forall k | 0 <= k < |cs|
      ensures TrueAt(cs[k], b)
    {
      assert TrueAt(cs[k], a);
      assert ValueOf(a, cs[k].lhs) == ValueOf(b, cs[k].lhs);
      assert cs[k].rhsSym.Some? ==> ValueOf(a, cs[k].rhsSym.value) == ValueOf(b, cs[k].rhsSym.value);
    }
  }

  /**
   On constraints of any kinds with fewer disequalities than rounds, the solver succeeds exactly when the
   least upward assignment exists and meets the constraints between variables as well.
   */
  lemma SolvesIff(cs: seq<Constraint>)
    requires Disequalities(cs, |cs|) < 64
    ensures Satisfies(Solve(cs), cs) <==> Reachable(cs)
  {
    hide Upward, LiteralMet, Below, AllTrue, Solve, Satisfies;
    SolveHasAll(cs);
    TrueIsSatisfied(cs, Solve(cs));
    if Satisfies(Solve(cs), cs) {
      TrueIsMet(cs, Solve(cs));
      SolveIsUpward(cs);
      forall goal | Upward(cs, goal)
        ensures Below(Solve(cs), goal)
      {
        SolveReaches(cs, goal);
      }
      assert IsFirst(cs, Solve(cs));
    }
    if Reachable(cs) {
      var p :| IsFirst(cs, p) && AllTrue(cs, p);
      SolveReaches(cs, p);
      SolveIsUpward(cs);
      SameValuesSameTruth(cs, p, Solve(cs));
    }
  }

  /** Among literal constraints it succeeds exactly when there is an upward assignment at all. */
  lemma LiteralSolvesIff(cs: seq<Constraint>)
    requires LiteralOnly(cs) && Disequalities(cs, |cs|) < 64
    ensures Satisfies(Solve(cs), cs) <==> exists goal :: Upward(cs, goal)
  {
    hide Upward, Solve, Satisfies;
    SolvesIff(cs);
    SolveHasAll(cs);
    TrueIsSatisfied(cs, Solve(cs));
    if goal :| Upward(cs, goal) {
      SolveReaches(cs, goal);
      LiteralIsTrue(cs, Solve(cs));
    }
  }

  lemma LiteralIsTrue(cs: seq<Constraint>, env: Env)
    requires LiteralOnly(cs) && LiteralMet(cs, env)
    ensures AllTrue(cs, env)
  {
    forall k | 0 <= k < |cs|
      ensures TrueAt(cs[k], env)
    {
      assert MetBy(cs[k], env);
    }
  }

  // ----- Without disequalities -----

  /** The literal constraints are met, by values that lie between zero and those of every other way. */
  ghost predicate IsNearest(cs: seq<Constraint>, p: Env) {
    LiteralMet(cs, p) && forall goal, v :: LiteralMet(cs, goal) ==> Between(ValueOf(p, v), 0, ValueOf(goal, v))
  }

  lemma {:induction false} NoDisequality(cs: seq<Constraint>, n: nat, k: nat)
    requires k < n <= |cs| && Disequalities(cs, n) == 0
    ensures !IsDisequality(cs[k])
  {
    if k < n - 1 { NoDisequality(cs, n - 1, k); }
  }

  lemma AllArePlain(cs: seq<Constraint>, env: Env)
    requires Disequalities(cs, |cs|) == 0
    ensures LiteralMet(cs, env) <==> PlainMet(cs, env)
  {
    forall k | 0 <= k < |cs|
      ensures cs[k].rhsInt.Some? <==> IsPlain(cs[k])
    {
      NoDisequality(cs, |cs|, k);
    }
  }

  /** Moving one value between two solutions leaves a solution. */
  lemma MoveBetween(cs: seq<Constraint>, a: Env, b: Env, v: Var, x: i64)
    requires PlainMet(cs, a) && PlainMet(cs, b) && Between(x, ValueOf(a, v), ValueOf(b, v))
    ensures PlainMet(cs, a[v := x])
  {
    forall k | 0 <= k < |cs| && IsPlain(cs[k])
      ensures MetBy(cs[k], a[v := x])
    {
      assert MetBy(cs[k], a) && MetBy(cs[k], b);
      if cs[k].lhs == v { HoldsBetween(cs[k], x, ValueOf(a, v), ValueOf(b, v)); }
    }
  }

  lemma FirstIsNearest(cs: seq<Constraint>, p: Env)
    requires Disequalities(cs, |cs|) == 0 && IsFirst(cs, p)
    ensures IsNearest(cs, p)
  {
    hide PlainMet, LiteralMet;
    AllArePlain(cs, p);
    forall goal, v | LiteralMet(cs, goal)
      ensures Between(ValueOf(p, v), 0, ValueOf(goal, v))
    {
      AllArePlain(cs, goal);
      if 0 <= ValueOf(p, v) && ValueOf(goal, v) < ValueOf(p, v) {
        var lower: Env := p[v := Max(ValueOf(goal, v), 0)];
        MoveBetween(cs, p, goal, v, Max(ValueOf(goal, v), 0));
        AllArePlain(cs, lower);
        StaysUpward(cs, p, lower, v);
        assert ValueOf(p, v) <= ValueOf(lower, v);
      }
    }
  }

  lemma StaysUpward(cs: seq<Constraint>, p: Env, q: Env, v: Var)
    requires Upward(cs, p) && LiteralMet(cs, q) && ValueOf(q, v) >= 0
    requires forall u :: u != v ==> ValueOf(q, u) == ValueOf(p, u)
    ensures Upward(cs, q)
  {
    hide LiteralMet, PlainMet;
    forall u
      ensures ValueOf(q, u) >= 0 || IsGreatest(cs, q, u)
    {
      assert ValueOf(p, u) >= 0 || IsGreatest(cs, p, u);
    }
  }

  lemma NearestIsFirst(cs: seq<Constraint>, p: Env)
    requires Disequalities(cs, |cs|) == 0 && IsNearest(cs, p)
    ensures IsFirst(cs, p)
  {
    hide PlainMet, LiteralMet;
    forall v
      ensures ValueOf(p, v) >= 0 || IsGreatest(cs, p, v)
    {
      forall goal | ValueOf(p, v) < 0 && PlainMet(cs, goal)
        ensures ValueOf(goal, v) <= ValueOf(p, v)
      {
        AllArePlain(cs, goal);
        assert Between(ValueOf(p, v), 0, ValueOf(goal, v));
      }
    }
    AllArePlain(cs, p);
    forall goal, v | Upward(cs, goal)
      ensures ValueOf(p, v) <= ValueOf(goal, v)
    {
      assert Between(ValueOf(p, v), 0, ValueOf(goal, v));
      assert ValueOf(goal, v) >= 0 || IsGreatest(cs, goal, v);
    }
  }

  /**
   Without disequalities the solver succeeds exactly when the literal constraints have a solution and the
   one nearest to zero meets the constraints between variables.
   */
  lemma PlainSolvesIff(cs: seq<Constraint>)
    requires Disequalities(cs, |cs|) == 0
    ensures Satisfies(Solve(cs), cs) <==> exists p :: IsNearest(cs, p) && AllTrue(cs, p)
  {
    hide IsNearest, IsFirst, AllTrue, Solve, Satisfies;
    SolvesIff(cs);
    if Reachable(cs) {
      var p :| IsFirst(cs, p) && AllTrue(cs, p);
      FirstIsNearest(cs, p);
    }
    if p :| IsNearest(cs, p) && AllTrue(cs, p) { NearestIsFirst(cs, p); }
  }

  // ----- As many disequalities as rounds -----

  const X: Var := Var("x")

  /** `x` differs from `d`, and from all down to 1, and is at least 1. */
  function Ladder(d: nat): (cs: seq<Constraint>)
    requires d <= MAX
    ensures |cs| == d + 1 && cs[d] == Constraint(Ge, X, Some(1), None)
    ensures forall k :: 0 <= k < d ==> cs[k] == Constraint(Ne, X, Some(d - k), None)
  {
    if d == 0 then [Constraint(Ge, X, Some(1), None)] else [Constraint(Ne, X, Some(d), None)] + Ladder(d - 1)
  }

  /** A round takes `x` one step up the ladder. */
  lemma {:induction false} LadderRound(d: nat, a: nat, n: nat)
    requires 1 <= a <= d < MAX && n <= d + 1
    ensures Round(Ladder(d), map[X := a], n) == map[X := if n <= d - a then a else a + 1]
  {
    if n > 0 { LadderRound(d, a, n - 1); }
  }

  lemma {:induction false} LadderFirstRound(d: nat, n: nat)
    requires d < MAX && n <= d + 1
    ensures Round(Ladder(d), map[X := 0], n) == map[X := if n <= d then 0 else 1]
  {
    if n > 0 { LadderFirstRound(d, n - 1); }
  }

  lemma {:induction false} LadderRounds(d: nat, a: nat, fuel: nat)
    requires 1 <= a && a + fuel <= d + 1 && d < MAX
    ensures Rounds(Ladder(d), map[X := a], fuel) == map[X := a + fuel]
    decreases fuel
  {
    if fuel > 0 {
      var cs, env: Env := Ladder(d), map[X := a];
      LadderRound(d, a, d + 1);
      assert map[X := a][X] != map[X := a + 1][X];
      if !RoundChanges(cs, env, |cs|) { StillRound(cs, env, |cs|); }
      LadderRounds(d, a + 1, fuel - 1);
    }
  }

  lemma {:induction false} LadderVariables(d: nat, n: nat)
    requires d <= MAX && n <= d + 1
    ensures Variables(Ladder(d), n) == if n == 0 then {} else {X}
  {
    if n > 0 { LadderVariables(d, n - 1); }
  }

  /** With one disequality for each round, listed from the top, the rounds run out one step short of a solution. */
  lemma RoundsRunOut()
    ensures var cs := Ladder(64);
            TriviallySatisfiable(cs) && Satisfies(map[X := 64 + 1], cs) && !Satisfies(Solve(cs), cs)
  {
    var d := ROUNDS;
    var cs, env: Env := Ladder(d), map[X := 0];
    LadderVariables(d, d + 1);
    assert Start(cs) == env;
    LadderFirstRound(d, d + 1);
    assert map[X := 0][X] != map[X := 1][X];
    if !RoundChanges(cs, env, |cs|) { StillRound(cs, env, |cs|); }
    LadderRounds(d, 1, d - 1);
    assert Rounds(cs, env, d) == Rounds(cs, map[X := 1], d - 1);
    assert Solve(cs) == map[X := d];
    assert Evaluate(cs[0], map[X := d]) == Some(false);
    LadderBounds(d, d + 1);
  }

  lemma {:induction false} LadderBounds(d: nat, n: nat)
    requires d <= MAX && n <= d + 1
    ensures BoundsOf(Ladder(d), n).upper == map[]
  {
    if n > 0 { LadderBounds(d, n - 1); }
  }
}
