/** The push solver: a bounded number of rounds, each of which pushes values until each constraint is met. */
module PushSolver {
  import opened Prelude
  import opened Constraints

  // ----- The push solver -----

  function SaturatingAdd(a: i64, b: i64): i64 {
    if a + b > MAX then MAX else if a + b < MIN then MIN else a + b
  }

  /** A value that is meant to satisfy `lhs kind rhs`, starting from `current`. */
  function SatisfyValue(kind: Kind, current: i64, rhs: i64): i64 {
    match kind
    case Eq => rhs
    case Ne => if current == rhs then WrappingAdd(rhs, 1) else current
    case Lt => if current < rhs then current else SaturatingAdd(rhs, -1)
    case Le => if current <= rhs then current else rhs
    case Gt => if current > rhs then current else SaturatingAdd(rhs, 1)
    case Ge => if current >= rhs then current else rhs
  }

  /** The pushed value satisfies the constraint exactly when some value can. */
  lemma PushSatisfiesIff(kind: Kind, current: i64, rhs: i64)
    ensures Holds(kind, SatisfyValue(kind, current, rhs), rhs) <==> !Impossible(kind, rhs)
    ensures Impossible(kind, rhs) ==> forall x: i64 :: !Holds(kind, x, rhs)
  {
  }

  /** "Nothing to push" means "satisfied", except for an impossible constraint at the end of the range. */
  lemma StandsStillIff(kind: Kind, current: i64, rhs: i64)
    ensures SatisfyValue(kind, current, rhs) == current <==>
            Holds(kind, current, rhs) || (Impossible(kind, rhs) && current == rhs)
  {
  }

  function ValueOf(env: Env, v: Var): i64 {
    if v in env then env[v] else 0
  }

  function Needed(env: Env, c: Constraint): i64 {
    if c.rhsInt.None? then ValueOf(env, c.lhs) else SatisfyValue(c.kind, ValueOf(env, c.lhs), c.rhsInt.value)
  }

  predicate Changes(env: Env, c: Constraint) {
    Needed(env, c) != ValueOf(env, c.lhs)
  }

  function Push(env: Env, c: Constraint): Env {
    if Changes(env, c) then env[c.lhs := Needed(env, c)] else env
  }

  /** One round of pushes over the first `n` constraints. */
  function Round(cs: seq<Constraint>, env: Env, n: nat): Env
    requires n <= |cs|
  {
    if n == 0 then env else Push(Round(cs, env, n - 1), cs[n - 1])
  }

  /** Some push of the round changes a value. */
  predicate RoundChanges(cs: seq<Constraint>, env: Env, n: nat)
    requires n <= |cs|
  {
    n > 0 && (RoundChanges(cs, env, n - 1) || Changes(Round(cs, env, n - 1), cs[n - 1]))
  }

  /** At most `fuel` rounds, the last of which may be the one that changes nothing. */
  function Rounds(cs: seq<Constraint>, env: Env, fuel: nat): Env
    decreases fuel
  {
    if fuel == 0 || !RoundChanges(cs, env, |cs|) then env else Rounds(cs, Round(cs, env, |cs|), fuel - 1)
  }

  function VarsOf(c: Constraint): set<Var> {
    {c.lhs} + if c.rhsSym.Some? then {c.rhsSym.value} else {}
  }

  function Variables(cs: seq<Constraint>, n: nat): (vars: set<Var>)
    requires n <= |cs|
    ensures forall k :: 0 <= k < n ==> VarsOf(cs[k]) <= vars
  {
    if n == 0 then {} else Variables(cs, n - 1) + VarsOf(cs[n - 1])
  }

  function Zeros(vars: set<Var>): (env: Env)
    ensures env.Keys == vars && forall v :: v in vars ==> env[v] == 0
  {
    map v | v in vars :: 0
  }

  /** The initial guess. */
  function Start(cs: seq<Constraint>): (env: Env)
    ensures forall k :: 0 <= k < |cs| ==> cs[k].lhs in env
    ensures forall v :: ValueOf(env, v) == 0
  {
    assert forall k :: 0 <= k < |cs| ==> cs[k].lhs in VarsOf(cs[k]);
    Zeros(Variables(cs, |cs|))
  }

  const ROUNDS: nat := 64

  function Solve(cs: seq<Constraint>): Env {
    Rounds(cs, Start(cs), ROUNDS)
  }

  method SolveAssignments(cs: seq<Constraint>) returns (assignments: Env)
    ensures assignments == Solve(cs)
  {
    assignments := Start(cs);
    var round, settled := 0, false;
    while round < ROUNDS && !settled
      invariant 0 <= round <= ROUNDS
      invariant !settled ==> Rounds(cs, assignments, ROUNDS - round) == Solve(cs)
      invariant settled ==> assignments == Solve(cs)
      decreases ROUNDS - round, !settled
    {
      ghost var before := assignments;
      var changed := false;
      for n := 0 to |cs|
        invariant assignments == Round(cs, before, n) && changed == RoundChanges(cs, before, n)
      {
        var c := cs[n];
        if c.rhsInt.None? { continue; }
        var current := ValueOf(assignments, c.lhs);
        var needed := SatisfyValue(c.kind, current, c.rhsInt.value);
        if needed != current {
          assignments := assignments[c.lhs := needed];
          changed := true;
        }
      }
      if !changed {
        StillRound(cs, before, |cs|);
        settled := true;
      }
      round := round + 1;
    }
  }

  lemma {:induction false} StillRound(cs: seq<Constraint>, env: Env, n: nat)
    requires n <= |cs| && !RoundChanges(cs, env, n)
    ensures Round(cs, env, n) == env
    ensures forall k :: 0 <= k < n ==> !Changes(env, cs[k])
  {
    if n > 0 { StillRound(cs, env, n - 1); }
  }

  /** When the solver stops because nothing changes, every literal constraint that has a solution is satisfied. */
  lemma QuietExitSatisfies(cs: seq<Constraint>, env: Env, k: nat)
    requires !RoundChanges(cs, env, |cs|) && k < |cs| && cs[k].rhsInt.Some? && cs[k].lhs in env
    requires !Impossible(cs[k].kind, cs[k].rhsInt.value)
    ensures Evaluate(cs[k], env) == Some(true)
  {
    StillRound(cs, env, |cs|);
    StandsStillIff(cs[k].kind, env[cs[k].lhs], cs[k].rhsInt.value);
  }

  /** An impossible constraint can be left unsatisfied by a quiet exit. */
  lemma QuietExitCanFail()
    ensures var x := Var("x");
            var cs, env := [Constraint(Lt, x, Some(MIN), None)], map[x := MIN];
            !RoundChanges(cs, env, 1) && Evaluate(cs[0], env) == Some(false)
  {
    var x := Var("x");
    var cs, env: Env := [Constraint(Lt, x, Some(MIN), None)], map[x := MIN];
    assert Round(cs, env, 0) == env && !RoundChanges(cs, env, 0);
    StandsStillIff(Lt, MIN, MIN);
  }

  // ----- What the solver solves -----

  /** A literal constraint other than a disequality. */
  predicate IsPlain(c: Constraint) {
    c.rhsInt.Some? && !c.kind.Ne?
  }

  ghost predicate PlainOnly(cs: seq<Constraint>) {
    forall k :: 0 <= k < |cs| ==> IsPlain(cs[k])
  }

  ghost predicate NoneImpossible(cs: seq<Constraint>) {
    forall k :: 0 <= k < |cs| ==> cs[k].rhsInt.Some? ==> !Impossible(cs[k].kind, cs[k].rhsInt.value)
  }

  ghost predicate LiteralOnly(cs: seq<Constraint>) {
    forall k :: 0 <= k < |cs| ==> cs[k].rhsInt.Some?
  }

  predicate Between(x: int, a: int, b: int) {
    a <= x <= b || b <= x <= a
  }

  /** A push meets its constraint without passing any value that does. */
  lemma PushMovesToward(c: Constraint, current: i64, goal: i64)
    requires IsPlain(c) && Holds(c.kind, goal, c.rhsInt.value)
    ensures var needed := SatisfyValue(c.kind, current, c.rhsInt.value);
            Holds(c.kind, needed, c.rhsInt.value) && Between(needed, current, goal)
  {
  }

  /** What holds at both ends holds between them. */
  lemma HoldsBetween(c: Constraint, x: int, a: int, b: int)
    requires IsPlain(c) && Holds(c.kind, a, c.rhsInt.value) && Holds(c.kind, b, c.rhsInt.value) && Between(x, a, b)
    ensures Holds(c.kind, x, c.rhsInt.value)
  {
  }

  /**
   After the first `n` pushes of a round these constraints are met, and every value lies between where it
   started and where any solution has it.
   */
  lemma {:induction false} RoundMeets(cs: seq<Constraint>, env: Env, n: nat, goal: Env)
    requires n <= |cs| && PlainOnly(cs) && Satisfies(goal, cs)
    ensures forall k :: 0 <= k < n ==> MetBy(cs[k], Round(cs, env, n))
    ensures forall v :: v in goal ==> Between(ValueOf(Round(cs, env, n), v), ValueOf(env, v), goal[v])
  {
    if n > 0 {
      hide SatisfyValue, Holds;
      var c, before := cs[n - 1], Round(cs, env, n - 1);
      RoundMeets(cs, env, n - 1, goal);
      assert IsPlain(c) && Evaluate(c, goal) == Some(true);
      PushMovesToward(c, ValueOf(before, c.lhs), goal[c.lhs]);
      forall k | 0 <= k < n - 1
        ensures MetBy(cs[k], Round(cs, env, n))
      {
        assert MetBy(cs[k], before) && IsPlain(cs[k]) && Evaluate(cs[k], goal) == Some(true);
        if cs[k].lhs == c.lhs { HoldsBetween(cs[k], Needed(before, c), ValueOf(before, c.lhs), goal[c.lhs]); }
      }
    }
  }

  predicate MetBy(c: Constraint, env: Env) {
    c.rhsInt.Some? && Holds(c.kind, ValueOf(env, c.lhs), c.rhsInt.value)
  }

  lemma {:induction false} RoundKeepsKeys(cs: seq<Constraint>, env: Env, n: nat)
    requires n <= |cs| && forall k :: 0 <= k < |cs| ==> cs[k].lhs in env
    ensures Round(cs, env, n).Keys == env.Keys
  {
    if n > 0 { RoundKeepsKeys(cs, env, n - 1); }
  }

  /** A satisfying assignment is a fixpoint, whatever the kinds. */
  lemma {:induction false} SatisfiedIsStill(cs: seq<Constraint>, env: Env, n: nat)
    requires n <= |cs| && LiteralOnly(cs) && Satisfies(env, cs)
    ensures !RoundChanges(cs, env, n) && Round(cs, env, n) == env
  {
    if n > 0 {
      SatisfiedIsStill(cs, env, n - 1);
      assert Evaluate(cs[n - 1], env) == Some(true);
      StandsStillIff(cs[n - 1].kind, env[cs[n - 1].lhs], cs[n - 1].rhsInt.value);
    }
  }

  /** One round suffices for every satisfiable set, and the second finds nothing to change. */
  lemma SettlesInTwoRounds(cs: seq<Constraint>)
    requires PlainOnly(cs) && Satisfiable(cs)
    ensures var out := Round(cs, Start(cs), |cs|);
            Satisfies(out, cs) && !RoundChanges(cs, out, |cs|) && Solve(cs) == out
  {
    var goal :| Satisfies(goal, cs);
    var out := Round(cs, Start(cs), |cs|);
    RoundKeepsKeys(cs, Start(cs), |cs|);
    RoundMeets(cs, Start(cs), |cs|, goal);
    forall k | 0 <= k < |cs|
      ensures Evaluate(cs[k], out) == Some(true)
    {
      assert IsPlain(cs[k]) && MetBy(cs[k], out);
    }
    forall k | 0 <= k < |cs|
      ensures cs[k].rhsInt.Some?
    {
      assert IsPlain(cs[k]);
    }
    SatisfiedIsStill(cs, out, |cs|);
    if RoundChanges(cs, Start(cs), |cs|) {
      assert Rounds(cs, out, ROUNDS - 1) == out;
    } else {
      StillRound(cs, Start(cs), |cs|);
    }
  }

  /** On literal constraints other than disequalities the solver finds an assignment exactly when there is one. */
  lemma SolveIsComplete(cs: seq<Constraint>)
    requires PlainOnly(cs)
    ensures Satisfies(Solve(cs), cs) <==> Satisfiable(cs)
  {
    if Satisfiable(cs) { SettlesInTwoRounds(cs); }
  }

  /** Of all solutions it finds the one nearest to zero, for every variable at once. */
  lemma SolveIsNearest(cs: seq<Constraint>, goal: Env, v: Var)
    requires PlainOnly(cs) && Satisfies(goal, cs) && v in goal
    ensures Between(ValueOf(Solve(cs), v), 0, goal[v])
  {
    SettlesInTwoRounds(cs);
    RoundMeets(cs, Start(cs), |cs|, goal);
  }

  /** On any literal constraints it succeeds exactly when it settles and none of them is impossible. */
  lemma SolvedIffSettled(cs: seq<Constraint>)
    requires LiteralOnly(cs)
    ensures Satisfies(Solve(cs), cs) <==>
              !RoundChanges(cs, Solve(cs), |cs|) && NoneImpossible(cs)
  {
    var env := Solve(cs);
    SolveKeepsKeys(cs, Start(cs), ROUNDS);
    if Satisfies(env, cs) {
      SatisfiedIsStill(cs, env, |cs|);
      forall k | 0 <= k < |cs|
        ensures !Impossible(cs[k].kind, cs[k].rhsInt.value)
      {
        assert Evaluate(cs[k], env) == Some(true);
        PushSatisfiesIff(cs[k].kind, env[cs[k].lhs], cs[k].rhsInt.value);
      }
    }
    if !RoundChanges(cs, env, |cs|) && NoneImpossible(cs) {
      forall k | 0 <= k < |cs|
        ensures Evaluate(cs[k], env) == Some(true)
      {
        QuietExitSatisfies(cs, env, k);
      }
    }
  }

  lemma {:induction false} SolveKeepsKeys(cs: seq<Constraint>, env: Env, fuel: nat)
    requires forall k :: 0 <= k < |cs| ==> cs[k].lhs in env
    ensures Rounds(cs, env, fuel).Keys == env.Keys
    decreases fuel
  {
    if fuel > 0 && RoundChanges(cs, env, |cs|) {
      RoundKeepsKeys(cs, env, |cs|);
      SolveKeepsKeys(cs, Round(cs, env, |cs|), fuel - 1);
    }
  }

  // ----- What the solver misses -----

  lemma {:induction false} RoundInCircles(cs: seq<Constraint>, env: Env, fuel: nat)
    requires Round(cs, env, |cs|) == env
    ensures Rounds(cs, env, fuel) == env
    decreases fuel
  {
    if fuel > 0 && RoundChanges(cs, env, |cs|) { RoundInCircles(cs, env, fuel - 1); }
  }

  /**
   A disequality and a comparison can push a value to and fro until the rounds are used up, and a
   constraint between two variables is never pushed at all: both sets are accepted and have solutions.
   */
  lemma SolverCanMiss()
    ensures var x, y := Var("x"), Var("y");
            var circling := [Constraint(Ne, x, Some(0), None), Constraint(Le, x, Some(0), None)];
            var symbolic := [Constraint(Gt, x, None, Some(y))];
            && TriviallySatisfiable(circling) && Satisfies(map[x := -1], circling)
            && !Satisfies(Solve(circling), circling)
            && TriviallySatisfiable(symbolic) && Satisfies(map[x := 1, y := 0], symbolic)
            && !Satisfies(Solve(symbolic), symbolic)
  {
    CirclingIsMissed();
    SymbolicIsMissed();
  }

  lemma CirclingIsMissed()
    ensures var x := Var("x");
            var cs := [Constraint(Ne, x, Some(0), None), Constraint(Le, x, Some(0), None)];
            TriviallySatisfiable(cs) && Satisfies(map[x := -1], cs) && !Satisfies(Solve(cs), cs)
  {
    var x := Var("x");
    var c, d := Constraint(Ne, x, Some(0), None), Constraint(Le, x, Some(0), None);
    var cs := [c, d];
    TwoConstraints(c, d, map[x := -1]);
    TwoConstraints(c, d, map[x := 0]);
    var env: Env := map[x := 0];
    TwoVariables(c, d);
    assert Start(cs) == env;
    assert Round(cs, env, 0) == env && Push(env, c) == map[x := 1] && Push(map[x := 1], d) == env;
    assert Round(cs, env, 1) == map[x := 1] && Round(cs, env, 2) == env;
    RoundInCircles(cs, env, ROUNDS);
  }

  lemma SymbolicIsMissed()
    ensures var x, y := Var("x"), Var("y");
            var cs := [Constraint(Gt, x, None, Some(y))];
            TriviallySatisfiable(cs) && Satisfies(map[x := 1, y := 0], cs) && !Satisfies(Solve(cs), cs)
  {
    var x, y := Var("x"), Var("y");
    var c := Constraint(Gt, x, None, Some(y));
    var env: Env := map[x := 0, y := 0];
    assert x.name != y.name;
    TwoConstraints(c, c, map[x := 1, y := 0]);
    TwoConstraints(c, c, env);
    TwoVariables(c, c);
    assert Start([c]) == env;
    assert Round([c], env, 0) == env && Round([c], env, 1) == env;
    RoundInCircles([c], env, ROUNDS);
  }

  lemma TwoVariables(c: Constraint, d: Constraint)
    ensures Variables([c], 1) == VarsOf(c) && Variables([c, d], 2) == VarsOf(c) + VarsOf(d)
  {
    assert Variables([c], 0) == {} == Variables([c, d], 0);
    assert Variables([c, d], 1) == VarsOf(c);
  }

  // ----- Where the check is exact -----

  /** On comparisons that some value meets the check accepts exactly the satisfiable sets. */
  lemma CheckIsExact(cs: seq<Constraint>)
    requires OrderOnly(cs)
    ensures TriviallySatisfiable(cs) <==> Satisfiable(cs)
  {
    if TriviallySatisfiable(cs) {
      var b := BoundsOf(cs, |cs|);
      var env := map v | v in Variables(cs, |cs|) :: LowerOf(b, v);
      forall k | 0 <= k < |cs|
        ensures Evaluate(cs[k], env) == Some(true)
      {
        var v := cs[k].lhs;
        assert IsOrder(cs[k]) && v in VarsOf(cs[k]);
        ConsistentLeavesRoom(cs, v);
        WithinMeets(cs, |cs|, k, env[v]);
      }
      assert Satisfies(env, cs);
    } else {
      forall env
        ensures !Satisfies(env, cs)
      {
        RefusalIsSound(cs, env);
      }
    }
  }
}
