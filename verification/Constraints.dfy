/** Symbolic constraints over 64-bit integers along an execution path. */
module Constraints {
  import opened Prelude

  const MIN: int := -0x8000_0000_0000_0000
  const MAX: int := 0x7FFF_FFFF_FFFF_FFFF

  type i64 = x: int | -0x8000_0000_0000_0000 <= x <= 0x7FFF_FFFF_FFFF_FFFF

  /** Addition as release builds perform it. */
  function WrappingAdd(a: i64, b: i64): i64 {
    var sum := a + b;
    if sum > MAX then sum - (MAX - MIN + 1) else if sum < MIN then sum + (MAX - MIN + 1) else sum
  }

  datatype Var = Var(name: string)

  type Env = map<Var, i64>

  datatype Kind = Eq | Ne | Lt | Le | Gt | Ge

  function NegateKind(k: Kind): Kind {
    match k
    case Eq => Ne
    case Ne => Eq
    case Lt => Ge
    case Le => Gt
    case Gt => Le
    case Ge => Lt
  }

  predicate Holds(k: Kind, a: int, b: int) {
    match k
    case Eq => a == b
    case Ne => a != b
    case Lt => a < b
    case Le => a <= b
    case Gt => a > b
    case Ge => a >= b
  }

  datatype Constraint = Constraint(kind: Kind, lhs: Var, rhsInt: Option<i64>, rhsSym: Option<Var>)

  function Negate(c: Constraint): Constraint {
    c.(kind := NegateKind(c.kind))
  }

  /** The truth of a constraint, if all its variables have values. */
  function Evaluate(c: Constraint, env: Env): Option<bool> {
    if c.lhs !in env then None
    else if c.rhsInt.Some? then Some(Holds(c.kind, env[c.lhs], c.rhsInt.value))
    else if c.rhsSym.Some? then
      if c.rhsSym.value in env then Some(Holds(c.kind, env[c.lhs], env[c.rhsSym.value])) else None
    else None
  }

  lemma NegateFlips(c: Constraint, env: Env)
    ensures Evaluate(Negate(c), env) == if Evaluate(c, env).Some? then Some(!Evaluate(c, env).value) else None
    ensures Negate(Negate(c)) == c
  {
  }

  /** The number on the right of the comparison: its literal or else, if that has a value, its variable. */
  ghost predicate StandsRight(c: Constraint, env: Env, y: int) {
    c.rhsInt == Some(y) || (c.rhsInt.None? && c.rhsSym.Some? && c.rhsSym.value in env && env[c.rhsSym.value] == y)
  }

  /** A constraint is true exactly if both sides have values and compare as its kind says, and false if they do not. */
  lemma TruthIff(c: Constraint, env: Env, answer: bool)
    ensures Evaluate(c, env) == Some(answer) <==>
            c.lhs in env
            && exists y ::
                 && StandsRight(c, env, y)
                 && (answer <==>
                       || (c.kind.Eq? && env[c.lhs] == y) || (c.kind.Ne? && env[c.lhs] != y)
                       || ((c.kind.Lt? || c.kind.Le?) && env[c.lhs] < y) || (c.kind.Le? && env[c.lhs] == y)
                       || ((c.kind.Gt? || c.kind.Ge?) && env[c.lhs] > y) || (c.kind.Ge? && env[c.lhs] == y))
  {
    if c.rhsInt.Some? {
      assert StandsRight(c, env, c.rhsInt.value);
    } else if c.rhsSym.Some? && c.rhsSym.value in env {
      assert StandsRight(c, env, env[c.rhsSym.value]);
    }
  }

  ghost predicate Satisfies(env: Env, cs: seq<Constraint>) {
    forall k :: 0 <= k < |cs| ==> Evaluate(cs[k], env) == Some(true)
  }

  ghost predicate Satisfiable(cs: seq<Constraint>) {
    exists env :: Satisfies(env, cs)
  }

  // ----- The satisfiability check -----

  datatype Bounds = Bounds(lower: Env, upper: Env)

  function Max(a: i64, b: i64): i64 { if a > b then a else b }

  function Min(a: i64, b: i64): i64 { if a < b then a else b }

  function LowerOf(b: Bounds, v: Var): i64 {
    if v in b.lower then b.lower[v] else MIN
  }

  function UpperOf(b: Bounds, v: Var): i64 {
    if v in b.upper then b.upper[v] else MAX
  }

  /** What one constraint does to the bounds. An equality replaces whatever was known. */
  function Narrow(b: Bounds, c: Constraint): Bounds {
    if c.rhsInt.None? then b
    else
      var rhs := c.rhsInt.value;
      match c.kind
      case Gt => b.(lower := b.lower[c.lhs := Max(LowerOf(b, c.lhs), WrappingAdd(rhs, 1))])
      case Ge => b.(lower := b.lower[c.lhs := Max(LowerOf(b, c.lhs), rhs)])
      case Lt => b.(upper := b.upper[c.lhs := Min(UpperOf(b, c.lhs), WrappingAdd(rhs, -1))])
      case Le => b.(upper := b.upper[c.lhs := Min(UpperOf(b, c.lhs), rhs)])
      case Eq => Bounds(b.lower[c.lhs := rhs], b.upper[c.lhs := rhs])
      case Ne => b
  }

  function BoundsOf(cs: seq<Constraint>, n: nat): Bounds
    requires n <= |cs|
  {
    if n == 0 then Bounds(map[], map[]) else Narrow(BoundsOf(cs, n - 1), cs[n - 1])
  }

  predicate Consistent(b: Bounds) {
    forall v :: v in b.lower && v in b.upper ==> b.lower[v] <= b.upper[v]
  }

  function TriviallySatisfiable(cs: seq<Constraint>): bool {
    Consistent(BoundsOf(cs, |cs|))
  }

  /** The check as the loop over constraints and the loop over lower bounds. */
  method IsTriviallySatisfiable(cs: seq<Constraint>) returns (ok: bool)
    ensures ok == TriviallySatisfiable(cs)
  {
    var lower: Env, upper: Env := map[], map[];
    for n := 0 to |cs|
      invariant Bounds(lower, upper) == BoundsOf(cs, n)
    {
      var c := cs[n];
      if c.rhsInt.None? { continue; }
      var rhs := c.rhsInt.value;
      ghost var b := Bounds(lower, upper);
      if c.kind.Gt? || c.kind.Ge? {
        var lb := if c.kind.Gt? then WrappingAdd(rhs, 1) else rhs;
        lower := lower[c.lhs := Max(if c.lhs in lower then lower[c.lhs] else MIN, lb)];
      } else if c.kind.Lt? || c.kind.Le? {
        var ub := if c.kind.Lt? then WrappingAdd(rhs, -1) else rhs;
        upper := upper[c.lhs := Min(if c.lhs in upper then upper[c.lhs] else MAX, ub)];
      } else if c.kind.Eq? {
        lower, upper := lower[c.lhs := rhs], upper[c.lhs := rhs];
      }
      assert Bounds(lower, upper) == Narrow(b, c);
    }
    var left := lower.Keys;
    while |left| > 0
      invariant left <= lower.Keys
      invariant forall v :: v in lower && v !in left && v in upper ==> lower[v] <= upper[v]
      decreases |left|
    {
      var v :| v in left;
      left := left - {v};
      if v in upper && lower[v] > upper[v] { return false; }
    }
    ok := true;
  }

  /** Every bound the check collects follows from the constraints read so far. */
  lemma {:induction false} BoundsAreImplied(cs: seq<Constraint>, n: nat, env: Env, v: Var)
    requires n <= |cs| && Satisfies(env, cs)
    ensures var b := BoundsOf(cs, n);
            && (v in b.lower ==> v in env && b.lower[v] <= env[v])
            && (v in b.upper ==> v in env && env[v] <= b.upper[v])
  {
    if n > 0 {
      BoundsAreImplied(cs, n - 1, env, v);
      assert Evaluate(cs[n - 1], env) == Some(true);
    }
  }

  /** If the check says no, no assignment satisfies the constraints: for all kinds and all literals. */
  lemma RefusalIsSound(cs: seq<Constraint>, env: Env)
    requires !TriviallySatisfiable(cs)
    ensures !Satisfies(env, cs)
  {
    var b := BoundsOf(cs, |cs|);
    var v :| v in b.lower && v in b.upper && b.lower[v] > b.upper[v];
    if Satisfies(env, cs) { BoundsAreImplied(cs, |cs|, env, v); }
  }

  /** No value is below the least or above the greatest integer. */
  predicate Impossible(kind: Kind, rhs: i64) {
    (kind.Lt? && rhs == MIN) || (kind.Gt? && rhs == MAX)
  }

  /**
   The converse fails for every other kind of literal constraint: a later equality overwrites an
   earlier one, a disequality is not looked at, and at the ends of the range the bound wraps around.
   */
  lemma AcceptanceCanBeWrong(env: Env)
    ensures var x := Var("x");
            var twoValues := [Constraint(Eq, x, Some(1), None), Constraint(Eq, x, Some(2), None)];
            var noValue := [Constraint(Eq, x, Some(1), None), Constraint(Ne, x, Some(1), None)];
            var above, below := [Constraint(Gt, x, Some(MAX), None)], [Constraint(Lt, x, Some(MIN), None)];
            && TriviallySatisfiable(twoValues) && !Satisfies(env, twoValues)
            && TriviallySatisfiable(noValue) && !Satisfies(env, noValue)
            && TriviallySatisfiable(above) && !Satisfies(env, above)
            && TriviallySatisfiable(below) && !Satisfies(env, below)
  {
    var x := Var("x");
    TwoConstraints(Constraint(Eq, x, Some(1), None), Constraint(Eq, x, Some(2), None), env);
    TwoConstraints(Constraint(Eq, x, Some(1), None), Constraint(Ne, x, Some(1), None), env);
    TwoConstraints(Constraint(Gt, x, Some(MAX), None), Constraint(Gt, x, Some(MAX), None), env);
    TwoConstraints(Constraint(Lt, x, Some(MIN), None), Constraint(Lt, x, Some(MIN), None), env);
  }

  lemma TwoConstraints(c: Constraint, d: Constraint, env: Env)
    ensures BoundsOf([c], 1) == Narrow(Bounds(map[], map[]), c)
    ensures BoundsOf([c, d], 2) == Narrow(Narrow(Bounds(map[], map[]), c), d)
    ensures Satisfies(env, [c]) <==> Evaluate(c, env) == Some(true)
    ensures Satisfies(env, [c, d]) <==> Evaluate(c, env) == Some(true) && Evaluate(d, env) == Some(true)
  {
    assert [c][0] == c && [c, d][0] == c && [c, d][1] == d;
    assert BoundsOf([c], 0) == Bounds(map[], map[]) == BoundsOf([c, d], 0);
    assert BoundsOf([c, d], 1) == Narrow(Bounds(map[], map[]), c);
  }

  // ----- Order constraints -----

  /** A comparison with a literal that some value meets. */
  predicate IsOrder(c: Constraint) {
    (c.kind.Lt? || c.kind.Le? || c.kind.Gt? || c.kind.Ge?) && c.rhsInt.Some? && !Impossible(c.kind, c.rhsInt.value)
  }

  ghost predicate OrderOnly(cs: seq<Constraint>) {
    forall k :: 0 <= k < |cs| ==> IsOrder(cs[k])
  }

  predicate Within(x: int, b: Bounds, v: Var) {
    LowerOf(b, v) <= x <= UpperOf(b, v)
  }

  /** A value within the bounds meets each of the comparisons. */
  lemma {:induction false} WithinMeets(cs: seq<Constraint>, n: nat, k: nat, x: int)
    requires k < n <= |cs| && OrderOnly(cs) && Within(x, BoundsOf(cs, n), cs[k].lhs)
    ensures Holds(cs[k].kind, x, cs[k].rhsInt.value)
  {
    assert IsOrder(cs[k]) && IsOrder(cs[n - 1]);
    if k < n - 1 { WithinMeets(cs, n - 1, k, x); }
  }

  lemma ConsistentLeavesRoom(cs: seq<Constraint>, v: Var)
    requires TriviallySatisfiable(cs)
    ensures LowerOf(BoundsOf(cs, |cs|), v) <= UpperOf(BoundsOf(cs, |cs|), v)
  {
  }

  // ----- What the check accepts -----

  /** Constraint `j` is an equality of `v` with a literal. */
  predicate Fixes(cs: seq<Constraint>, j: nat, v: Var)
    requires j < |cs|
  {
    cs[j].kind.Eq? && cs[j].lhs == v && cs[j].rhsInt.Some?
  }

  /** Constraint `k` has a say in the check of `v`: a literal bound that no later equality overwrites. */
  predicate HasSay(cs: seq<Constraint>, n: nat, k: nat, v: Var)
    requires n <= |cs|
  {
    && k < n && cs[k].lhs == v && cs[k].rhsInt.Some? && !cs[k].kind.Ne?
    && !Impossible(cs[k].kind, cs[k].rhsInt.value)
    && forall j :: k < j < n ==> !Fixes(cs, j, v)
  }

  predicate MeetsSay(cs: seq<Constraint>, k: nat, x: int)
    requires k < |cs|
  {
    cs[k].rhsInt.Some? ==> Holds(cs[k].kind, x, cs[k].rhsInt.value)
  }

  /** `x` meets all the bounds on `v` among the first `n` constraints that count. */
  ghost predicate MeetsAll(cs: seq<Constraint>, n: nat, v: Var, x: int)
    requires n <= |cs|
  {
    forall k: nat :: HasSay(cs, n, k, v) ==> MeetsSay(cs, k, x)
  }

  lemma {:induction false} MeetsNext(cs: seq<Constraint>, n: nat, v: Var, x: int)
    requires n < |cs|
    ensures MeetsAll(cs, n + 1, v, x) <==>
            (Fixes(cs, n, v) || MeetsAll(cs, n, v, x)) && (HasSay(cs, n + 1, n, v) ==> MeetsSay(cs, n, x))
  {
    var m := n + 1;
    forall k: nat | k < n
      ensures HasSay(cs, m, k, v) <==> HasSay(cs, n, k, v) && !Fixes(cs, n, v)
    {
    }
  }

  /** The bounds collected for `v` are those of the constraints that count. */
  lemma {:induction false} WithinIff(cs: seq<Constraint>, n: nat, v: Var, x: i64)
    requires n <= |cs|
    ensures Within(x, BoundsOf(cs, n), v) <==> MeetsAll(cs, n, v, x)
  {
    if n == 0 {
      NothingSaid(cs, v, x);
    } else {
      hide MeetsAll, Within, Narrow, HasSay, Fixes, MeetsSay;
      WithinIff(cs, n - 1, v, x);
      MeetsNext(cs, n - 1, v, x);
      WithinNext(cs, n - 1, v, x, BoundsOf(cs, n - 1));
    }
  }

  lemma {:induction false} WithinNext(cs: seq<Constraint>, n: nat, v: Var, x: i64, b: Bounds)
    requires n < |cs|
    ensures Within(x, Narrow(b, cs[n]), v) <==>
            (Fixes(cs, n, v) || Within(x, b, v)) && (HasSay(cs, n + 1, n, v) ==> MeetsSay(cs, n, x))
  {
  }

  lemma {:induction false} NothingSaid(cs: seq<Constraint>, v: Var, x: i64)
    ensures MeetsAll(cs, 0, v, x)
  {
  }

  ghost predicate HasRoom(cs: seq<Constraint>, v: Var) {
    exists x: i64 :: MeetsAll(cs, |cs|, v, x)
  }

  /**
   The check accepts exactly the sets in which each variable has a value that meets its bounds from its last
   equality on. Disequalities, constraints between variables and impossible comparisons have no say.
   */
  lemma {:induction false} AcceptedIff(cs: seq<Constraint>)
    ensures TriviallySatisfiable(cs) <==> forall v :: HasRoom(cs, v)
  {
    hide MeetsAll, BoundsOf;
    var b := BoundsOf(cs, |cs|);
    if TriviallySatisfiable(cs) {
      forall v
        ensures HasRoom(cs, v)
      {
        WithinIff(cs, |cs|, v, LowerOf(b, v));
        ConsistentLeavesRoom(cs, v);
        assert MeetsAll(cs, |cs|, v, LowerOf(b, v));
      }
    }
    if forall v :: HasRoom(cs, v) {
      forall v | v in b.lower && v in b.upper
        ensures b.lower[v] <= b.upper[v]
      {
        assert HasRoom(cs, v);
        var x: i64 :| MeetsAll(cs, |cs|, v, x);
        WithinIff(cs, |cs|, v, x);
      }
    }
  }
}
