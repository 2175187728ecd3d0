/**
 Which deadlocks the search covers. A simple cycle may be written down from any of its locks; the
 search reports it when one of these rotations is among its answers.
 */
module LockCoverage {
  import opened LockOrder

  function Rotate(c: seq<nat>, i: nat): (r: seq<nat>)
    requires i < |c|
    ensures |r| == |c| && r[0] == c[i] && r[|r| - 1] == c[if i == 0 then |c| - 1 else i - 1]
  {
    c[i..] + c[..i]
  }

  lemma RotationIsCycle(edges: seq<LockEdge>, c: seq<nat>, i: nat)
    requires IsCycle(edges, c) && i < |c|
    ensures IsCycle(edges, Rotate(c, i))
  {
    hide HasEdge;
    var r := Rotate(c, i);
    forall k | 0 <= k < |r| - 1
      ensures HasEdge(edges, r[k], r[k + 1])
    {
      if k + i == |c| - 1 {
        assert r[k] == Last(c) && r[k + 1] == c[0];
      } else {
        var j := if k + i < |c| then k + i else k + i - |c|;
        assert r[k] == c[j] && r[k + 1] == c[j + 1];
      }
    }
    assert i > 0 ==> HasEdge(edges, c[i - 1], c[i]);
  }

  lemma {:induction false} ReachesForward(edges: seq<LockEdge>, p: seq<nat>, i: nat, j: nat)
    requires IsPath(edges, p) && i <= j < |p|
    ensures Reaches(edges, p[i], p[j])
    decreases j
  {
    if i == j {
      ReachesSelf(edges, p[i]);
    } else {
      ReachesForward(edges, p, i, j - 1);
      assert HasEdge(edges, p[j - 1], p[j - 1 + 1]);
      ReachesStep(edges, p[i], p[j - 1], p[j]);
    }
  }

  /** All locks of a cycle reach each other. */
  lemma CycleReaches(edges: seq<LockEdge>, c: seq<nat>, i: nat, j: nat)
    requires IsCycle(edges, c) && i < |c| && j < |c|
    ensures Reaches(edges, c[i], c[j])
  {
    if i <= j {
      ReachesForward(edges, c, i, j);
    } else {
      ReachesForward(edges, c, i, |c| - 1);
      ReachesStep(edges, c[i], Last(c), c[0]);
      ReachesForward(edges, c, 0, j);
      ReachesTransitive(edges, c[i], c[0], c[j]);
    }
  }

  // ----- Fresh locks -----

  ghost predicate IsFresh(nodes: seq<LockNode>, edges: seq<LockEdge>, s: nat) {
    exists i :: 0 <= i < |nodes| && nodes[i].id == s && Fresh(nodes, edges, i)
  }

  /** Of the locks on a cycle at most one is fresh: the one listed first. */
  lemma OneFreshLock(nodes: seq<LockNode>, edges: seq<LockEdge>, c: seq<nat>, i: nat, j: nat)
    requires IsCycle(edges, c) && i < |c| && j < |c|
    requires IsFresh(nodes, edges, c[i]) && IsFresh(nodes, edges, c[j])
    ensures i == j
  {
    hide IsCycle, Reaches;
    var a :| 0 <= a < |nodes| && nodes[a].id == c[i] && Fresh(nodes, edges, a);
    var b :| 0 <= b < |nodes| && nodes[b].id == c[j] && Fresh(nodes, edges, b);
    CycleReaches(edges, c, i, j);
    CycleReaches(edges, c, j, i);
    assert a == b;
    CycleIsDistinct(edges, c, i, j);
  }

  lemma CycleIsDistinct(edges: seq<LockEdge>, c: seq<nat>, i: nat, j: nat)
    requires IsCycle(edges, c) && i < |c| && j < |c| && c[i] == c[j]
    ensures i == j
  {
  }

  // ----- Coverage -----

  ghost predicate Covered(cycles: seq<Cycle>, c: seq<nat>) {
    exists k, i :: 0 <= k < |cycles| && 0 <= i < |c| && cycles[k].lockIds == Rotate(c, i)
  }

  /** A simple cycle of any length, also an edge from a lock to itself. */
  ghost predicate IsSimple(edges: seq<LockEdge>, c: seq<nat>) {
    |c| > 0 && IsPath(edges, c) && Distinct(c) && HasEdge(edges, Last(c), c[0])
  }

  ghost predicate AllCovered(edges: seq<LockEdge>, cycles: seq<Cycle>) {
    forall c :: IsSimple(edges, c) ==> Covered(cycles, c)
  }

  predicate SameEnds(c: seq<nat>, d: seq<nat>) {
    |c| > 0 && |d| > 0 && c[0] == d[0] && Last(c) == Last(d)
  }

  /** `c` is the only simple cycle from its first lock to its last. */
  ghost predicate OnlyOne(edges: seq<LockEdge>, c: seq<nat>) {
    forall d :: IsCycle(edges, d) && SameEnds(c, d) ==> d == c
  }

  /** Seen from some fresh lock on it, `c` is the only cycle that closes over the same lock. */
  ghost predicate Singled(nodes: seq<LockNode>, edges: seq<LockEdge>, c: seq<nat>) {
    exists i :: 0 <= i < |c| && IsFresh(nodes, edges, c[i]) && OnlyOne(edges, Rotate(c, i))
  }

  lemma SingledIsCovered(nodes: seq<LockNode>, edges: seq<LockEdge>, cycles: seq<Cycle>, c: seq<nat>)
    requires IsAnswer(nodes, edges, cycles) && IsCycle(edges, c) && Singled(nodes, edges, c)
    ensures Covered(cycles, c)
  {
    hide IsCycle, Fresh, LeadsBack, Rotate;
    var i :| 0 <= i < |c| && IsFresh(nodes, edges, c[i]) && OnlyOne(edges, Rotate(c, i));
    var r := Rotate(c, i);
    RotationIsCycle(edges, c, i);
    CycleLeadsBack(edges, r);
    var k := ReportedAt(nodes, edges, cycles, r[0], Last(r));
    assert cycles[k].lockIds == r;
  }

  /** The report for a fresh lock and a lock that leads back to it. */
  lemma ReportedAt(nodes: seq<LockNode>, edges: seq<LockEdge>, cycles: seq<Cycle>, s: nat, u: nat) returns (k: nat)
    requires IsAnswer(nodes, edges, cycles) && IsFresh(nodes, edges, s) && LeadsBack(edges, s, u)
    ensures k < |cycles| && IsCycle(edges, cycles[k].lockIds)
    ensures |cycles[k].lockIds| > 0 && cycles[k].lockIds[0] == s && Last(cycles[k].lockIds) == u
  {
    hide IsCycle, Fresh, LeadsBack;
    var i :| 0 <= i < |nodes| && nodes[i].id == s && Fresh(nodes, edges, i);
    assert Reported(cycles, nodes[i].id, u);
    k :| 0 <= k < |cycles| && Joins(cycles[k], s, u);
  }

  lemma ReportIsFresh(nodes: seq<LockNode>, edges: seq<LockEdge>, cycles: seq<Cycle>, k: nat)
    requires IsAnswer(nodes, edges, cycles) && k < |cycles|
    ensures IsCycle(edges, cycles[k].lockIds) && |cycles[k].lockIds| > 0
    ensures IsFresh(nodes, edges, cycles[k].lockIds[0])
  {
    hide Fresh;
    assert BeginsFresh(nodes, edges, |nodes|, cycles[k]);
  }

  lemma SameReport(nodes: seq<LockNode>, edges: seq<LockEdge>, cycles: seq<Cycle>, j: nat, k: nat)
    requires IsAnswer(nodes, edges, cycles) && j < |cycles| && k < |cycles|
    requires SameEnd(cycles[j], cycles[k])
    ensures j == k
  {
    hide IsCycle, ExactUpTo, GoodCycles;
  }

  lemma CoveredIsSingled(nodes: seq<LockNode>, edges: seq<LockEdge>, cycles: seq<Cycle>, c: seq<nat>)
    requires IsAnswer(nodes, edges, cycles) && IsCycle(edges, c) && AllCovered(edges, cycles)
    ensures Singled(nodes, edges, c)
  {
    hide IsCycle, IsFresh, IsAnswer, Rotate, AllCovered;
    CoveredSomewhere(edges, cycles, c);
    var k, i :| 0 <= k < |cycles| && 0 <= i < |c| && cycles[k].lockIds == Rotate(c, i);
    var r := Rotate(c, i);
    ReportIsFresh(nodes, edges, cycles, k);
    forall d | IsCycle(edges, d) && SameEnds(r, d)
      ensures d == r
    {
      CoveredSomewhere(edges, cycles, d);
      var m, j :| 0 <= m < |cycles| && 0 <= j < |d| && cycles[m].lockIds == Rotate(d, j);
      ReportIsFresh(nodes, edges, cycles, m);
      OneFreshLock(nodes, edges, d, 0, j);
      NotRotated(d);
      SameReport(nodes, edges, cycles, m, k);
    }
  }

  lemma CoveredSomewhere(edges: seq<LockEdge>, cycles: seq<Cycle>, c: seq<nat>)
    requires AllCovered(edges, cycles) && IsCycle(edges, c)
    ensures Covered(cycles, c)
  {
    hide Covered;
    assert IsSimple(edges, c);
  }

  /** Reports have at least two locks. */
  lemma CoveredIsLong(nodes: seq<LockNode>, edges: seq<LockEdge>, cycles: seq<Cycle>, c: seq<nat>)
    requires IsAnswer(nodes, edges, cycles) && IsSimple(edges, c) && Covered(cycles, c)
    ensures IsCycle(edges, c)
  {
    hide Rotate, HasEdge, ExactUpTo, OneEach;
    var k, i :| 0 <= k < |cycles| && 0 <= i < |c| && cycles[k].lockIds == Rotate(c, i);
    assert IsCycle(edges, cycles[k].lockIds);
  }

  lemma NotRotated(c: seq<nat>)
    requires |c| > 0
    ensures Rotate(c, 0) == c
  {
  }

  /**
   The documented promise, all simple cycles, is kept exactly when each of them has at least two locks,
   passes through a fresh one, and is the only one that closes over the same lock into it.
   */
  lemma AllCoveredIff(nodes: seq<LockNode>, edges: seq<LockEdge>, cycles: seq<Cycle>)
    requires IsAnswer(nodes, edges, cycles)
    ensures AllCovered(edges, cycles) <==>
            forall c :: IsSimple(edges, c) ==> IsCycle(edges, c) && Singled(nodes, edges, c)
  {
    hide IsCycle, IsSimple, IsAnswer, Singled, Covered;
    if AllCovered(edges, cycles) {
      forall c | IsSimple(edges, c)
        ensures IsCycle(edges, c) && Singled(nodes, edges, c)
      {
        CoveredIsLong(nodes, edges, cycles, c);
        CoveredIsSingled(nodes, edges, cycles, c);
      }
    }
    if forall c :: IsSimple(edges, c) ==> IsCycle(edges, c) && Singled(nodes, edges, c) {
      forall c | IsSimple(edges, c)
        ensures Covered(cycles, c)
      {
        SingledIsCovered(nodes, edges, cycles, c);
      }
    }
  }

  // ----- A cycle lost behind a fresh lock -----

  const FOUR_LOCKS: seq<LockNode> := [LockNode(0, "a"), LockNode(1, "b"), LockNode(2, "c"), LockNode(3, "d")]

  const DIAMOND: seq<LockEdge> :=
    [LockEdge(0, 1, 0), LockEdge(1, 3, 0), LockEdge(0, 2, 0), LockEdge(2, 3, 0), LockEdge(3, 0, 0)]

  lemma DiamondEdges(a: nat, b: nat)
    ensures HasEdge(DIAMOND, a, b) <==>
            (a == 0 && (b == 1 || b == 2)) || (a == 1 && b == 3) || (a == 2 && b == 3) || (a == 3 && b == 0)
  {
    assert DIAMOND[0] == LockEdge(0, 1, 0) && DIAMOND[1] == LockEdge(1, 3, 0) && DIAMOND[2] == LockEdge(0, 2, 0);
    assert DIAMOND[3] == LockEdge(2, 3, 0) && DIAMOND[4] == LockEdge(3, 0, 0);
  }

  lemma DiamondCycles()
    ensures IsCycle(DIAMOND, [0, 1, 3]) && IsCycle(DIAMOND, [0, 2, 3])
    ensures IsFresh(FOUR_LOCKS, DIAMOND, 0)
  {
    DiamondEdges(0, 1);
    DiamondEdges(1, 3);
    DiamondEdges(0, 2);
    DiamondEdges(2, 3);
    DiamondEdges(3, 0);
    assert Fresh(FOUR_LOCKS, DIAMOND, 0) && FOUR_LOCKS[0].id == 0;
  }

  /** Two cycles through the first lock that share their last edge: exactly one of them is reported. */
  lemma MissesOneOfTwo(cycles: seq<Cycle>)
    requires IsAnswer(FOUR_LOCKS, DIAMOND, cycles)
    ensures IsCycle(DIAMOND, [0, 1, 3]) && IsCycle(DIAMOND, [0, 2, 3]) && IsFresh(FOUR_LOCKS, DIAMOND, 0)
    ensures |cycles| == 1
  {
    hide IsCycle, IsAnswer;
    DiamondCycles();
    CycleLeadsBack(DIAMOND, [0, 1, 3]);
    var k := ReportedAt(FOUR_LOCKS, DIAMOND, cycles, 0, 3);
    EndsLike(cycles, 0, k);
    if |cycles| > 1 { EndsLike(cycles, 1, k); }
  }

  lemma EndsLike(cycles: seq<Cycle>, j: nat, k: nat)
    requires IsAnswer(FOUR_LOCKS, DIAMOND, cycles) && j < |cycles| && k < |cycles|
    ensures j == k
  {
    hide IsCycle, IsAnswer, IsFresh;
    ReportIsFresh(FOUR_LOCKS, DIAMOND, cycles, j);
    ReportIsFresh(FOUR_LOCKS, DIAMOND, cycles, k);
    EndsAtThree(cycles[j].lockIds);
    EndsAtThree(cycles[k].lockIds);
    SameReport(FOUR_LOCKS, DIAMOND, cycles, j, k);
  }

  /** Every lock is reached from the first, so only it is fresh, and only lock 3 leads back to it. */
  lemma EndsAtThree(c: seq<nat>)
    requires IsCycle(DIAMOND, c) && IsFresh(FOUR_LOCKS, DIAMOND, c[0])
    ensures Last(c) == 3
  {
    DiamondEdges(Last(c), c[0]);
    DiamondReach();
    var i :| 0 <= i < |FOUR_LOCKS| && FOUR_LOCKS[i].id == c[0] && Fresh(FOUR_LOCKS, DIAMOND, i);
    assert FOUR_LOCKS[0].id == 0 && FOUR_LOCKS[1].id == 1 && FOUR_LOCKS[2].id == 2 && FOUR_LOCKS[3].id == 3;
  }

  lemma DiamondReach()
    ensures Reaches(DIAMOND, 0, 1) && Reaches(DIAMOND, 0, 2) && Reaches(DIAMOND, 0, 3)
  {
    hide IsCycle;
    DiamondCycles();
    CycleReaches(DIAMOND, [0, 1, 3], 0, 1);
    CycleReaches(DIAMOND, [0, 1, 3], 0, 2);
    CycleReaches(DIAMOND, [0, 2, 3], 0, 1);
  }
}
