/**
 The lock-order graph and its search for potential deadlocks: a depth-first search
 from each listed lock, with one visited set for the whole run.
 */
module LockOrder {

  datatype LockNode = LockNode(id: nat, name: string)

  datatype LockEdge = LockEdge(from: nat, to: nat, thread: nat)

  datatype Cycle = Cycle(lockIds: seq<nat>, lockNames: seq<string>)

  predicate HasEdge(edges: seq<LockEdge>, a: nat, b: nat) {
    exists k :: 0 <= k < |edges| && edges[k].from == a && edges[k].to == b
  }

  function Last(p: seq<nat>): nat
    requires |p| > 0
  {
    p[|p| - 1]
  }

  // ----- Paths and cycles -----

  ghost predicate IsPath(edges: seq<LockEdge>, p: seq<nat>) {
    |p| > 0 && forall i :: 0 <= i < |p| - 1 ==> HasEdge(edges, p[i], p[i + 1])
  }

  ghost predicate PathFromTo(edges: seq<LockEdge>, p: seq<nat>, a: nat, b: nat) {
    IsPath(edges, p) && p[0] == a && Last(p) == b
  }

  ghost predicate Reaches(edges: seq<LockEdge>, a: nat, b: nat) {
    exists p :: PathFromTo(edges, p, a, b)
  }

  ghost predicate Distinct(p: seq<nat>) {
    forall i, j :: 0 <= i < j < |p| ==> p[i] != p[j]
  }

  /** A duplicate-free path of at least two locks with an edge from the last back to the first. */
  ghost predicate IsCycle(edges: seq<LockEdge>, c: seq<nat>) {
    |c| >= 2 && IsPath(edges, c) && Distinct(c) && HasEdge(edges, Last(c), c[0])
  }

  /** Some cycle begins at `s` and ends at `u`. */
  ghost predicate LeadsBack(edges: seq<LockEdge>, s: nat, u: nat) {
    u != s && Reaches(edges, s, u) && HasEdge(edges, u, s)
  }

  ghost predicate OnCycle(edges: seq<LockEdge>, s: nat) {
    exists u :: LeadsBack(edges, s, u)
  }

  /** No lock listed earlier reaches lock `i`. */
  ghost predicate Fresh(nodes: seq<LockNode>, edges: seq<LockEdge>, i: nat)
    requires i < |nodes|
  {
    forall j :: 0 <= j < i ==> !Reaches(edges, nodes[j].id, nodes[i].id)
  }

  lemma ReachesSelf(edges: seq<LockEdge>, a: nat)
    ensures Reaches(edges, a, a)
  {
    assert PathFromTo(edges, [a], a, a);
  }

  lemma ReachesStep(edges: seq<LockEdge>, a: nat, b: nat, c: nat)
    requires Reaches(edges, a, b) && HasEdge(edges, b, c)
    ensures Reaches(edges, a, c)
  {
    var p :| PathFromTo(edges, p, a, b);
    assert PathFromTo(edges, p + [c], a, c);
  }

  ghost predicate ClosedIn(edges: seq<LockEdge>, part: set<nat>, whole: set<nat>) {
    forall x, y :: x in part && HasEdge(edges, x, y) ==> y in whole
  }

  /** A closed set contains all that its members reach. */
  lemma {:induction false} ClosedHolds(edges: seq<LockEdge>, s: set<nat>, p: seq<nat>)
    requires ClosedIn(edges, s, s) && IsPath(edges, p) && p[0] in s
    ensures Last(p) in s
  {
    if |p| > 1 {
      ClosedHolds(edges, s, p[..|p| - 1]);
      assert HasEdge(edges, p[|p| - 2], p[|p| - 1]);
    }
  }

  lemma ClosedReaches(edges: seq<LockEdge>, s: set<nat>, a: nat, b: nat)
    requires ClosedIn(edges, s, s) && a in s && Reaches(edges, a, b)
    ensures b in s
  {
    var p :| PathFromTo(edges, p, a, b);
    ClosedHolds(edges, s, p);
  }

  lemma ReachesTransitive(edges: seq<LockEdge>, a: nat, b: nat, c: nat)
    requires Reaches(edges, a, b) && Reaches(edges, b, c)
    ensures Reaches(edges, a, c)
  {
    var q :| PathFromTo(edges, q, b, c);
    ReachesAlong(edges, a, q);
  }

  lemma {:induction false} ReachesAlong(edges: seq<LockEdge>, a: nat, q: seq<nat>)
    requires IsPath(edges, q) && Reaches(edges, a, q[0])
    ensures Reaches(edges, a, Last(q))
  {
    if |q| > 1 {
      ReachesAlong(edges, a, q[..|q| - 1]);
      assert HasEdge(edges, q[|q| - 2], q[|q| - 1]);
      ReachesStep(edges, a, q[|q| - 2], q[|q| - 1]);
    }
  }

  /** A cycle leads from its first lock to its last and back. */
  lemma CycleLeadsBack(edges: seq<LockEdge>, c: seq<nat>)
    requires IsCycle(edges, c)
    ensures LeadsBack(edges, c[0], Last(c))
  {
    assert PathFromTo(edges, c, c[0], Last(c));
  }

  // ----- The search -----

  type Adjacency = map<nat, seq<nat>>

  function Neighbors(adj: Adjacency, v: nat): seq<nat> {
    if v in adj then adj[v] else []
  }

  ghost predicate Represents(adj: Adjacency, edges: seq<LockEdge>) {
    forall a: nat, b: nat :: b in Neighbors(adj, a) <==> HasEdge(edges, a, b)
  }

  ghost function EdgeEnds(edges: seq<LockEdge>): set<nat> {
    set k | 0 <= k < |edges| :: edges[k].to
  }

  function NameOf(nodes: seq<LockNode>, id: nat): string {
    if |nodes| == 0 then "?"
    else if nodes[|nodes| - 1].id == id then nodes[|nodes| - 1].name
    else NameOf(nodes[..|nodes| - 1], id)
  }

  function NamesOf(nodes: seq<LockNode>, ids: seq<nat>): seq<string> {
    if |ids| == 0 then [] else NamesOf(nodes, ids[..|ids| - 1]) + [NameOf(nodes, ids[|ids| - 1])]
  }

  /** Each name is the one under which its lock is listed. */
  lemma {:induction false} NamesAre(nodes: seq<LockNode>, ids: seq<nat>)
    ensures |NamesOf(nodes, ids)| == |ids|
    ensures forall k :: 0 <= k < |ids| ==>
              if HasNode(nodes, ids[k]) then LockNode(ids[k], NamesOf(nodes, ids)[k]) in nodes
              else NamesOf(nodes, ids)[k] == "?"
  {
    if |ids| > 0 {
      NamesAre(nodes, ids[..|ids| - 1]);
      NameIs(nodes, ids[|ids| - 1]);
    }
  }

  lemma {:induction false} NameIs(nodes: seq<LockNode>, id: nat)
    ensures if HasNode(nodes, id) then LockNode(id, NameOf(nodes, id)) in nodes else NameOf(nodes, id) == "?"
  {
    if |nodes| > 0 && nodes[|nodes| - 1].id != id {
      var before := nodes[..|nodes| - 1];
      NameIs(before, id);
      if HasNode(nodes, id) {
        var k :| 0 <= k < |nodes| && nodes[k].id == id;
        assert before[k].id == id;
        assert LockNode(id, NameOf(before, id)) in before;
      }
    } else if |nodes| > 0 {
      assert nodes[|nodes| - 1] in nodes;
    }
  }

  /** The locks on the current path: distinct, visited, beginning at `start`. */
  ghost predicate StackOk(edges: seq<LockEdge>, stack: seq<nat>, start: nat, visited: set<nat>) {
    IsPath(edges, stack) && stack[0] == start && Distinct(stack) && forall k :: 0 <= k < |stack| ==> stack[k] in visited
  }

  ghost predicate Joins(c: Cycle, s: nat, u: nat) {
    |c.lockIds| > 0 && c.lockIds[0] == s && Last(c.lockIds) == u
  }

  /** Some report begins at `s` and ends at `u`. */
  ghost predicate Reported(cycles: seq<Cycle>, s: nat, u: nat) {
    exists k :: 0 <= k < |cycles| && Joins(cycles[k], s, u)
  }

  ghost predicate GoodCycles(nodes: seq<LockNode>, edges: seq<LockEdge>, cycles: seq<Cycle>) {
    forall k :: 0 <= k < |cycles| ==>
      IsCycle(edges, cycles[k].lockIds) && cycles[k].lockNames == NamesOf(nodes, cycles[k].lockIds)
  }

  ghost predicate SameEnd(c: Cycle, d: Cycle) {
    |c.lockIds| > 0 && |d.lockIds| > 0 && Last(c.lockIds) == Last(d.lockIds)
  }

  /** No two reports end at the same lock. */
  ghost predicate OneEach(cycles: seq<Cycle>) {
    forall j, k :: 0 <= j < k < |cycles| ==> !SameEnd(cycles[j], cycles[k])
  }

  ghost predicate EndsIn(c: Cycle, part: set<nat>) {
    |c.lockIds| > 0 && Last(c.lockIds) in part
  }

  ghost predicate AllEndIn(cycles: seq<Cycle>, part: set<nat>) {
    forall k :: 0 <= k < |cycles| ==> EndsIn(cycles[k], part)
  }

  /** Only the current path is reported to end at its last lock. */
  ghost predicate OnlyStackEndsAt(cycles: seq<Cycle>, stack: seq<nat>, current: nat) {
    forall k :: 0 <= k < |cycles| && EndsIn(cycles[k], {current}) ==> cycles[k].lockIds == stack
  }

  /** `now` adds to `was` only cycles from `start` to locks of `part`. */
  ghost predicate Extends(was: seq<Cycle>, now: seq<Cycle>, start: nat, part: set<nat>) {
    && |was| <= |now| && (forall k :: 0 <= k < |was| ==> now[k] == was[k])
    && forall k :: |was| <= k < |now| ==> EndsIn(now[k], part) && now[k].lockIds[0] == start
  }

  /** Every lock of `part` with an edge back to `start` ends a report. */
  ghost predicate BackEdgesReported(edges: seq<LockEdge>, part: set<nat>, start: nat, cycles: seq<Cycle>) {
    forall x :: x in part && x != start && HasEdge(edges, x, start) ==> Reported(cycles, start, x)
  }

  ghost predicate AllReachable(edges: seq<LockEdge>, from: nat, part: set<nat>) {
    forall x :: x in part ==> Reaches(edges, from, x)
  }

  lemma ExtendsTransitive(a: seq<Cycle>, b: seq<Cycle>, c: seq<Cycle>, start: nat, part: set<nat>, more: set<nat>)
    requires Extends(a, b, start, part) && Extends(b, c, start, more)
    ensures Extends(a, c, start, part + more)
    ensures forall s, u :: Reported(b, s, u) ==> Reported(c, s, u)
  {
    forall s, u | Reported(b, s, u)
      ensures Reported(c, s, u)
    {
      var k :| 0 <= k < |b| && Joins(b[k], s, u);
      assert Joins(c[k], s, u);
    }
  }

  /** The cycle that closes the current path, unless it is listed. */
  method Report(nodes: seq<LockNode>, edges: seq<LockEdge>, stack: seq<nat>, start: nat, cycles0: seq<Cycle>)
    returns (cycles: seq<Cycle>)
    requires GoodCycles(nodes, edges, cycles0) && IsCycle(edges, stack) && stack[0] == start
    requires OneEach(cycles0) && OnlyStackEndsAt(cycles0, stack, Last(stack))
    ensures GoodCycles(nodes, edges, cycles) && Extends(cycles0, cycles, start, {Last(stack)})
    ensures OneEach(cycles) && OnlyStackEndsAt(cycles, stack, Last(stack)) && Reported(cycles, start, Last(stack))
  {
    assert |stack| > 0;
    hide IsCycle;
    cycles := cycles0;
    if k :| 0 <= k < |cycles| && cycles[k].lockIds == stack {
      assert Joins(cycles[k], start, Last(stack));
    } else {
      cycles := cycles + [Cycle(stack, NamesOf(nodes, stack))];
      assert Joins(cycles[|cycles0|], start, Last(stack));
      forall j | 0 <= j < |cycles0|
        ensures !SameEnd(cycles[j], cycles[|cycles0|])
      {
        assert !EndsIn(cycles0[j], {Last(stack)});
      }
    }
  }

  /** Visits what `current` reaches and reports one closed path for every lock met that has an edge back to `start`. */
  method Dfs(nodes: seq<LockNode>, edges: seq<LockEdge>, start: nat, current: nat, adj: Adjacency,
             ghost universe: set<nat>, visited0: set<nat>, stack0: seq<nat>, cycles0: seq<Cycle>)
    returns (visited: set<nat>, cycles: seq<Cycle>)
    requires Represents(adj, edges) && EdgeEnds(edges) <= universe
    requires current in universe && current !in visited0 && visited0 <= universe
    requires if stack0 == [] then current == start
             else StackOk(edges, stack0, start, visited0) && HasEdge(edges, Last(stack0), current)
    requires GoodCycles(nodes, edges, cycles0) && OneEach(cycles0) && AllEndIn(cycles0, visited0)
    ensures visited0 + {current} <= visited <= universe
    ensures ClosedIn(edges, visited - visited0, visited) && AllReachable(edges, current, visited - visited0)
    ensures GoodCycles(nodes, edges, cycles) && OneEach(cycles)
    ensures Extends(cycles0, cycles, start, visited - visited0)
    ensures BackEdgesReported(edges, visited - visited0, start, cycles)
    decreases universe - visited0
  {
    hide HasEdge, GoodCycles, IsCycle, Reported, Reaches, EdgeEnds, OneEach, AllEndIn, OnlyStackEndsAt, Extends;
    visited, cycles := visited0 + {current}, cycles0;
    var stack := stack0 + [current];
    Pushed(edges, stack0, start, current, visited0);
    NothingEndsHere(cycles0, visited0, stack, current, start);
    var neighbors := Neighbors(adj, current);
    ReachesSelf(edges, current);
    for n := 0 to |neighbors|
      invariant visited0 + {current} <= visited <= universe
      invariant forall k :: 0 <= k < n ==> neighbors[k] in visited
      invariant ClosedIn(edges, visited - visited0 - {current}, visited)
                && AllReachable(edges, current, visited - visited0)
      invariant GoodCycles(nodes, edges, cycles) && OneEach(cycles) && OnlyStackEndsAt(cycles, stack, current)
      invariant Extends(cycles0, cycles, start, visited - visited0)
      invariant BackEdgesReported(edges, visited - visited0 - {current}, start, cycles)
      invariant current != start && start in neighbors[..n] ==> Reported(cycles, start, current)
    {
      var next := neighbors[n];
      assert next in neighbors && HasEdge(edges, current, next);
      ghost var was, before := cycles, visited;
      if next == start && |stack| > 1 {
        ClosesCycle(edges, stack, start, visited);
        cycles := Report(nodes, edges, stack, start, cycles);
        ExtendsTransitive(cycles0, was, cycles, start, visited - visited0, {current});
        assert visited - visited0 + {current} == visited - visited0;
      } else if next !in visited {
        NextInUniverse(edges, current, next);
        StackStays(edges, stack, start, visited0 + {current}, visited);
        EndsStayVisited(cycles0, cycles, start, visited0, visited);
        visited, cycles := Dfs(nodes, edges, start, next, adj, universe, visited, stack, cycles);
        ExtendsTransitive(cycles0, was, cycles, start, before - visited0, visited - before);
        assert (before - visited0) + (visited - before) == visited - visited0;
        OthersEndElsewhere(was, cycles, start, visited - before, stack, current);
        ReachableThrough(edges, current, next, visited - before);
      }
    }
  }

  lemma NothingEndsHere(cycles: seq<Cycle>, visited: set<nat>, stack: seq<nat>, current: nat, start: nat)
    requires AllEndIn(cycles, visited) && current !in visited
    ensures OnlyStackEndsAt(cycles, stack, current) && Extends(cycles, cycles, start, {current})
    ensures visited + {current} - visited == {current}
  {
  }

  lemma EndsStayVisited(was: seq<Cycle>, now: seq<Cycle>, start: nat, before: set<nat>, visited: set<nat>)
    requires AllEndIn(was, before) && Extends(was, now, start, visited - before) && before <= visited
    ensures AllEndIn(now, visited)
  {
    forall k | 0 <= k < |now|
      ensures EndsIn(now[k], visited)
    {
      if k < |was| { assert EndsIn(was[k], before); }
    }
  }

  lemma OthersEndElsewhere(was: seq<Cycle>, now: seq<Cycle>, start: nat, part: set<nat>, stack: seq<nat>, current: nat)
    requires OnlyStackEndsAt(was, stack, current) && Extends(was, now, start, part) && current !in part
    ensures OnlyStackEndsAt(now, stack, current)
  {
  }

  lemma Pushed(edges: seq<LockEdge>, stack0: seq<nat>, start: nat, current: nat, visited0: set<nat>)
    requires current !in visited0
    requires if stack0 == [] then current == start
             else StackOk(edges, stack0, start, visited0) && HasEdge(edges, Last(stack0), current)
    ensures StackOk(edges, stack0 + [current], start, visited0 + {current})
    ensures |stack0 + [current]| > 1 <==> current != start
  {
    if |stack0| > 0 { assert stack0[0] in visited0; }
  }

  lemma StackStays(edges: seq<LockEdge>, stack: seq<nat>, start: nat, visited: set<nat>, later: set<nat>)
    requires StackOk(edges, stack, start, visited) && visited <= later
    ensures StackOk(edges, stack, start, later)
  {
  }

  lemma ClosesCycle(edges: seq<LockEdge>, stack: seq<nat>, start: nat, visited: set<nat>)
    requires |stack| > 1 && IsPath(edges, stack) && Distinct(stack) && stack[0] == start
             && HasEdge(edges, Last(stack), start)
    ensures IsCycle(edges, stack)
  {
  }

  lemma NextInUniverse(edges: seq<LockEdge>, a: nat, b: nat)
    requires HasEdge(edges, a, b)
    ensures b in EdgeEnds(edges)
  {
  }

  lemma ReachableThrough(edges: seq<LockEdge>, a: nat, b: nat, part: set<nat>)
    requires HasEdge(edges, a, b) && AllReachable(edges, b, part)
    ensures AllReachable(edges, a, part)
  {
    ReachesSelf(edges, a);
    ReachesStep(edges, a, a, b);
    forall x | x in part
      ensures Reaches(edges, a, x)
    {
      ReachesTransitive(edges, a, b, x);
    }
  }

  // ----- The whole search -----

  /** Nodes listed before `n` and all they reach. */
  ghost predicate VisitedUpTo(nodes: seq<LockNode>, edges: seq<LockEdge>, n: nat, visited: set<nat>)
    requires n <= |nodes|
  {
    && ClosedIn(edges, visited, visited)
    && (forall i :: 0 <= i < n ==> nodes[i].id in visited)
    && (forall x :: x in visited ==> exists i :: 0 <= i < n && Reaches(edges, nodes[i].id, x))
  }

  /**
   The reports so far begin at fresh locks, and for each fresh lock and each lock that leads back
   to it there is one.
   */
  ghost predicate ExactUpTo(nodes: seq<LockNode>, edges: seq<LockEdge>, n: nat, cycles: seq<Cycle>)
    requires n <= |nodes|
  {
    && (forall k :: 0 <= k < |cycles| ==> BeginsFresh(nodes, edges, n, cycles[k]))
    && (forall i, u :: 0 <= i < n && Fresh(nodes, edges, i) && LeadsBack(edges, nodes[i].id, u) ==>
         Reported(cycles, nodes[i].id, u))
  }

  ghost predicate BeginsFresh(nodes: seq<LockNode>, edges: seq<LockEdge>, n: nat, c: Cycle)
    requires n <= |nodes|
  {
    |c.lockIds| > 0 && exists i :: 0 <= i < n && Fresh(nodes, edges, i) && nodes[i].id == c.lockIds[0]
  }

  /**
   What the search returns: cycles, exactly one for each pair of a fresh lock and a lock that leads
   back to it, and no others.
   */
  ghost predicate IsAnswer(nodes: seq<LockNode>, edges: seq<LockEdge>, cycles: seq<Cycle>) {
    GoodCycles(nodes, edges, cycles) && OneEach(cycles) && ExactUpTo(nodes, edges, |nodes|, cycles)
  }

  lemma UnvisitedIsFresh(nodes: seq<LockNode>, edges: seq<LockEdge>, n: nat, visited: set<nat>)
    requires n < |nodes| && VisitedUpTo(nodes, edges, n, visited)
    ensures nodes[n].id !in visited <==> Fresh(nodes, edges, n)
  {
    if nodes[n].id !in visited {
      forall j | 0 <= j < n
        ensures !Reaches(edges, nodes[j].id, nodes[n].id)
      {
        if Reaches(edges, nodes[j].id, nodes[n].id) { ClosedReaches(edges, visited, nodes[j].id, nodes[n].id); }
      }
    }
  }

  lemma VisitedGrows(nodes: seq<LockNode>, edges: seq<LockEdge>, n: nat, was: set<nat>, now: set<nat>)
    requires n < |nodes| && VisitedUpTo(nodes, edges, n, was) && was <= now && nodes[n].id in now
    requires ClosedIn(edges, now - was, now) && AllReachable(edges, nodes[n].id, now - was)
    ensures VisitedUpTo(nodes, edges, n + 1, now)
  {
    forall x, y | x in now && HasEdge(edges, x, y)
      ensures y in now
    {
      if x in was { assert y in was; } else { assert x in now - was; }
    }
    forall x | x in now
      ensures exists i :: 0 <= i < n + 1 && Reaches(edges, nodes[i].id, x)
    {
      if x in was {
        var i :| 0 <= i < n && Reaches(edges, nodes[i].id, x);
      } else {
        assert x in now - was && Reaches(edges, nodes[n].id, x);
      }
    }
  }

  /** The white-path argument: each lock that leads back to lock `n` was visited in the search from `n`. */
  lemma CycleIsReported(nodes: seq<LockNode>, edges: seq<LockEdge>, n: nat, was: set<nat>, now: set<nat>,
                        cycles: seq<Cycle>, u: nat)
    requires n < |nodes| && VisitedUpTo(nodes, edges, n, was) && VisitedUpTo(nodes, edges, n + 1, now)
    requires nodes[n].id !in was && LeadsBack(edges, nodes[n].id, u)
    requires BackEdgesReported(edges, now - was, nodes[n].id, cycles)
    ensures Reported(cycles, nodes[n].id, u)
  {
    hide Reaches, Reported;
    ClosedReaches(edges, now, nodes[n].id, u);
    assert u !in was;
  }

  lemma ExactGrows(nodes: seq<LockNode>, edges: seq<LockEdge>, n: nat, was: seq<Cycle>, now: seq<Cycle>, part: set<nat>)
    requires n < |nodes| && ExactUpTo(nodes, edges, n, was)
    requires Extends(was, now, nodes[n].id, part)
    requires Fresh(nodes, edges, n) ==> forall u :: LeadsBack(edges, nodes[n].id, u) ==> Reported(now, nodes[n].id, u)
    requires !Fresh(nodes, edges, n) ==> now == was
    ensures ExactUpTo(nodes, edges, n + 1, now)
  {
    hide LeadsBack, Fresh;
    ExtendsTransitive(was, was, now, nodes[n].id, {}, part);
    forall k | 0 <= k < |now|
      ensures BeginsFresh(nodes, edges, n + 1, now[k])
    {
      if k < |was| { assert BeginsFresh(nodes, edges, n, was[k]); }
    }
  }

  lemma AdjacencyStep(edges: seq<LockEdge>, n: nat, adj: Adjacency)
    requires n < |edges| && Represents(adj, edges[..n])
    ensures Represents(adj[edges[n].from := Neighbors(adj, edges[n].from) + [edges[n].to]], edges[..n + 1])
  {
    var e := edges[n];
    var now := adj[e.from := Neighbors(adj, e.from) + [e.to]];
    forall a: nat, b: nat
      ensures b in Neighbors(now, a) <==> HasEdge(edges[..n + 1], a, b)
    {
      assert b in Neighbors(adj, a) <==> HasEdge(edges[..n], a, b);
      assert edges[..n + 1][n] == e && forall k :: 0 <= k < n ==> edges[..n + 1][k] == edges[..n][k];
    }
  }

  method BuildAdjacency(edges: seq<LockEdge>) returns (adj: Adjacency)
    ensures Represents(adj, edges)
  {
    adj := map[];
    for n := 0 to |edges|
      invariant Represents(adj, edges[..n])
    {
      AdjacencyStep(edges, n, adj);
      adj := adj[edges[n].from := Neighbors(adj, edges[n].from) + [edges[n].to]];
    }
    assert edges[..|edges|] == edges;
  }

  class LockGraph {
    var nodes: seq<LockNode>
    var edges: seq<LockEdge>

    constructor ()
      ensures nodes == [] && edges == []
    {
      nodes, edges := [], [];
    }

    method AddNode(id: nat, name: string)
      modifies this`nodes
      ensures nodes == if HasNode(old(nodes), id) then old(nodes) else old(nodes) + [LockNode(id, name)]
    {
      if !HasNode(nodes, id) { nodes := nodes + [LockNode(id, name)]; }
    }

    method AddEdge(from: nat, to: nat, thread: nat)
      modifies this`edges
      ensures edges == if HasEdge(old(edges), from, to) then old(edges) else old(edges) + [LockEdge(from, to, thread)]
    {
      if !HasEdge(edges, from, to) { edges := edges + [LockEdge(from, to, thread)]; }
    }

    /**
     Every report is a cycle of distinct locks; there is exactly one for each pair of a fresh lock and
     a lock that leads back to it, and no other.
     */
    method FindCycles() returns (cycles: seq<Cycle>)
      ensures IsAnswer(nodes, edges, cycles) && ComeInOrder(nodes, cycles)
    {
      hide ComeInOrder, GoodCycles, LeadsBack, Fresh, HasEdge, ExactUpTo, VisitedUpTo, BackEdgesReported, Extends,
           ClosedIn, AllReachable, EdgeEnds, OneEach, AllEndIn, InOrderUpTo;
      var adj := BuildAdjacency(edges);
      cycles := [];
      var visited: set<nat> := {};
      ghost var universe := (set i | 0 <= i < |nodes| :: nodes[i].id) + EdgeEnds(edges);
      NothingYet(nodes, edges);
      NoneInOrder(nodes);
      for n := 0 to |nodes|
        invariant visited <= universe && VisitedUpTo(nodes, edges, n, visited) && AllEndIn(cycles, visited)
        invariant InOrderUpTo(nodes, n, cycles)
        invariant GoodCycles(nodes, edges, cycles) && OneEach(cycles) && ExactUpTo(nodes, edges, n, cycles)
      {
        var start := nodes[n].id;
        if start !in visited {
          ghost var was, before := cycles, visited;
          visited, cycles := Dfs(nodes, edges, start, start, adj, universe, visited, [], cycles);
          Searched(nodes, edges, n, before, visited, was, cycles);
          MoreInOrder(nodes, n, was, cycles, visited - before);
        } else {
          NothingNew(nodes, edges, n, visited, cycles);
          ExtendsSelf(cycles, start);
          MoreInOrder(nodes, n, cycles, cycles, {});
        }
      }
      AllInOrder(nodes, cycles);
    }
  }

  /** `ranks` says for each report where its first lock is listed. */
  ghost predicate Ranks(nodes: seq<LockNode>, n: nat, cycles: seq<Cycle>, ranks: seq<nat>) {
    && |ranks| == |cycles|
    && (forall k :: 0 <= k < |cycles| ==> RankOf(nodes, n, cycles[k], ranks[k]))
    && forall j, k :: 0 <= j < k < |ranks| ==> ranks[j] <= ranks[k]
  }

  predicate RankOf(nodes: seq<LockNode>, n: nat, c: Cycle, rank: nat) {
    rank < n && rank < |nodes| && |c.lockIds| > 0 && c.lockIds[0] == nodes[rank].id
  }

  ghost predicate InOrderUpTo(nodes: seq<LockNode>, n: nat, cycles: seq<Cycle>) {
    exists ranks :: Ranks(nodes, n, cycles, ranks)
  }

  /** Reports come in the order in which their first locks are listed. */
  ghost predicate ComeInOrder(nodes: seq<LockNode>, cycles: seq<Cycle>) {
    InOrderUpTo(nodes, |nodes|, cycles)
  }

  lemma NoneInOrder(nodes: seq<LockNode>)
    ensures InOrderUpTo(nodes, 0, [])
  {
    assert Ranks(nodes, 0, [], []);
  }

  lemma AllInOrder(nodes: seq<LockNode>, cycles: seq<Cycle>)
    requires InOrderUpTo(nodes, |nodes|, cycles)
    ensures ComeInOrder(nodes, cycles)
  {
  }

  lemma ExtendsSelf(cycles: seq<Cycle>, start: nat)
    ensures Extends(cycles, cycles, start, {})
  {
  }

  lemma MoreInOrder(nodes: seq<LockNode>, n: nat, was: seq<Cycle>, now: seq<Cycle>, part: set<nat>)
    requires n < |nodes| && InOrderUpTo(nodes, n, was) && Extends(was, now, nodes[n].id, part)
    ensures InOrderUpTo(nodes, n + 1, now)
  {
    var ranks :| Ranks(nodes, n, was, ranks);
    var more := ranks + seq(|now| - |was|, k => n);
    forall k | 0 <= k < |now|
      ensures RankOf(nodes, n + 1, now[k], more[k])
    {
      if k < |was| { assert RankOf(nodes, n, was[k], ranks[k]); } else { assert EndsIn(now[k], part); }
    }
    assert forall k :: 0 <= k < |ranks| ==> RankOf(nodes, n, was[k], ranks[k]);
    assert Ranks(nodes, n + 1, now, more);
  }

  /** What a search from an unvisited lock adds. */
  lemma Searched(nodes: seq<LockNode>, edges: seq<LockEdge>, n: nat, before: set<nat>, visited: set<nat>,
                 was: seq<Cycle>, now: seq<Cycle>)
    requires n < |nodes| && VisitedUpTo(nodes, edges, n, before) && AllEndIn(was, before)
             && ExactUpTo(nodes, edges, n, was)
    requires nodes[n].id !in before && before + {nodes[n].id} <= visited
    requires ClosedIn(edges, visited - before, visited) && AllReachable(edges, nodes[n].id, visited - before)
    requires Extends(was, now, nodes[n].id, visited - before)
    requires BackEdgesReported(edges, visited - before, nodes[n].id, now)
    ensures VisitedUpTo(nodes, edges, n + 1, visited) && AllEndIn(now, visited) && ExactUpTo(nodes, edges, n + 1, now)
  {
    hide *;
    UnvisitedIsFresh(nodes, edges, n, before);
    VisitedGrows(nodes, edges, n, before, visited);
    EndsStayVisited(was, now, nodes[n].id, before, visited);
    forall u | LeadsBack(edges, nodes[n].id, u)
      ensures Reported(now, nodes[n].id, u)
    {
      CycleIsReported(nodes, edges, n, before, visited, now, u);
    }
    ExactGrows(nodes, edges, n, was, now, visited - before);
  }

  predicate HasNode(nodes: seq<LockNode>, id: nat) {
    exists k :: 0 <= k < |nodes| && nodes[k].id == id
  }

  lemma NothingYet(nodes: seq<LockNode>, edges: seq<LockEdge>)
    ensures VisitedUpTo(nodes, edges, 0, {}) && AllEndIn([], {})
    ensures GoodCycles(nodes, edges, []) && OneEach([]) && ExactUpTo(nodes, edges, 0, [])
  {
  }

  lemma NothingNew(nodes: seq<LockNode>, edges: seq<LockEdge>, n: nat, visited: set<nat>, cycles: seq<Cycle>)
    requires n < |nodes| && VisitedUpTo(nodes, edges, n, visited) && nodes[n].id in visited
    requires ExactUpTo(nodes, edges, n, cycles)
    ensures VisitedUpTo(nodes, edges, n + 1, visited) && ExactUpTo(nodes, edges, n + 1, cycles)
  {
    hide LeadsBack, Fresh, Reported;
    UnvisitedIsFresh(nodes, edges, n, visited);
    assert Extends(cycles, cycles, nodes[n].id, {});
    ExactGrows(nodes, edges, n, cycles, cycles, {});
    ReachesSelf(edges, nodes[n].id);
    VisitedGrows(nodes, edges, n, visited, visited);
  }

  // ----- What the search misses -----

  /** Something is reported exactly when some fresh lock is on a cycle. */
  lemma DetectsIff(nodes: seq<LockNode>, edges: seq<LockEdge>, cycles: seq<Cycle>)
    requires IsAnswer(nodes, edges, cycles)
    ensures |cycles| > 0 <==> exists i :: 0 <= i < |nodes| && Fresh(nodes, edges, i) && OnCycle(edges, nodes[i].id)
  {
    if |cycles| > 0 {
      assert BeginsFresh(nodes, edges, |nodes|, cycles[0]);
      var i :| 0 <= i < |nodes| && Fresh(nodes, edges, i) && nodes[i].id == cycles[0].lockIds[0];
      CycleLeadsBack(edges, cycles[0].lockIds);
    }
  }

  /** A deadlock is never overlooked altogether when the locks listed before it that lead to it are on cycles too. */
  lemma DetectsUnlessLedTo(nodes: seq<LockNode>, edges: seq<LockEdge>, cycles: seq<Cycle>, i: nat)
    requires IsAnswer(nodes, edges, cycles)
    requires i < |nodes| && OnCycle(edges, nodes[i].id)
    requires forall j :: 0 <= j < i && Reaches(edges, nodes[j].id, nodes[i].id) ==> OnCycle(edges, nodes[j].id)
    ensures |cycles| > 0
    decreases i
  {
    if !Fresh(nodes, edges, i) {
      var j :| 0 <= j < i && Reaches(edges, nodes[j].id, nodes[i].id);
      forall h | 0 <= h < j && Reaches(edges, nodes[h].id, nodes[j].id)
        ensures OnCycle(edges, nodes[h].id)
      {
        ReachesTransitive(edges, nodes[h].id, nodes[j].id, nodes[i].id);
      }
      DetectsUnlessLedTo(nodes, edges, cycles, j);
    }
  }

  /** Locks 0, 1, 2 with edges 0 to 1, 1 to 2 and 2 to 1: a cycle, and nothing reported. */
  lemma MissesACycle(cycles: seq<Cycle>)
    requires var nodes := [LockNode(0, "a"), LockNode(1, "b"), LockNode(2, "c")];
             var edges := [LockEdge(0, 1, 0), LockEdge(1, 2, 0), LockEdge(2, 1, 0)];
             IsAnswer(nodes, edges, cycles)
    ensures IsCycle([LockEdge(0, 1, 0), LockEdge(1, 2, 0), LockEdge(2, 1, 0)], [1, 2]) && cycles == []
  {
    var nodes := [LockNode(0, "a"), LockNode(1, "b"), LockNode(2, "c")];
    var edges := [LockEdge(0, 1, 0), LockEdge(1, 2, 0), LockEdge(2, 1, 0)];
    assert edges[0] == LockEdge(0, 1, 0) && edges[1] == LockEdge(1, 2, 0) && edges[2] == LockEdge(2, 1, 0);
    assert HasEdge(edges, 0, 1) && HasEdge(edges, 1, 2) && HasEdge(edges, 2, 1);
    assert PathFromTo(edges, [0, 1], 0, 1) && PathFromTo(edges, [0, 1, 2], 0, 2);
    assert Reaches(edges, nodes[0].id, nodes[1].id) && Reaches(edges, nodes[0].id, nodes[2].id);
    assert !OnCycle(edges, 0);
    DetectsIff(nodes, edges, cycles);
  }
}
