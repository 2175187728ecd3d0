/** The recorder turns a stream of lock events into a lock-order graph. */
module LockRecorder {
  import opened Prelude
  import opened LockOrder

  datatype LockEvent =
    | Acquire(thread: nat, lockId: nat, lockName: string)
    | Release(thread: nat, lockId: nat)

  // ----- What the events say -----

  predicate Acquires(e: LockEvent, t: nat, a: nat) {
    e.Acquire? && e.thread == t && e.lockId == a
  }

  predicate Releases(e: LockEvent, t: nat, a: nat) {
    e.Release? && e.thread == t && e.lockId == a
  }

  /** Thread `t` acquired `a` before event `n` and has not released it since. */
  ghost predicate Holds(events: seq<LockEvent>, n: nat, t: nat, a: nat)
    requires n <= |events|
  {
    exists i :: 0 <= i < n && Acquires(events[i], t, a) && forall j :: i < j < n ==> !Releases(events[j], t, a)
  }

  /** Some thread acquired `b` at one of the first `n` events while it held `a`. */
  ghost predicate Ordered(events: seq<LockEvent>, n: nat, a: nat, b: nat)
    requires n <= |events|
  {
    exists k :: 0 <= k < n && events[k].Acquire? && events[k].lockId == b && Holds(events, k, events[k].thread, a)
  }

  // ----- What the recorder keeps -----

  function Without(stack: seq<nat>, id: nat): (rest: seq<nat>)
    ensures forall a :: a in rest <==> a in stack && a != id
  {
    if |stack| == 0 then []
    else if stack[|stack| - 1] == id then Without(stack[..|stack| - 1], id)
    else Without(stack[..|stack| - 1], id) + [stack[|stack| - 1]]
  }

  type HeldMap = map<nat, seq<nat>>

  function StackOf(held: HeldMap, t: nat): seq<nat> {
    if t in held then held[t] else []
  }

  function Updated(held: HeldMap, e: LockEvent): HeldMap {
    match e
    case Acquire(t, a, _) => held[t := StackOf(held, t) + [a]]
    case Release(t, a) => if t in held then held[t := Without(held[t], a)] else held
  }

  /** The stacks after the first `n` events. */
  function Replay(events: seq<LockEvent>, n: nat): HeldMap
    requires n <= |events|
  {
    if n == 0 then map[] else Updated(Replay(events, n - 1), events[n - 1])
  }

  lemma HoldsNext(events: seq<LockEvent>, n: nat, t: nat, a: nat)
    requires n < |events|
    ensures Holds(events, n + 1, t, a) <==>
            Acquires(events[n], t, a) || (Holds(events, n, t, a) && !Releases(events[n], t, a))
  {
    if Acquires(events[n], t, a) {
      assert Holds(events, n + 1, t, a);
    } else if Holds(events, n, t, a) && !Releases(events[n], t, a) {
      var i :| 0 <= i < n && Acquires(events[i], t, a) && forall j :: i < j < n ==> !Releases(events[j], t, a);
      assert Acquires(events[i], t, a);
    }
  }

  /** The replayed stacks hold exactly the locks held. */
  lemma {:induction false} ReplayHolds(events: seq<LockEvent>, n: nat, t: nat, a: nat)
    requires n <= |events|
    ensures a in StackOf(Replay(events, n), t) <==> Holds(events, n, t, a)
  {
    if n > 0 {
      ReplayHolds(events, n - 1, t, a);
      HoldsNext(events, n - 1, t, a);
    }
  }

  lemma {:induction false} ReplayPrefix(events: seq<LockEvent>, e: LockEvent, n: nat)
    requires n <= |events|
    ensures Replay(events + [e], n) == Replay(events, n)
  {
    if n > 0 { ReplayPrefix(events, e, n - 1); }
  }

  lemma ReplaySnoc(events: seq<LockEvent>, e: LockEvent)
    ensures Replay(events + [e], |events| + 1) == Updated(Replay(events, |events|), e)
  {
    ReplayPrefix(events, e, |events|);
  }

  /** Event `i` is an acquisition by thread `t`, and the thread has not released that lock since. */
  ghost predicate HeldSince(events: seq<LockEvent>, n: nat, t: nat, i: nat)
    requires n <= |events|
  {
    i < n && events[i].Acquire? && events[i].thread == t
    && forall j :: i < j < n ==> !Releases(events[j], t, events[i].lockId)
  }

  /** The locks on the stack are those of the acquisitions at positions `at`. */
  ghost predicate LocksAt(stack: seq<nat>, events: seq<LockEvent>, at: seq<nat>) {
    |stack| == |at| && forall k :: 0 <= k < |at| ==> at[k] < |events| && events[at[k]].lockId == stack[k]
  }

  lemma HeldSinceNext(events: seq<LockEvent>, n: nat, m: nat, t: nat, i: nat)
    requires n < |events| && m == n + 1
    ensures HeldSince(events, m, t, i) <==>
            || (i == n && events[n].Acquire? && events[n].thread == t)
            || (HeldSince(events, n, t, i) && !Releases(events[n], t, events[i].lockId))
  {
  }

  lemma LocksSnoc(stack: seq<nat>, events: seq<LockEvent>, at: seq<nat>, i: nat)
    requires LocksAt(stack, events, at) && i < |events|
    ensures LocksAt(stack + [events[i].lockId], events, at + [i])
  {
  }

  lemma LocksButLast(stack: seq<nat>, events: seq<LockEvent>, at: seq<nat>)
    requires LocksAt(stack, events, at) && Increasing(at) && |at| > 0
    ensures var m := |at| - 1;
            && |stack| == |at| && at[m] < |events| && events[at[m]].lockId == stack[m]
            && LocksAt(stack[..m], events, at[..m]) && Increasing(at[..m])
            && (forall i :: i in at <==> i in at[..m] || i == at[m])
            && (forall i :: i in at[..m] ==> i < at[m])
  {
    assert at == at[..|at| - 1] + [at[|at| - 1]];
  }

  /** Without a lock, the acquisitions of the others are left, in their order. */
  lemma {:induction false} WithoutKeeps(stack: seq<nat>, events: seq<LockEvent>, at: seq<nat>, id: nat)
    returns (rest: seq<nat>)
    requires Increasing(at) && LocksAt(stack, events, at)
    ensures Increasing(rest) && LocksAt(Without(stack, id), events, rest)
    ensures forall i: nat :: i in rest <==> i in at && i < |events| && events[i].lockId != id
  {
    if |at| == 0 {
      rest := [];
    } else {
      var m := |at| - 1;
      LocksButLast(stack, events, at);
      rest := WithoutKeeps(stack[..m], events, at[..m], id);
      hide Increasing, LocksAt;
      if stack[m] != id {
        LocksSnoc(Without(stack[..m], id), events, rest, at[m]);
        IncreasingSnoc(rest, at[m]);
        rest := rest + [at[m]];
      }
    }
  }

  /** A thread's stack lists its acquisitions not undone since, in the order in which they were made. */
  lemma {:induction false} StackIs(events: seq<LockEvent>, n: nat, t: nat) returns (at: seq<nat>)
    requires n <= |events|
    ensures Increasing(at) && LocksAt(StackOf(Replay(events, n), t), events, at)
    ensures forall i: nat :: i in at <==> HeldSince(events, n, t, i)
  {
    if n == 0 {
      at := [];
    } else {
      var m := n - 1;
      var before := StackIs(events, m, t);
      at := StackMoves(events, m, t, Replay(events, m), before);
      hide Increasing, LocksAt, HeldSince, StackOf, Updated;
      forall i: nat
        ensures i in at <==> HeldSince(events, n, t, i)
      {
        HeldSinceNext(events, m, n, t, i);
      }
    }
  }

  lemma {:induction false} StackMoves(events: seq<LockEvent>, n: nat, t: nat, held: HeldMap, before: seq<nat>)
    returns (at: seq<nat>)
    requires n < |events| && Increasing(before) && LocksAt(StackOf(held, t), events, before)
    requires forall i: nat :: i in before <==> HeldSince(events, n, t, i)
    ensures Increasing(at) && LocksAt(StackOf(Updated(held, events[n]), t), events, at)
    ensures forall i: nat :: i in at <==>
              || (i == n && events[n].Acquire? && events[n].thread == t)
              || (HeldSince(events, n, t, i) && !Releases(events[n], t, events[i].lockId))
  {
    at := before;
    assert forall i: nat :: i in before ==> i < n;
    hide Increasing, LocksAt, Without, HeldSince;
    var e := events[n];
    if e.thread == t {
      match e
      case Acquire(_, a, _) =>
        IncreasingSnoc(before, n);
        LocksSnoc(StackOf(held, t), events, before, n);
        at := before + [n];
      case Release(_, a) =>
        at := WithoutKeeps(StackOf(held, t), events, before, a);
        if t !in held { NothingHeld(events, before); }
    }
  }

  lemma NothingHeld(events: seq<LockEvent>, at: seq<nat>)
    requires LocksAt([], events, at)
    ensures at == []
  {
  }

  lemma OrderedNext(events: seq<LockEvent>, n: nat, a: nat, b: nat)
    requires n < |events|
    ensures Ordered(events, n + 1, a, b) <==>
            || Ordered(events, n, a, b)
            || (events[n].Acquire? && events[n].lockId == b && Holds(events, n, events[n].thread, a))
  {
  }

  // ----- The graph the events describe -----

  ghost predicate DistinctNodes(nodes: seq<LockNode>) {
    forall i, j :: 0 <= i < j < |nodes| ==> nodes[i].id != nodes[j].id
  }

  ghost predicate DistinctEdges(edges: seq<LockEdge>) {
    forall i, j :: 0 <= i < j < |edges| ==> edges[i].from != edges[j].from || edges[i].to != edges[j].to
  }

  ghost predicate Describes(nodes: seq<LockNode>, edges: seq<LockEdge>, events: seq<LockEvent>, n: nat)
    requires n <= |events|
  {
    && DistinctNodes(nodes) && DistinctEdges(edges)
    && (forall id :: HasNode(nodes, id) <==> exists k :: 0 <= k < n && events[k].Acquire? && events[k].lockId == id)
    && (forall a: nat, b: nat :: HasEdge(edges, a, b) <==> Ordered(events, n, a, b))
  }

  predicate IsAcquire(e: LockEvent, id: nat) {
    e.Acquire? && e.lockId == id
  }

  /** The lock was acquired, the first time under the name it is listed with. */
  ghost predicate FirstAcquired(events: seq<LockEvent>, n: nat, node: LockNode)
    requires n <= |events|
  {
    exists k :: 0 <= k < n && IsAcquire(events[k], node.id) && events[k].lockName == node.name
                && forall j :: 0 <= j < k ==> !IsAcquire(events[j], node.id)
  }

  /** Lock `a` was acquired when `b` had not been yet. */
  ghost predicate Sooner(events: seq<LockEvent>, n: nat, a: nat, b: nat)
    requires n <= |events|
  {
    exists k :: 0 <= k < n && IsAcquire(events[k], a) && forall j :: 0 <= j <= k ==> !IsAcquire(events[j], b)
  }

  /** The ordering of the edge was observed, the first time on the thread it is labeled with. */
  ghost predicate FirstObserved(events: seq<LockEvent>, n: nat, e: LockEdge)
    requires n <= |events|
  {
    exists k :: 0 <= k < n && IsAcquire(events[k], e.to) && events[k].thread == e.thread
                && Holds(events, k, e.thread, e.from) && !Ordered(events, k, e.from, e.to)
  }

  /** The locks stand in the order of their first acquisitions, and each edge bears its first thread. */
  ghost predicate Chronological(nodes: seq<LockNode>, edges: seq<LockEdge>, events: seq<LockEvent>, n: nat)
    requires n <= |events|
  {
    && (forall i :: 0 <= i < |nodes| ==> FirstAcquired(events, n, nodes[i]))
    && (forall i, j :: 0 <= i < j < |nodes| ==> Sooner(events, n, nodes[i].id, nodes[j].id))
    && (forall i :: 0 <= i < |edges| ==> FirstObserved(events, n, edges[i]))
  }

  /** `now` adds to `was` new edges from locks of `stack` to the lock being acquired. */
  ghost predicate EdgesFrom(was: seq<LockEdge>, now: seq<LockEdge>, stack: seq<nat>, lockId: nat, thread: nat) {
    && |was| <= |now| && (forall i :: 0 <= i < |was| ==> now[i] == was[i])
    && forall i :: |was| <= i < |now| ==>
         now[i].to == lockId && now[i].thread == thread && now[i].from in stack && !HasEdge(was, now[i].from, lockId)
  }

  /** `now` is `was` with an edge to `lockId` from every lock on the stack. */
  ghost predicate EdgesAdded(was: seq<LockEdge>, now: seq<LockEdge>, stack: seq<nat>, lockId: nat, thread: nat) {
    && DistinctEdges(now) && EdgesFrom(was, now, stack, lockId, thread)
    && forall a: nat, b: nat :: HasEdge(now, a, b) <==> HasEdge(was, a, b) || (b == lockId && a in stack)
  }

  lemma NoEdgeYet(edges: seq<LockEdge>, lockId: nat, thread: nat)
    requires DistinctEdges(edges)
    ensures EdgesAdded(edges, edges, [], lockId, thread)
  {
    hide HasEdge, DistinctEdges;
  }

  lemma OneEdgeMore(
    was: seq<LockEdge>, now: seq<LockEdge>, more: seq<LockEdge>, stack: seq<nat>, a: nat, lockId: nat, thread: nat)
    requires EdgesAdded(was, now, stack, lockId, thread)
    requires more == if HasEdge(now, a, lockId) then now else now + [LockEdge(a, lockId, thread)]
    ensures EdgesAdded(was, more, stack + [a], lockId, thread)
  {
    hide HasEdge, DistinctEdges;
    EdgeAdded(now, LockEdge(a, lockId, thread));
  }

  lemma StaysChronological(nodes: seq<LockNode>, edges: seq<LockEdge>, events: seq<LockEvent>, n: nat)
    requires n < |events| && Chronological(nodes, edges, events, n)
    ensures Chronological(nodes, edges, events, n + 1)
  {
    hide Holds, Ordered;
    assert forall i :: 0 <= i < |nodes| ==> FirstAcquired(events, n, nodes[i]);
    assert forall i :: 0 <= i < |edges| ==> FirstObserved(events, n, edges[i]);
    forall i, j | 0 <= i < j < |nodes|
      ensures Sooner(events, n + 1, nodes[i].id, nodes[j].id)
    {
      assert Sooner(events, n, nodes[i].id, nodes[j].id);
    }
  }

  lemma NewNodeIsLast(nodes: seq<LockNode>, edges: seq<LockEdge>, events: seq<LockEvent>, n: nat)
    requires n < |events| && events[n].Acquire? && Chronological(nodes, edges, events, n)
    requires Describes(nodes, edges, events, n) && !HasNode(nodes, events[n].lockId)
    ensures Chronological(nodes + [LockNode(events[n].lockId, events[n].lockName)], edges, events, n + 1)
  {
    hide FirstObserved, Ordered, HasEdge;
    StaysChronological(nodes, edges, events, n);
    var m := LockNode(events[n].lockId, events[n].lockName);
    assert forall j :: 0 <= j < n ==> !IsAcquire(events[j], m.id);
    assert IsAcquire(events[n], m.id) && FirstAcquired(events, n + 1, m);
    var now := nodes + [m];
    forall i, j | 0 <= i < j < |now|
      ensures Sooner(events, n + 1, now[i].id, now[j].id)
    {
      if j < |nodes| {
        assert Sooner(events, n + 1, nodes[i].id, nodes[j].id);
      } else {
        assert FirstAcquired(events, n, nodes[i]);
      }
    }
  }

  lemma NewEdgesAreFirst(nodes: seq<LockNode>, edges: seq<LockEdge>, now: seq<LockEdge>, events: seq<LockEvent>, n: nat,
                         all: seq<LockNode>)
    requires n < |events| && events[n].Acquire? && Describes(nodes, edges, events, n)
    requires Chronological(all, edges, events, n + 1)
    requires EdgesFrom(edges, now, StackOf(Replay(events, n), events[n].thread), events[n].lockId, events[n].thread)
    ensures Chronological(all, now, events, n + 1)
  {
    hide Holds, Ordered, HasEdge, FirstAcquired, Sooner;
    forall i | 0 <= i < |now|
      ensures FirstObserved(events, n + 1, now[i])
    {
      if i >= |edges| {
        ReplayHolds(events, n, events[n].thread, now[i].from);
        assert HasEdge(edges, now[i].from, now[i].to) <==> Ordered(events, n, now[i].from, now[i].to);
        assert IsAcquire(events[n], now[i].to);
      } else {
        assert now[i] == edges[i] && FirstObserved(events, n + 1, edges[i]);
      }
    }
  }

  /** Both ends of every edge are nodes. */
  lemma EndsAreNodes(nodes: seq<LockNode>, edges: seq<LockEdge>, events: seq<LockEvent>, n: nat, a: nat, b: nat)
    requires n <= |events| && Describes(nodes, edges, events, n) && HasEdge(edges, a, b)
    ensures HasNode(nodes, a) && HasNode(nodes, b)
  {
    assert Ordered(events, n, a, b);
    var k :| 0 <= k < n && events[k].Acquire? && events[k].lockId == b && Holds(events, k, events[k].thread, a);
    var i :| 0 <= i < k && Acquires(events[i], events[k].thread, a);
  }

  lemma HasEdgeSnoc(edges: seq<LockEdge>, e: LockEdge, a: nat, b: nat)
    ensures HasEdge(edges + [e], a, b) <==> HasEdge(edges, a, b) || (e.from == a && e.to == b)
  {
    if HasEdge(edges, a, b) {
      var k :| 0 <= k < |edges| && edges[k].from == a && edges[k].to == b;
      assert (edges + [e])[k] == edges[k];
    }
    assert (edges + [e])[|edges|] == e;
  }

  lemma HasNodeSnoc(nodes: seq<LockNode>, m: LockNode, id: nat)
    ensures HasNode(nodes + [m], id) <==> HasNode(nodes, id) || m.id == id
  {
    if HasNode(nodes, id) {
      var k :| 0 <= k < |nodes| && nodes[k].id == id;
      assert (nodes + [m])[k] == nodes[k];
    }
    assert (nodes + [m])[|nodes|] == m;
  }

  class LockOrderRecorder {
    var events: seq<LockEvent>
    var held: HeldMap
    var names: map<nat, string>

    ghost predicate Valid()
      reads this
    {
      held == Replay(events, |events|)
    }

    constructor ()
      ensures Valid() && events == []
    {
      events, held, names := [], map[], map[];
    }

    /** The stacks kept from event to event are the replay of all events. */
    method Record(e: LockEvent)
      requires Valid()
      modifies this
      ensures Valid() && events == old(events) + [e]
      ensures names == if e.Acquire? then old(names)[e.lockId := e.lockName] else old(names)
    {
      ReplaySnoc(events, e);
      match e {
        case Acquire(t, a, name) =>
          names := names[a := name];
          held := held[t := StackOf(held, t) + [a]];
        case Release(t, a) =>
          if t in held { held := held[t := Without(held[t], a)]; }
      }
      events := events + [e];
    }

    /** Adds an edge from every lock on the stack to the lock being acquired. */
    method AddEdges(graph: LockGraph, stack: seq<nat>, lockId: nat, thread: nat)
      requires DistinctEdges(graph.edges)
      modifies graph`edges
      ensures DistinctEdges(graph.edges)
      ensures forall a: nat, b: nat :: HasEdge(graph.edges, a, b) <==>
                HasEdge(old(graph.edges), a, b) || (b == lockId && a in stack)
      ensures EdgesFrom(old(graph.edges), graph.edges, stack, lockId, thread)
    {
      hide HasEdge, DistinctEdges, EdgesFrom;
      ghost var was := graph.edges;
      NoEdgeYet(was, lockId, thread);
      for m := 0 to |stack|
        invariant EdgesAdded(was, graph.edges, stack[..m], lockId, thread)
      {
        hide EdgesAdded;
        ghost var now := graph.edges;
        graph.AddEdge(stack[m], lockId, thread);
        OneEdgeMore(was, now, graph.edges, stack[..m], stack[m], lockId, thread);
        assert stack[..m + 1] == stack[..m] + [stack[m]];
      }
      assert stack[..|stack|] == stack;
    }

    /**
     The edges are exactly the observed orderings, the nodes exactly the acquired locks, both
     labeled by their first event.
     */
    method BuildGraph() returns (graph: LockGraph)
      ensures fresh(graph) && Describes(graph.nodes, graph.edges, events, |events|)
      ensures Chronological(graph.nodes, graph.edges, events, |events|)
    {
      hide HasEdge, HasNode, Ordered, Holds, Chronological, EdgesFrom;
      graph := new LockGraph();
      var threadHeld: HeldMap := map[];
      NothingDescribed(events);
      for n := 0 to |events|
        invariant fresh(graph) && threadHeld == Replay(events, n)
        invariant Describes(graph.nodes, graph.edges, events, n) && Chronological(graph.nodes, graph.edges, events, n)
      {
        ghost var nodes, edges := graph.nodes, graph.edges;
        match events[n]
        case Acquire(t, lockId, name) =>
          graph.AddNode(lockId, name);
          var stack := StackOf(threadHeld, t);
          AddEdges(graph, stack, lockId, t);
          threadHeld := threadHeld[t := stack + [lockId]];
          AcquireDescribed(nodes, edges, graph.nodes, graph.edges, events, n);
          if HasNode(nodes, lockId) {
            StaysChronological(nodes, edges, events, n);
          } else {
            NewNodeIsLast(nodes, edges, events, n);
          }
          NewEdgesAreFirst(nodes, edges, graph.edges, events, n, graph.nodes);
        case Release(t, lockId) =>
          if t in threadHeld { threadHeld := threadHeld[t := Without(threadHeld[t], lockId)]; }
          ReleaseDescribed(nodes, edges, events, n);
          StaysChronological(nodes, edges, events, n);
      }
    }

    /**
     Every report is a ring of locks, each acquired while the one before it was held, and begins at a
     lock to which no lock acquired sooner leads. For each such ring there is exactly one report that
     begins and ends at the same locks.
     */
    method FindDeadlocks() returns (cycles: seq<Cycle>)
      ensures forall k :: 0 <= k < |cycles| ==>
                IsRing(events, cycles[k].lockIds) && IsFirst(events, cycles[k].lockIds[0])
      ensures forall c :: IsRing(events, c) && IsFirst(events, c[0]) ==> Reported(cycles, c[0], Last(c))
      ensures OneEach(cycles)
      ensures forall k :: 0 <= k < |cycles| ==> BearsFirstNames(events, cycles[k])
      ensures forall j, k :: 0 <= j < k < |cycles| ==> StartsNoLater(events, cycles[j], cycles[k])
    {
      var graph := BuildGraph();
      cycles := graph.FindCycles();
      hide IsAnswer, IsRing, IsFirst, Describes, Chronological, ComeInOrder, BearsFirstNames, StartsNoLater;
      forall k | 0 <= k < |cycles|
        ensures BearsFirstNames(events, cycles[k])
      {
        ReportBearsNames(graph.nodes, graph.edges, events, cycles, k);
      }
      forall j, k | 0 <= j < k < |cycles|
        ensures StartsNoLater(events, cycles[j], cycles[k])
      {
        ReportsInOrder(graph.nodes, graph.edges, events, cycles, j, k);
      }
      forall k | 0 <= k < |cycles|
        ensures IsRing(events, cycles[k].lockIds) && |cycles[k].lockIds| > 0 && IsFirst(events, cycles[k].lockIds[0])
      {
        ReportIsFirstRing(graph.nodes, graph.edges, events, cycles, k);
      }
      forall c | IsRing(events, c) && |c| > 0 && IsFirst(events, c[0])
        ensures Reported(cycles, c[0], Last(c))
      {
        FirstRingIsReported(graph.nodes, graph.edges, events, cycles, c);
      }
      AnswerIsOneEach(graph.nodes, graph.edges, cycles);
      RingsAreNotEmpty(events);
    }
  }

  /** Each lock of the report bears the name under which it was acquired first. */
  ghost predicate BearsFirstNames(events: seq<LockEvent>, c: Cycle) {
    && |c.lockNames| == |c.lockIds|
    && forall i :: 0 <= i < |c.lockIds| ==> FirstAcquired(events, |events|, LockNode(c.lockIds[i], c.lockNames[i]))
  }

  /** The first lock of `c` is that of `d`, or was acquired sooner. */
  ghost predicate StartsNoLater(events: seq<LockEvent>, c: Cycle, d: Cycle) {
    && |c.lockIds| > 0 && |d.lockIds| > 0
    && (c.lockIds[0] == d.lockIds[0] || Sooner(events, |events|, c.lockIds[0], d.lockIds[0]))
  }

  lemma ReportBearsNames(nodes: seq<LockNode>, edges: seq<LockEdge>, events: seq<LockEvent>, cycles: seq<Cycle>, k: nat)
    requires Describes(nodes, edges, events, |events|) && Chronological(nodes, edges, events, |events|)
    requires IsAnswer(nodes, edges, cycles) && k < |cycles|
    ensures BearsFirstNames(events, cycles[k])
  {
    var ids := cycles[k].lockIds;
    CycleLocksAreNodes(nodes, edges, events, cycles, k);
    hide Describes, IsCycle, FirstAcquired, Sooner, FirstObserved, ExactUpTo, OneEach, HasNode;
    NamesAre(nodes, ids);
    forall i | 0 <= i < |ids|
      ensures FirstAcquired(events, |events|, LockNode(ids[i], cycles[k].lockNames[i]))
    {
      var n :| 0 <= n < |nodes| && nodes[n] == LockNode(ids[i], cycles[k].lockNames[i]);
    }
  }

  lemma CycleLocksAreNodes(nodes: seq<LockNode>, edges: seq<LockEdge>, events: seq<LockEvent>, cycles: seq<Cycle>,
                           k: nat)
    requires Describes(nodes, edges, events, |events|) && IsAnswer(nodes, edges, cycles) && k < |cycles|
    ensures forall i :: 0 <= i < |cycles[k].lockIds| ==> HasNode(nodes, cycles[k].lockIds[i])
  {
    hide Describes, OneEach, ExactUpTo, Ordered, HasEdge, HasNode;
    var c := cycles[k].lockIds;
    CycleIsRing(nodes, edges, events, c);
    forall i | 0 <= i < |c|
      ensures HasNode(nodes, c[i])
    {
      var next := if i + 1 < |c| then i + 1 else 0;
      assert Ordered(events, |events|, c[i], c[next]);
      EdgeIsOrdered(nodes, edges, events, c[i], c[next]);
      EndsAreNodes(nodes, edges, events, |events|, c[i], c[next]);
    }
  }

  lemma EdgeIsOrdered(nodes: seq<LockNode>, edges: seq<LockEdge>, events: seq<LockEvent>, a: nat, b: nat)
    requires Describes(nodes, edges, events, |events|)
    ensures HasEdge(edges, a, b) <==> Ordered(events, |events|, a, b)
  {
    hide Ordered, HasEdge;
  }

  lemma ReportsInOrder(nodes: seq<LockNode>, edges: seq<LockEdge>, events: seq<LockEvent>, cycles: seq<Cycle>, j: nat,
                       k: nat)
    requires Chronological(nodes, edges, events, |events|) && ComeInOrder(nodes, cycles) && j < k < |cycles|
    ensures StartsNoLater(events, cycles[j], cycles[k])
  {
    hide Sooner, FirstAcquired, FirstObserved;
    var ranks :| Ranks(nodes, |nodes|, cycles, ranks);
    assert RankOf(nodes, |nodes|, cycles[j], ranks[j]) && RankOf(nodes, |nodes|, cycles[k], ranks[k]);
  }

  ghost predicate IsRing(events: seq<LockEvent>, c: seq<nat>) {
    && |c| >= 2 && Distinct(c)
    && forall i :: 0 <= i < |c| ==> Ordered(events, |events|, c[i], c[if i + 1 < |c| then i + 1 else 0])
  }

  lemma RingsAreNotEmpty(events: seq<LockEvent>)
    ensures forall c :: IsRing(events, c) ==> |c| > 0
  {
  }

  lemma AnswerIsOneEach(nodes: seq<LockNode>, edges: seq<LockEdge>, cycles: seq<Cycle>)
    requires IsAnswer(nodes, edges, cycles)
    ensures OneEach(cycles)
  {
  }

  /** A chain of observed orderings. */
  ghost predicate IsChain(events: seq<LockEvent>, p: seq<nat>) {
    |p| > 0 && forall i :: 0 <= i < |p| - 1 ==> Ordered(events, |events|, p[i], p[i + 1])
  }

  ghost predicate ChainFromTo(events: seq<LockEvent>, p: seq<nat>, a: nat, b: nat) {
    IsChain(events, p) && p[0] == a && Last(p) == b
  }

  /** Lock `a` leads to lock `b` by way of observed orderings. */
  ghost predicate Leads(events: seq<LockEvent>, a: nat, b: nat) {
    exists p :: ChainFromTo(events, p, a, b)
  }

  /** No lock that was acquired sooner leads to this one. */
  ghost predicate IsFirst(events: seq<LockEvent>, s: nat) {
    forall a :: Sooner(events, |events|, a, s) ==> !Leads(events, a, s)
  }

  lemma PathIsChain(nodes: seq<LockNode>, edges: seq<LockEdge>, events: seq<LockEvent>, p: seq<nat>, a: nat, b: nat)
    requires Describes(nodes, edges, events, |events|)
    ensures PathFromTo(edges, p, a, b) <==> ChainFromTo(events, p, a, b)
  {
    hide Ordered, HasEdge;
    assert forall i :: 0 <= i < |p| - 1 ==>
             (HasEdge(edges, p[i], p[i + 1]) <==> Ordered(events, |events|, p[i], p[i + 1]));
  }

  lemma ReachesIsLeads(nodes: seq<LockNode>, edges: seq<LockEdge>, events: seq<LockEvent>, a: nat, b: nat)
    requires Describes(nodes, edges, events, |events|)
    ensures Reaches(edges, a, b) <==> Leads(events, a, b)
  {
    hide Describes, PathFromTo, ChainFromTo;
    if Reaches(edges, a, b) {
      var p :| PathFromTo(edges, p, a, b);
      PathIsChain(nodes, edges, events, p, a, b);
    }
    if Leads(events, a, b) {
      var p :| ChainFromTo(events, p, a, b);
      PathIsChain(nodes, edges, events, p, a, b);
    }
  }

  lemma SoonerIsStrict(events: seq<LockEvent>, n: nat, a: nat, b: nat)
    requires n <= |events| && Sooner(events, n, a, b)
    ensures !Sooner(events, n, b, a)
  {
  }

  lemma AcquiredIsListed(nodes: seq<LockNode>, edges: seq<LockEdge>, events: seq<LockEvent>, k: nat, a: nat)
    requires Describes(nodes, edges, events, |events|) && k < |events| && IsAcquire(events[k], a)
    ensures HasNode(nodes, a)
  {
    hide HasNode, HasEdge, Ordered, DistinctNodes, DistinctEdges;
  }

  /** A listed lock that was acquired sooner is listed earlier. */
  lemma SoonerIsEarlier(nodes: seq<LockNode>, edges: seq<LockEdge>, events: seq<LockEvent>, a: nat, i: nat)
    returns (j: nat)
    requires Describes(nodes, edges, events, |events|) && Chronological(nodes, edges, events, |events|)
    requires i < |nodes| && Sooner(events, |events|, a, nodes[i].id)
    ensures j < i && nodes[j].id == a
  {
    hide Ordered, HasEdge, FirstObserved, FirstAcquired, DistinctNodes, DistinctEdges, IsAcquire;
    var k :| 0 <= k < |events| && IsAcquire(events[k], a)
             && forall m :: 0 <= m <= k ==> !IsAcquire(events[m], nodes[i].id);
    AcquiredIsListed(nodes, edges, events, k, a);
    j :| 0 <= j < |nodes| && nodes[j].id == a;
    hide Sooner, Describes;
    SoonerIsStrict(events, |events|, a, nodes[i].id);
  }

  lemma FreshIsFirst(nodes: seq<LockNode>, edges: seq<LockEdge>, events: seq<LockEvent>, i: nat)
    requires Describes(nodes, edges, events, |events|) && Chronological(nodes, edges, events, |events|)
    requires i < |nodes|
    ensures Fresh(nodes, edges, i) <==> IsFirst(events, nodes[i].id)
  {
    hide Describes, Leads, Reaches, Sooner, FirstAcquired, FirstObserved;
    if Fresh(nodes, edges, i) {
      forall a | Sooner(events, |events|, a, nodes[i].id)
        ensures !Leads(events, a, nodes[i].id)
      {
        var j := SoonerIsEarlier(nodes, edges, events, a, i);
        ReachesIsLeads(nodes, edges, events, a, nodes[i].id);
      }
    }
    if IsFirst(events, nodes[i].id) {
      forall j | 0 <= j < i
        ensures !Reaches(edges, nodes[j].id, nodes[i].id)
      {
        assert Sooner(events, |events|, nodes[j].id, nodes[i].id);
        ReachesIsLeads(nodes, edges, events, nodes[j].id, nodes[i].id);
      }
    }
  }

  lemma CycleIsRing(nodes: seq<LockNode>, edges: seq<LockEdge>, events: seq<LockEvent>, c: seq<nat>)
    requires Describes(nodes, edges, events, |events|)
    ensures IsCycle(edges, c) <==> IsRing(events, c)
  {
    hide Ordered, HasEdge;
    if IsCycle(edges, c) {
      forall i | 0 <= i < |c|
        ensures Ordered(events, |events|, c[i], c[if i + 1 < |c| then i + 1 else 0])
      {
        assert HasEdge(edges, c[i], c[if i + 1 < |c| then i + 1 else 0]);
      }
    }
    if IsRing(events, c) {
      forall i | 0 <= i < |c|
        ensures HasEdge(edges, c[i], c[if i + 1 < |c| then i + 1 else 0])
      {
        assert Ordered(events, |events|, c[i], c[if i + 1 < |c| then i + 1 else 0]);
      }
      assert forall i :: 0 <= i < |c| - 1 ==> HasEdge(edges, c[i], c[i + 1]);
    }
  }

  lemma ReportIsFirstRing(nodes: seq<LockNode>, edges: seq<LockEdge>, events: seq<LockEvent>, cycles: seq<Cycle>,
                          k: nat)
    requires Describes(nodes, edges, events, |events|) && Chronological(nodes, edges, events, |events|)
    requires IsAnswer(nodes, edges, cycles) && k < |cycles|
    ensures IsRing(events, cycles[k].lockIds)
    ensures |cycles[k].lockIds| > 0 && IsFirst(events, cycles[k].lockIds[0])
  {
    hide Describes, Chronological, IsRing, IsCycle, IsFirst, Fresh, LeadsBack;
    CycleIsRing(nodes, edges, events, cycles[k].lockIds);
    assert BeginsFresh(nodes, edges, |nodes|, cycles[k]);
    var i :| 0 <= i < |nodes| && Fresh(nodes, edges, i) && nodes[i].id == cycles[k].lockIds[0];
    FreshIsFirst(nodes, edges, events, i);
  }

  lemma FirstRingIsReported(nodes: seq<LockNode>, edges: seq<LockEdge>, events: seq<LockEvent>, cycles: seq<Cycle>,
                            c: seq<nat>)
    requires Describes(nodes, edges, events, |events|) && Chronological(nodes, edges, events, |events|)
    requires IsAnswer(nodes, edges, cycles) && |c| > 0 && IsRing(events, c) && IsFirst(events, c[0])
    ensures Reported(cycles, c[0], Last(c))
  {
    hide Describes, Chronological, IsRing, IsCycle, IsFirst, Fresh, LeadsBack, Reported;
    CycleIsRing(nodes, edges, events, c);
    CycleLeadsBack(edges, c);
    var i := RingBeginsListed(nodes, edges, events, c);
    FreshIsFirst(nodes, edges, events, i);
  }

  lemma RingBeginsListed(nodes: seq<LockNode>, edges: seq<LockEdge>, events: seq<LockEvent>, c: seq<nat>)
    returns (i: nat)
    requires Describes(nodes, edges, events, |events|) && IsRing(events, c)
    ensures i < |nodes| && nodes[i].id == c[0]
  {
    hide Ordered, HasEdge;
    assert Ordered(events, |events|, c[0], c[1]) && HasEdge(edges, c[0], c[1]);
    EndsAreNodes(nodes, edges, events, |events|, c[0], c[1]);
    i :| 0 <= i < |nodes| && nodes[i].id == c[0];
  }

  lemma EdgeAdded(was: seq<LockEdge>, e: LockEdge)
    ensures forall a, b :: HasEdge(was + [e], a, b) <==> HasEdge(was, a, b) || (e.from == a && e.to == b)
    ensures DistinctEdges(was) && !HasEdge(was, e.from, e.to) ==> DistinctEdges(was + [e])
  {
    forall a, b
      ensures HasEdge(was + [e], a, b) <==> HasEdge(was, a, b) || (e.from == a && e.to == b)
    {
      HasEdgeSnoc(was, e, a, b);
    }
    if DistinctEdges(was) && !HasEdge(was, e.from, e.to) {
      var now := was + [e];
      forall i, j | 0 <= i < j < |now|
        ensures now[i].from != now[j].from || now[i].to != now[j].to
      {
        if j == |was| { assert was[i].from != e.from || was[i].to != e.to; }
      }
    }
  }

  lemma NothingDescribed(events: seq<LockEvent>)
    ensures Describes([], [], events, 0) && Chronological([], [], events, 0)
  {
  }

  lemma AcquireDescribed(nodes: seq<LockNode>, edges: seq<LockEdge>, nodes': seq<LockNode>, edges': seq<LockEdge>,
                         events: seq<LockEvent>, n: nat)
    requires n < |events| && events[n].Acquire? && Describes(nodes, edges, events, n)
    requires var e := events[n];
             && nodes' == (if HasNode(nodes, e.lockId) then nodes else nodes + [LockNode(e.lockId, e.lockName)])
             && DistinctEdges(edges')
             && forall a: nat, b: nat :: HasEdge(edges', a, b) <==>
                  HasEdge(edges, a, b) || (b == e.lockId && a in StackOf(Replay(events, n), e.thread))
    ensures Describes(nodes', edges', events, n + 1)
  {
    hide HasEdge, Ordered, Holds;
    var e := events[n];
    forall a: nat, b: nat
      ensures HasEdge(edges', a, b) <==> Ordered(events, n + 1, a, b)
    {
      OrderedNext(events, n, a, b);
      ReplayHolds(events, n, e.thread, a);
    }
    forall id
      ensures HasNode(nodes', id) <==> exists k :: 0 <= k < n + 1 && events[k].Acquire? && events[k].lockId == id
    {
      if !HasNode(nodes, e.lockId) { HasNodeSnoc(nodes, LockNode(e.lockId, e.lockName), id); }
      assert e.lockId == id ==> events[n].lockId == id;
    }
  }

  lemma ReleaseDescribed(nodes: seq<LockNode>, edges: seq<LockEdge>, events: seq<LockEvent>, n: nat)
    requires n < |events| && events[n].Release? && Describes(nodes, edges, events, n)
    ensures Describes(nodes, edges, events, n + 1)
  {
    hide HasEdge, Ordered, Holds, HasNode;
    forall a: nat, b: nat
      ensures Ordered(events, n + 1, a, b) <==> Ordered(events, n, a, b)
    {
      OrderedNext(events, n, a, b);
    }
  }
}
