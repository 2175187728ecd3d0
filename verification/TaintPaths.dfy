/**
 Taint paths: a breadth-first search from every source, with one visited set per
 source, that stops at sinks and at a depth cap.
 */
module TaintPaths {
  import opened Prelude

  datatype SourceKind = EnvVar | CliArg | FileRead | HttpRequest | UserInput | DbRead
  datatype SinkKind = FileWrite | HttpSend | Exec | DbQuery | Log | Deserialize

  datatype Node = Source(source: SourceKind) | Sink(sink: SinkKind) | Inter

  datatype Edge = Edge(from: nat, to: nat)

  datatype TaintPath = TaintPath(nodes: seq<nat>, sourceKind: SourceKind, sinkKind: SinkKind)

  datatype TaintGraph = TaintGraph(nodes: seq<Node>, edges: seq<Edge>)

  predicate HasEdge(g: TaintGraph, a: nat, b: nat) {
    exists k :: 0 <= k < |g.edges| && g.edges[k] == Edge(a, b)
  }

  predicate IsSink(g: TaintGraph, v: nat) {
    v < |g.nodes| && g.nodes[v].Sink?
  }

  function Last(p: seq<nat>): nat
    requires |p| > 0
  {
    p[|p| - 1]
  }

  // ----- What is to be found -----

  ghost predicate StepAt(g: TaintGraph, p: seq<nat>, i: nat)
    requires i + 1 < |p|
  {
    HasEdge(g, p[i], p[i + 1]) && !IsSink(g, p[i])
  }

  /** A path along edges from `src` that passes through no sink before its end. */
  ghost predicate FlowPath(g: TaintGraph, src: nat, p: seq<nat>) {
    |p| > 0 && p[0] == src && forall i :: 0 <= i < |p| - 1 ==> StepAt(g, p, i)
  }

  ghost predicate Shortest(g: TaintGraph, src: nat, p: seq<nat>)
    requires |p| > 0
  {
    forall q :: FlowPath(g, src, q) && Last(q) == Last(p) ==> |p| <= |q|
  }

  /** A path the search must report in some form: it reaches a sink within the cap. */
  ghost predicate Reportable(g: TaintGraph, src: nat, maxDepth: nat, p: seq<nat>) {
    FlowPath(g, src, p) && |p| <= maxDepth && IsSink(g, Last(p))
  }

  /**
   The search indexes the node list by every node it takes off the queue within the cap. It panics if
   an edge leads it to a node that is not listed.
   */
  ghost predicate SafeFrom(g: TaintGraph, src: nat, maxDepth: nat) {
    forall p :: FlowPath(g, src, p) && |p| <= maxDepth ==> Last(p) < |g.nodes|
  }

  ghost predicate GoodPath(g: TaintGraph, src: nat, maxDepth: nat, t: TaintPath) {
    && Reportable(g, src, maxDepth, t.nodes)
    && Shortest(g, src, t.nodes)
    && src < |g.nodes| && g.nodes[src] == Source(t.sourceKind)
    && g.nodes[Last(t.nodes)] == Sink(t.sinkKind)
  }

  /** Nothing but shortest paths, one for each sink within reach. */
  ghost predicate ExactFrom(g: TaintGraph, src: nat, maxDepth: nat, found: seq<TaintPath>) {
    && (forall k :: 0 <= k < |found| ==> GoodPath(g, src, maxDepth, found[k]))
    && (forall p :: Reportable(g, src, maxDepth, p) ==>
          exists k :: 0 <= k < |found| && Last(found[k].nodes) == Last(p))
    && (forall j, k :: 0 <= j < k < |found| ==> Last(found[j].nodes) != Last(found[k].nodes))
  }

  // ----- The state of one search -----

  type Adjacency = map<nat, seq<nat>>

  function Neighbors(adj: Adjacency, v: nat): seq<nat> {
    if v in adj then adj[v] else []
  }

  ghost predicate Represents(adj: Adjacency, g: TaintGraph) {
    forall a: nat, b: nat :: b in Neighbors(adj, a) <==> HasEdge(g, a, b)
  }

  datatype Entry = Entry(node: nat, path: seq<nat>)

  /** `best` records the path by which each visited node was first reached. */
  ghost predicate Reached(g: TaintGraph, src: nat, best: map<nat, seq<nat>>, v: nat)
    requires v in best
  {
    v in Universe(g, src) && FlowPath(g, src, best[v]) && Last(best[v]) == v
  }

  /** All nodes that a search from `src` may meet. */
  ghost function Universe(g: TaintGraph, src: nat): set<nat> {
    {src} + set k | 0 <= k < |g.edges| :: g.edges[k].to
  }

  lemma EdgeInUniverse(g: TaintGraph, src: nat, a: nat, b: nat)
    requires HasEdge(g, a, b)
    ensures b in Universe(g, src)
  {
  }

  ghost predicate AllReached(g: TaintGraph, src: nat, best: map<nat, seq<nat>>) {
    src in best && best[src] == [src] && forall v :: v in best ==> Reached(g, src, best, v)
  }

  ghost predicate QueueOk(best: map<nat, seq<nat>>, queue: seq<Entry>, low: nat) {
    && (forall i :: 0 <= i < |queue| ==> queue[i].node in best && queue[i].path == best[queue[i].node])
    && (forall i :: 0 <= i < |queue| ==> low <= |queue[i].path| <= low + 1)
    && (forall i, j :: 0 <= i < j < |queue| ==> |queue[i].path| <= |queue[j].path| && queue[i].node != queue[j].node)
  }

  ghost predicate Expanded(g: TaintGraph, best: map<nat, seq<nat>>, u: nat)
    requires u in best
  {
    forall w: nat :: HasEdge(g, u, w) ==> w in best && |best[w]| <= |best[u]| + 1
  }

  /** Nodes taken off the queue within the cap are listed, and have been expanded unless they are sinks. */
  ghost predicate DoneOk(g: TaintGraph, best: map<nat, seq<nat>>, done: set<nat>, maxDepth: nat, low: nat) {
    forall u :: u in done ==>
      && u in best && |best[u]| <= low
      && (|best[u]| <= maxDepth ==> u < |g.nodes| && (!IsSink(g, u) ==> Expanded(g, best, u)))
  }

  ghost predicate FoundOk(g: TaintGraph, src: nat, best: map<nat, seq<nat>>, done: set<nat>, maxDepth: nat,
                          found: seq<TaintPath>)
    requires src < |g.nodes| && g.nodes[src].Source?
  {
    && (forall k :: 0 <= k < |found| ==> FoundAt(g, src, best, done, maxDepth, found[k]))
    && (forall v :: v in done && v in best && IsSink(g, v) && |best[v]| <= maxDepth ==>
          exists k :: 0 <= k < |found| && |found[k].nodes| > 0 && Last(found[k].nodes) == v)
    && (forall j, k :: 0 <= j < k < |found| ==>
          |found[j].nodes| > 0 && |found[k].nodes| > 0 && Last(found[j].nodes) != Last(found[k].nodes))
  }

  ghost predicate FoundAt(g: TaintGraph, src: nat, best: map<nat, seq<nat>>, done: set<nat>, maxDepth: nat,
                          t: TaintPath)
    requires src < |g.nodes| && g.nodes[src].Source?
  {
    && 0 < |t.nodes| <= maxDepth
    && Last(t.nodes) in done && Last(t.nodes) in best && t.nodes == best[Last(t.nodes)]
    && Last(t.nodes) < |g.nodes| && g.nodes[Last(t.nodes)] == Sink(t.sinkKind)
    && t.sourceKind == g.nodes[src].source
  }

  // ----- Why the search is exact -----

  /** When the queue is empty every flow path within the cap ends at a node reached at least as early. */
  lemma {:induction false} EveryPathIsCovered(g: TaintGraph, src: nat, maxDepth: nat, best: map<nat, seq<nat>>,
                                              low: nat, p: seq<nat>)
    requires AllReached(g, src, best) && DoneOk(g, best, best.Keys, maxDepth, low)
    requires FlowPath(g, src, p) && |p| <= maxDepth
    ensures Last(p) in best && |best[Last(p)]| <= |p|
  {
    if |p| > 1 {
      var q := p[..|p| - 1];
      forall i | 0 <= i < |q| - 1
        ensures StepAt(g, q, i)
      {
        assert StepAt(g, p, i);
      }
      EveryPathIsCovered(g, src, maxDepth, best, low, q);
      assert StepAt(g, p, |p| - 2);
      assert Expanded(g, best, Last(q));
    }
  }

  lemma SearchIsExact(g: TaintGraph, src: nat, maxDepth: nat, best: map<nat, seq<nat>>, low: nat, found: seq<TaintPath>)
    requires src < |g.nodes| && g.nodes[src].Source?
    requires AllReached(g, src, best) && DoneOk(g, best, best.Keys, maxDepth, low)
    requires FoundOk(g, src, best, best.Keys, maxDepth, found)
    ensures ExactFrom(g, src, maxDepth, found) && SafeFrom(g, src, maxDepth)
  {
    forall p | FlowPath(g, src, p) && |p| <= maxDepth
      ensures Last(p) < |g.nodes|
    {
      EveryPathIsCovered(g, src, maxDepth, best, low, p);
    }
    forall k | 0 <= k < |found|
      ensures GoodPath(g, src, maxDepth, found[k])
    {
      var t := found[k];
      assert FoundAt(g, src, best, best.Keys, maxDepth, t);
      assert Reached(g, src, best, Last(t.nodes));
      forall q | FlowPath(g, src, q) && Last(q) == Last(t.nodes)
        ensures |t.nodes| <= |q|
      {
        if |q| <= maxDepth { EveryPathIsCovered(g, src, maxDepth, best, low, q); }
      }
    }
    forall p | Reportable(g, src, maxDepth, p)
      ensures exists k :: 0 <= k < |found| && Last(found[k].nodes) == Last(p)
    {
      EveryPathIsCovered(g, src, maxDepth, best, low, p);
    }
  }

  lemma PathExtends(g: TaintGraph, src: nat, p: seq<nat>, w: nat)
    requires FlowPath(g, src, p) && HasEdge(g, Last(p), w) && !IsSink(g, Last(p))
    ensures FlowPath(g, src, p + [w]) && Last(p + [w]) == w
  {
    var q := p + [w];
    forall i | 0 <= i < |q| - 1
      ensures StepAt(g, q, i)
    {
      if i < |p| - 1 { assert StepAt(g, p, i); }
    }
  }

  ghost function Queued(queue: seq<Entry>): set<nat> {
    set e | e in queue :: e.node
  }

  /** Every visited node is either done or waiting in the queue, behind paths of length `low` or one more. */
  ghost predicate Frontier(g: TaintGraph, src: nat, best: map<nat, seq<nat>>, queue: seq<Entry>, done: set<nat>,
                           low: nat) {
    && AllReached(g, src, best)
    && QueueOk(best, queue, low)
    && best.Keys == done + Queued(queue) && done !! Queued(queue)
  }

  lemma Enqueued(g: TaintGraph, src: nat, best: map<nat, seq<nat>>, queue: seq<Entry>, done: set<nat>, path: seq<nat>,
                 next: nat)
    requires next !in best && |path| > 0
    requires Frontier(g, src, best, queue, done, |path|)
    requires HasEdge(g, Last(path), next) && FlowPath(g, src, path + [next])
    ensures Frontier(g, src, best[next := path + [next]], queue + [Entry(next, path + [next])], done, |path|)
  {
    hide AllReached, QueueOk, Queued;
    ReachedGrows(g, src, best, path, next);
    QueueGrows(best, queue, done, path, next);
  }

  lemma ReachedGrows(g: TaintGraph, src: nat, best: map<nat, seq<nat>>, path: seq<nat>, next: nat)
    requires next !in best && |path| > 0 && AllReached(g, src, best)
    requires HasEdge(g, Last(path), next) && FlowPath(g, src, path + [next])
    ensures AllReached(g, src, best[next := path + [next]])
  {
    hide FlowPath, HasEdge, Universe;
    EdgeInUniverse(g, src, Last(path), next);
    var now := best[next := path + [next]];
    forall v | v in now
      ensures Reached(g, src, now, v)
    {
      if v != next { assert Reached(g, src, best, v); }
    }
  }

  lemma QueueGrows(best: map<nat, seq<nat>>, queue: seq<Entry>, done: set<nat>, path: seq<nat>, next: nat)
    requires next !in best && QueueOk(best, queue, |path|)
    requires best.Keys == done + Queued(queue) && done !! Queued(queue)
    ensures var e := Entry(next, path + [next]);
            var now, longer := best[next := e.path], queue + [e];
            QueueOk(now, longer, |path|) && now.Keys == done + Queued(longer) && done !! Queued(longer)
  {
    var e := Entry(next, path + [next]);
    var longer := queue + [e];
    assert Queued(longer) == Queued(queue) + {next} by {
      forall v | v in Queued(queue) + {next}
        ensures v in Queued(longer)
      {
        if v == next { assert e in longer; } else {
          var f :| f in queue && f.node == v;
          assert f in longer;
        }
      }
    }
  }

  // ----- The search -----

  /** Enqueues the unvisited neighbors of the node just taken off the queue. */
  method Expand(g: TaintGraph, ghost src: nat, neighbors: seq<nat>, cur: Entry, queue0: seq<Entry>, visited0: set<nat>,
                ghost best0: map<nat, seq<nat>>, ghost done: set<nat>)
    returns (queue: seq<Entry>, visited: set<nat>, ghost best: map<nat, seq<nat>>)
    requires visited0 == best0.Keys
    requires Frontier(g, src, best0, queue0, done, |cur.path|)
    requires cur.node in best0 && cur.path == best0[cur.node] && !IsSink(g, cur.node)
    requires forall w: nat :: w in neighbors <==> HasEdge(g, cur.node, w)
    requires forall v :: v in best0 ==> |best0[v]| <= |cur.path| + 1
    ensures visited == best.Keys && Frontier(g, src, best, queue, done, |cur.path|)
    ensures forall v :: v in best0 ==> v in best && best[v] == best0[v]
    ensures Expanded(g, best, cur.node)
  {
    hide Reached, QueueOk, FlowPath, IsSink, Universe;
    queue, visited, best := queue0, visited0, best0;
    for n := 0 to |neighbors|
      invariant visited == best.Keys && Frontier(g, src, best, queue, done, |cur.path|)
      invariant forall v :: v in best0 ==> v in best && best[v] == best0[v]
      invariant forall v :: v in best ==> |best[v]| <= |cur.path| + 1
      invariant forall k :: 0 <= k < n ==> neighbors[k] in best
    {
      var next := neighbors[n];
      assert next in neighbors;
      if next !in visited {
        EntryExtends(g, src, best, cur, next);
        Enqueued(g, src, best, queue, done, cur.path, next);
        visited := visited + {next};
        queue := queue + [Entry(next, cur.path + [next])];
        best := best[next := cur.path + [next]];
      }
    }
  }

  lemma EntryExtends(g: TaintGraph, src: nat, best: map<nat, seq<nat>>, cur: Entry, w: nat)
    requires AllReached(g, src, best) && cur.node in best && cur.path == best[cur.node]
    requires HasEdge(g, cur.node, w) && !IsSink(g, cur.node)
    ensures |cur.path| > 0 && Last(cur.path) == cur.node && FlowPath(g, src, cur.path + [w])
  {
    assert Reached(g, src, best, cur.node);
    PathExtends(g, src, cur.path, w);
  }

  /** The first queue entry moves to the done nodes. */
  lemma Dequeued(g: TaintGraph, src: nat, best: map<nat, seq<nat>>, queue: seq<Entry>, done: set<nat>, low: nat)
    requires Frontier(g, src, best, queue, done, low) && |queue| > 0
    ensures var cur := queue[0];
            && cur.node in best && cur.path == best[cur.node] && cur.node !in done && cur.node in Universe(g, src)
            && FlowPath(g, src, cur.path) && |cur.path| > 0 && Last(cur.path) == cur.node
            && low <= |cur.path|
            && Frontier(g, src, best, queue[1..], done + {cur.node}, |cur.path|)
  {
    hide QueueOk, Queued;
    QueueShrinks(best, queue, done, low);
    assert Reached(g, src, best, queue[0].node);
  }

  lemma QueueShrinks(best: map<nat, seq<nat>>, queue: seq<Entry>, done: set<nat>, low: nat)
    requires QueueOk(best, queue, low) && |queue| > 0
    requires best.Keys == done + Queued(queue) && done !! Queued(queue)
    ensures var cur, rest := queue[0], queue[1..];
            && cur.node in best && cur.path == best[cur.node] && cur.node !in done && low <= |cur.path|
            && QueueOk(best, rest, |cur.path|)
            && best.Keys == done + {cur.node} + Queued(rest) && done + {cur.node} !! Queued(rest)
  {
    hide QueueOk, Queued;
    FirstIsQueued(queue);
    FirstIsAlone(best, queue, low);
    RestIsOk(best, queue, low);
    FirstIsOk(best, queue, low);
  }

  lemma FirstIsQueued(queue: seq<Entry>)
    requires |queue| > 0
    ensures Queued(queue) == {queue[0].node} + Queued(queue[1..])
  {
    assert queue == [queue[0]] + queue[1..];
  }

  lemma FirstIsAlone(best: map<nat, seq<nat>>, queue: seq<Entry>, low: nat)
    requires QueueOk(best, queue, low) && |queue| > 0
    ensures queue[0].node !in Queued(queue[1..])
  {
    assert forall i :: 0 <= i < |queue[1..]| ==> queue[1..][i] == queue[i + 1];
  }

  lemma RestIsOk(best: map<nat, seq<nat>>, queue: seq<Entry>, low: nat)
    requires QueueOk(best, queue, low) && |queue| > 0
    ensures QueueOk(best, queue[1..], |queue[0].path|)
  {
  }

  lemma FirstIsOk(best: map<nat, seq<nat>>, queue: seq<Entry>, low: nat)
    requires QueueOk(best, queue, low) && |queue| > 0
    ensures queue[0].node in best && queue[0].path == best[queue[0].node] && low <= |queue[0].path|
  {
  }

  /** Taking a node off the queue respects the lengths, whatever is then done with it. */
  lemma DoneGrows(g: TaintGraph, src: nat, best: map<nat, seq<nat>>, done: set<nat>, maxDepth: nat, low: nat,
                  cur: Entry)
    requires DoneOk(g, best, done, maxDepth, low) && low <= |cur.path|
    requires cur.node in best && best[cur.node] == cur.path
    requires |cur.path| <= maxDepth ==> cur.node < |g.nodes| && (!IsSink(g, cur.node) ==> Expanded(g, best, cur.node))
    ensures DoneOk(g, best, done + {cur.node}, maxDepth, |cur.path|)
  {
  }

  lemma DoneStays(g: TaintGraph, best: map<nat, seq<nat>>, later: map<nat, seq<nat>>, done: set<nat>, maxDepth: nat,
                  low: nat)
    requires DoneOk(g, best, done, maxDepth, low)
    requires forall v :: v in best ==> v in later && later[v] == best[v]
    ensures DoneOk(g, later, done, maxDepth, low)
  {
    forall u | u in done
      ensures u in later && |later[u]| <= low
      ensures |later[u]| <= maxDepth ==> u < |g.nodes| && (!IsSink(g, u) ==> Expanded(g, later, u))
    {
      if |best[u]| <= maxDepth && !IsSink(g, u) { assert Expanded(g, best, u); }
    }
  }

  /** No visited node lies more than one step behind the node just taken off the queue. */
  lemma LengthsWithin(g: TaintGraph, src: nat, best: map<nat, seq<nat>>, queue: seq<Entry>, done: set<nat>,
                      maxDepth: nat, low: nat, cur: Entry)
    requires Frontier(g, src, best, queue, done + {cur.node}, |cur.path|)
    requires DoneOk(g, best, done, maxDepth, low) && low <= |cur.path|
    requires cur.node in best && best[cur.node] == cur.path
    ensures forall v :: v in best ==> |best[v]| <= |cur.path| + 1
  {
    forall v | v in best
      ensures |best[v]| <= |cur.path| + 1
    {
      if v !in done + {cur.node} { assert v in Queued(queue); }
    }
  }

  lemma FoundStays(g: TaintGraph, src: nat, best: map<nat, seq<nat>>, later: map<nat, seq<nat>>, done: set<nat>,
                   cur: nat, maxDepth: nat, found: seq<TaintPath>)
    requires src < |g.nodes| && g.nodes[src].Source?
    requires FoundOk(g, src, best, done, maxDepth, found)
    requires done <= best.Keys && cur in best && (IsSink(g, cur) ==> |best[cur]| > maxDepth)
    requires forall v :: v in best ==> v in later && later[v] == best[v]
    ensures FoundOk(g, src, later, done + {cur}, maxDepth, found)
  {
    forall k | 0 <= k < |found|
      ensures FoundAt(g, src, later, done + {cur}, maxDepth, found[k])
    {
      assert FoundAt(g, src, best, done, maxDepth, found[k]);
    }
  }

  lemma FoundGrows(g: TaintGraph, src: nat, best: map<nat, seq<nat>>, done: set<nat>, cur: Entry, maxDepth: nat,
                   found: seq<TaintPath>, t: TaintPath)
    requires src < |g.nodes| && g.nodes[src].Source?
    requires FoundOk(g, src, best, done, maxDepth, found)
    requires done <= best.Keys && cur.node in best && cur.path == best[cur.node] && cur.node !in done
    requires 0 < |cur.path| <= maxDepth && Last(cur.path) == cur.node && IsSink(g, cur.node)
    requires t == TaintPath(cur.path, g.nodes[src].source, g.nodes[cur.node].sink)
    ensures FoundOk(g, src, best, done + {cur.node}, maxDepth, found + [t])
  {
    var more := found + [t];
    forall k | 0 <= k < |more|
      ensures FoundAt(g, src, best, done + {cur.node}, maxDepth, more[k])
    {
      if k < |found| { assert FoundAt(g, src, best, done, maxDepth, found[k]); }
    }
    forall v | v in done + {cur.node} && v in best && IsSink(g, v) && |best[v]| <= maxDepth
      ensures exists k :: 0 <= k < |more| && |more[k].nodes| > 0 && Last(more[k].nodes) == v
    {
      if v == cur.node {
        assert more[|found|] == t;
      } else {
        var k :| 0 <= k < |found| && |found[k].nodes| > 0 && Last(found[k].nodes) == v;
        assert more[k] == found[k];
      }
    }
    forall j, k | 0 <= j < k < |more|
      ensures |more[j].nodes| > 0 && |more[k].nodes| > 0 && Last(more[j].nodes) != Last(more[k].nodes)
    {
      assert FoundAt(g, src, best, done, maxDepth, found[j]);
    }
  }

  /** Shorter paths come first. */
  predicate LengthsGrow(paths: seq<TaintPath>) {
    forall j, k :: 0 <= j < k < |paths| ==> |paths[j].nodes| <= |paths[k].nodes|
  }

  predicate NoneLonger(paths: seq<TaintPath>, n: nat) {
    forall k :: 0 <= k < |paths| ==> |paths[k].nodes| <= n
  }

  lemma NothingFound()
    ensures LengthsGrow([]) && NoneLonger([], 1)
  {
  }

  lemma FoundInOrder(found: seq<TaintPath>, t: TaintPath, level: nat)
    requires LengthsGrow(found) && NoneLonger(found, level) && level <= |t.nodes|
    ensures LengthsGrow(found + [t]) && NoneLonger(found + [t], |t.nodes|)
  {
  }

  lemma StillNoneLonger(found: seq<TaintPath>, level: nat, low: nat)
    requires NoneLonger(found, level) && level <= low
    ensures NoneLonger(found, low)
  {
  }

  /** Breadth-first search from one source. There is no result when it panics. */
  method SearchFrom(g: TaintGraph, adj: Adjacency, src: nat, maxDepth: nat) returns (result: Option<seq<TaintPath>>)
    requires Represents(adj, g) && src < |g.nodes| && g.nodes[src].Source?
    ensures result.Some? <==> SafeFrom(g, src, maxDepth)
    ensures result.Some? ==> ExactFrom(g, src, maxDepth, result.value) && LengthsGrow(result.value)
  {
    hide SafeFrom, Universe, FlowPath, AllReached, QueueOk, DoneOk, FoundOk, ExactFrom, Expanded, Frontier,
         LengthsGrow, NoneLonger;
    NothingFound();
    var queue := [Entry(src, [src])];
    var visited := {src};
    var found: seq<TaintPath> := [];
    ghost var best: map<nat, seq<nat>> := map[src := [src]];
    ghost var done: set<nat>, low: nat := {}, 1;
    SearchStarts(g, src, maxDepth);
    while |queue| > 0
      invariant visited == best.Keys && Frontier(g, src, best, queue, done, low)
      invariant DoneOk(g, best, done, maxDepth, low) && FoundOk(g, src, best, done, maxDepth, found)
      invariant done <= best.Keys && done <= Universe(g, src)
      invariant LengthsGrow(found) && NoneLonger(found, low)
      decreases Universe(g, src) - done
    {
      var cur := queue[0];
      ghost var was, before, level := best, done, low;
      Dequeued(g, src, best, queue, done, low);
      queue := queue[1..];
      done, low := done + {cur.node}, |cur.path|;
      StillNoneLonger(found, level, low);
      if |cur.path| > maxDepth {
        DoneGrows(g, src, best, before, maxDepth, level, cur);
        FoundStays(g, src, best, best, before, cur.node, maxDepth, found);
        continue;
      }
      if cur.node >= |g.nodes| {
        PathIsUnsafe(g, src, maxDepth, cur.path);
        return None;
      }
      if g.nodes[cur.node].Sink? {
        if cur.node != src {
          var t := TaintPath(cur.path, g.nodes[src].source, g.nodes[cur.node].sink);
          EntryEnds(g, src, best, queue, done, low, cur);
          DoneGrows(g, src, best, before, maxDepth, level, cur);
          FoundGrows(g, src, best, before, cur, maxDepth, found, t);
          FoundInOrder(found, t, low);
          found := found + [t];
          continue;
        }
      }
      LengthsWithin(g, src, best, queue, before, maxDepth, level, cur);
      queue, visited, best := Expand(g, src, Neighbors(adj, cur.node), cur, queue, visited, best, done);
      DoneStays(g, was, best, before, maxDepth, level);
      DoneGrows(g, src, best, before, maxDepth, level, cur);
      FoundStays(g, src, was, best, before, cur.node, maxDepth, found);
    }
    QueueEmpty(g, src, best, done, low);
    SearchIsExact(g, src, maxDepth, best, low, found);
    result := Some(found);
  }

  lemma PathIsUnsafe(g: TaintGraph, src: nat, maxDepth: nat, p: seq<nat>)
    requires FlowPath(g, src, p) && 0 < |p| <= maxDepth && Last(p) >= |g.nodes|
    ensures !SafeFrom(g, src, maxDepth)
  {
  }

  lemma SearchStarts(g: TaintGraph, src: nat, maxDepth: nat)
    requires src < |g.nodes| && g.nodes[src].Source?
    ensures var best: map<nat, seq<nat>> := map[src := [src]];
            && Frontier(g, src, best, [Entry(src, [src])], {}, 1)
            && DoneOk(g, best, {}, maxDepth, 1) && FoundOk(g, src, best, {}, maxDepth, [])
  {
    var best: map<nat, seq<nat>>, queue := map[src := [src]], [Entry(src, [src])];
    assert queue[0] in queue && Queued(queue) == {src};
    assert Reached(g, src, best, src);
  }

  lemma QueueEmpty(g: TaintGraph, src: nat, best: map<nat, seq<nat>>, done: set<nat>, low: nat)
    requires Frontier(g, src, best, [], done, low)
    ensures AllReached(g, src, best) && done == best.Keys
  {
  }

  lemma EntryEnds(g: TaintGraph, src: nat, best: map<nat, seq<nat>>, queue: seq<Entry>, done: set<nat>, low: nat,
                  cur: Entry)
    requires Frontier(g, src, best, queue, done, low) && cur.node in best && cur.path == best[cur.node]
    ensures |cur.path| > 0 && Last(cur.path) == cur.node
  {
    assert Reached(g, src, best, cur.node);
  }

  // ----- All sources -----

  method BuildAdjacency(g: TaintGraph) returns (adj: Adjacency)
    ensures Represents(adj, g)
  {
    adj := map[];
    for n := 0 to |g.edges|
      invariant forall a: nat, b: nat :: b in Neighbors(adj, a) <==> exists k :: 0 <= k < n && g.edges[k] == Edge(a, b)
    {
      var e := g.edges[n];
      adj := adj[e.from := Neighbors(adj, e.from) + [e.to]];
    }
  }

  /** For each source exactly its shortest paths to the sinks within reach. */
  ghost predicate Exact(g: TaintGraph, maxDepth: nat, sources: nat, paths: seq<TaintPath>) {
    && (forall k :: 0 <= k < |paths| ==>
          |paths[k].nodes| > 0 && paths[k].nodes[0] < sources && GoodPath(g, paths[k].nodes[0], maxDepth, paths[k]))
    && (forall src, p :: 0 <= src < sources && IsSource(g, src) && Reportable(g, src, maxDepth, p) ==>
          exists k :: 0 <= k < |paths| && Joins(paths[k].nodes, src, Last(p)))
    && (forall j, k :: 0 <= j < k < |paths| ==> !Joins(paths[j].nodes, paths[k].nodes[0], Last(paths[k].nodes)))
  }

  predicate IsSource(g: TaintGraph, v: nat) {
    v < |g.nodes| && g.nodes[v].Source?
  }

  predicate Joins(p: seq<nat>, a: nat, b: nat) {
    |p| > 0 && p[0] == a && Last(p) == b
  }

  lemma StartsAtSource(g: TaintGraph, maxDepth: nat, src: nat, found: seq<TaintPath>)
    requires ExactFrom(g, src, maxDepth, found)
    ensures forall k :: 0 <= k < |found| ==>
              |found[k].nodes| > 0 && found[k].nodes[0] == src && GoodPath(g, src, maxDepth, found[k])
    ensures forall j, k :: 0 <= j < k < |found| ==> Last(found[j].nodes) != Last(found[k].nodes)
  {
  }

  lemma NextSource(g: TaintGraph, maxDepth: nat, src: nat, paths: seq<TaintPath>, found: seq<TaintPath>)
    requires Exact(g, maxDepth, src, paths)
    requires if IsSource(g, src) then ExactFrom(g, src, maxDepth, found) else found == []
    ensures Exact(g, maxDepth, src + 1, paths + found)
  {
    hide GoodPath, IsSource, IsSink, StepAt, Shortest;
    var all := paths + found;
    if |found| > 0 { StartsAtSource(g, maxDepth, src, found); }
    forall s, p | 0 <= s < src + 1 && IsSource(g, s) && Reportable(g, s, maxDepth, p)
      ensures exists k :: 0 <= k < |all| && Joins(all[k].nodes, s, Last(p))
    {
      if s == src {
        var k :| 0 <= k < |found| && Last(found[k].nodes) == Last(p);
        assert Joins(all[|paths| + k].nodes, s, Last(p));
      } else {
        var k :| 0 <= k < |paths| && Joins(paths[k].nodes, s, Last(p));
        assert Joins(all[k].nodes, s, Last(p));
      }
    }
  }

  /** No source leads to an unlisted node within the cap. */
  ghost predicate Safe(g: TaintGraph, maxDepth: nat, sources: nat) {
    forall src :: 0 <= src < sources && IsSource(g, src) ==> SafeFrom(g, src, maxDepth)
  }

  /** Paths come source by source as the nodes are listed, and the paths of one source shorter ones first. */
  predicate InOrder(paths: seq<TaintPath>) {
    forall j, k :: 0 <= j < k < |paths| ==> ComesFirst(paths[j].nodes, paths[k].nodes)
  }

  predicate ComesFirst(p: seq<nat>, q: seq<nat>) {
    |p| > 0 && |q| > 0 && (p[0] < q[0] || (p[0] == q[0] && |p| <= |q|))
  }

  lemma NextInOrder(g: TaintGraph, maxDepth: nat, src: nat, paths: seq<TaintPath>, found: seq<TaintPath>)
    requires Exact(g, maxDepth, src, paths) && InOrder(paths)
    requires if IsSource(g, src) then ExactFrom(g, src, maxDepth, found) && LengthsGrow(found) else found == []
    ensures InOrder(paths + found)
  {
    hide GoodPath, IsSource, IsSink, StepAt, Shortest;
    if |found| > 0 { StartsAtSource(g, maxDepth, src, found); }
  }

  /** All taint paths of the graph, source by source. There is no result when a search panics. */
  method FindTaintPaths(g: TaintGraph, maxDepth: nat) returns (result: Option<seq<TaintPath>>)
    ensures result.Some? <==> Safe(g, maxDepth, |g.nodes|)
    ensures result.Some? ==> Exact(g, maxDepth, |g.nodes|, result.value) && InOrder(result.value)
  {
    hide ExactFrom, Exact, SafeFrom, LengthsGrow;
    var adj := BuildAdjacency(g);
    var paths: seq<TaintPath> := [];
    NoSources(g, maxDepth);
    for src := 0 to |g.nodes|
      invariant Exact(g, maxDepth, src, paths) && Safe(g, maxDepth, src) && InOrder(paths)
    {
      var found: Option<seq<TaintPath>> := Some([]);
      if g.nodes[src].Source? {
        found := SearchFrom(g, adj, src, maxDepth);
        if found.None? { return None; }
      }
      NextSource(g, maxDepth, src, paths, found.value);
      NextInOrder(g, maxDepth, src, paths, found.value);
      paths := paths + found.value;
    }
    result := Some(paths);
  }

  /** A cap of one leaves no room for any path: not even for the single hop from a source to a sink. */
  lemma CapCountsNodes(g: TaintGraph, paths: seq<TaintPath>)
    requires Exact(g, 1, |g.nodes|, paths)
    ensures |paths| == 0
    ensures Reportable(TaintGraph([Source(EnvVar), Sink(Exec)], [Edge(0, 1)]), 0, 2, [0, 1])
  {
    hide GoodPath;
    var hop := TaintGraph([Source(EnvVar), Sink(Exec)], [Edge(0, 1)]);
    assert hop.edges[0] == Edge(0, 1) && hop.nodes[0] == Source(EnvVar) && hop.nodes[1] == Sink(Exec);
    if |paths| > 0 { NoSingleNode(g, paths[0].nodes[0], paths[0]); }
  }

  /** An edge from a source to a node that is not listed makes the search panic. */
  lemma UnlistedTargetPanics()
    ensures !Safe(TaintGraph([Source(EnvVar)], [Edge(0, 7)]), 2, 1)
  {
    var g := TaintGraph([Source(EnvVar)], [Edge(0, 7)]);
    assert g.edges[0] == Edge(0, 7) && g.nodes[0] == Source(EnvVar);
    assert StepAt(g, [0, 7], 0) && FlowPath(g, 0, [0, 7]);
    PathIsUnsafe(g, 0, 2, [0, 7]);
    assert IsSource(g, 0);
  }

  const TWO_SINKS: TaintGraph :=
    TaintGraph([Source(EnvVar), Sink(FileWrite), Sink(Exec)], [Edge(0, 1), Edge(1, 2)])

  lemma EdgesOfTwoSinks(a: nat, b: nat)
    ensures HasEdge(TWO_SINKS, a, b) <==> (a == 0 && b == 1) || (a == 1 && b == 2)
  {
    assert TWO_SINKS.edges[0] == Edge(0, 1) && TWO_SINKS.edges[1] == Edge(1, 2);
  }

  /** A sink ends the flow: what a file write leads to is not reported behind it. */
  lemma SinksEndFlows(p: seq<nat>)
    requires FlowPath(TWO_SINKS, 0, p) && IsSink(TWO_SINKS, Last(p))
    ensures p == [0, 1]
  {
    hide HasEdge;
    assert |p| > 1 ==> StepAt(TWO_SINKS, p, 0);
    assert |p| > 2 ==> StepAt(TWO_SINKS, p, 1);
    if |p| > 1 { EdgesOfTwoSinks(p[0], p[1]); }
  }

  lemma NoSingleNode(g: TaintGraph, src: nat, t: TaintPath)
    ensures !GoodPath(g, src, 1, t)
  {
  }

  lemma NoSources(g: TaintGraph, maxDepth: nat)
    ensures Exact(g, maxDepth, 0, []) && Safe(g, maxDepth, 0)
  {
  }
}
