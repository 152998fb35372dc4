/** Longest-path layering of the graph layout: Kahn's algorithm with an array queue. */
module Layering {
  import opened AdjacencyLists
  import opened Digraph

  /** Some examined edge puts `v` exactly one layer above its source. */
  ghost predicate TightIn(seen: set<(nat, nat)>, layer: seq<nat>, v: nat)
    requires v < |layer|
  {
    exists u: nat :: (u, v) in seen && u < |layer| && layer[v] == layer[u] + 1
  }

  /** The layers satisfy the longest-path equations for the examined edges, all of which leave
      queued nodes. */
  ghost predicate Layered(layer: seq<nat>, queued: set<nat>, seen: set<(nat, nat)>)
  {
    && (forall e {:trigger e in seen} | e in seen ::
      e.0 < |layer| && e.1 < |layer| && e.0 in queued && layer[e.0] < layer[e.1])
    && (forall v: nat {:trigger TightIn(seen, layer, v)} | v < |layer| && layer[v] != 0 :: TightIn(seen, layer, v))
  }

  ghost predicate Distinct(queue: seq<nat>)
  {
    forall i, j | 0 <= i < j < |queue| :: queue[i] != queue[j]
  }

  ghost function Nodes(queue: seq<nat>): set<nat>
  {
    set v | v in queue
  }

  /** The queue holds, once each, the nodes with no remaining incoming edge. */
  ghost predicate QueueOk(queue: seq<nat>, indeg: seq<nat>)
  {
    Distinct(queue) && forall v: nat :: v in Nodes(queue) <==> v < |indeg| && indeg[v] == 0
  }

  /** Between iterations: the nodes before `head` are processed. */
  ghost predicate KahnOk(adj: Adjacency, indeg: seq<nat>, layer: seq<nat>, queue: seq<nat>, head: nat,
        seen: set<(nat, nat)>)
  {
    && head <= |queue| && |indeg| == |layer| == |adj| && InRange(adj, |adj|)
    && QueueOk(queue, indeg)
    && Layered(layer, Nodes(queue), seen)
    && (forall v: nat | v < |adj| :: indeg[v] == Inflow(adj, Nodes(queue[..head]), v, |adj|))
    && AllSeen(adj, Nodes(queue[..head]), seen)
    && seen <= EdgesOf(adj)
  }

  /** Every edge that leaves a processed node has been examined. */
  ghost predicate AllSeen(adj: Adjacency, done: set<nat>, seen: set<(nat, nat)>)
  {
    forall u: nat, v | u in done && u < |adj| && v in adj[u] :: (u, v) in seen
  }

  function Max(a: nat, b: nat): nat { if a < b then b else a }

  lemma RelaxLayered(layer: seq<nat>, queued: set<nat>, seen: set<(nat, nat)>, u: nat, v: nat)
    requires Layered(layer, queued, seen) && u in queued && u < |layer| && v < |layer| && v !in queued
    ensures Layered(layer[v := Max(layer[v], layer[u] + 1)], queued, seen + {(u, v)})
  {
    var layer' := layer[v := Max(layer[v], layer[u] + 1)];
    var seen' := seen + {(u, v)};
    forall e | e in seen' ensures e.0 < |layer| && e.1 < |layer| && e.0 in queued && layer'[e.0] < layer'[e.1] {
      if e != (u, v) {
        assert e in seen;
      }
    }
    forall w: nat | w < |layer| && layer'[w] != 0 ensures TightIn(seen', layer', w) {
      if layer'[w] == layer[w] {
        assert TightIn(seen, layer, w);
        var t: nat :| (t, w) in seen && t < |layer| && layer[w] == layer[t] + 1;
        assert (t, w) in seen' && layer'[t] == layer[t];
      } else {
        assert (u, w) in seen' && layer'[w] == layer'[u] + 1;
      }
    }
  }

  /** Halfway through the successors of `cur`: what the inner loop keeps. */
  ghost predicate RowOk(adj: Adjacency, done: set<nat>, cur: nat, j: nat,
                        indeg: seq<nat>, layer: seq<nat>, queue: seq<nat>, seen: set<(nat, nat)>)
  {
    && cur < |adj| && j <= |adj[cur]| && |indeg| == |layer| == |adj|
    && cur in Nodes(queue)
    && QueueOk(queue, indeg) && Layered(layer, Nodes(queue), seen)
    && (forall v: nat | v < |adj| ::
          indeg[v] == Inflow(adj, done + {cur}, v, |adj|) + multiset(adj[cur][j..])[v])
    && (forall v | v in adj[cur][..j] :: (cur, v) in seen)
    && seen <= EdgesOf(adj)
  }

  ghost function Decremented(indeg: seq<nat>, v: nat): seq<nat>
    requires v < |indeg| && 0 < indeg[v]
  {
    indeg[v := indeg[v] - 1]
  }

  /** The next successor still has an incoming edge left, so it is not queued yet. */
  lemma NextHasInflow(adj: Adjacency, done: set<nat>, cur: nat, j: nat,
                      indeg: seq<nat>, layer: seq<nat>, queue: seq<nat>, seen: set<(nat, nat)>)
    requires InRange(adj, |adj|) && RowOk(adj, done, cur, j, indeg, layer, queue, seen) && j < |adj[cur]|
    ensures adj[cur][j] < |adj| && 0 < indeg[adj[cur][j]] && adj[cur][j] !in Nodes(queue)
  {
    var next := adj[cur][j];
    assert next in adj[cur];
    assert adj[cur][j..][0] == next;
    assert next in multiset(adj[cur][j..]);
  }

  lemma RowCounts(adj: Adjacency, done: set<nat>, cur: nat, j: nat, indeg: seq<nat>)
    requires InRange(adj, |adj|) && cur < |adj| == |indeg| && j < |adj[cur]| && adj[cur][j] < |adj|
    requires forall v: nat | v < |adj| :: indeg[v] == Inflow(adj, done, v, |adj|) + multiset(adj[cur][j..])[v]
    ensures 0 < indeg[adj[cur][j]]
    ensures forall v: nat | v < |adj| ::
      Decremented(indeg, adj[cur][j])[v] == Inflow(adj, done, v, |adj|) + multiset(adj[cur][j + 1..])[v]
  {
    var next := adj[cur][j];
    assert adj[cur][j..] == [next] + adj[cur][j + 1..];
    assert multiset(adj[cur][j..]) == multiset{next} + multiset(adj[cur][j + 1..]);
  }

  /** Examining one successor: relax its layer, count its edge off, queue it when none is left. */
  lemma RowStep(adj: Adjacency, done: set<nat>, cur: nat, j: nat,
                indeg: seq<nat>, layer: seq<nat>, queue: seq<nat>, seen: set<(nat, nat)>)
    requires InRange(adj, |adj|) && RowOk(adj, done, cur, j, indeg, layer, queue, seen) && j < |adj[cur]|
    ensures adj[cur][j] < |adj| && 0 < indeg[adj[cur][j]]
    ensures
      var next := adj[cur][j];
      RowOk(adj, done, cur, j + 1, Decremented(indeg, next), layer[next := Max(layer[next], layer[cur] + 1)],
            if indeg[next] == 1 then queue + [next] else queue, seen + {(cur, next)})
  {
    NextHasInflow(adj, done, cur, j, indeg, layer, queue, seen);
    var next := adj[cur][j];
    var queue' := if indeg[next] == 1 then queue + [next] else queue;
    var layer' := layer[next := Max(layer[next], layer[cur] + 1)];
    RowCounts(adj, done + {cur}, cur, j, indeg);
    QueueNext(queue, indeg, next);
    RelaxLayered(layer, Nodes(queue), seen, cur, next);
    assert Nodes(queue) <= Nodes(queue');
  }

  lemma QueueNext(queue: seq<nat>, indeg: seq<nat>, next: nat)
    requires QueueOk(queue, indeg) && next < |indeg| && 0 < indeg[next]
    ensures QueueOk(if indeg[next] == 1 then queue + [next] else queue, Decremented(indeg, next))
  {
    if indeg[next] == 1 {
      assert next !in Nodes(queue);
      assert Nodes(queue + [next]) == Nodes(queue) + {next};
    }
  }

  /** Taking the node at `head` off the queue turns its outgoing edges into the remaining row. */
  lemma RowStart(adj: Adjacency, indeg: seq<nat>, layer: seq<nat>, queue: seq<nat>, head: nat, seen: set<(nat, nat)>)
    requires KahnOk(adj, indeg, layer, queue, head, seen) && head < |queue|
    ensures RowOk(adj, Nodes(queue[..head]), queue[head], 0, indeg, layer, queue, seen)
  {
    var cur := queue[head];
    var done := Nodes(queue[..head]);
    assert cur in Nodes(queue);
    assert cur !in done;
    forall v: nat | v < |adj|
      ensures indeg[v] == Inflow(adj, done + {cur}, v, |adj|) + multiset(adj[cur][0..])[v]
    {
      InflowDone(adj, done, cur, v, |adj|);
      assert adj[cur][0..] == adj[cur];
    }
  }

  lemma RowEnd(adj: Adjacency, indeg: seq<nat>, layer: seq<nat>, queue: seq<nat>, queue': seq<nat>, head: nat,
               seen: set<(nat, nat)>, seen': set<(nat, nat)>)
    requires InRange(adj, |adj|) && head < |queue| && queue <= queue' && queue[head] < |adj|
    requires AllSeen(adj, Nodes(queue[..head]), seen) && seen <= seen'
    requires RowOk(adj, Nodes(queue[..head]), queue[head], |adj[queue[head]]|, indeg, layer, queue', seen')
    ensures KahnOk(adj, indeg, layer, queue', head + 1, seen')
  {
    var cur := queue[head];
    assert queue'[..head + 1] == queue[..head] + [cur];
    assert Nodes(queue'[..head + 1]) == Nodes(queue[..head]) + {cur};
    assert adj[cur][|adj[cur]|..] == [] && adj[cur][..|adj[cur]|] == adj[cur];
  }

  /** The body of the main loop: processes the node at `head`. */
  method ProcessHead(adj: Adjacency, indeg: array<nat>, layer: array<nat>, queue: seq<nat>, head: nat,
        ghost seen: set<(nat, nat)>)
    returns (queue': seq<nat>, ghost seen': set<(nat, nat)>)
    requires indeg != layer && head < |queue|
    requires KahnOk(adj, indeg[..], layer[..], queue, head, seen)
    modifies indeg, layer
    ensures KahnOk(adj, indeg[..], layer[..], queue', head + 1, seen')
  {
    var cur := queue[head];
    queue', seen' := queue, seen;
    ghost var done := Nodes(queue[..head]);
    RowStart(adj, indeg[..], layer[..], queue, head, seen);
    for j := 0 to |adj[cur]|
      invariant queue <= queue' && seen <= seen'
      invariant RowOk(adj, done, cur, j, indeg[..], layer[..], queue', seen')
    {
      queue', seen' := ExamineSuccessor(adj, indeg, layer, queue', cur, j, done, seen');
    }
    RowEnd(adj, indeg[..], layer[..], queue, queue', head, seen, seen');
  }

  /** The body of the inner loop: examines one successor of the node being processed. */
  method ExamineSuccessor(adj: Adjacency, indeg: array<nat>, layer: array<nat>, queue: seq<nat>, cur: nat, j: nat,
                          ghost done: set<nat>, ghost seen: set<(nat, nat)>)
    returns (queue': seq<nat>, ghost seen': set<(nat, nat)>)
    requires indeg != layer && InRange(adj, |adj|) && cur < |adj| && j < |adj[cur]|
    requires RowOk(adj, done, cur, j, indeg[..], layer[..], queue, seen)
    modifies indeg, layer
    ensures queue <= queue' && seen <= seen'
    ensures RowOk(adj, done, cur, j + 1, indeg[..], layer[..], queue', seen')
  {
    var next := adj[cur][j];
    RowStep(adj, done, cur, j, indeg[..], layer[..], queue, seen);
    layer[next] := Max(layer[next], layer[cur] + 1);
    indeg[next] := indeg[next] - 1;
    queue' := if indeg[next] == 0 then queue + [next] else queue;
    seen' := seen + {(cur, next)};
    assert indeg[..] == Decremented(old(indeg[..]), next);
    assert layer[..] == old(layer[..])[next := Max(old(layer[next]), old(layer[cur]) + 1)];
  }

  /** When the queue is used up every node has been queued: a node left over would have an unprocessed
      predecessor, of higher finish rank, without end. */
  lemma {:induction false} AllQueued(adj: Adjacency, indeg: seq<nat>, layer: seq<nat>, queue: seq<nat>,
        seen: set<(nat, nat)>, rank: map<nat, nat>, top: nat, v: nat)
    requires KahnOk(adj, indeg, layer, queue, |queue|, seen)
    requires RankDescends(EdgesOf(adj), rank)
    requires forall u: nat | u < |adj| :: u in rank && rank[u] <= top
    requires v < |adj|
    ensures v in Nodes(queue)
    decreases top - rank[v]
  {
    assert queue[..|queue|] == queue;
    if v !in Nodes(queue) {
      InflowSource(adj, Nodes(queue), v, |adj|);
      var u: nat :| u < |adj| && u !in Nodes(queue) && v in adj[u];
      EdgeIffListed(adj, u, v);
      AllQueued(adj, indeg, layer, queue, seen, rank, top, u);
    }
  }

  ghost function LayerMap(layer: seq<nat>): map<nat, nat>
  {
    map v: nat | v < |layer| :: layer[v]
  }

  /** At the end the layer of every node is the length of the longest walk that ends there. */
  lemma KahnDone(adj: Adjacency, indeg: seq<nat>, layer: seq<nat>, queue: seq<nat>, seen: set<(nat, nat)>)
    requires KahnOk(adj, indeg, layer, queue, |queue|, seen)
    requires forall v: nat | v < |adj| :: v in Nodes(queue)
    ensures forall v: nat | v < |adj| :: IsLongestWalkTo(EdgesOf(adj), v, layer[v])
    ensures |queue| == |adj|
  {
    assert queue[..|queue|] == queue;
    forall u: nat, v: nat | (u, v) in EdgesOf(adj) ensures (u, v) in seen {
      EdgeIffListed(adj, u, v);
    }
    assert EdgesOf(adj) == seen;
    var m := LayerMap(layer);
    forall v | v in m && m[v] != 0 ensures HasTightPredecessor(EdgesOf(adj), m, v) {
      assert TightIn(seen, layer, v);
    }
    forall v: nat | v < |adj| ensures IsLongestWalkTo(EdgesOf(adj), v, layer[v]) {
      LayeringIsLongestWalk(EdgesOf(adj), m, v);
    }
    DistinctSize(queue);
    FullSetSize(Nodes(queue), |adj|);
  }

  lemma {:induction false} DistinctSize(queue: seq<nat>)
    requires Distinct(queue)
    ensures |Nodes(queue)| == |queue|
  {
    if queue != [] {
      var last := queue[|queue| - 1];
      var front := queue[..|queue| - 1];
      DistinctSize(front);
      assert Nodes(queue) == Nodes(front) + {last};
    }
  }

  /** Kahn's algorithm over the kept edges. `rank` witnesses that they hold no cycle. */
  method LongestPathLayers(adj: Adjacency, indeg: array<nat>, ghost rank: map<nat, nat>)
    returns (layer: array<nat>, queue: seq<nat>)
    requires InRange(adj, |adj|) && indeg.Length == |adj|
    requires forall v: nat | v < |adj| :: indeg[v] == Inflow(adj, {}, v, |adj|)
    requires RankDescends(EdgesOf(adj), rank) && forall u: nat | u < |adj| :: u in rank
    modifies indeg
    ensures fresh(layer) && layer.Length == |adj|
    ensures forall v: nat | v < |adj| :: IsLongestWalkTo(EdgesOf(adj), v, layer[v])
    ensures Distinct(queue) && |queue| == |adj| && forall v: nat :: v in Nodes(queue) <==> v < |adj|
  {
    var count := |adj|;
    layer := new nat[count](_ => 0);
    queue := [];
    for i := 0 to count
      invariant Distinct(queue) && forall v: nat :: v in Nodes(queue) <==> v < i && indeg[v] == 0
    {
      if indeg[i] == 0 {
        assert i !in Nodes(queue) && Nodes(queue + [i]) == Nodes(queue) + {i};
        queue := queue + [i];
      }
    }
    ghost var seen := {};
    assert Nodes(queue[..0]) == {};
    var head := 0;
    while head < |queue|
      invariant KahnOk(adj, indeg[..], layer[..], queue, head, seen)
      decreases count - head
    {
      QueueBound(adj, indeg[..], queue);
      queue, seen := ProcessHead(adj, indeg, layer, queue, head, seen);
      head := head + 1;
    }
    ghost var top := Bound(rank.Values);
    forall v: nat | v < count ensures v in Nodes(queue) {
      assert forall u: nat | u < count :: rank[u] in rank.Values;
      AllQueued(adj, indeg[..], layer[..], queue, seen, rank, top, v);
    }
    KahnDone(adj, indeg[..], layer[..], queue, seen);
  }

  lemma QueueBound(adj: Adjacency, indeg: seq<nat>, queue: seq<nat>)
    requires QueueOk(queue, indeg) && |indeg| == |adj|
    ensures |queue| <= |adj|
  {
    DistinctSize(queue);
    BoundedSetSize(Nodes(queue), |adj|);
  }

  ghost function Bound(s: set<nat>): (b: nat)
    ensures forall x | x in s :: x <= b
  {
    if s == {} then 0
    else
      var m :| m in s;
      assert forall x | x in s :: x == m || x in s - {m};
      Max(m, Bound(s - {m}))
  }
}
