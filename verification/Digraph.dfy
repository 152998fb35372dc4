/** Finite directed graphs given by their set of edges: walks, reachability, acyclicity,
    longest walks. Shared by the graph layout and by the role inheritance graph. */
module Digraph {

  /** A non-empty sequence of nodes in which every neighbouring pair is an edge. */
  ghost predicate IsWalk<N>(edges: set<(N, N)>, walk: seq<N>)
  {
    && 0 < |walk|
    && forall i | 0 <= i < |walk| - 1 :: IsStep(edges, walk, i)
  }

  ghost predicate IsStep<N>(edges: set<(N, N)>, walk: seq<N>, i: nat)
    requires i + 1 < |walk|
  {
    (walk[i], walk[i + 1]) in edges
  }

  ghost function Last<N>(walk: seq<N>): N
    requires 0 < |walk|
  {
    walk[|walk| - 1]
  }

  ghost predicate WalkFromTo<N>(edges: set<(N, N)>, walk: seq<N>, source: N, target: N)
  {
    IsWalk(edges, walk) && walk[0] == source && Last(walk) == target
  }

  /** Reflexive-transitive closure of the edge relation. */
  ghost predicate Reaches<N(!new)>(edges: set<(N, N)>, source: N, target: N)
  {
    exists walk :: WalkFromTo(edges, walk, source, target)
  }

  lemma FirstStep<N>(edges: set<(N, N)>, walk: seq<N>)
    requires IsWalk(edges, walk) && 1 < |walk|
    ensures (walk[0], walk[1]) in edges && IsWalk(edges, walk[1..])
  {
    assert IsStep(edges, walk, 0);
    forall i | 0 <= i < |walk| - 2 ensures IsStep(edges, walk[1..], i) {
      assert IsStep(edges, walk, i + 1);
    }
  }

  lemma LastStep<N>(edges: set<(N, N)>, walk: seq<N>)
    requires IsWalk(edges, walk) && 1 < |walk|
    ensures (walk[|walk| - 2], walk[|walk| - 1]) in edges && IsWalk(edges, walk[..|walk| - 1])
  {
    assert IsStep(edges, walk, |walk| - 2);
    var front := walk[..|walk| - 1];
    forall i | 0 <= i < |front| - 1 ensures IsStep(edges, front, i) {
      assert IsStep(edges, walk, i);
    }
  }

  lemma ExtendWalk<N>(edges: set<(N, N)>, walk: seq<N>, next: N)
    requires IsWalk(edges, walk) && (Last(walk), next) in edges
    ensures IsWalk(edges, walk + [next]) && Last(walk + [next]) == next
  {
    forall i | 0 <= i < |walk| ensures IsStep(edges, walk + [next], i) {
      if i < |walk| - 1 {
        assert IsStep(edges, walk, i);
      }
    }
  }

  ghost predicate Acyclic<N(!new)>(edges: set<(N, N)>)
  {
    forall walk: seq<N> | IsWalk(edges, walk) && 1 < |walk| :: walk[0] != Last(walk)
  }

  lemma ReachesSelf<N(!new)>(edges: set<(N, N)>, node: N)
    ensures Reaches(edges, node, node)
  {
    assert WalkFromTo(edges, [node], node, node);
  }

  lemma ReachesEdge<N(!new)>(edges: set<(N, N)>, source: N, target: N)
    requires (source, target) in edges
    ensures Reaches(edges, source, target)
  {
    assert WalkFromTo(edges, [source, target], source, target);
  }

  /** Two walks that meet join into one. */
  lemma JoinWalks<N>(edges: set<(N, N)>, front: seq<N>, back: seq<N>)
    requires IsWalk(edges, front) && IsWalk(edges, back) && Last(front) == back[0]
    ensures IsWalk(edges, front + back[1..])
    ensures (front + back[1..])[0] == front[0] && Last(front + back[1..]) == Last(back)
  {
    var walk := front + back[1..];
    forall i | 0 <= i < |walk| - 1 ensures IsStep(edges, walk, i) {
      if i < |front| - 1 {
        assert IsStep(edges, front, i);
      } else {
        assert IsStep(edges, back, i - |front| + 1);
      }
    }
  }

  lemma ReachesTransitive<N(!new)>(edges: set<(N, N)>, a: N, b: N, c: N)
    requires Reaches(edges, a, b) && Reaches(edges, b, c)
    ensures Reaches(edges, a, c)
  {
    var front :| WalkFromTo(edges, front, a, b);
    var back :| WalkFromTo(edges, back, b, c);
    JoinWalks(edges, front, back);
    assert WalkFromTo(edges, front + back[1..], a, c);
  }

  lemma ReachesMonotone<N(!new)>(edges: set<(N, N)>, more: set<(N, N)>, a: N, b: N)
    requires edges <= more && Reaches(edges, a, b)
    ensures Reaches(more, a, b)
  {
    var walk :| WalkFromTo(edges, walk, a, b);
    forall i | 0 <= i < |walk| - 1 ensures IsStep(more, walk, i) {
      assert IsStep(edges, walk, i);
    }
    assert WalkFromTo(more, walk, a, b);
  }

  /** A set that holds the start of a walk and is closed under edges holds its end. */
  lemma {:induction false} ClosedUnderWalk<N>(edges: set<(N, N)>, closed: set<N>, walk: seq<N>)
    requires IsWalk(edges, walk) && walk[0] in closed
    requires forall e {:trigger e in edges} | e in edges && e.0 in closed :: e.1 in closed
    ensures Last(walk) in closed
    decreases |walk|
  {
    if |walk| == 1 {
    } else {
      FirstStep(edges, walk);
      ClosedUnderWalk(edges, closed, walk[1..]);
    }
  }

  lemma ClosedUnderReach<N(!new)>(edges: set<(N, N)>, closed: set<N>, a: N, b: N)
    requires Reaches(edges, a, b) && a in closed
    requires forall e {:trigger e in edges} | e in edges && e.0 in closed :: e.1 in closed
    ensures b in closed
  {
    var walk :| WalkFromTo(edges, walk, a, b);
    ClosedUnderWalk(edges, closed, walk);
  }

  /** Every edge leads to a node of strictly smaller rank, as a depth-first finish order does. */
  ghost predicate RankDescends<N>(edges: set<(N, N)>, rank: map<N, nat>)
  {
    forall e {:trigger e in edges} | e in edges :: e.0 in rank && e.1 in rank && rank[e.1] < rank[e.0]
  }

  lemma {:induction false} WalkDescends<N>(edges: set<(N, N)>, rank: map<N, nat>, walk: seq<N>)
    requires RankDescends(edges, rank) && IsWalk(edges, walk) && 1 < |walk|
    ensures walk[0] in rank && Last(walk) in rank && rank[Last(walk)] < rank[walk[0]]
    decreases |walk|
  {
    FirstStep(edges, walk);
    if 2 < |walk| {
      WalkDescends(edges, rank, walk[1..]);
    }
  }

  /** A finish order is a certificate of acyclicity. */
  lemma RankedIsAcyclic<N(!new)>(edges: set<(N, N)>, rank: map<N, nat>)
    requires RankDescends(edges, rank)
    ensures Acyclic(edges)
  {
    forall walk: seq<N> | IsWalk(edges, walk) && 1 < |walk| ensures walk[0] != Last(walk) {
      WalkDescends(edges, rank, walk);
    }
  }

  /** An edge whose target reaches its source lies on a cycle. */
  lemma EdgeClosingWalkIsCycle<N(!new)>(edges: set<(N, N)>, source: N, target: N)
    requires (source, target) in edges && Reaches(edges, target, source)
    ensures !Acyclic(edges)
  {
    var back :| WalkFromTo(edges, back, target, source);
    var walk := [source] + back;
    ExtendWalk(edges, [source], target);
    assert [source] + [target] == [source, target];
    JoinWalks(edges, [source, target], back);
    assert walk == [source, target] + back[1..];
    assert IsWalk(edges, walk) && walk[0] == Last(walk);
  }

  /** `length` edges is the most any walk that ends at `node` has, and some walk has that many. */
  ghost predicate IsLongestWalkTo<N(!new)>(edges: set<(N, N)>, node: N, length: nat)
  {
    && (exists walk :: IsWalk(edges, walk) && Last(walk) == node && |walk| == length + 1)
    && (forall walk: seq<N> | IsWalk(edges, walk) && Last(walk) == node :: |walk| <= length + 1)
  }

  /** Following an edge makes the longest walk longer. */
  lemma LongestWalkGrows<N(!new)>(edges: set<(N, N)>, u: N, v: N, a: nat, b: nat)
    requires (u, v) in edges && IsLongestWalkTo(edges, u, a) && IsLongestWalkTo(edges, v, b)
    ensures a < b
  {
    var walk :| IsWalk(edges, walk) && Last(walk) == u && |walk| == a + 1;
    ExtendWalk(edges, walk, v);
    assert |walk + [v]| == a + 2;
  }

  lemma LongestWalkIsUnique<N(!new)>(edges: set<(N, N)>, node: N, a: nat, b: nat)
    requires IsLongestWalkTo(edges, node, a) && IsLongestWalkTo(edges, node, b)
    ensures a == b
  {
    var walk :| IsWalk(edges, walk) && Last(walk) == node && |walk| == a + 1;
    var other :| IsWalk(edges, other) && Last(other) == node && |other| == b + 1;
  }

  /** `v` has a predecessor exactly one layer below it. */
  ghost predicate HasTightPredecessor<N(!new)>(edges: set<(N, N)>, layer: map<N, nat>, v: N)
    requires v in layer
  {
    exists u :: (u, v) in edges && u in layer && layer[v] == layer[u] + 1
  }

  /** The local equations a longest-path layering satisfies. */
  ghost predicate IsLayering<N(!new)>(edges: set<(N, N)>, layer: map<N, nat>)
  {
    && (forall e {:trigger e in edges} | e in edges :: e.0 in layer && e.1 in layer && layer[e.0] < layer[e.1])
    && (forall v {:trigger HasTightPredecessor(edges, layer, v)} | v in layer && layer[v] != 0 ::
      HasTightPredecessor(edges, layer, v))
  }

  lemma {:induction false} LayerBoundsWalk<N(!new)>(edges: set<(N, N)>, layer: map<N, nat>, walk: seq<N>)
    requires IsLayering(edges, layer) && IsWalk(edges, walk) && Last(walk) in layer
    ensures |walk| <= layer[Last(walk)] + 1
    decreases |walk|
  {
    if 1 < |walk| {
      var front := walk[..|walk| - 1];
      LastStep(edges, walk);
      assert Last(front) == walk[|walk| - 2];
      LayerBoundsWalk(edges, layer, front);
    }
  }

  lemma {:induction false} LayerHasWalk<N(!new)>(edges: set<(N, N)>, layer: map<N, nat>, node: N)
    returns (walk: seq<N>)
    requires IsLayering(edges, layer) && node in layer
    ensures IsWalk(edges, walk) && Last(walk) == node && |walk| == layer[node] + 1
    decreases layer[node]
  {
    if layer[node] == 0 {
      walk := [node];
    } else {
      assert HasTightPredecessor(edges, layer, node);
      var u :| (u, node) in edges && u in layer && layer[node] == layer[u] + 1;
      var front := LayerHasWalk(edges, layer, u);
      ExtendWalk(edges, front, node);
      walk := front + [node];
    }
  }

  /** The local equations pin the layer down: it is the length of the longest walk. */
  lemma LayeringIsLongestWalk<N(!new)>(edges: set<(N, N)>, layer: map<N, nat>, node: N)
    requires IsLayering(edges, layer) && node in layer
    ensures IsLongestWalkTo(edges, node, layer[node])
  {
    var walk := LayerHasWalk(edges, layer, node);
    forall other: seq<N> | IsWalk(edges, other) && Last(other) == node ensures |other| <= layer[node] + 1 {
      LayerBoundsWalk(edges, layer, other);
    }
  }
}
