/** The depth-first search as a recursive function, and what a stack of open nodes still has to do. */
module RecursiveSearch {
  import opened AdjacencyLists

  /** The colours (0 unvisited, 1 open, 2 done) and the edges kept so far. */
  datatype Marks = Marks(state: seq<nat>, dag: Adjacency)

  /** A node and the index of its next outgoing edge. */
  datatype Frame = Frame(node: nat, next: nat)

  predicate Fit(out: Adjacency, m: Marks)
  {
    |m.state| == |m.dag| == |out|
  }

  function Unvisited(m: Marks): set<nat>
  {
    set v: nat | v < |m.state| && m.state[v] == 0
  }

  function WithEdge(m: Marks, u: nat, v: nat): Marks
    requires u < |m.dag|
  {
    m.(dag := m.dag[u := m.dag[u] + [v]])
  }

  function Coloured(m: Marks, v: nat, colour: nat): Marks
    requires v < |m.state|
  {
    m.(state := m.state[v := colour])
  }

  /** Visits what the edges of `u` from `next` on lead to, in their order: an edge to an open node is dropped,
      all others are kept, and an unvisited node is visited at once. Then `u` is done. */
  function Visit(out: Adjacency, m: Marks, u: nat, next: nat): (r: Marks)
    requires InRange(out, |out|) && Fit(out, m) && u < |out| && next <= |out[u]|
    ensures Fit(out, r) && Unvisited(r) <= Unvisited(m)
    decreases Unvisited(m), |out[u]| - next
  {
    if next == |out[u]| then Coloured(m, u, 2)
    else
      var v := out[u][next];
      assert v in out[u];
      if m.state[v] == 1 then Visit(out, m, u, next + 1)
      else if m.state[v] != 0 then Visit(out, WithEdge(m, u, v), u, next + 1)
      else
        assert v in Unvisited(m) && v !in Unvisited(Coloured(WithEdge(m, u, v), v, 1));
        Visit(out, Visit(out, Coloured(WithEdge(m, u, v), v, 1), v, 0), u, next + 1)
  }

  /** A root is visited unless the search has been there. */
  function VisitRoot(out: Adjacency, m: Marks, root: nat): (r: Marks)
    requires InRange(out, |out|) && Fit(out, m) && root < |out|
    ensures Fit(out, r)
  {
    if m.state[root] != 0 then m else Visit(out, Coloured(m, root, 1), root, 0)
  }

  predicate AreNodes(out: Adjacency, roots: seq<nat>)
  {
    forall i | 0 <= i < |roots| :: roots[i] < |out|
  }

  /** The search from the first `n` roots, one after the other. */
  function VisitRoots(out: Adjacency, roots: seq<nat>, n: nat): (r: Marks)
    requires InRange(out, |out|) && AreNodes(out, roots) && n <= |roots|
    ensures Fit(out, r)
  {
    if n == 0 then Marks(seq(|out|, i => 0), seq(|out|, i => []))
    else VisitRoot(out, VisitRoots(out, roots, n - 1), roots[n - 1])
  }

  /** The edges that a recursive search keeps. */
  function KeptEdges(out: Adjacency, roots: seq<nat>): Adjacency
    requires InRange(out, |out|) && AreNodes(out, roots)
  {
    VisitRoots(out, roots, |roots|).dag
  }

  predicate AreFrames(out: Adjacency, stack: seq<Frame>)
  {
    forall f | f in stack :: f.node < |out| && f.next <= |out[f.node]|
  }

  /** What comes out once the open nodes are done, the last one first. */
  function Unwound(out: Adjacency, m: Marks, stack: seq<Frame>): (r: Marks)
    requires InRange(out, |out|) && Fit(out, m) && AreFrames(out, stack)
    ensures Fit(out, r)
    decreases |stack|
  {
    if stack == [] then m
    else
      var top := stack[|stack| - 1];
      Unwound(out, Visit(out, m, top.node, top.next), stack[..|stack| - 1])
  }

  lemma UnwoundTop(out: Adjacency, m: Marks, front: seq<Frame>, top: Frame)
    requires InRange(out, |out|) && Fit(out, m) && AreFrames(out, front + [top])
    ensures AreFrames(out, front) && top.node < |out| && top.next <= |out[top.node]|
    ensures Unwound(out, m, front + [top]) == Unwound(out, Visit(out, m, top.node, top.next), front)
  {
    assert (front + [top])[..|front|] == front;
    assert top in front + [top];
    assert forall f | f in front :: f in front + [top];
  }

  lemma FramesAdvance(out: Adjacency, front: seq<Frame>, top: Frame, v: nat)
    requires AreFrames(out, front + [top]) && v < |out|
    requires top.node < |out| && top.next < |out[top.node]|
    ensures AreFrames(out, front)
    ensures AreFrames(out, front + [Frame(top.node, top.next + 1)])
    ensures AreFrames(out, front + [Frame(top.node, top.next + 1)] + [Frame(v, 0)])
  {
    assert forall f | f in front :: f in front + [top];
  }

  lemma DoneUnwinds(out: Adjacency, m: Marks, front: seq<Frame>, u: nat)
    requires InRange(out, |out|) && Fit(out, m) && AreFrames(out, front) && u < |out|
    ensures Unwound(out, m, front + [Frame(u, |out[u]|)]) == Unwound(out, Coloured(m, u, 2), front)
  {
    UnwoundTop(out, m, front, Frame(u, |out[u]|));
  }

  /** Examining one edge of the last open node changes nothing in what comes out. */
  lemma EdgeUnwinds(out: Adjacency, m: Marks, front: seq<Frame>, u: nat, next: nat)
    requires InRange(out, |out|) && Fit(out, m) && AreFrames(out, front) && u < |out| && next < |out[u]|
    ensures var v, rest := out[u][next], front + [Frame(u, next + 1)];
      v < |out| && Unwound(out, m, front + [Frame(u, next)]) ==
        if m.state[v] == 1 then Unwound(out, m, rest)
        else if m.state[v] != 0 then Unwound(out, WithEdge(m, u, v), rest)
        else Unwound(out, Coloured(WithEdge(m, u, v), v, 1), rest + [Frame(v, 0)])
  {
    var v, rest := out[u][next], front + [Frame(u, next + 1)];
    assert v in out[u];
    UnwoundTop(out, m, front, Frame(u, next));
    UnwoundTop(out, m, front, Frame(u, next + 1));
    UnwoundTop(out, WithEdge(m, u, v), front, Frame(u, next + 1));
    if m.state[v] == 0 {
      var entered := Coloured(WithEdge(m, u, v), v, 1);
      UnwoundTop(out, entered, rest, Frame(v, 0));
      UnwoundTop(out, Visit(out, entered, v, 0), front, Frame(u, next + 1));
    }
  }

  /** Of two nodes with edges to each other, the one whose edge from the root comes first keeps its edge. */
  lemma FirstListedKeepsItsEdge()
    ensures KeptEdges([[1, 2], [2], [1]], [0]) == [[1, 2], [2], []]
    ensures KeptEdges([[2, 1], [2], [1]], [0]) == [[2, 1], [], [1]]
  {
    VisitsTriangle([[1, 2], [2], [1]], 1, 2);
    VisitsTriangle([[2, 1], [2], [1]], 2, 1);
  }

  lemma VisitsPair(out: Adjacency, m: Marks, a: nat, b: nat)
    requires InRange(out, |out|) && Fit(out, m) && a < |out| && b < |out| && a != b && out[a] == [b] && out[b] == [a]
    requires m.state[a] == 1 && m.state[b] == 0
    ensures Visit(out, m, a, 0) == Marks(m.state[a := 2][b := 2], m.dag[a := m.dag[a] + [b]])
  {
    var entered := Coloured(WithEdge(m, a, b), b, 1);
    var left := Coloured(entered, b, 2);
    assert Visit(out, entered, b, 0) == Visit(out, entered, b, 1) == left;
    assert Visit(out, m, a, 0) == Visit(out, left, a, 1) == Coloured(left, a, 2);
    assert entered.state[b := 2][a := 2] == m.state[a := 2][b := 2];
  }

  lemma VisitsTriangle(out: Adjacency, a: nat, b: nat)
    requires |out| == 3 && {a, b} == {1, 2} && out[0] == [a, b] && out[a] == [b] && out[b] == [a]
    ensures KeptEdges(out, [0]) == [[], [], []][0 := [a, b]][a := [b]]
  {
    assert {1, 2} == {a, b} && a != b;
    var none := Marks([0, 0, 0], [[], [], []]);
    assert VisitRoots(out, [0], 0) == none;
    var root := Coloured(none, 0, 1);
    var entered := Coloured(WithEdge(root, 0, a), a, 1);
    VisitsPair(out, entered, a, b);
    var left := Visit(out, entered, a, 0);
    assert Visit(out, root, 0, 0) == Visit(out, left, 0, 1) == Visit(out, WithEdge(left, 0, b), 0, 2);
    var m := Coloured(WithEdge(left, 0, b), 0, 2);
    assert VisitRoots(out, [0], 1) == VisitRoot(out, none, 0) == m;
    assert m.dag[0] == [a, b] && m.dag[a] == [b] && m.dag[b] == [];
  }
}
