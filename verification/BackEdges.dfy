/** Back-edge removal of the graph layout: an iterative three-colour depth-first search. */
module BackEdges {
  import opened AdjacencyLists
  import opened Digraph
  import opened RecursiveSearch
  import opened Wrappers

  /** The targets of `u` that survive, in their original order. */
  function Surviving(u: nat, targets: seq<nat>, dropped: set<(nat, nat)>): seq<nat>
  {
    if targets == [] then []
    else
      var front := Surviving(u, targets[..|targets| - 1], dropped);
      var to := targets[|targets| - 1];
      if (u, to) in dropped then front else front + [to]
  }

  lemma {:induction false} SurvivingMembers(u: nat, targets: seq<nat>, dropped: set<(nat, nat)>, v: nat)
    ensures v in Surviving(u, targets, dropped) <==> v in targets && (u, v) !in dropped
  {
    if targets != [] {
      SurvivingMembers(u, targets[..|targets| - 1], dropped, v);
    }
  }

  lemma {:induction false} SurvivingFrame(u: nat, targets: seq<nat>, dropped: set<(nat, nat)>, e: (nat, nat))
    requires e.0 == u ==> e.1 !in targets
    ensures Surviving(u, targets, dropped + {e}) == Surviving(u, targets, dropped)
  {
    if targets != [] {
      SurvivingFrame(u, targets[..|targets| - 1], dropped, e);
    }
  }

  /** Everything the search has decided so far: the colours (0 unvisited, 1 on the stack, 2 done),
      how many edges of each node were examined, each stacked node's place on the stack, the edges
      kept and dropped, and the finish order. */
  datatype Search = Search(state: seq<nat>, taken: seq<nat>, depth: seq<nat>, dag: Adjacency, stack: seq<Frame>,
                           dropped: set<(nat, nat)>, rank: map<nat, nat>)

  ghost predicate ShapeOk(out: Adjacency, s: Search)
  {
    && |s.state| == |s.taken| == |s.depth| == |s.dag| == |out|
    && InRange(out, |out|)
    && (forall v | 0 <= v < |out| :: s.state[v] <= 2 && s.taken[v] <= |out[v]|)
    && (forall v | 0 <= v < |out| :: s.state[v] == 0 ==> s.taken[v] == 0)
  }

  ghost predicate StackOk(out: Adjacency, s: Search)
    requires ShapeOk(out, s)
  {
    && (forall k | 0 <= k < |s.stack| ::
          var f := s.stack[k];
          f.node < |out| && s.state[f.node] == 1 && s.depth[f.node] == k && f.next == s.taken[f.node])
    && (forall v | 0 <= v < |out| && s.state[v] == 1 :: s.depth[v] < |s.stack| && s.stack[s.depth[v]].node == v)
  }

  ghost predicate RankOk(out: Adjacency, s: Search)
    requires ShapeOk(out, s)
  {
    && (forall v | 0 <= v < |out| && s.state[v] == 2 :: s.taken[v] == |out[v]| && v in s.rank)
    && (forall v | v in s.rank :: v < |out| && s.state[v] == 2 && s.rank[v] < |s.rank|)
  }

  /** A kept edge leads down the finish order, or one place up the stack while its source is open. */
  ghost predicate KeptEdgeOk(out: Adjacency, s: Search, u: nat, v: nat)
    requires ShapeOk(out, s) && RankOk(out, s) && u < |out|
  {
    && v < |out|
    && s.state[u] != 0
    && (s.state[u] == 2 ==> s.state[v] == 2 && s.rank[v] < s.rank[u])
    && (s.state[u] == 1 ==> s.state[v] == 2 || (s.state[v] == 1 && s.depth[v] == s.depth[u] + 1))
  }

  ghost predicate KeptOk(out: Adjacency, s: Search)
    requires ShapeOk(out, s) && RankOk(out, s)
  {
    forall u: nat, v | u < |out| && v in s.dag[u] :: KeptEdgeOk(out, s, u, v)
  }

  ghost predicate ListsOk(out: Adjacency, s: Search)
    requires ShapeOk(out, s)
  {
    forall u: nat | u < |out| :: s.dag[u] == Surviving(u, out[u][..s.taken[u]], s.dropped)
  }

  /** Every node on the stack is a kept target of the node below it. */
  ghost predicate TreeOk(out: Adjacency, s: Search)
    requires ShapeOk(out, s) && StackOk(out, s)
  {
    forall j, k | 0 <= j && k == j + 1 && k < |s.stack| :: s.stack[k].node in s.dag[s.stack[j].node]
  }

  /** A dropped edge leads down the stack while its source is open. */
  ghost predicate DroppedEdgeOk(out: Adjacency, s: Search, e: (nat, nat))
    requires ShapeOk(out, s)
  {
    && e.0 < |out| && e.1 < |out|
    && s.state[e.0] != 0
    && e.1 in out[e.0][..s.taken[e.0]]
    && (s.state[e.0] == 1 ==> s.state[e.1] == 1 && s.depth[e.1] <= s.depth[e.0])
  }

  ghost predicate DroppedOk(out: Adjacency, s: Search)
    requires ShapeOk(out, s)
  {
    forall e {:trigger e in s.dropped} {:trigger DroppedEdgeOk(out, s, e)} | e in s.dropped :: DroppedEdgeOk(out, s, e)
  }

  /** Every dropped edge closes a cycle through kept edges. */
  ghost predicate DroppedCloseCycles(dag: Adjacency, dropped: set<(nat, nat)>)
  {
    forall e {:trigger e in dropped} | e in dropped :: Reaches(EdgesOf(dag), e.1, e.0)
  }

  ghost predicate SearchOk(out: Adjacency, s: Search)
  {
    && ShapeOk(out, s) && StackOk(out, s) && RankOk(out, s) && KeptOk(out, s)
    && ListsOk(out, s) && TreeOk(out, s) && DroppedOk(out, s) && DroppedCloseCycles(s.dag, s.dropped)
  }

  /** Number of inner loop iterations the search has spent. */
  ghost function Work(s: Search): nat
  {
    Sum(s.taken) + |s.rank|
  }

  ghost function Top(s: Search): Frame
    requires s.stack != []
  {
    s.stack[|s.stack| - 1]
  }

  ghost predicate Sized(out: Adjacency, s: Search)
  {
    |s.state| == |s.taken| == |s.depth| == |s.dag| == |out|
  }

  /** The node on top of the stack has been examined completely. */
  ghost predicate TopExhausted(out: Adjacency, s: Search)
  {
    Sized(out, s) && s.stack != [] && Top(s).node < |out| && |out[Top(s).node]| <= Top(s).next
  }

  /** The next target of the node on top of the stack is `to`. */
  ghost predicate TopExamines(out: Adjacency, s: Search, to: nat)
  {
    && Sized(out, s) && s.stack != [] && Top(s).node < |out| && to < |out|
    && Top(s).next < |out[Top(s).node]| && out[Top(s).node][Top(s).next] == to
  }

  ghost predicate RootUnvisited(out: Adjacency, s: Search, root: nat)
  {
    Sized(out, s) && s.stack == [] && root < |out| && s.state[root] == 0
  }

  ghost predicate CanFinish(out: Adjacency, s: Search)
  {
    SearchOk(out, s) && TopExhausted(out, s)
  }

  ghost predicate CanExamine(out: Adjacency, s: Search, to: nat)
  {
    SearchOk(out, s) && TopExamines(out, s, to)
  }

  // The moves of the search, one per branch of the loop.

  ghost function Finish(s: Search): Search
    requires s.stack != [] && Top(s).node < |s.state|
  {
    var u := Top(s).node;
    s.(state := s.state[u := 2], stack := s.stack[..|s.stack| - 1], rank := s.rank[u := |s.rank|])
  }

  ghost function Drop(s: Search, to: nat): Search
    requires s.stack != [] && Top(s).node < |s.taken|
  {
    var top := Top(s);
    s.(taken := s.taken[top.node := top.next + 1], stack := s.stack[|s.stack| - 1 := Frame(top.node, top.next + 1)],
       dropped := s.dropped + {(top.node, to)})
  }

  ghost function Keep(s: Search, to: nat): Search
    requires s.stack != [] && Top(s).node < |s.taken| == |s.dag|
  {
    var top := Top(s);
    s.(taken := s.taken[top.node := top.next + 1], stack := s.stack[|s.stack| - 1 := Frame(top.node, top.next + 1)],
       dag := s.dag[top.node := s.dag[top.node] + [to]])
  }

  ghost function Enter(s: Search, v: nat): Search
    requires v < |s.state| == |s.depth|
  {
    s.(state := s.state[v := 1], depth := s.depth[v := |s.stack|], stack := s.stack + [Frame(v, 0)])
  }

  lemma FinishShape(out: Adjacency, s: Search)
    requires CanFinish(out, s)
    ensures ShapeOk(out, Finish(s)) && StackOk(out, Finish(s))
  {
  }

  lemma FinishKept(out: Adjacency, s: Search)
    requires CanFinish(out, s)
    ensures ShapeOk(out, Finish(s)) && RankOk(out, Finish(s)) && KeptOk(out, Finish(s))
  {
    var t := Finish(s);
    forall u: nat, v | u < |out| && v in t.dag[u] ensures KeptEdgeOk(out, t, u, v) {
      assert KeptEdgeOk(out, s, u, v);
    }
  }

  lemma FinishKeepsOk(out: Adjacency, s: Search)
    requires CanFinish(out, s)
    ensures SearchOk(out, Finish(s)) && Work(Finish(s)) == Work(s) + 1
  {
    FinishShape(out, s);
    FinishKept(out, s);
  }

  lemma ReachesUpStack(out: Adjacency, s: Search, j: nat, k: nat)
    requires SearchOk(out, s) && j <= k < |s.stack|
    ensures Reaches(EdgesOf(s.dag), s.stack[j].node, s.stack[k].node)
    decreases k - j
  {
    if j == k {
      ReachesSelf(EdgesOf(s.dag), s.stack[j].node);
    } else {
      var above := s.stack[j + 1].node;
      EdgeIffListed(s.dag, s.stack[j].node, above);
      ReachesEdge(EdgesOf(s.dag), s.stack[j].node, above);
      ReachesUpStack(out, s, j + 1, k);
      ReachesTransitive(EdgesOf(s.dag), s.stack[j].node, above, s.stack[k].node);
    }
  }

  lemma ExamineWork(out: Adjacency, s: Search, to: nat)
    requires CanExamine(out, s, to)
    ensures Work(Drop(s, to)) == Work(Keep(s, to)) == Work(s) + 1
  {
    SumUpdate(s.taken, Top(s).node, Top(s).next + 1);
  }

  lemma DropStack(out: Adjacency, s: Search, to: nat)
    requires CanExamine(out, s, to)
    ensures ShapeOk(out, Drop(s, to)) && StackOk(out, Drop(s, to)) && RankOk(out, Drop(s, to))
  {
  }

  lemma KeepStack(out: Adjacency, s: Search, to: nat)
    requires CanExamine(out, s, to)
    ensures ShapeOk(out, Keep(s, to)) && StackOk(out, Keep(s, to)) && RankOk(out, Keep(s, to))
  {
  }

  lemma ExamineTree(out: Adjacency, s: Search, to: nat)
    requires CanExamine(out, s, to)
    ensures ShapeOk(out, Drop(s, to)) && StackOk(out, Drop(s, to)) && TreeOk(out, Drop(s, to))
    ensures ShapeOk(out, Keep(s, to)) && StackOk(out, Keep(s, to)) && TreeOk(out, Keep(s, to))
  {
    DropStack(out, s, to);
    KeepStack(out, s, to);
    forall j, k | 0 <= j && k == j + 1 && k < |s.stack|
      ensures Drop(s, to).stack[k].node in Drop(s, to).dag[Drop(s, to).stack[j].node]
      ensures Keep(s, to).stack[k].node in Keep(s, to).dag[Keep(s, to).stack[j].node]
    {
      assert s.stack[k].node in s.dag[s.stack[j].node];
    }
  }

  /** Dropping an edge that was never kept leaves the list of kept targets as it was. */
  lemma DropFromList(u: nat, targets: seq<nat>, n: nat, dropped: set<(nat, nat)>)
    requires n < |targets| && targets[n] !in Surviving(u, targets[..n], dropped)
    ensures Surviving(u, targets[..n + 1], dropped + {(u, targets[n])}) == Surviving(u, targets[..n], dropped)
  {
    var to := targets[n];
    assert targets[..n + 1][..n] == targets[..n];
    SurvivingMembers(u, targets[..n], dropped, to);
    if to in targets[..n] {
      assert dropped + {(u, to)} == dropped;
    } else {
      SurvivingFrame(u, targets[..n], dropped, (u, to));
    }
  }

  lemma DropLists(out: Adjacency, s: Search, to: nat)
    requires CanExamine(out, s, to) && s.state[to] == 1
    ensures ShapeOk(out, Drop(s, to)) && ListsOk(out, Drop(s, to))
  {
    var t := Drop(s, to);
    var u, n := Top(s).node, Top(s).next;
    DropStack(out, s, to);
    DropFromList(u, out[u], n, s.dropped);
    forall v: nat | v < |out| && v != u
      ensures Surviving(v, out[v][..t.taken[v]], t.dropped) == Surviving(v, out[v][..s.taken[v]], s.dropped)
    {
      SurvivingFrame(v, out[v][..s.taken[v]], s.dropped, (u, to));
    }
  }

  lemma DropKept(out: Adjacency, s: Search, to: nat)
    requires CanExamine(out, s, to)
    ensures ShapeOk(out, Drop(s, to)) && RankOk(out, Drop(s, to)) && KeptOk(out, Drop(s, to))
  {
    var t := Drop(s, to);
    DropStack(out, s, to);
    forall a: nat, v | a < |out| && v in t.dag[a] ensures KeptEdgeOk(out, t, a, v) {
      assert KeptEdgeOk(out, s, a, v);
    }
  }

  /** The dropped edge closes a cycle: its target reaches its source up the stack. */
  lemma DropCycles(out: Adjacency, s: Search, to: nat)
    requires CanExamine(out, s, to) && s.state[to] == 1
    ensures DroppedCloseCycles(Drop(s, to).dag, Drop(s, to).dropped)
  {
    ReachesUpStack(out, s, s.depth[to], |s.stack| - 1);
  }

  lemma DropKeepsOk(out: Adjacency, s: Search, to: nat)
    requires CanExamine(out, s, to) && s.state[to] == 1
    ensures SearchOk(out, Drop(s, to)) && Work(Drop(s, to)) == Work(s) + 1
  {
    ExamineWork(out, s, to);
    DropStack(out, s, to);
    ExamineTree(out, s, to);
    DropLists(out, s, to);
    DropKept(out, s, to);
    DropCycles(out, s, to);
  }

  lemma KeepLists(out: Adjacency, s: Search, to: nat)
    requires CanExamine(out, s, to) && s.state[to] != 1
    ensures ShapeOk(out, Keep(s, to)) && ListsOk(out, Keep(s, to))
  {
    var u, n := Top(s).node, Top(s).next;
    KeepStack(out, s, to);
    assert out[u][..n + 1][..n] == out[u][..n];
  }

  lemma KeepCycles(s: Search, to: nat)
    requires s.stack != [] && Top(s).node < |s.taken| == |s.dag|
    requires DroppedCloseCycles(s.dag, s.dropped)
    ensures DroppedCloseCycles(Keep(s, to).dag, s.dropped)
    ensures EdgesOf(Keep(s, to).dag) == EdgesOf(s.dag) + {(Top(s).node, to)}
  {
    var t := Keep(s, to);
    EdgesAfterPush(s.dag, Top(s).node, to);
    forall e | e in s.dropped ensures Reaches(EdgesOf(t.dag), e.1, e.0) {
      ReachesMonotone(EdgesOf(s.dag), EdgesOf(t.dag), e.1, e.0);
    }
  }

  lemma KeepKept(out: Adjacency, s: Search, to: nat)
    requires CanExamine(out, s, to) && s.state[to] == 2
    ensures ShapeOk(out, Keep(s, to)) && RankOk(out, Keep(s, to)) && KeptOk(out, Keep(s, to))
  {
    var t := Keep(s, to);
    KeepStack(out, s, to);
    forall u: nat, v | u < |out| && v in t.dag[u] ensures KeptEdgeOk(out, t, u, v) {
      if v in s.dag[u] {
        assert KeptEdgeOk(out, s, u, v);
      }
    }
  }

  /** Keeping an edge to a finished node. */
  lemma KeepKeepsOk(out: Adjacency, s: Search, to: nat)
    requires CanExamine(out, s, to) && s.state[to] == 2
    ensures SearchOk(out, Keep(s, to)) && Work(Keep(s, to)) == Work(s) + 1
  {
    ExamineWork(out, s, to);
    KeepStack(out, s, to);
    ExamineTree(out, s, to);
    KeepLists(out, s, to);
    KeepKept(out, s, to);
    KeepCycles(s, to);
  }

  lemma EnterStack(out: Adjacency, s: Search, to: nat)
    requires CanExamine(out, s, to) && s.state[to] == 0
    ensures var t := Enter(Keep(s, to), to); ShapeOk(out, t) && StackOk(out, t)
  {
    KeepStack(out, s, to);
  }

  lemma EnterKept(out: Adjacency, s: Search, to: nat)
    requires CanExamine(out, s, to) && s.state[to] == 0
    ensures var t := Enter(Keep(s, to), to); ShapeOk(out, t) && RankOk(out, t) && KeptOk(out, t)
  {
    var t := Enter(Keep(s, to), to);
    forall u: nat, v | u < |out| && v in t.dag[u] ensures KeptEdgeOk(out, t, u, v) {
      if v in s.dag[u] {
        assert KeptEdgeOk(out, s, u, v);
      }
    }
  }

  lemma EnterDropped(out: Adjacency, s: Search, to: nat)
    requires CanExamine(out, s, to) && s.state[to] == 0
    ensures var t := Enter(Keep(s, to), to); ShapeOk(out, t) && DroppedOk(out, t)
  {
    var k := Keep(s, to);
    var t := Enter(k, to);
    forall e | e in t.dropped ensures DroppedEdgeOk(out, t, e) {
      assert DroppedEdgeOk(out, k, e);
    }
  }

  lemma EnterRest(out: Adjacency, s: Search, to: nat)
    requires CanExamine(out, s, to) && s.state[to] == 0
    ensures var t := Enter(Keep(s, to), to);
      ShapeOk(out, t) && StackOk(out, t) && ListsOk(out, t) && TreeOk(out, t)
  {
    var k := Keep(s, to);
    EnterStack(out, s, to);
    KeepLists(out, s, to);
    ExamineTree(out, s, to);
    assert Enter(k, to).stack[..|k.stack|] == k.stack;
  }

  /** Keeping an edge to an unvisited node and entering that node. */
  lemma EnterKeepsOk(out: Adjacency, s: Search, to: nat)
    requires CanExamine(out, s, to) && s.state[to] == 0
    ensures SearchOk(out, Enter(Keep(s, to), to)) && Work(Enter(Keep(s, to), to)) == Work(s) + 1
  {
    ExamineWork(out, s, to);
    EnterKept(out, s, to);
    EnterDropped(out, s, to);
    EnterRest(out, s, to);
    KeepCycles(s, to);
  }

  lemma EnterRootKeepsOk(out: Adjacency, s: Search, root: nat)
    requires SearchOk(out, s) && s.stack == [] && root < |out| && s.state[root] == 0
    ensures SearchOk(out, Enter(s, root)) && Work(Enter(s, root)) == Work(s)
  {
    var t := Enter(s, root);
    assert ShapeOk(out, t) && StackOk(out, t) && RankOk(out, t);
    forall u: nat, v | u < |out| && v in t.dag[u] ensures KeptEdgeOk(out, t, u, v) {
      assert KeptEdgeOk(out, s, u, v);
    }
    forall e | e in t.dropped ensures DroppedEdgeOk(out, t, e) {
      assert DroppedEdgeOk(out, s, e);
    }
    assert ListsOk(out, t);
  }

  /** The search never spends more than one iteration per node and one per edge. */
  lemma WorkBounded(out: Adjacency, s: Search)
    requires SearchOk(out, s)
    ensures Work(s) <= |out| + Sum(Lengths(out))
  {
    SumMonotone(s.taken, Lengths(out));
    assert forall v | v in s.rank.Keys :: v < |out|;
    BoundedSetSize(s.rank.Keys, |out|);
  }

  /** What the search promises once no node is open: the kept lists are the original lists without the
      dropped edges, they hold no cycle, and every dropped edge would close one. */
  ghost predicate IsBackEdgeRemoval(out: Adjacency, dag: Adjacency, dropped: set<(nat, nat)>, rank: map<nat, nat>)
  {
    && |dag| == |out|
    && dropped <= EdgesOf(out)
    && (forall u: nat | u < |out| :: dag[u] == Surviving(u, out[u], dropped))
    && RankDescends(EdgesOf(dag), rank)
    && (forall v: nat | v < |out| :: v in rank)
    && DroppedCloseCycles(dag, dropped)
  }

  lemma SearchDone(out: Adjacency, s: Search)
    requires SearchOk(out, s) && forall v | 0 <= v < |out| :: s.state[v] == 2
    ensures IsBackEdgeRemoval(out, s.dag, s.dropped, s.rank)
    ensures Work(s) == |out| + Sum(Lengths(out))
  {
    assert s.taken == Lengths(out);
    FullSetSize(s.rank.Keys, |out|);
    forall u: nat | u < |out| ensures s.dag[u] == Surviving(u, out[u], s.dropped) {
      assert out[u][..s.taken[u]] == out[u];
    }
    forall e | e in EdgesOf(s.dag) ensures e.0 in s.rank && e.1 in s.rank && s.rank[e.1] < s.rank[e.0] {
      EdgeIffListed(s.dag, e.0, e.1);
      assert KeptEdgeOk(out, s, e.0, e.1);
    }
    forall e | e in s.dropped ensures e in EdgesOf(out) {
      assert DroppedEdgeOk(out, s, e);
      EdgeIffListed(out, e.0, e.1);
    }
  }

  /** The kept edges are exactly the edges that were not dropped. */
  lemma KeptPlusDropped(out: Adjacency, dag: Adjacency, dropped: set<(nat, nat)>, rank: map<nat, nat>)
    requires IsBackEdgeRemoval(out, dag, dropped, rank)
    ensures EdgesOf(dag) == EdgesOf(out) - dropped
  {
    forall u: nat, v: nat ensures (u, v) in EdgesOf(dag) <==> (u, v) in EdgesOf(out) - dropped {
      EdgeIffListed(dag, u, v);
      EdgeIffListed(out, u, v);
      if u < |out| {
        SurvivingMembers(u, out[u], dropped, v);
      }
    }
  }

  /** On an acyclic graph the search drops nothing. */
  lemma AcyclicLosesNoEdge(out: Adjacency, dag: Adjacency, dropped: set<(nat, nat)>, rank: map<nat, nat>)
    requires IsBackEdgeRemoval(out, dag, dropped, rank) && Acyclic(EdgesOf(out))
    ensures dropped == {} && EdgesOf(dag) == EdgesOf(out)
  {
    KeptPlusDropped(out, dag, dropped, rank);
    forall e | e in dropped ensures false {
      ReachesMonotone(EdgesOf(dag), EdgesOf(out), e.1, e.0);
      EdgeClosingWalkIsCycle(EdgesOf(out), e.0, e.1);
    }
  }

  ghost function InitialSearch(n: nat): Search
  {
    Search(seq(n, _ => 0), seq(n, _ => 0), seq(n, _ => 0), seq(n, _ => []), [], {}, map[])
  }

  lemma InitialSearchOk(out: Adjacency)
    requires InRange(out, |out|)
    ensures SearchOk(out, InitialSearch(|out|)) && Work(InitialSearch(|out|)) == 0
  {
    var s := InitialSearch(|out|);
    forall u: nat | u < |out| ensures s.dag[u] == Surviving(u, out[u][..s.taken[u]], s.dropped) {
      assert out[u][..0] == [];
    }
    SumZero(s.taken);
  }

  /** The colour of the target decides what becomes of the examined edge. */
  ghost function Examined(s: Search, to: nat): Search
    requires s.stack != [] && Top(s).node < |s.taken| == |s.dag| && to < |s.state| == |s.depth|
  {
    if s.state[to] == 1 then Drop(s, to)
    else if s.state[to] == 0 then Enter(Keep(s, to), to)
    else Keep(s, to)
  }

  /** One move of the search: entering a root while nothing is open, or one inner loop iteration. */
  datatype Move = EnterRoot(root: nat) | FinishTop | ExamineEdge(to: nat)

  ghost predicate Enabled(out: Adjacency, s: Search, move: Move)
  {
    match move
    case EnterRoot(root) => RootUnvisited(out, s, root)
    case FinishTop => TopExhausted(out, s)
    case ExamineEdge(to) => TopExamines(out, s, to)
  }

  ghost function After(out: Adjacency, s: Search, move: Move): Search
    requires Enabled(out, s, move)
  {
    match move
    case EnterRoot(root) => Enter(s, root)
    case FinishTop => Finish(s)
    case ExamineEdge(to) => Examined(s, to)
  }

  /** The state after a run of moves from the initial state, if each is enabled in turn. */
  ghost function Run(out: Adjacency, moves: seq<Move>): Option<Search>
  {
    if moves == [] then Some(InitialSearch(|out|))
    else
      var prev := Run(out, moves[..|moves| - 1]);
      var move := moves[|moves| - 1];
      if prev.Some? && Enabled(out, prev.value, move) then Some(After(out, prev.value, move)) else None
  }

  ghost predicate Reachable(out: Adjacency, s: Search)
  {
    exists moves :: Run(out, moves) == Some(s)
  }

  lemma {:induction false} RunOk(out: Adjacency, moves: seq<Move>)
    requires InRange(out, |out|) && Run(out, moves).Some?
    ensures SearchOk(out, Run(out, moves).value)
  {
    if moves == [] {
      InitialSearchOk(out);
    } else {
      RunOk(out, moves[..|moves| - 1]);
      MoveOk(out, Run(out, moves[..|moves| - 1]).value, moves[|moves| - 1]);
    }
  }

  lemma MoveOk(out: Adjacency, s: Search, move: Move)
    requires SearchOk(out, s) && Enabled(out, s, move)
    ensures SearchOk(out, After(out, s, move))
    ensures Work(After(out, s, move)) == Work(s) + (if move.EnterRoot? then 0 else 1)
  {
    match move
    case EnterRoot(root) => EnterRootKeepsOk(out, s, root);
    case FinishTop => FinishKeepsOk(out, s);
    case ExamineEdge(to) =>
      if s.state[to] == 1 {
        DropKeepsOk(out, s, to);
      } else if s.state[to] == 0 {
        EnterKeepsOk(out, s, to);
      } else {
        KeepKeepsOk(out, s, to);
      }
  }

  lemma ReachableOk(out: Adjacency, s: Search)
    requires InRange(out, |out|) && Reachable(out, s)
    ensures SearchOk(out, s)
  {
    var moves :| Run(out, moves) == Some(s);
    RunOk(out, moves);
  }

  lemma ReachableNext(out: Adjacency, s: Search, move: Move)
    requires Reachable(out, s) && Enabled(out, s, move)
    ensures Reachable(out, After(out, s, move))
  {
    var moves :| Run(out, moves) == Some(s);
    assert (moves + [move])[..|moves|] == moves;
    assert Run(out, moves + [move]) == Some(After(out, s, move));
  }

  // What the imperative search needs to know about a reachable state, and about its moves.

  lemma ReachableBounds(out: Adjacency, s: Search)
    requires InRange(out, |out|) && Reachable(out, s)
    ensures |s.state| == |s.taken| == |s.depth| == |s.dag| == |out|
    ensures forall k | 0 <= k < |s.stack| :: s.stack[k].node < |out|
    ensures forall v | 0 <= v < |out| :: s.state[v] <= 2
    ensures s.stack == [] ==> forall v | 0 <= v < |out| :: s.state[v] == 0 || s.state[v] == 2
    ensures Work(s) <= |out| + Sum(Lengths(out))
  {
    ReachableOk(out, s);
    WorkBounded(out, s);
  }

  lemma InitialReachable(out: Adjacency)
    requires InRange(out, |out|)
    ensures Reachable(out, InitialSearch(|out|)) && Work(InitialSearch(|out|)) == 0
    ensures forall v: nat :: Inflow(InitialSearch(|out|).dag, {}, v, |out|) == 0
  {
    InitialSearchOk(out);
    assert Run(out, []) == Some(InitialSearch(|out|));
    forall v: nat ensures Inflow(InitialSearch(|out|).dag, {}, v, |out|) == 0 {
      InflowEmpty(|out|, InitialSearch(|out|).dag, v);
    }
  }

  lemma MoveReachable(out: Adjacency, s: Search, move: Move)
    requires InRange(out, |out|) && Reachable(out, s) && Enabled(out, s, move)
    ensures Reachable(out, After(out, s, move))
    ensures Work(After(out, s, move)) == Work(s) + (if move.EnterRoot? then 0 else 1)
  {
    ReachableOk(out, s);
    MoveOk(out, s, move);
    ReachableNext(out, s, move);
  }

  lemma ReachableDone(out: Adjacency, s: Search, roots: seq<nat>)
    requires InRange(out, |out|) && Reachable(out, s) && |s.state| == |out|
    requires forall v: nat | v < |out| :: v in roots
    requires forall v | v in roots :: v < |out| && s.state[v] == 2
    ensures IsBackEdgeRemoval(out, s.dag, s.dropped, s.rank)
    ensures Work(s) == |out| + Sum(Lengths(out))
  {
    forall v: nat | v < |out| ensures s.state[v] == 2 {
      assert v in roots;
    }
    ReachableOk(out, s);
    SearchDone(out, s);
  }

  // ---------------------------------------------------------------------------------------------
  // The order of the roots
  // ---------------------------------------------------------------------------------------------

  /** No kept edge leads to the node. */
  ghost predicate IsNotEntered(dag: Adjacency, v: nat)
  {
    forall u | 0 <= u < |dag| :: v !in dag[u]
  }

  /** Finished nodes keep their lists from one state to the other. */
  ghost predicate KeepsFinished(s: Search, t: Search)
  {
    && |s.state| == |t.state| == |s.dag| == |t.dag|
    && forall v | 0 <= v < |s.state| && s.state[v] == 2 :: t.state[v] == 2 && t.dag[v] == s.dag[v]
  }

  /** While a root is open nothing enters it, and what is discovered is reachable from it. */
  ghost predicate ExploresFrom(out: Adjacency, start: Search, s: Search, root: nat)
  {
    && Sized(out, start) && Sized(out, s) && KeepsFinished(start, s)
    && IsNotEntered(s.dag, root)
    && (s.stack != [] ==> s.stack[0].node == root)
    && (forall v: nat | v < |out| && s.state[v] != start.state[v] :: Reaches(EdgesOf(out), root, v))
  }

  lemma EnterExplores(out: Adjacency, s: Search, root: nat)
    requires SearchOk(out, s) && RootUnvisited(out, s, root)
    ensures ExploresFrom(out, s, Enter(s, root), root)
  {
    ReachesSelf(EdgesOf(out), root);
    forall u: nat, v | u < |out| && v in s.dag[u] ensures v != root {
      assert KeptEdgeOk(out, s, u, v);
    }
  }

  /** The top of the stack was discovered from the root. */
  lemma TopIsReached(out: Adjacency, start: Search, s: Search, root: nat)
    requires SearchOk(out, start) && start.stack == [] && SearchOk(out, s) && s.stack != []
    requires ExploresFrom(out, start, s, root)
    ensures Top(s).node < |out| && s.state[Top(s).node] == 1 && start.state[Top(s).node] == 0
    ensures Reaches(EdgesOf(out), root, Top(s).node)
    ensures root < |out| && s.state[root] == 1
  {
    assert s.stack[|s.stack| - 1].node == Top(s).node;
  }

  lemma NextIsReached(out: Adjacency, root: nat, u: nat, v: nat)
    requires u < |out| && v in out[u] && Reaches(EdgesOf(out), root, u)
    ensures Reaches(EdgesOf(out), root, v)
  {
    EdgeIffListed(out, u, v);
    ReachesEdge(EdgesOf(out), u, v);
    ReachesTransitive(EdgesOf(out), root, u, v);
  }

  lemma FinishExplores(out: Adjacency, start: Search, s: Search, root: nat)
    requires ExploresFrom(out, start, s, root) && TopExhausted(out, s)
    requires s.state[Top(s).node] == 1 && start.state[Top(s).node] == 0 && Reaches(EdgesOf(out), root, Top(s).node)
    ensures ExploresFrom(out, start, Finish(s), root)
  {
  }

  lemma ExamineExplores(out: Adjacency, start: Search, s: Search, to: nat, root: nat)
    requires ExploresFrom(out, start, s, root) && TopExamines(out, s, to) && root < |out| && s.state[root] == 1
    requires s.state[Top(s).node] == 1 && start.state[Top(s).node] == 0 && Reaches(EdgesOf(out), root, to)
    ensures ExploresFrom(out, start, Examined(s, to), root)
  {
  }

  lemma MoveExplores(out: Adjacency, start: Search, s: Search, move: Move, root: nat)
    requires InRange(out, |out|) && Reachable(out, start) && start.stack == [] && Reachable(out, s) && s.stack != []
    requires ExploresFrom(out, start, s, root) && Enabled(out, s, move) && !move.EnterRoot?
    ensures ExploresFrom(out, start, After(out, s, move), root)
  {
    ReachableOk(out, start);
    ReachableOk(out, s);
    TopIsReached(out, start, s, root);
    match move
    case FinishTop => FinishExplores(out, start, s, root);
    case ExamineEdge(to) =>
      NextIsReached(out, root, Top(s).node, to);
      ExamineExplores(out, start, s, to, root);
  }

  /** With nothing open, what is finished leads to finished nodes only. */
  lemma FinishedIsClosed(out: Adjacency, s: Search, u: nat, v: nat)
    requires SearchOk(out, s) && s.stack == [] && u < |out| && s.state[u] == 2 && v in out[u]
    ensures v < |out| && s.state[v] == 2
  {
    assert out[u][..s.taken[u]] == out[u];
    SurvivingMembers(u, out[u], s.dropped, v);
    if v in s.dag[u] {
      assert KeptEdgeOk(out, s, u, v);
    } else {
      assert (u, v) in s.dropped;
      var walk :| WalkFromTo(EdgesOf(s.dag), walk, v, u);
      if 1 < |walk| {
        FirstStep(EdgesOf(s.dag), walk);
        EdgeIffListed(s.dag, v, walk[1]);
        assert KeptEdgeOk(out, s, v, walk[1]);
      }
    }
  }

  lemma ReachedIsFinished(out: Adjacency, s: Search, root: nat, v: nat)
    requires SearchOk(out, s) && s.stack == [] && root < |out| && s.state[root] == 2
    requires Reaches(EdgesOf(out), root, v)
    ensures v < |out| && s.state[v] == 2
  {
    var finished := set u: nat | u < |out| && s.state[u] == 2;
    forall e | e in EdgesOf(out) && e.0 in finished ensures e.1 in finished {
      EdgeIffListed(out, e.0, e.1);
      FinishedIsClosed(out, s, e.0, e.1);
    }
    ClosedUnderReach(EdgesOf(out), finished, root, v);
  }

  /** No earlier root reaches this one. */
  ghost predicate IsFreshRoot(out: Adjacency, roots: seq<nat>, i: nat)
  {
    i < |roots| && forall j | 0 <= j < i :: !Reaches(EdgesOf(out), roots[j], roots[i])
  }

  /** No kept edge leads back to the node from what it reaches. */
  ghost predicate IsCutAt(out: Adjacency, dag: Adjacency, v: nat)
  {
    forall u: nat | u < |dag| && Reaches(EdgesOf(out), v, u) :: v !in dag[u]
  }

  ghost predicate IsReachedByFirst(out: Adjacency, roots: seq<nat>, n: nat, v: nat)
    requires n <= |roots|
  {
    exists j :: 0 <= j < n && Reaches(EdgesOf(out), roots[j], v)
  }

  ghost predicate AreFinished(s: Search, roots: seq<nat>, n: nat)
    requires n <= |roots|
  {
    forall i | 0 <= i < n :: roots[i] < |s.state| && s.state[roots[i]] == 2
  }

  ghost predicate OnlyReached(out: Adjacency, s: Search, roots: seq<nat>, n: nat)
    requires n <= |roots|
  {
    forall v: nat {:trigger IsReachedByFirst(out, roots, n, v)} | v < |s.state| && s.state[v] == 2 ::
      IsReachedByFirst(out, roots, n, v)
  }

  ghost predicate FreshAreCut(out: Adjacency, dag: Adjacency, roots: seq<nat>, n: nat)
    requires n <= |roots|
  {
    forall i | 0 <= i < n && IsFreshRoot(out, roots, i) :: IsCutAt(out, dag, roots[i])
  }

  /** The first roots have been searched, and nothing else. */
  ghost predicate HasSearched(out: Adjacency, s: Search, roots: seq<nat>, n: nat)
  {
    && n <= |roots| && Sized(out, s)
    && AreFinished(s, roots, n) && OnlyReached(out, s, roots, n) && FreshAreCut(out, s.dag, roots, n)
  }

  lemma ReachedByMore(out: Adjacency, roots: seq<nat>, n: nat, v: nat)
    requires n < |roots| && (IsReachedByFirst(out, roots, n, v) || Reaches(EdgesOf(out), roots[n], v))
    ensures IsReachedByFirst(out, roots, n + 1, v)
  {
    if IsReachedByFirst(out, roots, n, v) {
      var j :| 0 <= j < n && Reaches(EdgesOf(out), roots[j], v);
    }
  }

  /** A root that is finished before its turn is reached by an earlier one. */
  lemma FinishedIsNotFresh(out: Adjacency, s: Search, roots: seq<nat>, n: nat)
    requires n < |roots| && OnlyReached(out, s, roots, n) && roots[n] < |s.state| && s.state[roots[n]] == 2
    ensures !IsFreshRoot(out, roots, n)
  {
    assert IsReachedByFirst(out, roots, n, roots[n]);
    var j :| 0 <= j < n && Reaches(EdgesOf(out), roots[j], roots[n]);
  }

  lemma MoreAreCut(out: Adjacency, dag: Adjacency, roots: seq<nat>, n: nat)
    requires n < |roots| && FreshAreCut(out, dag, roots, n)
    requires IsFreshRoot(out, roots, n) ==> IsCutAt(out, dag, roots[n])
    ensures FreshAreCut(out, dag, roots, n + 1)
  {
  }

  lemma SkippedRoot(out: Adjacency, s: Search, roots: seq<nat>, n: nat)
    requires HasSearched(out, s, roots, n) && n < |roots| && roots[n] < |out| && s.state[roots[n]] == 2
    ensures HasSearched(out, s, roots, n + 1)
  {
    FinishedIsNotFresh(out, s, roots, n);
    MoreAreCut(out, s.dag, roots, n);
    MoreAreReached(out, s, roots, n);
  }

  lemma MoreAreReached(out: Adjacency, s: Search, roots: seq<nat>, n: nat)
    requires n < |roots| && OnlyReached(out, s, roots, n)
    ensures OnlyReached(out, s, roots, n + 1)
  {
    forall v: nat | v < |s.state| && s.state[v] == 2 ensures IsReachedByFirst(out, roots, n + 1, v) {
      ReachedByMore(out, roots, n, v);
    }
  }

  /** What was cut stays so: everything the root reaches is finished. */
  lemma StaysCut(out: Adjacency, s: Search, t: Search, root: nat)
    requires SearchOk(out, s) && s.stack == [] && root < |out| && s.state[root] == 2
    requires Sized(out, t) && KeepsFinished(s, t) && IsCutAt(out, s.dag, root)
    ensures IsCutAt(out, t.dag, root)
  {
    forall u: nat | u < |t.dag| && Reaches(EdgesOf(out), root, u) ensures root !in t.dag[u] {
      ReachedIsFinished(out, s, root, u);
    }
  }

  lemma ExploredIsReached(out: Adjacency, s: Search, t: Search, roots: seq<nat>, n: nat)
    requires n < |roots| && OnlyReached(out, s, roots, n) && ExploresFrom(out, s, t, roots[n])
    ensures OnlyReached(out, t, roots, n + 1)
  {
    forall v: nat | v < |t.state| && t.state[v] == 2 ensures IsReachedByFirst(out, roots, n + 1, v) {
      assert s.state[v] == 2 ==> IsReachedByFirst(out, roots, n, v);
      ReachedByMore(out, roots, n, v);
    }
  }

  lemma StayCut(out: Adjacency, s: Search, t: Search, roots: seq<nat>, n: nat)
    requires InRange(out, |out|) && Reachable(out, s) && s.stack == [] && Sized(out, t) && KeepsFinished(s, t)
    requires n <= |roots| && AreFinished(s, roots, n) && FreshAreCut(out, s.dag, roots, n)
    ensures FreshAreCut(out, t.dag, roots, n)
  {
    ReachableOk(out, s);
    forall i | 0 <= i < n && IsFreshRoot(out, roots, i) ensures IsCutAt(out, t.dag, roots[i]) {
      StaysCut(out, s, t, roots[i]);
    }
  }

  lemma ExploredRoot(out: Adjacency, s: Search, t: Search, roots: seq<nat>, n: nat)
    requires HasSearched(out, s, roots, n) && n < |roots| && roots[n] < |out| && ExploresFrom(out, s, t, roots[n])
    requires InRange(out, |out|) && Reachable(out, s) && s.stack == [] && t.state[roots[n]] == 2
    ensures HasSearched(out, t, roots, n + 1)
  {
    ExploredIsReached(out, s, t, roots, n);
    StayCut(out, s, t, roots, n);
    MoreAreCut(out, t.dag, roots, n);
  }

  ghost predicate AreAllNodes(out: Adjacency, roots: seq<nat>)
  {
    AreNodes(out, roots) && forall v: nat | v < |out| :: v in roots
  }

  /** The arrays hold what the ghost search records. */
  ghost predicate Mirrors(state: array<nat>, dag: array<seq<nat>>, dagIndeg: array<nat>, s: Search)
    reads state, dag, dagIndeg
  {
    state != dagIndeg && state[..] == s.state && dag[..] == s.dag && CountsInflow(dagIndeg, s.dag)
  }

  ghost predicate CountsInflow(indeg: array<nat>, adj: Adjacency)
    reads indeg
  {
    indeg.Length == |adj| && forall v: nat | v < indeg.Length :: indeg[v] == Inflow(adj, {}, v, |adj|)
  }

  /** Appends an edge to the kept graph and to its indegree counts. */
  method KeepEdge(dag: array<seq<nat>>, dagIndeg: array<nat>, node: nat, to: nat)
    requires node < dag.Length && to < dag.Length && CountsInflow(dagIndeg, dag[..])
    modifies dag, dagIndeg
    ensures dag[..] == old(dag[..])[node := old(dag[node]) + [to]] && CountsInflow(dagIndeg, dag[..])
  {
    forall v: nat
      ensures Inflow(dag[..][node := dag[node] + [to]], {}, v, dag.Length)
              == Inflow(dag[..], {}, v, dag.Length) + (if v == to then 1 else 0)
    {
      InflowPush(dag[..], node, to, v, dag.Length);
    }
    dag[node] := dag[node] + [to];
    dagIndeg[to] := dagIndeg[to] + 1;
  }

  /** One iteration of the inner loop makes exactly one move. */
  method ExamineTop(out: Adjacency, state: array<nat>, dag: array<seq<nat>>, dagIndeg: array<nat>,
                    stack: seq<Frame>, ghost s: Search)
    returns (stack': seq<Frame>, ghost move: Move)
    requires InRange(out, |out|) && Sized(out, s) && s.stack == stack != [] && Top(s).node < |out|
    requires Mirrors(state, dag, dagIndeg, s)
    modifies state, dag, dagIndeg
    ensures !move.EnterRoot? && Enabled(out, s, move)
    ensures stack' == After(out, s, move).stack && Mirrors(state, dag, dagIndeg, After(out, s, move))
  {
    var frame := stack[|stack| - 1];
    var targets := out[frame.node];
    if frame.next >= |targets| {
      move := FinishTop;
      state[frame.node] := 2;
      stack' := stack[..|stack| - 1];
    } else {
      var to := targets[frame.next];
      assert to in targets;
      move := ExamineEdge(to);
      stack' := stack[|stack| - 1 := Frame(frame.node, frame.next + 1)];
      if state[to] != 1 {
        KeepEdge(dag, dagIndeg, frame.node, to);
        if state[to] == 0 {
          state[to] := 1;
          stack' := stack' + [Frame(to, 0)];
        }
      }
    }
  }

  // ---------------------------------------------------------------------------------------------
  // The stack against the recursion
  // ---------------------------------------------------------------------------------------------

  ghost function MarksOf(s: Search): Marks
  {
    Marks(s.state, s.dag)
  }

  /** What the open nodes still have to do comes to this. */
  ghost predicate UnwindsTo(out: Adjacency, s: Search, m: Marks)
  {
    && InRange(out, |out|) && Fit(out, MarksOf(s)) && AreFrames(out, s.stack)
    && Unwound(out, MarksOf(s), s.stack) == m
  }

  lemma FinishUnwinds(out: Adjacency, s: Search, front: seq<Frame>)
    requires InRange(out, |out|) && Sized(out, s) && TopExhausted(out, s) && s.stack == front + [Top(s)]
    requires AreFrames(out, s.stack)
    ensures AreFrames(out, front) && Fit(out, MarksOf(Finish(s))) && Finish(s).stack == front
    ensures Unwound(out, MarksOf(Finish(s)), front) == Unwound(out, MarksOf(s), s.stack)
  {
    assert Top(s) in s.stack;
    DoneUnwinds(out, MarksOf(s), front, Top(s).node);
  }

  lemma ExaminedMarks(out: Adjacency, s: Search, to: nat, front: seq<Frame>)
    requires Sized(out, s) && TopExamines(out, s, to) && s.stack == front + [Top(s)]
    ensures var m, t, u := MarksOf(s), Examined(s, to), Top(s).node;
      var rest := front + [Frame(u, Top(s).next + 1)];
      if s.state[to] == 1 then MarksOf(t) == m && t.stack == rest
      else if s.state[to] != 0 then MarksOf(t) == WithEdge(m, u, to) && t.stack == rest
      else MarksOf(t) == Coloured(WithEdge(m, u, to), to, 1) && t.stack == rest + [Frame(to, 0)]
  {
    var next := Frame(Top(s).node, Top(s).next + 1);
    assert s.stack[|s.stack| - 1 := next] == front + [next];
  }

  lemma ExamineUnwinds(out: Adjacency, s: Search, to: nat, front: seq<Frame>)
    requires InRange(out, |out|) && Sized(out, s) && TopExamines(out, s, to) && s.stack == front + [Top(s)]
    requires AreFrames(out, s.stack)
    ensures var t := Examined(s, to); Fit(out, MarksOf(t)) && AreFrames(out, t.stack)
    ensures Unwound(out, MarksOf(Examined(s, to)), Examined(s, to).stack) == Unwound(out, MarksOf(s), s.stack)
  {
    FramesAdvance(out, front, Top(s), to);
    ExaminedMarks(out, s, to, front);
    EdgeUnwinds(out, MarksOf(s), front, Top(s).node, Top(s).next);
  }

  ghost predicate VisitsRoot(out: Adjacency, s: Search, t: Search, root: nat)
  {
    && InRange(out, |out|) && Fit(out, MarksOf(s)) && root < |out|
    && MarksOf(t) == VisitRoot(out, MarksOf(s), root)
  }

  /** The marks are those of the recursive search from the first roots. */
  ghost predicate HasVisited(out: Adjacency, s: Search, roots: seq<nat>, n: nat)
  {
    InRange(out, |out|) && AreNodes(out, roots) && n <= |roots| && MarksOf(s) == VisitRoots(out, roots, n)
  }

  /** The search is between two roots, and done with the first ones. */
  ghost predicate IsDoneWith(out: Adjacency, s: Search, roots: seq<nat>, n: nat)
  {
    && InRange(out, |out|) && Reachable(out, s) && s.stack == []
    && HasSearched(out, s, roots, n) && HasVisited(out, s, roots, n)
  }

  lemma StartsDone(out: Adjacency, roots: seq<nat>)
    requires InRange(out, |out|) && AreNodes(out, roots)
    ensures var s := InitialSearch(|out|);
      && IsDoneWith(out, s, roots, 0) && Work(s) == 0
      && forall v: nat :: Inflow(s.dag, {}, v, |out|) == 0
  {
    InitialReachable(out);
  }

  lemma SearchedAll(out: Adjacency, s: Search, roots: seq<nat>)
    requires AreAllNodes(out, roots) && IsDoneWith(out, s, roots, |roots|)
    ensures IsBackEdgeRemoval(out, s.dag, s.dropped, s.rank) && Work(s) == |out| + Sum(Lengths(out))
    ensures FreshAreCut(out, s.dag, roots, |roots|) && s.dag == KeptEdges(out, roots)
  {
    ReachableDone(out, s, roots);
  }

  lemma NextVisited(out: Adjacency, s: Search, t: Search, roots: seq<nat>, n: nat)
    requires HasVisited(out, s, roots, n) && n < |roots|
    requires VisitsRoot(out, s, t, roots[n]) || (t == s && roots[n] < |s.state| && s.state[roots[n]] != 0)
    ensures HasVisited(out, t, roots, n + 1)
  {
  }

  lemma EnterUnwinds(out: Adjacency, s: Search, root: nat)
    requires InRange(out, |out|) && RootUnvisited(out, s, root)
    ensures UnwindsTo(out, Enter(s, root), VisitRoot(out, MarksOf(s), root))
  {
    UnwoundTop(out, MarksOf(Enter(s, root)), [], Frame(root, 0));
    assert [] + [Frame(root, 0)] == Enter(s, root).stack;
  }

  /** No move of the search but the first changes what comes out in the end. */
  lemma MoveUnwinds(out: Adjacency, s: Search, move: Move, m: Marks)
    requires InRange(out, |out|) && s.stack != [] && UnwindsTo(out, s, m)
    requires Enabled(out, s, move) && !move.EnterRoot?
    ensures UnwindsTo(out, After(out, s, move), m)
  {
    var front := s.stack[..|s.stack| - 1];
    assert s.stack == front + [Top(s)];
    match move
    case FinishTop => FinishUnwinds(out, s, front);
    case ExamineEdge(to) => ExamineUnwinds(out, s, to, front);
  }

  lemma MovesNeverUncolour(out: Adjacency, s: Search, move: Move)
    requires Enabled(out, s, move) && forall v | 0 <= v < |out| :: s.state[v] <= 2
    ensures Sized(out, After(out, s, move))
    ensures forall v | 0 <= v < |out| :: s.state[v] <= After(out, s, move).state[v]
  {
  }

  /** The search below one root: the inner loop. */
  method Explore(out: Adjacency, state: array<nat>, dag: array<seq<nat>>, dagIndeg: array<nat>,
                 root: nat, ghost s: Search)
    returns (ghost s': Search, ghost iterations: nat)
    requires InRange(out, |out|) && Reachable(out, s) && s.stack == [] && Mirrors(state, dag, dagIndeg, s)
    requires root < |out| == |s.state| == |s.depth| && s.state[root] == 0
    modifies state, dag, dagIndeg
    ensures Reachable(out, s') && s'.stack == [] && Mirrors(state, dag, dagIndeg, s')
    ensures |s'.state| == |out| && s'.state[root] == 2 && Work(s') == Work(s) + iterations
    ensures ExploresFrom(out, s, s', root)
    ensures VisitsRoot(out, s, s', root)
  {
    ghost var visited := VisitRoot(out, MarksOf(s), root);
    var stack := [Frame(root, 0)];
    MoveReachable(out, s, EnterRoot(root));
    ReachableOk(out, s);
    EnterExplores(out, s, root);
    EnterUnwinds(out, s, root);
    s' := Enter(s, root);
    state[root] := 1;
    iterations := 0;
    while stack != []
      invariant Reachable(out, s') && s'.stack == stack && |s'.state| == |out|
      invariant Work(s') == Work(s) + iterations
      invariant Mirrors(state, dag, dagIndeg, s')
      invariant ExploresFrom(out, s, s', root) && s'.state[root] != 0
      invariant UnwindsTo(out, s', visited)
      decreases |out| + Sum(Lengths(out)) - Work(s')
    {
      ReachableBounds(out, s');
      ghost var move;
      stack, move := ExamineTop(out, state, dag, dagIndeg, stack, s');
      MovesNeverUncolour(out, s', move);
      MoveExplores(out, s, s', move, root);
      MoveUnwinds(out, s', move, visited);
      MoveReachable(out, s', move);
      s' := After(out, s', move);
      iterations := iterations + 1;
      ReachableBounds(out, s');
    }
    ReachableBounds(out, s');
  }

  /** The search from one root, unless it has been there: the outer loop. */
  method SearchRoot(out: Adjacency, state: array<nat>, dag: array<seq<nat>>, dagIndeg: array<nat>,
                    roots: seq<nat>, r: nat, ghost s: Search)
    returns (ghost s': Search, ghost iterations: nat)
    requires Mirrors(state, dag, dagIndeg, s) && r < |roots| && IsDoneWith(out, s, roots, r)
    modifies state, dag, dagIndeg
    ensures Mirrors(state, dag, dagIndeg, s') && IsDoneWith(out, s', roots, r + 1)
    ensures Work(s') == Work(s) + iterations
  {
    ReachableBounds(out, s);
    if state[roots[r]] == 0 {
      s', iterations := Explore(out, state, dag, dagIndeg, roots[r], s);
      ExploredRoot(out, s, s', roots, r);
      NextVisited(out, s, s', roots, r);
    } else {
      s', iterations := s, 0;
      SkippedRoot(out, s, roots, r);
      NextVisited(out, s, s, roots, r);
    }
  }

  /** Iterative three-colour depth-first search from `roots`, which must mention every node: removes the
      edges that lead to an open node. A root that no earlier one reaches is entered again from nothing it
      reaches. `steps` counts the iterations of the inner loop. */
  method RemoveBackEdges(out: Adjacency, roots: seq<nat>)
    returns (dag: array<seq<nat>>, dagIndeg: array<nat>,
             ghost dropped: set<(nat, nat)>, ghost rank: map<nat, nat>, ghost steps: nat)
    requires InRange(out, |out|)
    requires AreAllNodes(out, roots)
    ensures fresh(dag) && fresh(dagIndeg) && dag.Length == dagIndeg.Length == |out|
    ensures IsBackEdgeRemoval(out, dag[..], dropped, rank)
    ensures FreshAreCut(out, dag[..], roots, |roots|)
    ensures CountsInflow(dagIndeg, dag[..])
    ensures steps == |out| + Sum(Lengths(out))
    ensures dag[..] == KeptEdges(out, roots)
  {
    var count := |out|;
    var state := new nat[count](_ => 0);
    dag := new seq<nat>[count](_ => []);
    dagIndeg := new nat[count](_ => 0);
    ghost var s := InitialSearch(count);
    steps := 0;
    StartsDone(out, roots);
    for r := 0 to |roots|
      invariant Mirrors(state, dag, dagIndeg, s) && IsDoneWith(out, s, roots, r) && Work(s) == steps
    {
      ghost var iterations;
      s, iterations := SearchRoot(out, state, dag, dagIndeg, roots, r, s);
      steps := steps + iterations;
    }
    SearchedAll(out, s, roots);
    dropped, rank := s.dropped, s.rank;
  }
}
