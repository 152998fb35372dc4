/** Deterministic left-to-right layered layout of a topology graph. */
module GraphLayout {
  import opened AdjacencyLists
  import opened BackEdges
  import opened Digraph
  import opened Layering
  import opened RecursiveSearch
  import opened Wrappers

  const NODE_WIDTH: nat := 220
  const NODE_HEIGHT: nat := 100
  const GAP_X: nat := 90
  const GAP_Y: nat := 24

  datatype Position = Position(x: real, y: real)
  datatype Node = Node(id: string, position: Option<Position>)
  datatype Edge = Edge(source: string, target: string)

  // ---------------------------------------------------------------------------------------------
  // Duplicate nodes and the adjacency lists
  // ---------------------------------------------------------------------------------------------

  ghost predicate HasId(nodes: seq<Node>, id: string)
  {
    exists i :: 0 <= i < |nodes| && nodes[i].id == id
  }

  /** The nodes without later duplicates of an id. */
  ghost function FirstById(nodes: seq<Node>): seq<Node>
  {
    if nodes == [] then []
    else
      var front := FirstById(nodes[..|nodes| - 1]);
      var node := nodes[|nodes| - 1];
      if HasId(front, node.id) then front else front + [node]
  }

  ghost predicate DistinctIds(nodes: seq<Node>)
  {
    forall i, j | 0 <= i < j < |nodes| :: nodes[i].id != nodes[j].id
  }

  lemma {:induction false} FirstByIdMeaning(nodes: seq<Node>)
    ensures DistinctIds(FirstById(nodes))
    ensures forall id :: HasId(FirstById(nodes), id) <==> HasId(nodes, id)
  {
    if nodes != [] {
      var init, node := nodes[..|nodes| - 1], nodes[|nodes| - 1];
      var front := FirstById(init);
      FirstByIdMeaning(init);
      forall id ensures HasId(FirstById(nodes), id) <==> HasId(nodes, id) {
        HasIdAppend(init, node, id);
        HasIdAppend(front, node, id);
        assert nodes == init + [node];
      }
    }
  }

  /** The first node of its id. */
  predicate IsFirst(nodes: seq<Node>, i: nat)
  {
    i < |nodes| && forall k | 0 <= k < i :: nodes[k].id != nodes[i].id
  }

  /** The nodes before `i` that are the first of their id. */
  function FirstsBefore(nodes: seq<Node>, i: nat): set<nat>
  {
    set k: nat | k < i && IsFirst(nodes, k)
  }

  /** The first node of every id is kept, behind those of the ids that came before. */
  lemma {:induction false} FirstsAreKept(nodes: seq<Node>, i: nat)
    requires IsFirst(nodes, i)
    ensures |FirstsBefore(nodes, i)| < |FirstById(nodes)| && FirstById(nodes)[|FirstsBefore(nodes, i)|] == nodes[i]
  {
    var init, node := nodes[..|nodes| - 1], nodes[|nodes| - 1];
    FirstByIdMeaning(init);
    assert FirstsBefore(init, i) == FirstsBefore(nodes, i);
    if i < |init| {
      FirstsAreKept(init, i);
    } else {
      assert forall k | 0 <= k < |init| :: init[k] == nodes[k];
      assert !HasId(init, node.id);
      FirstsCount(init);
    }
  }

  /** There are as many kept nodes as first ones. */
  lemma {:induction false} FirstsCount(nodes: seq<Node>)
    ensures |FirstById(nodes)| == |FirstsBefore(nodes, |nodes|)|
  {
    if nodes == [] {
      assert FirstsBefore(nodes, 0) == {};
    } else {
      var init, last := nodes[..|nodes| - 1], nodes[|nodes| - 1];
      assert nodes == init + [last];
      FirstsCount(init);
      FirstByIdMeaning(init);
      FirstsGrow(init, last);
    }
  }

  lemma FirstsGrow(init: seq<Node>, last: Node)
    ensures |FirstsBefore(init + [last], |init| + 1)| ==
        |FirstsBefore(init, |init|)| + if HasId(init, last.id) then 0 else 1
  {
    var nodes := init + [last];
    assert forall k | 0 <= k < |init| :: nodes[k] == init[k];
    assert forall k: nat | k < |init| :: IsFirst(nodes, k) <==> IsFirst(init, k);
    assert IsFirst(nodes, |init|) <==> !HasId(init, last.id);
    assert FirstsBefore(nodes, |init| + 1) ==
      FirstsBefore(init, |init|) + if IsFirst(nodes, |init|) then {|init|} else {};
  }

  lemma HasIdAppend(nodes: seq<Node>, node: Node, id: string)
    ensures HasId(nodes + [node], id) <==> HasId(nodes, id) || node.id == id
  {
    if HasId(nodes, id) {
      var i :| 0 <= i < |nodes| && nodes[i].id == id;
      assert (nodes + [node])[i].id == id;
    }
    assert (nodes + [node])[|nodes|] == node;
  }

  /** `index` maps exactly the ids of `unique` to their positions. */
  ghost predicate IsIndex(unique: seq<Node>, index: map<string, nat>)
  {
    && (forall i: nat | i < |unique| :: unique[i].id in index && index[unique[i].id] == i)
    && (forall id | id in index :: index[id] < |unique| && unique[index[id]].id == id)
  }

  method Deduplicate(nodes: seq<Node>) returns (unique: seq<Node>, index: map<string, nat>)
    ensures unique == FirstById(nodes) && IsIndex(unique, index)
  {
    unique, index := [], map[];
    for k := 0 to |nodes|
      invariant unique == FirstById(nodes[..k]) && IsIndex(unique, index)
    {
      var n := nodes[k];
      assert nodes[..k + 1][..k] == nodes[..k];
      assert n.id in index <==> HasId(unique, n.id);
      if n.id !in index {
        index := index[n.id := |unique|];
        unique := unique + [n];
      }
    }
    assert nodes[..|nodes|] == nodes;
  }

  /** An edge between two different known nodes, as a pair of node numbers. */
  ghost predicate Connects(unique: seq<Node>, e: Edge, s: nat, t: nat)
  {
    s < |unique| && t < |unique| && s != t && unique[s].id == e.source && unique[t].id == e.target
  }

  /** The edges that count for layering: no missing endpoints and no self-links. */
  ghost function GraphEdges(unique: seq<Node>, edges: seq<Edge>): set<(nat, nat)>
  {
    set s: nat, t: nat | s < |unique| && t < |unique| && IsGraphEdge(unique, edges, s, t) :: (s, t)
  }

  ghost predicate IsGraphEdge(unique: seq<Node>, edges: seq<Edge>, s: nat, t: nat)
  {
    exists k :: 0 <= k < |edges| && Connects(unique, edges[k], s, t)
  }

  lemma GraphEdgeAppend(unique: seq<Node>, edges: seq<Edge>, e: Edge)
    ensures forall s: nat, t: nat ::
      IsGraphEdge(unique, edges + [e], s, t) <==> IsGraphEdge(unique, edges, s, t) || Connects(unique, e, s, t)
  {
    forall s: nat, t: nat
      ensures IsGraphEdge(unique, edges + [e], s, t) <==> IsGraphEdge(unique, edges, s, t) || Connects(unique, e, s, t)
    {
      if IsGraphEdge(unique, edges, s, t) {
        var k :| 0 <= k < |edges| && Connects(unique, edges[k], s, t);
        assert (edges + [e])[k] == edges[k];
      }
      assert (edges + [e])[|edges|] == e;
    }
  }

  /** The adjacency lists hold exactly the edges that count. */
  ghost predicate ListsEdges(unique: seq<Node>, edges: seq<Edge>, out: Adjacency)
  {
    && InRange(out, |unique|)
    && (forall s: nat, t: nat | s < |out| :: t in out[s] <==> IsGraphEdge(unique, edges, s, t))
  }

  /** The edge joins two different known nodes. */
  predicate IsCounted(index: map<string, nat>, e: Edge)
  {
    e.source in index && e.target in index && index[e.source] != index[e.target]
  }

  /** The targets of a node's edges, in edge order and as often as they are given. */
  function TargetsOf(index: map<string, nat>, edges: seq<Edge>, s: nat): seq<nat>
  {
    if edges == [] then []
    else
      var e := edges[|edges| - 1];
      TargetsOf(index, edges[..|edges| - 1], s)
      + if IsCounted(index, e) && index[e.source] == s then [index[e.target]] else []
  }

  /** The targets of earlier edges come first. */
  lemma {:induction false} TargetsKeepEdgeOrder(index: map<string, nat>, first: seq<Edge>, second: seq<Edge>, s: nat)
    ensures TargetsOf(index, first + second, s) == TargetsOf(index, first, s) + TargetsOf(index, second, s)
  {
    if second == [] {
      assert first + second == first;
    } else {
      var edges, front := first + second, second[..|second| - 1];
      assert edges[..|edges| - 1] == first + front && edges[|edges| - 1] == second[|second| - 1];
      TargetsKeepEdgeOrder(index, first, front, s);
    }
  }

  /** How many edges lead to a node. */
  function EntriesOf(index: map<string, nat>, edges: seq<Edge>, t: nat): nat
  {
    if edges == [] then 0
    else
      var e := edges[|edges| - 1];
      EntriesOf(index, edges[..|edges| - 1], t) + if IsCounted(index, e) && index[e.target] == t then 1 else 0
  }

  lemma CountedConnects(unique: seq<Node>, index: map<string, nat>, e: Edge, s: nat, t: nat)
    requires DistinctIds(unique) && IsIndex(unique, index)
    ensures Connects(unique, e, s, t) <==> IsCounted(index, e) && index[e.source] == s && index[e.target] == t
  {
  }

  lemma {:induction false} TargetsAreEdges(unique: seq<Node>, index: map<string, nat>, edges: seq<Edge>, s: nat, t: nat)
    requires DistinctIds(unique) && IsIndex(unique, index)
    ensures t in TargetsOf(index, edges, s) <==> IsGraphEdge(unique, edges, s, t)
  {
    if edges != [] {
      var front, e := edges[..|edges| - 1], edges[|edges| - 1];
      assert edges == front + [e];
      TargetsAreEdges(unique, index, front, s, t);
      GraphEdgeAppend(unique, front, e);
      CountedConnects(unique, index, e, s, t);
    }
  }

  lemma {:induction false} EntriesAreEdges(unique: seq<Node>, index: map<string, nat>, edges: seq<Edge>, t: nat)
    requires DistinctIds(unique) && IsIndex(unique, index)
    ensures EntriesOf(index, edges, t) == 0 <==> forall s: nat :: !IsGraphEdge(unique, edges, s, t)
  {
    if edges != [] {
      var front, e := edges[..|edges| - 1], edges[|edges| - 1];
      assert edges == front + [e];
      EntriesAreEdges(unique, index, front, t);
      GraphEdgeAppend(unique, front, e);
      if IsCounted(index, e) && index[e.target] == t {
        CountedConnects(unique, index, e, index[e.source], t);
        assert IsGraphEdge(unique, edges, index[e.source], t);
      } else {
        forall s: nat ensures IsGraphEdge(unique, edges, s, t) <==> IsGraphEdge(unique, front, s, t) {
          CountedConnects(unique, index, e, s, t);
        }
      }
    }
  }

  /** The lists and in-degrees, pushed to edge by edge. */
  method BuildAdjacency(unique: seq<Node>, index: map<string, nat>, edges: seq<Edge>)
    returns (out: array<seq<nat>>, indeg: array<nat>)
    requires DistinctIds(unique) && IsIndex(unique, index)
    ensures fresh(out) && fresh(indeg) && out.Length == indeg.Length == |unique|
    ensures forall s: nat | s < |unique| :: out[s] == TargetsOf(index, edges, s)
    ensures forall t: nat | t < |unique| :: indeg[t] == EntriesOf(index, edges, t)
    ensures ListsEdges(unique, edges, out[..])
    ensures forall t: nat | t < |unique| :: indeg[t] == 0 <==> forall s: nat :: !IsGraphEdge(unique, edges, s, t)
  {
    out, indeg := PushEdges(|unique|, index, edges);
    forall s: nat, t: nat | s < |unique| ensures t in out[s] <==> IsGraphEdge(unique, edges, s, t) {
      TargetsAreEdges(unique, index, edges, s, t);
    }
    forall t: nat | t < |unique| ensures indeg[t] == 0 <==> forall s: nat :: !IsGraphEdge(unique, edges, s, t) {
      EntriesAreEdges(unique, index, edges, t);
    }
  }

  method PushEdges(count: nat, index: map<string, nat>, edges: seq<Edge>)
    returns (out: array<seq<nat>>, indeg: array<nat>)
    requires forall id | id in index :: index[id] < count
    ensures fresh(out) && fresh(indeg) && out.Length == indeg.Length == count
    ensures forall s: nat | s < count :: out[s] == TargetsOf(index, edges, s)
    ensures forall t: nat | t < count :: indeg[t] == EntriesOf(index, edges, t)
  {
    out := new seq<nat>[count](_ => []);
    indeg := new nat[count](_ => 0);
    for k := 0 to |edges|
      invariant forall s: nat | s < count :: out[s] == TargetsOf(index, edges[..k], s)
      invariant forall t: nat | t < count :: indeg[t] == EntriesOf(index, edges[..k], t)
    {
      var e := edges[k];
      assert edges[..k + 1][..k] == edges[..k];
      if IsCounted(index, e) {
        var s, t := index[e.source], index[e.target];
        out[s] := out[s] + [t];
        indeg[t] := indeg[t] + 1;
      }
    }
    assert edges[..|edges|] == edges;
  }

  /** The node numbers with (or without) an incoming edge, in input order. */
  method SelectNodes(indeg: array<nat>, entered: bool) returns (selected: seq<nat>)
    ensures Ascending(selected)
    ensures forall v: nat :: v in selected <==> v < indeg.Length && (indeg[v] != 0 <==> entered)
  {
    selected := [];
    for i := 0 to indeg.Length
      invariant Ascending(selected)
      invariant forall v: nat :: v in selected <==> v < i && (indeg[v] != 0 <==> entered)
    {
      if (indeg[i] != 0) == entered {
        assert forall k | 0 <= k < |selected| :: selected[k] in selected;
        selected := selected + [i];
      }
    }
  }

  /** Search roots: first the nodes without incoming edges, then the others, each in input order. */
  method SearchRoots(indeg: array<nat>) returns (roots: seq<nat>)
    ensures forall v: nat :: v in roots <==> v < indeg.Length
    ensures forall i | 0 <= i < |roots| :: roots[i] < indeg.Length
    ensures exists sources: nat :: sources <= |roots| && SplitsAscending(indeg[..], roots, sources)
  {
    var sources := SelectNodes(indeg, false);
    var entered := SelectNodes(indeg, true);
    roots := sources + entered;
    assert forall i | 0 <= i < |roots| :: roots[i] in roots;
    assert roots[..|sources|] == sources && roots[|sources|..] == entered;
    assert SplitsAscending(indeg[..], roots, |sources|);
  }

  ghost predicate Ascending(s: seq<nat>)
  {
    forall i, j | 0 <= i < j < |s| :: s[i] < s[j]
  }

  ghost predicate SplitsAscending(indeg: seq<nat>, roots: seq<nat>, sources: nat)
    requires sources <= |roots|
  {
    && Ascending(roots[..sources]) && Ascending(roots[sources..])
    && (forall v: nat :: v in roots[..sources] <==> v < |indeg| && indeg[v] == 0)
    && (forall v: nat :: v in roots[sources..] <==> v < |indeg| && indeg[v] != 0)
  }

  // ---------------------------------------------------------------------------------------------
  // Row placement
  // ---------------------------------------------------------------------------------------------

  /** Number of nodes before `i` that are placed automatically in layer `l`. */
  ghost function RowsBefore(unique: seq<Node>, layer: seq<nat>, l: nat, i: nat): nat
    requires i <= |unique| <= |layer|
  {
    if i == 0 then 0
    else RowsBefore(unique, layer, l, i - 1) + (if unique[i - 1].position.None? && layer[i - 1] == l then 1 else 0)
  }

  function GridPosition(column: nat, row: nat): Position
  {
    Position((column * (NODE_WIDTH + GAP_X)) as real, (row * (NODE_HEIGHT + GAP_Y)) as real)
  }

  ghost function Placed(unique: seq<Node>, layer: seq<nat>, i: nat): Position
    requires i < |unique| <= |layer|
  {
    match unique[i].position
    case Some(p) => p
    case None => GridPosition(layer[i], RowsBefore(unique, layer, layer[i], i))
  }

  ghost predicate IsPlacement(unique: seq<Node>, layer: seq<nat>, positions: map<string, Position>)
    requires |unique| <= |layer|
  {
    && (forall i: nat | i < |unique| ::
      unique[i].id in positions && positions[unique[i].id] == Placed(unique, layer, i))
    && (forall id | id in positions :: HasId(unique, id))
  }

  method PlaceRows(unique: seq<Node>, layer: seq<nat>) returns (positions: map<string, Position>)
    requires DistinctIds(unique) && |unique| == |layer|
    ensures IsPlacement(unique, layer, positions)
  {
    positions := map[];
    var rowInLayer: map<nat, nat> := map[];
    for i := 0 to |unique|
      invariant forall k: nat | k < i ::
          unique[k].id in positions && positions[unique[k].id] == Placed(unique, layer, k)
      invariant forall id | id in positions :: HasId(unique, id)
      invariant forall l: nat ::
        (if l in rowInLayer then rowInLayer[l] else 0) == RowsBefore(unique, layer, l, i)
    {
      var node := unique[i];
      assert HasId(unique, node.id);
      match node.position
      case Some(p) =>
        positions := positions[node.id := p];
      case None =>
        var l := layer[i];
        var row := if l in rowInLayer then rowInLayer[l] else 0;
        rowInLayer := rowInLayer[l := row + 1];
        positions := positions[node.id := GridPosition(l, row)];
    }
  }

  lemma {:induction false} RowsBeforeGrows(unique: seq<Node>, layer: seq<nat>, l: nat, i: nat, j: nat)
    requires i <= j <= |unique| <= |layer|
    ensures RowsBefore(unique, layer, l, i) <= RowsBefore(unique, layer, l, j)
    ensures i < j && unique[i].position.None? && layer[i] == l ==>
      RowsBefore(unique, layer, l, i) < RowsBefore(unique, layer, l, j)
    decreases j - i
  {
    if i < j {
      RowsBeforeGrows(unique, layer, l, i, j - 1);
    }
  }

  /** Two automatically placed nodes never share coordinates. */
  lemma DistinctCoordinates(unique: seq<Node>, layer: seq<nat>, i: nat, j: nat)
    requires i < j < |unique| == |layer|
    requires unique[i].position.None? && unique[j].position.None?
    ensures Placed(unique, layer, i) != Placed(unique, layer, j)
  {
    if layer[i] == layer[j] {
      RowsBeforeGrows(unique, layer, layer[i], i, j);
    }
  }

  /** Rows within a layer are contiguous and follow input order: every row below an occupied one is
      occupied, by an earlier node. */
  lemma {:induction false} ContiguousRows(unique: seq<Node>, layer: seq<nat>, l: nat, i: nat, row: nat) returns (k: nat)
    requires i <= |unique| == |layer| && row < RowsBefore(unique, layer, l, i)
    ensures k < i && unique[k].position.None? && layer[k] == l
    ensures Placed(unique, layer, k) == GridPosition(l, row)
  {
    if row < RowsBefore(unique, layer, l, i - 1) {
      k := ContiguousRows(unique, layer, l, i - 1, row);
    } else {
      k := i - 1;
    }
  }

  /** The earlier nodes of the layer that are placed automatically. */
  function AboveInLayer(unique: seq<Node>, layer: seq<nat>, i: nat): set<nat>
    requires i < |unique| <= |layer|
  {
    set k: nat | k < i && unique[k].position.None? && layer[k] == layer[i]
  }

  lemma {:induction false} RowsAreCounted(unique: seq<Node>, layer: seq<nat>, l: nat, i: nat)
    requires i <= |unique| <= |layer|
    ensures RowsBefore(unique, layer, l, i) == |set k: nat | k < i && unique[k].position.None? && layer[k] == l|
  {
    var rows := set k: nat | k < i && unique[k].position.None? && layer[k] == l;
    if i == 0 {
      assert rows == {};
    } else {
      RowsAreCounted(unique, layer, l, i - 1);
      var before := set k: nat | k < i - 1 && unique[k].position.None? && layer[k] == l;
      assert rows == before + if unique[i - 1].position.None? && layer[i - 1] == l then {i - 1} else {};
    }
  }

  /** Layers go to the right, 310 apart, and rows downwards, 124 apart; a node with a position has that. */
  ghost predicate RunsToTheRight(unique: seq<Node>, layer: seq<nat>, positions: map<string, Position>)
    requires |unique| <= |layer|
  {
    forall i: nat | i < |unique| ::
      && unique[i].id in positions
      && var at := positions[unique[i].id];
         if unique[i].position.Some? then at == unique[i].position.value
         else at.x == (layer[i] * 310) as real && at.y == (|AboveInLayer(unique, layer, i)| * 124) as real
  }

  lemma PlacementRunsToTheRight(unique: seq<Node>, layer: seq<nat>, positions: map<string, Position>)
    requires |unique| <= |layer| && IsPlacement(unique, layer, positions)
    ensures RunsToTheRight(unique, layer, positions)
  {
    forall i: nat | i < |unique|
      ensures RowsBefore(unique, layer, layer[i], i) == |AboveInLayer(unique, layer, i)|
    {
      RowsAreCounted(unique, layer, layer[i], i);
    }
  }

  // ---------------------------------------------------------------------------------------------
  // The layout
  // ---------------------------------------------------------------------------------------------

  /** Layering by longest kept path, where only edges that close a cycle of kept edges are not kept. */
  ghost predicate IsCycleFreeLayering(all: set<(nat, nat)>, kept: set<(nat, nat)>, layer: seq<nat>)
  {
    && kept <= all && Acyclic(kept)
    && (forall e | e in all - kept :: Reaches(kept, e.1, e.0))
    && (forall v: nat | v < |layer| :: IsLongestWalkTo(kept, v, layer[v]))
  }

  ghost predicate IsEntered(all: set<(nat, nat)>, v: nat)
  {
    exists u: nat :: (u, v) in all
  }

  /** The search starts at `a` before it would start at `b`: nodes without incoming edges come first, then the
      others, each in input order. */
  ghost predicate StartsBefore(all: set<(nat, nat)>, a: nat, b: nat)
  {
    if IsEntered(all, a) == IsEntered(all, b) then a < b else IsEntered(all, b)
  }

  /** No node at which the search would start before reaches this one. */
  ghost predicate IsStart(all: set<(nat, nat)>, count: nat, v: nat)
  {
    v < count && forall w: nat | w < count && StartsBefore(all, w, v) :: !Reaches(all, w, v)
  }

  /** Where the search starts, it cuts the cycles: no edge is kept that leads back to the start. */
  ghost predicate CutsAtStarts(all: set<(nat, nat)>, kept: set<(nat, nat)>, count: nat)
  {
    forall v: nat, u: nat | IsStart(all, count, v) && Reaches(all, v, u) :: (u, v) !in kept
  }

  /** The roots of the search: the nodes that no edge enters, then the others, each in input order. */
  ghost predicate AreRoots(all: set<(nat, nat)>, count: nat, roots: seq<nat>)
  {
    && (forall v: nat :: v in roots <==> v < count)
    && (forall i, j | 0 <= i < j < |roots| :: StartsBefore(all, roots[i], roots[j]))
  }

  /** The targets of each node, in the order of the edges. */
  function TargetLists(count: nat, index: map<string, nat>, edges: seq<Edge>): Adjacency
  {
    seq(count, (s: nat) => TargetsOf(index, edges, s))
  }

  /** The kept edges are those that a recursive search keeps, which takes the edges of a node in input order. */
  ghost predicate AreSearched(unique: seq<Node>, edges: seq<Edge>, kept: set<(nat, nat)>)
  {
    exists index, roots ::
      IsIndex(unique, index) && AreRoots(GraphEdges(unique, edges), |unique|, roots)
      && var out := TargetLists(|unique|, index, edges);
         InRange(out, |out|) && AreNodes(out, roots) && kept == EdgesOf(KeptEdges(out, roots))
  }

  ghost predicate AllPositioned(nodes: seq<Node>)
  {
    forall i | 0 <= i < |nodes| :: nodes[i].position.Some?
  }

  /** Cycles are cut by a depth-first search, and the rest is layered by longest path. */
  method ComputeLayers(unique: seq<Node>, index: map<string, nat>, edges: seq<Edge>)
    returns (layers: array<nat>, ghost kept: set<(nat, nat)>)
    requires DistinctIds(unique) && IsIndex(unique, index)
    ensures layers.Length == |unique|
    ensures IsCycleFreeLayering(GraphEdges(unique, edges), kept, layers[..])
    ensures CutsAtStarts(GraphEdges(unique, edges), kept, |unique|)
    ensures AreSearched(unique, edges, kept)
  {
    var out, indeg := BuildAdjacency(unique, index, edges);
    var roots := SearchRoots(indeg);
    ghost var dropped, rank, steps;
    var dag, dagIndeg;
    dag, dagIndeg, dropped, rank, steps := RemoveBackEdges(out[..], roots);
    KeptInRange(out[..], dag[..], dropped, rank);
    var queue;
    layers, queue := LongestPathLayers(dag[..], dagIndeg, rank);
    kept := EdgesOf(dag[..]);
    LayeringMeaning(unique, edges, out[..], dag[..], dropped, rank, layers[..]);
    StartsAreCut(unique, edges, out[..], indeg[..], roots, dag[..]);
    KeptAreSearched(unique, index, edges, out[..], indeg[..], roots);
  }

  method ComputeGraphLayout(nodes: seq<Node>, edges: seq<Edge>)
    returns (positions: map<string, Position>, ghost kept: set<(nat, nat)>, ghost layer: seq<nat>)
    ensures forall id :: id in positions <==> HasId(nodes, id)
    ensures |layer| == |FirstById(nodes)| && IsPlacement(FirstById(nodes), layer, positions)
    ensures RunsToTheRight(FirstById(nodes), layer, positions)
    ensures !AllPositioned(FirstById(nodes)) ==>
      && IsCycleFreeLayering(GraphEdges(FirstById(nodes), edges), kept, layer)
      && CutsAtStarts(GraphEdges(FirstById(nodes), edges), kept, |layer|)
      && AreSearched(FirstById(nodes), edges, kept)
  {
    var unique, index := Deduplicate(nodes);
    FirstByIdMeaning(nodes);
    if forall i | 0 <= i < |unique| :: unique[i].position.Some? {
      kept, layer := {}, seq(|unique|, _ => 0);
      positions := KeepPositions(unique);
    } else {
      var layers;
      layers, kept := ComputeLayers(unique, index, edges);
      layer := layers[..];
      positions := PlaceRows(unique, layers[..]);
    }
    PlacementRunsToTheRight(unique, layer, positions);
  }

  /** The shortcut for graphs whose nodes all carry a position. */
  method KeepPositions(unique: seq<Node>) returns (positions: map<string, Position>)
    requires DistinctIds(unique) && AllPositioned(unique)
    ensures IsPlacement(unique, seq(|unique|, _ => 0), positions)
  {
    positions := map[];
    for i := 0 to |unique|
      invariant forall k: nat | k < i ::
          unique[k].id in positions && positions[unique[k].id] == unique[k].position.value
      invariant forall id | id in positions :: HasId(unique, id)
    {
      assert HasId(unique, unique[i].id);
      positions := positions[unique[i].id := unique[i].position.value];
    }
  }

  lemma KeptInRange(out: Adjacency, dag: Adjacency, dropped: set<(nat, nat)>, rank: map<nat, nat>)
    requires InRange(out, |out|) && IsBackEdgeRemoval(out, dag, dropped, rank)
    ensures InRange(dag, |out|)
  {
    forall u, v | 0 <= u < |dag| && v in dag[u] ensures v < |out| {
      SurvivingMembers(u, out[u], dropped, v);
    }
  }

  lemma LayeringMeaning(unique: seq<Node>, edges: seq<Edge>, out: Adjacency, dag: Adjacency,
                        dropped: set<(nat, nat)>, rank: map<nat, nat>, layer: seq<nat>)
    requires ListsEdges(unique, edges, out) && IsBackEdgeRemoval(out, dag, dropped, rank)
    requires |layer| == |unique| && forall v: nat | v < |layer| :: IsLongestWalkTo(EdgesOf(dag), v, layer[v])
    ensures IsCycleFreeLayering(GraphEdges(unique, edges), EdgesOf(dag), layer)
  {
    KeptPlusDropped(out, dag, dropped, rank);
    RankedIsAcyclic(EdgesOf(dag), rank);
    ListedEdges(unique, edges, out);
  }

  lemma RootOrder(indeg: seq<nat>, roots: seq<nat>, sources: nat, all: set<(nat, nat)>, j: nat, i: nat)
    requires sources <= |roots| && SplitsAscending(indeg, roots, sources) && j < i < |roots|
    requires forall v: nat | v < |indeg| :: indeg[v] == 0 <==> !IsEntered(all, v)
    ensures roots[j] < |indeg| && StartsBefore(all, roots[j], roots[i])
  {
    RootIsAsSplit(indeg, roots, sources, j);
    RootIsAsSplit(indeg, roots, sources, i);
    assert i < sources ==> roots[..sources][j] < roots[..sources][i];
    assert sources <= j ==> roots[sources..][j - sources] < roots[sources..][i - sources];
  }

  lemma RootIsAsSplit(indeg: seq<nat>, roots: seq<nat>, sources: nat, i: nat)
    requires sources <= |roots| && SplitsAscending(indeg, roots, sources) && i < |roots|
    ensures roots[i] < |indeg| && (indeg[roots[i]] == 0 <==> i < sources)
  {
    if i < sources {
      assert roots[..sources][i] in roots[..sources];
    } else {
      assert roots[sources..][i - sources] in roots[sources..];
    }
  }

  lemma KeptAreSearched(unique: seq<Node>, index: map<string, nat>, edges: seq<Edge>, out: Adjacency,
        indeg: seq<nat>, roots: seq<nat>)
    requires |indeg| == |out| == |unique| && ListsEdges(unique, edges, out) && AreNodes(out, roots)
    requires IsIndex(unique, index)
    requires forall s: nat | s < |out| :: out[s] == TargetsOf(index, edges, s)
    requires forall t: nat | t < |indeg| :: indeg[t] == 0 <==> forall s: nat :: !IsGraphEdge(unique, edges, s, t)
    requires forall v: nat :: v in roots <==> v < |indeg|
    requires exists sources: nat :: sources <= |roots| && SplitsAscending(indeg, roots, sources)
    ensures AreSearched(unique, edges, EdgesOf(KeptEdges(out, roots)))
  {
    var all := GraphEdges(unique, edges);
    var sources: nat :| sources <= |roots| && SplitsAscending(indeg, roots, sources);
    forall v: nat | v < |indeg| ensures indeg[v] == 0 <==> !IsEntered(all, v) {
      EntersIffGraphEdge(unique, edges, v);
    }
    forall i: nat, j: nat | i < j < |roots| ensures StartsBefore(all, roots[i], roots[j]) {
      RootOrder(indeg, roots, sources, all, i, j);
    }
    assert out == TargetLists(|unique|, index, edges);
    assert AreRoots(all, |unique|, roots);
  }

  lemma StartsAreCut(unique: seq<Node>, edges: seq<Edge>, out: Adjacency, indeg: seq<nat>, roots: seq<nat>,
        dag: Adjacency)
    requires ListsEdges(unique, edges, out) && |indeg| == |out| && FreshAreCut(out, dag, roots, |roots|)
    requires forall t: nat | t < |indeg| :: indeg[t] == 0 <==> forall s: nat :: !IsGraphEdge(unique, edges, s, t)
    requires forall v: nat :: v in roots <==> v < |indeg|
    requires exists sources: nat :: sources <= |roots| && SplitsAscending(indeg, roots, sources)
    ensures CutsAtStarts(GraphEdges(unique, edges), EdgesOf(dag), |unique|)
  {
    var all := GraphEdges(unique, edges);
    var sources: nat :| sources <= |roots| && SplitsAscending(indeg, roots, sources);
    ListedEdges(unique, edges, out);
    forall v: nat | v < |indeg| ensures indeg[v] == 0 <==> !IsEntered(all, v) {
      EntersIffGraphEdge(unique, edges, v);
    }
    forall v: nat, u: nat | IsStart(all, |unique|, v) && Reaches(all, v, u) ensures (u, v) !in EdgesOf(dag) {
      assert v in roots;
      var i :| 0 <= i < |roots| && roots[i] == v;
      forall j: nat | j < i ensures !Reaches(EdgesOf(out), roots[j], v) {
        RootOrder(indeg, roots, sources, all, j, i);
      }
      assert IsFreshRoot(out, roots, i) && IsCutAt(out, dag, v);
      EdgeIffListed(dag, u, v);
    }
  }

  lemma EntersIffGraphEdge(unique: seq<Node>, edges: seq<Edge>, v: nat)
    ensures IsEntered(GraphEdges(unique, edges), v) <==> exists u: nat :: IsGraphEdge(unique, edges, u, v)
  {
    if u: nat :| IsGraphEdge(unique, edges, u, v) {
      assert (u, v) in GraphEdges(unique, edges);
    }
  }

  lemma ListedEdges(unique: seq<Node>, edges: seq<Edge>, out: Adjacency)
    requires ListsEdges(unique, edges, out)
    ensures EdgesOf(out) == GraphEdges(unique, edges)
  {
    forall s: nat, t: nat ensures (s, t) in EdgesOf(out) <==> (s, t) in GraphEdges(unique, edges) {
      EdgeIffListed(out, s, t);
    }
  }

  lemma SameEmptiness(a: seq<nat>, b: seq<nat>)
    requires forall v: nat :: v in a <==> v in b
    ensures a == [] <==> b == []
  {
    if a != [] {
      assert a[0] in b;
    }
    if b != [] {
      assert b[0] in a;
    }
  }

  lemma FirstRootIsFirst(all: set<(nat, nat)>, a: seq<nat>, v: nat)
    requires v in a && forall i, j | 0 <= i < j < |a| :: StartsBefore(all, a[i], a[j])
    ensures v == a[0] || StartsBefore(all, a[0], v)
  {
  }

  /** The order of the roots leaves no choice. */
  lemma {:induction false} RootsAreDetermined(all: set<(nat, nat)>, a: seq<nat>, b: seq<nat>)
    requires forall v: nat :: v in a <==> v in b
    requires forall i, j | 0 <= i < j < |a| :: StartsBefore(all, a[i], a[j])
    requires forall i, j | 0 <= i < j < |b| :: StartsBefore(all, b[i], b[j])
    ensures a == b
  {
    SameEmptiness(a, b);
    if a != [] {
      FirstRootIsFirst(all, a, b[0]);
      FirstRootIsFirst(all, b, a[0]);
      RestHasTheSame(all, a, b);
      RootsAreDetermined(all, a[1..], b[1..]);
    }
  }

  lemma RestHasTheSame(all: set<(nat, nat)>, a: seq<nat>, b: seq<nat>)
    requires a != [] && b != [] && a[0] == b[0] && forall v: nat :: v in a <==> v in b
    requires forall i, j | 0 <= i < j < |a| :: StartsBefore(all, a[i], a[j])
    requires forall i, j | 0 <= i < j < |b| :: StartsBefore(all, b[i], b[j])
    ensures forall v: nat :: v in a[1..] <==> v in b[1..]
  {
    forall v: nat ensures (v in a[1..] <==> v in a && v != a[0]) && (v in b[1..] <==> v in b && v != b[0]) {
      assert a == [a[0]] + a[1..] && b == [b[0]] + b[1..];
    }
  }

  lemma IndexIsDetermined(unique: seq<Node>, a: map<string, nat>, b: map<string, nat>)
    requires IsIndex(unique, a) && IsIndex(unique, b)
    ensures a == b
  {
    forall id ensures id in a <==> id in b {
      if id in a {
        assert unique[a[id]].id in b;
      }
      if id in b {
        assert unique[b[id]].id in a;
      }
    }
    forall id | id in a ensures a[id] == b[id] {
      assert unique[a[id]].id == id;
    }
  }

  lemma KeptEdgesAreDetermined(unique: seq<Node>, edges: seq<Edge>, a: set<(nat, nat)>, b: set<(nat, nat)>)
    requires AreSearched(unique, edges, a) && AreSearched(unique, edges, b)
    ensures a == b
  {
    var all := GraphEdges(unique, edges);
    var ia, ra :| IsIndex(unique, ia) && AreRoots(all, |unique|, ra)
      && var out := TargetLists(|unique|, ia, edges);
         InRange(out, |out|) && AreNodes(out, ra) && a == EdgesOf(KeptEdges(out, ra));
    var ib, rb :| IsIndex(unique, ib) && AreRoots(all, |unique|, rb)
      && var out := TargetLists(|unique|, ib, edges);
         InRange(out, |out|) && AreNodes(out, rb) && b == EdgesOf(KeptEdges(out, rb));
    IndexIsDetermined(unique, ia, ib);
    RootsAreDetermined(all, ra, rb);
  }

  /** The kept edges and the layers are determined by the nodes and the edges. */
  lemma LayersAreDetermined(unique: seq<Node>, edges: seq<Edge>, a: set<(nat, nat)>, b: set<(nat, nat)>, la: seq<nat>,
        lb: seq<nat>)
    requires AreSearched(unique, edges, a) && IsCycleFreeLayering(GraphEdges(unique, edges), a, la)
    requires AreSearched(unique, edges, b) && IsCycleFreeLayering(GraphEdges(unique, edges), b, lb)
    requires |la| == |lb| == |unique|
    ensures a == b && la == lb
  {
    KeptEdgesAreDetermined(unique, edges, a, b);
    forall v: nat | v < |la| ensures la[v] == lb[v] {
      LongestWalkIsUnique(a, v, la[v], lb[v]);
    }
  }

  /** On an acyclic graph every edge is kept, so every column is a longest path of the whole graph. */
  lemma AcyclicGraphKeepsEverything(all: set<(nat, nat)>, kept: set<(nat, nat)>, layer: seq<nat>)
    requires IsCycleFreeLayering(all, kept, layer) && Acyclic(all)
    ensures kept == all
  {
    forall e | e in all ensures e in kept {
      if e !in kept {
        ReachesMonotone(kept, all, e.1, e.0);
        EdgeClosingWalkIsCycle(all, e.0, e.1);
        assert false;
      }
    }
  }

  /** Every kept edge points to a strictly later column. */
  lemma KeptEdgesPointRight(all: set<(nat, nat)>, kept: set<(nat, nat)>, layer: seq<nat>, u: nat, v: nat)
    requires IsCycleFreeLayering(all, kept, layer) && (u, v) in kept && u < |layer| && v < |layer|
    ensures layer[u] < layer[v]
  {
    LongestWalkGrows(kept, u, v, layer[u], layer[v]);
  }

  /** So a kept edge between two nodes without positions leads at least one column to the right. */
  lemma KeptEdgesRunRight(unique: seq<Node>, all: set<(nat, nat)>, kept: set<(nat, nat)>, layer: seq<nat>,
        positions: map<string, Position>, u: nat, v: nat)
    requires |unique| == |layer| && RunsToTheRight(unique, layer, positions)
    requires IsCycleFreeLayering(all, kept, layer) && (u, v) in kept && u < |unique| && v < |unique|
    requires unique[u].position.None? && unique[v].position.None?
    ensures unique[u].id in positions && unique[v].id in positions
    ensures positions[unique[u].id].x + 310.0 <= positions[unique[v].id].x
  {
    KeptEdgesPointRight(all, kept, layer, u, v);
    assert (layer[u] + 1) * 310 <= layer[v] * 310;
  }

  /** All nodes in a ring, each with an edge to the next and the last with one to the first. */
  ghost predicate IsRing(all: set<(nat, nat)>, count: nat)
  {
    forall u: nat, v: nat :: (u, v) in all <==> u < count && v < count && (v == u + 1 || (u == count - 1 && v == 0))
  }

  lemma {:induction false} RingIsReached(all: set<(nat, nat)>, count: nat, v: nat)
    requires IsRing(all, count) && v < count
    ensures Reaches<nat>(all, 0, v)
  {
    if v == 0 {
      ReachesSelf<nat>(all, 0);
    } else {
      RingIsReached(all, count, v - 1);
      ReachesEdge<nat>(all, v - 1, v);
      ReachesTransitive<nat>(all, 0, v - 1, v);
    }
  }

  /** Nothing leads back along edges that run upwards. */
  lemma UpwardsOnly(edges: set<(nat, nat)>, a: nat, b: nat)
    requires (forall e | e in edges :: e.0 < e.1) && Reaches(edges, a, b)
    ensures a <= b
  {
    var above: set<nat> := {a} + set e {:trigger e in edges} | e in edges && a <= e.1 :: e.1;
    ClosedUnderReach(edges, above, a, b);
  }

  /** A ring is cut where it closes: the edge from its last node to its first is the one not kept. */
  lemma RingIsCutAtFirst(all: set<(nat, nat)>, kept: set<(nat, nat)>, layer: seq<nat>)
    requires 2 <= |layer| && IsRing(all, |layer|)
    requires IsCycleFreeLayering(all, kept, layer) && CutsAtStarts(all, kept, |layer|)
    ensures kept == all - {(|layer| - 1, 0)}
  {
    var last: nat := |layer| - 1;
    RingStartsAtFirst(all, |layer|);
    RingIsReached(all, |layer|, last);
    assert (last, 0) !in kept;
    forall e ensures e in kept <==> e in all && e != (last, 0) {
      if e in all - kept && e != (last, 0) {
        UpwardsOnly(kept, e.1, e.0);
      }
    }
  }

  lemma RingStartsAtFirst(all: set<(nat, nat)>, count: nat)
    requires 2 <= count && IsRing(all, count)
    ensures IsStart(all, count, 0)
  {
    forall v: nat | v < count ensures IsEntered(all, v) {
      var u: nat := if v == 0 then count - 1 else v - 1;
      assert (u, v) in all;
    }
  }

  lemma {:induction false} UpwardWalkIsShort(edges: set<(nat, nat)>, walk: seq<nat>)
    requires (forall e | e in edges :: e.0 < e.1) && IsWalk(edges, walk)
    ensures |walk| <= Last(walk) + 1
  {
    if 1 < |walk| {
      LastStep(edges, walk);
      UpwardWalkIsShort(edges, walk[..|walk| - 1]);
    }
  }

  lemma LongestInRing(kept: set<(nat, nat)>, count: nat, v: nat)
    requires v < count
    requires forall a: nat, b: nat :: (a, b) in kept <==> b < count && b == a + 1
    ensures IsLongestWalkTo(kept, v, v)
  {
    var upTo: seq<nat> := seq(v + 1, (i: nat) => i);
    assert IsWalk(kept, upTo) && Last(upTo) == v;
    forall walk: seq<nat> | IsWalk(kept, walk) && Last(walk) == v ensures |walk| <= v + 1 {
      UpwardWalkIsShort(kept, walk);
    }
  }

  /** So a ring a, b, c, ... runs through the columns in the order of its nodes. */
  lemma RingRunsInOrder(all: set<(nat, nat)>, kept: set<(nat, nat)>, layer: seq<nat>, v: nat)
    requires 2 <= |layer| && IsRing(all, |layer|) && v < |layer|
    requires IsCycleFreeLayering(all, kept, layer) && CutsAtStarts(all, kept, |layer|)
    ensures layer[v] == v
  {
    RingIsCutAtFirst(all, kept, layer);
    LongestInRing(kept, |layer|, v);
    LongestWalkIsUnique(kept, v, layer[v], v);
  }
}
