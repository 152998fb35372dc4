/** Role inheritance: expansion of a role, cycle detection, and who effectively holds a role. */
module RoleGraph {
  import opened Digraph
  import opened PolicySchema
  import opened Sorting
  import opened Wrappers

  // ---------------------------------------------------------------------------------------------
  // The includes graph
  // ---------------------------------------------------------------------------------------------

  ghost function RoleNames(d: Declaration): set<string>
  {
    set i | 0 <= i < |d.roles| :: d.roles[i].name
  }

  /** The role registered under a name: the last one declared. */
  function RoleNamed(roles: seq<Role>, name: string): Option<Role>
  {
    if roles == [] then None
    else if roles[|roles| - 1].name == name then Some(roles[|roles| - 1])
    else RoleNamed(roles[..|roles| - 1], name)
  }

  function Includes(d: Declaration, name: string): seq<string>
  {
    match RoleNamed(d.roles, name) case Some(r) => r.includes case None => []
  }

  lemma {:induction false} RoleNamedDeclared(roles: seq<Role>, name: string)
    ensures RoleNamed(roles, name).Some? <==> exists i :: 0 <= i < |roles| && roles[i].name == name
    ensures RoleNamed(roles, name).Some? ==>
        RoleNamed(roles, name).value in roles && RoleNamed(roles, name).value.name == name
  {
    if roles != [] && roles[|roles| - 1].name != name {
      RoleNamedDeclared(roles[..|roles| - 1], name);
    }
  }

  /** Every role name that occurs in the roles section. */
  ghost function MentionedRoles(d: Declaration): set<string>
  {
    RoleNames(d) + set i, p | 0 <= i < |d.roles| && p in d.roles[i].includes :: p
  }

  /** An edge leads from a role to a role it includes. */
  ghost function RoleEdges(d: Declaration): set<(string, string)>
  {
    set n, p | n in RoleNames(d) && p in Includes(d, n) :: (n, p)
  }

  lemma EdgeIffIncluded(d: Declaration, n: string, p: string)
    ensures (n, p) in RoleEdges(d) <==> p in Includes(d, n)
    ensures p in Includes(d, n) ==> n in RoleNames(d) && p in MentionedRoles(d)
  {
    RoleNamedDeclared(d.roles, n);
    if p in Includes(d, n) {
      var i :| 0 <= i < |d.roles| && d.roles[i] == RoleNamed(d.roles, n).value;
      assert d.roles[i].name in RoleNames(d) && p in d.roles[i].includes;
    }
  }

  /** The role itself and every role it inherits, directly or not. */
  ghost function Closure(d: Declaration, role: string): set<string>
  {
    set x | x in MentionedRoles(d) + {role} && Reaches(RoleEdges(d), role, x)
  }

  lemma ClosureIsReach(d: Declaration, role: string, x: string)
    ensures x in Closure(d, role) <==> Reaches(RoleEdges(d), role, x)
  {
    if Reaches(RoleEdges(d), role, x) {
      var walk :| WalkFromTo(RoleEdges(d), walk, role, x);
      if 1 < |walk| {
        LastStep(RoleEdges(d), walk);
        EdgeIffIncluded(d, walk[|walk| - 2], x);
      }
    }
  }

  lemma ClosureSelf(d: Declaration, role: string)
    ensures role in Closure(d, role)
  {
    ReachesSelf(RoleEdges(d), role);
  }

  lemma ClosureTransitive(d: Declaration, a: string, b: string, c: string)
    requires b in Closure(d, a) && c in Closure(d, b)
    ensures c in Closure(d, a)
  {
    ReachesTransitive(RoleEdges(d), a, b, c);
    ClosureIsReach(d, a, c);
  }

  // ---------------------------------------------------------------------------------------------
  // Expansion
  // ---------------------------------------------------------------------------------------------

  /** Looks roles up by name, the last declaration of a name winning. */
  method IndexRoles(d: Declaration) returns (byName: map<string, Role>)
    ensures IsRoleIndex(d, byName)
  {
    byName := map[];
    for i := 0 to |d.roles|
      invariant forall n :: n in byName <==> RoleNamed(d.roles[..i], n).Some?
      invariant forall n | n in byName :: Some(byName[n]) == RoleNamed(d.roles[..i], n)
    {
      assert d.roles[..i + 1][..i] == d.roles[..i];
      byName := byName[d.roles[i].name := d.roles[i]];
    }
    assert d.roles[..|d.roles|] == d.roles;
  }

  ghost predicate IsRoleIndex(d: Declaration, byName: map<string, Role>)
  {
    && (forall n :: n in byName <==> RoleNamed(d.roles, n).Some?)
    && (forall n | n in byName :: Some(byName[n]) == RoleNamed(d.roles, n))
  }

  function IncludesIn(byName: map<string, Role>, name: string): seq<string>
  {
    if name in byName then byName[name].includes else []
  }

  /** Every role in `seen` but not in `before`, `open` aside, has all its parents in `seen`. */
  ghost predicate ParentsSeen(d: Declaration, before: set<string>, open: set<string>, seen: set<string>)
  {
    forall x, p | x in seen - before - open && p in Includes(d, x) :: p in seen
  }

  /** The recursive walk of the expansion, collecting the roles it meets. */
  method CollectIncluded(d: Declaration, byName: map<string, Role>, name: string, seen: set<string>)
    returns (seen': set<string>)
    requires IsRoleIndex(d, byName)
    ensures seen <= seen' && name in seen'
    ensures ParentsSeen(d, seen, {}, seen')
    ensures forall x | x in seen' - seen :: Reaches(RoleEdges(d), name, x)
    decreases MentionedRoles(d) + {name} - seen
  {
    if name in seen {
      return seen;
    }
    seen' := seen + {name};
    ReachesSelf(RoleEdges(d), name);
    var parents := IncludesIn(byName, name);
    for i := 0 to |parents|
      invariant seen + {name} <= seen'
      invariant ParentsSeen(d, seen, {name}, seen')
      invariant forall p | p in parents[..i] :: p in seen'
      invariant forall x | x in seen' - seen :: Reaches(RoleEdges(d), name, x)
    {
      var before := seen';
      EdgeIffIncluded(d, name, parents[i]);
      seen' := CollectIncluded(d, byName, parents[i], seen');
      ReachesEdge(RoleEdges(d), name, parents[i]);
      forall x | x in seen' - before ensures Reaches(RoleEdges(d), name, x) {
        ReachesTransitive(RoleEdges(d), name, parents[i], x);
      }
      assert parents[..i + 1] == parents[..i] + [parents[i]];
    }
    assert parents[..|parents|] == parents;
  }

  /** Expands a role to itself and everything it inherits, sorted. It ends on cyclic includes too. */
  method ExpandRoles(d: Declaration, role: string) returns (names: seq<string>)
    ensures forall x :: x in names <==> x in Closure(d, role)
    ensures SortedBy(names, StringLe) && |names| == |Closure(d, role)|
  {
    var byName := IndexRoles(d);
    var seen := CollectIncluded(d, byName, role, {});
    forall x ensures x in seen <==> x in Closure(d, role) {
      ClosureIsReach(d, role, x);
      if Reaches(RoleEdges(d), role, x) {
        forall e | e in RoleEdges(d) && e.0 in seen ensures e.1 in seen {
          EdgeIffIncluded(d, e.0, e.1);
        }
        ClosedUnderReach(RoleEdges(d), seen, role, x);
      }
    }
    assert seen == Closure(d, role);
    var listed := Elements(seen);
    names := SortBy(listed, StringLe);
    StringLeIsOrder();
    SortSorts(listed, StringLe);
    SortMembers(listed, StringLe);
    SortPermutes(listed, StringLe);
  }

  /** The elements of a set, in some order. */
  method Elements(s: set<string>) returns (listed: seq<string>)
    ensures forall x :: x in listed <==> x in s
    ensures |listed| == |s|
  {
    listed := [];
    var rest := s;
    while rest != {}
      invariant rest <= s
      invariant forall x :: x in listed <==> x in s - rest
      invariant |listed| == |s| - |rest|
    {
      var x :| x in rest;
      listed := listed + [x];
      rest := rest - {x};
    }
  }

  // ---------------------------------------------------------------------------------------------
  // Cycle detection
  // ---------------------------------------------------------------------------------------------

  datatype Mark = Visiting | Done

  /** A walk whose last role occurs earlier in it. */
  ghost predicate IsCycleReport(edges: set<(string, string)>, walk: seq<string>)
  {
    1 < |walk| && IsWalk(edges, walk) && Last(walk) in walk[..|walk| - 1]
  }

  lemma CycleReportRefutesAcyclic(edges: set<(string, string)>, walk: seq<string>)
    requires IsCycleReport(edges, walk)
    ensures !Acyclic(edges)
  {
    var i :| 0 <= i < |walk| - 1 && walk[i] == Last(walk);
    var loop := walk[i..];
    forall k | 0 <= k < |loop| - 1 ensures IsStep(edges, loop, k) {
      assert IsStep(edges, walk, i + k);
    }
    assert IsWalk(edges, loop) && loop[0] == Last(loop);
  }

  /** The marks and the finish order while no cycle is known: the roles being visited are the open
      ones, and the finished roles lead down the finish order. */
  ghost predicate MarksOk(edges: set<(string, string)>, open: set<string>, state: map<string, Mark>,
        rank: map<string, nat>, clock: nat)
  {
    && (forall n :: n in state && state[n] == Visiting <==> n in open)
    && (forall n :: n in state && state[n] == Done <==> n in rank)
    && (forall n | n in rank :: rank[n] < clock)
    && MarksDescend(edges, rank)
  }

  lemma EnterKeepsMarks(edges: set<(string, string)>, open: set<string>, state: map<string, Mark>,
        rank: map<string, nat>, clock: nat, name: string)
    requires MarksOk(edges, open, state, rank, clock) && name !in state
    ensures MarksOk(edges, open + {name}, state[name := Visiting], rank, clock)
  {
  }

  lemma LeaveKeepsMarks(edges: set<(string, string)>, open: set<string>, state: map<string, Mark>,
        rank: map<string, nat>, clock: nat, name: string)
    requires MarksOk(edges, open + {name}, state, rank, clock) && name !in open
    requires forall p {:trigger (name, p) in edges} | (name, p) in edges :: p in rank
    ensures name in state && name !in rank && MarksOk(edges, open, state[name := Done], rank[name := clock], clock + 1)
  {
    var rank' := rank[name := clock];
    assert state[name] == Visiting;
    forall e | e in edges && e.0 in rank' ensures e.1 in rank' && rank'[e.1] < rank'[e.0] {
      if e.0 == name {
        assert (name, e.1) in edges;
      }
    }
  }

  ghost function Members(path: seq<string>): set<string>
  {
    set n | n in path
  }

  /** The includes edges as the index of roles by name gives them. */
  ghost function EdgesIn(byName: map<string, Role>): set<(string, string)>
  {
    set n, p | n in byName && p in byName[n].includes :: (n, p)
  }

  ghost function NamesIn(byName: map<string, Role>): set<string>
  {
    byName.Keys + set e | e in EdgesIn(byName) :: e.1
  }

  /** The parents of a role are the targets of its edges, and known names. */
  ghost predicate ParentsAre(edges: set<(string, string)>, names: set<string>, byName: map<string, Role>, name: string)
  {
    && (forall p {:trigger (name, p) in edges} | (name, p) in edges :: p in IncludesIn(byName, name))
    && (forall k {:trigger IncludesIn(byName, name)[k]} | 0 <= k < |IncludesIn(byName, name)| ::
          (name, IncludesIn(byName, name)[k]) in edges && IncludesIn(byName, name)[k] in names)
  }

  ghost predicate IsGraphOf(edges: set<(string, string)>, names: set<string>, byName: map<string, Role>)
  {
    forall name {:trigger ParentsAre(edges, names, byName, name)} :: ParentsAre(edges, names, byName, name)
  }

  lemma GraphOfIndex(byName: map<string, Role>)
    ensures IsGraphOf(EdgesIn(byName), NamesIn(byName), byName)
  {
    forall name ensures ParentsAre(EdgesIn(byName), NamesIn(byName), byName, name) {
      var parents := IncludesIn(byName, name);
      forall k | 0 <= k < |parents| ensures (name, parents[k]) in EdgesIn(byName) && parents[k] in NamesIn(byName) {
        assert parents[k] in parents;
        assert (name, parents[k]) in EdgesIn(byName);
      }
    }
  }

  lemma EdgesInRoles(d: Declaration, byName: map<string, Role>)
    requires IsRoleIndex(d, byName)
    ensures EdgesIn(byName) == RoleEdges(d)
    ensures forall i | 0 <= i < |d.roles| :: d.roles[i].name in byName
  {
    forall n, p ensures (n, p) in EdgesIn(byName) <==> (n, p) in RoleEdges(d) {
      EdgeIffIncluded(d, n, p);
    }
    forall i | 0 <= i < |d.roles| ensures d.roles[i].name in byName {
      RoleNamedDeclared(d.roles, d.roles[i].name);
    }
  }

  /** The depth-first cycle search with its marks and the first cycle found. */
  class CycleFinder {
    const byName: map<string, Role>
    ghost const edges: set<(string, string)>
    ghost const names: set<string>
    var state: map<string, Mark>
    var cycle: Option<seq<string>>
    ghost var rank: map<string, nat>
    ghost var clock: nat
    ghost var unmet: set<string>

    constructor (byName: map<string, Role>, ghost edges: set<(string, string)>, ghost names: set<string>)
      ensures this.byName == byName && this.edges == edges && this.names == names
      ensures Valid([]) && cycle == None
    {
      this.byName, this.edges, this.names := byName, edges, names;
      state, cycle, rank, clock, unmet := map[], None, map[], 0, names;
    }

    /** The marks are consistent, and the unmet names carry no mark yet. */
    ghost predicate Valid(path: seq<string>)
      reads this
    {
      && MarksOk(edges, Members(path), state, rank, clock)
      && (forall n | n in names && n !in state :: n in unmet)
    }

    ghost predicate Found()
      reads this
    {
      cycle.Some? && IsCycleReport(edges, cycle.value)
    }

    /** How many roles are still to be met, one more while the search goes on. */
    ghost function Measure(): nat
      reads this
    {
      if cycle.Some? then 0 else |unmet| + 1
    }

    method Walk(name: string, path: seq<string>)
      requires IsGraphOf(edges, names, byName) && name in names
      requires cycle.Some? ==> Found()
      requires cycle.None? ==> Valid(path)
      requires IsWalk(edges, path + [name])
      modifies this
      ensures cycle.Some? ==> Found()
      ensures cycle.None? ==> Valid(path) && name in rank && forall n | n in old(rank) :: n in rank
      ensures Measure() <= old(Measure())
      decreases Measure(), 1
    {
      if cycle.Some? {
        return;
      }
      if name in state {
        if state[name] == Visiting {
          cycle := Some(path + [name]);
        }
      } else {
        Visit(name, path);
      }
    }

    /** Visits a role for the first time: marks it, walks its parents, marks it done. */
    method Visit(name: string, path: seq<string>)
      requires IsGraphOf(edges, names, byName) && name in names && name !in state
      requires cycle.None? && Valid(path)
      requires IsWalk(edges, path + [name])
      modifies this
      ensures cycle.Some? ==> Found()
      ensures cycle.None? ==> Valid(path) && name in rank && forall n | n in old(rank) :: n in rank
      ensures Measure() <= old(Measure())
      decreases Measure(), 0
    {
      EnterKeepsMarks(edges, Members(path), state, rank, clock, name);
      MembersAppend(path, name);
      state := state[name := Visiting];
      unmet := unmet - {name};
      WalkParents(name, path + [name], IncludesIn(byName, name));
      if cycle.None? {
        assert ParentsAre(edges, names, byName, name);
        LeaveKeepsMarks(edges, Members(path), state, rank, clock, name);
      }
      state := state[name := Done];
      rank, clock := rank[name := clock], clock + 1;
    }

    /** The loop over the parents of the role at the end of `path`. */
    method WalkParents(name: string, path: seq<string>, parents: seq<string>)
      requires IsGraphOf(edges, names, byName) && parents == IncludesIn(byName, name)
      requires cycle.None? && Valid(path)
      requires IsWalk(edges, path) && Last(path) == name
      modifies this
      ensures cycle.Some? ==> Found()
      ensures cycle.None? ==> Valid(path) && forall n | n in old(rank) :: n in rank
      ensures cycle.None? ==> forall p | p in parents :: p in rank
      ensures Measure() <= old(Measure())
      decreases Measure(), 2
    {
      assert ParentsAre(edges, names, byName, name);
      for i := 0 to |parents|
        invariant cycle.Some? ==> Found()
        invariant cycle.None? ==> Valid(path) && forall n | n in old(rank) :: n in rank
        invariant cycle.None? ==> forall k | 0 <= k < i :: parents[k] in rank
        invariant Measure() <= old(Measure())
      {
        ExtendWalk(edges, path, parents[i]);
        Walk(parents[i], path);
      }
    }
  }

  lemma MembersAppend(path: seq<string>, name: string)
    ensures Members(path + [name]) == Members(path) + {name}
  {
  }

  /** The search from every declared role in turn. */
  method SearchCycle(roles: seq<Role>, byName: map<string, Role>, ghost edges: set<(string, string)>,
        ghost names: set<string>)
    returns (cycle: Option<seq<string>>, ghost rank: map<string, nat>)
    requires IsGraphOf(edges, names, byName)
    requires forall i | 0 <= i < |roles| :: roles[i].name in names
    ensures cycle.Some? ==> IsCycleReport(edges, cycle.value)
    ensures cycle.None? ==> MarksDescend(edges, rank) && forall i | 0 <= i < |roles| :: roles[i].name in rank
  {
    var finder := new CycleFinder(byName, edges, names);
    for i := 0 to |roles|
      invariant finder.byName == byName && finder.edges == edges && finder.names == names
      invariant finder.cycle.Some? ==> finder.Found()
      invariant finder.cycle.None? ==> finder.Valid([])
      invariant finder.cycle.None? ==> forall k | 0 <= k < i :: roles[k].name in finder.rank
    {
      finder.Walk(roles[i].name, []);
    }
    cycle, rank := finder.cycle, finder.rank;
  }

  ghost predicate MarksDescend(edges: set<(string, string)>, rank: map<string, nat>)
  {
    forall e {:trigger e in edges} | e in edges && e.0 in rank :: e.1 in rank && rank[e.1] < rank[e.0]
  }

  /** Finds a cycle in the includes graph over the declared roles, if there is one. */
  method FindCycle(d: Declaration) returns (cycle: Option<seq<string>>)
    ensures cycle.None? <==> Acyclic(RoleEdges(d))
    ensures cycle.Some? ==> IsCycleReport(RoleEdges(d), cycle.value)
  {
    var byName := IndexRoles(d);
    EdgesInRoles(d, byName);
    GraphOfIndex(byName);
    ghost var rank;
    cycle, rank := SearchCycle(d.roles, byName, RoleEdges(d), NamesIn(byName));
    if cycle.Some? {
      CycleReportRefutesAcyclic(RoleEdges(d), cycle.value);
    } else {
      DescentIsAcyclic(d, rank);
    }
  }

  lemma DescentIsAcyclic(d: Declaration, rank: map<string, nat>)
    requires MarksDescend(RoleEdges(d), rank)
    requires forall i | 0 <= i < |d.roles| :: d.roles[i].name in rank
    ensures Acyclic(RoleEdges(d))
  {
    forall e | e in RoleEdges(d) ensures e.0 in rank {
      assert e.0 in RoleNames(d);
    }
    RankedIsAcyclic(RoleEdges(d), rank);
  }

  /** Without inheritance a role expands to itself. */
  lemma FlatClosure(d: Declaration, role: string)
    requires forall i | 0 <= i < |d.roles| :: d.roles[i].includes == []
    ensures Closure(d, role) == {role} && Acyclic(RoleEdges(d))
  {
    forall n, p ensures (n, p) !in RoleEdges(d) {
      EdgeIffIncluded(d, n, p);
      RoleNamedDeclared(d.roles, n);
    }
    RankedIsAcyclic(RoleEdges(d), map[]);
    forall x ensures x in Closure(d, role) <==> x == role {
      ClosureIsReach(d, role, x);
      ClosureSelf(d, role);
      if Reaches(RoleEdges(d), role, x) {
        ClosedUnderReach(RoleEdges(d), {role}, role, x);
      }
    }
  }
}
