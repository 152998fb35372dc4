/** Directed graphs as lists of successor lists, the form the graph layout computes on. */
module AdjacencyLists {

  type Adjacency = seq<seq<nat>>

  ghost predicate InRange(adj: Adjacency, n: nat)
  {
    |adj| == n && forall u, v | 0 <= u < |adj| && v in adj[u] :: v < n
  }

  ghost function EdgesOf(adj: Adjacency): set<(nat, nat)>
  {
    set u, k | 0 <= u < |adj| && 0 <= k < |adj[u]| :: (u, adj[u][k])
  }

  lemma EdgeIffListed(adj: Adjacency, u: nat, v: nat)
    ensures (u, v) in EdgesOf(adj) <==> u < |adj| && v in adj[u]
  {
    if u < |adj| && v in adj[u] {
      var k :| 0 <= k < |adj[u]| && adj[u][k] == v;
      assert (u, adj[u][k]) in EdgesOf(adj);
    }
  }

  lemma EdgesAfterPush(adj: Adjacency, u: nat, v: nat)
    requires u < |adj|
    ensures EdgesOf(adj[u := adj[u] + [v]]) == EdgesOf(adj) + {(u, v)}
  {
    var after := adj[u := adj[u] + [v]];
    forall a: nat, b: nat ensures (a, b) in EdgesOf(after) <==> (a, b) in EdgesOf(adj) + {(u, v)} {
      EdgeIffListed(adj, a, b);
      EdgeIffListed(after, a, b);
    }
  }

  /** Number of listed edges into `v` from the first `n` nodes outside `done`, with multiplicity. */
  ghost function Inflow(adj: Adjacency, done: set<nat>, v: nat, n: nat): nat
    requires n <= |adj|
  {
    if n == 0 then 0
    else Inflow(adj, done, v, n - 1) + (if n - 1 in done then 0 else multiset(adj[n - 1])[v])
  }

  lemma {:induction false} InflowPush(adj: Adjacency, u: nat, w: nat, v: nat, n: nat)
    requires n <= |adj| && u < |adj|
    ensures Inflow(adj[u := adj[u] + [w]], {}, v, n) == Inflow(adj, {}, v, n) + (if u < n && v == w then 1 else 0)
  {
    if 0 < n {
      InflowPush(adj, u, w, v, n - 1);
    }
  }

  lemma {:induction false} InflowEmpty(n: nat, adj: Adjacency, v: nat)
    requires n <= |adj| && forall u | 0 <= u < n :: adj[u] == []
    ensures Inflow(adj, {}, v, n) == 0
  {
    if 0 < n {
      InflowEmpty(n - 1, adj, v);
    }
  }

  lemma {:induction false} InflowDone(adj: Adjacency, done: set<nat>, u: nat, v: nat, n: nat)
    requires n <= |adj| && u < |adj| && u !in done
    ensures Inflow(adj, done, v, n) == Inflow(adj, done + {u}, v, n) + (if u < n then multiset(adj[u])[v] else 0)
  {
    if 0 < n {
      InflowDone(adj, done, u, v, n - 1);
    }
  }

  lemma {:induction false} InflowSource(adj: Adjacency, done: set<nat>, v: nat, n: nat)
    requires n <= |adj|
    ensures 0 < Inflow(adj, done, v, n) <==> exists u: nat :: u < n && u !in done && v in adj[u]
  {
    if 0 < n {
      InflowSource(adj, done, v, n - 1);
    }
  }

  ghost function Sum(s: seq<nat>): nat
  {
    if s == [] then 0 else Sum(s[..|s| - 1]) + s[|s| - 1]
  }

  lemma {:induction false} SumUpdate(s: seq<nat>, i: nat, x: nat)
    requires i < |s|
    ensures Sum(s[i := x]) + s[i] == Sum(s) + x
  {
    var last := |s| - 1;
    if i == last {
      assert s[i := x][..last] == s[..last];
    } else {
      assert s[i := x][..last] == s[..last][i := x];
      SumUpdate(s[..last], i, x);
    }
  }

  lemma {:induction false} SumMonotone(s: seq<nat>, t: seq<nat>)
    requires |s| == |t| && forall i | 0 <= i < |s| :: s[i] <= t[i]
    ensures Sum(s) <= Sum(t)
  {
    if s != [] {
      SumMonotone(s[..|s| - 1], t[..|t| - 1]);
    }
  }

  lemma {:induction false} SumZero(s: seq<nat>)
    requires forall i | 0 <= i < |s| :: s[i] == 0
    ensures Sum(s) == 0
  {
    if s != [] {
      SumZero(s[..|s| - 1]);
    }
  }

  ghost function Lengths(adj: Adjacency): seq<nat>
  {
    seq(|adj|, u requires 0 <= u < |adj| => |adj[u]|)
  }

  lemma {:induction false} BoundedSetSize(s: set<nat>, n: nat)
    requires forall v | v in s :: v < n
    ensures |s| <= n
    ensures |s| == n ==> forall v | 0 <= v < n :: v in s
  {
    if n == 0 {
      assert s == {};
    } else {
      BoundedSetSize(s - {n - 1}, n - 1);
    }
  }

  lemma FullSetSize(s: set<nat>, n: nat)
    requires forall v :: v in s <==> 0 <= v < n
    ensures |s| == n
    decreases n
  {
    if 0 < n {
      FullSetSize(s - {n - 1}, n - 1);
    }
  }
}
