/** Adjacency lists as the traversals see them: a map from a vertex to the
    list of its neighbours, holding a key only for vertices that have one. */
module AdjLists {
  import opened ExtInts
  import opened Walks
  import opened Graphs
  import C = Counting

  type Adj = map<nat, seq<nat>>

  /** Consecutive vertices of p are adjacent: each has an entry that lists
      the next one. */
  ghost predicate Linked(adj: Adj, p: seq<nat>)
  {
    forall i | 0 <= i < |p| - 1 :: p[i] in adj && p[i + 1] in adj[p[i]]
  }

  /** v can be reached from s by following listed neighbours. */
  ghost predicate Reachable(adj: Adj, s: nat, v: nat)
  {
    exists p: seq<nat> :: |p| > 0 && p[0] == s && p[|p| - 1] == v && Linked(adj, p)
  }

  lemma {:induction false} ReachSelf(adj: Adj, s: nat)
    ensures Reachable(adj, s, s)
  {
    assert Linked(adj, [s]);
  }

  lemma {:induction false} ReachStep(adj: Adj, s: nat, u: nat, v: nat)
    requires Reachable(adj, s, u) && u in adj && v in adj[u]
    ensures Reachable(adj, s, v)
  {
    var p: seq<nat> :| |p| > 0 && p[0] == s && p[|p| - 1] == u && Linked(adj, p);
    var q := p + [v];
    assert forall i | 0 <= i < |p| :: q[i] == p[i];
    assert Linked(adj, q);
  }

  /** Every key and every listed neighbour is below n. */
  ghost predicate Within(adj: Adj, n: nat)
  {
    forall u | u in adj :: u < n && forall v | v in adj[u] :: v < n
  }

  /** Every listed neighbour has an entry of its own. */
  ghost predicate Closed(adj: Adj)
  {
    forall u, v | u in adj && v in adj[u] :: v in adj
  }

  /** In a closed adjacency map, everything reachable from a key is a key. */
  lemma {:induction false} ClosedReach(adj: Adj, s: nat, v: nat)
    requires Closed(adj) && s in adj && Reachable(adj, s, v)
    ensures v in adj
  {
    var p: seq<nat> :| |p| > 0 && p[0] == s && p[|p| - 1] == v && Linked(adj, p);
    var i := 0;
    while i < |p| - 1
      invariant 0 <= i <= |p| - 1 && p[i] in adj
    {
      i := i + 1;
    }
  }

  /** If a set of vertices contains s and lists every neighbour of its
      members, which all have entries, it holds everything reachable from s. */
  lemma {:induction false} ShutReach(adj: Adj, S: set<nat>, s: nat, v: nat)
    requires s in S && forall x | x in S :: x in adj && forall y | y in adj[x] :: y in S
    requires Reachable(adj, s, v)
    ensures v in S
  {
    var p: seq<nat> :| |p| > 0 && p[0] == s && p[|p| - 1] == v && Linked(adj, p);
    var i := 0;
    while i < |p| - 1
      invariant 0 <= i <= |p| - 1 && p[i] in S
    {
      i := i + 1;
    }
  }

  /** No entry occurs twice. */
  ghost predicate NoDup(s: seq<nat>)
  {
    forall i, j | 0 <= i < j < |s| :: s[i] != s[j]
  }

  /** The entries of s as a set. */
  function Members(s: seq<nat>): set<nat>
  {
    set x: nat | x in s
  }

  lemma {:induction false} NoDupCard(s: seq<nat>)
    requires NoDup(s)
    ensures |Members(s)| == |s|
    decreases |s|
  {
    if |s| > 0 {
      var t := s[..|s| - 1];
      assert NoDup(t);
      NoDupCard(t);
      assert s == t + [s[|s| - 1]];
      assert Members(s) == Members(t) + {s[|s| - 1]};
      assert s[|s| - 1] !in Members(t);
    }
  }

  /** A list without repeats drawn from 0 .. n-1 has at most n entries. */
  lemma {:induction false} NoDupBound(s: seq<nat>, n: nat)
    requires NoDup(s) && forall x | x in s :: x < n
    ensures |s| <= n
  {
    NoDupCard(s);
    C.BoundedCard(Members(s), n);
  }

  /** The map `adjacency_list` returns: keys below n, neighbours below n,
      and for an undirected graph every neighbour has an entry. */
  lemma {:induction false} AdjacencyShape(g: Graph, d: Adj)
    requires g.Valid()
    requires forall i: nat :: i in d <==> i < g.n && Neighbors(g.matrix, g.gap, i) != []
    requires forall i | i in d :: d[i] == Neighbors(g.matrix, g.gap, i)
    ensures Within(d, g.n)
    ensures g.kind == Undirected ==> Closed(d)
  {
    forall u | u in d
      ensures u < g.n && forall v | v in d[u] :: v < g.n
    {
      NeighborsSpec(g.matrix, g.gap, u);
    }
    if g.kind == Undirected {
      forall u, v | u in d && v in d[u]
        ensures v in d
      {
        NeighborsSpec(g.matrix, g.gap, u);
        UndirectedAdjacencySymmetric(g.matrix, g.gap, u, v);
      }
    }
  }
}
