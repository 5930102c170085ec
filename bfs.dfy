/** Breadth-first traversal of an undirected graph from one vertex, over its
    adjacency list. */
module Bfs {
  import opened ExtInts
  import opened Walks
  import opened Graphs
  import opened AdjLists

  /** The first d entries of vis have been dequeued: each has an entry in
      the adjacency map and all its neighbours are in vis. */
  ghost predicate Expanded(adj: Adj, vis: seq<nat>, d: int)
  {
    0 <= d <= |vis| &&
    forall i | 0 <= i < d :: vis[i] in adj && forall v | v in adj[vis[i]] :: v in vis
  }

  /** vis starts with start, holds no vertex twice, only vertices below b
      and reachable from start. */
  ghost predicate Tidy(adj: Adj, b: nat, start: nat, vis: seq<nat>)
  {
    0 < |vis| && vis[0] == start && NoDup(vis) &&
    (forall x | x in vis :: x < b) &&
    (forall x | x in vis :: Reachable(adj, start, x))
  }

  /** The state at the head of the loop of `__run`: the queue is the tail of
      `visited` not yet dequeued, and every dequeued vertex is expanded. */
  ghost predicate Queued(adj: Adj, b: nat, start: nat, vis: seq<nat>, q: seq<nat>)
  {
    Tidy(adj, b, start, vis) && |vis| <= b &&
    |q| <= |vis| && q == vis[|vis| - |q|..] &&
    Expanded(adj, vis, |vis| - |q|)
  }

  /** Inside the loop, while scanning the neighbours of u, the one just
      dequeued: those before index k are all in vis. */
  ghost predicate Scanning(adj: Adj, b: nat, start: nat, vis: seq<nat>, q: seq<nat>, u: nat, k: int)
  {
    Tidy(adj, b, start, vis) &&
    |q| < |vis| && q == vis[|vis| - |q|..] && vis[|vis| - |q| - 1] == u &&
    u in adj && 0 <= k <= |adj[u]| &&
    Expanded(adj, vis, |vis| - |q| - 1) &&
    forall i | 0 <= i < k :: adj[u][i] in vis
  }

  lemma {:induction false} QueuedStart(adj: Adj, b: nat, start: nat)
    requires start < b
    ensures Queued(adj, b, start, [start], [start])
  {
    ReachSelf(adj, start);
  }

  lemma {:induction false} PopStart(adj: Adj, b: nat, start: nat, vis: seq<nat>, q: seq<nat>)
    requires Queued(adj, b, start, vis, q) && |q| > 0 && q[0] in adj
    ensures Scanning(adj, b, start, vis, q[1..], q[0], 0)
  {
    assert q[1..] == vis[|vis| - |q| + 1..];
  }

  /** The vertex at the front of the queue is reachable from start, so
      when it has no entry the lookup fails on a reachable vertex. */
  lemma {:induction false} FrontReachable(adj: Adj, b: nat, start: nat, vis: seq<nat>, q: seq<nat>)
    requires Queued(adj, b, start, vis, q) && |q| > 0
    ensures Reachable(adj, start, q[0])
    ensures q[0] !in adj ==> !AllKeyed(adj, start)
    ensures q[1..] == vis[|vis| - |q[1..]|..]
  {
    assert q[0] == vis[|vis| - |q|] && q[0] in vis;
  }

  lemma {:induction false} ScanAdd(adj: Adj, b: nat, start: nat, vis: seq<nat>, q: seq<nat>, u: nat, k: int)
    requires Within(adj, b)
    requires Scanning(adj, b, start, vis, q, u, k) && k < |adj[u]| && adj[u][k] !in vis
    ensures Scanning(adj, b, start, vis + [adj[u][k]], q + [adj[u][k]], u, k + 1)
  {
    var v := adj[u][k];
    var w := vis + [v];
    assert u in vis;
    ReachStep(adj, start, u, v);
    assert forall i | 0 <= i < |vis| :: w[i] == vis[i];
    assert forall x | x in vis :: x in w;
    assert q + [v] == w[|w| - |q| - 1..];
    assert Tidy(adj, b, start, w);
  }

  lemma {:induction false} ScanSkip(adj: Adj, b: nat, start: nat, vis: seq<nat>, q: seq<nat>, u: nat, k: int)
    requires Scanning(adj, b, start, vis, q, u, k) && k < |adj[u]| && adj[u][k] in vis
    ensures Scanning(adj, b, start, vis, q, u, k + 1)
  {
  }

  /** One more neighbour scanned: both lists stay what they held followed
      by the fresh neighbours so far. */
  lemma {:induction false} FreshExtend(xs: seq<nat>, vis0: seq<nat>, q0: seq<nat>, vis: seq<nat>, q: seq<nat>, k: nat)
    requires k < |xs|
    requires vis == vis0 + FreshTo(xs, vis0, k) && q == q0 + FreshTo(xs, vis0, k)
    ensures xs[k] in vis ==> vis == vis0 + FreshTo(xs, vis0, k + 1) && q == q0 + FreshTo(xs, vis0, k + 1)
    ensures xs[k] !in vis ==>
              vis + [xs[k]] == vis0 + FreshTo(xs, vis0, k + 1) && q + [xs[k]] == q0 + FreshTo(xs, vis0, k + 1)
  {
    assert (xs[k] in vis) == (xs[k] in vis0 || xs[k] in FreshTo(xs, vis0, k));
    if xs[k] !in vis {
      assert vis + [xs[k]] == vis0 + (FreshTo(xs, vis0, k) + [xs[k]]);
      assert q + [xs[k]] == q0 + (FreshTo(xs, vis0, k) + [xs[k]]);
    }
  }

  lemma {:induction false} ScanEnd(adj: Adj, b: nat, start: nat, vis: seq<nat>, q: seq<nat>, u: nat)
    requires u in adj && Scanning(adj, b, start, vis, q, u, |adj[u]|)
    ensures Queued(adj, b, start, vis, q)
  {
    NoDupBound(vis, b);
  }

  /** Every vertex reachable from start has an entry, so no lookup of
      `__run` can fail. */
  ghost predicate AllKeyed(adj: Adj, start: nat)
  {
    forall v | Reachable(adj, start, v) :: v in adj
  }

  /** vis holds exactly the vertices reachable from start. */
  ghost predicate Complete(adj: Adj, start: nat, vis: seq<nat>)
  {
    forall v :: Reachable(adj, start, v) <==> v in vis
  }

  /** When the queue runs dry, `visited` is exactly the set of vertices
      reachable from start, and every one of them has an entry. */
  lemma {:induction false} QueuedDone(adj: Adj, b: nat, start: nat, vis: seq<nat>)
    requires Queued(adj, b, start, vis, [])
    ensures AllKeyed(adj, start) && Complete(adj, start, vis)
  {
    forall v | Reachable(adj, start, v)
      ensures v in vis
    {
      ShutReach(adj, Members(vis), start, v);
    }
  }

  /** When every listed neighbour has an entry, as in an undirected graph,
      the traversal finds an entry for every reachable vertex exactly when
      start has one, i.e. when start has a neighbour. */
  lemma {:induction false} ClosedKeys(adj: Adj, start: nat)
    requires Closed(adj)
    ensures AllKeyed(adj, start) <==> start in adj
  {
    ReachSelf(adj, start);
    if start in adj {
      forall v | Reachable(adj, start, v)
        ensures v in adj
      {
        ClosedReach(adj, start, v);
      }
    }
  }

  /** The members of xs[..k] that are not in seen, in list order, each
      kept at its first occurrence. */
  function FreshTo(xs: seq<nat>, seen: seq<nat>, k: nat): seq<nat>
    requires k <= |xs|
  {
    if k == 0 then []
    else
      var r := FreshTo(xs, seen, k - 1);
      if xs[k - 1] in seen || xs[k - 1] in r then r else r + [xs[k - 1]]
  }

  /** The neighbours the `for` loop of `__run` appends: those of xs not in
      seen, in list order, each at its first occurrence. */
  function Fresh(xs: seq<nat>, seen: seq<nat>): seq<nat> {
    FreshTo(xs, seen, |xs|)
  }

  lemma {:induction false} FreshToSpec(xs: seq<nat>, seen: seq<nat>, k: nat)
    requires k <= |xs|
    ensures forall x :: x in FreshTo(xs, seen, k) <==> x in xs[..k] && x !in seen
    ensures NoDup(FreshTo(xs, seen, k))
  {
    if k > 0 {
      FreshToSpec(xs, seen, k - 1);
      assert xs[..k] == xs[..k - 1] + [xs[k - 1]];
    }
  }

  /** The fresh neighbours are exactly those of xs not in seen, each once. */
  lemma {:induction false} FreshSpec(xs: seq<nat>, seen: seq<nat>)
    ensures forall x :: x in Fresh(xs, seen) <==> x in xs && x !in seen
    ensures NoDup(Fresh(xs, seen))
  {
    FreshToSpec(xs, seen, |xs|);
    assert xs[..|xs|] == xs;
  }

  /** The two lists of `__run`. */
  datatype State = State(visited: seq<nat>, queue: seq<nat>)

  /** One turn of the `while` loop of `__run`: dequeue u and append its
      fresh neighbours to both lists. */
  function Turn(adj: Adj, s: State): (r: State)
    requires s.queue != [] && s.queue[0] in adj
    ensures |r.visited| - |r.queue| == |s.visited| - |s.queue| + 1
    ensures |s.visited| <= |r.visited| && r.visited[..|s.visited|] == s.visited
    ensures forall x :: x in r.visited <==> x in s.visited || x in adj[s.queue[0]]
  {
    var f := Fresh(adj[s.queue[0]], s.visited);
    FreshSpec(adj[s.queue[0]], s.visited);
    assert (s.visited + f)[..|s.visited|] == s.visited;
    State(s.visited + f, s.queue[1..] + f)
  }

  /** The lists after k turns from s, or None when the loop stops earlier
      (empty queue) or a lookup fails first. */
  function Turns(adj: Adj, s: State, k: nat): Option<State>
  {
    if k == 0 then Some(s)
    else match Turns(adj, s, k - 1)
      case None => None
      case Some(t) => if t.queue != [] && t.queue[0] in adj then Some(Turn(adj, t)) else None
  }

  /** `Bfs`: the adjacency list of the graph, the traversal state of
      `__run`, and whether the traversal ran to the end (false when a
      dequeued vertex had no entry and the lookup failed). */
  class Bfs {
    const n: nat
    const adj: Adj
    var visited: seq<nat>
    var queue: seq<nat>
    var ok: bool

    /** `__init__`: takes the adjacency list of the graph and traverses it
        from start. */
    constructor (g: Graph, start: nat)
      requires g.Valid() && g.kind == Undirected
      ensures n == g.n
      ensures forall i: nat :: i in adj <==> i < g.n && Neighbors(g.matrix, g.gap, i) != []
      ensures forall i | i in adj :: adj[i] == Neighbors(g.matrix, g.gap, i)
      ensures visited != [] && visited[0] == start && NoDup(visited)
      ensures ok <==> start in adj
      ensures ok ==> Complete(adj, start, visited)
      ensures ok ==> Turns(adj, State([start], [start]), |visited|) == Some(State(visited, []))
      ensures start < n ==> |visited| <= n
    {
      n := g.n;
      var d := g.AdjacencyList();
      AdjacencyShape(g, d);
      adj := d;
      visited, queue, ok := [], [], true;
      new;
      ghost var rounds := Run(start);
      ClosedKeys(adj, start);
    }

    /** `__run`: dequeue from the front, append every neighbour not yet in
        `visited` to both lists. Each vertex is dequeued once, so the loop
        turns `rounds` times, at most n. */
    method Run(start: nat) returns (ghost rounds: nat)
      requires Within(adj, n)
      modifies this
      ensures visited != [] && visited[0] == start && NoDup(visited)
      ensures forall v | v in visited :: Reachable(adj, start, v)
      ensures |queue| <= |visited| && queue == visited[|visited| - |queue|..]
      ensures ok <==> AllKeyed(adj, start)
      ensures ok ==> queue == [] && Complete(adj, start, visited)
      ensures ok ==> rounds == |visited|
      ensures ok ==> Turns(adj, State([start], [start]), rounds) == Some(State(visited, queue))
      ensures start < n ==> |visited| <= n
    {
      visited := [start];
      queue := [start];
      ok := true;
      rounds := 0;
      ghost var b := if start < n then n else start + 1;
      QueuedStart(adj, b, start);
      while queue != []
        invariant ok && Queued(adj, b, start, visited, queue)
        invariant rounds == |visited| - |queue|
        invariant Turns(adj, State([start], [start]), rounds) == Some(State(visited, queue))
        decreases b - |visited|, |queue|
      {
        var u := queue[0];
        FrontReachable(adj, b, start, visited, queue);
        if u !in adj {
          queue := queue[1..];
          ok := false;
          return;
        }
        PopStart(adj, b, start, visited, queue);
        ghost var before := State(visited, queue);
        queue := queue[1..];
        rounds := rounds + 1;
        Visit(u, b, start);
        assert State(visited, queue) == Turn(adj, before);
      }
      QueuedDone(adj, b, start, visited);
    }

    /** One neighbour of the `for` loop: `adj[u][k]` is appended to both
        lists exactly when `visited` lacks it. */
    method Scan(u: nat, k: nat, ghost b: nat, ghost start: nat, ghost vis0: seq<nat>, ghost q0: seq<nat>)
      requires Within(adj, b) && u in adj && k < |adj[u]|
      requires Scanning(adj, b, start, visited, queue, u, k)
      requires visited == vis0 + FreshTo(adj[u], vis0, k) && queue == q0 + FreshTo(adj[u], vis0, k)
      modifies this
      ensures Scanning(adj, b, start, visited, queue, u, k + 1)
      ensures visited == vis0 + FreshTo(adj[u], vis0, k + 1) && queue == q0 + FreshTo(adj[u], vis0, k + 1)
      ensures ok == old(ok)
    {
      var v := adj[u][k];
      FreshExtend(adj[u], vis0, q0, visited, queue, k);
      if v !in visited {
        ScanAdd(adj, b, start, visited, queue, u, k);
        queue := queue + [v];
        visited := visited + [v];
      } else {
        ScanSkip(adj, b, start, visited, queue, u, k);
      }
    }

    /** The `for` loop of `__run`: the neighbours of u not yet in `visited`
        are appended to `visited` and to the queue, in list order; both lists
        keep what they held. */
    method Visit(u: nat, ghost b: nat, ghost start: nat)
      requires Within(adj, b) && u in adj
      requires Scanning(adj, b, start, visited, queue, u, 0)
      modifies this
      ensures Queued(adj, b, start, visited, queue)
      ensures visited == old(visited) + Fresh(adj[u], old(visited))
      ensures queue == old(queue) + Fresh(adj[u], old(visited))
      ensures ok == old(ok)
    {
      var k := 0;
      while k < |adj[u]|
        invariant k <= |adj[u]| && Scanning(adj, b, start, visited, queue, u, k)
        invariant visited == old(visited) + FreshTo(adj[u], old(visited), k)
        invariant queue == old(queue) + FreshTo(adj[u], old(visited), k)
        invariant ok == old(ok)
        decreases |adj[u]| - k
      {
        Scan(u, k, b, start, old(visited), old(queue));
        k := k + 1;
      }
      ScanEnd(adj, b, start, visited, queue, u);
    }
  }
}
