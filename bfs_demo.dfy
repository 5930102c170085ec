/** The five-vertex example graph of the BFS module, worked through the
    model: the traversal from vertex 0 visits 0, 1, 3, 4, 2. */
module BfsDemo {
  import opened ExtInts
  import opened AdjLists
  import opened Walks
  import opened Graphs
  import B = Bfs

  /** The example's unweighted matrix: gap -1, 0 on the diagonal and 1 on
      both cells of each of the seven edges. */
  const DemoMatrix: Matrix := [
    [Fin(0),  Fin(1),  Fin(-1), Fin(1),  Fin(1)],
    [Fin(1),  Fin(0),  Fin(1),  Fin(1),  Fin(-1)],
    [Fin(-1), Fin(1),  Fin(0),  Fin(1),  Fin(-1)],
    [Fin(1),  Fin(1),  Fin(1),  Fin(0),  Fin(1)],
    [Fin(1),  Fin(-1), Fin(-1), Fin(1),  Fin(0)]
  ]

  /** Its adjacency list: every vertex has neighbours, in ascending order. */
  const DemoAdj: Adj := map[0 := [1, 3, 4], 1 := [0, 2, 3], 2 := [1, 3], 3 := [0, 1, 2, 4], 4 := [0, 3]]

  /** The matrix after the first three edges 0-1, 0-4 and 0-3. */
  const HalfMatrix: Matrix := [
    [Fin(0),  Fin(1),  Fin(-1), Fin(1),  Fin(1)],
    [Fin(1),  Fin(0),  Fin(-1), Fin(-1), Fin(-1)],
    [Fin(-1), Fin(-1), Fin(0),  Fin(-1), Fin(-1)],
    [Fin(1),  Fin(-1), Fin(-1), Fin(0),  Fin(-1)],
    [Fin(1),  Fin(-1), Fin(-1), Fin(-1), Fin(0)]
  ]

  /** The first three `add_edge` calls of the example, on the fresh graph. */
  method DemoEdgesFromZero() returns (g: Graph)
    ensures fresh(g) && g.Valid() && g.n == 5 && g.kind == Undirected && !g.weighted
    ensures g.matrix == HalfMatrix && g.gap == Fin(-1)
  {
    g := new Graph(5, Fin(-1), false, Undirected);
    g.AddEdge(0, 1, Some(5));
    g.AddEdge(0, 4, Some(3));
    g.AddEdge(0, 3, Some(6));
    forall i | 0 <= i < 5 ensures g.matrix[i] == HalfMatrix[i] {
      assert |g.matrix[i]| == 5;
    }
  }

  /** The matrix after the next two edges 4-3 and 3-1. */
  const ThreeMatrix: Matrix := [
    [Fin(0),  Fin(1),  Fin(-1), Fin(1),  Fin(1)],
    [Fin(1),  Fin(0),  Fin(-1), Fin(1),  Fin(-1)],
    [Fin(-1), Fin(-1), Fin(0),  Fin(-1), Fin(-1)],
    [Fin(1),  Fin(1),  Fin(-1), Fin(0),  Fin(1)],
    [Fin(1),  Fin(-1), Fin(-1), Fin(1),  Fin(0)]
  ]

  /** The fourth and fifth `add_edge` calls of the example. */
  method DemoEdgesOfThree(g: Graph)
    requires g.Valid() && g.n == 5 && g.kind == Undirected && !g.weighted && g.matrix == HalfMatrix
    modifies g
    ensures g.Valid() && g.matrix == ThreeMatrix
  {
    g.AddEdge(4, 3, Some(2));
    g.AddEdge(3, 1, Some(1));
    forall i | 0 <= i < 5 ensures g.matrix[i] == ThreeMatrix[i] {
      assert |g.matrix[i]| == 5;
    }
  }

  /** The example graph, built with seven `add_edge` calls on an unweighted
      graph, so every stored weight is 1. */
  method DemoGraph() returns (g: Graph)
    ensures fresh(g) && g.Valid() && g.n == 5 && g.kind == Undirected
    ensures g.matrix == DemoMatrix && g.gap == Fin(-1)
  {
    g := DemoEdgesFromZero();
    DemoEdgesOfThree(g);
    g.AddEdge(1, 2, Some(10));
    g.AddEdge(3, 2, Some(4));
    forall i | 0 <= i < 5 ensures g.matrix[i] == DemoMatrix[i] {
      assert |g.matrix[i]| == 5;
    }
  }

  /** The neighbours listed for each vertex of the example. */
  lemma {:induction false} DemoNeighbors(i: nat)
    requires i < 5
    ensures Square(DemoMatrix)
    ensures i in DemoAdj && Neighbors(DemoMatrix, Fin(-1), i) == DemoAdj[i]
  {
    var m := DemoMatrix;
    assert Square(m);
    var up := NeighborsUpTo(m, Fin(-1), i, 0);
    assert up == [];
    assert NeighborsUpTo(m, Fin(-1), i, 1) == up + (if i != 0 && m[i][0] != Fin(-1) then [0] else []);
    assert NeighborsUpTo(m, Fin(-1), i, 2) == NeighborsUpTo(m, Fin(-1), i, 1) + (if i != 1 && m[i][1] != Fin(-1) then [1] else []);
    assert NeighborsUpTo(m, Fin(-1), i, 3) == NeighborsUpTo(m, Fin(-1), i, 2) + (if i != 2 && m[i][2] != Fin(-1) then [2] else []);
    assert NeighborsUpTo(m, Fin(-1), i, 4) == NeighborsUpTo(m, Fin(-1), i, 3) + (if i != 3 && m[i][3] != Fin(-1) then [3] else []);
  }

  /** The lists of the example after k turns of the loop from [0], [0]. */
  function DemoState(k: nat): B.State
    requires k <= 5
  {
    if k == 0 then B.State([0], [0])
    else if k == 1 then B.State([0, 1, 3, 4], [1, 3, 4])
    else if k == 2 then B.State([0, 1, 3, 4, 2], [3, 4, 2])
    else if k == 3 then B.State([0, 1, 3, 4, 2], [4, 2])
    else if k == 4 then B.State([0, 1, 3, 4, 2], [2])
    else B.State([0, 1, 3, 4, 2], [])
  }

  /** One turn, once its fresh neighbours f are known. */
  lemma {:induction false} TurnIs(adj: Adj, s: B.State, f: seq<nat>)
    requires s.queue != [] && s.queue[0] in adj && B.Fresh(adj[s.queue[0]], s.visited) == f
    ensures B.Turn(adj, s) == B.State(s.visited + f, s.queue[1..] + f)
  {
  }

  /** The next neighbour is fresh when neither seen nor already taken. */
  lemma {:induction false} FreshTake(xs: seq<nat>, seen: seq<nat>, j: nat)
    requires j < |xs| && xs[j] !in seen && xs[j] !in B.FreshTo(xs, seen, j)
    ensures B.FreshTo(xs, seen, j + 1) == B.FreshTo(xs, seen, j) + [xs[j]]
  {
  }

  /** The next neighbour is skipped when seen. */
  lemma {:induction false} FreshSkip(xs: seq<nat>, seen: seq<nat>, j: nat)
    requires j < |xs| && xs[j] in seen
    ensures B.FreshTo(xs, seen, j + 1) == B.FreshTo(xs, seen, j)
  {
  }

  /** The first turn dequeues 0 and finds 1, 3, 4 fresh. */
  lemma {:induction false} DemoTurnOne()
    ensures B.Turn(DemoAdj, DemoState(0)) == DemoState(1)
  {
    var xs, vis := [1, 3, 4], [0];
    FreshTake(xs, vis, 0);
    FreshTake(xs, vis, 1);
    FreshTake(xs, vis, 2);
    TurnIs(DemoAdj, DemoState(0), [1, 3, 4]);
  }

  /** The second turn dequeues 1 and finds only 2 fresh. */
  lemma {:induction false} DemoTurnTwo()
    ensures B.Turn(DemoAdj, DemoState(1)) == DemoState(2)
  {
    var xs, vis := [0, 2, 3], [0, 1, 3, 4];
    FreshSkip(xs, vis, 0);
    FreshTake(xs, vis, 1);
    FreshSkip(xs, vis, 2);
    TurnIs(DemoAdj, DemoState(1), [2]);
    assert [1, 3, 4][1..] + [2] == [3, 4, 2];
  }

  /** The last three turns dequeue 3, 4 and 2 and find nothing fresh. */
  lemma {:induction false} DemoTurnLate(k: nat)
    requires 2 <= k < 5
    ensures DemoState(k).queue != [] && DemoState(k).queue[0] in DemoAdj
    ensures B.Turn(DemoAdj, DemoState(k)) == DemoState(k + 1)
  {
    var vis := [0, 1, 3, 4, 2];
    var u := DemoState(k).queue[0];
    var xs := DemoAdj[u];
    forall j | 0 <= j <= |xs| ensures B.FreshTo(xs, vis, j) == [] {
      FreshNone(xs, vis, j);
    }
    assert B.Fresh(xs, vis) == [];
  }

  /** Nothing is fresh in a prefix whose members are all seen. */
  lemma {:induction false} FreshNone(xs: seq<nat>, seen: seq<nat>, j: nat)
    requires j <= |xs| && forall x | x in xs :: x in seen
    ensures B.FreshTo(xs, seen, j) == []
  {
    if j > 0 {
      FreshNone(xs, seen, j - 1);
    }
  }

  /** k turns from [0], [0] reach DemoState(k). */
  lemma {:induction false} DemoStates(k: nat)
    requires k <= 5
    ensures B.Turns(DemoAdj, DemoState(0), k) == Some(DemoState(k))
  {
    if k > 0 {
      DemoStates(k - 1);
      if k == 1 {
        DemoTurnOne();
      } else if k == 2 {
        DemoTurnTwo();
      } else {
        DemoTurnLate(k - 1);
      }
    }
  }

  /** The adjacency map of the example is DemoAdj. */
  lemma {:induction false} DemoAdjacency(adj: Adj)
    requires Square(DemoMatrix)
    requires forall i: nat :: i in adj <==> i < 5 && Neighbors(DemoMatrix, Fin(-1), i) != []
    requires forall i | i in adj :: adj[i] == Neighbors(DemoMatrix, Fin(-1), i)
    ensures adj == DemoAdj
  {
    forall i: nat ensures i in adj <==> i in DemoAdj {
      if i < 5 {
        DemoNeighbors(i);
      }
    }
    forall i | i in DemoAdj ensures adj[i] == DemoAdj[i] {
      DemoNeighbors(i);
    }
  }

  /** A run that ends after k turns ends with DemoState(5). */
  lemma {:induction false} DemoEnd(vis: seq<nat>, k: nat)
    requires k <= 5 && B.Turns(DemoAdj, B.State([0], [0]), k) == Some(B.State(vis, []))
    ensures vis == [0, 1, 3, 4, 2]
  {
    DemoStates(k);
  }

  /** `Bfs(G, 0).visited` on the example is [0, 1, 3, 4, 2]. */
  method DemoVisited() returns (visited: seq<nat>)
    ensures visited == [0, 1, 3, 4, 2]
  {
    var g := DemoGraph();
    DemoNeighbors(0);
    var bfs := new B.Bfs(g, 0);
    DemoAdjacency(bfs.adj);
    visited := bfs.visited;
    DemoEnd(visited, |visited|);
  }
}
