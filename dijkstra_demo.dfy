/** The five-vertex example network of the Dijkstra module, worked through the
    model: the search from vertex 0 ends with costs 0, 5, 3, 5, 9. */
module DijkstraDemo {
  import opened ExtInts
  import opened Walks
  import Graphs
  import D = Dijkstra

  /** The example's cost matrix: gap -1, 0 on the diagonal, seven arrows. */
  const DemoMatrix: Matrix := [
    [Fin(0),  Fin(5),  Fin(3),  Fin(6),  Fin(-1)],
    [Fin(-1), Fin(0),  Fin(-1), Fin(-1), Fin(10)],
    [Fin(-1), Fin(-1), Fin(0),  Fin(2),  Fin(-1)],
    [Fin(-1), Fin(1),  Fin(-1), Fin(0),  Fin(4)],
    [Fin(-1), Fin(-1), Fin(-1), Fin(-1), Fin(0)]
  ]

  const DemoCosts: seq<ExtInt> := [Fin(0), Fin(5), Fin(3), Fin(5), Fin(9)]

  lemma {:induction false} DemoRelaxed()
    ensures Square(DemoMatrix) && D.Relaxed(DemoMatrix, DemoCosts)
  {
    var m, d := DemoMatrix, DemoCosts;
    assert Square(m);
    forall u, v | 0 <= u < 5 && 0 <= v < 5 && D.Usable(m[u][v])
      ensures LessEq(d[v], Add(d[u], m[u][v]))
    {
      if u == 0 {} else if u == 1 {} else if u == 2 {} else if u == 3 {} else {}
    }
  }

  /** A walk through the example matrix that follows only usable cells. */
  lemma {:induction false} DemoWalk(p: seq<nat>, v: nat, w: int)
    requires |p| >= 2 && p[0] == 0 && p[|p| - 1] == v
    requires forall t | 0 <= t < |p| :: p[t] < 5
    requires D.DWalk(DemoMatrix, p[..|p| - 1], 0, p[|p| - 2])
    requires Add(Weight(DemoMatrix, p[..|p| - 1]), DemoMatrix[p[|p| - 2]][v]) == Fin(w)
    requires D.Usable(DemoMatrix[p[|p| - 2]][v])
    ensures D.DWalk(DemoMatrix, p, 0, v) && Weight(DemoMatrix, p) == Fin(w)
  {
  }

  /** Each finite cost is the weight of a walk: 0 -> 1, 0 -> 2, 0 -> 2 -> 3 and
      0 -> 2 -> 3 -> 4. */
  lemma {:induction false} DemoWalks(v: nat)
    requires v < 5
    ensures Square(DemoMatrix)
    ensures exists p :: D.DWalk(DemoMatrix, p, 0, v) && Weight(DemoMatrix, p) == DemoCosts[v]
  {
    var m := DemoMatrix;
    assert Square(m);
    assert D.DWalk(m, [0], 0, 0);
    if v == 0 {
      assert D.DWalk(m, [0], 0, 0) && Weight(m, [0]) == DemoCosts[0];
    } else if v == 1 {
      DemoWalk([0, 1], 1, 5);
    } else {
      DemoWalk([0, 2], 2, 3);
      if v == 2 {
        assert D.DWalk(m, [0, 2], 0, 2) && Weight(m, [0, 2]) == DemoCosts[2];
      } else {
        assert [0, 2, 3][..2] == [0, 2];
        DemoWalk([0, 2, 3], 3, 5);
        if v == 3 {
          assert D.DWalk(m, [0, 2, 3], 0, 3) && Weight(m, [0, 2, 3]) == DemoCosts[3];
        } else {
          assert [0, 2, 3, 4][..3] == [0, 2, 3];
          DemoWalk([0, 2, 3, 4], 4, 9);
          assert D.DWalk(m, [0, 2, 3, 4], 0, 4) && Weight(m, [0, 2, 3, 4]) == DemoCosts[4];
        }
      }
    }
  }

  /** Distances from 0 in the example network: 0 -> 2 -> 3 -> 1 costs 6, so the
      direct arrow of weight 5 wins for vertex 1. */
  lemma {:induction false} DemoDistances()
    ensures Square(DemoMatrix)
    ensures forall v | 0 <= v < 5 :: D.IsShortest(DemoMatrix, 0, v, DemoCosts[v])
  {
    var m, d := DemoMatrix, DemoCosts;
    DemoRelaxed();
    forall v | 0 <= v < 5 ensures D.IsShortest(m, 0, v, d[v]) {
      DemoWalks(v);
      forall p | D.DWalk(m, p, 0, v) ensures LessEq(d[v], Weight(m, p)) {
        D.RelaxedIsLowerBound(m, d, 0, p, v);
      }
    }
  }

  /** The example graph, built with seven `add_arrow` calls. */
  method DemoGraph() returns (g: Graphs.Graph)
    ensures fresh(g) && g.Valid() && g.n == 5 && g.kind == Graphs.Directed
    ensures g.matrix == DemoMatrix
  {
    g := new Graphs.Graph(5, Fin(-1), true, Graphs.Directed);
    g.AddArrow(0, 1, Graphs.Some(5));
    g.AddArrow(0, 2, Graphs.Some(3));
    g.AddArrow(0, 3, Graphs.Some(6));
    g.AddArrow(2, 3, Graphs.Some(2));
    g.AddArrow(3, 1, Graphs.Some(1));
    g.AddArrow(1, 4, Graphs.Some(10));
    g.AddArrow(3, 4, Graphs.Some(4));
    forall i | 0 <= i < 5 ensures g.matrix[i] == DemoMatrix[i] {
      assert |g.matrix[i]| == 5;
    }
  }

  /** Runs the search from 0 on the example graph and reads the costs. */
  method Demo() returns (costs: seq<ExtInt>)
    ensures costs == DemoCosts
  {
    var g := DemoGraph();
    var djk := new D.Dijkstra(g, 0);
    costs := djk.costs;
    DemoDistances();
    forall v | 0 <= v < 5 ensures costs[v] == DemoCosts[v] {
      D.ShortestUnique(djk.matrix, 0, v, costs[v], DemoCosts[v]);
    }
  }
}
