/** The five-vertex example network of the Ford-Fulkerson module, worked
    through the model: the maximum flow from 0 to 4 is 60. */
module FordFulkersonDemo {
  import opened Graphs
  import opened FordFulkerson

  /** The example's residual matrix: eight fresh arrows `[c, 0, 1]`, their
      sign-flipped copies, and `[0, 0, 1]` everywhere else. */
  const DemoNetwork: seq<seq<Flow>> := [
    [Flow(0, 0, 1),   Flow(20, 0, 1),  Flow(30, 0, 1),  Flow(10, 0, 1),  Flow(0, 0, 1)],
    [Flow(20, 0, -1), Flow(0, 0, 1),   Flow(40, 0, 1),  Flow(0, 0, 1),   Flow(30, 0, 1)],
    [Flow(30, 0, -1), Flow(40, 0, -1), Flow(0, 0, 1),   Flow(10, 0, 1),  Flow(20, 0, 1)],
    [Flow(10, 0, -1), Flow(0, 0, 1),   Flow(10, 0, -1), Flow(0, 0, 1),   Flow(20, 0, 1)],
    [Flow(0, 0, 1),   Flow(30, 0, -1), Flow(20, 0, -1), Flow(20, 0, -1), Flow(0, 0, 1)]
  ]

  /** One cell of the example: a sign of 1 or -1, mirrored residuals,
      opposite signs on every arrow, nothing negative. */
  lemma {:induction false} DemoCell(i: nat, j: nat)
    requires i < 5 && j < 5
    ensures |DemoNetwork| == 5 && |DemoNetwork[i]| == 5 && |DemoNetwork[j]| == 5
    ensures DemoNetwork[i][j].sign == 1 || DemoNetwork[i][j].sign == -1
    ensures DemoNetwork[i][j].fwd == DemoNetwork[j][i].fwd && DemoNetwork[i][j].bwd == DemoNetwork[j][i].bwd
    ensures i != j ==> DemoNetwork[i][j].sign == -DemoNetwork[j][i].sign
                       || (Res(DemoNetwork[i][j]) <= 0 && Res(DemoNetwork[j][i]) <= 0)
    ensures Res(DemoNetwork[i][j]) >= 0
  {
    var m: seq<seq<Flow>> := DemoNetwork;
    if i == 0 {
      if j == 0 {} else if j == 1 {} else if j == 2 {} else if j == 3 {} else {}
    } else if i == 1 {
      if j == 0 {} else if j == 1 {} else if j == 2 {} else if j == 3 {} else {}
    } else if i == 2 {
      if j == 0 {} else if j == 1 {} else if j == 2 {} else if j == 3 {} else {}
    } else if i == 3 {
      if j == 0 {} else if j == 1 {} else if j == 2 {} else if j == 3 {} else {}
    } else {
      if j == 0 {} else if j == 1 {} else if j == 2 {} else if j == 3 {} else {}
    }
  }

  lemma {:induction false} DemoShape()
    ensures Network(DemoNetwork, 5) && Opposed(DemoNetwork, 5) && NoNegative(DemoNetwork, 5)
  {
    var m: seq<seq<Flow>> := DemoNetwork;
    forall i | 0 <= i < 5 ensures |m[i]| == 5 {
      DemoCell(i, i);
    }
    assert Signed(m) by {
      forall i, j | 0 <= i < 5 && 0 <= j < 5 ensures m[i][j].sign == 1 || m[i][j].sign == -1 {
        DemoCell(i, j);
      }
    }
    assert Mirrored(m) by {
      forall i, j | 0 <= i < 5 && 0 <= j < 5 ensures m[i][j].fwd == m[j][i].fwd && m[i][j].bwd == m[j][i].bwd {
        DemoCell(i, j);
      }
    }
    assert Network(m, 5);
    forall i, j | 0 <= i < 5 && 0 <= j < 5 && i != j
      ensures m[i][j].sign == -m[j][i].sign || (Res(m[i][j]) <= 0 && Res(m[j][i]) <= 0)
    {
      DemoCell(i, j);
    }
    forall i, j | 0 <= i < 5 && 0 <= j < 5 ensures Res(m[i][j]) >= 0 {
      DemoCell(i, j);
    }
  }

  /** What cell [x][y] of row r adds to the capacity of W. */
  function Term(r: seq<Flow>, x: nat, W: set<nat>, y: nat): int
    requires y < |r|
  {
    if x in W && y !in W then Res(r[y]) else 0
  }

  lemma {:induction false} CutRowFive(r: seq<Flow>, x: nat, W: set<nat>)
    requires |r| == 5
    ensures CutRow(r, x, W, 5) == Term(r, x, W, 0) + Term(r, x, W, 1) + Term(r, x, W, 2) + Term(r, x, W, 3) + Term(r, x, W, 4)
  {
    assert CutRow(r, x, W, 1) == Term(r, x, W, 0);
    assert CutRow(r, x, W, 2) == CutRow(r, x, W, 1) + Term(r, x, W, 1);
    assert CutRow(r, x, W, 3) == CutRow(r, x, W, 2) + Term(r, x, W, 2);
    assert CutRow(r, x, W, 4) == CutRow(r, x, W, 3) + Term(r, x, W, 3);
  }

  lemma {:induction false} CutRowsFive(m: seq<seq<Flow>>, W: set<nat>)
    requires FlowSquare(m) && |m| == 5
    ensures CutCapacity(m, W) == CutRow(m[0], 0, W, 5) + CutRow(m[1], 1, W, 5) + CutRow(m[2], 2, W, 5)
                                 + CutRow(m[3], 3, W, 5) + CutRow(m[4], 4, W, 5)
  {
    assert CutRows(m, W, 1) == CutRow(m[0], 0, W, 5);
    assert CutRows(m, W, 2) == CutRows(m, W, 1) + CutRow(m[1], 1, W, 5);
    assert CutRows(m, W, 3) == CutRows(m, W, 2) + CutRow(m[2], 2, W, 5);
    assert CutRows(m, W, 4) == CutRows(m, W, 3) + CutRow(m[3], 3, W, 5);
  }

  /** Every cut between 0 and 4 has capacity 60 or more, and one with
      nothing but 0 on the source side has 60: the arrows leaving 0 carry
      20 + 30 + 10. */
  lemma {:induction false} DemoCuts(W: set<nat>)
    requires 0 in W && 4 !in W
    ensures FlowSquare(DemoNetwork)
    ensures CutCapacity(DemoNetwork, W) >= 60
    ensures 1 !in W && 2 !in W && 3 !in W ==> CutCapacity(DemoNetwork, W) == 60
  {
    var m: seq<seq<Flow>> := DemoNetwork;
    DemoShape();
    CutRowsFive(m, W);
    CutRowFive(m[0], 0, W);
    CutRowFive(m[1], 1, W);
    CutRowFive(m[2], 2, W);
    CutRowFive(m[3], 3, W);
    CutRowFive(m[4], 4, W);
  }

  /** The example network, built with eight `add_arrow` calls. */
  method DemoGraph() returns (g: FGraph)
    ensures fresh(g) && g.Valid() && g.n == 5 && g.matrix == DemoNetwork
  {
    g := new FGraph(5);
    g.AddArrow(0, 1, Flow(20, 0, 1));
    g.AddArrow(0, 2, Flow(30, 0, 1));
    g.AddArrow(0, 3, Flow(10, 0, 1));
    g.AddArrow(1, 2, Flow(40, 0, 1));
    g.AddArrow(1, 4, Flow(30, 0, 1));
    g.AddArrow(2, 3, Flow(10, 0, 1));
    g.AddArrow(2, 4, Flow(20, 0, 1));
    g.AddArrow(3, 4, Flow(20, 0, 1));
    forall i | 0 <= i < 5 ensures g.matrix[i] == DemoNetwork[i] {
      assert |g.matrix[i]| == 5;
    }
  }

  /** `FordFulk(fgraph).run(0, 4)` on the example network returns 60. */
  method DemoMaxFlow() returns (total: int)
    ensures total == 60
  {
    var g := DemoGraph();
    DemoShape();
    var ff := new FordFulk(g);
    ghost var cut;
    total, cut := ff.Run(0, 4);
    DemoCuts(cut);
    DemoCuts({0});
  }
}
