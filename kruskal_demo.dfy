/** The six-vertex example graph of the Kruskal module, worked through the
    model: the tree as written takes the edges of weight 1, 2, 3, 4 and 6,
    of total weight 16. */
module KruskalDemo {
  import opened ExtInts
  import opened Walks
  import opened Graphs
  import opened Kruskal

  /** The example's weighted matrix: gap -1, 0 on the diagonal, eight edges. */
  const DemoMatrix: Matrix := [
    [Fin(0),  Fin(1),  Fin(4),  Fin(-1), Fin(-1), Fin(-1)],
    [Fin(1),  Fin(0),  Fin(-1), Fin(5),  Fin(-1), Fin(-1)],
    [Fin(4),  Fin(-1), Fin(0),  Fin(2),  Fin(6),  Fin(-1)],
    [Fin(-1), Fin(5),  Fin(2),  Fin(0),  Fin(8),  Fin(7)],
    [Fin(-1), Fin(-1), Fin(6),  Fin(8),  Fin(0),  Fin(3)],
    [Fin(-1), Fin(-1), Fin(-1), Fin(7),  Fin(3),  Fin(0)]
  ]

  /** The matrix after the first three edges 0-1, 2-3 and 4-5. */
  const PairsMatrix: Matrix := [
    [Fin(0),  Fin(1),  Fin(-1), Fin(-1), Fin(-1), Fin(-1)],
    [Fin(1),  Fin(0),  Fin(-1), Fin(-1), Fin(-1), Fin(-1)],
    [Fin(-1), Fin(-1), Fin(0),  Fin(2),  Fin(-1), Fin(-1)],
    [Fin(-1), Fin(-1), Fin(2),  Fin(0),  Fin(-1), Fin(-1)],
    [Fin(-1), Fin(-1), Fin(-1), Fin(-1), Fin(0),  Fin(3)],
    [Fin(-1), Fin(-1), Fin(-1), Fin(-1), Fin(3),  Fin(0)]
  ]

  /** The matrix after the next three edges 0-2, 1-3 and 2-4. */
  const LinkedMatrix: Matrix := [
    [Fin(0),  Fin(1),  Fin(4),  Fin(-1), Fin(-1), Fin(-1)],
    [Fin(1),  Fin(0),  Fin(-1), Fin(5),  Fin(-1), Fin(-1)],
    [Fin(4),  Fin(-1), Fin(0),  Fin(2),  Fin(6),  Fin(-1)],
    [Fin(-1), Fin(5),  Fin(2),  Fin(0),  Fin(-1), Fin(-1)],
    [Fin(-1), Fin(-1), Fin(6),  Fin(-1), Fin(0),  Fin(3)],
    [Fin(-1), Fin(-1), Fin(-1), Fin(-1), Fin(3),  Fin(0)]
  ]

  /** The first three `add_edge` calls of the example, on the fresh graph. */
  method DemoPairs() returns (g: Graph)
    ensures fresh(g) && g.Valid() && g.n == 6 && g.kind == Undirected && g.weighted
    ensures g.matrix == PairsMatrix && g.gap == Fin(-1)
  {
    g := new Graph(6, Fin(-1), true, Undirected);
    g.AddEdge(0, 1, Some(1));
    g.AddEdge(2, 3, Some(2));
    g.AddEdge(4, 5, Some(3));
    forall i | 0 <= i < 6 ensures g.matrix[i] == PairsMatrix[i] {
      assert |g.matrix[i]| == 6;
    }
  }

  /** The fourth to sixth `add_edge` calls of the example. */
  method DemoLinks(g: Graph)
    requires g.Valid() && g.n == 6 && g.kind == Undirected && g.weighted && g.matrix == PairsMatrix
    modifies g
    ensures g.Valid() && g.matrix == LinkedMatrix
  {
    g.AddEdge(0, 2, Some(4));
    g.AddEdge(1, 3, Some(5));
    g.AddEdge(2, 4, Some(6));
    forall i | 0 <= i < 6 ensures g.matrix[i] == LinkedMatrix[i] {
      assert |g.matrix[i]| == 6;
    }
  }

  /** The last two `add_edge` calls of the example. */
  method DemoCloses(g: Graph)
    requires g.Valid() && g.n == 6 && g.kind == Undirected && g.weighted && g.matrix == LinkedMatrix
    modifies g
    ensures g.Valid() && g.matrix == DemoMatrix
  {
    g.AddEdge(3, 5, Some(7));
    g.AddEdge(3, 4, Some(8));
    forall i | 0 <= i < 6 ensures g.matrix[i] == DemoMatrix[i] {
      assert |g.matrix[i]| == 6;
    }
  }

  /** The example graph, built with eight `add_edge` calls. */
  method DemoGraph() returns (g: Graph)
    ensures fresh(g) && g.Valid() && g.n == 6 && g.kind == Undirected && g.weighted
    ensures g.matrix == DemoMatrix && g.gap == Fin(-1)
  {
    g := DemoPairs();
    DemoLinks(g);
    DemoCloses(g);
  }

  // ---------------------------------------------------------------------
  // The edge list.

  /** The example's edges, named by weight. */
  const E1: Edge := Weighted(1, 0, 1)
  const E2: Edge := Weighted(2, 2, 3)
  const E3: Edge := Weighted(3, 4, 5)
  const E4: Edge := Weighted(4, 0, 2)
  const E5: Edge := Weighted(5, 1, 3)
  const E6: Edge := Weighted(6, 2, 4)
  const E7: Edge := Weighted(7, 3, 5)
  const E8: Edge := Weighted(8, 3, 4)

  /** `edge_list` of the example: row-major order. */
  const DemoEdges: seq<Edge> := [E1, E4, E5, E2, E6, E8, E7, E3]

  /** The entries the upper-triangle scan reports are those of DemoEdges. */
  lemma {:induction false} DemoReported()
    requires Square(DemoMatrix) && CellsOk(DemoMatrix, Fin(-1))
    ensures forall e :: e in DemoEdges <==> Reported(DemoMatrix, Fin(-1), true, Upper, e)
  {
    var m := DemoMatrix;
    forall e ensures e in DemoEdges <==> Reported(m, Fin(-1), true, Upper, e) {
      if Reported(m, Fin(-1), true, Upper, e) {
        assert e == Weighted(m[e.u][e.v].v, e.u, e.v);
        if e.u == 0 {
          assert e.v == 1 || e.v == 2;
        } else if e.u == 1 {
          assert e.v == 3;
        } else if e.u == 2 {
          assert e.v == 3 || e.v == 4;
        } else if e.u == 3 {
          assert e.v == 4 || e.v == 5;
        } else {
          assert e.u == 4 && e.v == 5;
        }
      }
    }
  }

  /** DemoEdges is in row-major order. */
  lemma {:induction false} DemoEdgesOrdered()
    ensures forall a, b | 0 <= a < b < |DemoEdges| :: Before(DemoEdges[a], DemoEdges[b])
  {
    var es := DemoEdges;
    forall a, b | 0 <= a < b < |es| ensures Before(es[a], es[b]) {
      assert forall i | 0 <= i < 7 :: Before(es[i], es[i + 1]);
    }
  }

  /** Lists with the same entries are empty together. */
  lemma {:induction false} EmptyMatch(a: seq<Edge>, b: seq<Edge>)
    requires forall e :: e in a <==> e in b
    ensures a == [] <==> b == []
  {
    if a != [] {
      assert a[0] in b;
    }
    if b != [] {
      assert b[0] in a;
    }
  }

  /** The head of a list in strict row-major order comes before every
      other entry. */
  lemma {:induction false} FirstBefore(a: seq<Edge>, x: Edge)
    requires forall i, j | 0 <= i < j < |a| :: Before(a[i], a[j])
    requires x in a
    ensures a[0] == x || Before(a[0], x)
  {
    var i :| 0 <= i < |a| && a[i] == x;
    if i != 0 {
      assert Before(a[0], a[i]);
    }
  }

  /** Two lists in strict row-major order with the same entries are equal. */
  lemma {:induction false} BeforeUnique(a: seq<Edge>, b: seq<Edge>)
    requires forall i, j | 0 <= i < j < |a| :: Before(a[i], a[j])
    requires forall i, j | 0 <= i < j < |b| :: Before(b[i], b[j])
    requires forall e :: e in a <==> e in b
    ensures a == b
    decreases |a|
  {
    EmptyMatch(a, b);
    if a != [] {
      assert a[0] in a;
      assert b != [];
      assert a[0] == b[0] by {
        assert b[0] in b;
        FirstBefore(a, b[0]);
        FirstBefore(b, a[0]);
      }
      forall e ensures e in a[1..] <==> e in b[1..] {
        if e in a[1..] {
          var i :| 1 <= i < |a| && a[i] == e;
          assert Before(a[0], a[i]);
          assert e in b;
        }
        if e in b[1..] {
          var j :| 1 <= j < |b| && b[j] == e;
          assert Before(b[0], b[j]);
          assert e in a;
        }
      }
      BeforeUnique(a[1..], b[1..]);
      assert a == [a[0]] + a[1..] && b == [b[0]] + b[1..];
    }
  }

  // ---------------------------------------------------------------------
  // The stable sort.

  /** The head of a list sorted by weight is no heavier than any entry. */
  lemma {:induction false} HeadLightest(s: seq<Edge>, e: Edge)
    requires AllWEdges(s) && ByWeight(s) && e in multiset(s)
    ensures s[0].w <= e.w
  {
    var i :| 0 <= i < |s| && s[i] == e;
    if i > 0 {
      assert s[0].w <= s[i].w;
    }
  }

  /** Without repeated weights, the head is the only entry of its weight. */
  lemma {:induction false} OnlyOfWeight(a: seq<Edge>, x: Edge)
    requires AllWEdges(a) && IsWEdge(x)
    requires forall i, j | 0 <= i < j < |a| :: a[i].w != a[j].w
    requires x in multiset(a) && x.w == a[0].w
    ensures x == a[0]
  {
    var i :| 0 <= i < |a| && a[i] == x;
  }

  /** Two lists sorted by weight with the same entries are equal when no two
      entries of the first share a weight. */
  lemma {:induction false} SortedUnique(a: seq<Edge>, b: seq<Edge>)
    requires AllWEdges(a) && AllWEdges(b) && ByWeight(a) && ByWeight(b)
    requires multiset(a) == multiset(b)
    requires forall i, j | 0 <= i < j < |a| :: a[i].w != a[j].w
    ensures a == b
    decreases |a|
  {
    assert |a| == |multiset(a)| == |multiset(b)| == |b|;
    if a != [] {
      HeadsMatch(a, b);
      TailMultiset(a);
      TailMultiset(b);
      SortedUnique(a[1..], b[1..]);
      assert a == [a[0]] + a[1..] && b == [b[0]] + b[1..];
    }
  }

  /** The heads of two such lists agree. */
  lemma {:induction false} HeadsMatch(a: seq<Edge>, b: seq<Edge>)
    requires AllWEdges(a) && AllWEdges(b) && ByWeight(a) && ByWeight(b)
    requires multiset(a) == multiset(b) && a != [] && b != []
    requires forall i, j | 0 <= i < j < |a| :: a[i].w != a[j].w
    ensures a[0] == b[0]
  {
    assert a[0] in multiset(b) && b[0] in multiset(a);
    HeadLightest(a, b[0]);
    HeadLightest(b, a[0]);
    OnlyOfWeight(a, b[0]);
  }

  /** Dropping the head drops one copy of it. */
  lemma {:induction false} TailMultiset(s: seq<Edge>)
    requires s != []
    ensures multiset(s[1..]) == multiset(s) - multiset{s[0]}
  {
    assert s == [s[0]] + s[1..];
  }


  /** The sort returns the list that is sorted by weight, holds the same
      entries and has no repeated weight. */
  lemma {:induction false} SortedIs(es: seq<Edge>, r: seq<Edge>)
    requires AllWEdges(es) && AllWEdges(r) && ByWeight(r) && multiset(es) == multiset(r)
    requires forall i, j | 0 <= i < j < |r| :: r[i].w != r[j].w
    ensures SortByWeight(es) == r
  {
    SortByWeightSpec(es);
    SortedUnique(r, SortByWeight(es));
  }

  /** The edges of the example sorted by weight. */
  const DemoSorted: seq<Edge> := [E1, E2, E3, E4, E5, E6, E7, E8]

  /** Weights 1, 2, 3, ... in order are sorted and never repeat. */
  lemma {:induction false} Ascending(r: seq<Edge>)
    requires AllWEdges(r) && forall i | 0 <= i < |r| :: r[i].w == i + 1
    ensures ByWeight(r) && forall i, j | 0 <= i < j < |r| :: r[i].w != r[j].w
  {
  }

  /** DemoSorted carries weights 1 to 8. */
  lemma {:induction false} DemoWeights()
    ensures AllWEdges(DemoSorted) && forall i | 0 <= i < |DemoSorted| :: DemoSorted[i].w == i + 1
  {
  }

  /** No edge occurs twice. */
  predicate Distinct(s: seq<Edge>) {
    forall i, j | 0 <= i < j < |s| :: s[i] != s[j]
  }

  /** Dropping one entry of a list without repeats. */
  lemma {:induction false} DropOne(b: seq<Edge>, i: nat)
    requires Distinct(b) && i < |b|
    ensures Distinct(b[..i] + b[i + 1..])
    ensures forall e :: e in b[..i] + b[i + 1..] <==> e in b && e != b[i]
    ensures multiset(b) == multiset(b[..i] + b[i + 1..]) + multiset{b[i]}
  {
    var c := b[..i] + b[i + 1..];
    assert forall k | 0 <= k < |c| :: c[k] == if k < i then b[k] else b[k + 1];
    forall e ensures e in c <==> e in b && e != b[i] {
      if e in b && e != b[i] {
        var k :| 0 <= k < |b| && b[k] == e;
        assert k < i ==> c[k] == e;
        assert k > i ==> c[k - 1] == e;
      }
    }
    assert b == b[..i] + [b[i]] + b[i + 1..];
  }

  /** Two lists without repeats and with the same entries hold the same
      multiset. */
  lemma {:induction false} SameEntries(a: seq<Edge>, b: seq<Edge>)
    requires Distinct(a) && Distinct(b)
    requires forall e :: e in a <==> e in b
    ensures multiset(a) == multiset(b)
    decreases |a|
  {
    EmptyMatch(a, b);
    if a != [] {
      assert a[0] in a;
      var i :| 0 <= i < |b| && b[i] == a[0];
      DropOne(b, i);
      var t := a[1..];
      assert Distinct(t);
      assert a == [a[0]] + t;
      forall e ensures e in t <==> e in b[..i] + b[i + 1..] {
        if e in t {
          var k :| 0 <= k < |t| && t[k] == e;
          assert a[k + 1] == e && a[0] != a[k + 1];
          assert e in a && e in b && e != b[i];
        }
        if e in b[..i] + b[i + 1..] {
          assert e in a && e != a[0];
          var k :| 0 <= k < |a| && a[k] == e;
          assert t[k - 1] == e;
        }
      }
      SameEntries(t, b[..i] + b[i + 1..]);
    }
  }

  /** Neither list of the example repeats an edge. */
  lemma {:induction false} DemoDistinct()
    ensures AllWEdges(DemoEdges) && Distinct(DemoEdges) && Distinct(DemoSorted)
  {
  }

  /** The two lists of the example hold the same edges. */
  lemma {:induction false} DemoMembers()
    ensures forall e :: e in DemoEdges <==> e in DemoSorted
  {
    forall e ensures e in DemoEdges <==> e in DemoSorted {
      assert e in DemoEdges <==> e == E1 || e == E4 || e == E5 || e == E2 || e == E6 || e == E8 || e == E7 || e == E3;
    }
  }

  /** DemoEdges and DemoSorted hold the same entries. */
  lemma {:induction false} DemoPerm()
    ensures multiset(DemoEdges) == multiset(DemoSorted)
  {
    DemoDistinct();
    DemoMembers();
    SameEntries(DemoEdges, DemoSorted);
  }

  /** `sorted(edge_list, key=weight)` of the example. */
  lemma {:induction false} DemoSortedAll()
    ensures AllWEdges(DemoEdges)
    ensures SortByWeight(DemoEdges) == DemoSorted
  {
    DemoWeights();
    Ascending(DemoSorted);
    DemoPerm();
    DemoDistinct();
    SortedIs(DemoEdges, DemoSorted);
  }

  // ---------------------------------------------------------------------
  // The two passes, one edge at a time.

  /** Taking one more entry of es extends the first pass by one `Join`. */
  lemma {:induction false} FirstPassTake(es: seq<Edge>, k: nat)
    requires AllWEdges(es) && k < |es|
    ensures AllWEdges(es[..k]) && AllWEdges(es[..k + 1]) && IsWEdge(es[k])
    ensures FirstPass(es[..k + 1]) == Join(FirstPass(es[..k]), es[k])
  {
    assert es[..k + 1][..k] == es[..k];
    assert forall j | 0 <= j < k + 1 :: es[..k + 1][j] == es[j];
  }

  /** An edge between two new vertices opens the list [u, v, u]. */
  lemma {:induction false} JoinNew(f: Forest, e: Edge)
    requires Wf(f) && IsWEdge(e) && e.u !in f.S && e.v !in f.S
    ensures Join(f, e) == Forest(f.S + {e.u, e.v}, f.ids[e.u := |f.store|][e.v := |f.store|],
                                 f.store + [[e.u, e.v, e.u]], f.T + [e])
  {
    var n := |f.store|;
    var f1 := f.(ids := f.ids[e.u := n][e.v := n], store := f.store + [[e.u, e.v]]);
    assert f1.ids[e.v] == n;
    assert f1.store[n] + [e.u] == [e.u, e.v, e.u];
    assert Append(f1.store, n, e.u) == f.store + [[e.u, e.v, e.u]];
    assert f1.ids[e.u := n] == f.ids[e.u := n][e.v := n];
  }

  /** The state of the first pass after the first k sorted edges: the first
      three edges each open a list, the others meet only seen vertices. */
  function FirstState(k: nat): Forest {
    if k == 0 then Forest({}, map[], [], [])
    else if k == 1 then Forest({0, 1}, map[0 := 0, 1 := 0], [[0, 1, 0]], [E1])
    else if k == 2 then
      Forest({0, 1, 2, 3}, map[0 := 0, 1 := 0, 2 := 1, 3 := 1], [[0, 1, 0], [2, 3, 2]], [E1, E2])
    else Pieces()
  }

  /** After the first pass: three pieces, one list each. */
  function Pieces(): Forest {
    Forest({0, 1, 2, 3, 4, 5}, map[0 := 0, 1 := 0, 2 := 1, 3 := 1, 4 := 2, 5 := 2],
           [[0, 1, 0], [2, 3, 2], [4, 5, 4]], [E1, E2, E3])
  }

  /** Edge 0-1 opens the first list. */
  lemma {:induction false} FirstOne()
    ensures Wf(FirstState(0)) && Join(FirstState(0), E1) == FirstState(1)
  {
    JoinNew(FirstState(0), E1);
  }

  /** Edge 2-3 opens the second list. */
  lemma {:induction false} FirstTwo()
    ensures Wf(FirstState(1)) && Join(FirstState(1), E2) == FirstState(2)
  {
    var f := FirstState(1);
    JoinNew(f, E2);
    assert f.ids[2 := 1][3 := 1] == FirstState(2).ids;
  }

  /** Edge 4-5 opens the third list. */
  lemma {:induction false} FirstThree()
    ensures Wf(FirstState(2)) && Join(FirstState(2), E3) == FirstState(3)
  {
    var f := FirstState(2);
    JoinNew(f, E3);
    assert f.ids[4 := 2][5 := 2] == Pieces().ids;
  }

  /** One edge of the first pass on the example. */
  lemma {:induction false} DemoFirstStep(k: nat)
    requires k < |DemoSorted|
    ensures Wf(FirstState(k)) && IsWEdge(DemoSorted[k])
    ensures Join(FirstState(k), DemoSorted[k]) == FirstState(k + 1)
  {
    if k == 0 {
      FirstOne();
    } else if k == 1 {
      FirstTwo();
    } else if k == 2 {
      FirstThree();
    } else {
      var e := DemoSorted[k];
      assert e.u in Pieces().S && e.v in Pieces().S;
    }
  }

  /** The first k sorted edges take the first pass to FirstState(k). */
  lemma {:induction false} DemoFirstStates(k: nat)
    requires k <= |DemoSorted|
    ensures AllWEdges(DemoSorted[..k]) && FirstPass(DemoSorted[..k]) == FirstState(k)
  {
    DemoWeights();
    if k == 0 {
      assert DemoSorted[..0] == [];
    } else {
      DemoFirstStates(k - 1);
      FirstPassTake(DemoSorted, k - 1);
      DemoFirstStep(k - 1);
    }
  }

  /** The first pass of the example ends with the three pieces. */
  lemma {:induction false} DemoFirstPass()
    ensures AllWEdges(DemoSorted) && FirstPass(DemoSorted) == Pieces()
  {
    DemoFirstStates(|DemoSorted|);
    assert DemoSorted[..|DemoSorted|] == DemoSorted;
  }

  /** Every end of the example's edges is a vertex of the pieces. */
  lemma {:induction false} DemoCovered()
    ensures Wf(Pieces()) && Covered(Pieces(), DemoSorted)
  {
  }

  /** Taking one more entry of es extends the second pass by one `Stitch`. */
  lemma {:induction false} SecondPassTake(f: Forest, es: seq<Edge>, k: nat)
    requires Wf(f) && Covered(f, es) && k < |es|
    ensures Covered(f, es[..k]) && Covered(f, es[..k + 1])
    ensures SecondPass(f, es[..k]).S == f.S && es[k].u in f.S && es[k].v in f.S
    ensures SecondPass(f, es[..k + 1]) == Stitch(SecondPass(f, es[..k]), es[k])
  {
    assert es[..k + 1][..k] == es[..k];
    assert forall j | 0 <= j < k + 1 :: es[..k + 1][j] == es[j];
  }

  /** Edge 0-2 joins the pieces of 0 and 2: vertex 0 is rebound. */
  function Joined(): Forest {
    Forest({0, 1, 2, 3, 4, 5}, map[0 := 1, 1 := 0, 2 := 1, 3 := 1, 4 := 2, 5 := 2],
           [[0, 1, 0], [2, 3, 2, 0, 1, 0], [4, 5, 4]], [E1, E2, E3, E4])
  }

  /** Edge 2-4 joins the last piece: vertex 2 is rebound. */
  function Stitched(): Forest {
    Forest({0, 1, 2, 3, 4, 5}, map[0 := 1, 1 := 0, 2 := 2, 3 := 1, 4 := 2, 5 := 2],
           [[0, 1, 0], [2, 3, 2, 0, 1, 0], [4, 5, 4, 2, 3, 2, 0, 1, 0]], [E1, E2, E3, E4, E6])
  }

  /** The state of the second pass after the first k sorted edges. */
  function SecondState(k: nat): Forest {
    if k <= 3 then Pieces() else if k <= 5 then Joined() else Stitched()
  }

  /** Edge 0-2: 0 is not on the list of 2, so the edge is taken. */
  lemma {:induction false} SecondFour()
    ensures Wf(Pieces()) && 0 in Pieces().S && 2 in Pieces().S
    ensures Stitch(Pieces(), E4) == Joined()
  {
    var f := Pieces();
    assert 0 !in f.store[f.ids[2]];
    assert f.store[1] + f.store[0] == [2, 3, 2, 0, 1, 0];
    assert f.store[1 := [2, 3, 2, 0, 1, 0]] == Joined().store;
    assert f.ids[0 := 1] == Joined().ids;
  }

  /** Edge 2-4: 2 is not on the list of 4, so the edge is taken. */
  lemma {:induction false} SecondSix()
    ensures Wf(Joined()) && 2 in Joined().S && 4 in Joined().S
    ensures Stitch(Joined(), E6) == Stitched()
  {
    var f := Joined();
    assert 2 !in f.store[f.ids[4]];
    assert f.store[2] + f.store[1] == [4, 5, 4, 2, 3, 2, 0, 1, 0];
    assert f.store[2 := [4, 5, 4, 2, 3, 2, 0, 1, 0]] == Stitched().store;
    assert f.ids[2 := 2] == Stitched().ids;
  }

  /** Every other edge has u on the list of v and is skipped. */
  lemma {:induction false} SecondSkip(k: nat)
    requires k < |DemoSorted| && k != 3 && k != 5
    ensures Wf(SecondState(k)) && DemoSorted[k].u in SecondState(k).S && DemoSorted[k].v in SecondState(k).S
    ensures Stitch(SecondState(k), DemoSorted[k]) == SecondState(k + 1)
  {
    var f, e := SecondState(k), DemoSorted[k];
    assert e.u in f.store[f.ids[e.v]];
  }

  /** One edge of the second pass on the example. */
  lemma {:induction false} DemoSecondStep(k: nat)
    requires k < |DemoSorted|
    ensures Wf(SecondState(k)) && DemoSorted[k].u in SecondState(k).S && DemoSorted[k].v in SecondState(k).S
    ensures Stitch(SecondState(k), DemoSorted[k]) == SecondState(k + 1)
  {
    if k == 3 {
      SecondFour();
    } else if k == 5 {
      SecondSix();
    } else {
      SecondSkip(k);
    }
  }

  /** The first k sorted edges take the second pass to SecondState(k). */
  lemma {:induction false} DemoSecondStates(k: nat)
    requires k <= |DemoSorted|
    ensures Wf(Pieces()) && Covered(Pieces(), DemoSorted[..k])
    ensures SecondPass(Pieces(), DemoSorted[..k]) == SecondState(k)
  {
    DemoCovered();
    if k == 0 {
      assert DemoSorted[..0] == [];
    } else {
      DemoSecondStates(k - 1);
      SecondPassTake(Pieces(), DemoSorted, k - 1);
      DemoSecondStep(k - 1);
    }
  }

  /** The second pass of the example ends with the tree of five edges. */
  lemma {:induction false} DemoSecondPass()
    ensures Wf(Pieces()) && Covered(Pieces(), DemoSorted)
    ensures SecondPass(Pieces(), DemoSorted).T == [E1, E2, E3, E4, E6]
  {
    DemoSecondStates(|DemoSorted|);
    assert DemoSorted[..|DemoSorted|] == DemoSorted;
  }

  /** The tree as written on the example: five edges. */
  lemma {:induction false} DemoSpanningTree()
    ensures AllWEdges(DemoEdges)
    ensures SpanningTree(DemoEdges) == [E1, E2, E3, E4, E6]
  {
    DemoSortedAll();
    DemoFirstPass();
    DemoSecondPass();
  }

  /** The total weight of a list of weighted edges. */
  function Total(T: seq<Edge>): int
    requires AllWEdges(T)
  {
    if T == [] then 0 else Total(T[..|T| - 1]) + T[|T| - 1].w
  }

  /** The example's tree weighs 16. */
  lemma {:induction false} DemoTotal()
    ensures AllWEdges([E1, E2, E3, E4, E6]) && Total([E1, E2, E3, E4, E6]) == 16
  {
    var t := [E1, E2, E3, E4, E6];
    assert t[..4] == [E1, E2, E3, E4] && t[..4][..3] == [E1, E2, E3];
    assert [E1, E2, E3][..2] == [E1, E2] && [E1, E2][..1] == [E1] && [E1][..0] == [];
    assert Total([E1]) == 1;
    assert Total([E1, E2]) == 3;
    assert Total([E1, E2, E3]) == 6;
    assert Total([E1, E2, E3, E4]) == 10;
  }

  /** The edge list of the example graph is DemoEdges. */
  lemma {:induction false} DemoEdgeList(edges: seq<Edge>)
    requires Square(DemoMatrix) && CellsOk(DemoMatrix, Fin(-1))
    requires forall e :: e in edges <==> Reported(DemoMatrix, Fin(-1), true, Upper, e)
    requires forall a, b | 0 <= a < b < |edges| :: Before(edges[a], edges[b])
    ensures edges == DemoEdges
  {
    DemoReported();
    DemoEdgesOrdered();
    BeforeUnique(edges, DemoEdges);
  }

  /** `Kruskal(G).tree` on the example: the edges of weight 1, 2, 3, 4 and
      6, of total weight 16. */
  method DemoTree() returns (tree: seq<Edge>)
    ensures tree == [E1, E2, E3, E4, E6] && AllWEdges(tree) && Total(tree) == 16
  {
    var g := DemoGraph();
    var krs := new Kruskal(g);
    DemoEdgeList(krs.edges);
    DemoSpanningTree();
    tree := krs.tree;
    DemoTotal();
  }
}
