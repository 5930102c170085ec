/** The graph substrate: a dense n x n cost matrix whose cells hold either a
    weight or the configurable "no edge" value `gap`; undirected and directed
    graphs share it, and a flow network keeps a triple per cell. */
module Graphs {
  import opened ExtInts
  import opened Walks

  datatype Kind = Undirected | Directed

  /** An entry of an edge or arrow list: `(w, u, v)` for a weighted graph,
      `(u, v)` otherwise. */
  datatype Edge = Weighted(w: int, u: nat, v: nat) | Plain(u: nat, v: nat)

  /** Which cells a list scan reports: `u < v` for the edge list of an
      undirected graph, `u != v` for the arrow list of a directed one. */
  datatype Scan = Upper | OffDiagonal

  predicate Keeps(s: Scan, u: nat, v: nat) {
    if s == Upper then u < v else u != v
  }

  /** Row-major order on the endpoints of list entries. */
  predicate Before(a: Edge, b: Edge) {
    a.u < b.u || (a.u == b.u && a.v < b.v)
  }

  /** The value `add_edge`/`add_arrow` store: the weight when the graph is
      weighted and the weight is truthy (given and non-zero), else 1. */
  function StoredWeight(weighted: bool, w: Option<int>): (c: ExtInt)
    ensures c.Fin? && c.v != 0
    ensures c == Fin(1) || (weighted && w == Some(c.v))
  {
    if weighted && w.Some? && w.value != 0 then Fin(w.value) else Fin(1)
  }

  datatype Option<T> = None | Some(value: T)

  /** Every cell is a finite weight or the gap value. */
  ghost predicate CellsOk(m: Matrix, gap: ExtInt) {
    forall i, j | 0 <= i < |m| && 0 <= j < |m[i]| :: m[i][j].Fin? || m[i][j] == gap
  }

  ghost predicate ZeroDiagonal(m: Matrix) {
    forall i | 0 <= i < |m| && i < |m[i]| :: m[i][i] == Fin(0)
  }

  ghost predicate Symmetric(m: Matrix)
    requires Square(m)
  {
    forall i, j | 0 <= i < |m| && 0 <= j < |m| :: m[i][j] == m[j][i]
  }

  /** The neighbours of i among the columns [0, k), in increasing order. */
  function NeighborsUpTo(m: Matrix, gap: ExtInt, i: nat, k: nat): seq<nat>
    requires Square(m) && i < |m| && k <= |m|
  {
    if k == 0 then []
    else NeighborsUpTo(m, gap, i, k - 1)
         + (if k - 1 != i && m[i][k - 1] != gap then [k - 1] else [])
  }

  function Neighbors(m: Matrix, gap: ExtInt, i: nat): seq<nat>
    requires Square(m) && i < |m|
  {
    NeighborsUpTo(m, gap, i, |m|)
  }

  lemma {:induction false} NeighborsUpToSpec(m: Matrix, gap: ExtInt, i: nat, k: nat)
    requires Square(m) && i < |m| && k <= |m|
    ensures forall j: nat :: j in NeighborsUpTo(m, gap, i, k) <==> j < k && j != i && m[i][j] != gap
    ensures forall a, b | 0 <= a < b < |NeighborsUpTo(m, gap, i, k)| ::
              NeighborsUpTo(m, gap, i, k)[a] < NeighborsUpTo(m, gap, i, k)[b]
  {
    if k > 0 {
      NeighborsUpToSpec(m, gap, i, k - 1);
      var p := NeighborsUpTo(m, gap, i, k - 1);
      assert forall a | 0 <= a < |p| :: p[a] in p;
    }
  }

  /** j is listed for i exactly when i != j and the cell is not the gap; the
      list is strictly increasing. */
  lemma {:induction false} NeighborsSpec(m: Matrix, gap: ExtInt, i: nat)
    requires Square(m) && i < |m|
    ensures forall j: nat :: j in Neighbors(m, gap, i) <==> j < |m| && j != i && m[i][j] != gap
    ensures forall a, b | 0 <= a < b < |Neighbors(m, gap, i)| ::
              Neighbors(m, gap, i)[a] < Neighbors(m, gap, i)[b]
  {
    NeighborsUpToSpec(m, gap, i, |m|);
  }

  /** The list entry a scan emits for cell (u, v). */
  function EntryFor(m: Matrix, weighted: bool, u: nat, v: nat): Edge
    requires Square(m) && u < |m| && v < |m| && m[u][v].Fin?
  {
    if weighted then Weighted(m[u][v].v, u, v) else Plain(u, v)
  }

  /** What a scan emits in row u for the columns [0, k). */
  function RowEntries(m: Matrix, gap: ExtInt, weighted: bool, s: Scan, u: nat, k: nat): seq<Edge>
    requires Square(m) && CellsOk(m, gap) && u < |m| && k <= |m|
  {
    if k == 0 then []
    else RowEntries(m, gap, weighted, s, u, k - 1)
         + (if Keeps(s, u, k - 1) && m[u][k - 1] != gap then [EntryFor(m, weighted, u, k - 1)] else [])
  }

  /** What a scan emits for the rows [0, u). */
  function ScanEntries(m: Matrix, gap: ExtInt, weighted: bool, s: Scan, u: nat): seq<Edge>
    requires Square(m) && CellsOk(m, gap) && u <= |m|
  {
    if u == 0 then []
    else ScanEntries(m, gap, weighted, s, u - 1) + RowEntries(m, gap, weighted, s, u - 1, |m|)
  }

  /** The entry a scan reports for cell (u, v), if any. */
  ghost predicate Reported(m: Matrix, gap: ExtInt, weighted: bool, s: Scan, e: Edge)
    requires Square(m) && CellsOk(m, gap)
  {
    e.u < |m| && e.v < |m| && Keeps(s, e.u, e.v) && m[e.u][e.v] != gap
    && e == EntryFor(m, weighted, e.u, e.v)
  }

  lemma {:induction false} RowEntriesSpec(m: Matrix, gap: ExtInt, weighted: bool, s: Scan, u: nat, k: nat)
    requires Square(m) && CellsOk(m, gap) && u < |m| && k <= |m|
    ensures forall e :: e in RowEntries(m, gap, weighted, s, u, k) <==>
              Reported(m, gap, weighted, s, e) && e.u == u && e.v < k
    ensures forall a, b | 0 <= a < b < |RowEntries(m, gap, weighted, s, u, k)| ::
              Before(RowEntries(m, gap, weighted, s, u, k)[a], RowEntries(m, gap, weighted, s, u, k)[b])
  {
    if k > 0 {
      RowEntriesSpec(m, gap, weighted, s, u, k - 1);
    }
  }

  /** A scan of the first u rows reports exactly the kept non-gap cells of
      those rows, each once, in row-major order. */
  lemma {:induction false} ScanEntriesSpec(m: Matrix, gap: ExtInt, weighted: bool, s: Scan, u: nat)
    requires Square(m) && CellsOk(m, gap) && u <= |m|
    ensures forall e :: e in ScanEntries(m, gap, weighted, s, u) <==>
              Reported(m, gap, weighted, s, e) && e.u < u
    ensures forall a, b | 0 <= a < b < |ScanEntries(m, gap, weighted, s, u)| ::
              Before(ScanEntries(m, gap, weighted, s, u)[a], ScanEntries(m, gap, weighted, s, u)[b])
  {
    if u > 0 {
      ScanEntriesSpec(m, gap, weighted, s, u - 1);
      RowEntriesSpec(m, gap, weighted, s, u - 1, |m|);
      var p := ScanEntries(m, gap, weighted, s, u - 1);
      var r := RowEntries(m, gap, weighted, s, u - 1, |m|);
      forall a, b | 0 <= a < b < |p + r|
        ensures Before((p + r)[a], (p + r)[b])
      {
        if b >= |p| && a < |p| {
          assert p[a] in p && r[b - |p|] in r;
        }
      }
    }
  }

  /** The adjacency, edge and arrow views of an undirected or directed graph. */
  class Graph {
    const n: nat
    const gap: ExtInt
    const weighted: bool
    const kind: Kind
    var matrix: Matrix

    ghost predicate Valid()
      reads this
    {
      |matrix| == n && Square(matrix) && CellsOk(matrix, gap)
      && (kind == Undirected ==> Symmetric(matrix))
    }

    /** Vertex 0..n-1; 0 on the diagonal and the gap everywhere else. */
    constructor (n: nat, gap: ExtInt, weighted: bool, kind: Kind)
      ensures Valid()
      ensures this.n == n && this.gap == gap && this.weighted == weighted && this.kind == kind
      ensures forall i, j | 0 <= i < n && 0 <= j < n ::
                matrix[i][j] == if i == j then Fin(0) else gap
      ensures ZeroDiagonal(matrix)
    {
      this.n, this.gap, this.weighted, this.kind := n, gap, weighted, kind;
      matrix := seq(n, i => seq(n, j => if i == j then Fin(0) else gap));
    }

    function Vertices(): (vs: seq<nat>)
      reads this
      ensures |vs| == n
      ensures forall i | 0 <= i < n :: vs[i] == i
    {
      seq(n, i => i)
    }

    /** `add_edge`: writes the stored weight into both [u][v] and [v][u]. */
    method AddEdge(u: nat, v: nat, w: Option<int>)
      requires Valid() && kind == Undirected && u < n && v < n
      modifies this
      ensures Valid()
      ensures forall i, j | 0 <= i < n && 0 <= j < n ::
                matrix[i][j] == if (i == u && j == v) || (i == v && j == u)
                                then StoredWeight(weighted, w) else old(matrix)[i][j]
      ensures old(ZeroDiagonal(matrix)) && u != v ==> ZeroDiagonal(matrix)
    {
      var c := StoredWeight(weighted, w);
      matrix := matrix[u := matrix[u][v := c]];
      matrix := matrix[v := matrix[v][u := c]];
    }

    /** `add_arrow`: writes the stored weight into [u][v] only. */
    method AddArrow(u: nat, v: nat, w: Option<int>)
      requires Valid() && kind == Directed && u < n && v < n
      modifies this
      ensures Valid()
      ensures forall i, j | 0 <= i < n && 0 <= j < n ::
                matrix[i][j] == if i == u && j == v then StoredWeight(weighted, w) else old(matrix)[i][j]
      ensures old(ZeroDiagonal(matrix)) && u != v ==> ZeroDiagonal(matrix)
    {
      matrix := matrix[u := matrix[u][v := StoredWeight(weighted, w)]];
    }

    /** `adjacency_list`: i is a key exactly when it has a neighbour, and
        then maps to its neighbours in increasing order. */
    method AdjacencyList() returns (d: map<nat, seq<nat>>)
      requires Valid()
      ensures forall i: nat :: i in d <==> i < n && Neighbors(matrix, gap, i) != []
      ensures forall i | i in d :: d[i] == Neighbors(matrix, gap, i)
    {
      d := map[];
      var i := 0;
      while i < n
        invariant 0 <= i <= n
        invariant forall x: nat :: x in d <==> x < i && Neighbors(matrix, gap, x) != []
        invariant forall x | x in d :: d[x] == Neighbors(matrix, gap, x)
      {
        var j := 0;
        while j < n
          invariant 0 <= j <= n
          invariant forall x: nat :: x in d <==> ((x < i && Neighbors(matrix, gap, x) != [])
                                                  || (x == i && NeighborsUpTo(matrix, gap, i, j) != []))
          invariant forall x | x in d && x < i :: d[x] == Neighbors(matrix, gap, x)
          invariant i in d ==> d[i] == NeighborsUpTo(matrix, gap, i, j)
        {
          if i != j && matrix[i][j] != gap {
            if i in d {
              d := d[i := d[i] + [j]];
            } else {
              d := d[i := [j]];
            }
          }
          j := j + 1;
        }
        i := i + 1;
      }
    }

    /** The shared nested scan of `edge_list` and `arrow_list`. */
    method ScanList(s: Scan) returns (es: seq<Edge>)
      requires Valid()
      ensures es == ScanEntries(matrix, gap, weighted, s, n)
    {
      es := [];
      var u := 0;
      while u < n
        invariant 0 <= u <= n
        invariant es == ScanEntries(matrix, gap, weighted, s, u)
      {
        var v := 0;
        while v < n
          invariant 0 <= v <= n
          invariant es == ScanEntries(matrix, gap, weighted, s, u) + RowEntries(matrix, gap, weighted, s, u, v)
        {
          var c := matrix[u][v];
          if Keeps(s, u, v) && c != gap {
            es := es + [EntryFor(matrix, weighted, u, v)];
          }
          v := v + 1;
        }
        u := u + 1;
      }
    }

    /** `edge_list`: every non-gap pair u < v once, in row-major order. */
    method EdgeList() returns (es: seq<Edge>)
      requires Valid() && kind == Undirected
      ensures forall e :: e in es <==> Reported(matrix, gap, weighted, Upper, e)
      ensures forall a, b | 0 <= a < b < |es| :: Before(es[a], es[b])
    {
      es := ScanList(Upper);
      ScanEntriesSpec(matrix, gap, weighted, Upper, n);
    }

    /** `arrow_list`: every non-gap pair u != v once, in row-major order. */
    method ArrowList() returns (es: seq<Edge>)
      requires Valid() && kind == Directed
      ensures forall e :: e in es <==> Reported(matrix, gap, weighted, OffDiagonal, e)
      ensures forall a, b | 0 <= a < b < |es| :: Before(es[a], es[b])
    {
      es := ScanList(OffDiagonal);
      ScanEntriesSpec(matrix, gap, weighted, OffDiagonal, n);
    }
  }

  /** For an undirected graph the adjacency relation is symmetric. */
  lemma {:induction false} UndirectedAdjacencySymmetric(m: Matrix, gap: ExtInt, u: nat, v: nat)
    requires Square(m) && Symmetric(m) && u < |m| && v < |m|
    ensures v in Neighbors(m, gap, u) <==> u in Neighbors(m, gap, v)
  {
    NeighborsSpec(m, gap, u);
    NeighborsSpec(m, gap, v);
  }

  /** A residual triple `[forward, backward, sign]` of a flow network. */
  datatype Flow = Flow(fwd: int, bwd: int, sign: int)

  /** Cells [u][v] and [v][u] agree on both residuals. */
  ghost predicate Mirrored(m: seq<seq<Flow>>) {
    forall u, v | 0 <= u < |m| && 0 <= v < |m| && |m[u]| == |m| && |m[v]| == |m| ::
      m[u][v].fwd == m[v][u].fwd && m[u][v].bwd == m[v][u].bwd
  }

  ghost predicate FlowSquare(m: seq<seq<Flow>>) {
    forall i | 0 <= i < |m| :: |m[i]| == |m|
  }

  class FGraph {
    const n: nat
    var matrix: seq<seq<Flow>>

    ghost predicate Valid()
      reads this
    {
      |matrix| == n && FlowSquare(matrix) && Mirrored(matrix)
    }

    /** Every cell starts as `[0, 0, 1]`. */
    constructor (n: nat)
      ensures Valid() && this.n == n
      ensures forall i, j | 0 <= i < n && 0 <= j < n :: matrix[i][j] == Flow(0, 0, 1)
    {
      this.n := n;
      matrix := seq(n, i => seq(n, j => Flow(0, 0, 1)));
    }

    function Vertices(): (vs: seq<nat>)
      reads this
      ensures |vs| == n
      ensures forall i | 0 <= i < n :: vs[i] == i
    {
      seq(n, i => i)
    }

    /** `add_arrow`: installs w at [u][v] and its sign-flipped copy at [v][u]. */
    method AddArrow(u: nat, v: nat, w: Flow)
      requires Valid() && u < n && v < n
      modifies this
      ensures Valid()
      ensures forall i, j | 0 <= i < n && 0 <= j < n ::
                matrix[i][j] == if i == v && j == u then Flow(w.fwd, w.bwd, -w.sign)
                                else if i == u && j == v then w
                                else old(matrix)[i][j]
    {
      matrix := matrix[u := matrix[u][v := w]];
      matrix := matrix[v := matrix[v][u := Flow(w.fwd, w.bwd, -w.sign)]];
    }
  }
}
