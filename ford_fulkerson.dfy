/** Ford-Fulkerson on the residual triples of a flow network: search from
    the source along the largest residual first, backtracking out of dead
    ends, push the bottleneck of the path found, and repeat until the
    search is stuck at the source. */
module FordFulkerson {
  import opened ExtInts
  import opened Graphs
  import C = Counting

  // ---------------------------------------------------------------------
  // Residuals and the state of a network.

  /** The residual of a cell: its forward value when the sign is 1, its
      backward value otherwise. */
  function Res(c: Flow): int {
    if c.sign == 1 then c.fwd else c.bwd
  }

  /** Every sign is 1 or -1: the two values `add_arrow` writes when the
      caller passes 1. */
  ghost predicate Signed(m: seq<seq<Flow>>) {
    forall i, j | 0 <= i < |m| && 0 <= j < |m[i]| :: m[i][j].sign == 1 || m[i][j].sign == -1
  }

  /** The n-by-n residual matrices the algorithm works on. */
  ghost predicate Network(m: seq<seq<Flow>>, n: nat) {
    |m| == n && FlowSquare(m) && Signed(m) && Mirrored(m)
  }

  /** Cell by cell, m2 has the signs and the sums fwd + bwd of m1. */
  ghost predicate SameCapacity(m1: seq<seq<Flow>>, m2: seq<seq<Flow>>)
    requires FlowSquare(m1)
  {
    |m2| == |m1| && FlowSquare(m2)
    && forall i, j | 0 <= i < |m1| && 0 <= j < |m1| ::
         m2[i][j].sign == m1[i][j].sign && m2[i][j].fwd + m2[i][j].bwd == m1[i][j].fwd + m1[i][j].bwd
  }

  function Pos(x: int): nat {
    if x > 0 then x else 0
  }

  /** The positive residual leaving through the first k cells of a row. */
  function RowOut(r: seq<Flow>, k: nat): (s: nat)
    requires k <= |r|
    ensures k > 0 && Res(r[k - 1]) > 0 ==> s >= Res(r[k - 1])
  {
    if k == 0 then 0 else RowOut(r, k - 1) + Pos(Res(r[k - 1]))
  }

  /** Lowering one cell's positive residual by f lowers the row's total by
      exactly f. */
  lemma {:induction false} RowOutDrop(r1: seq<Flow>, r2: seq<Flow>, c: nat, f: int, k: nat)
    requires |r1| == |r2| && c < |r1| && k <= |r1|
    requires forall j | 0 <= j < |r1| && j != c :: r2[j] == r1[j]
    requires 0 <= f <= Res(r1[c]) && Res(r2[c]) == Res(r1[c]) - f
    ensures RowOut(r2, k) == RowOut(r1, k) - (if c < k then f else 0)
  {
    if k > 0 {
      RowOutDrop(r1, r2, c, f, k - 1);
    }
  }

  // ---------------------------------------------------------------------
  // Augmenting paths and cuts.

  /** p is a walk from start to end along cells with positive residual. */
  ghost predicate Augmenting(m: seq<seq<Flow>>, n: nat, start: nat, end: nat, p: seq<nat>)
    requires Network(m, n)
  {
    |p| >= 1 && p[0] == start && p[|p| - 1] == end
    && (forall i | 0 <= i < |p| :: p[i] < n)
    && forall i | 0 <= i < |p| - 1 :: Res(m[p[i]][p[i + 1]]) > 0
  }

  /** No vertex outside V is reached from x by a positive residual. */
  ghost predicate Stuck(m: seq<seq<Flow>>, n: nat, x: nat, V: set<nat>)
    requires Network(m, n) && x < n
  {
    forall y | 0 <= y < n && y !in V :: Res(m[x][y]) <= 0
  }

  /** V separates start from end and no positive residual leaves it. */
  ghost predicate Cut(m: seq<seq<Flow>>, n: nat, start: nat, end: nat, V: set<nat>)
    requires Network(m, n)
  {
    start in V && end !in V && (forall x | x in V :: x < n)
    && forall x | x in V :: Stuck(m, n, x, V)
  }

  lemma {:induction false} CutHolds(m: seq<seq<Flow>>, n: nat, start: nat, end: nat, V: set<nat>, p: seq<nat>, k: nat)
    requires Network(m, n) && Cut(m, n, start, end, V) && |p| >= 1 && p[0] == start
    requires (forall i | 0 <= i < |p| :: p[i] < n) && forall i | 0 <= i < |p| - 1 :: Res(m[p[i]][p[i + 1]]) > 0
    requires k < |p|
    ensures p[k] in V
  {
    if k > 0 {
      CutHolds(m, n, start, end, V, p, k - 1);
      assert Stuck(m, n, p[k - 1], V);
    }
  }

  /** A cut leaves no augmenting path. */
  lemma {:induction false} CutBlocks(m: seq<seq<Flow>>, n: nat, start: nat, end: nat, V: set<nat>)
    requires Network(m, n) && Cut(m, n, start, end, V)
    ensures forall p :: !Augmenting(m, n, start, end, p)
  {
    forall p | Augmenting(m, n, start, end, p) ensures false {
      CutHolds(m, n, start, end, V, p, |p| - 1);
    }
  }

  // ---------------------------------------------------------------------
  // The search stack.

  /** An entry of the stack: weight, from, to. */
  datatype Arrow = Arrow(w: ExtInt, from: int, to: nat)

  ghost function Tos(S: seq<Arrow>): set<nat> {
    set a | a in S :: a.to
  }

  /** S is the stack of the search from start: the sentinel `(inf, -1,
      start)`, then arrows chained head to tail, each carrying the positive
      residual of its cell, to distinct vertices of V. */
  ghost predicate Stack(m: seq<seq<Flow>>, n: nat, start: nat, S: seq<Arrow>, V: set<nat>)
    requires Network(m, n)
  {
    |S| >= 1 && S[0] == Arrow(Inf, -1, start)
    && (forall i | 0 <= i < |S| :: S[i].to < n && S[i].to in V)
    && (forall i, j | 0 <= i < j < |S| :: S[i].to != S[j].to)
    && forall i | 1 <= i < |S| ::
         S[i].from == S[i - 1].to && S[i].w == Fin(Res(m[S[i - 1].to][S[i].to])) && Res(m[S[i - 1].to][S[i].to]) > 0
  }

  /** What the search keeps true: the stack ends at the current vertex u,
      end is not reached, and every visited vertex off the stack is a dead
      end. */
  ghost predicate Searching(m: seq<seq<Flow>>, n: nat, start: nat, end: nat, S: seq<Arrow>, V: set<nat>, u: nat)
    requires Network(m, n)
  {
    Stack(m, n, start, S, V) && u == S[|S| - 1].to
    && start in V && end !in V && (forall x | x in V :: x < n)
    && forall x | x in V :: x in Tos(S) || Stuck(m, n, x, V)
  }

  lemma {:induction false} SearchStart(m: seq<seq<Flow>>, n: nat, start: nat, end: nat)
    requires Network(m, n) && start < n && end < n && start != end
    ensures Searching(m, n, start, end, [Arrow(Inf, -1, start)], {start}, start)
  {
    assert Tos([Arrow(Inf, -1, start)]) == {start};
  }

  /** Going on to a fresh vertex v with positive residual from u. */
  lemma {:induction false} SearchPush(m: seq<seq<Flow>>, n: nat, start: nat, end: nat, S: seq<Arrow>, V: set<nat>, u: nat, v: nat)
    requires Network(m, n) && Searching(m, n, start, end, S, V, u)
    requires v < n && v !in V && Res(m[u][v]) > 0
    ensures Stack(m, n, start, S + [Arrow(Fin(Res(m[u][v])), u, v)], V + {v})
    ensures v != end ==> Searching(m, n, start, end, S + [Arrow(Fin(Res(m[u][v])), u, v)], V + {v}, v)
    ensures |V + {v}| == |V| + 1 <= n
  {
    var S' := S + [Arrow(Fin(Res(m[u][v])), u, v)];
    PushStack(m, n, start, S, V, u, v);
    assert Tos(S') == Tos(S) + {v};
    forall x | x in V + {v} ensures x in Tos(S') || Stuck(m, n, x, V + {v}) {
      if x != v && x !in Tos(S) {
        assert Stuck(m, n, x, V);
      }
    }
    C.BoundedCard(V + {v}, n);
  }

  lemma {:induction false} PushStack(m: seq<seq<Flow>>, n: nat, start: nat, S: seq<Arrow>, V: set<nat>, u: nat, v: nat)
    requires Network(m, n) && Stack(m, n, start, S, V) && u == S[|S| - 1].to
    requires v < n && v !in V && Res(m[u][v]) > 0
    ensures Stack(m, n, start, S + [Arrow(Fin(Res(m[u][v])), u, v)], V + {v})
  {
    var S' := S + [Arrow(Fin(Res(m[u][v])), u, v)];
    forall i | 0 <= i < |S'| ensures S'[i].to < n && S'[i].to in V + {v} {
      if i < |S| {
        assert S'[i] == S[i];
      }
    }
    forall i, j | 0 <= i < j < |S'| ensures S'[i].to != S'[j].to {
      assert S'[i] == S[i];
      if j < |S| {
        assert S'[j] == S[j];
      }
    }
    forall i | 1 <= i < |S'|
      ensures S'[i].from == S'[i - 1].to && S'[i].w == Fin(Res(m[S'[i - 1].to][S'[i].to]))
      ensures Res(m[S'[i - 1].to][S'[i].to]) > 0
    {
      assert S'[i - 1] == S[i - 1];
      if i < |S| {
        assert S'[i] == S[i];
      }
    }
  }

  /** Backing out of the dead end u. */
  lemma {:induction false} SearchPop(m: seq<seq<Flow>>, n: nat, start: nat, end: nat, S: seq<Arrow>, V: set<nat>, u: nat)
    requires Network(m, n) && Searching(m, n, start, end, S, V, u)
    requires u != start && Stuck(m, n, u, V)
    ensures |S| >= 2 && S[|S| - 1].from == S[|S| - 2].to
    ensures Searching(m, n, start, end, S[..|S| - 1], V, S[|S| - 2].to)
  {
    var S' := S[..|S| - 1];
    PopStack(m, n, start, S, V);
    assert forall i | 0 <= i < |S| - 1 :: S[i].to != S[|S| - 1].to;
    PopTos(S);
    forall x | x in V ensures x in Tos(S') || Stuck(m, n, x, V) {
    }
  }

  lemma {:induction false} PopStack(m: seq<seq<Flow>>, n: nat, start: nat, S: seq<Arrow>, V: set<nat>)
    requires Network(m, n) && Stack(m, n, start, S, V) && |S| >= 2
    ensures Stack(m, n, start, S[..|S| - 1], V)
  {
    var S' := S[..|S| - 1];
    assert forall i | 0 <= i < |S'| :: S'[i] == S[i];
  }

  lemma {:induction false} PopTos(S: seq<Arrow>)
    requires |S| >= 1 && forall i | 0 <= i < |S| - 1 :: S[i].to != S[|S| - 1].to
    ensures Tos(S[..|S| - 1]) == Tos(S) - {S[|S| - 1].to}
  {
    var S' := S[..|S| - 1];
    forall x | x in Tos(S) && x != S[|S| - 1].to ensures x in Tos(S') {
      var i :| 0 <= i < |S| && S[i].to == x;
      assert S'[i] == S[i];
    }
    forall x | x in Tos(S') ensures x in Tos(S) && x != S[|S| - 1].to {
      var i :| 0 <= i < |S'| && S'[i].to == x;
      assert S[i] == S'[i];
    }
  }

  /** Stuck at the start: the visited vertices form a cut. */
  lemma {:induction false} SearchDone(m: seq<seq<Flow>>, n: nat, start: nat, end: nat, S: seq<Arrow>, V: set<nat>)
    requires Network(m, n) && Searching(m, n, start, end, S, V, start) && Stuck(m, n, start, V)
    ensures Cut(m, n, start, end, V)
  {
    assert |S| == 1;
    assert Tos(S) == {start};
  }

  // ---------------------------------------------------------------------
  // The bottleneck and the update.

  /** `__get_max_flow`: the least weight on the stack. `min(*[w])` of a
      single weight is an error, so the stack holds two arrows or more. */
  function GetMaxFlow(arrows: seq<Arrow>): (f: ExtInt)
    requires |arrows| >= 2
    ensures forall k | 0 <= k < |arrows| :: LessEq(f, arrows[k].w)
    ensures exists k | 0 <= k < |arrows| :: f == arrows[k].w
  {
    if |arrows| == 2 then Min(arrows[0].w, arrows[1].w)
    else
      var f := GetMaxFlow(arrows[..|arrows| - 1]);
      assert forall k | 0 <= k < |arrows| - 1 :: arrows[..|arrows| - 1][k] == arrows[k];
      var r := Min(f, arrows[|arrows| - 1].w);
      assert forall k | 0 <= k < |arrows| - 1 :: LessEq(r, arrows[k].w) by {
        forall k | 0 <= k < |arrows| - 1 ensures LessEq(r, arrows[k].w) {
          LessEqTrans(r, f, arrows[k].w);
        }
      }
      r
  }

  /** One arrow of `__update_graph`: both cells [u][v] and [v][u] move f
      from forward to backward, scaled by the sign of [u][v]. */
  function Push(m: seq<seq<Flow>>, u: nat, v: nat, f: int): (r: seq<seq<Flow>>)
    requires FlowSquare(m) && u < |m| && v < |m|
    ensures |r| == |m| && FlowSquare(r)
  {
    var s := m[u][v].sign;
    var m1 := m[u := m[u][v := Flow(m[u][v].fwd - f * s, m[u][v].bwd + f * s, s)]];
    m1[v := m1[v][u := Flow(m1[v][u].fwd - f * s, m1[v][u].bwd + f * s, m1[v][u].sign)]]
  }

  /** The arrows an update may name: the sentinel's from is -1. */
  ghost predicate Arrows(A: seq<Arrow>, n: nat) {
    forall k | 0 <= k < |A| :: -1 <= A[k].from < n && A[k].to < n
  }

  /** The matrix after the first k arrows of A. */
  function Updated(m: seq<seq<Flow>>, A: seq<Arrow>, f: int, k: nat): (r: seq<seq<Flow>>)
    requires FlowSquare(m) && Arrows(A, |m|) && k <= |A|
    ensures |r| == |m| && FlowSquare(r)
  {
    if k == 0 then m
    else
      var p := Updated(m, A, f, k - 1);
      if A[k - 1].from == -1 then p else Push(p, A[k - 1].from, A[k - 1].to, f)
  }

  /** What a push adds to the cell [i][j]: d once for each of [u][v] and
      [v][u] that it is. */
  function Shift(u: nat, v: nat, i: nat, j: nat, d: int): int {
    (if i == u && j == v then d else 0) + (if i == v && j == u then d else 0)
  }

  lemma {:induction false} PushCell(m: seq<seq<Flow>>, u: nat, v: nat, f: int, i: nat, j: nat)
    requires FlowSquare(m) && u < |m| && v < |m| && i < |m| && j < |m|
    ensures Push(m, u, v, f)[i][j].sign == m[i][j].sign
    ensures Push(m, u, v, f)[i][j].fwd == m[i][j].fwd - Shift(u, v, i, j, f * m[u][v].sign)
    ensures Push(m, u, v, f)[i][j].bwd == m[i][j].bwd + Shift(u, v, i, j, f * m[u][v].sign)
  {
  }

  /** A push keeps every sign, every sum fwd + bwd and the mirroring. */
  lemma {:induction false} PushKeeps(m: seq<seq<Flow>>, n: nat, u: nat, v: nat, f: int)
    requires Network(m, n) && u < n && v < n
    ensures Network(Push(m, u, v, f), n) && SameCapacity(m, Push(m, u, v, f))
  {
    var r: seq<seq<Flow>> := Push(m, u, v, f);
    forall i, j | 0 <= i < n && 0 <= j < n
      ensures r[i][j].sign == m[i][j].sign && r[i][j].fwd + r[i][j].bwd == m[i][j].fwd + m[i][j].bwd
      ensures r[i][j].fwd == r[j][i].fwd && r[i][j].bwd == r[j][i].bwd
    {
      PushCell(m, u, v, f, i, j);
      PushCell(m, u, v, f, j, i);
      assert Shift(u, v, i, j, f * m[u][v].sign) == Shift(u, v, j, i, f * m[u][v].sign);
    }
  }

  lemma {:induction false} UpdatedKeeps(m: seq<seq<Flow>>, n: nat, A: seq<Arrow>, f: int, k: nat)
    requires Network(m, n) && Arrows(A, n) && k <= |A|
    ensures Network(Updated(m, A, f, k), n) && SameCapacity(m, Updated(m, A, f, k))
  {
    if k > 0 {
      UpdatedKeeps(m, n, A, f, k - 1);
      var p := Updated(m, A, f, k - 1);
      if A[k - 1].from != -1 {
        PushKeeps(p, n, A[k - 1].from, A[k - 1].to, f);
      }
    }
  }

  /** A push on cells away from row x leaves row x as it was. */
  lemma {:induction false} PushElsewhere(m: seq<seq<Flow>>, u: nat, v: nat, f: int, x: nat)
    requires FlowSquare(m) && u < |m| && v < |m| && x < |m| && x != u && x != v
    ensures Push(m, u, v, f)[x] == m[x]
  {
  }

  /** Arrows 2.. of a stack from start never touch row start. */
  lemma {:induction false} UpdatedRow(m: seq<seq<Flow>>, n: nat, start: nat, S: seq<Arrow>, V: set<nat>, f: int, k: nat)
    requires Network(m, n) && Stack(m, n, start, S, V) && 2 <= k <= |S|
    requires Arrows(S, n)
    ensures Updated(m, S, f, k)[start] == Updated(m, S, f, 2)[start]
  {
    if k > 2 {
      UpdatedRow(m, n, start, S, V, f, k - 1);
      assert S[k - 1].to != S[0].to && S[k - 2].to != S[0].to;
      PushElsewhere(Updated(m, S, f, k - 1), S[k - 1].from, S[k - 1].to, f, start);
    }
  }

  /** A stack names only cells of the matrix. */
  lemma {:induction false} StackArrows(m: seq<seq<Flow>>, n: nat, start: nat, S: seq<Arrow>, V: set<nat>)
    requires Network(m, n) && Stack(m, n, start, S, V)
    ensures Arrows(S, n)
  {
    forall k | 0 <= k < |S| ensures -1 <= S[k].from < n {
      if k > 0 {
        assert S[k].from == S[k - 1].to;
      }
    }
  }

  /** Pushing f no larger than the path's residuals lowers the positive
      residual leaving start by exactly f. */
  lemma {:induction false} AugmentOut(m: seq<seq<Flow>>, n: nat, start: nat, S: seq<Arrow>, V: set<nat>, f: int)
    requires Network(m, n) && Stack(m, n, start, S, V) && |S| >= 2
    requires 0 <= f <= Res(m[start][S[1].to])
    ensures Arrows(S, n)
    ensures RowOut(Updated(m, S, f, |S|)[start], n) == RowOut(m[start], n) - f
  {
    StackArrows(m, n, start, S, V);
    var v := S[1].to;
    assert v != start by {
      assert S[0].to != S[1].to;
    }
    assert Updated(m, S, f, 1) == m;
    var r: seq<seq<Flow>> := Updated(m, S, f, 2);
    assert r == Push(m, start, v, f);
    assert r[start][v].sign == m[start][v].sign;
    assert forall j | 0 <= j < n && j != v :: r[start][j] == m[start][j];
    RowOutDrop(m[start], r[start], v, f, n);
    UpdatedRow(m, n, start, S, V, f, |S|);
  }

  /** The bottleneck of a found path is a positive number no larger than
      its first residual. */
  lemma {:induction false} Bottleneck(m: seq<seq<Flow>>, n: nat, start: nat, S: seq<Arrow>, V: set<nat>)
    requires Network(m, n) && Stack(m, n, start, S, V) && |S| >= 2
    ensures GetMaxFlow(S).Fin? && 0 < GetMaxFlow(S).v <= Res(m[start][S[1].to])
    ensures forall j | 1 <= j < |S| :: GetMaxFlow(S).v <= Res(m[S[j - 1].to][S[j].to])
  {
    var f := GetMaxFlow(S);
    assert LessEq(f, S[1].w);
    var k :| 0 <= k < |S| && f == S[k].w;
    assert k != 0;
    assert S[k].w == Fin(Res(m[S[k - 1].to][S[k].to]));
    forall j | 1 <= j < |S| ensures f.v <= Res(m[S[j - 1].to][S[j].to]) {
      assert LessEq(f, S[j].w);
    }
  }

  lemma {:induction false} SameCapacityTrans(m1: seq<seq<Flow>>, m2: seq<seq<Flow>>, m3: seq<seq<Flow>>)
    requires FlowSquare(m1) && SameCapacity(m1, m2) && SameCapacity(m2, m3)
    ensures SameCapacity(m1, m3)
  {
  }

  // ---------------------------------------------------------------------
  // Cuts and their capacity: the certificate that the flow is maximum.

  /** x's side of V, as 1 inside and 0 outside. */
  function Ind(x: nat, V: set<nat>): int {
    if x in V then 1 else 0
  }

  /** The residual leaving V through the first k cells of row x. */
  function CutRow(r: seq<Flow>, x: nat, V: set<nat>, k: nat): int
    requires k <= |r|
  {
    if k == 0 then 0
    else CutRow(r, x, V, k - 1) + (if x in V && k - 1 !in V then Res(r[k - 1]) else 0)
  }

  /** The residual leaving V through the first k rows. */
  function CutRows(m: seq<seq<Flow>>, V: set<nat>, k: nat): int
    requires FlowSquare(m) && k <= |m|
  {
    if k == 0 then 0 else CutRows(m, V, k - 1) + CutRow(m[k - 1], k - 1, V, |m|)
  }

  /** The capacity of the cut V: the residual of every cell [x][y] with x
      in V and y outside it. On a network of fresh arrows (backward values
      0) it is the sum of the capacities of the arrows leaving V. */
  function CutCapacity(m: seq<seq<Flow>>, V: set<nat>): int
    requires FlowSquare(m)
  {
    CutRows(m, V, |m|)
  }

  /** Every two distinct cells [x][y] and [y][x] have opposite signs, as
      `add_arrow` leaves them, or carry no residual either way, as the
      constructor leaves them. */
  ghost predicate Opposed(m: seq<seq<Flow>>, n: nat)
    requires Network(m, n)
  {
    forall x, y | 0 <= x < n && 0 <= y < n && x != y ::
      m[x][y].sign == -m[y][x].sign || (Res(m[x][y]) <= 0 && Res(m[y][x]) <= 0)
  }

  /** No residual is negative. */
  ghost predicate NoNegative(m: seq<seq<Flow>>, n: nat)
    requires Network(m, n)
  {
    forall x, y | 0 <= x < n && 0 <= y < n :: Res(m[x][y]) >= 0
  }

  /** The constructor's matrix, `[0, 0, 1]` everywhere, is an opposed
      network with no negative residual. */
  lemma {:induction false} FreshNetwork(m: seq<seq<Flow>>, n: nat)
    requires |m| == n && FlowSquare(m)
    requires forall i, j | 0 <= i < n && 0 <= j < n :: m[i][j] == Flow(0, 0, 1)
    ensures Network(m, n) && Opposed(m, n) && NoNegative(m, n)
  {
  }

  /** `add_arrow(u, v, [c, 0, 1])` with c >= 0 keeps a network opposed and
      free of negative residuals. */
  lemma {:induction false} ArrowKeeps(m: seq<seq<Flow>>, m2: seq<seq<Flow>>, n: nat, u: nat, v: nat, c: int)
    requires Network(m, n) && Opposed(m, n) && NoNegative(m, n) && u < n && v < n && 0 <= c
    requires |m2| == n && FlowSquare(m2)
    requires forall i, j | 0 <= i < n && 0 <= j < n ::
               m2[i][j] == if i == v && j == u then Flow(c, 0, -1)
                           else if i == u && j == v then Flow(c, 0, 1)
                           else m[i][j]
    ensures Network(m2, n) && Opposed(m2, n) && NoNegative(m2, n)
  {
  }

  lemma {:induction false} CutRowOne(r1: seq<Flow>, r2: seq<Flow>, x: nat, V: set<nat>, c: nat, k: nat)
    requires |r1| == |r2| && c < |r1| && k <= |r1|
    requires forall j | 0 <= j < |r1| && j != c :: r2[j] == r1[j]
    ensures CutRow(r2, x, V, k)
            == CutRow(r1, x, V, k) + (if c < k && x in V && c !in V then Res(r2[c]) - Res(r1[c]) else 0)
  {
    if k > 0 {
      CutRowOne(r1, r2, x, V, c, k - 1);
    }
  }

  /** What the residual of cell [x][y] adds to the capacity of V when it
      goes from m1 to m2. */
  function Gain(m1: seq<seq<Flow>>, m2: seq<seq<Flow>>, V: set<nat>, x: nat, y: nat): int
    requires FlowSquare(m1) && FlowSquare(m2) && x < |m1| == |m2| && y < |m1|
  {
    if x in V && y !in V then Res(m2[x][y]) - Res(m1[x][y]) else 0
  }

  /** Two matrices that differ only in cells [u][v] and [v][u] have cut
      capacities that differ by what those two cells add. */
  lemma {:induction false} CutRowsTwo(m1: seq<seq<Flow>>, m2: seq<seq<Flow>>, V: set<nat>, u: nat, v: nat, k: nat)
    requires FlowSquare(m1) && FlowSquare(m2) && |m1| == |m2|
    requires u < |m1| && v < |m1| && u != v && k <= |m1|
    requires forall i | 0 <= i < |m1| && i != u && i != v :: m2[i] == m1[i]
    requires forall j | 0 <= j < |m1| && j != v :: m2[u][j] == m1[u][j]
    requires forall j | 0 <= j < |m1| && j != u :: m2[v][j] == m1[v][j]
    ensures CutRows(m2, V, k) == CutRows(m1, V, k) + (if u < k then Gain(m1, m2, V, u, v) else 0)
                                                  + (if v < k then Gain(m1, m2, V, v, u) else 0)
  {
    if k > 0 {
      CutRowsTwo(m1, m2, V, u, v, k - 1);
      var x := k - 1;
      if x == u {
        CutRowOne(m1[u], m2[u], u, V, v, |m1|);
      } else if x == v {
        CutRowOne(m1[v], m2[v], v, V, u, |m1|);
      }
    }
  }

  /** Pushing f along [u][v] with opposite signs lowers that residual by f,
      raises the reverse one by f, and lowers the capacity of a cut by f
      for each crossing out of it less each crossing into it. */
  lemma {:induction false} PushCut(m: seq<seq<Flow>>, n: nat, u: nat, v: nat, f: int, V: set<nat>)
    requires Network(m, n) && u < n && v < n && u != v && m[u][v].sign == -m[v][u].sign
    ensures Res(Push(m, u, v, f)[u][v]) == Res(m[u][v]) - f
    ensures Res(Push(m, u, v, f)[v][u]) == Res(m[v][u]) + f
    ensures CutCapacity(Push(m, u, v, f), V) == CutCapacity(m, V) - f * Ind(u, V) + f * Ind(v, V)
  {
    var r: seq<seq<Flow>> := Push(m, u, v, f);
    PushCell(m, u, v, f, u, v);
    PushCell(m, u, v, f, v, u);
    forall i | 0 <= i < n && i != u && i != v ensures r[i] == m[i] {
      PushElsewhere(m, u, v, f, i);
    }
    forall j | 0 <= j < n && j != v ensures r[u][j] == m[u][j] {
      PushCell(m, u, v, f, u, j);
    }
    forall j | 0 <= j < n && j != u ensures r[v][j] == m[v][j] {
      PushCell(m, u, v, f, v, j);
    }
    CutRowsTwo(m, r, V, u, v, n);
  }

  /** Pushing the first k arrows of a stack from start, on a network whose
      pairs are opposed, lowers every cut's capacity by f for leaving start
      and raises it by f for arriving at the k-th arrow's head. */
  lemma {:induction false} UpdatedCut(m: seq<seq<Flow>>, n: nat, start: nat, S: seq<Arrow>, V: set<nat>, f: int, k: nat, W: set<nat>)
    requires Network(m, n) && Opposed(m, n) && Stack(m, n, start, S, V) && Arrows(S, n) && 1 <= k <= |S|
    ensures CutCapacity(Updated(m, S, f, k), W) == CutCapacity(m, W) - f * Ind(start, W) + f * Ind(S[k - 1].to, W)
  {
    if k > 1 {
      UpdatedCut(m, n, start, S, V, f, k - 1, W);
      var p := Updated(m, S, f, k - 1);
      UpdatedKeeps(m, n, S, f, k - 1);
      var u, v := S[k - 2].to, S[k - 1].to;
      assert S[k - 1].from == u && u != v;
      assert Res(m[u][v]) > 0;
      PushCut(p, n, u, v, f, W);
    }
  }

  /** An update of a stack keeps the pairs opposed: it pushes only opposed
      pairs, and those keep their signs. */
  lemma {:induction false} UpdatedOpposed(m: seq<seq<Flow>>, n: nat, start: nat, S: seq<Arrow>, V: set<nat>, f: int, k: nat)
    requires Network(m, n) && Opposed(m, n) && Stack(m, n, start, S, V) && Arrows(S, n) && k <= |S|
    ensures Network(Updated(m, S, f, k), n) && Opposed(Updated(m, S, f, k), n)
  {
    UpdatedKeeps(m, n, S, f, k);
    if k > 1 {
      UpdatedOpposed(m, n, start, S, V, f, k - 1);
      var p: seq<seq<Flow>> := Updated(m, S, f, k - 1);
      UpdatedKeeps(m, n, S, f, k - 1);
      var u, v := S[k - 2].to, S[k - 1].to;
      assert S[k - 1].from == u && u != v;
      assert Res(m[u][v]) > 0;
      assert p[u][v].sign == m[u][v].sign && p[v][u].sign == m[v][u].sign;
      PushOpposed(p, n, u, v, f);
    } else if k == 1 {
      assert Updated(m, S, f, 1) == m;
    }
  }

  /** A push on an opposed pair keeps every pair opposed. */
  lemma {:induction false} PushOpposed(p: seq<seq<Flow>>, n: nat, u: nat, v: nat, f: int)
    requires Network(p, n) && Opposed(p, n) && u < n && v < n && u != v
    requires p[u][v].sign == -p[v][u].sign
    ensures Network(Push(p, u, v, f), n) && Opposed(Push(p, u, v, f), n)
  {
    PushKeeps(p, n, u, v, f);
    var r: seq<seq<Flow>> := Push(p, u, v, f);
    forall x, y | 0 <= x < n && 0 <= y < n && x != y && r[x][y].sign != -r[y][x].sign
      ensures Res(r[x][y]) <= 0 && Res(r[y][x]) <= 0
    {
      PushCell(p, u, v, f, x, y);
      PushCell(p, u, v, f, y, x);
    }
  }

  /** Pushing a bottleneck no larger than any residual on the stack keeps
      every residual non-negative; the arrows not yet pushed keep their
      cells. */
  lemma {:induction false} UpdatedNoNegative(m: seq<seq<Flow>>, n: nat, start: nat, S: seq<Arrow>, V: set<nat>, f: int, k: nat)
    requires Network(m, n) && Opposed(m, n) && NoNegative(m, n) && Stack(m, n, start, S, V) && Arrows(S, n)
    requires 1 <= k <= |S| && 0 <= f
    requires forall j | 1 <= j < |S| :: f <= Res(m[S[j - 1].to][S[j].to])
    ensures Network(Updated(m, S, f, k), n) && NoNegative(Updated(m, S, f, k), n)
    ensures forall j | k <= j < |S| :: Updated(m, S, f, k)[S[j - 1].to][S[j].to] == m[S[j - 1].to][S[j].to]
  {
    UpdatedKeeps(m, n, S, f, k);
    if k > 1 {
      UpdatedNoNegative(m, n, start, S, V, f, k - 1);
      var p: seq<seq<Flow>> := Updated(m, S, f, k - 1);
      UpdatedKeeps(m, n, S, f, k - 1);
      var u, v := S[k - 2].to, S[k - 1].to;
      assert S[k - 1].from == u && u != v;
      assert Res(m[u][v]) > 0 && p[u][v] == m[u][v];
      var r: seq<seq<Flow>> := Push(p, u, v, f);
      assert p[u][v].sign == m[u][v].sign && p[v][u].sign == m[v][u].sign;
      PushNoNegative(p, n, u, v, f);
      forall j | k <= j < |S| ensures r[S[j - 1].to][S[j].to] == m[S[j - 1].to][S[j].to] {
        assert S[j].to != v && S[j].to != u;
        PushCell(p, u, v, f, S[j - 1].to, S[j].to);
      }
    } else {
      assert Updated(m, S, f, 1) == m;
    }
  }

  /** A push of at most the residual of an opposed pair leaves no
      residual negative. */
  lemma {:induction false} PushNoNegative(p: seq<seq<Flow>>, n: nat, u: nat, v: nat, f: int)
    requires Network(p, n) && NoNegative(p, n) && u < n && v < n && u != v
    requires p[u][v].sign == -p[v][u].sign && 0 <= f <= Res(p[u][v])
    ensures Network(Push(p, u, v, f), n) && NoNegative(Push(p, u, v, f), n)
  {
    PushKeeps(p, n, u, v, f);
    var r: seq<seq<Flow>> := Push(p, u, v, f);
    forall x, y | 0 <= x < n && 0 <= y < n ensures Res(r[x][y]) >= 0 {
      PushCell(p, u, v, f, x, y);
    }
  }

  lemma {:induction false} CutRowLow(m: seq<seq<Flow>>, n: nat, V: set<nat>, x: nat, k: nat)
    requires Network(m, n) && NoNegative(m, n) && x < n && k <= n
    ensures CutRow(m[x], x, V, k) >= 0
  {
    if k > 0 {
      CutRowLow(m, n, V, x, k - 1);
    }
  }

  lemma {:induction false} CutRowsLow(m: seq<seq<Flow>>, n: nat, V: set<nat>, k: nat)
    requires Network(m, n) && NoNegative(m, n) && k <= n
    ensures CutRows(m, V, k) >= 0
  {
    if k > 0 {
      CutRowsLow(m, n, V, k - 1);
      CutRowLow(m, n, V, k - 1, n);
    }
  }

  lemma {:induction false} CutRowEmpty(m: seq<seq<Flow>>, n: nat, start: nat, end: nat, V: set<nat>, x: nat, k: nat)
    requires Network(m, n) && NoNegative(m, n) && Cut(m, n, start, end, V) && x < n && k <= n
    ensures CutRow(m[x], x, V, k) == 0
  {
    if k > 0 {
      CutRowEmpty(m, n, start, end, V, x, k - 1);
      if x in V && k - 1 !in V {
        assert Stuck(m, n, x, V);
      }
    }
  }

  lemma {:induction false} CutRowsEmpty(m: seq<seq<Flow>>, n: nat, start: nat, end: nat, V: set<nat>, k: nat)
    requires Network(m, n) && NoNegative(m, n) && Cut(m, n, start, end, V) && k <= n
    ensures CutRows(m, V, k) == 0
  {
    if k > 0 {
      CutRowsEmpty(m, n, start, end, V, k - 1);
      CutRowEmpty(m, n, start, end, V, k - 1, n);
    }
  }

  /** With no negative residual, every cut's capacity is at least 0, and
      a cut the search is stuck in has capacity 0. */
  lemma {:induction false} CutBounds(m: seq<seq<Flow>>, n: nat, start: nat, end: nat, V: set<nat>)
    requires Network(m, n) && NoNegative(m, n)
    ensures CutCapacity(m, V) >= 0
    ensures Cut(m, n, start, end, V) ==> CutCapacity(m, V) == 0
  {
    CutRowsLow(m, n, V, n);
    if Cut(m, n, start, end, V) {
      CutRowsEmpty(m, n, start, end, V, n);
    }
  }

  // ---------------------------------------------------------------------
  // The class.

  /** Sums the bottlenecks recorded in F: `sum(F)`. */
  function Sum(F: seq<int>): int {
    if F == [] then 0 else Sum(F[..|F| - 1]) + F[|F| - 1]
  }

  lemma {:induction false} SumSnoc(F: seq<int>, x: int)
    ensures Sum(F + [x]) == Sum(F) + x
  {
    assert (F + [x])[..|F|] == F;
  }

  class FordFulk {
    const n: nat
    var matrix: seq<seq<Flow>>

    ghost predicate Valid()
      reads this
    {
      Network(matrix, n)
    }

    /** `FordFulk(G)`: a private copy of the network's residual matrix. */
    constructor (g: FGraph)
      requires g.Valid() && Signed(g.matrix)
      ensures n == g.n && matrix == g.matrix && Valid()
    {
      n := g.n;
      matrix := g.matrix;
    }

    /** `__get_max_vertex`: the unvisited vertex with the largest positive
        residual from u, the lowest such on a tie, or -1 when there is
        none. */
    method GetMaxVertex(u: nat, V: set<nat>) returns (v: int)
      requires Valid() && u < n
      ensures v == -1 <==> Stuck(matrix, n, u, V)
      ensures v != -1 ==> 0 <= v < n && v !in V && Res(matrix[u][v]) > 0
      ensures v != -1 ==> forall y | 0 <= y < n && y !in V :: Res(matrix[u][y]) <= Res(matrix[u][v])
      ensures v != -1 ==> forall y | 0 <= y < v && y !in V :: Res(matrix[u][y]) < Res(matrix[u][v])
    {
      var mx := 0;
      v := -1;
      for y := 0 to n
        invariant v == -1 ==> mx == 0
        invariant v != -1 ==> 0 <= v < y && v !in V && mx == Res(matrix[u][v]) > 0
        invariant forall z | 0 <= z < y && z !in V :: Res(matrix[u][z]) <= mx
        invariant v != -1 ==> forall z | 0 <= z < v && z !in V :: Res(matrix[u][z]) < mx
      {
        if y in V {
          continue;
        }
        var arc := matrix[u][y];
        if arc.sign == 1 {
          if arc.fwd > mx {
            mx := arc.fwd;
            v := y;
          }
        } else {
          if arc.bwd > mx {
            mx := arc.bwd;
            v := y;
          }
        }
      }
    }

    /** `__update_graph`: every arrow but the sentinel pushes f. */
    method UpdateGraph(arrows: seq<Arrow>, f: int)
      requires Valid() && Arrows(arrows, n)
      modifies this
      ensures matrix == Updated(old(matrix), arrows, f, |arrows|)
      ensures Valid() && SameCapacity(old(matrix), matrix)
    {
      ghost var m0 := matrix;
      for k := 0 to |arrows|
        invariant matrix == Updated(m0, arrows, f, k)
      {
        if arrows[k].from == -1 {
          continue;
        }
        var u, v := arrows[k].from, arrows[k].to;
        ghost var p := matrix;
        var sgn := matrix[u][v].sign;
        matrix := matrix[u := matrix[u][v := Flow(matrix[u][v].fwd - f * sgn, matrix[u][v].bwd + f * sgn, sgn)]];
        matrix := matrix[v := matrix[v][u := Flow(matrix[v][u].fwd - f * sgn, matrix[v][u].bwd + f * sgn, matrix[v][u].sign)]];
        assert matrix == Push(p, u, v, f);
      }
      UpdatedKeeps(m0, n, arrows, f, |arrows|);
    }

    /** One search of `run`'s inner loop: either stuck at start (-1), with
        the visited vertices a cut, or at end with the stack a path of
        positive residuals from start to end. */
    method Search(start: nat, end: nat) returns (v: int, S: seq<Arrow>, V: set<nat>)
      requires Valid() && start < n && end < n && start != end
      ensures v == -1 ==> Cut(matrix, n, start, end, V)
      ensures v != -1 ==> v == end && Stack(matrix, n, start, S, V) && |S| >= 2 && S[|S| - 1].to == end
    {
      var u: nat := start;
      S := [Arrow(Inf, -1, u)];
      V := {u};
      v := -2;
      SearchStart(matrix, n, start, end);
      while u != end
        invariant Searching(matrix, n, start, end, S, V, u)
        decreases n - |V|, |S|
      {
        v := GetMaxVertex(u, V);
        if v == -1 {
          if u == start {
            SearchDone(matrix, n, start, end, S, V);
            break;
          } else {
            SearchPop(matrix, n, start, end, S, V, u);
            var top := S[|S| - 1];
            S := S[..|S| - 1];
            u := top.from;
            continue;
          }
        }
        var w := if matrix[u][v].sign == 1 then matrix[u][v].fwd else matrix[u][v].bwd;
        var x: nat := v;
        SearchPush(matrix, n, start, end, S, V, u, x);
        S := S + [Arrow(Fin(w), u, x)];
        V := V + {x};
        if v == end {
          break;
        }
        u := v;
      }
    }

    /** `run(start, end)`: augment along searched paths until a search is
        stuck at start. The total is what left start's positive residuals,
        no sign or capacity changes, and no augmenting path is left. The
        last search's visited set is a cut; on a network whose pairs are
        opposed the total is what every cut between start and end lost,
        and with no negative residual besides, it is the capacity of that
        last cut and at most the capacity of any other: the flow is
        maximum. */
    method Run(start: nat, end: nat) returns (total: int, ghost cut: set<nat>)
      requires Valid() && start < n && end < n && start != end
      modifies this
      ensures Valid() && SameCapacity(old(matrix), matrix)
      ensures total == RowOut(old(matrix)[start], n) - RowOut(matrix[start], n)
      ensures forall p :: !Augmenting(matrix, n, start, end, p)
      ensures Cut(matrix, n, start, end, cut)
      ensures Opposed(old(matrix), n) ==>
                forall W: set<nat> | start in W && end !in W ::
                  total == CutCapacity(old(matrix), W) - CutCapacity(matrix, W)
      ensures Opposed(old(matrix), n) && NoNegative(old(matrix), n) ==>
                total == CutCapacity(old(matrix), cut)
                && forall W: set<nat> | start in W && end !in W :: total <= CutCapacity(old(matrix), W)
    {
      ghost var m0 := matrix;
      var v := -2;
      var F: seq<int> := [];
      cut := {};
      while v != -1
        invariant Valid() && SameCapacity(m0, matrix)
        invariant Sum(F) == RowOut(m0[start], n) - RowOut(matrix[start], n)
        invariant v == -1 ==> Cut(matrix, n, start, end, cut)
        invariant Opposed(m0, n) ==>
                    Opposed(matrix, n)
                    && forall W: set<nat> | start in W && end !in W ::
                         Sum(F) == CutCapacity(m0, W) - CutCapacity(matrix, W)
        invariant Opposed(m0, n) && NoNegative(m0, n) ==> NoNegative(matrix, n)
        decreases RowOut(matrix[start], n), if v == -1 then 0 else 1
      {
        var S, V;
        v, S, V := Search(start, end);
        if v == -1 {
          cut := V;
        } else {
          var f := GetMaxFlow(S);
          Bottleneck(matrix, n, start, S, V);
          ghost var m1 := matrix;
          SumSnoc(F, f.v);
          F := F + [f.v];
          Augment(S, V, f.v, start, end);
          SameCapacityTrans(m0, m1, matrix);
        }
      }
      CutBlocks(matrix, n, start, end, cut);
      total := Sum(F);
      if Opposed(m0, n) && NoNegative(m0, n) {
        CutBounds(matrix, n, start, end, cut);
        forall W: set<nat> | start in W && end !in W ensures total <= CutCapacity(m0, W) {
          CutBounds(matrix, n, start, end, W);
        }
      }
    }

    /** The update of one found path from start to end: what it does to
        start's row, and, on opposed pairs, that every cut between start
        and end loses exactly f while no residual goes negative. */
    method Augment(S: seq<Arrow>, ghost V: set<nat>, f: int, start: nat, end: nat)
      requires Valid() && Stack(matrix, n, start, S, V) && |S| >= 2 && S[|S| - 1].to == end
      requires 0 < f <= Res(matrix[start][S[1].to])
      requires forall j | 1 <= j < |S| :: f <= Res(matrix[S[j - 1].to][S[j].to])
      modifies this
      ensures Valid() && SameCapacity(old(matrix), matrix)
      ensures RowOut(matrix[start], n) == RowOut(old(matrix)[start], n) - f
      ensures Opposed(old(matrix), n) ==>
                Opposed(matrix, n)
                && forall W: set<nat> | start in W && end !in W ::
                     CutCapacity(matrix, W) == CutCapacity(old(matrix), W) - f
      ensures Opposed(old(matrix), n) && NoNegative(old(matrix), n) ==> NoNegative(matrix, n)
    {
      AugmentOut(matrix, n, start, S, V, f);
      ghost var m := matrix;
      if Opposed(m, n) {
        UpdatedOpposed(m, n, start, S, V, f, |S|);
        forall W: set<nat> | start in W && end !in W
          ensures CutCapacity(Updated(m, S, f, |S|), W) == CutCapacity(m, W) - f
        {
          UpdatedCut(m, n, start, S, V, f, |S|, W);
        }
        if NoNegative(m, n) {
          UpdatedNoNegative(m, n, start, S, V, f, |S|);
        }
      }
      UpdateGraph(S, f);
    }
  }
}
