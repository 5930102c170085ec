/** Floyd-Warshall all-pairs shortest paths. The algorithm works on a private
    copy of the cost matrix, so the graph itself is never changed; round k
    lets every pair (i, j) go through k when that is strictly cheaper and
    records k as the pair's `paths` entry. */
module Floyd {
  import opened ExtInts
  import opened Walks
  import Graphs

  /** A walk from x to y with at least one step. */
  ghost predicate FWalk(m: Matrix, p: seq<nat>, x: nat, y: nat) {
    Square(m) && IsWalk(m, p) && |p| >= 2 && p[0] == x && p[|p| - 1] == y
  }

  /** A walk whose intermediate vertices are all below k. */
  ghost predicate InnerWalk(m: Matrix, p: seq<nat>, x: nat, y: nat, k: nat) {
    FWalk(m, p, x, y) && forall t | 0 < t < |p| - 1 :: p[t] < k
  }

  /** No closed walk has negative weight. */
  ghost predicate NoNegativeCycle(m: Matrix) {
    forall p, x | FWalk(m, p, x, x) :: LessEq(Fin(0), Weight(m, p))
  }

  /** No pair can be improved by going through a third vertex. */
  ghost predicate Closed(m: Matrix)
    requires Square(m)
  {
    forall i, j, k | 0 <= i < |m| && 0 <= j < |m| && 0 <= k < |m| ::
      LessEq(m[i][j], Add(m[i][k], m[k][j]))
  }

  /** d is the least weight of a walk of at least one step from x to y. */
  ghost predicate IsShortest(m: Matrix, x: nat, y: nat, d: ExtInt)
    requires Square(m)
  {
    (forall p | FWalk(m, p, x, y) :: LessEq(d, Weight(m, p)))
    && exists p :: FWalk(m, p, x, y) && Weight(m, p) == d
  }

  /** a with cell (i, j) replaced by v. */
  function SetCell<T>(a: seq<seq<T>>, i: nat, j: nat, v: T): (r: seq<seq<T>>)
    requires i < |a| && j < |a[i]|
    ensures |r| == |a| && forall x | 0 <= x < |a| :: |r[x]| == |a[x]|
    ensures r[i][j] == v
    ensures forall x, y | 0 <= x < |a| && 0 <= y < |a[x]| && (x, y) != (i, j) :: r[x][y] == a[x][y]
  {
    a[i := a[i][j := v]]
  }

  /** Both outputs are n x n. */
  ghost predicate Sq<T>(n: nat, c: seq<seq<T>>) {
    |c| == n && forall x | 0 <= x < n :: |c[x]| == n
  }

  ghost predicate Shape(n: nat, c: Matrix, paths: seq<seq<nat>>) {
    Sq(n, c) && Sq(n, paths)
  }

  /** W[x][y] is a walk from x to y that weighs c[x][y]. */
  ghost predicate Realized(m: Matrix, c: Matrix, W: seq<seq<seq<nat>>>)
    requires Square(m) && Sq(|m|, c)
  {
    |W| == |m| && (forall x | 0 <= x < |m| :: |W[x]| == |m|)
    && forall x, y | 0 <= x < |m| && 0 <= y < |m| :: FWalk(m, W[x][y], x, y) && Weight(m, W[x][y]) == c[x][y]
  }

  /** c lies cell by cell at or below d. */
  ghost predicate Below(n: nat, c: Matrix, d: Matrix)
    requires Sq(n, c) && Sq(n, d)
  {
    forall x, y | 0 <= x < n && 0 <= y < n :: LessEq(c[x][y], d[x][y])
  }

  /** A cell that still holds its original cost still has its original
      `paths` entry; every entry names a vertex. */
  ghost predicate PathsOk(m: Matrix, c: Matrix, paths: seq<seq<nat>>)
    requires Square(m) && Shape(|m|, c, paths)
  {
    forall x, y | 0 <= x < |m| && 0 <= y < |m| ::
      paths[x][y] < |m| && (c[x][y] == m[x][y] ==> paths[x][y] == y)
  }

  /** c[x][y] is at most the cost through k at the start of the round. */
  ghost predicate Through(n: nat, c: Matrix, cK: Matrix, k: nat, x: nat, y: nat)
    requires Sq(n, c) && Sq(n, cK) && k < n && x < n && y < n
  {
    LessEq(c[x][y], Add(cK[x][k], cK[k][y]))
  }

  /** Every walk from x to y with intermediates below k weighs at least c[x][y]. */
  ghost predicate LowerBound(m: Matrix, c: Matrix, k: nat, x: nat, y: nat)
    requires Square(m) && Sq(|m|, c) && x < |m| && y < |m|
  {
    forall p | InnerWalk(m, p, x, y, k) :: LessEq(c[x][y], Weight(m, p))
  }

  ghost predicate Bounded(m: Matrix, c: Matrix, k: nat)
    requires Square(m) && Sq(|m|, c)
  {
    forall x, y | 0 <= x < |m| && 0 <= y < |m| :: LowerBound(m, c, k, x, y)
  }


  /** The `paths` table `floyd` starts from: paths[i][j] = j. */
  function Identity(n: nat): (r: seq<seq<nat>>)
    ensures Sq(n, r) && forall x, y | 0 <= x < n && 0 <= y < n :: r[x][y] == y
  {
    seq(n, i => seq(n, j => j))
  }

  /** On a matrix no detour improves, nothing has been written. */
  ghost predicate Untouched(m: Matrix, c: Matrix, paths: seq<seq<nat>>)
    requires Square(m)
  {
    Closed(m) ==> c == m && paths == Identity(|m|)
  }

  /** What holds of the working matrices at every point of the triple loop. */
  ghost predicate Inv(m: Matrix, c: Matrix, paths: seq<seq<nat>>, W: seq<seq<seq<nat>>>) {
    Square(m) && Sq(|m|, m) && Shape(|m|, c, paths)
    && Realized(m, c, W) && Below(|m|, c, m) && PathsOk(m, c, paths) && Untouched(m, c, paths)
  }

  /** Cells before (i, j) in row-major order are at or below their cost
      through k at the start of the round. */
  ghost predicate DoneBefore(n: nat, c: Matrix, cK: Matrix, k: nat, i: nat, j: nat)
    requires Sq(n, c) && Sq(n, cK) && k < n
  {
    forall x, y | 0 <= x < n && 0 <= y < n && (x < i || (x == i && y < j)) :: Through(n, c, cK, k, x, y)
  }

  // ---------------------------------------------------------------------
  // Walk surgery for the lower bound.

  /** Dropping a closed walk of non-negative weight never makes a walk heavier. */
  lemma {:induction false} DropLoop(wp: ExtInt, wm: ExtInt, ws: ExtInt)
    requires LessEq(Fin(0), wm)
    ensures LessEq(Add(wp, ws), Add(wp, Add(wm, ws)))
  {
  }

  /** The first and the last intermediate occurrence of k in a walk. */
  lemma {:induction false} FirstLast(p: seq<nat>, k: nat, t: nat) returns (t1: nat, t2: nat)
    requires 0 < t < |p| - 1 && p[t] == k
    ensures 0 < t1 <= t2 < |p| - 1 && p[t1] == k && p[t2] == k
    ensures forall s | 0 < s < t1 :: p[s] != k
    ensures forall s | t2 < s < |p| - 1 :: p[s] != k
  {
    t1 := 1;
    while p[t1] != k
      invariant 0 < t1 <= t
      invariant forall s | 0 < s < t1 :: p[s] != k
      decreases t - t1
    {
      t1 := t1 + 1;
    }
    t2 := |p| - 2;
    while p[t2] != k
      invariant t <= t2 < |p| - 1
      invariant forall s | t2 < s < |p| - 1 :: p[s] != k
      decreases t2 - t
    {
      t2 := t2 - 1;
    }
  }

  /** The part of a walk up to the first k avoids k inside. */
  lemma {:induction false} PrefixInner(m: Matrix, p: seq<nat>, x: nat, y: nat, k: nat, t1: nat)
    requires InnerWalk(m, p, x, y, k + 1) && 0 < t1 < |p| - 1 && p[t1] == k
    requires forall s | 0 < s < t1 :: p[s] != k
    ensures InnerWalk(m, p[..t1 + 1], x, k, k)
  {
    var q := p[..t1 + 1];
    forall s | 0 < s < |q| - 1 ensures q[s] < k {
      assert q[s] == p[s] && p[s] < k + 1;
    }
  }

  /** The part of a walk after the last k avoids k inside. */
  lemma {:induction false} SuffixInner(m: Matrix, p: seq<nat>, x: nat, y: nat, k: nat, t2: nat)
    requires InnerWalk(m, p, x, y, k + 1) && 0 < t2 < |p| - 1 && p[t2] == k
    requires forall s | t2 < s < |p| - 1 :: p[s] != k
    ensures InnerWalk(m, p[t2..], k, y, k)
  {
    var q := p[t2..];
    forall s | 0 < s < |q| - 1 ensures q[s] < k {
      var s' := t2 + s;
      assert q[s] == p[s'] && p[s'] < k + 1;
    }
  }

  /** A walk cut at positions t1 <= t2 weighs what its three parts weigh. */
  lemma {:induction false} WeightThree(m: Matrix, p: seq<nat>, t1: nat, t2: nat)
    requires Square(m) && IsWalk(m, p) && t1 <= t2 < |p|
    ensures IsWalk(m, p[..t1 + 1]) && IsWalk(m, p[t1..t2 + 1]) && IsWalk(m, p[t2..])
    ensures Weight(m, p) == Add(Weight(m, p[..t1 + 1]), Add(Weight(m, p[t1..t2 + 1]), Weight(m, p[t2..])))
  {
    var rest := p[t1..];
    WeightSplit(m, p, t1);
    WeightSplit(m, rest, t2 - t1);
    assert rest[t2 - t1..] == p[t2..] && rest[..t2 - t1 + 1] == p[t1..t2 + 1];
  }

  /** The stretch between two visits of k is a closed walk, so it weighs at
      least 0. */
  lemma {:induction false} LoopNonNegative(m: Matrix, p: seq<nat>, k: nat, t1: nat, t2: nat)
    requires NoNegativeCycle(m) && Square(m) && IsWalk(m, p) && t1 <= t2 < |p| && p[t1] == k && p[t2] == k
    ensures IsWalk(m, p[t1..t2 + 1]) && LessEq(Fin(0), Weight(m, p[t1..t2 + 1]))
  {
    var mid := p[t1..t2 + 1];
    if t1 < t2 {
      assert FWalk(m, mid, k, k);
    } else {
      assert mid == [k];
    }
  }

  /** A walk that passes through k is no cheaper than its part up to the first
      k joined with its part after the last k, when cycles are non-negative. */
  lemma {:induction false} CutAtK(m: Matrix, p: seq<nat>, x: nat, y: nat, k: nat, t: nat)
      returns (pre: seq<nat>, suf: seq<nat>)
    requires NoNegativeCycle(m) && InnerWalk(m, p, x, y, k + 1) && 0 < t < |p| - 1 && p[t] == k
    ensures InnerWalk(m, pre, x, k, k) && InnerWalk(m, suf, k, y, k)
    ensures LessEq(Add(Weight(m, pre), Weight(m, suf)), Weight(m, p))
  {
    var t1, t2 := FirstLast(p, k, t);
    PrefixInner(m, p, x, y, k, t1);
    SuffixInner(m, p, x, y, k, t2);
    pre, suf := p[..t1 + 1], p[t2..];
    WeightThree(m, p, t1, t2);
    LoopNonNegative(m, p, k, t1, t2);
    DropLoop(Weight(m, pre), Weight(m, p[t1..t2 + 1]), Weight(m, suf));
  }

  /** One round through k extends the lower bound from intermediates below k
      to intermediates up to k. */
  lemma {:induction false} RoundBound(m: Matrix, cK: Matrix, c: Matrix, k: nat, x: nat, y: nat)
    requires Square(m) && Sq(|m|, cK) && Sq(|m|, c) && k < |m| && x < |m| && y < |m|
    requires NoNegativeCycle(m) && Bounded(m, cK, k) && Below(|m|, c, cK)
    requires Through(|m|, c, cK, k, x, y)
    ensures LowerBound(m, c, k + 1, x, y)
  {
    forall p | InnerWalk(m, p, x, y, k + 1) ensures LessEq(c[x][y], Weight(m, p)) {
      if t :| 0 < t < |p| - 1 && p[t] == k {
        var pre, suf := CutAtK(m, p, x, y, k, t);
        assert LowerBound(m, cK, k, x, k) && LowerBound(m, cK, k, k, y);
        AddMonotone(cK[x][k], Weight(m, pre), cK[k][y]);
        AddMonotone(cK[k][y], Weight(m, suf), Weight(m, pre));
        assert Add(cK[k][y], Weight(m, pre)) == Add(Weight(m, pre), cK[k][y]);
        assert Add(Weight(m, suf), Weight(m, pre)) == Add(Weight(m, pre), Weight(m, suf));
      } else {
        assert InnerWalk(m, p, x, y, k);
        assert LowerBound(m, cK, k, x, y);
      }
    }
  }

  /** Before round 0 only direct steps count, and c is the matrix itself. */
  lemma {:induction false} StartBound(m: Matrix)
    requires Square(m) && Sq(|m|, m)
    ensures Bounded(m, m, 0)
  {
    forall x, y, p | 0 <= x < |m| && 0 <= y < |m| && InnerWalk(m, p, x, y, 0)
      ensures LessEq(m[x][y], Weight(m, p))
    {
      var second := p[1];
      assert |p| == 2;
      assert p[..1] == [x];
    }
  }

  /** The starting tables satisfy the loop invariant, with the one-step walks
      as witnesses. */
  lemma {:induction false} StartInv(m: Matrix) returns (W: seq<seq<seq<nat>>>)
    requires Square(m)
    ensures Inv(m, m, Identity(|m|), W)
  {
    var n := |m|;
    W := seq(n, x => seq(n, y => [x, y]));
    forall x, y | 0 <= x < n && 0 <= y < n ensures FWalk(m, W[x][y], x, y) && Weight(m, W[x][y]) == m[x][y] {
      assert W[x][y][..1] == [x];
    }
  }

  // ---------------------------------------------------------------------
  // One cell of the triple loop.

  /** The improved cell is the weight of the walk to k joined with the walk on
      from k. */
  lemma {:induction false} RealizedStep(m: Matrix, c: Matrix, W: seq<seq<seq<nat>>>, i: nat, j: nat, k: nat)
    requires Square(m) && Sq(|m|, c) && Realized(m, c, W) && i < |m| && j < |m| && k < |m|
    ensures Sq(|m|, SetCell(c, i, j, Add(c[i][k], c[k][j])))
    ensures Realized(m, SetCell(c, i, j, Add(c[i][k], c[k][j])), SetCell(W, i, j, W[i][k] + W[k][j][1..]))
  {
    var c', W' := SetCell(c, i, j, Add(c[i][k], c[k][j])), SetCell(W, i, j, W[i][k] + W[k][j][1..]);
    WeightJoin(m, W[i][k], W[k][j]);
    forall x, y | 0 <= x < |m| && 0 <= y < |m| ensures FWalk(m, W'[x][y], x, y) && Weight(m, W'[x][y]) == c'[x][y] {
      if (x, y) != (i, j) {
        assert W'[x][y] == W[x][y] && c'[x][y] == c[x][y];
      }
    }
  }

  /** A strict decrease moves the cell off its original cost, so its new
      `paths` entry k is allowed. */
  lemma {:induction false} PathsStep(m: Matrix, c: Matrix, paths: seq<seq<nat>>, i: nat, j: nat, k: nat, v: ExtInt)
    requires Square(m) && Sq(|m|, m) && Shape(|m|, c, paths) && i < |m| && j < |m| && k < |m|
    requires PathsOk(m, c, paths) && Below(|m|, c, m) && Less(v, c[i][j])
    ensures Shape(|m|, SetCell(c, i, j, v), SetCell(paths, i, j, k))
    ensures PathsOk(m, SetCell(c, i, j, v), SetCell(paths, i, j, k)) && Below(|m|, SetCell(c, i, j, v), m)
  {
    var c', p' := SetCell(c, i, j, v), SetCell(paths, i, j, k);
    assert Less(v, m[i][j]);
    forall x, y | 0 <= x < |m| && 0 <= y < |m|
      ensures p'[x][y] < |m| && (c'[x][y] == m[x][y] ==> p'[x][y] == y) && LessEq(c'[x][y], m[x][y])
    {
      if (x, y) != (i, j) {
        assert p'[x][y] == paths[x][y] && c'[x][y] == c[x][y];
      }
    }
  }

  /** An improvement can only happen on a matrix that is not closed. */
  lemma {:induction false} UntouchedStep(m: Matrix, c: Matrix, paths: seq<seq<nat>>, i: nat, j: nat, k: nat)
    requires Square(m) && Sq(|m|, c) && i < |m| && j < |m| && k < |m|
    requires Untouched(m, c, paths) && Less(Add(c[i][k], c[k][j]), c[i][j])
    ensures !Closed(m)
  {
    assert !LessEq(c[i][j], Add(c[i][k], c[k][j]));
  }

  /** The update of cell (i, j) in round k keeps the loop invariant. */
  lemma {:induction false} StepKeeps(m: Matrix, k: nat, i: nat, j: nat, c: Matrix, paths: seq<seq<nat>>,
                                     W: seq<seq<seq<nat>>>)
    requires Inv(m, c, paths, W) && k < |m| && i < |m| && j < |m|
    requires Less(Add(c[i][k], c[k][j]), c[i][j])
    ensures Inv(m, SetCell(c, i, j, Add(c[i][k], c[k][j])), SetCell(paths, i, j, k),
                SetCell(W, i, j, W[i][k] + W[k][j][1..]))
  {
    RealizedStep(m, c, W, i, j, k);
    PathsStep(m, c, paths, i, j, k, Add(c[i][k], c[k][j]));
    UntouchedStep(m, c, paths, i, j, k);
  }

  /** After cell (i, j) every cell up to it lies at or below its cost through
      k, and all cells at or below the round's start. */
  lemma {:induction false} CellDone(n: nat, k: nat, i: nat, j: nat, cK: Matrix, c: Matrix, c': Matrix)
    requires Sq(n, cK) && Sq(n, c) && Sq(n, c') && k < n && i < n && j < n
    requires Below(n, c, cK) && DoneBefore(n, c, cK, k, i, j)
    requires c' == (if Less(Add(c[i][k], c[k][j]), c[i][j]) then SetCell(c, i, j, Add(c[i][k], c[k][j])) else c)
    ensures Below(n, c', cK) && DoneBefore(n, c', cK, k, i, j + 1)
  {
    AddMonotone(c[i][k], cK[i][k], c[k][j]);
    AddMonotone(c[k][j], cK[k][j], cK[i][k]);
    assert Add(c[k][j], cK[i][k]) == Add(cK[i][k], c[k][j]);
    assert Add(cK[k][j], cK[i][k]) == Add(cK[i][k], cK[k][j]);
    forall x, y | 0 <= x < n && 0 <= y < n ensures LessEq(c'[x][y], cK[x][y]) {
      if (x, y) != (i, j) {
        assert c'[x][y] == c[x][y];
      }
    }
    forall x, y | 0 <= x < n && 0 <= y < n && (x < i || (x == i && y < j + 1))
      ensures Through(n, c', cK, k, x, y)
    {
      if (x, y) != (i, j) {
        assert c'[x][y] == c[x][y];
        assert Through(n, c, cK, k, x, y);
      }
    }
  }

  // ---------------------------------------------------------------------
  // The algorithm.

  /** Cell (i, j) of round k: when going through k is strictly cheaper, the
      cell takes that cost and its `paths` entry becomes k; otherwise nothing
      changes. */
  method Relax(m: Matrix, k: nat, i: nat, j: nat, ghost cK: Matrix, c: Matrix, paths: seq<seq<nat>>,
               ghost W: seq<seq<seq<nat>>>)
      returns (c': Matrix, paths': seq<seq<nat>>, ghost W': seq<seq<seq<nat>>>)
    requires Inv(m, c, paths, W) && k < |m| && i < |m| && j < |m| && Sq(|m|, cK)
    requires Below(|m|, c, cK) && DoneBefore(|m|, c, cK, k, i, j)
    ensures c' == if Less(Add(c[i][k], c[k][j]), c[i][j]) then SetCell(c, i, j, Add(c[i][k], c[k][j])) else c
    ensures paths' == if Less(Add(c[i][k], c[k][j]), c[i][j]) then SetCell(paths, i, j, k) else paths
    ensures Inv(m, c', paths', W') && Below(|m|, c', cK) && DoneBefore(|m|, c', cK, k, i, j + 1)
  {
    var newCost := Add(c[i][k], c[k][j]);
    var oldCost := c[i][j];
    c', paths', W' := c, paths, W;
    if Less(newCost, oldCost) {
      StepKeeps(m, k, i, j, c, paths, W);
      c' := SetCell(c, i, j, newCost);
      paths' := SetCell(paths, i, j, k);
      W' := SetCell(W, i, j, W[i][k] + W[k][j][1..]);
    }
    CellDone(|m|, k, i, j, cK, c, c');
  }

  /** Finishing row i is starting row i + 1. */
  lemma {:induction false} RowDone(n: nat, c: Matrix, cK: Matrix, k: nat, i: nat)
    requires Sq(n, c) && Sq(n, cK) && k < n && DoneBefore(n, c, cK, k, i, n)
    ensures DoneBefore(n, c, cK, k, i + 1, 0)
  {
  }

  /** After the last row every cell is done. */
  lemma {:induction false} AllDone(n: nat, c: Matrix, cK: Matrix, k: nat)
    requires Sq(n, c) && Sq(n, cK) && k < n && DoneBefore(n, c, cK, k, n, 0)
    ensures forall x, y | 0 <= x < n && 0 <= y < n :: Through(n, c, cK, k, x, y)
  {
  }

  /** Round k in full: every pair (i, j) in row-major order. */
  method Round(m: Matrix, k: nat, c: Matrix, paths: seq<seq<nat>>, ghost W: seq<seq<seq<nat>>>)
      returns (c': Matrix, paths': seq<seq<nat>>, ghost W': seq<seq<seq<nat>>>)
    requires Inv(m, c, paths, W) && k < |m|
    ensures Inv(m, c', paths', W') && Below(|m|, c', c)
    ensures forall x, y | 0 <= x < |m| && 0 <= y < |m| :: Through(|m|, c', c, k, x, y)
  {
    var n := |m|;
    c', paths', W' := c, paths, W;
    var i := 0;
    while i < n
      invariant 0 <= i <= n
      invariant Inv(m, c', paths', W') && Below(n, c', c) && DoneBefore(n, c', c, k, i, 0)
    {
      var j := 0;
      while j < n
        invariant 0 <= j <= n
        invariant Inv(m, c', paths', W') && Below(n, c', c) && DoneBefore(n, c', c, k, i, j)
      {
        c', paths', W' := Relax(m, k, i, j, c, c', paths', W');
        j := j + 1;
      }
      RowDone(n, c', c, k, i);
      i := i + 1;
    }
    AllDone(n, c', c, k);
  }

  /** The lower bound of the finished rounds survives further decreases. */
  lemma {:induction false} NextRound(m: Matrix, cK: Matrix, c: Matrix, k: nat)
    requires Square(m) && Sq(|m|, cK) && Sq(|m|, c) && k < |m|
    requires NoNegativeCycle(m) && Bounded(m, cK, k) && Below(|m|, c, cK)
    requires forall x, y | 0 <= x < |m| && 0 <= y < |m| :: Through(|m|, c, cK, k, x, y)
    ensures Bounded(m, c, k + 1)
  {
    var k' := k + 1;
    forall x, y | 0 <= x < |m| && 0 <= y < |m| ensures LowerBound(m, c, k', x, y) {
      RoundBound(m, cK, c, k, x, y);
    }
  }

  /** After the last round every walk counts, and the realised costs are the
      shortest ones. */
  lemma {:induction false} FinalShortest(m: Matrix, c: Matrix, W: seq<seq<seq<nat>>>)
    requires Square(m) && Sq(|m|, c) && Realized(m, c, W) && Bounded(m, c, |m|)
    ensures forall x, y | 0 <= x < |m| && 0 <= y < |m| :: IsShortest(m, x, y, c[x][y])
  {
    forall x, y | 0 <= x < |m| && 0 <= y < |m| ensures IsShortest(m, x, y, c[x][y]) {
      assert FWalk(m, W[x][y], x, y) && Weight(m, W[x][y]) == c[x][y];
      forall p | FWalk(m, p, x, y) ensures LessEq(c[x][y], Weight(m, p)) {
        assert InnerWalk(m, p, x, y, |m|);
        assert LowerBound(m, c, |m|, x, y);
      }
    }
  }

  /** The walk to k joined with the walk on from k bounds the direct cost. */
  lemma {:induction false} TriangleAt(m: Matrix, c: Matrix, W: seq<seq<seq<nat>>>, i: nat, j: nat, k: nat)
    requires Square(m) && Sq(|m|, c) && Realized(m, c, W) && Bounded(m, c, |m|)
    requires i < |m| && j < |m| && k < |m|
    ensures LessEq(c[i][j], Add(c[i][k], c[k][j]))
  {
    WeightJoin(m, W[i][k], W[k][j]);
    var p := W[i][k] + W[k][j][1..];
    assert InnerWalk(m, p, i, j, |m|);
    assert LowerBound(m, c, |m|, i, j);
  }

  /** Realised costs satisfy the triangle inequality once they are shortest. */
  lemma {:induction false} FinalClosed(m: Matrix, c: Matrix, W: seq<seq<seq<nat>>>)
    requires Square(m) && Sq(|m|, c) && Realized(m, c, W) && Bounded(m, c, |m|)
    ensures Closed(c)
  {
    forall i, j, k | 0 <= i < |m| && 0 <= j < |m| && 0 <= k < |m|
      ensures LessEq(c[i][j], Add(c[i][k], c[k][j]))
    {
      TriangleAt(m, c, W, i, j, k);
    }
  }

  /** c[i][j] is the weight of some walk from i to j. */
  ghost predicate RealizableAt(m: Matrix, c: Matrix, i: nat, j: nat)
    requires Square(m) && Sq(|m|, c) && i < |m| && j < |m|
  {
    exists p :: FWalk(m, p, i, j) && Weight(m, p) == c[i][j]
  }

  /** Every cost is the weight of some walk. */
  lemma {:induction false} FinalRealized(m: Matrix, c: Matrix, W: seq<seq<seq<nat>>>)
    requires Square(m) && Sq(|m|, c) && Realized(m, c, W)
    ensures forall i, j | 0 <= i < |m| && 0 <= j < |m| :: RealizableAt(m, c, i, j)
  {
    forall i, j | 0 <= i < |m| && 0 <= j < |m| ensures RealizableAt(m, c, i, j) {
      assert FWalk(m, W[i][j], i, j) && Weight(m, W[i][j]) == c[i][j];
    }
  }

  /** `floyd` on a cost matrix: the input is a value and stays as it was. */
  method FloydMatrix(m: Matrix) returns (cost: Matrix, paths: seq<seq<nat>>)
    requires Square(m)
    ensures Shape(|m|, cost, paths)
    ensures forall i, j | 0 <= i < |m| && 0 <= j < |m| ::
              paths[i][j] < |m| && LessEq(cost[i][j], m[i][j])
              && (cost[i][j] == m[i][j] ==> paths[i][j] == j)
    ensures forall i, j | 0 <= i < |m| && 0 <= j < |m| :: RealizableAt(m, cost, i, j)
    ensures NoNegativeCycle(m) ==>
              (forall i, j | 0 <= i < |m| && 0 <= j < |m| :: IsShortest(m, i, j, cost[i][j]))
              && Closed(cost)
    ensures Closed(m) ==> cost == m && paths == Identity(|m|)
  {
    var n := |m|;
    cost := m;
    paths := Identity(n);
    ghost var W := StartInv(m);
    if NoNegativeCycle(m) {
      StartBound(m);
    }
    var k := 0;
    while k < n
      invariant 0 <= k <= n
      invariant Inv(m, cost, paths, W)
      invariant NoNegativeCycle(m) ==> Bounded(m, cost, k)
    {
      ghost var cK := cost;
      cost, paths, W := Round(m, k, cost, paths, W);
      if NoNegativeCycle(m) {
        NextRound(m, cK, cost, k);
      }
      k := k + 1;
    }
    FinalRealized(m, cost, W);
    if NoNegativeCycle(m) {
      FinalShortest(m, cost, W);
      FinalClosed(m, cost, W);
    }
  }

  /** `floyd(G)`: the graph's matrix is copied, never written. */
  method Floyd(g: Graphs.Graph) returns (cost: Matrix, paths: seq<seq<nat>>)
    requires g.Valid()
    ensures Shape(g.n, cost, paths)
    ensures forall i, j | 0 <= i < g.n && 0 <= j < g.n ::
              paths[i][j] < g.n && LessEq(cost[i][j], g.matrix[i][j])
              && (cost[i][j] == g.matrix[i][j] ==> paths[i][j] == j)
    ensures forall i, j | 0 <= i < g.n && 0 <= j < g.n :: RealizableAt(g.matrix, cost, i, j)
    ensures NoNegativeCycle(g.matrix) ==>
              (forall i, j | 0 <= i < g.n && 0 <= j < g.n :: IsShortest(g.matrix, i, j, cost[i][j]))
              && Closed(cost)
    ensures Closed(g.matrix) ==> cost == g.matrix && paths == Identity(g.n)
  {
    cost, paths := FloydMatrix(g.matrix);
  }

  /** Running `floyd` again on its own result changes nothing. */
  method FloydTwice(m: Matrix) returns (once: Matrix, twice: Matrix, paths2: seq<seq<nat>>)
    requires Square(m) && NoNegativeCycle(m)
    ensures twice == once && paths2 == Identity(|m|)
  {
    var paths1;
    once, paths1 := FloydMatrix(m);
    twice, paths2 := FloydMatrix(once);
  }
}
