/** Cost matrices and walks through them, shared by the shortest-path
    algorithms. A walk is a non-empty sequence of vertices; its weight is the
    sum of the matrix cells between consecutive vertices. */
module Walks {
  import opened ExtInts

  type Matrix = seq<seq<ExtInt>>

  /** An n x n table. */
  ghost predicate Square(m: Matrix) {
    forall i | 0 <= i < |m| :: |m[i]| == |m|
  }

  /** A walk whose vertices all index the matrix. */
  ghost predicate IsWalk(m: Matrix, p: seq<nat>) {
    |p| >= 1 && forall t | 0 <= t < |p| :: p[t] < |m|
  }

  ghost function Weight(m: Matrix, p: seq<nat>): ExtInt
    requires Square(m) && IsWalk(m, p)
    decreases |p|
  {
    if |p| == 1 then Fin(0)
    else Add(Weight(m, p[..|p| - 1]), m[p[|p| - 2]][p[|p| - 1]])
  }

  /** Extending a walk by one vertex adds the cell to it. */
  lemma {:induction false} WeightSnoc(m: Matrix, p: seq<nat>, x: nat)
    requires Square(m) && IsWalk(m, p) && x < |m|
    ensures IsWalk(m, p + [x])
    ensures Weight(m, p + [x]) == Add(Weight(m, p), m[p[|p| - 1]][x])
  {
    var q := p + [x];
    assert q[..|q| - 1] == p;
  }

  /** A walk split at position t weighs what its two halves weigh together. */
  lemma {:induction false} WeightSplit(m: Matrix, p: seq<nat>, t: nat)
    requires Square(m) && IsWalk(m, p) && t < |p|
    ensures IsWalk(m, p[..t + 1]) && IsWalk(m, p[t..])
    ensures Weight(m, p) == Add(Weight(m, p[..t + 1]), Weight(m, p[t..]))
    decreases |p|
  {
    if t == |p| - 1 {
      assert p[..t + 1] == p;
      assert p[t..] == [p[t]];
    } else {
      var q := p[..|p| - 1];
      WeightSplit(m, q, t);
      assert q[..t + 1] == p[..t + 1];
      assert q[t..] == p[t..|p| - 1];
      assert p[t..][..|p[t..]| - 1] == p[t..|p| - 1];
      AddAssoc(Weight(m, p[..t + 1]), Weight(m, q[t..]), m[p[|p| - 2]][p[|p| - 1]]);
    }
  }

  /** Gluing a walk ending at x to a walk starting at x. */
  lemma {:induction false} WeightJoin(m: Matrix, p: seq<nat>, q: seq<nat>)
    requires Square(m) && IsWalk(m, p) && IsWalk(m, q) && p[|p| - 1] == q[0]
    ensures IsWalk(m, p + q[1..])
    ensures Weight(m, p + q[1..]) == Add(Weight(m, p), Weight(m, q))
  {
    var r := p + q[1..];
    WeightSplit(m, r, |p| - 1);
    assert r[..|p|] == p;
    assert r[|p| - 1..] == q;
  }
}
