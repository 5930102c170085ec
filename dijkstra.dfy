/** Dijkstra's single-source shortest paths over a cost matrix in which a cell
    equal to -1 means "no arrow". The frontier is a priority queue of
    (distance, vertex) pairs popped in Python's tuple order. */
module Dijkstra {
  import opened ExtInts
  import opened Walks
  import Graphs

  /** A frontier entry `(dist, v)`. */
  type Entry = (int, nat)

  /** Python's ordering of `(dist, v)` tuples. */
  predicate EntryLe(a: Entry, b: Entry) {
    a.0 < b.0 || (a.0 == b.0 && a.1 <= b.1)
  }

  predicate IsMin(e: Entry, pq: multiset<Entry>) {
    e in pq && forall x | x in pq :: EntryLe(e, x)
  }

  /** Every entry of pq other than x is still there once x is taken out. */
  lemma {:induction false} InRest(pq: multiset<Entry>, x: Entry, z: Entry)
    requires z in pq && z != x
    ensures z in pq - multiset{x}
  {
  }

  /** A non-empty frontier has a least entry, so `get` always has an answer. */
  lemma {:induction false} MinExists(pq: multiset<Entry>)
    requires pq != multiset{}
    ensures exists e :: IsMin(e, pq)
    decreases |pq|
  {
    var x :| x in pq;
    var rest := pq - multiset{x};
    if rest == multiset{} {
      forall z | z in pq ensures EntryLe(x, z) {
        if z != x {
          InRest(pq, x, z);
          assert false;
        }
      }
      assert IsMin(x, pq);
    } else {
      MinExists(rest);
      var y :| IsMin(y, rest);
      var b := if EntryLe(x, y) then x else y;
      forall z | z in pq ensures EntryLe(b, z) {
        if z != x {
          InRest(pq, x, z);
        }
      }
      assert IsMin(b, pq);
    }
  }

  /** The cell is an arrow for Dijkstra: anything but the -1 sentinel. */
  predicate Usable(c: ExtInt) {
    c != Fin(-1)
  }

  /** No negative arrows: every cell is -1, non-negative or infinite. */
  ghost predicate NonNegative(m: Matrix) {
    forall i, j | 0 <= i < |m| && 0 <= j < |m[i]| :: m[i][j] == Fin(-1) || LessEq(Fin(0), m[i][j])
  }

  /** A walk from s to t that only follows usable cells. */
  ghost predicate DWalk(m: Matrix, p: seq<nat>, s: nat, t: nat) {
    IsWalk(m, p) && p[0] == s && p[|p| - 1] == t && Square(m)
    && forall k | 0 <= k < |p| - 1 :: Usable(m[p[k]][p[k + 1]])
  }

  /** d is the distance from s to v: no walk is cheaper, and a finite d is the
      weight of some walk. */
  ghost predicate IsShortest(m: Matrix, s: nat, v: nat, d: ExtInt)
    requires Square(m)
  {
    (forall p | DWalk(m, p, s, v) :: LessEq(d, Weight(m, p)))
    && (d.Fin? ==> exists p :: DWalk(m, p, s, v) && Weight(m, p) == d)
  }

  /** No usable arrow can improve any cost. */
  ghost predicate Relaxed(m: Matrix, costs: seq<ExtInt>)
    requires Square(m) && |costs| == |m|
  {
    forall u, v | 0 <= u < |m| && 0 <= v < |m| && Usable(m[u][v]) ::
      LessEq(costs[v], Add(costs[u], m[u][v]))
  }

  /** Costs that are relaxed and 0 at s bound every walk from s from below. */
  lemma {:induction false} RelaxedIsLowerBound(m: Matrix, costs: seq<ExtInt>, s: nat, p: seq<nat>, t: nat)
    requires Square(m) && |costs| == |m| && s < |m|
    requires Relaxed(m, costs) && costs[s] == Fin(0)
    requires DWalk(m, p, s, t)
    ensures LessEq(costs[t], Weight(m, p))
    decreases |p|
  {
    if |p| > 1 {
      var q := p[..|p| - 1];
      var x := p[|p| - 2];
      assert DWalk(m, q, s, x);
      RelaxedIsLowerBound(m, costs, s, q, x);
      AddMonotone(costs[x], Weight(m, q), m[x][t]);
    }
  }

  /** The distance is unique, so every relaxed, realisable cost table is it. */
  lemma {:induction false} ShortestUnique(m: Matrix, s: nat, v: nat, d1: ExtInt, d2: ExtInt)
    requires Square(m) && IsShortest(m, s, v, d1) && IsShortest(m, s, v, d2)
    ensures d1 == d2
  {
    if d1.Fin? {
      var p :| DWalk(m, p, s, v) && Weight(m, p) == d1;
      assert LessEq(d2, d1);
    }
    if d2.Fin? {
      var p :| DWalk(m, p, s, v) && Weight(m, p) == d2;
      assert LessEq(d1, d2);
    }
  }

  /** A vertex no finite walk reaches keeps cost +infinity, and only those. */
  lemma {:induction false} UnreachableIsInfinite(m: Matrix, s: nat, v: nat, d: ExtInt)
    requires Square(m) && IsShortest(m, s, v, d)
    ensures d == Inf <==> forall p | DWalk(m, p, s, v) :: Weight(m, p) == Inf
  {
  }

  // ---------------------------------------------------------------------
  // Ghost bookkeeping: every queued distance and every finite cost is the
  // weight of a walk from the start vertex.

  /** Every frontier entry (d, v) is the weight of a walk from s to v. */
  ghost predicate FrontierWitnessed(m: Matrix, s: nat, pq: multiset<Entry>, W: map<Entry, seq<nat>>)
    requires Square(m)
  {
    forall e | e in pq :: e.1 < |m| && e in W && DWalk(m, W[e], s, e.1) && Weight(m, W[e]) == Fin(e.0)
  }

  /** Every finite cost is the weight of a walk from s. */
  ghost predicate CostsWitnessed(m: Matrix, s: nat, c: seq<ExtInt>, CW: map<nat, seq<nat>>)
    requires Square(m) && |c| == |m|
  {
    forall v | 0 <= v < |m| && c[v].Fin? :: v in CW && DWalk(m, CW[v], s, v) && Weight(m, CW[v]) == c[v]
  }

  ghost predicate Witnessed(m: Matrix, s: nat, c: seq<ExtInt>, pq: multiset<Entry>,
                            W: map<Entry, seq<nat>>, CW: map<nat, seq<nat>>)
    requires Square(m)
  {
    |c| == |m| && FrontierWitnessed(m, s, pq, W) && CostsWitnessed(m, s, c, CW)
  }

  /** Relaxing u -> v along a walk to u of weight dist gives a walk to v. */
  lemma {:induction false} ImproveWitnessed(m: Matrix, s: nat, c: seq<ExtInt>, pq: multiset<Entry>,
                         W: map<Entry, seq<nat>>, CW: map<nat, seq<nat>>,
                         u: nat, dist: int, wu: seq<nat>, v: nat, d: ExtInt)
    requires Square(m) && u < |m| && v < |m| && Usable(m[u][v])
    requires DWalk(m, wu, s, u) && Weight(m, wu) == Fin(dist)
    requires Witnessed(m, s, c, pq, W, CW) && d == Add(Fin(dist), m[u][v]) && d.Fin?
    ensures Witnessed(m, s, c[v := d], pq + multiset{(d.v, v)}, W[(d.v, v) := wu + [v]], CW[v := wu + [v]])
  {
    WeightSnoc(m, wu, v);
    assert DWalk(m, wu + [v], s, v);
  }

  /** Taking an entry out of the frontier keeps it witnessed, and the entry
      itself comes with its walk. */
  lemma {:induction false} PopWitnessed(m: Matrix, s: nat, c: seq<ExtInt>, pq: multiset<Entry>,
                     W: map<Entry, seq<nat>>, CW: map<nat, seq<nat>>, e: Entry)
    requires Square(m) && Witnessed(m, s, c, pq, W, CW) && e in pq
    ensures e.1 < |m| && e in W && DWalk(m, W[e], s, e.1) && Weight(m, W[e]) == Fin(e.0)
    ensures Witnessed(m, s, c, pq - multiset{e}, W, CW)
  {
  }

  // ---------------------------------------------------------------------
  // The inner loop of `__run`.

  /** No frontier entry undercuts the cost of its vertex. */
  ghost predicate EntriesAboveCosts(c: seq<ExtInt>, pq: multiset<Entry>) {
    forall e | e in pq :: e.1 < |c| && LessEq(c[e.1], Fin(e.0))
  }

  /** Lowering c[v] to a finite d and queueing (d, v) keeps the entries
      above the costs. */
  lemma {:induction false} LowerAbove(c: seq<ExtInt>, pq: multiset<Entry>, v: nat, d: ExtInt)
    requires EntriesAboveCosts(c, pq) && v < |c| && d.Fin? && LessEq(d, c[v])
    ensures EntriesAboveCosts(c[v := d], pq + multiset{(d.v, v)})
  {
  }

  /** What the inner loop keeps for one vertex x after looking at the arrows
      u -> y for every y < v: its cost never rose, it moved only if x is
      unvisited and already looked at, a moved cost is queued, and a looked-at
      usable arrow u -> x cannot improve it. */
  ghost predicate CostKept(m: Matrix, u: nat, dist: int, U: set<nat>, c0: seq<ExtInt>, v: nat,
                           c: seq<ExtInt>, pq: multiset<Entry>, x: nat)
    requires Square(m) && |c0| == |m| && |c| == |m| && u < |m| && x < |m|
  {
    && LessEq(c[x], c0[x])
    && ((x in U || x >= v) ==> c[x] == c0[x])
    && (c[x] != c0[x] ==> c[x].Fin? && (c[x].v, x) in pq)
    && ((x < v && x !in U && Usable(m[u][x])) ==> LessEq(c[x], Add(Fin(dist), m[u][x])))
  }

  /** What holds after the inner loop has looked at the arrows u -> y for
      every y < v, starting from the cost table c0 and the frontier pq0;
      `added` is what it pushed. */
  ghost predicate RelaxedUpTo(m: Matrix, u: nat, dist: int, U: set<nat>, c0: seq<ExtInt>,
                              pq0: multiset<Entry>, stale: bool, v: nat, c: seq<ExtInt>, pq: multiset<Entry>,
                              added: multiset<Entry>)
    requires Square(m) && |c0| == |m| && u < |m|
  {
    && v <= |m| && |c| == |m| && EntriesAboveCosts(c, pq)
    && (forall x | 0 <= x < |m| :: CostKept(m, u, dist, U, c0, v, c, pq, x))
    && pq == pq0 + added
    && (forall e | e in added :: e.0 >= dist)
    && (stale ==> c == c0 && added == multiset{})
  }

  /** Before the inner loop nothing has moved. */
  lemma {:induction false} RelaxStart(m: Matrix, u: nat, dist: int, U: set<nat>, c0: seq<ExtInt>, pq0: multiset<Entry>, stale: bool)
    requires Square(m) && |c0| == |m| && u < |m| && EntriesAboveCosts(c0, pq0)
    ensures RelaxedUpTo(m, u, dist, U, c0, pq0, stale, 0, c0, pq0, multiset{})
  {
    assert pq0 + multiset{} == pq0;
    forall x | 0 <= x < |m| ensures CostKept(m, u, dist, U, c0, 0, c0, pq0, x) {
    }
  }

  /** The per-vertex part of ImproveKeeps. */
  lemma {:induction false} ImproveCostsKept(m: Matrix, u: nat, dist: int, U: set<nat>, c0: seq<ExtInt>, v: nat,
                         c: seq<ExtInt>, pq: multiset<Entry>, d: ExtInt,
                         v': nat, c': seq<ExtInt>, pq': multiset<Entry>)
    requires Square(m) && |c0| == |m| && |c| == |m| && u < |m| && v < |m|
    requires forall x | 0 <= x < |m| :: CostKept(m, u, dist, U, c0, v, c, pq, x)
    requires v !in U && d == Add(Fin(dist), m[u][v]) && d.Fin? && Less(d, c[v])
    requires v' == v + 1 && c' == c[v := d] && pq' == pq + multiset{(d.v, v)}
    ensures forall x | 0 <= x < |m| :: CostKept(m, u, dist, U, c0, v', c', pq', x)
  {
    forall x | 0 <= x < |m| ensures CostKept(m, u, dist, U, c0, v', c', pq', x) {
      assert CostKept(m, u, dist, U, c0, v, c, pq, x);
    }
  }

  /** A strict improvement of v through u keeps the inner-loop invariant. */
  lemma {:induction false} ImproveKeeps(m: Matrix, u: nat, dist: int, U: set<nat>, c0: seq<ExtInt>, pq0: multiset<Entry>,
                     stale: bool, v: nat, c: seq<ExtInt>, pq: multiset<Entry>, added: multiset<Entry>)
    requires Square(m) && NonNegative(m) && |c0| == |m| && u < |m| && v < |m|
    requires stale ==> forall y | 0 <= y < |m| && y !in U && Usable(m[u][y]) ::
                          LessEq(c0[y], Add(Fin(dist), m[u][y]))
    requires RelaxedUpTo(m, u, dist, U, c0, pq0, stale, v, c, pq, added)
    requires Usable(m[u][v]) && v !in U && Less(Add(Fin(dist), m[u][v]), c[v])
    ensures var d := Add(Fin(dist), m[u][v]);
            d.Fin? && d.v >= dist &&
            RelaxedUpTo(m, u, dist, U, c0, pq0, stale, v + 1, c[v := d], pq + multiset{(d.v, v)},
                        added + multiset{(d.v, v)})
  {
    var d := Add(Fin(dist), m[u][v]);
    assert CostKept(m, u, dist, U, c0, v, c, pq, v);
    LowerAbove(c, pq, v, d);
    ImproveCostsKept(m, u, dist, U, c0, v, c, pq, d, v + 1, c[v := d], pq + multiset{(d.v, v)});
  }

  /** Passing over v without a change keeps the inner-loop invariant. */
  lemma {:induction false} SkipKeeps(m: Matrix, u: nat, dist: int, U: set<nat>, c0: seq<ExtInt>, pq0: multiset<Entry>,
                  stale: bool, v: nat, c: seq<ExtInt>, pq: multiset<Entry>, added: multiset<Entry>)
    requires Square(m) && |c0| == |m| && u < |m| && v < |m|
    requires RelaxedUpTo(m, u, dist, U, c0, pq0, stale, v, c, pq, added)
    requires Usable(m[u][v]) && v !in U ==> !Less(Add(Fin(dist), m[u][v]), c[v])
    ensures RelaxedUpTo(m, u, dist, U, c0, pq0, stale, v + 1, c, pq, added)
  {
    var v' := v + 1;
    forall x | 0 <= x < |m| ensures CostKept(m, u, dist, U, c0, v', c, pq, x) {
      assert CostKept(m, u, dist, U, c0, v, c, pq, x);
    }
  }

  /** One turn of the inner loop: relax the arrow u -> v. */
  method RelaxArrow(m: Matrix, s: nat, u: nat, dist: int, U: set<nat>, c0: seq<ExtInt>, pq0: multiset<Entry>,
                    ghost wu: seq<nat>, ghost stale: bool, v: nat,
                    c: seq<ExtInt>, pq: multiset<Entry>, ghost added: multiset<Entry>,
                    ghost W: map<Entry, seq<nat>>, ghost CW: map<nat, seq<nat>>)
    returns (c': seq<ExtInt>, pq': multiset<Entry>, ghost added': multiset<Entry>,
             ghost W': map<Entry, seq<nat>>, ghost CW': map<nat, seq<nat>>)
    requires Square(m) && NonNegative(m) && |c0| == |m| && u < |m| && v < |m|
    requires DWalk(m, wu, s, u) && Weight(m, wu) == Fin(dist)
    requires stale ==> forall y | 0 <= y < |m| && y !in U && Usable(m[u][y]) ::
                          LessEq(c0[y], Add(Fin(dist), m[u][y]))
    requires RelaxedUpTo(m, u, dist, U, c0, pq0, stale, v, c, pq, added)
    requires Witnessed(m, s, c, pq, W, CW)
    ensures RelaxedUpTo(m, u, dist, U, c0, pq0, stale, v + 1, c', pq', added')
    ensures Witnessed(m, s, c', pq', W', CW')
    ensures var d := Add(Fin(dist), m[u][v]);
            if Usable(m[u][v]) && v !in U && Less(d, c[v])
            then d.Fin? && c' == c[v := d] && pq' == pq + multiset{(d.v, v)}
            else c' == c && pq' == pq
  {
    c', pq', added', W', CW' := c, pq, added, W, CW;
    var w := m[u][v];
    if w != Fin(-1) && v !in U {
      var oldCost := c[v];
      var newCost := Add(Fin(dist), m[u][v]);
      if Less(newCost, oldCost) {
        ImproveKeeps(m, u, dist, U, c0, pq0, stale, v, c, pq, added);
        ImproveWitnessed(m, s, c, pq, W, CW, u, dist, wu, v, newCost);
        c' := c[v := newCost];
        pq' := pq + multiset{(newCost.v, v)};
        added' := added + multiset{(newCost.v, v)};
        W' := W[(newCost.v, v) := wu + [v]];
        CW' := CW[v := wu + [v]];
        return;
      }
    }
    SkipKeeps(m, u, dist, U, c0, pq0, stale, v, c, pq, added);
  }

  /** The inner `for v` loop of `__run` for the popped entry (dist, u), on
      the cost table c0: every usable arrow u -> v into an unvisited v is
      relaxed, and each strict improvement of a cost pushes (new cost, v).
      When `stale` holds no arrow can improve anything, and nothing changes. */
  method RelaxFrom(m: Matrix, s: nat, u: nat, dist: int, U: set<nat>, c0: seq<ExtInt>, pq0: multiset<Entry>,
                   ghost W0: map<Entry, seq<nat>>, ghost CW0: map<nat, seq<nat>>, ghost wu: seq<nat>,
                   ghost stale: bool)
    returns (c: seq<ExtInt>, pq: multiset<Entry>, ghost added: multiset<Entry>,
             ghost W: map<Entry, seq<nat>>, ghost CW: map<nat, seq<nat>>)
    requires Square(m) && NonNegative(m) && |c0| == |m| && u < |m|
    requires DWalk(m, wu, s, u) && Weight(m, wu) == Fin(dist)
    requires Witnessed(m, s, c0, pq0, W0, CW0) && EntriesAboveCosts(c0, pq0)
    requires stale ==> forall y | 0 <= y < |m| && y !in U && Usable(m[u][y]) ::
                          LessEq(c0[y], Add(Fin(dist), m[u][y]))
    ensures RelaxedUpTo(m, u, dist, U, c0, pq0, stale, |m|, c, pq, added)
    ensures Witnessed(m, s, c, pq, W, CW)
  {
    c, pq, added, W, CW := c0, pq0, multiset{}, W0, CW0;
    RelaxStart(m, u, dist, U, c0, pq0, stale);
    var v := 0;
    while v < |m|
      invariant v <= |m|
      invariant RelaxedUpTo(m, u, dist, U, c0, pq0, stale, v, c, pq, added)
      invariant Witnessed(m, s, c, pq, W, CW)
    {
      c, pq, added, W, CW := RelaxArrow(m, s, u, dist, U, c0, pq0, wu, stale, v, c, pq, added, W, CW);
      v := v + 1;
    }
  }

  // ---------------------------------------------------------------------
  // The outer loop of `__run`.

  /** What the outer loop keeps for one vertex x, where P holds the
      vertices popped so far and `last` the distance popped last: an
      unpopped finite cost is queued, a popped cost is finite and at most
      `last`, and no usable arrow out of a popped vertex can improve a cost. */
  ghost predicate Settled(m: Matrix, c: seq<ExtInt>, pq: multiset<Entry>, P: set<nat>, last: int, x: nat)
    requires Square(m) && |c| == |m| && x < |m|
  {
    && (x !in P && c[x].Fin? ==> (c[x].v, x) in pq)
    && (x in P ==> c[x].Fin? && c[x].v <= last)
    && (x in P ==> forall y | 0 <= y < |m| && Usable(m[x][y]) :: LessEq(c[y], Add(c[x], m[x][y])))
  }

  /** The invariant of the outer loop of `__run`, walks aside. */
  ghost predicate Searching(m: Matrix, s: nat, c: seq<ExtInt>, pq: multiset<Entry>, U: set<nat>, P: set<nat>,
                            last: int)
    requires Square(m)
  {
    && s < |m| && |c| == |m| && c[s] == Fin(0) && last >= 0
    && U == P + {s} && (forall x | x in U :: x < |m|)
    && EntriesAboveCosts(c, pq)
    && (forall e | e in pq :: e.0 >= last)
    && (forall x | 0 <= x < |m| :: Settled(m, c, pq, P, last, x))
  }

  /** The unpopped vertices below n, the outer loop's termination measure. */
  function Unpopped(n: nat, P: set<nat>): set<nat>
  {
    set v | 0 <= v < n && v !in P
  }

  /** A turn of the outer loop either pops a vertex for the first time, which
      shrinks the unpopped set, or pops a stale entry and pushes nothing,
      which shrinks the frontier. */
  lemma {:induction false} VisitProgress(n: nat, P: set<nat>, P': set<nat>, pq: multiset<Entry>, e: Entry,
                      pq': multiset<Entry>, added: multiset<Entry>)
    requires e in pq && e.1 < n && P' == P + {e.1}
    requires pq' == (pq - multiset{e}) + added && (e.1 in P ==> added == multiset{})
    ensures P' != P ==> Unpopped(n, P') < Unpopped(n, P)
    ensures P' == P ==> |pq'| < |pq|
  {
    if e.1 in P {
      assert pq' == pq - multiset{e};
    } else {
      assert e.1 in Unpopped(n, P);
    }
  }

  /** The initial frontier holds (0, s) alone. */
  lemma {:induction false} SearchStart(m: Matrix, s: nat, c: seq<ExtInt>)
    requires Square(m) && s < |m| && |c| == |m|
    requires forall v | 0 <= v < |m| :: c[v] == if v == s then Fin(0) else Inf
    ensures Searching(m, s, c, multiset{(0, s)}, {s}, {}, 0)
    ensures Witnessed(m, s, c, multiset{(0, s)}, map[(0, s) := [s]], map[s := [s]])
  {
    assert DWalk(m, [s], s, s);
    forall x | 0 <= x < |m| ensures Settled(m, c, multiset{(0, s)}, {}, 0, x) {
    }
  }

  /** What popping the least entry e = (dist, u) tells: dist is at least
      `last`; a first pop of u finds cost[u] == dist; a repeated pop finds
      every arrow out of u into an unvisited vertex already relaxed. */
  lemma {:induction false} PopFacts(m: Matrix, s: nat, c: seq<ExtInt>, pq: multiset<Entry>, U: set<nat>, P: set<nat>,
                 last: int, e: Entry)
    requires Square(m) && NonNegative(m) && Searching(m, s, c, pq, U, P, last) && IsMin(e, pq)
    ensures e.1 < |m| && e.0 >= last
    ensures e.1 !in P ==> c[e.1] == Fin(e.0)
    ensures e.1 in P ==> forall y | 0 <= y < |m| && y !in U + {e.1} && Usable(m[e.1][y]) ::
                           LessEq(c[y], Add(Fin(e.0), m[e.1][y]))
    ensures EntriesAboveCosts(c, pq - multiset{e})
  {
    var u := e.1;
    assert Settled(m, c, pq, P, last, u);
    if u !in P {
      assert (c[u].v, u) in pq;
      assert EntryLe(e, (c[u].v, u));
    } else {
      forall y | 0 <= y < |m| && y !in U + {u} && Usable(m[u][y])
        ensures LessEq(c[y], Add(Fin(e.0), m[u][y]))
      {
        AddMonotone(c[u], Fin(e.0), m[u][y]);
      }
    }
  }

  /** After a turn, an arrow x -> y out of a popped vertex cannot improve y. */
  lemma {:induction false} SettleArrow(m: Matrix, s: nat, c: seq<ExtInt>, pq: multiset<Entry>, P: set<nat>, last: int,
                    u: nat, dist: int, c': seq<ExtInt>, pq': multiset<Entry>, U': set<nat>, x: nat, y: nat)
    requires Square(m) && NonNegative(m) && |c| == |m| && |c'| == |m|
    requires x < |m| && y < |m| && u < |m| && s < |m| && c[s] == Fin(0)
    requires 0 <= last <= dist && (u !in P ==> c[u] == Fin(dist))
    requires U' == P + {s, u} && x in P + {u} && Usable(m[x][y])
    requires Settled(m, c, pq, P, last, x) && Settled(m, c, pq, P, last, y)
    requires CostKept(m, u, dist, U', c, |m|, c', pq', x) && CostKept(m, u, dist, U', c, |m|, c', pq', y)
    ensures LessEq(c'[y], Add(c'[x], m[x][y]))
  {
    if x in P {
      LessEqTrans(c'[y], c[y], Add(c[x], m[x][y]));
    }
  }

  /** After a turn, vertex x satisfies the outer-loop invariant again. */
  lemma {:induction false} SettleVertex(m: Matrix, s: nat, c: seq<ExtInt>, pq: multiset<Entry>, P: set<nat>, last: int,
                     e: Entry, c': seq<ExtInt>, pq': multiset<Entry>, added: multiset<Entry>,
                     U': set<nat>, P': set<nat>, x: nat)
    requires Square(m) && NonNegative(m) && |c| == |m| && |c'| == |m|
    requires x < |m| && e.1 < |m| && s < |m| && c[s] == Fin(0) && e in pq
    requires 0 <= last <= e.0 && (e.1 !in P ==> c[e.1] == Fin(e.0))
    requires U' == P + {s, e.1} && P' == P + {e.1} && pq' == (pq - multiset{e}) + added
    requires forall y | 0 <= y < |m| :: Settled(m, c, pq, P, last, y)
    requires forall y | 0 <= y < |m| :: CostKept(m, e.1, e.0, U', c, |m|, c', pq', y)
    ensures Settled(m, c', pq', P', e.0, x)
  {
    assert Settled(m, c, pq, P, last, x);
    assert CostKept(m, e.1, e.0, U', c, |m|, c', pq', x);
    if x !in P' && c'[x].Fin? && c'[x] == c[x] {
      InRest(pq, e, (c[x].v, x));
    }
    if x in P' {
      forall y | 0 <= y < |m| && Usable(m[x][y]) ensures LessEq(c'[y], Add(c'[x], m[x][y])) {
        SettleArrow(m, s, c, pq, P, last, e.1, e.0, c', pq', U', x, y);
      }
    }
  }

  /** Every entry left after popping the least one and pushing entries no
      smaller than it is at least the popped distance. */
  lemma {:induction false} PoppedIsLeast(pq: multiset<Entry>, e: Entry, pq': multiset<Entry>, added: multiset<Entry>)
    requires IsMin(e, pq) && pq' == (pq - multiset{e}) + added
    requires forall f | f in added :: f.0 >= e.0
    ensures forall f | f in pq' :: f.0 >= e.0
  {
    forall f | f in pq' ensures f.0 >= e.0 {
      if f !in added {
        assert f in pq;
        assert EntryLe(e, f);
      }
    }
  }

  /** One turn of the outer loop keeps its invariant. */
  lemma {:induction false} VisitKeeps(m: Matrix, s: nat, c: seq<ExtInt>, pq: multiset<Entry>, U: set<nat>, P: set<nat>,
                   last: int, e: Entry, c': seq<ExtInt>, pq': multiset<Entry>, added: multiset<Entry>,
                   U': set<nat>, P': set<nat>)
    requires Square(m) && NonNegative(m) && Searching(m, s, c, pq, U, P, last) && IsMin(e, pq)
    requires e.1 < |m| && e.0 >= last && (e.1 !in P ==> c[e.1] == Fin(e.0))
    requires U' == U + {e.1} && P' == P + {e.1}
    requires RelaxedUpTo(m, e.1, e.0, U', c, pq - multiset{e}, e.1 in P, |m|, c', pq', added)
    ensures Searching(m, s, c', pq', U', P', e.0)
  {
    assert U' == P + {s, e.1};
    forall x | 0 <= x < |m| ensures Settled(m, c', pq', P', e.0, x) {
      SettleVertex(m, s, c, pq, P, last, e, c', pq', added, U', P', x);
    }
    assert CostKept(m, e.1, e.0, U', c, |m|, c', pq', s);
    PoppedIsLeast(pq, e, pq', added);
  }

  /** One turn of the outer loop of `__run`: pop the least entry (dist, u),
      add u to the visited set and relax every arrow out of u. Either u is
      popped for the first time or the frontier shrinks and nothing else
      changes. */
  method Visit(m: Matrix, s: nat, c: seq<ExtInt>, pq: multiset<Entry>, U: set<nat>, ghost P: set<nat>,
               ghost last: int, ghost W: map<Entry, seq<nat>>, ghost CW: map<nat, seq<nat>>)
    returns (c': seq<ExtInt>, pq': multiset<Entry>, U': set<nat>, ghost P': set<nat>,
             ghost last': int, ghost W': map<Entry, seq<nat>>, ghost CW': map<nat, seq<nat>>)
    requires Square(m) && NonNegative(m) && pq != multiset{}
    requires Searching(m, s, c, pq, U, P, last) && Witnessed(m, s, c, pq, W, CW)
    ensures Searching(m, s, c', pq', U', P', last') && Witnessed(m, s, c', pq', W', CW')
    ensures P' != P ==> Unpopped(|m|, P') < Unpopped(|m|, P)
    ensures P' == P ==> |pq'| < |pq|
  {
    MinExists(pq);
    var e :| IsMin(e, pq);
    var dist, u := e.0, e.1;
    PopFacts(m, s, c, pq, U, P, last, e);
    PopWitnessed(m, s, c, pq, W, CW, e);
    ghost var stale := u in P;
    pq' := pq - multiset{e};
    U' := U + {u};
    P' := P + {u};
    ghost var added;
    c', pq', added, W', CW' := RelaxFrom(m, s, u, dist, U', c, pq', W, CW, W[e], stale);
    VisitKeeps(m, s, c, pq, U, P, last, e, c', pq', added, U', P');
    last' := dist;
    VisitProgress(|m|, P, P', pq, e, pq', added);
  }

  /** An empty frontier ends the search with the shortest distances. */
  lemma {:induction false} SearchDone(m: Matrix, s: nat, c: seq<ExtInt>, U: set<nat>, P: set<nat>,
                   last: int, W: map<Entry, seq<nat>>, CW: map<nat, seq<nat>>)
    requires Square(m) && Searching(m, s, c, multiset{}, U, P, last)
    requires Witnessed(m, s, c, multiset{}, W, CW)
    ensures Relaxed(m, c)
    ensures forall v | 0 <= v < |m| :: IsShortest(m, s, v, c[v])
  {
    forall u, v | 0 <= u < |m| && 0 <= v < |m| && Usable(m[u][v])
      ensures LessEq(c[v], Add(c[u], m[u][v]))
    {
      assert Settled(m, c, multiset{}, P, last, u);
    }
    forall v | 0 <= v < |m|
      ensures IsShortest(m, s, v, c[v])
    {
      forall p | DWalk(m, p, s, v)
        ensures LessEq(c[v], Weight(m, p))
      {
        RelaxedIsLowerBound(m, c, s, p, v);
      }
    }
  }

  class Dijkstra {
    const n: nat
    const matrix: Matrix
    const start: nat
    var costs: seq<ExtInt>

    ghost predicate Valid()
      reads this
    {
      |matrix| == n && Square(matrix) && start < n && |costs| == n
    }

    /** `Dijkstra(G, start)`: costs are +infinity except 0 at start, then the
        search runs and leaves the distances from start. */
    constructor (g: Graphs.Graph, start: nat)
      requires g.Valid() && start < g.n && NonNegative(g.matrix)
      ensures Valid() && matrix == g.matrix && this.start == start
      ensures costs[start] == Fin(0)
      ensures forall v | 0 <= v < n :: IsShortest(matrix, start, v, costs[v])
    {
      n := g.n;
      matrix := g.matrix;
      this.start := start;
      costs := seq(g.n, v => if v == start then Fin(0) else Inf);
      new;
      Run();
    }

    /** `__run`: pops the least entry, marks it visited and relaxes every
        usable arrow into an unvisited vertex, pushing each improvement. */
    method Run()
      requires Valid() && NonNegative(matrix)
      requires forall v | 0 <= v < n :: costs[v] == if v == start then Fin(0) else Inf
      modifies this
      ensures Valid()
      ensures costs[start] == Fin(0)
      ensures Relaxed(matrix, costs)
      ensures forall v | 0 <= v < n :: IsShortest(matrix, start, v, costs[v])
    {
      var pq: multiset<Entry> := multiset{(0, start)};
      var U: set<nat> := {start};
      ghost var P: set<nat> := {};
      ghost var last := 0;
      ghost var W: map<Entry, seq<nat>> := map[(0, start) := [start]];
      ghost var CW: map<nat, seq<nat>> := map[start := [start]];
      SearchStart(matrix, start, costs);

      while pq != multiset{}
        invariant Valid()
        invariant Searching(matrix, start, costs, pq, U, P, last) && Witnessed(matrix, start, costs, pq, W, CW)
        decreases Unpopped(n, P), |pq|
      {
        costs, pq, U, P, last, W, CW := Visit(matrix, start, costs, pq, U, P, last, W, CW);
      }
      SearchDone(matrix, start, costs, U, P, last, W, CW);
    }
  }
}
