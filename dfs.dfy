/** Depth-first search that records the cycles met along the way: a vertex
    that is already on the current path closes a cycle. */
module Dfs {
  import opened ExtInts
  import opened Walks
  import opened Graphs
  import opened AdjLists

  /** The list in reverse order. */
  function Reverse(s: seq<nat>): (r: seq<nat>)
    ensures |r| == |s|
    ensures forall i | 0 <= i < |s| :: r[i] == s[|s| - 1 - i]
    decreases |s|
  {
    if |s| == 0 then [] else [s[|s| - 1]] + Reverse(s[..|s| - 1])
  }

  /** A recorded cycle: at least four entries, the same vertex first and
      last, consecutive vertices adjacent, and no other vertex repeated. */
  ghost predicate IsCycle(adj: Adj, c: seq<nat>)
  {
    |c| > 3 && c[0] == c[|c| - 1] && Linked(adj, c) && NoDup(c[..|c| - 1])
  }

  /** The path the search is on: no vertex twice, each one expanded (so
      it has an entry), consecutive vertices adjacent. */
  ghost predicate OnPath(adj: Adj, stack: seq<nat>)
  {
    NoDup(stack) && (forall x | x in stack :: x in adj) && Linked(adj, stack)
  }

  /** Extending the path by an unvisited vertex that has an entry and is a
      neighbour of the last one keeps it a path, and it stays within n. */
  lemma {:induction false} PathPush(adj: Adj, n: nat, stack: seq<nat>, u: nat)
    requires Within(adj, n) && OnPath(adj, stack)
    requires u in adj && u !in stack
    requires stack != [] ==> u in adj[stack[|stack| - 1]]
    ensures OnPath(adj, stack + [u]) && |stack + [u]| <= n
  {
    var s := stack + [u];
    assert forall i | 0 <= i < |stack| :: s[i] == stack[i];
    assert forall x | x in s :: x in stack || x == u;
    assert Linked(adj, s);
    NoDupBound(s, n);
  }

  /** The tail of the path from u's earlier place, closed by u, is a cycle
      of the graph whenever it has more than three entries. */
  lemma {:induction false} CloseCycle(adj: Adj, stack: seq<nat>, u: nat, i: nat)
    requires OnPath(adj, stack) && i < |stack| && stack[i] == u
    requires u in adj[stack[|stack| - 1]]
    requires |stack| - i >= 3
    ensures IsCycle(adj, stack[i..] + [u])
  {
    var c := stack[i..] + [u];
    assert c[..|c| - 1] == stack[i..];
    assert forall j | 0 <= j < |c| - 1 :: c[j] == stack[i + j];
    assert Linked(adj, c);
  }

  /** After popping down to u: the popped entries, read back to front after
      the leading u, are the tail of the path from u's place. */
  lemma {:induction false} PopStep(stack: seq<nat>, st: seq<nat>, cycle: seq<nat>, u: nat)
    requires 0 < |st| <= |stack| && st == stack[..|st|]
    requires Reverse(cycle) == stack[|st|..] + [u]
    ensures Reverse(cycle + [st[|st| - 1]]) == stack[|st| - 1..] + [u]
  {
    var v := st[|st| - 1];
    assert (cycle + [v])[..|cycle|] == cycle;
    assert stack[|st| - 1..] == [v] + stack[|st|..];
  }

  lemma {:induction false} Record(adj: Adj, rs: seq<seq<nat>>, c: seq<nat>)
    requires forall i | 0 <= i < |rs| :: IsCycle(adj, rs[i])
    requires IsCycle(adj, c)
    ensures forall i | 0 <= i < |rs + [c]| :: IsCycle(adj, (rs + [c])[i])
    ensures rs <= rs + [c]
  {
  }

  /** The `while True` loop of `__run`: pops the path down to and
      including u, appending each popped vertex after a leading u. Read
      back to front, the result is the tail of the path from u's place
      (its only one), closed by u. */
  method PopTo(u: nat, stack: seq<nat>) returns (cycle: seq<nat>)
    requires NoDup(stack) && u in stack
    ensures 2 <= |cycle| <= |stack| + 1 && cycle[0] == u
    ensures stack[|stack| - (|cycle| - 1)] == u
    ensures Reverse(cycle) == stack[|stack| - (|cycle| - 1)..] + [u]
  {
    ghost var i :| 0 <= i < |stack| && stack[i] == u;
    cycle := [u];
    var st := stack;
    while true
      invariant |st| <= |stack| && st == stack[..|st|]
      invariant i < |st| && |cycle| == |stack| - |st| + 1 && cycle[0] == u
      invariant Reverse(cycle) == stack[|st|..] + [u]
      decreases |st|
    {
      PopStep(stack, st, cycle, u);
      var v := st[|st| - 1];
      st := st[..|st| - 1];
      cycle := cycle + [v];
      if u == v {
        break;
      }
      assert stack[|st|] == v;
    }
    assert |st| == i by {
      assert stack[|st|] == u;
    }
  }

  /** A vertex set some kept cycle already has. */
  ghost predicate Covered(r: seq<seq<nat>>, c: seq<nat>)
  {
    exists k | 0 <= k < |r| :: Members(r[k]) == Members(c)
  }

  /** `Dfs`: the adjacency list of the graph and the cycles recorded by
      `__run`, in the order found. */
  class Dfs {
    const n: nat
    const adj: Adj
    var recorded: seq<seq<nat>>

    ghost predicate Valid()
      reads this
    {
      Within(adj, n) && forall i | 0 <= i < |recorded| :: IsCycle(adj, recorded[i])
    }

    /** `__init__`: stores the adjacency list of the graph and searches from
        u with an empty path. */
    constructor (g: Graph, u: nat)
      requires g.Valid()
      ensures Valid() && n == g.n
      ensures forall i: nat :: i in adj <==> i < g.n && Neighbors(g.matrix, g.gap, i) != []
      ensures forall i | i in adj :: adj[i] == Neighbors(g.matrix, g.gap, i)
    {
      n := g.n;
      var d := g.AdjacencyList();
      AdjacencyShape(g, d);
      adj := d;
      recorded := [];
      new;
      Run(u, []);
    }

    /** `__run`: if u is on the path, pop the path down to u and record the
        cycle when it has more than three entries; otherwise push u and
        search each neighbour with its own copy of the path. */
    method Run(u: nat, stack: seq<nat>)
      requires Valid() && OnPath(adj, stack)
      requires stack != [] ==> u in adj[stack[|stack| - 1]]
      modifies this
      ensures Valid() && old(recorded) <= recorded
      decreases n - |stack|
    {
      if u in stack {
        var cycle := PopTo(u, stack);
        if |cycle| > 3 {
          cycle := Reverse(cycle);
          CloseCycle(adj, stack, u, |stack| - (|cycle| - 1));
          Record(adj, recorded, cycle);
          recorded := recorded + [cycle];
        }
        return;
      }
      if u in adj && adj[u] != [] {
        var s := stack + [u];
        PathPush(adj, n, stack, u);
        NoDupBound(stack, n) by {
          assert forall x | x in stack :: x < n;
        }
        var k := 0;
        while k < |adj[u]|
          invariant Valid() && old(recorded) <= recorded
        {
          Run(adj[u][k], s);
          k := k + 1;
        }
      }
    }

    /** The `cycles` property: the recorded cycles in order, dropping each
        one whose vertex set equals that of a cycle already kept. `idx`
        gives the position of each kept cycle among the recorded ones. */
    method Cycles() returns (r: seq<seq<nat>>, ghost idx: seq<nat>)
      ensures Deduped(recorded, |recorded|, r, idx)
    {
      r, idx := [], [];
      var i := 0;
      while i < |recorded|
        invariant 0 <= i <= |recorded| && Deduped(recorded, i, r, idx)
      {
        var c := recorded[i];
        var sets := seq(|r|, k requires 0 <= k < |r| => Members(r[k]));
        if Members(c) !in sets {
          NotCovered(r, sets, c);
          Keep(recorded, i, r, idx);
          r, idx := r + [c], idx + [i];
        } else {
          var k :| 0 <= k < |r| && sets[k] == Members(c);
          Skip(recorded, i, r, idx, k);
        }
        i := i + 1;
      }
    }
  }

  /** r is what `cycles` has kept after the first i recorded cycles: each
      kept cycle is the recorded one at idx, in order; no two kept cycles
      have the same vertex set; every one of the first i recorded cycles
      has its vertex set among the kept ones; and no recorded cycle before
      a kept one has its vertex set. Together these fix r: the first cycle
      of each vertex set, in order. */
  ghost predicate Deduped(rec: seq<seq<nat>>, i: int, r: seq<seq<nat>>, idx: seq<nat>)
  {
    0 <= i <= |rec| && |idx| == |r| &&
    (forall k | 0 <= k < |r| :: idx[k] < i && r[k] == rec[idx[k]]) &&
    (forall k, l | 0 <= k < l < |r| :: idx[k] < idx[l]) &&
    (forall k, l | 0 <= k < l < |r| :: Members(r[k]) != Members(r[l])) &&
    (forall j | 0 <= j < i :: Covered(r, rec[j])) &&
    (forall k, j | 0 <= k < |r| && 0 <= j < idx[k] :: Members(rec[j]) != Members(r[k]))
  }

  /** `set(cycle) not in s_cycles` means no kept cycle has c's vertex set. */
  lemma {:induction false} NotCovered(r: seq<seq<nat>>, sets: seq<set<nat>>, c: seq<nat>)
    requires |sets| == |r| && forall k | 0 <= k < |r| :: sets[k] == Members(r[k])
    requires Members(c) !in sets
    ensures !Covered(r, c)
  {
    forall k | 0 <= k < |r|
      ensures Members(r[k]) != Members(c)
    {
      assert sets[k] in sets;
    }
  }

  /** Skipping recorded[i], whose vertex set a kept cycle has. */
  lemma {:induction false} Skip(rec: seq<seq<nat>>, i: nat, r: seq<seq<nat>>, idx: seq<nat>, k: nat)
    requires i < |rec| && Deduped(rec, i, r, idx)
    requires k < |r| && Members(r[k]) == Members(rec[i])
    ensures Deduped(rec, i + 1, r, idx)
  {
    assert Covered(r, rec[i]);
  }

  /** Keeping recorded[i], whose vertex set no kept cycle has. */
  lemma {:induction false} Keep(rec: seq<seq<nat>>, i: nat, r: seq<seq<nat>>, idx: seq<nat>)
    requires i < |rec| && Deduped(rec, i, r, idx)
    requires !Covered(r, rec[i])
    ensures Deduped(rec, i + 1, r + [rec[i]], idx + [i])
  {
    KeepCovers(rec, i, r, idx);
    KeepFirst(rec, i, r, idx);
    KeepDistinct(rec, i, r, idx);
  }

  lemma {:induction false} KeepCovers(rec: seq<seq<nat>>, i: nat, r: seq<seq<nat>>, idx: seq<nat>)
    requires i < |rec| && Deduped(rec, i, r, idx)
    ensures forall j | 0 <= j <= i :: Covered(r + [rec[i]], rec[j])
  {
    var r' := r + [rec[i]];
    forall j | 0 <= j <= i
      ensures Covered(r', rec[j])
    {
      if j < i {
        var k :| 0 <= k < |r| && Members(r[k]) == Members(rec[j]);
        assert r'[k] == r[k];
      } else {
        assert r'[|r|] == rec[i];
      }
    }
  }

  lemma {:induction false} KeepFirst(rec: seq<seq<nat>>, i: nat, r: seq<seq<nat>>, idx: seq<nat>)
    requires i < |rec| && Deduped(rec, i, r, idx)
    requires !Covered(r, rec[i])
    ensures forall k, j | 0 <= k < |r| + 1 && 0 <= j < (idx + [i])[k] ::
              Members(rec[j]) != Members((r + [rec[i]])[k])
  {
    var r', idx' := r + [rec[i]], idx + [i];
    forall k, j | 0 <= k < |r'| && 0 <= j < idx'[k]
      ensures Members(rec[j]) != Members(r'[k])
    {
      if k == |r| {
        assert Covered(r, rec[j]);
      } else {
        assert r'[k] == r[k] && idx'[k] == idx[k];
      }
    }
  }

  lemma {:induction false} KeepDistinct(rec: seq<seq<nat>>, i: nat, r: seq<seq<nat>>, idx: seq<nat>)
    requires i < |rec| && Deduped(rec, i, r, idx)
    requires !Covered(r, rec[i])
    ensures forall k, l | 0 <= k < l < |r| + 1 ::
              Members((r + [rec[i]])[k]) != Members((r + [rec[i]])[l])
  {
    var r' := r + [rec[i]];
    forall k, l | 0 <= k < l < |r'|
      ensures Members(r'[k]) != Members(r'[l])
    {
      assert r'[k] == r[k];
    }
  }
}
