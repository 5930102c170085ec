/** Prim's spanning tree: starting from one vertex, repeatedly take the
    cheapest edge with exactly one end in the grown set. */
module Prim {
  import opened Graphs
  import K = Kruskal

  /** e has exactly one end in S: `__get_min` asks for an end equal to a
      member of S and an end outside S. */
  predicate Crossing(S: set<nat>, e: Edge) {
    (e.u in S) != (e.v in S)
  }

  /** e is an edge of es crossing S, and no edge of es crossing S is
      lighter. */
  ghost predicate Cheapest(es: seq<Edge>, S: set<nat>, e: Edge)
    requires K.AllWEdges(es)
  {
    e in es && Crossing(S, e) && forall k | 0 <= k < |es| && Crossing(S, es[k]) :: e.w <= es[k].w
  }

  /** The vertices the tree T grown from init spans. */
  ghost function Grown(init: nat, T: seq<Edge>): set<nat> {
    {init} + K.Ends(T)
  }

  /** Every edge of T was a cheapest crossing edge when it was taken. */
  ghost predicate Greedy(es: seq<Edge>, init: nat, T: seq<Edge>)
    requires K.AllWEdges(es)
  {
    forall i | 0 <= i < |T| :: Cheapest(es, Grown(init, T[..i]), T[i])
  }

  /** Taking a crossing edge adds exactly one vertex. */
  lemma {:induction false} GrowStep(init: nat, T: seq<Edge>, e: Edge)
    requires Crossing(Grown(init, T), e)
    ensures Grown(init, T + [e]) == Grown(init, T) + {e.u, e.v}
    ensures |Grown(init, T + [e])| == |Grown(init, T)| + 1
  {
    var r := T + [e];
    assert r[..|r| - 1] == T;
    var S := Grown(init, T);
    var x := if e.u in S then e.v else e.u;
    assert S + {e.u, e.v} == S + {x};
  }

  /** Each taken edge brings a new vertex, so the tree closes no cycle. */
  lemma {:induction false} GreedyAcyclic(es: seq<Edge>, init: nat, T: seq<Edge>)
    requires K.AllWEdges(es) && Greedy(es, init, T)
    ensures K.Acyclic(T)
  {
    forall i | 0 <= i < |T| ensures T[i].u !in K.Ends(T[..i]) || T[i].v !in K.Ends(T[..i]) {
      assert Cheapest(es, Grown(init, T[..i]), T[i]);
    }
    forall i | 0 <= i < |T| ensures T[i].u != T[i].v {
      assert Cheapest(es, Grown(init, T[..i]), T[i]);
    }
    K.NewEachAcyclic(T);
  }

  /** A greedy tree extended by a cheapest crossing edge is greedy. */
  lemma {:induction false} GreedyStep(es: seq<Edge>, init: nat, T: seq<Edge>, e: Edge)
    requires K.AllWEdges(es) && Greedy(es, init, T) && Cheapest(es, Grown(init, T), e)
    ensures Greedy(es, init, T + [e])
  {
    var r := T + [e];
    forall i | 0 <= i < |r| ensures Cheapest(es, Grown(init, r[..i]), r[i]) {
      if i < |T| {
        assert r[..i] == T[..i];
      } else {
        assert r[..i] == T;
      }
    }
  }

  /** The candidates `__get_min` has compared after the members D of S and
      the first k edges for the member v. */
  predicate InScope(S: set<nat>, D: set<nat>, v: nat, k: nat, j: nat, e: Edge) {
    Crossing(S, e) && (e.u in D || e.v in D || (j < k && (e.u == v || e.v == v)))
  }

  /** What the running minimum knows: nothing in scope, or a cheapest edge in
      scope. */
  ghost predicate BestSoFar(es: seq<Edge>, S: set<nat>, D: set<nat>, v: nat, k: nat, r: Option<Edge>)
    requires K.AllWEdges(es)
  {
    (r.None? ==> forall j | 0 <= j < |es| :: !InScope(S, D, v, k, j, es[j]))
    && (r.Some? ==>
          r.value in es && Crossing(S, r.value)
          && forall j | 0 <= j < |es| && InScope(S, D, v, k, j, es[j]) :: r.value.w <= es[j].w)
  }

  /** The scan of all edges for one member v of S. */
  method ScanFrom(es: seq<Edge>, S: set<nat>, ghost D: set<nat>, v: nat, r0: Option<Edge>) returns (r: Option<Edge>)
    requires K.AllWEdges(es) && v in S && BestSoFar(es, S, D, v, 0, r0)
    ensures BestSoFar(es, S, D + {v}, v, 0, r)
  {
    r := r0;
    for k := 0 to |es|
      invariant BestSoFar(es, S, D, v, k, r)
    {
      var e := es[k];
      if (e.u == v || e.v == v) && (e.u !in S || e.v !in S) && (r.None? || e.w < r.value.w) {
        r := Some(e);
      }
    }
  }

  /** `Prim(G, init_vertex)`; the random choice of the first vertex is the
      parameter init. */
  class Prim {
    const n: nat
    const edges: seq<Edge>
    ghost const init: nat
    var S: set<nat>
    var T: seq<Edge>

    ghost predicate Valid()
      reads this
    {
      K.AllWEdges(edges) && (forall k | 0 <= k < |edges| :: edges[k].v < n)
      && S == Grown(init, T) && Greedy(edges, init, T) && |S| == |T| + 1
    }

    /** Starts from {init} and an empty tree and runs. The tree is greedy
        and acyclic, spans one vertex more than it has edges, and when it
        stops short of n vertices no edge leaves the grown set. */
    constructor (g: Graph, init: nat)
      requires g.Valid() && g.kind == Undirected && g.weighted
      ensures forall e :: e in edges <==> Reported(g.matrix, g.gap, true, Upper, e)
      ensures n == g.n && this.init == init && Valid()
      ensures K.Acyclic(T) && K.Within(T, edges) && (|T| < n || T == [])
      ensures |S| < n ==> forall k | 0 <= k < |edges| :: !Crossing(S, edges[k])
    {
      var es := g.EdgeList();
      forall k | 0 <= k < |es| ensures K.IsWEdge(es[k]) && es[k].v < g.n {
        assert Reported(g.matrix, g.gap, g.weighted, Upper, es[k]);
      }
      n, edges, this.init := g.n, es, init;
      S, T := {init}, [];
      new;
      assert K.Ends([]) == {};
      Run();
      GreedyAcyclic(edges, init, T);
      forall k | 0 <= k < |T| ensures T[k] in edges {
        assert Cheapest(edges, Grown(init, T[..k]), T[k]);
      }
    }

    /** `__get_min`: a cheapest edge with exactly one end in S, or None (the
        sentinel `(inf, -1, -1)`) when no edge leaves S. Members of S are
        visited in an unspecified order. */
    method GetMin() returns (r: Option<Edge>)
      requires K.AllWEdges(edges)
      ensures r.None? <==> forall k | 0 <= k < |edges| :: !Crossing(S, edges[k])
      ensures r.Some? ==> Cheapest(edges, S, r.value)
    {
      r := None;
      var rest := S;
      ghost var done: set<nat> := {};
      while rest != {}
        invariant rest + done == S && rest !! done
        invariant BestSoFar(edges, S, done, 0, 0, r)
        decreases |rest|
      {
        var v :| v in rest;
        r := ScanFrom(edges, S, done, v, r);
        rest, done := rest - {v}, done + {v};
        assert BestSoFar(edges, S, done, 0, 0, r);
      }
      assert done == S;
      if r.Some? {
        assert forall k | 0 <= k < |edges| && Crossing(S, edges[k]) :: InScope(S, done, 0, 0, k, edges[k]);
      }
    }

    /** The body of `__run`'s loop for the edge x `__get_min` found. */
    method Take(x: Edge)
      requires Valid() && Cheapest(edges, S, x)
      modifies this
      ensures Valid() && T == old(T) + [x] && S == old(S) + {x.u, x.v} && |S| == old(|S|) + 1
    {
      GrowStep(init, T, x);
      GreedyStep(edges, init, T, x);
      T := T + [x];
      S := S + {x.u};
      S := S + {x.v};
    }

    /** `__run`: while fewer than n vertices are in S, take the cheapest
        crossing edge, or stop when there is none. */
    method Run()
      requires Valid() && (|S| <= n || T == [])
      modifies this
      ensures Valid() && (|T| < n || T == [])
      ensures |S| < n ==> forall k | 0 <= k < |edges| :: !Crossing(S, edges[k])
    {
      while |S| < n
        invariant Valid()
        invariant |S| <= n || T == []
        decreases n - |S|
      {
        var e := GetMin();
        if e.None? {
          break;
        }
        Take(e.value);
      }
    }
  }
}
