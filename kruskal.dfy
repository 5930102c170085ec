/** Kruskal's spanning tree. The edges are sorted by weight (stably); a first
    pass accepts every edge with a vertex not seen before, and a second pass
    stitches the resulting pieces together. Pieces are tracked as shared
    Python lists: each vertex maps to a list identity and each identity to the
    list's contents, so that rebinding one vertex leaves the others on the
    list they had. */
module Kruskal {
  import opened Graphs
  import C = Counting

  // ---------------------------------------------------------------------
  // Edges and the stable sort by weight.

  /** A `(w, u, v)` entry of an undirected edge list. */
  predicate IsWEdge(e: Edge) {
    e.Weighted? && e.u < e.v
  }

  predicate AllWEdges(es: seq<Edge>) {
    forall k | 0 <= k < |es| :: IsWEdge(es[k])
  }

  predicate ByWeight(es: seq<Edge>)
    requires AllWEdges(es)
  {
    forall a, b | 0 <= a < b < |es| :: es[a].w <= es[b].w
  }

  /** The entries of weight w, in their order. */
  function OfWeight(es: seq<Edge>, w: int): seq<Edge>
    requires AllWEdges(es)
  {
    if es == [] then []
    else OfWeight(es[..|es| - 1], w) + (if es[|es| - 1].w == w then [es[|es| - 1]] else [])
  }

  /** Puts e in front of the first entry that is not lighter. */
  function Insert(e: Edge, es: seq<Edge>): (r: seq<Edge>)
    requires IsWEdge(e) && AllWEdges(es)
    ensures AllWEdges(r) && multiset(r) == multiset(es) + multiset{e}
    decreases |es|
  {
    if es == [] then [e]
    else if e.w <= es[0].w then [e] + es
    else assert es == [es[0]] + es[1..]; [es[0]] + Insert(e, es[1..])
  }

  /** `sorted(edges, key=weight)`: an insertion sort standing for Python's
      stable sort. */
  function SortByWeight(es: seq<Edge>): (r: seq<Edge>)
    requires AllWEdges(es)
    ensures AllWEdges(r) && multiset(r) == multiset(es)
    decreases |es|
  {
    if es == [] then []
    else assert es == [es[0]] + es[1..]; Insert(es[0], SortByWeight(es[1..]))
  }

  lemma {:induction false} OfWeightCons(e: Edge, es: seq<Edge>, w: int)
    requires IsWEdge(e) && AllWEdges(es)
    ensures AllWEdges([e] + es)
    ensures OfWeight([e] + es, w) == (if e.w == w then [e] else []) + OfWeight(es, w)
    decreases |es|
  {
    var s := [e] + es;
    if es != [] {
      var es' := es[..|es| - 1];
      assert s[..|s| - 1] == [e] + es';
      OfWeightCons(e, es', w);
    } else {
      assert s[..|s| - 1] == [];
    }
  }

  lemma {:induction false} InsertMembers(e: Edge, es: seq<Edge>)
    requires IsWEdge(e) && AllWEdges(es)
    ensures forall x | x in Insert(e, es) :: x in es || x == e
  {
    var r := Insert(e, es);
    forall x | x in r ensures x in es || x == e {
      assert x in multiset(r);
    }
  }

  lemma {:induction false} InsertSorted(e: Edge, es: seq<Edge>)
    requires IsWEdge(e) && AllWEdges(es) && ByWeight(es)
    ensures ByWeight(Insert(e, es))
    decreases |es|
  {
    if es != [] && e.w > es[0].w {
      InsertSorted(e, es[1..]);
      var r := Insert(e, es[1..]);
      InsertMembers(e, es[1..]);
      var s := [es[0]] + r;
      assert s == Insert(e, es);
      forall a, b | 0 <= a < b < |s| ensures s[a].w <= s[b].w {
        assert s[b] == r[b - 1] && r[b - 1] in r;
        if a > 0 {
          assert s[a] == r[a - 1];
        }
      }
    }
  }

  /** Two filtered parts of which at least one is empty commute. */
  lemma {:induction false} OneEmpty(first: seq<Edge>, mine: seq<Edge>, rest: seq<Edge>)
    requires first == [] || mine == []
    ensures first + (mine + rest) == mine + (first + rest)
  {
    if first == [] {
      assert first + (mine + rest) == mine + rest;
    } else {
      assert mine + (first + rest) == first + rest;
    }
  }

  /** Entries lighter than e are skipped, so e lands in front of every entry
      of its own weight. */
  lemma {:induction false} InsertStable(e: Edge, es: seq<Edge>, w: int)
    requires IsWEdge(e) && AllWEdges(es)
    ensures OfWeight(Insert(e, es), w) == (if e.w == w then [e] else []) + OfWeight(es, w)
    decreases |es|
  {
    if es == [] {
      OfWeightCons(e, [], w);
    } else if e.w <= es[0].w {
      OfWeightCons(e, es, w);
    } else {
      var rest := Insert(e, es[1..]);
      InsertStable(e, es[1..], w);
      OfWeightCons(es[0], rest, w);
      OfWeightCons(es[0], es[1..], w);
      assert [es[0]] + es[1..] == es;
      OneEmpty(if es[0].w == w then [es[0]] else [], if e.w == w then [e] else [], OfWeight(es[1..], w));
    }
  }

  /** The sort orders by weight, keeps the multiset, and keeps the relative
      order of entries of equal weight. */
  lemma {:induction false} SortByWeightSpec(es: seq<Edge>)
    requires AllWEdges(es)
    ensures ByWeight(SortByWeight(es))
    ensures multiset(SortByWeight(es)) == multiset(es)
    ensures forall w :: OfWeight(SortByWeight(es), w) == OfWeight(es, w)
    decreases |es|
  {
    if es != [] {
      SortByWeightSpec(es[1..]);
      InsertSorted(es[0], SortByWeight(es[1..]));
      forall w ensures OfWeight(SortByWeight(es), w) == OfWeight(es, w) {
        InsertStable(es[0], SortByWeight(es[1..]), w);
        OfWeightCons(es[0], es[1..], w);
        assert [es[0]] + es[1..] == es;
      }
    }
  }

  // ---------------------------------------------------------------------
  // Connection by tree edges.

  /** a and b are the two ends of some edge of T. */
  ghost predicate Adj(T: seq<Edge>, a: nat, b: nat) {
    exists k | 0 <= k < |T| :: (T[k].u == a && T[k].v == b) || (T[k].u == b && T[k].v == a)
  }

  /** p walks along edges of T. */
  ghost predicate TPath(T: seq<Edge>, p: seq<nat>) {
    |p| >= 1 && forall k | 0 <= k < |p| - 1 :: Adj(T, p[k], p[k + 1])
  }

  ghost predicate Conn(T: seq<Edge>, a: nat, b: nat) {
    exists p :: TPath(T, p) && p[0] == a && p[|p| - 1] == b
  }

  /** Every two members of the list are connected by T. */
  ghost predicate Linked(T: seq<Edge>, L: seq<nat>) {
    forall a, b | a in L && b in L :: Conn(T, a, b)
  }

  lemma {:induction false} ConnRefl(T: seq<Edge>, a: nat)
    ensures Conn(T, a, a)
  {
    assert TPath(T, [a]);
  }

  lemma {:induction false} ConnEdge(T: seq<Edge>, k: nat)
    requires k < |T|
    ensures Conn(T, T[k].u, T[k].v) && Conn(T, T[k].v, T[k].u)
  {
    assert Adj(T, T[k].u, T[k].v) && Adj(T, T[k].v, T[k].u);
    assert TPath(T, [T[k].u, T[k].v]);
    assert TPath(T, [T[k].v, T[k].u]);
  }

  lemma {:induction false} ConnSym(T: seq<Edge>, a: nat, b: nat)
    requires Conn(T, a, b)
    ensures Conn(T, b, a)
  {
    var p :| TPath(T, p) && p[0] == a && p[|p| - 1] == b;
    var q := seq(|p|, i requires 0 <= i < |p| => p[|p| - 1 - i]);
    forall k | 0 <= k < |q| - 1 ensures Adj(T, q[k], q[k + 1]) {
      var j := |p| - 2 - k;
      assert Adj(T, p[j], p[j + 1]);
      var t :| 0 <= t < |T| && ((T[t].u == p[j] && T[t].v == p[j + 1]) || (T[t].u == p[j + 1] && T[t].v == p[j]));
      assert q[k] == p[j + 1] && q[k + 1] == p[j];
    }
    assert TPath(T, q);
  }

  lemma {:induction false} ConnTrans(T: seq<Edge>, a: nat, b: nat, c: nat)
    requires Conn(T, a, b) && Conn(T, b, c)
    ensures Conn(T, a, c)
  {
    var p :| TPath(T, p) && p[0] == a && p[|p| - 1] == b;
    var q :| TPath(T, q) && q[0] == b && q[|q| - 1] == c;
    var r := p + q[1..];
    forall k | 0 <= k < |r| - 1 ensures Adj(T, r[k], r[k + 1]) {
      if k < |p| - 1 {
        assert r[k] == p[k] && r[k + 1] == p[k + 1];
      } else {
        var j := k - |p| + 1;
        assert r[k] == q[j] && r[k + 1] == q[j + 1];
      }
    }
    assert TPath(T, r);
  }

  /** Appending an edge keeps every connection. */
  lemma {:induction false} ConnGrow(T: seq<Edge>, e: Edge, a: nat, b: nat)
    requires Conn(T, a, b)
    ensures Conn(T + [e], a, b)
  {
    var p :| TPath(T, p) && p[0] == a && p[|p| - 1] == b;
    forall k | 0 <= k < |p| - 1 ensures Adj(T + [e], p[k], p[k + 1]) {
      assert Adj(T, p[k], p[k + 1]);
      var t :| 0 <= t < |T| && ((T[t].u == p[k] && T[t].v == p[k + 1]) || (T[t].u == p[k + 1] && T[t].v == p[k]));
      assert (T + [e])[t] == T[t];
    }
    assert TPath(T + [e], p);
  }

  lemma {:induction false} LinkedGrow(T: seq<Edge>, e: Edge, L: seq<nat>)
    requires Linked(T, L)
    ensures Linked(T + [e], L)
  {
    forall a, b | a in L && b in L ensures Conn(T + [e], a, b) {
      ConnGrow(T, e, a, b);
    }
  }

  /** Joining two linked lists by an edge between them gives a linked list. */
  lemma {:induction false} LinkedJoin(T: seq<Edge>, A: seq<nat>, B: seq<nat>, a: nat, b: nat)
    requires Linked(T, A) && Linked(T, B) && a in A && b in B && Conn(T, a, b)
    ensures Linked(T, A + B)
  {
    forall x, y | x in A + B && y in A + B ensures Conn(T, x, y) {
      if x in A && y in B {
        ConnTrans(T, x, a, b);
        ConnTrans(T, x, b, y);
      } else if x in B && y in A {
        ConnSym(T, a, b);
        ConnTrans(T, x, b, a);
        ConnTrans(T, x, a, y);
      }
    }
  }

  // ---------------------------------------------------------------------
  // The state of `__run` and the two passes as functions.

  /** The seen set S, each seen vertex's list identity (`D` maps a vertex to
      a list object), the contents of every list object made so far, and the
      tree. */
  datatype Forest = Forest(S: set<nat>, ids: map<nat, nat>, store: seq<seq<nat>>, T: seq<Edge>)

  /** Exactly the seen vertices have a list, and every list identity exists. */
  ghost predicate Wf(f: Forest) {
    f.ids.Keys == f.S && forall x | x in f.ids :: f.ids[x] < |f.store|
  }

  /** `D[x].append(y)` on list identity id. */
  function Append(store: seq<seq<nat>>, id: nat, y: nat): (r: seq<seq<nat>>)
    requires id < |store|
    ensures |r| == |store| && r[id] == store[id] + [y]
    ensures forall j | 0 <= j < |store| && j != id :: r[j] == store[j]
  {
    store[id := store[id] + [y]]
  }

  /** One edge of the first pass. Two new ends get a fresh list `[u, v]`
      that the second branch then extends to `[u, v, u]`; a new end joins the
      list of the seen one. */
  function Join(f: Forest, e: Edge): (r: Forest)
    requires Wf(f) && IsWEdge(e)
    ensures Wf(r) && r.S == f.S + {e.u, e.v}
    ensures r.T == (if e.u in f.S && e.v in f.S then f.T else f.T + [e])
    ensures forall x | x in f.ids :: r.ids[x] == f.ids[x]
    ensures !(e.u in f.S && e.v in f.S) ==> r.ids[e.u] == r.ids[e.v]
  {
    var u, v := e.u, e.v;
    if u in f.S && v in f.S then f
    else
      var f1 := if u !in f.S && v !in f.S
                then f.(ids := f.ids[u := |f.store|][v := |f.store|], store := f.store + [[u, v]])
                else f;
      var f2 := if u in f.S
                then f1.(store := Append(f1.store, f1.ids[u], v), ids := f1.ids[v := f1.ids[u]])
                else f1.(store := Append(f1.store, f1.ids[v], u), ids := f1.ids[u := f1.ids[v]]);
      f2.(T := f.T + [e], S := f.S + {u, v})
  }

  /** One edge of the second pass: when u is not on v's list, the edge is
      taken, u's list is appended to v's list object and u alone is rebound
      to it; every other vertex keeps its list. */
  function Stitch(f: Forest, e: Edge): (r: Forest)
    requires Wf(f) && e.u in f.S && e.v in f.S
    ensures Wf(r) && r.S == f.S && |r.store| == |f.store|
    ensures e.u in f.store[f.ids[e.v]] ==> r == f
    ensures e.u !in f.store[f.ids[e.v]] ==>
              r.T == f.T + [e] && r.ids[e.u] == f.ids[e.v]
              && r.store[f.ids[e.v]] == f.store[f.ids[e.v]] + f.store[f.ids[e.u]]
    ensures forall x | x in f.ids && x != e.u :: r.ids[x] == f.ids[x]
    ensures forall j | 0 <= j < |f.store| && j != f.ids[e.v] :: r.store[j] == f.store[j]
  {
    var a, b := f.ids[e.v], f.ids[e.u];
    if e.u !in f.store[a] then
      f.(T := f.T + [e], store := f.store[a := f.store[a] + f.store[b]], ids := f.ids[e.u := a])
    else f
  }

  /** The first pass over the edges es, in order. Afterwards every end of
      every edge has been seen. */
  function FirstPass(es: seq<Edge>): (r: Forest)
    requires AllWEdges(es)
    ensures Wf(r)
    ensures forall k | 0 <= k < |es| :: es[k].u in r.S && es[k].v in r.S
    decreases |es|
  {
    if es == [] then Forest({}, map[], [], [])
    else
      var f := FirstPass(es[..|es| - 1]);
      assert forall k | 0 <= k < |es| - 1 :: es[k] == es[..|es| - 1][k];
      Join(f, es[|es| - 1])
  }

  /** All ends of es are seen in f. */
  ghost predicate Covered(f: Forest, es: seq<Edge>) {
    forall k | 0 <= k < |es| :: es[k].u in f.S && es[k].v in f.S
  }

  /** The second pass over es, in order, starting from f. */
  function SecondPass(f: Forest, es: seq<Edge>): (r: Forest)
    requires Wf(f) && Covered(f, es)
    ensures Wf(r) && r.S == f.S
    decreases |es|
  {
    if es == [] then f
    else
      assert Covered(f, es[..|es| - 1]);
      Stitch(SecondPass(f, es[..|es| - 1]), es[|es| - 1])
  }

  /** The tree `Kruskal(G).tree` for edge list `edges`. */
  function SpanningTree(edges: seq<Edge>): seq<Edge>
    requires AllWEdges(edges)
  {
    var es := SortByWeight(edges);
    var f := FirstPass(es);
    SecondPass(f, es).T
  }

  // ---------------------------------------------------------------------
  // The first pass builds a forest.

  /** The vertices T touches. */
  ghost function Ends(T: seq<Edge>): set<nat>
    decreases |T|
  {
    if T == [] then {} else Ends(T[..|T| - 1]) + {T[|T| - 1].u, T[|T| - 1].v}
  }

  /** Every edge of T brings a vertex none of the earlier edges touched, so T
      closes no cycle. */
  ghost predicate NewEach(T: seq<Edge>) {
    forall i | 0 <= i < |T| :: T[i].u !in Ends(T[..i]) || T[i].v !in Ends(T[..i])
  }

  /** What the first pass keeps true of its state. */
  ghost predicate Forested(f: Forest) {
    f.S == Ends(f.T) && NewEach(f.T) && (f.T == [] || |f.T| < |f.S|)
  }

  lemma {:induction false} NewEachSnoc(T: seq<Edge>, e: Edge)
    requires NewEach(T) && (e.u !in Ends(T) || e.v !in Ends(T))
    ensures NewEach(T + [e]) && Ends(T + [e]) == Ends(T) + {e.u, e.v}
  {
    var r := T + [e];
    assert r[..|T|] == T;
    forall i | 0 <= i < |r| ensures r[i].u !in Ends(r[..i]) || r[i].v !in Ends(r[..i]) {
      if i < |T| {
        assert r[..i] == T[..i];
      }
    }
  }

  lemma {:induction false} JoinForested(f: Forest, e: Edge)
    requires Wf(f) && IsWEdge(e) && Forested(f)
    ensures Forested(Join(f, e))
  {
    var r := Join(f, e);
    if !(e.u in f.S && e.v in f.S) {
      NewEachSnoc(f.T, e);
      if f.T == [] {
        assert r.S == {e.u, e.v} && e.u != e.v;
      } else {
        var x := if e.u !in f.S then e.u else e.v;
        C.CardAdd(f.S, r.S, x);
      }
    }
  }

  /** The seen set is exactly what the accepted edges touch, each accepted
      edge brings a new vertex, there are fewer accepted edges than seen
      vertices, and every accepted edge is one of es. */
  lemma {:induction false} FirstPassForest(es: seq<Edge>)
    requires AllWEdges(es)
    ensures Forested(FirstPass(es)) && Within(FirstPass(es).T, es)
    decreases |es|
  {
    if es != [] {
      var es' := es[..|es| - 1];
      var f := FirstPass(es');
      FirstPassForest(es');
      JoinForested(f, es[|es| - 1]);
      forall k | 0 <= k < |f.T| ensures f.T[k] in es {
        assert f.T[k] in es';
      }
    }
  }

  /** On vertices below n the first pass takes at most n - 1 edges. */
  lemma {:induction false} FirstPassBound(es: seq<Edge>, n: nat)
    requires AllWEdges(es) && forall k | 0 <= k < |es| :: es[k].v < n
    ensures |FirstPass(es).T| < n || FirstPass(es).T == []
  {
    var r := FirstPass(es);
    FirstPassForest(es);
    forall x | x in r.S ensures x < n {
      FirstPassWithin(es, n, x);
    }
    C.BoundedCard(r.S, n);
  }

  lemma {:induction false} FirstPassWithin(es: seq<Edge>, n: nat, x: nat)
    requires AllWEdges(es) && (forall k | 0 <= k < |es| :: es[k].v < n) && x in FirstPass(es).S
    ensures x < n
    decreases |es|
  {
    if es != [] {
      var es' := es[..|es| - 1];
      if x in FirstPass(es').S {
        FirstPassWithin(es', n, x);
      }
    }
  }

  // ---------------------------------------------------------------------
  // Every list object holds vertices the tree connects.

  /** Every seen vertex is on its own list. */
  ghost predicate Members(f: Forest) {
    forall x | x in f.ids :: f.ids[x] < |f.store| && x in f.store[f.ids[x]]
  }

  ghost predicate AllLinked(T: seq<Edge>, store: seq<seq<nat>>) {
    forall j | 0 <= j < |store| :: Linked(T, store[j])
  }

  ghost predicate Sound(f: Forest) {
    Wf(f) && Members(f) && AllLinked(f.T, f.store)
  }

  lemma {:induction false} AllLinkedGrow(T: seq<Edge>, e: Edge, store: seq<seq<nat>>)
    requires AllLinked(T, store)
    ensures AllLinked(T + [e], store)
  {
    forall j | 0 <= j < |store| ensures Linked(T + [e], store[j]) {
      LinkedGrow(T, e, store[j]);
    }
  }

  /** A list stays linked when a vertex connected to one of its members is
      appended. */
  lemma {:induction false} LinkedSnoc(T: seq<Edge>, L: seq<nat>, a: nat, y: nat)
    requires Linked(T, L) && a in L && Conn(T, a, y)
    ensures Linked(T, L + [y])
  {
    forall x, z | x in [y] && z in [y] ensures Conn(T, x, z) {
      ConnRefl(T, y);
    }
    LinkedJoin(T, L, [y], a, y);
  }

  lemma {:induction false} JoinBothNew(f: Forest, e: Edge)
    requires Sound(f) && IsWEdge(e) && e.u !in f.S && e.v !in f.S
    ensures Sound(Join(f, e))
  {
    var r := Join(f, e);
    var T := f.T + [e];
    var n := |f.store|;
    assert [e.u, e.v] + [e.u] == [e.u, e.v, e.u];
    assert r.store == (f.store + [[e.u, e.v]])[n := [e.u, e.v, e.u]];
    assert r.store == f.store + [[e.u, e.v, e.u]];
    assert r.ids == f.ids[e.u := n][e.v := n];
    ConnEdge(T, |f.T|);
    AllLinkedGrow(f.T, e, f.store);
    forall a, b | a in [e.u, e.v, e.u] && b in [e.u, e.v, e.u] ensures Conn(T, a, b) {
      ConnRefl(T, a);
    }
    assert Linked(T, r.store[n]);
  }

  lemma {:induction false} JoinOneNew(f: Forest, e: Edge, old_: nat, new_: nat)
    requires Sound(f) && IsWEdge(e) && {old_, new_} == {e.u, e.v}
    requires old_ in f.S && new_ !in f.S
    ensures Sound(Join(f, e))
  {
    var r := Join(f, e);
    var T := f.T + [e];
    var id := f.ids[old_];
    assert r.T == T && r.store == Append(f.store, id, new_) && r.ids == f.ids[new_ := id];
    ConnEdge(T, |f.T|);
    AllLinkedGrow(f.T, e, f.store);
    LinkedSnoc(T, f.store[id], old_, new_);
  }

  lemma {:induction false} JoinSound(f: Forest, e: Edge)
    requires Sound(f) && IsWEdge(e)
    ensures Sound(Join(f, e))
  {
    if e.u !in f.S && e.v !in f.S {
      JoinBothNew(f, e);
    } else if e.u in f.S && e.v !in f.S {
      JoinOneNew(f, e, e.u, e.v);
    } else if e.u !in f.S {
      JoinOneNew(f, e, e.v, e.u);
    }
  }

  lemma {:induction false} FirstPassSound(es: seq<Edge>)
    requires AllWEdges(es)
    ensures Sound(FirstPass(es))
    decreases |es|
  {
    if es != [] {
      FirstPassSound(es[..|es| - 1]);
      JoinSound(FirstPass(es[..|es| - 1]), es[|es| - 1]);
    }
  }

  /** The second pass keeps the lists linked and leaves the edge's ends
      connected. */
  lemma {:induction false} StitchSound(f: Forest, e: Edge)
    requires Sound(f) && e.u in f.S && e.v in f.S
    ensures Sound(Stitch(f, e)) && Conn(Stitch(f, e).T, e.u, e.v)
  {
    var a, b := f.ids[e.v], f.ids[e.u];
    if e.u in f.store[a] {
      assert Linked(f.T, f.store[a]);
    } else {
      var r := Stitch(f, e);
      var T := f.T + [e];
      ConnEdge(T, |f.T|);
      AllLinkedGrow(f.T, e, f.store);
      LinkedJoin(T, f.store[a], f.store[b], e.v, e.u);
      assert Linked(T, r.store[a]);
      forall x | x in r.ids ensures x in r.store[r.ids[x]] {
        if x != e.u && f.ids[x] != a {
          assert r.store[r.ids[x]] == f.store[f.ids[x]];
        }
      }
    }
  }

  /** r's tree is f's tree followed by edges of es. */
  ghost predicate Extends(f: Forest, r: Forest, es: seq<Edge>) {
    |f.T| <= |r.T| && r.T[..|f.T|] == f.T && forall k | |f.T| <= k < |r.T| :: r.T[k] in es
  }

  /** T connects the ends of every edge of es. */
  ghost predicate Spans(T: seq<Edge>, es: seq<Edge>) {
    forall k | 0 <= k < |es| :: Conn(T, es[k].u, es[k].v)
  }

  lemma {:induction false} SpansStep(T: seq<Edge>, T': seq<Edge>, es: seq<Edge>, e: Edge)
    requires Spans(T, es) && Conn(T', e.u, e.v)
    requires T' == T || exists x :: T' == T + [x]
    ensures Spans(T', es + [e])
  {
    forall k | 0 <= k < |es| + 1 ensures Conn(T', (es + [e])[k].u, (es + [e])[k].v) {
      if k < |es| {
        assert (es + [e])[k] == es[k];
        if T' != T {
          var x :| T' == T + [x];
          ConnGrow(T, x, es[k].u, es[k].v);
        }
      }
    }
  }

  lemma {:induction false} ExtendsStep(f: Forest, g: Forest, r: Forest, es: seq<Edge>, e: Edge)
    requires Extends(f, g, es) && (r.T == g.T || r.T == g.T + [e])
    ensures Extends(f, r, es + [e])
  {
    assert r.T[..|f.T|] == g.T[..|f.T|];
    forall k | |f.T| <= k < |r.T| ensures r.T[k] in es + [e] {
      if k < |g.T| {
        assert r.T[k] == g.T[k];
      }
    }
  }

  lemma {:induction false} SecondPassSound(f: Forest, es: seq<Edge>)
    requires Sound(f) && Covered(f, es)
    ensures Sound(SecondPass(f, es)) && Extends(f, SecondPass(f, es), es)
    ensures Spans(SecondPass(f, es).T, es)
    decreases |es|
  {
    if es != [] {
      var es' := es[..|es| - 1];
      var e := es[|es| - 1];
      assert es == es' + [e];
      assert Covered(f, es');
      var g := SecondPass(f, es');
      SecondPassSound(f, es');
      var r := Stitch(g, e);
      StitchSound(g, e);
      ExtendsStep(f, g, r, es', e);
      SpansStep(g.T, r.T, es', e);
    } else {
      assert f.T[..|f.T|] == f.T;
    }
  }

  /** Spanning a list spans any reordering of it. */
  lemma {:induction false} SpansPerm(T: seq<Edge>, es: seq<Edge>, edges: seq<Edge>)
    requires Spans(T, es) && multiset(es) == multiset(edges)
    ensures Spans(T, edges)
  {
    forall k | 0 <= k < |edges| ensures Conn(T, edges[k].u, edges[k].v) {
      assert edges[k] in multiset(es);
      var j :| 0 <= j < |es| && es[j] == edges[k];
    }
  }

  /** `Kruskal(G).tree` starts with the forest the first pass builds. */
  lemma {:induction false} SpanningTreePrefix(edges: seq<Edge>)
    requires AllWEdges(edges)
    ensures var T1 := FirstPass(SortByWeight(edges)).T; var T := SpanningTree(edges);
      |T1| <= |T| && T[..|T1|] == T1 && NewEach(T1)
  {
    var es := SortByWeight(edges);
    SortByWeightSpec(edges);
    FirstPassSound(es);
    FirstPassForest(es);
    SecondPassSound(FirstPass(es), es);
  }

  /** Every edge of T is one of es. */
  ghost predicate Within(T: seq<Edge>, es: seq<Edge>) {
    forall k | 0 <= k < |T| :: T[k] in es
  }

  lemma {:induction false} WithinExtends(f: Forest, r: Forest, es: seq<Edge>)
    requires Extends(f, r, es) && Within(f.T, es)
    ensures Within(r.T, es)
  {
    forall k | 0 <= k < |r.T| ensures r.T[k] in es {
      if k < |f.T| {
        assert r.T[k] == f.T[k];
      }
    }
  }

  lemma {:induction false} WithinPerm(T: seq<Edge>, es: seq<Edge>, edges: seq<Edge>)
    requires Within(T, es) && multiset(es) == multiset(edges)
    ensures Within(T, edges)
  {
    forall k | 0 <= k < |T| ensures T[k] in edges {
      assert T[k] in multiset(es);
    }
  }

  /** Every edge of `Kruskal(G).tree` is an edge of the graph. */
  lemma {:induction false} SpanningTreeEdges(edges: seq<Edge>)
    requires AllWEdges(edges)
    ensures Within(SpanningTree(edges), edges)
  {
    var es := SortByWeight(edges);
    SortByWeightSpec(edges);
    var f := FirstPass(es);
    FirstPassSound(es);
    FirstPassForest(es);
    SecondPassSound(f, es);
    WithinExtends(f, SecondPass(f, es), es);
    WithinPerm(SecondPass(f, es).T, es, edges);
  }

  /** `Kruskal(G).tree` connects the ends of every edge of the graph. */
  lemma {:induction false} SpanningTreeSpans(edges: seq<Edge>)
    requires AllWEdges(edges)
    ensures Spans(SpanningTree(edges), edges)
  {
    var es := SortByWeight(edges);
    SortByWeightSpec(edges);
    FirstPassSound(es);
    SecondPassSound(FirstPass(es), es);
    SpansPerm(SpanningTree(edges), es, edges);
  }

  // ---------------------------------------------------------------------
  // The list objects as components.

  /** T closes no cycle: no edge joins two vertices the earlier edges
      already connect. */
  ghost predicate Acyclic(T: seq<Edge>) {
    forall i | 0 <= i < |T| :: !Conn(T[..i], T[i].u, T[i].v)
  }

  /** The list a seen vertex is bound to holds exactly the seen vertices
      bound to the same list. */
  ghost predicate Exact(f: Forest) {
    Wf(f) && forall x, y | x in f.ids :: y in f.store[f.ids[x]] <==> (y in f.ids && f.ids[y] == f.ids[x])
  }

  /** Both ends of every tree edge are bound to the same list. */
  ghost predicate Closed(f: Forest) {
    forall k | 0 <= k < |f.T| :: f.T[k].u in f.ids && f.T[k].v in f.ids && f.ids[f.T[k].u] == f.ids[f.T[k].v]
  }

  /** In a closed state, connected vertices are bound to the same list. */
  lemma {:induction false} ClosedConn(f: Forest, x: nat, y: nat)
    requires Wf(f) && Closed(f) && Conn(f.T, x, y) && x != y
    ensures x in f.ids && y in f.ids && f.ids[x] == f.ids[y]
  {
    var p :| TPath(f.T, p) && p[0] == x && p[|p| - 1] == y;
    assert Adj(f.T, p[0], p[1]);
    ClosedPath(f, p, |p| - 1);
  }

  lemma {:induction false} ClosedPath(f: Forest, p: seq<nat>, i: nat)
    requires Wf(f) && Closed(f) && TPath(f.T, p) && |p| >= 2 && i < |p|
    ensures p[0] in f.ids && p[i] in f.ids && f.ids[p[i]] == f.ids[p[0]]
  {
    assert Adj(f.T, p[0], p[1]);
    if i > 0 {
      ClosedPath(f, p, i - 1);
      assert Adj(f.T, p[i - 1], p[i]);
    }
  }

  lemma {:induction false} AcyclicSnoc(T: seq<Edge>, e: Edge)
    requires Acyclic(T) && !Conn(T, e.u, e.v)
    ensures Acyclic(T + [e])
  {
    var r := T + [e];
    assert r[..|T|] == T;
    forall i | 0 <= i < |r| ensures !Conn(r[..i], r[i].u, r[i].v) {
      if i < |T| {
        assert r[..i] == T[..i];
      }
    }
  }

  /** Adding an edge whose ends share a list, without rebinding anybody
      seen, keeps the tree closed. */
  lemma {:induction false} ClosedSnoc(f: Forest, r: Forest, e: Edge)
    requires Closed(f) && r.T == f.T + [e]
    requires forall x | x in f.ids :: x in r.ids && r.ids[x] == f.ids[x]
    requires e.u in r.ids && e.v in r.ids && r.ids[e.u] == r.ids[e.v]
    ensures Closed(r)
  {
    forall k | 0 <= k < |r.T| ensures r.T[k].u in r.ids && r.T[k].v in r.ids && r.ids[r.T[k].u] == r.ids[r.T[k].v] {
      if k < |f.T| {
        assert r.T[k] == f.T[k];
      }
    }
  }

  lemma {:induction false} EndsHas(T: seq<Edge>, k: nat)
    requires k < |T|
    ensures T[k].u in Ends(T) && T[k].v in Ends(T)
    decreases |T|
  {
    if k < |T| - 1 {
      EndsHas(T[..|T| - 1], k);
    }
  }

  /** Two distinct connected vertices are both touched by T. */
  lemma {:induction false} ConnEnds(T: seq<Edge>, a: nat, b: nat)
    requires Conn(T, a, b) && a != b
    ensures a in Ends(T) && b in Ends(T)
  {
    var p :| TPath(T, p) && p[0] == a && p[|p| - 1] == b;
    var n := |p|;
    assert Adj(T, p[0], p[1]) && Adj(T, p[n - 2], p[n - 1]);
    var k :| 0 <= k < |T| && ((T[k].u == p[0] && T[k].v == p[1]) || (T[k].u == p[1] && T[k].v == p[0]));
    var j :| 0 <= j < |T| && ((T[j].u == p[n - 2] && T[j].v == p[n - 1]) || (T[j].u == p[n - 1] && T[j].v == p[n - 2]));
    EndsHas(T, k);
    EndsHas(T, j);
  }

  /** A tree in which every edge brings a new vertex closes no cycle. */
  lemma {:induction false} NewEachAcyclic(T: seq<Edge>)
    requires NewEach(T) && forall i | 0 <= i < |T| :: T[i].u != T[i].v
    ensures Acyclic(T)
  {
    forall i | 0 <= i < |T| ensures !Conn(T[..i], T[i].u, T[i].v) {
      if Conn(T[..i], T[i].u, T[i].v) {
        ConnEnds(T[..i], T[i].u, T[i].v);
      }
    }
  }

  lemma {:induction false} JoinExactBoth(f: Forest, e: Edge)
    requires Exact(f) && IsWEdge(e) && e.u !in f.S && e.v !in f.S
    ensures Exact(Join(f, e))
  {
    var r := Join(f, e);
    var n := |f.store|;
    assert [e.u, e.v] + [e.u] == [e.u, e.v, e.u];
    assert r.store == (f.store + [[e.u, e.v]])[n := [e.u, e.v, e.u]];
    assert r.store == f.store + [[e.u, e.v, e.u]];
    assert r.ids == f.ids[e.u := n][e.v := n];
    forall x, y | x in r.ids ensures y in r.store[r.ids[x]] <==> (y in r.ids && r.ids[y] == r.ids[x]) {
      if x in f.ids && x != e.u && x != e.v {
        assert r.store[r.ids[x]] == f.store[f.ids[x]];
      }
    }
  }

  lemma {:induction false} JoinExactOne(f: Forest, e: Edge, old_: nat, new_: nat)
    requires Exact(f) && IsWEdge(e) && {old_, new_} == {e.u, e.v}
    requires old_ in f.S && new_ !in f.S
    ensures Exact(Join(f, e))
  {
    var r := Join(f, e);
    var id := f.ids[old_];
    assert r.store == Append(f.store, id, new_) && r.ids == f.ids[new_ := id];
    forall x, y | x in r.ids ensures y in r.store[r.ids[x]] <==> (y in r.ids && r.ids[y] == r.ids[x]) {
      if x != new_ && f.ids[x] != id {
        assert r.store[r.ids[x]] == f.store[f.ids[x]];
      }
    }
  }

  lemma {:induction false} JoinAcyclic(f: Forest, e: Edge)
    requires Wf(f) && Closed(f) && Acyclic(f.T) && IsWEdge(e)
    ensures Acyclic(Join(f, e).T)
  {
    if !(e.u in f.S && e.v in f.S) {
      assert !Conn(f.T, e.u, e.v) by {
        if Conn(f.T, e.u, e.v) {
          ClosedConn(f, e.u, e.v);
        }
      }
      AcyclicSnoc(f.T, e);
    }
  }

  lemma {:induction false} JoinExact(f: Forest, e: Edge)
    requires Exact(f) && IsWEdge(e)
    ensures Exact(Join(f, e))
  {
    if e.u !in f.S && e.v !in f.S {
      JoinExactBoth(f, e);
    } else if e.u in f.S && e.v !in f.S {
      JoinExactOne(f, e, e.u, e.v);
    } else if e.u !in f.S {
      JoinExactOne(f, e, e.v, e.u);
    }
  }

  lemma {:induction false} JoinClosed(f: Forest, e: Edge)
    requires Wf(f) && Closed(f) && IsWEdge(e)
    ensures Closed(Join(f, e))
  {
    if !(e.u in f.S && e.v in f.S) {
      ClosedSnoc(f, Join(f, e), e);
    }
  }

  /** The first pass keeps the lists exact and the tree acyclic. */
  lemma {:induction false} FirstPassExact(es: seq<Edge>)
    requires AllWEdges(es)
    ensures Exact(FirstPass(es)) && Closed(FirstPass(es)) && Acyclic(FirstPass(es).T)
    decreases |es|
  {
    if es != [] {
      var f := FirstPass(es[..|es| - 1]);
      FirstPassExact(es[..|es| - 1]);
      JoinExact(f, es[|es| - 1]);
      JoinClosed(f, es[|es| - 1]);
      JoinAcyclic(f, es[|es| - 1]);
    }
  }

  // ---------------------------------------------------------------------
  // The second pass with every member of u's list rebound.

  /** One edge of the second pass as intended: when u is not on v's list, the
      edge is taken, u's list is appended to v's list object and every
      vertex bound to u's list, not u alone, is rebound to v's. */
  function Merge(f: Forest, e: Edge): (r: Forest)
    requires Wf(f) && e.u in f.S && e.v in f.S
    ensures Wf(r) && r.S == f.S && |r.store| == |f.store|
    ensures e.u in f.store[f.ids[e.v]] ==> r == f
    ensures e.u !in f.store[f.ids[e.v]] ==>
              r.T == f.T + [e]
              && r.store == f.store[f.ids[e.v] := f.store[f.ids[e.v]] + f.store[f.ids[e.u]]]
              && forall x | x in f.ids :: r.ids[x] == if f.ids[x] == f.ids[e.u] then f.ids[e.v] else f.ids[x]
  {
    var a, b := f.ids[e.v], f.ids[e.u];
    if e.u !in f.store[a] then
      f.(T := f.T + [e], store := f.store[a := f.store[a] + f.store[b]],
         ids := map x | x in f.ids :: if f.ids[x] == b then a else f.ids[x])
    else f
  }

  function SecondPassFixed(f: Forest, es: seq<Edge>): (r: Forest)
    requires Wf(f) && Covered(f, es)
    ensures Wf(r) && r.S == f.S
    decreases |es|
  {
    if es == [] then f
    else
      assert Covered(f, es[..|es| - 1]);
      Merge(SecondPassFixed(f, es[..|es| - 1]), es[|es| - 1])
  }

  /** `Kruskal(G).tree` with the second pass rebinding whole lists. */
  function SpanningForest(edges: seq<Edge>): seq<Edge>
    requires AllWEdges(edges)
  {
    var es := SortByWeight(edges);
    SecondPassFixed(FirstPass(es), es).T
  }

  /** Appending list b to list a and rebinding everything bound to b keeps
      the lists exact. */
  lemma {:induction false} ExactRebind(f: Forest, r: Forest, u: nat, v: nat)
    requires Exact(f) && u in f.ids && v in f.ids && f.ids[u] != f.ids[v]
    requires Wf(r) && r.ids.Keys == f.ids.Keys
    requires r.store == f.store[f.ids[v] := f.store[f.ids[v]] + f.store[f.ids[u]]]
    requires forall x | x in f.ids :: r.ids[x] == if f.ids[x] == f.ids[u] then f.ids[v] else f.ids[x]
    ensures Exact(r)
  {
    var a, b := f.ids[v], f.ids[u];
    forall x, y | x in r.ids ensures y in r.store[r.ids[x]] <==> (y in r.ids && r.ids[y] == r.ids[x]) {
      if r.ids[x] != a {
        assert r.store[r.ids[x]] == f.store[f.ids[x]];
      } else {
        assert y in f.store[f.ids[v]] <==> (y in f.ids && f.ids[y] == a);
        assert y in f.store[f.ids[u]] <==> (y in f.ids && f.ids[y] == b);
      }
    }
  }

  lemma {:induction false} MergeExact(f: Forest, e: Edge)
    requires Exact(f) && e.u in f.S && e.v in f.S
    ensures Exact(Merge(f, e))
  {
    if e.u !in f.store[f.ids[e.v]] {
      ExactRebind(f, Merge(f, e), e.u, e.v);
    }
  }

  lemma {:induction false} MergeClosed(f: Forest, e: Edge)
    requires Exact(f) && Closed(f) && e.u in f.S && e.v in f.S
    ensures Closed(Merge(f, e))
  {
    var a, b := f.ids[e.v], f.ids[e.u];
    if e.u !in f.store[a] {
      var r := Merge(f, e);
      forall k | 0 <= k < |r.T| ensures r.T[k].u in r.ids && r.T[k].v in r.ids && r.ids[r.T[k].u] == r.ids[r.T[k].v] {
        if k < |f.T| {
          assert r.T[k] == f.T[k];
        }
      }
    }
  }

  /** An edge taken by the intended second pass joins two components. */
  lemma {:induction false} MergeAcyclic(f: Forest, e: Edge)
    requires Exact(f) && Closed(f) && Acyclic(f.T) && e.u in f.S && e.v in f.S
    ensures Acyclic(Merge(f, e).T)
  {
    if e.u !in f.store[f.ids[e.v]] {
      assert !Conn(f.T, e.u, e.v) by {
        if Conn(f.T, e.u, e.v) {
          ClosedConn(f, e.u, e.v);
        }
      }
      AcyclicSnoc(f.T, e);
    }
  }

  lemma {:induction false} MergeLinked(f: Forest, e: Edge)
    requires Exact(f) && AllLinked(f.T, f.store) && e.u in f.S && e.v in f.S
    ensures AllLinked(Merge(f, e).T, Merge(f, e).store) && Conn(Merge(f, e).T, e.u, e.v)
  {
    var a, b := f.ids[e.v], f.ids[e.u];
    if e.u in f.store[a] {
      assert e.v in f.store[a];
      assert Linked(f.T, f.store[a]);
    } else {
      var T := f.T + [e];
      ConnEdge(T, |f.T|);
      AllLinkedGrow(f.T, e, f.store);
      LinkedJoin(T, f.store[a], f.store[b], e.v, e.u);
    }
  }

  /** What the intended second pass keeps. */
  ghost predicate Tidy(f: Forest) {
    Exact(f) && Closed(f) && Acyclic(f.T) && AllLinked(f.T, f.store)
  }

  lemma {:induction false} MergeTidy(f: Forest, e: Edge)
    requires Tidy(f) && e.u in f.S && e.v in f.S
    ensures Tidy(Merge(f, e)) && Conn(Merge(f, e).T, e.u, e.v)
  {
    MergeExact(f, e);
    MergeClosed(f, e);
    MergeAcyclic(f, e);
    MergeLinked(f, e);
  }

  lemma {:induction false} SecondPassFixedTidy(f: Forest, es: seq<Edge>)
    requires Tidy(f) && Covered(f, es)
    ensures Tidy(SecondPassFixed(f, es)) && Extends(f, SecondPassFixed(f, es), es)
    ensures Spans(SecondPassFixed(f, es).T, es)
    decreases |es|
  {
    if es != [] {
      var es' := es[..|es| - 1];
      var e := es[|es| - 1];
      assert es == es' + [e];
      assert Covered(f, es');
      var g := SecondPassFixed(f, es');
      SecondPassFixedTidy(f, es');
      var r := Merge(g, e);
      MergeTidy(g, e);
      ExtendsStep(f, g, r, es', e);
      SpansStep(g.T, r.T, es', e);
    } else {
      assert f.T[..|f.T|] == f.T;
    }
  }

  lemma {:induction false} FirstPassTidy(es: seq<Edge>)
    requires AllWEdges(es)
    ensures Tidy(FirstPass(es)) && Within(FirstPass(es).T, es)
  {
    FirstPassExact(es);
    FirstPassSound(es);
    FirstPassForest(es);
  }

  /** With whole lists rebound the result is a spanning forest: it closes no
      cycle, uses only edges of the graph, and connects the ends of every
      edge of the graph. */
  lemma {:induction false} SpanningForestSpec(edges: seq<Edge>)
    requires AllWEdges(edges)
    ensures Acyclic(SpanningForest(edges)) && Within(SpanningForest(edges), edges)
    ensures Spans(SpanningForest(edges), edges)
  {
    var es := SortByWeight(edges);
    SortByWeightSpec(edges);
    var f := FirstPass(es);
    FirstPassTidy(es);
    var r := SecondPassFixed(f, es);
    SecondPassFixedTidy(f, es);
    WithinExtends(f, r, es);
    WithinPerm(r.T, es, edges);
    SpansPerm(r.T, es, edges);
  }

  // ---------------------------------------------------------------------
  // Four vertices on which the second pass as written closes a cycle.

  /** The edge list of the square 0-2-1-3-0 with weights 1, 2, 3, 4, in the
      order the upper-triangle scan reports it. */
  function SquareEdges(): (r: seq<Edge>)
    ensures AllWEdges(r)
  {
    [Weighted(1, 0, 2), Weighted(4, 0, 3), Weighted(3, 1, 2), Weighted(2, 1, 3)]
  }

  lemma SquareSortedTwo()
    ensures SortByWeight([Weighted(3, 1, 2), Weighted(2, 1, 3)]) == [Weighted(2, 1, 3), Weighted(3, 1, 2)]
  {
    var e1, e2 := Weighted(2, 1, 3), Weighted(3, 1, 2);
    assert [e2, e1][1..] == [e1] && [e1][1..] == [];
    assert SortByWeight([e1]) == [e1];
    assert Insert(e2, [e1]) == [e1, e2];
  }

  lemma SquareSortedThree()
    ensures SortByWeight([Weighted(4, 0, 3), Weighted(3, 1, 2), Weighted(2, 1, 3)])
         == [Weighted(2, 1, 3), Weighted(3, 1, 2), Weighted(4, 0, 3)]
  {
    var e1, e2, e3 := Weighted(2, 1, 3), Weighted(3, 1, 2), Weighted(4, 0, 3);
    SquareSortedTwo();
    assert [e3, e2, e1][1..] == [e2, e1];
    assert [e1, e2][1..] == [e2] && [e2][1..] == [];
    assert Insert(e3, [e2]) == [e2, e3];
    assert Insert(e3, [e1, e2]) == [e1, e2, e3];
  }

  lemma SquareSorted()
    ensures SortByWeight(SquareEdges()) == [Weighted(1, 0, 2), Weighted(2, 1, 3), Weighted(3, 1, 2), Weighted(4, 0, 3)]
  {
    var e0, e1, e2, e3 := Weighted(1, 0, 2), Weighted(2, 1, 3), Weighted(3, 1, 2), Weighted(4, 0, 3);
    var es := SquareEdges();
    SquareSortedThree();
    assert es[1..] == [e3, e2, e1];
    assert SortByWeight(es[1..]) == [e1, e2, e3];
    assert Insert(e0, [e1, e2, e3]) == [e0, e1, e2, e3];
  }

  lemma SquareFirstOne()
    ensures FirstPass([Weighted(1, 0, 2)]) == Forest({0, 2}, map[0 := 0, 2 := 0], [[0, 2, 0]], [Weighted(1, 0, 2)])
  {
    var e0 := Weighted(1, 0, 2);
    assert [e0][..0] == [];
    assert [0, 2] + [0] == [0, 2, 0];
    var f1 := Join(Forest({}, map[], [], []), e0);
    assert f1.store == [[0, 2, 0]];
    assert f1.ids == map[0 := 0, 2 := 0];
  }

  lemma SquareFirstTwo()
    ensures FirstPass([Weighted(1, 0, 2), Weighted(2, 1, 3)])
         == Forest({0, 1, 2, 3}, map[0 := 0, 2 := 0, 1 := 1, 3 := 1], [[0, 2, 0], [1, 3, 1]],
                   [Weighted(1, 0, 2), Weighted(2, 1, 3)])
  {
    var e0, e1 := Weighted(1, 0, 2), Weighted(2, 1, 3);
    SquareFirstOne();
    assert [e0, e1][..1] == [e0];
    var f1 := Forest({0, 2}, map[0 := 0, 2 := 0], [[0, 2, 0]], [e0]);
    assert [1, 3] + [1] == [1, 3, 1];
    var f2 := Join(f1, e1);
    assert f2.store == [[0, 2, 0], [1, 3, 1]];
    assert f2.ids == map[0 := 0, 2 := 0, 1 := 1, 3 := 1];
    assert f2.S == {0, 1, 2, 3};
  }

  lemma SquareFirstPass()
    ensures FirstPass([Weighted(1, 0, 2), Weighted(2, 1, 3), Weighted(3, 1, 2), Weighted(4, 0, 3)])
         == Forest({0, 1, 2, 3}, map[0 := 0, 2 := 0, 1 := 1, 3 := 1], [[0, 2, 0], [1, 3, 1]],
                   [Weighted(1, 0, 2), Weighted(2, 1, 3)])
  {
    var e0, e1, e2, e3 := Weighted(1, 0, 2), Weighted(2, 1, 3), Weighted(3, 1, 2), Weighted(4, 0, 3);
    SquareFirstTwo();
    assert [e0, e1, e2, e3][..3] == [e0, e1, e2] && [e0, e1, e2][..2] == [e0, e1];
    assert FirstPass([e0, e1, e2]) == FirstPass([e0, e1]);
  }

  /** The state after the first pass on the square. */
  function SquarePieces(): Forest {
    Forest({0, 1, 2, 3}, map[0 := 0, 2 := 0, 1 := 1, 3 := 1], [[0, 2, 0], [1, 3, 1]],
           [Weighted(1, 0, 2), Weighted(2, 1, 3)])
  }

  /** The state after the third edge: vertex 3 is still bound to the old
      list [1, 3, 1]. */
  function SquareJoined(): Forest {
    Forest({0, 1, 2, 3}, map[0 := 0, 2 := 0, 1 := 0, 3 := 1], [[0, 2, 0, 1, 3, 1], [1, 3, 1]],
           [Weighted(1, 0, 2), Weighted(2, 1, 3), Weighted(3, 1, 2)])
  }

  /** Vertex 0 is not on the stale list of vertex 3, so (0, 3) is taken. */
  lemma SquareLast()
    ensures Wf(SquareJoined()) && 0 in SquareJoined().S && 3 in SquareJoined().S
    ensures Stitch(SquareJoined(), Weighted(4, 0, 3)).T
         == [Weighted(1, 0, 2), Weighted(2, 1, 3), Weighted(3, 1, 2), Weighted(4, 0, 3)]
  {
    var g := SquareJoined();
    assert g.store[g.ids[3]] == [1, 3, 1];
  }

  lemma SquareStitch()
    ensures Wf(SquarePieces())
    ensures Stitch(SquarePieces(), Weighted(3, 1, 2)) == SquareJoined()
  {
    var f := SquarePieces();
    assert [0, 2, 0] + [1, 3, 1] == [0, 2, 0, 1, 3, 1];
    var g := Stitch(f, Weighted(3, 1, 2));
    assert g.store == [[0, 2, 0, 1, 3, 1], [1, 3, 1]];
    assert g.ids == map[0 := 0, 2 := 0, 1 := 0, 3 := 1];
  }

  /** The first two edges are already inside the pieces. */
  lemma SquarePassTwo()
    ensures Wf(SquarePieces())
    ensures Covered(SquarePieces(), [Weighted(1, 0, 2), Weighted(2, 1, 3)])
    ensures SecondPass(SquarePieces(), [Weighted(1, 0, 2), Weighted(2, 1, 3)]) == SquarePieces()
  {
    var e0, e1 := Weighted(1, 0, 2), Weighted(2, 1, 3);
    var f := SquarePieces();
    assert [e0, e1][..1] == [e0] && [e0][..0] == [];
    assert SecondPass(f, [e0]) == f;
  }

  /** The third edge joins the pieces, rebinding vertex 1 only. */
  lemma SquarePassThree()
    ensures Wf(SquarePieces())
    ensures Covered(SquarePieces(), [Weighted(1, 0, 2), Weighted(2, 1, 3), Weighted(3, 1, 2)])
    ensures SecondPass(SquarePieces(), [Weighted(1, 0, 2), Weighted(2, 1, 3), Weighted(3, 1, 2)])
         == Stitch(SquarePieces(), Weighted(3, 1, 2))
  {
    var e0, e1, e2 := Weighted(1, 0, 2), Weighted(2, 1, 3), Weighted(3, 1, 2);
    SquarePassTwo();
    assert [e0, e1, e2][..2] == [e0, e1];
  }

  /** Every end of the square's edges is a vertex of the pieces. */
  lemma SquareCovered()
    ensures Covered(SquarePieces(), [Weighted(1, 0, 2), Weighted(2, 1, 3), Weighted(3, 1, 2), Weighted(4, 0, 3)])
  {
    var es := [Weighted(1, 0, 2), Weighted(2, 1, 3), Weighted(3, 1, 2), Weighted(4, 0, 3)];
    forall k | 0 <= k < |es|
      ensures es[k].u in {0, 1, 2, 3} && es[k].v in {0, 1, 2, 3}
    {
    }
  }

  lemma SquareSecondPass()
    ensures Covered(SquarePieces(), [Weighted(1, 0, 2), Weighted(2, 1, 3), Weighted(3, 1, 2), Weighted(4, 0, 3)])
    ensures SecondPass(SquarePieces(), [Weighted(1, 0, 2), Weighted(2, 1, 3), Weighted(3, 1, 2), Weighted(4, 0, 3)]).T
         == [Weighted(1, 0, 2), Weighted(2, 1, 3), Weighted(3, 1, 2), Weighted(4, 0, 3)]
  {
    var es := [Weighted(1, 0, 2), Weighted(2, 1, 3), Weighted(3, 1, 2), Weighted(4, 0, 3)];
    SquareCovered();
    SquareStitch();
    SquarePassThree();
    SquareLast();
    assert es[..3] == [Weighted(1, 0, 2), Weighted(2, 1, 3), Weighted(3, 1, 2)];
    assert SecondPass(SquarePieces(), es) == Stitch(SquareJoined(), es[3]);
  }

  /** Only vertex 1 is rebound when (1, 2) joins the two pieces, so vertex 3
      still sees a list without 0 and (0, 3) is taken as well: all four edges,
      weight 10, where 1 + 2 + 3 suffices. */
  lemma SquareTree()
    ensures SpanningTree(SquareEdges()) == [Weighted(1, 0, 2), Weighted(2, 1, 3), Weighted(3, 1, 2), Weighted(4, 0, 3)]
  {
    var es := [Weighted(1, 0, 2), Weighted(2, 1, 3), Weighted(3, 1, 2), Weighted(4, 0, 3)];
    SquareSorted();
    SquareFirstPass();
    assert FirstPass(es) == SquarePieces();
    SquareSecondPass();
  }

  /** The tree as written closes a cycle. */
  lemma SpanningTreeCycle()
    ensures !Acyclic(SpanningTree(SquareEdges()))
  {
    var e0, e1, e2, e3 := Weighted(1, 0, 2), Weighted(2, 1, 3), Weighted(3, 1, 2), Weighted(4, 0, 3);
    var T := [e0, e1, e2, e3];
    var U := [e0, e1, e2];
    assert T[..3] == U;
    ConnEdge(U, 0);
    ConnEdge(U, 1);
    ConnEdge(U, 2);
    ConnTrans(U, 0, 2, 1);
    ConnTrans(U, 0, 1, 3);
    assert Conn(T[..3], T[3].u, T[3].v);
    SquareTree();
  }

  // ---------------------------------------------------------------------
  // The class.

  /** One edge of the first pass on the variables of `__run`. */
  method FirstStep(S: set<nat>, ids: map<nat, nat>, store: seq<seq<nat>>, tree: seq<Edge>, e: Edge)
    returns (S': set<nat>, ids': map<nat, nat>, store': seq<seq<nat>>, tree': seq<Edge>)
    requires Wf(Forest(S, ids, store, tree)) && IsWEdge(e)
    ensures Forest(S', ids', store', tree') == Join(Forest(S, ids, store, tree), e)
  {
    S', ids', store', tree' := S, ids, store, tree;
    var u, v := e.u, e.v;
    if u !in S' || v !in S' {
      if u !in S' && v !in S' {
        ids' := ids'[u := |store'|][v := |store'|];
        store' := store' + [[u, v]];
      }
      if u in S' {
        store' := store'[ids'[u] := store'[ids'[u]] + [v]];
        ids' := ids'[v := ids'[u]];
      } else {
        store' := store'[ids'[v] := store'[ids'[v]] + [u]];
        ids' := ids'[u := ids'[v]];
      }
      tree' := tree' + [e];
      S' := S' + {v};
      S' := S' + {u};
    }
  }

  /** One edge of the second pass on the variables of `__run`. */
  method SecondStep(S: set<nat>, ids: map<nat, nat>, store: seq<seq<nat>>, tree: seq<Edge>, e: Edge)
    returns (ids': map<nat, nat>, store': seq<seq<nat>>, tree': seq<Edge>)
    requires Wf(Forest(S, ids, store, tree)) && e.u in S && e.v in S
    ensures Forest(S, ids', store', tree') == Stitch(Forest(S, ids, store, tree), e)
  {
    ids', store', tree' := ids, store, tree;
    var u, v := e.u, e.v;
    if u !in store'[ids'[v]] {
      tree' := tree' + [e];
      store' := store'[ids'[v] := store'[ids'[v]] + store'[ids'[u]]];
      ids' := ids'[u := ids'[v]];
    }
  }

  /** The first loop of `__run`, from an empty state. */
  method FirstLoop(es: seq<Edge>) returns (S: set<nat>, ids: map<nat, nat>, store: seq<seq<nat>>, tree: seq<Edge>)
    requires AllWEdges(es)
    ensures Forest(S, ids, store, tree) == FirstPass(es)
  {
    S, ids, store, tree := {}, map[], [], [];
    assert es[..0] == [];
    for i := 0 to |es|
      invariant Forest(S, ids, store, tree) == FirstPass(es[..i])
    {
      assert es[..i + 1][..i] == es[..i];
      S, ids, store, tree := FirstStep(S, ids, store, tree, es[i]);
    }
    assert es[..|es|] == es;
  }

  /** The second loop of `__run`, from the state the first one left. */
  method SecondLoop(S: set<nat>, ids: map<nat, nat>, store: seq<seq<nat>>, tree: seq<Edge>, es: seq<Edge>)
    returns (ids': map<nat, nat>, store': seq<seq<nat>>, tree': seq<Edge>)
    requires Wf(Forest(S, ids, store, tree)) && Covered(Forest(S, ids, store, tree), es)
    ensures Forest(S, ids', store', tree') == SecondPass(Forest(S, ids, store, tree), es)
  {
    ids', store', tree' := ids, store, tree;
    assert es[..0] == [];
    for i := 0 to |es|
      invariant Forest(S, ids', store', tree') == SecondPass(Forest(S, ids, store, tree), es[..i])
    {
      assert es[..i + 1][..i] == es[..i];
      ids', store', tree' := SecondStep(S, ids', store', tree', es[i]);
    }
    assert es[..|es|] == es;
  }

  /** One edge of the second pass as intended: v's list object grows by
      u's list and every vertex bound to u's list is rebound to v's. */
  method MergeStep(S: set<nat>, ids: map<nat, nat>, store: seq<seq<nat>>, tree: seq<Edge>, e: Edge)
    returns (ids': map<nat, nat>, store': seq<seq<nat>>, tree': seq<Edge>)
    requires Wf(Forest(S, ids, store, tree)) && e.u in S && e.v in S
    ensures Forest(S, ids', store', tree') == Merge(Forest(S, ids, store, tree), e)
  {
    ids', store', tree' := ids, store, tree;
    var u, v := e.u, e.v;
    if u !in store'[ids'[v]] {
      var a, b := ids'[v], ids'[u];
      tree' := tree' + [e];
      store' := store'[a := store'[a] + store'[b]];
      ids' := map x | x in ids' :: if ids'[x] == b then a else ids'[x];
    }
  }

  /** The second loop with whole lists rebound, from the state the first
      one left. */
  method SecondLoopFixed(S: set<nat>, ids: map<nat, nat>, store: seq<seq<nat>>, tree: seq<Edge>, es: seq<Edge>)
    returns (ids': map<nat, nat>, store': seq<seq<nat>>, tree': seq<Edge>)
    requires Wf(Forest(S, ids, store, tree)) && Covered(Forest(S, ids, store, tree), es)
    ensures Forest(S, ids', store', tree') == SecondPassFixed(Forest(S, ids, store, tree), es)
  {
    ids', store', tree' := ids, store, tree;
    assert es[..0] == [];
    for i := 0 to |es|
      invariant Forest(S, ids', store', tree') == SecondPassFixed(Forest(S, ids, store, tree), es[..i])
    {
      assert es[..i + 1][..i] == es[..i];
      ids', store', tree' := MergeStep(S, ids', store', tree', es[i]);
    }
    assert es[..|es|] == es;
  }

  /** `Kruskal(G)` on a weighted undirected graph, with the second pass as
      written: only u is rebound to the merged list (see `SpanningTreeCycle`
      for the cycle this can close, and `SpanningForest` for the pass that
      rebinds whole lists). */
  class Kruskal {
    const edges: seq<Edge>
    var tree: seq<Edge>

    /** Takes the graph's edge list and runs the algorithm. The tree uses
        only edges of the graph and connects the ends of every edge of the
        graph; it starts with the first pass's edges, which close no cycle. */
    constructor (g: Graph)
      requires g.Valid() && g.kind == Undirected && g.weighted
      ensures forall e :: e in edges <==> Reported(g.matrix, g.gap, true, Upper, e)
      ensures forall a, b | 0 <= a < b < |edges| :: Before(edges[a], edges[b])
      ensures AllWEdges(edges) && tree == SpanningTree(edges)
      ensures Within(tree, edges) && Spans(tree, edges)
      ensures var T1 := FirstPass(SortByWeight(edges)).T;
                |T1| <= |tree| && tree[..|T1|] == T1 && Acyclic(T1)
    {
      var es := g.EdgeList();
      forall k | 0 <= k < |es| ensures IsWEdge(es[k]) {
        assert Reported(g.matrix, g.gap, g.weighted, Upper, es[k]);
      }
      edges := es;
      tree := [];
      new;
      Run();
      SpanningTreeEdges(edges);
      SpanningTreeSpans(edges);
      SpanningTreePrefix(edges);
      FirstPassExact(SortByWeight(edges));
    }

    /** `__run`: the two passes over the edges sorted by weight. */
    method Run()
      requires AllWEdges(edges) && tree == []
      modifies this
      ensures tree == SpanningTree(edges)
    {
      var es := SortByWeight(edges);
      var S, ids, store, t := FirstLoop(es);
      ids, store, t := SecondLoop(S, ids, store, t, es);
      tree := t;
    }
  }
}
