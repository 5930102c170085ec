/** An array max-heap: the children of index i sit at 2i+1 and 2i+2, and
    every element is at least as large as its children. */
module Heaps {
  import opened Graphs

  // ---------------------------------------------------------------------
  // Index arithmetic and subtrees.

  /** `__get_ichilds`: the left and right child of i. Each has i as its
      parent under the `(ichild - 1) // 2` of `__order_up`. */
  function GetChildren(i: nat): (r: (nat, nat))
    ensures (r.0 - 1) / 2 == i && (r.1 - 1) / 2 == i
    ensures i < r.0 && r.1 == r.0 + 1 && r.0 % 2 == 1
  {
    (2 * i + 1, 2 * i + 2)
  }

  /** j lies in the subtree rooted at k. */
  ghost predicate Sub(k: nat, j: nat)
    decreases j
  {
    j == k || (j > k && Sub(k, (j - 1) / 2))
  }

  lemma {:induction false} SubChild(k: nat, j: nat)
    requires Sub(k, j)
    ensures Sub(k, 2 * j + 1) && Sub(k, 2 * j + 2)
  {
    assert (2 * j + 1 - 1) / 2 == j && (2 * j + 2 - 1) / 2 == j;
  }

  /** The subtree of a child lies inside the subtree of its parent. */
  lemma {:induction false} SubOfChild(k: nat, c: nat, j: nat)
    requires c == 2 * k + 1 || c == 2 * k + 2
    requires Sub(c, j)
    ensures Sub(k, j)
    decreases j
  {
    if j != c {
      SubOfChild(k, c, (j - 1) / 2);
    }
  }

  /** A subtree is its root and the subtrees of the two children. */
  lemma {:induction false} SubSplit(k: nat, j: nat)
    requires Sub(k, j) && j != k
    ensures Sub(2 * k + 1, j) || Sub(2 * k + 2, j)
    decreases j
  {
    var p := (j - 1) / 2;
    if p != k {
      SubSplit(k, p);
      if Sub(2 * k + 1, p) {
        SubGe(2 * k + 1, p);
      } else {
        SubGe(2 * k + 2, p);
      }
    } else {
      assert j == 2 * k + 1 || j == 2 * k + 2;
    }
  }

  lemma {:induction false} SubGe(k: nat, j: nat)
    requires Sub(k, j)
    ensures k <= j
  {
  }

  /** The subtrees of two siblings are disjoint. */
  lemma {:induction false} SubDisjoint(k: nat, j: nat)
    requires Sub(2 * k + 1, j)
    ensures !Sub(2 * k + 2, j)
    decreases j
  {
    if j != 2 * k + 1 && j != 2 * k + 2 {
      var p := (j - 1) / 2;
      SubDisjoint(k, p);
    }
  }

  /** The children of a vertex outside a subtree are outside it too. */
  lemma {:induction false} SubOutside(k: nat, j: nat, c: nat)
    requires k < j && !Sub(k, j) && (c == 2 * j + 1 || c == 2 * j + 2)
    ensures !Sub(k, c)
  {
    assert (c - 1) / 2 == j;
  }

  /** Every index is in the subtree of the root. */
  lemma {:induction false} SubRoot(j: nat)
    ensures Sub(0, j)
    decreases j
  {
    if j > 0 {
      SubRoot((j - 1) / 2);
    }
  }

  // ---------------------------------------------------------------------
  // The heap property.

  /** j is at least as large as each of its children that exists. */
  predicate HeapAt(a: seq<int>, j: nat) {
    (2 * j + 1 < |a| ==> a[j] >= a[2 * j + 1]) && (2 * j + 2 < |a| ==> a[j] >= a[2 * j + 2])
  }

  predicate IsHeap(a: seq<int>) {
    forall j | 0 <= j < |a| :: HeapAt(a, j)
  }

  /** The heap property at every index strictly below k. */
  ghost predicate HeapBelow(a: seq<int>, k: nat) {
    forall j | k < j < |a| && Sub(k, j) :: HeapAt(a, j)
  }

  ghost predicate HeapFrom(a: seq<int>, k: nat) {
    HeapAt(a, k) && HeapBelow(a, k)
  }

  /** Every element of the subtree of k is at most b. */
  ghost predicate Bounded(a: seq<int>, k: nat, b: int) {
    forall j | k <= j < |a| && Sub(k, j) :: a[j] <= b
  }

  /** The top of a heap subtree is its largest element. */
  lemma {:induction false} HeapTop(a: seq<int>, k: nat, j: nat)
    requires HeapFrom(a, k) && k < |a| && Sub(k, j) && j < |a|
    ensures a[j] <= a[k]
    decreases j
  {
    if j != k {
      var p := (j - 1) / 2;
      HeapTop(a, k, p);
      assert HeapAt(a, p);
    }
  }

  lemma {:induction false} HeapTopBounded(a: seq<int>, k: nat)
    requires HeapFrom(a, k) && k < |a|
    ensures Bounded(a, k, a[k])
  {
    forall j | k <= j < |a| && Sub(k, j) ensures a[j] <= a[k] {
      HeapTop(a, k, j);
    }
  }

  /** A heap's first element is its maximum. */
  lemma {:induction false} HeapMax(a: seq<int>)
    requires IsHeap(a) && |a| > 0
    ensures forall x | x in a :: x <= a[0]
  {
    forall j | 0 <= j < |a| ensures a[j] <= a[0] {
      SubRoot(j);
      HeapTop(a, 0, j);
    }
  }

  /** The heap property in a subtree reads only that subtree. */
  lemma {:induction false} HeapFromFrame(a: seq<int>, b: seq<int>, k: nat)
    requires HeapFrom(a, k) && |a| == |b|
    requires forall j | k <= j < |a| && Sub(k, j) :: b[j] == a[j]
    ensures HeapFrom(b, k)
  {
    forall j | k <= j < |b| && Sub(k, j) ensures HeapAt(b, j) {
      SubChild(k, j);
      assert HeapAt(a, j);
    }
  }

  /** Below k, the heap property means both children's subtrees are heaps. */
  lemma {:induction false} HeapBelowKids(a: seq<int>, k: nat)
    ensures HeapBelow(a, k) <==> HeapFrom(a, 2 * k + 1) && HeapFrom(a, 2 * k + 2)
  {
    if HeapBelow(a, k) {
      BelowToKid(a, k, 2 * k + 1);
      BelowToKid(a, k, 2 * k + 2);
    }
    if HeapFrom(a, 2 * k + 1) && HeapFrom(a, 2 * k + 2) {
      KidsToBelow(a, k);
    }
  }

  lemma {:induction false} BelowToKid(a: seq<int>, k: nat, c: nat)
    requires c == 2 * k + 1 || c == 2 * k + 2
    requires HeapBelow(a, k)
    ensures HeapFrom(a, c)
  {
    assert Sub(k, c) by {
      assert (c - 1) / 2 == k;
    }
    forall j | c < j < |a| && Sub(c, j) ensures HeapAt(a, j) {
      SubOfChild(k, c, j);
    }
  }

  lemma {:induction false} KidsToBelow(a: seq<int>, k: nat)
    requires HeapFrom(a, 2 * k + 1) && HeapFrom(a, 2 * k + 2)
    ensures HeapBelow(a, k)
  {
    var l, r := 2 * k + 1, 2 * k + 2;
    forall j | k < j < |a| && Sub(k, j) ensures HeapAt(a, j) {
      SubSplit(k, j);
      if Sub(l, j) {
        SubGe(l, j);
      } else {
        SubGe(r, j);
      }
    }
  }

  // ---------------------------------------------------------------------
  // Sift-down steps shared by `__heapify` and `__order_down`.

  function SwapAt(a: seq<int>, i: nat, j: nat): (b: seq<int>)
    requires i < |a| && j < |a|
    ensures |b| == |a| && b[i] == a[j] && b[j] == a[i]
    ensures forall x | 0 <= x < |a| && x != i && x != j :: b[x] == a[x]
  {
    a[i := a[j]][j := a[i]]
  }

  lemma {:induction false} SwapPermutes(a: seq<int>, i: nat, j: nat)
    requires i < |a| && j < |a|
    ensures multiset(SwapAt(a, i, j)) == multiset(a)
  {
  }

  /** Before sinking a[k] into child c: after the swap the subtree of c is
      a heap below c, and holds nothing above the value moved up to k. */
  lemma {:induction false} SinkPre(a: seq<int>, k: nat, c: nat)
    requires c == 2 * k + 1 || c == 2 * k + 2
    requires c < |a| && HeapFrom(a, c) && a[k] < a[c]
    ensures HeapBelow(SwapAt(a, k, c), c) && Bounded(SwapAt(a, k, c), c, a[c])
  {
    var b := SwapAt(a, k, c);
    HeapTopBounded(a, c);
    forall j | c <= j < |a| && Sub(c, j) && j != c ensures b[j] == a[j] {
    }
    forall j | c < j < |a| && Sub(c, j) ensures HeapAt(b, j) {
      SubChild(c, j);
      assert HeapAt(a, j);
    }
  }

  /** After sinking into child c and repairing c's subtree: k holds the old
      a[c], at least the new top of c, and the sibling's subtree is as
      it was. */
  lemma {:induction false} SinkPost(a: seq<int>, b: seq<int>, k: nat, c: nat, o: nat)
    requires (c == 2 * k + 1 && o == 2 * k + 2) || (c == 2 * k + 2 && o == 2 * k + 1)
    requires c < |a| && HeapFrom(a, o)
    requires Sifted(SwapAt(a, k, c), b, c) && HeapFrom(b, c)
    requires Bounded(b, c, a[c])
    ensures b[k] == a[c] && b[c] <= b[k] && HeapFrom(b, o)
    ensures forall j | 0 <= j < |a| && !Sub(k, j) :: b[j] == a[j]
  {
    var s := SwapAt(a, k, c);
    assert !Sub(c, k) by {
      if Sub(c, k) {
        SubGe(c, k);
      }
    }
    forall j | o <= j < |a| && Sub(o, j) ensures b[j] == a[j] {
      if o == 2 * k + 1 {
        SubDisjoint(k, j);
      } else {
        assert !Sub(2 * k + 1, j) by {
          if Sub(2 * k + 1, j) {
            SubDisjoint(k, j);
          }
        }
      }
      SubGe(o, j);
    }
    HeapFromFrame(a, b, o);
    forall j | 0 <= j < |a| && !Sub(k, j) ensures b[j] == a[j] {
      assert !Sub(c, j) by {
        if Sub(c, j) {
          SubOfChild(k, c, j);
        }
      }
      assert Sub(k, k);
    }
  }

  /** What both child phases of a sift leave: each child's subtree is a heap
      and k is at least the child handled. */
  lemma {:induction false} SinkDone(a: seq<int>, k: nat)
    requires k < |a| && HeapFrom(a, 2 * k + 1) && HeapFrom(a, 2 * k + 2)
    requires 2 * k + 1 < |a| ==> a[k] >= a[2 * k + 1]
    requires 2 * k + 2 < |a| ==> a[k] >= a[2 * k + 2]
    ensures HeapFrom(a, k)
  {
    KidsToBelow(a, k);
  }

  /** b rearranges a inside the subtree of k: same elements, nothing
      outside the subtree moved, and no bound on the subtree broken. */
  ghost predicate Sifted(a: seq<int>, b: seq<int>, k: nat) {
    |b| == |a| && multiset(b) == multiset(a)
    && (forall j | 0 <= j < |a| && !Sub(k, j) :: b[j] == a[j])
    && forall x :: Bounded(a, k, x) ==> Bounded(b, k, x)
  }

  lemma {:induction false} SiftedTrans(a: seq<int>, b: seq<int>, c: seq<int>, k: nat)
    requires Sifted(a, b, k) && Sifted(b, c, k)
    ensures Sifted(a, c, k)
  {
  }

  lemma {:induction false} SiftedRefl(a: seq<int>, k: nat)
    ensures Sifted(a, a, k)
  {
  }

  /** Bounds on the subtree of k survive a sift into child c. */
  lemma {:induction false} SinkBounded(a: seq<int>, b: seq<int>, k: nat, c: nat, bound: int)
    requires c == 2 * k + 1 || c == 2 * k + 2
    requires c < |a| && Bounded(a, k, bound)
    requires Sifted(SwapAt(a, k, c), b, c)
    ensures Bounded(b, k, bound)
  {
    var s := SwapAt(a, k, c);
    assert Sub(k, c);
    forall j | c <= j < |s| && Sub(c, j) ensures s[j] <= bound {
      SubOfChild(k, c, j);
    }
    assert Bounded(s, c, bound);
    forall j | k <= j < |b| && Sub(k, j) ensures b[j] <= bound {
      if !Sub(c, j) {
        assert s[j] <= bound;
      }
    }
  }

  /** One child phase of a sift: a[k] swapped with the larger child c and
      c's subtree repaired gives b. */
  lemma {:induction false} SinkStep(a: seq<int>, b: seq<int>, k: nat, c: nat, o: nat)
    requires (c == 2 * k + 1 && o == 2 * k + 2) || (c == 2 * k + 2 && o == 2 * k + 1)
    requires c < |a| && HeapFrom(a, o) && a[k] < a[c]
    requires Sifted(SwapAt(a, k, c), b, c) && HeapFrom(b, c)
    requires Bounded(b, c, a[c])
    ensures Sifted(a, b, k) && HeapFrom(b, o) && b[k] == a[c] && b[c] <= b[k]
    ensures o < |a| ==> b[o] == a[o]
  {
    SwapPermutes(a, k, c);
    SinkPost(a, b, k, c, o);
    forall x | Bounded(a, k, x) ensures Bounded(b, k, x) {
      SinkBounded(a, b, k, c, x);
    }
    if o < |a| {
      assert !Sub(c, o) by {
        if Sub(c, o) {
          SubOfChild(k, c, o);
          if c == 2 * k + 1 {
            SubDisjoint(k, o);
          } else {
            SubDisjoint(k, c);
          }
        }
      }
    }
  }

  // ---------------------------------------------------------------------
  // The sift of `__order_down`, with the swap going to the larger child.

  /** `__order_down` as a function on the list: when both children exceed
      a[k] it swaps with the larger and sinks there; otherwise it sinks into
      the left child when that exceeds a[k], and then into the right child
      when that exceeds the new a[k]. */
  function SiftDown(a: seq<int>, k: nat): (r: seq<int>)
    ensures |r| == |a|
    decreases |a| - k
  {
    var l, rt := 2 * k + 1, 2 * k + 2;
    if rt < |a| && a[k] < a[l] && a[k] < a[rt] then
      var c := if a[l] >= a[rt] then l else rt;
      SiftDown(SwapAt(a, k, c), c)
    else
      var a1 := if l < |a| && a[k] < a[l] then SiftDown(SwapAt(a, k, l), l) else a;
      if rt < |a1| && a1[k] < a1[rt] then SiftDown(SwapAt(a1, k, rt), rt) else a1
  }

  // The ways one call of `SiftDown` can go.

  lemma {:induction false} SiftBoth(a: seq<int>, k: nat)
    requires 2 * k + 2 < |a| && a[k] < a[2 * k + 1] && a[k] < a[2 * k + 2]
    ensures var c := if a[2 * k + 1] >= a[2 * k + 2] then 2 * k + 1 else 2 * k + 2;
      SiftDown(a, k) == SiftDown(SwapAt(a, k, c), c)
  {
  }

  lemma {:induction false} SiftLeft(a: seq<int>, k: nat)
    requires 2 * k + 1 < |a| && a[k] < a[2 * k + 1] && !(2 * k + 2 < |a| && a[k] < a[2 * k + 2])
    requires var b := SiftDown(SwapAt(a, k, 2 * k + 1), 2 * k + 1); !(2 * k + 2 < |b| && b[k] < b[2 * k + 2])
    ensures SiftDown(a, k) == SiftDown(SwapAt(a, k, 2 * k + 1), 2 * k + 1)
  {
  }

  lemma {:induction false} SiftRight(a: seq<int>, k: nat)
    requires 2 * k + 2 < |a| && a[k] < a[2 * k + 2] && !(a[k] < a[2 * k + 1])
    ensures SiftDown(a, k) == SiftDown(SwapAt(a, k, 2 * k + 2), 2 * k + 2)
  {
  }

  lemma {:induction false} SiftStay(a: seq<int>, k: nat)
    requires !(2 * k + 1 < |a| && a[k] < a[2 * k + 1]) && !(2 * k + 2 < |a| && a[k] < a[2 * k + 2])
    ensures SiftDown(a, k) == a
  {
  }

  /** Given heaps below k, the sift makes the subtree of k a heap and only
      rearranges that subtree. */
  lemma {:induction false} SiftDownSpec(a: seq<int>, k: nat)
    requires HeapBelow(a, k)
    ensures HeapFrom(SiftDown(a, k), k) && Sifted(a, SiftDown(a, k), k)
    decreases |a| - k, 1
  {
    var l, rt := 2 * k + 1, 2 * k + 2;
    if rt < |a| && a[k] < a[l] && a[k] < a[rt] {
      var c, o := if a[l] >= a[rt] then l else rt, if a[l] >= a[rt] then rt else l;
      SiftBoth(a, k);
      SiftInto(a, k, c, o);
    } else if l < |a| && a[k] < a[l] {
      SiftLeftFacts(a, k);
      SiftLeft(a, k);
      SiftInto(a, k, l, rt);
    } else if rt < |a| && a[k] < a[rt] {
      SiftRight(a, k);
      SiftInto(a, k, rt, l);
    } else {
      SiftStay(a, k);
      SiftedRefl(a, k);
      if k < |a| {
        HeapBelowKids(a, k);
        SinkDone(a, k);
      }
    }
  }

  /** One swap into child c, when that leaves k at least its other child,
      followed by the sift of c's subtree. */
  lemma {:induction false} SiftInto(a: seq<int>, k: nat, c: nat, o: nat)
    requires (c == 2 * k + 1 && o == 2 * k + 2) || (c == 2 * k + 2 && o == 2 * k + 1)
    requires HeapBelow(a, k) && c < |a| && a[k] < a[c] && (o < |a| ==> a[o] <= a[c])
    ensures var b := SiftDown(SwapAt(a, k, c), c);
      HeapFrom(b, k) && Sifted(a, b, k) && b[k] == a[c] && (o < |a| ==> b[o] == a[o])
    decreases |a| - k, 0
  {
    HeapBelowKids(a, k);
    SinkPre(a, k, c);
    var s := SwapAt(a, k, c);
    SiftDownSpec(s, c);
    SinkFinish(a, SiftDown(s, c), k, c, o);
  }

  /** The end of SiftInto for any repair b of c's subtree. */
  lemma {:induction false} SinkFinish(a: seq<int>, b: seq<int>, k: nat, c: nat, o: nat)
    requires (c == 2 * k + 1 && o == 2 * k + 2) || (c == 2 * k + 2 && o == 2 * k + 1)
    requires HeapBelow(a, k) && c < |a| && a[k] < a[c] && (o < |a| ==> a[o] <= a[c])
    requires Sifted(SwapAt(a, k, c), b, c) && HeapFrom(b, c)
    ensures HeapFrom(b, k) && Sifted(a, b, k) && b[k] == a[c] && (o < |a| ==> b[o] == a[o])
  {
    BelowToKid(a, k, c);
    BelowToKid(a, k, o);
    SinkPre(a, k, c);
    assert Bounded(b, c, a[c]) by {
      assert Bounded(SwapAt(a, k, c), c, a[c]);
    }
    SinkStep(a, b, k, c, o);
    SinkTop(b, k, c, o);
  }

  /** k on top of two heaps and at least both their tops is a heap. */
  lemma {:induction false} SinkTop(b: seq<int>, k: nat, c: nat, o: nat)
    requires (c == 2 * k + 1 && o == 2 * k + 2) || (c == 2 * k + 2 && o == 2 * k + 1)
    requires c < |b| && HeapFrom(b, c) && HeapFrom(b, o)
    requires b[c] <= b[k] && (o < |b| ==> b[o] <= b[k])
    ensures HeapFrom(b, k)
  {
    SinkDone(b, k);
  }

  /** Sinking into the left child puts that child's value at k and leaves
      the right child alone. */
  lemma {:induction false} SiftLeftFacts(a: seq<int>, k: nat)
    requires HeapBelow(a, k) && 2 * k + 1 < |a| && a[k] < a[2 * k + 1]
    ensures var b := SiftDown(SwapAt(a, k, 2 * k + 1), 2 * k + 1);
      b[k] == a[2 * k + 1] && (2 * k + 2 < |a| ==> b[2 * k + 2] == a[2 * k + 2])
    decreases |a| - k, 0
  {
    var l, rt := 2 * k + 1, 2 * k + 2;
    HeapBelowKids(a, k);
    SinkPre(a, k, l);
    var s := SwapAt(a, k, l);
    SiftDownSpec(s, l);
    var b := SiftDown(s, l);
    assert Bounded(s, l, a[l]);
    SinkStep(a, b, k, l, rt);
  }

  // ---------------------------------------------------------------------
  // `__order_down` as written, and the input on which it never returns.

  /** `list.index`: the first position holding x. */
  function IndexOf(a: seq<int>, x: int): (i: nat)
    requires x in a
    ensures i < |a| && a[i] == x
    ensures forall j | 0 <= j < i :: a[j] != x
  {
    if a[0] == x then 0 else 1 + IndexOf(a[1..], x)
  }

  function Max(x: int, y: int): int {
    if x < y then y else x
  }

  /** `__order_down` as written, on the list a whose length is the heap
      size. When both children exist and exceed the parent it swaps with the
      first position of the WHOLE list holding the larger child's value.
      The recursion has no bound of its own, so fuel bounds its depth and
      None means it ran out. */
  function OrderDownAsWritten(a: seq<int>, p: nat, fuel: nat): (r: Option<seq<int>>)
    requires p < |a|
    decreases fuel
  {
    if fuel == 0 then None
    else
      var l, rt := 2 * p + 1, 2 * p + 2;
      if rt < |a| && a[p] < a[l] && a[p] < a[rt] then
        var imin := IndexOf(a, Max(a[l], a[rt]));
        OrderDownAsWritten(SwapAt(a, p, imin), imin, fuel - 1)
      else
        var a1 := if l < |a| && a[p] < a[l] then OrderDownAsWritten(SwapAt(a, p, l), l, fuel - 1) else Some(a);
        if a1.None? then None
        else if rt < |a1.value| && a1.value[p] < a1.value[rt] then OrderDownAsWritten(SwapAt(a1.value, p, rt), rt, fuel - 1)
        else a1
  }

  /** `extract` as written: the maximum, and the list after the last
      element moved to the front and sank with the code as written. */
  function ExtractAsWritten(a: seq<int>, fuel: nat): Option<(int, seq<int>)>
    requires |a| >= 2
  {
    var b := [a[|a| - 1]] + a[1..|a| - 1];
    var r := OrderDownAsWritten(b, 0, fuel);
    if r.None? then None else Some((a[0], r.value))
  }

  /** No value occurs twice in a. */
  ghost predicate Distinct(a: seq<int>) {
    forall x :: multiset(a)[x] <= 1
  }

  /** A value at two positions occurs twice. */
  lemma {:induction false} TwoCopies(a: seq<int>, i: nat, j: nat)
    requires i < j < |a| && a[i] == a[j]
    ensures multiset(a)[a[i]] >= 2
  {
    assert a == a[..j] + [a[j]] + a[j + 1..];
    assert a[i] in a[..j];
  }

  lemma {:induction false} SwapDistinct(a: seq<int>, i: nat, j: nat)
    requires Distinct(a) && i < |a| && j < |a|
    ensures Distinct(SwapAt(a, i, j))
  {
    SwapPermutes(a, i, j);
  }

  /** With distinct elements the position found is the larger child. */
  lemma {:induction false} AsWrittenDistinct(a: seq<int>, p: nat)
    requires 2 * p + 2 < |a|
    requires Distinct(a)
    ensures IndexOf(a, Max(a[2 * p + 1], a[2 * p + 2])) == (if a[2 * p + 1] >= a[2 * p + 2] then 2 * p + 1 else 2 * p + 2)
  {
    var c := if a[2 * p + 1] >= a[2 * p + 2] then 2 * p + 1 else 2 * p + 2;
    var i := IndexOf(a, Max(a[2 * p + 1], a[2 * p + 2]));
    assert a[c] == Max(a[2 * p + 1], a[2 * p + 2]);
    if i < c {
      TwoCopies(a, i, c);
    }
  }

  /** On distinct elements `__order_down` as written computes the
      larger-child sift `SiftDown`, given heaps below k and fuel for the
      depth of the subtree. */
  lemma {:induction false} AsWrittenIsSift(a: seq<int>, k: nat, fuel: nat)
    requires k < |a| && Distinct(a) && HeapBelow(a, k) && fuel >= |a| - k
    ensures OrderDownAsWritten(a, k, fuel) == Some(SiftDown(a, k))
    decreases |a| - k, 1
  {
    var l, rt := 2 * k + 1, 2 * k + 2;
    if rt < |a| && a[k] < a[l] && a[k] < a[rt] {
      var c := if a[l] >= a[rt] then l else rt;
      AsWrittenDistinct(a, k);
      AsWrittenInto(a, k, c, fuel);
      DownBoth(a, k, fuel, c);
      SiftBoth(a, k);
    } else if l < |a| && a[k] < a[l] {
      AsWrittenInto(a, k, l, fuel);
      SiftLeftFacts(a, k);
      DownLeft(a, k, fuel, SiftDown(SwapAt(a, k, l), l));
      SiftLeft(a, k);
    } else if rt < |a| && a[k] < a[rt] {
      AsWrittenInto(a, k, rt, fuel);
      DownRight(a, k, fuel, SiftDown(SwapAt(a, k, rt), rt));
      SiftRight(a, k);
    } else {
      DownStay(a, k, fuel);
    }
  }

  /** After a swap into child c, the code as written and `SiftDown` agree
      on c's subtree. */
  lemma {:induction false} AsWrittenInto(a: seq<int>, k: nat, c: nat, fuel: nat)
    requires c == 2 * k + 1 || c == 2 * k + 2
    requires c < |a| && Distinct(a) && HeapBelow(a, k) && a[k] < a[c] && fuel >= |a| - k
    ensures OrderDownAsWritten(SwapAt(a, k, c), c, fuel - 1) == Some(SiftDown(SwapAt(a, k, c), c))
    decreases |a| - k, 0
  {
    HeapBelowKids(a, k);
    SinkPre(a, k, c);
    SwapDistinct(a, k, c);
    AsWrittenIsSift(SwapAt(a, k, c), c, fuel - 1);
  }

  // The four ways one call of `__order_down` as written can go.

  lemma {:induction false} DownBoth(a: seq<int>, p: nat, fuel: nat, c: nat)
    requires 2 * p + 2 < |a| && fuel >= 1 && a[p] < a[2 * p + 1] && a[p] < a[2 * p + 2]
    requires c == IndexOf(a, Max(a[2 * p + 1], a[2 * p + 2]))
    ensures OrderDownAsWritten(a, p, fuel) == OrderDownAsWritten(SwapAt(a, p, c), c, fuel - 1)
  {
  }

  lemma {:induction false} DownLeft(a: seq<int>, p: nat, fuel: nat, b: seq<int>)
    requires 2 * p + 1 < |a| && fuel >= 1 && a[p] < a[2 * p + 1]
    requires !(2 * p + 2 < |a| && a[p] < a[2 * p + 2])
    requires OrderDownAsWritten(SwapAt(a, p, 2 * p + 1), 2 * p + 1, fuel - 1) == Some(b)
    requires !(2 * p + 2 < |b| && b[p] < b[2 * p + 2])
    ensures OrderDownAsWritten(a, p, fuel) == Some(b)
  {
  }

  lemma {:induction false} DownRight(a: seq<int>, p: nat, fuel: nat, b: seq<int>)
    requires 2 * p + 2 < |a| && fuel >= 1 && a[p] < a[2 * p + 2] && !(a[p] < a[2 * p + 1])
    requires OrderDownAsWritten(SwapAt(a, p, 2 * p + 2), 2 * p + 2, fuel - 1) == Some(b)
    ensures OrderDownAsWritten(a, p, fuel) == Some(b)
  {
  }

  lemma {:induction false} DownStay(a: seq<int>, p: nat, fuel: nat)
    requires p < |a| && fuel >= 1
    requires !(2 * p + 1 < |a| && a[p] < a[2 * p + 1]) && !(2 * p + 2 < |a| && a[p] < a[2 * p + 2])
    ensures OrderDownAsWritten(a, p, fuel) == Some(a)
  {
  }

  /** On a valid heap of distinct elements, `extract` as written returns
      the maximum and the larger-child sift of the front list, a valid heap
      of the other elements. */
  lemma {:induction false} ExtractAsWrittenDistinct(a: seq<int>, fuel: nat)
    requires IsHeap(a) && |a| >= 2 && Distinct(a) && fuel >= |a|
    ensures ExtractAsWritten(a, fuel) == Some((a[0], SiftDown([a[|a| - 1]] + a[1..|a| - 1], 0)))
    ensures IsHeap(ExtractAsWritten(a, fuel).value.1)
    ensures multiset(ExtractAsWritten(a, fuel).value.1) + multiset{a[0]} == multiset(a)
  {
    var b := [a[|a| - 1]] + a[1..|a| - 1];
    ExtractFront(a, b);
    assert forall x :: multiset(b)[x] <= multiset(a)[x];
    AsWrittenIsSift(b, 0, fuel);
    SiftDownSpec(b, 0);
    HeapFromRoot(SiftDown(b, 0));
  }

  /** A valid heap whose `extract` sinks 1 from the root into a left child
      of value 5, after which the search for 5 finds the root again. */
  function LoopHeap(): seq<int> {
    [9, 5, 5, 5, 5, 1, 1]
  }

  /** The list `extract` sinks from, and the list after one swap. */
  function LoopFront(): seq<int> {
    [1, 5, 5, 5, 5, 1]
  }

  function LoopSwapped(): seq<int> {
    [5, 1, 5, 5, 5, 1]
  }

  lemma {:induction false} LoopFacts()
    ensures IndexOf(LoopFront(), 5) == 1 && IndexOf(LoopSwapped(), 5) == 0
    ensures |LoopFront()| == 6 && |LoopSwapped()| == 6
    ensures LoopFront()[0] < LoopFront()[1] && LoopFront()[0] < LoopFront()[2] && Max(LoopFront()[1], LoopFront()[2]) == 5
    ensures LoopSwapped()[1] < LoopSwapped()[3] && LoopSwapped()[1] < LoopSwapped()[4]
    ensures Max(LoopSwapped()[3], LoopSwapped()[4]) == 5
  {
    assert LoopFront()[1..] == [5, 5, 5, 5, 1];
  }

  lemma {:induction false} LoopSwaps()
    ensures SwapAt(LoopFront(), 0, 1) == LoopSwapped() && SwapAt(LoopSwapped(), 1, 0) == LoopFront()
  {
  }

  /** The first sift step from the root: 5 is first found at 1. */
  lemma {:induction false} LoopStepOne(fuel: nat)
    requires fuel >= 1
    ensures OrderDownAsWritten(LoopFront(), 0, fuel) == OrderDownAsWritten(LoopSwapped(), 1, fuel - 1)
  {
    LoopFacts();
    LoopSwaps();
  }

  /** The second step from index 1: 5 is first found at the root. */
  lemma {:induction false} LoopStepTwo(fuel: nat)
    requires fuel >= 1
    ensures OrderDownAsWritten(LoopSwapped(), 1, fuel) == OrderDownAsWritten(LoopFront(), 0, fuel - 1)
  {
    LoopFacts();
    LoopSwaps();
  }

  /** Two states that lead to each other at the cost of one level of
      recursion never finish. */
  lemma {:induction false} TwoCycle(x: seq<int>, px: nat, y: seq<int>, py: nat, fuel: nat)
    requires px < |x| && py < |y|
    requires forall f: nat | f >= 1 :: OrderDownAsWritten(x, px, f) == OrderDownAsWritten(y, py, f - 1)
    requires forall f: nat | f >= 1 :: OrderDownAsWritten(y, py, f) == OrderDownAsWritten(x, px, f - 1)
    ensures OrderDownAsWritten(x, px, fuel) == None && OrderDownAsWritten(y, py, fuel) == None
  {
    if fuel > 0 {
      TwoCycle(x, px, y, py, fuel - 1);
    }
  }

  /** From [1,5,5,5,5,1] the sift swaps positions 0 and 1 back and forth. */
  lemma {:induction false} OrderDownLoops(fuel: nat)
    ensures OrderDownAsWritten(LoopFront(), 0, fuel) == None
  {
    forall f: nat | f >= 1
      ensures OrderDownAsWritten(LoopFront(), 0, f) == OrderDownAsWritten(LoopSwapped(), 1, f - 1)
    {
      LoopStepOne(f);
    }
    forall f: nat | f >= 1
      ensures OrderDownAsWritten(LoopSwapped(), 1, f) == OrderDownAsWritten(LoopFront(), 0, f - 1)
    {
      LoopStepTwo(f);
    }
    TwoCycle(LoopFront(), 0, LoopSwapped(), 1, fuel);
  }

  lemma {:induction false} LoopHeapValid()
    ensures IsHeap(LoopHeap())
  {
    var a := LoopHeap();
    assert HeapAt(a, 0) && HeapAt(a, 1) && HeapAt(a, 2);
    forall j | 3 <= j < |a| ensures HeapAt(a, j) {
    }
  }

  /** `extract` as written never returns on a valid heap with duplicates. */
  lemma {:induction false} ExtractAsWrittenLoops(fuel: nat)
    ensures IsHeap(LoopHeap())
    ensures ExtractAsWritten(LoopHeap(), fuel) == None
  {
    var a := LoopHeap();
    assert [a[6]] + a[1..6] == LoopFront();
    OrderDownLoops(fuel);
    LoopHeapValid();
  }

  // ---------------------------------------------------------------------
  // The class.

  class Heap {
    var heap: seq<int>
    var size: nat

    ghost predicate Valid()
      reads this
    {
      size == |heap| && IsHeap(heap)
    }

    /** `Heap(arr)`: the elements of arr, arranged as a heap. */
    constructor (arr: seq<int>)
      ensures Valid() && multiset(heap) == multiset(arr) && |heap| == |arr|
    {
      heap := arr;
      size := 0;
      new;
      BuildHeap(arr);
    }

    /** `__swap`: exchanges two positions. */
    method Swap(i: nat, j: nat)
      requires i < |heap| && j < |heap|
      modifies this
      ensures heap == SwapAt(old(heap), i, j) && size == old(size)
    {
      heap := heap[i := heap[j]][j := heap[i]];
    }

    /** `__build_heap`: sifts down every index from size // 2 to 0. */
    method BuildHeap(arr: seq<int>)
      modifies this
      ensures Valid() && multiset(heap) == multiset(arr) && |heap| == |arr|
    {
      heap := arr;
      size := |heap|;
      for i := size / 2 + 1 downto 0
        invariant size == |heap| && |heap| == |arr| && multiset(heap) == multiset(arr)
        invariant forall j | i <= j < |heap| :: HeapAt(heap, j)
      {
        ghost var a := heap;
        assert HeapBelow(heap, i);
        Heapify(i);
        BuildStep(a, heap, i);
      }
    }

    /** `__heapify`: given heaps below k, makes the subtree of k a heap by
        rearranging that subtree only. */
    method Heapify(k: nat)
      requires size == |heap| && HeapBelow(heap, k)
      modifies this
      ensures size == old(size) && HeapFrom(heap, k) && Sifted(old(heap), heap, k)
      decreases size - k
    {
      var ch := GetChildren(k);
      var l, r := ch.0, ch.1;
      ghost var a0 := heap;
      HeapBelowKids(heap, k);
      SiftedRefl(heap, k);
      if l < size && heap[l] > heap[k] {
        ghost var a := heap;
        SinkPre(heap, k, l);
        Swap(k, l);
        Heapify(l);
        SinkStep(a, heap, k, l, r);
        SiftedTrans(a0, a, heap, k);
      }
      if r < size && heap[r] > heap[k] {
        ghost var a := heap;
        SinkPre(heap, k, r);
        Swap(k, r);
        Heapify(r);
        SinkStep(a, heap, k, r, l);
        SiftedTrans(a0, a, heap, k);
      }
      if k < |heap| {
        SinkDone(heap, k);
      }
    }

    /** `__order_down`, with the swap going to the larger child (see the
        as-written function above for the lookup the code performs): it
        computes `SiftDown`, so given heaps below k it makes the subtree of
        k a heap by rearranging that subtree only. */
    method OrderDown(k: nat)
      requires size == |heap| && HeapBelow(heap, k)
      modifies this
      ensures size == old(size) && heap == SiftDown(old(heap), k)
      ensures HeapFrom(heap, k) && Sifted(old(heap), heap, k)
      decreases size - k
    {
      var ch := GetChildren(k);
      var l, r := ch.0, ch.1;
      ghost var a0 := heap;
      SiftDownSpec(a0, k);
      HeapBelowKids(heap, k);
      if l < size && r < size {
        if heap[k] < heap[l] && heap[k] < heap[r] {
          var c := if heap[l] >= heap[r] then l else r;
          SinkPre(heap, k, c);
          Swap(k, c);
          OrderDown(c);
          SiftBoth(a0, k);
          return;
        }
      }
      ghost var left := false;
      if l < size && heap[k] < heap[l] {
        SinkPre(heap, k, l);
        SiftLeftFacts(heap, k);
        Swap(k, l);
        OrderDown(l);
        left := true;
      }
      if r < size && heap[k] < heap[r] {
        SinkPre(heap, k, r);
        Swap(k, r);
        OrderDown(r);
        SiftRight(a0, k);
      } else if left {
        SiftLeft(a0, k);
      } else {
        SiftStay(a0, k);
      }
    }

    /** `extract`: removes and returns the maximum. The last element moves
        to the front and sinks. Python's second `pop` fails on a heap of one
        element, so two are needed. */
    method Extract() returns (mx: int)
      requires Valid() && |heap| >= 2
      modifies this
      ensures Valid() && mx == old(heap)[0] && forall x | x in old(heap) :: x <= mx
      ensures |heap| == |old(heap)| - 1 && multiset(heap) + multiset{mx} == multiset(old(heap))
      ensures heap == SiftDown([old(heap)[|old(heap)| - 1]] + old(heap)[1..|old(heap)| - 1], 0)
    {
      ghost var a := heap;
      HeapMax(heap);
      var iparent := 0;
      mx := heap[iparent];
      heap := heap[iparent + 1..];
      var last := heap[|heap| - 1];
      heap := heap[..|heap| - 1];
      heap := [last] + heap;
      size := |heap|;
      ExtractFront(a, heap);
      OrderDown(iparent);
      HeapFromRoot(heap);
    }

    /** `add`: appends el and lets it rise. */
    method Add(el: int)
      requires Valid()
      modifies this
      ensures Valid() && |heap| == |old(heap)| + 1 && multiset(heap) == multiset(old(heap)) + multiset{el}
    {
      UpStart(heap, el);
      heap := heap + [el];
      size := |heap|;
      var ichild := size - 1;
      OrderUp(ichild);
    }

    /** `__order_up`: swaps c with its parent while the parent is smaller.
        At the root the parent index is -1, which Python reads as the last
        element before the `iparent >= 0` test stops the swap. */
    method OrderUp(c: nat)
      requires size == |heap| && c < |heap| && UpInv(heap, c)
      modifies this
      ensures size == old(size) && |heap| == |old(heap)| && multiset(heap) == multiset(old(heap)) && IsHeap(heap)
      decreases c
    {
      var iparent := (c - 1) / 2;
      var pv := heap[if iparent < 0 then |heap| + iparent else iparent];
      if pv < heap[c] && iparent >= 0 {
        UpStep(heap, c);
        SwapPermutes(heap, iparent, c);
        Swap(iparent, c);
        OrderUp(iparent);
      } else {
        UpDone(heap, c);
      }
    }
  }

  /** After `__heapify(i)` every index from i on satisfies the heap
      property. */
  lemma {:induction false} BuildStep(a: seq<int>, b: seq<int>, i: nat)
    requires forall j | i < j < |a| :: HeapAt(a, j)
    requires HeapFrom(b, i) && Sifted(a, b, i)
    ensures forall j | i <= j < |b| :: HeapAt(b, j)
  {
    forall j | i <= j < |b| ensures HeapAt(b, j) {
      if !Sub(i, j) {
        SubOutside(i, j, 2 * j + 1);
        SubOutside(i, j, 2 * j + 2);
        assert HeapAt(a, j);
      }
    }
  }

  /** A heap from the root is a heap everywhere. */
  lemma {:induction false} HeapFromRoot(a: seq<int>)
    requires HeapFrom(a, 0)
    ensures IsHeap(a)
  {
    forall j | 0 < j < |a| ensures HeapAt(a, j) {
      SubRoot(j);
    }
  }

  /** After the two pops and the insert of `extract`: the last element at
      the front, the heap property below the root, one copy of the
      maximum gone. */
  lemma {:induction false} ExtractFront(a: seq<int>, b: seq<int>)
    requires IsHeap(a) && |a| >= 2 && b == [a[|a| - 1]] + a[1..|a| - 1]
    ensures HeapBelow(b, 0) && multiset(b) + multiset{a[0]} == multiset(a)
  {
    assert a == [a[0]] + a[1..|a| - 1] + [a[|a| - 1]];
    forall j | 0 < j < |b| ensures HeapAt(b, j) {
      assert HeapAt(a, j);
    }
  }

  /** j's children, other than k, are no larger than j. */
  predicate HeapAtExcept(a: seq<int>, j: nat, k: nat) {
    (2 * j + 1 < |a| && 2 * j + 1 != k ==> a[j] >= a[2 * j + 1])
    && (2 * j + 2 < |a| && 2 * j + 2 != k ==> a[j] >= a[2 * j + 2])
  }

  /** While k rises: the heap property holds but for k against its parent,
      and k's parent is at least k's children. */
  ghost predicate UpInv(a: seq<int>, k: nat) {
    k < |a| && (forall j | 0 <= j < |a| :: HeapAtExcept(a, j, k))
    && (k > 0 ==> (2 * k + 1 < |a| ==> a[(k - 1) / 2] >= a[2 * k + 1]) && (2 * k + 2 < |a| ==> a[(k - 1) / 2] >= a[2 * k + 2]))
  }

  lemma {:induction false} UpStart(a: seq<int>, el: int)
    requires IsHeap(a)
    ensures UpInv(a + [el], |a|)
  {
    var b := a + [el];
    forall j | 0 <= j < |b| ensures HeapAtExcept(b, j, |a|) {
      if j < |a| {
        assert HeapAt(a, j);
      }
    }
  }

  /** Swapping a rising k with its smaller parent p moves the exception up
      to p. */
  lemma {:induction false} UpStep(a: seq<int>, k: nat)
    requires UpInv(a, k) && k > 0 && a[(k - 1) / 2] < a[k]
    ensures UpInv(SwapAt(a, (k - 1) / 2, k), (k - 1) / 2)
  {
    var p := (k - 1) / 2;
    var b := SwapAt(a, p, k);
    var s := if k == 2 * p + 1 then 2 * p + 2 else 2 * p + 1;
    assert k == 2 * p + 1 || k == 2 * p + 2;
    assert HeapAtExcept(a, p, k);
    forall j | 0 <= j < |b| ensures HeapAtExcept(b, j, p) {
      assert HeapAtExcept(a, j, k);
      if j == p {
        assert s < |a| ==> b[s] == a[s] && a[s] <= a[p];
      } else if j == k {
      } else if p > 0 && j == (p - 1) / 2 {
        assert p == 2 * j + 1 || p == 2 * j + 2;
      } else {
        assert 2 * j + 1 != p && 2 * j + 2 != p;
        assert 2 * j + 1 != k && 2 * j + 2 != k;
      }
    }
    if p > 0 {
      var g := (p - 1) / 2;
      assert p == 2 * g + 1 || p == 2 * g + 2;
      assert HeapAtExcept(a, g, k);
      assert a[g] >= a[p];
    }
  }

  /** A rise that stops, at the root or below a parent at least as large,
      leaves a heap. */
  lemma {:induction false} UpDone(a: seq<int>, k: nat)
    requires UpInv(a, k) && (k == 0 || a[(k - 1) / 2] >= a[k])
    ensures IsHeap(a)
  {
    forall j | 0 <= j < |a| ensures HeapAt(a, j) {
      assert HeapAtExcept(a, j, k);
      if k > 0 && j == (k - 1) / 2 {
        assert k == 2 * j + 1 || k == 2 * j + 2;
      } else {
        assert 2 * j + 1 != k && 2 * j + 2 != k;
      }
    }
  }
}
