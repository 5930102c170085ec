/** Five sorts of integer lists: three in place (bubble, insertion,
    selection), the merge of two sorted lists, and two recursive sorts
    (quick sort, merge sort). */
module Sorting {

  // ---------------------------------------------------------------------
  // What "sorted" means.

  /** Non-decreasing from left to right. */
  ghost predicate Sorted(s: seq<int>)
  {
    forall i, j | 0 <= i < j < |s| :: s[i] <= s[j]
  }

  /** The slice s[lo..hi] is non-decreasing. */
  ghost predicate SortedRange(s: seq<int>, lo: int, hi: int)
  {
    forall i, j | 0 <= lo <= i < j < hi <= |s| :: s[i] <= s[j]
  }

  /** Nothing in s[..k] exceeds anything in s[k..]. */
  ghost predicate Parted(s: seq<int>, k: int)
  {
    forall i, j | 0 <= i < k <= j < |s| :: s[i] <= s[j]
  }

  lemma {:induction false} SortedCons(x: int, s: seq<int>)
    requires Sorted(s)
    requires forall y | y in s :: x <= y
    ensures Sorted([x] + s)
  {
    var r := [x] + s;
    forall i, j | 0 <= i < j < |r|
      ensures r[i] <= r[j]
    {
      assert r[j] == s[j - 1] && s[j - 1] in s;
      if i > 0 {
        assert r[i] == s[i - 1];
      }
    }
  }

  /** A sorted list is determined by its multiset: any two sorts of the
      same list agree, which is what the comparisons against `sorted(a)`
      in sorting.py rely on. */
  lemma {:induction false} SortedUnique(x: seq<int>, y: seq<int>)
    requires Sorted(x) && Sorted(y)
    requires multiset(x) == multiset(y)
    ensures x == y
    decreases |x|
  {
    assert |x| == |multiset(x)| == |multiset(y)| == |y|;
    if |x| > 0 {
      assert x[0] in multiset(y) && y[0] in multiset(x);
      assert x[0] == y[0] by {
        HeadLeast(x, y[0]);
        HeadLeast(y, x[0]);
      }
      TailMultiset(x);
      TailMultiset(y);
      SortedUnique(x[1..], y[1..]);
    }
  }

  lemma {:induction false} TailMultiset(s: seq<int>)
    requires |s| > 0
    ensures multiset(s[1..]) == multiset(s) - multiset{s[0]}
  {
    assert s == [s[0]] + s[1..];
  }

  lemma {:induction false} HeadLeast(s: seq<int>, v: int)
    requires Sorted(s) && v in multiset(s)
    ensures s[0] <= v
  {
    var i :| 0 <= i < |s| && s[i] == v;
    assert i == 0 || s[0] <= s[i];
  }

  // ---------------------------------------------------------------------
  // The three in-place sorts.

  /** s with the entries at i and j exchanged. */
  function Swap(s: seq<int>, i: nat, j: nat): (t: seq<int>)
    requires i < |s| && j < |s|
    ensures |t| == |s| && t[i] == s[j] && t[j] == s[i]
    ensures forall k | 0 <= k < |s| && k != i && k != j :: t[k] == s[k]
  {
    s[i := s[j]][j := s[i]]
  }

  lemma {:induction false} SwapPerm(s: seq<int>, i: nat, j: nat)
    requires i < |s| && j < |s|
    ensures multiset(Swap(s, i, j)) == multiset(s)
  {
    var t := s[i := s[j]];
    assert multiset(t) == multiset(s) - multiset{s[i]} + multiset{s[j]};
  }

  /** During pass i of `bubble_sort`, at inner index j: a[j] is the
      largest of a[..j+1], and the last i positions are final. */
  ghost predicate BubblePass(s: seq<int>, i: int, j: int)
  {
    0 <= i < |s| - 1 && 0 <= j <= |s| - 1 - i &&
    (forall k | 0 <= k < j :: s[k] <= s[j]) &&
    SortedRange(s, |s| - i, |s|) && Parted(s, |s| - i)
  }

  /** Before pass i of `bubble_sort`: the last i positions hold the
      largest elements in their final order. */
  ghost predicate BubbleDone(s: seq<int>, i: int)
  {
    SortedRange(s, |s| - i, |s|) && Parted(s, |s| - i)
  }

  lemma {:induction false} BubbleStep(s: seq<int>, t: seq<int>, i: int, j: int)
    requires BubblePass(s, i, j) && j < |s| - 1 - i
    requires t == if s[j] > s[j + 1] then Swap(s, j, j + 1) else s
    ensures BubblePass(t, i, j + 1) && multiset(t) == multiset(s)
  {
    SwapPerm(s, j, j + 1);
  }

  lemma {:induction false} BubbleEnd(s: seq<int>, i: int)
    requires BubblePass(s, i, |s| - 1 - i)
    ensures BubbleDone(s, i + 1)
  {
  }

  lemma {:induction false} BubbleSorted(s: seq<int>, i: int)
    requires BubbleDone(s, i) && (|s| <= 1 || i == |s| - 1)
    ensures Sorted(s)
  {
  }

  /** `bubble_sort`: pass i carries the largest element of a[..N-i] to
      position N-1-i, so after the pass the last i+1 positions hold the
      largest elements in their final order. */
  method BubbleSort(a: array<int>) returns (r: array<int>)
    modifies a
    ensures r == a
    ensures Sorted(a[..])
    ensures multiset(a[..]) == multiset(old(a[..]))
  {
    var n := a.Length;
    var i := 0;
    while i < n - 1
      invariant 0 <= i && (n <= 1 || i <= n - 1)
      invariant BubbleDone(a[..], i)
      invariant multiset(a[..]) == multiset(old(a[..]))
    {
      var j := 0;
      while j < n - 1 - i
        invariant BubblePass(a[..], i, j)
        invariant multiset(a[..]) == multiset(old(a[..]))
      {
        ghost var s := a[..];
        if a[j] > a[j + 1] {
          a[j], a[j + 1] := a[j + 1], a[j];
        }
        BubbleStep(s, a[..], i, j);
        j := j + 1;
      }
      BubbleEnd(a[..], i);
      i := i + 1;
    }
    BubbleSorted(a[..], i);
    r := a;
  }

  /** Inside step i of `insertion_sort`, at inner index j: a[..j] and
      a[j..i+1] are sorted and nothing before j exceeds anything after j. */
  ghost predicate Inserting(s: seq<int>, i: int, j: int)
  {
    0 <= j <= i < |s| &&
    SortedRange(s, 0, j) && SortedRange(s, j, i + 1) &&
    forall k, l | 0 <= k < j < l <= i :: s[k] <= s[l]
  }

  lemma {:induction false} InsertStart(s: seq<int>, i: int)
    requires 1 <= i < |s| && SortedRange(s, 0, i)
    ensures Inserting(s, i, i)
  {
  }

  lemma {:induction false} InsertSwap(s: seq<int>, t: seq<int>, i: int, j: int)
    requires Inserting(s, i, j) && 0 < j && s[j] < s[j - 1]
    requires t == Swap(s, j, j - 1)
    ensures Inserting(t, i, j - 1) && multiset(t) == multiset(s)
  {
    SwapPerm(s, j, j - 1);
  }

  lemma {:induction false} InsertStop(s: seq<int>, i: int, j: int)
    requires Inserting(s, i, j) && (j == 0 || s[j - 1] <= s[j])
    ensures SortedRange(s, 0, i + 1)
  {
  }

  /** `insertion_sort`: step i sinks a[i] left into the sorted prefix
      a[..i], stopping at the first neighbour that is not larger; the
      bound N of sorting.py is the length of the list. */
  method InsertionSort(a: array<int>) returns (r: array<int>)
    modifies a
    ensures r == a
    ensures Sorted(a[..])
    ensures multiset(a[..]) == multiset(old(a[..]))
  {
    var n := a.Length;
    var i := 1;
    while i < n
      invariant 1 <= i && (n == 0 || i <= n)
      invariant i <= n ==> SortedRange(a[..], 0, i)
      invariant multiset(a[..]) == multiset(old(a[..]))
    {
      InsertStart(a[..], i);
      var j := i;
      while j > 0
        invariant Inserting(a[..], i, j)
        invariant multiset(a[..]) == multiset(old(a[..]))
      {
        if a[j] < a[j - 1] {
          ghost var s := a[..];
          a[j], a[j - 1] := a[j - 1], a[j];
          InsertSwap(s, a[..], i, j);
        } else {
          break;
        }
        j := j - 1;
      }
      InsertStop(a[..], i, j);
      i := i + 1;
    }
    r := a;
  }

  /** Before step i of `selection_sort`: a[..i] is sorted and nothing in
      it exceeds anything after it. */
  ghost predicate Selected(s: seq<int>, i: int)
  {
    0 <= i <= |s| && SortedRange(s, 0, i) && Parted(s, i)
  }

  lemma {:induction false} SelectStep(s: seq<int>, t: seq<int>, i: int, m: int)
    requires Selected(s, i) && i <= m < |s|
    requires forall k | i <= k < |s| :: s[m] <= s[k]
    requires t == if i != m then Swap(s, i, m) else s
    ensures Selected(t, i + 1) && multiset(t) == multiset(s)
  {
    SwapPerm(s, i, m);
  }

  /** `selection_sort`: step i finds the first smallest element of a[i..]
      and swaps it into position i, so a[..i+1] is sorted and no larger
      than anything after it. */
  method SelectionSort(a: array<int>) returns (r: array<int>)
    modifies a
    ensures r == a
    ensures Sorted(a[..])
    ensures multiset(a[..]) == multiset(old(a[..]))
  {
    var n := a.Length;
    var i := 0;
    while i < n
      invariant Selected(a[..], i)
      invariant multiset(a[..]) == multiset(old(a[..]))
    {
      var imin := i;
      var mnm := a[imin];
      var j := i;
      while j < n
        invariant i <= j <= n && i <= imin < n
        invariant mnm == a[imin]
        invariant forall k | i <= k < j :: mnm <= a[k]
      {
        if a[j] < mnm {
          imin := j;
          mnm := a[j];
        }
        j := j + 1;
      }
      ghost var s := a[..];
      if i != imin {
        a[i], a[imin] := a[imin], a[i];
      }
      SelectStep(s, a[..], i, imin);
      i := i + 1;
    }
    r := a;
  }

  // ---------------------------------------------------------------------
  // Merging two sorted lists.

  /** The merge `merge_sorted_lists` computes: the smaller head goes
      first, and on a tie the head of b. */
  function Merge(a: seq<int>, b: seq<int>): (r: seq<int>)
    ensures multiset(r) == multiset(a) + multiset(b)
    decreases |a| + |b|
  {
    if |a| == 0 then b
    else if |b| == 0 then a
    else if a[0] < b[0] then
      assert a == [a[0]] + a[1..];
      [a[0]] + Merge(a[1..], b)
    else
      assert b == [b[0]] + b[1..];
      [b[0]] + Merge(a, b[1..])
  }

  /** Merging two sorted lists gives a sorted list. */
  lemma {:induction false} MergeSorted(a: seq<int>, b: seq<int>)
    requires Sorted(a) && Sorted(b)
    ensures Sorted(Merge(a, b))
    decreases |a| + |b|
  {
    if |a| > 0 && |b| > 0 {
      if a[0] < b[0] {
        var t := Merge(a[1..], b);
        MergeSorted(a[1..], b);
        forall y | y in t
          ensures a[0] <= y
        {
          assert y in multiset(t);
          if y in multiset(a[1..]) {
            var k :| 0 <= k < |a[1..]| && a[1..][k] == y;
            assert a[k + 1] == y;
          } else {
            var k :| 0 <= k < |b| && b[k] == y;
            assert k == 0 || b[0] <= b[k];
          }
        }
        SortedCons(a[0], t);
      } else {
        var t := Merge(a, b[1..]);
        MergeSorted(a, b[1..]);
        forall y | y in t
          ensures b[0] <= y
        {
          assert y in multiset(t);
          if y in multiset(a) {
            var k :| 0 <= k < |a| && a[k] == y;
            assert k == 0 || a[0] <= a[k];
          } else {
            var k :| 0 <= k < |b[1..]| && b[1..][k] == y;
            assert b[k + 1] == y;
          }
        }
        SortedCons(b[0], t);
      }
    }
  }

  /** One step of the merge of two non-empty lists, behind an output
      prefix c. */
  lemma {:induction false} MergeUnfold(c: seq<int>, x: seq<int>, y: seq<int>)
    requires |x| > 0 && |y| > 0
    ensures x[0] < y[0] ==> c + Merge(x, y) == (c + [x[0]]) + Merge(x[1..], y)
    ensures !(x[0] < y[0]) ==> c + Merge(x, y) == (c + [y[0]]) + Merge(x, y[1..])
  {
    if x[0] < y[0] {
      assert Merge(x, y) == [x[0]] + Merge(x[1..], y);
    } else {
      assert Merge(x, y) == [y[0]] + Merge(x, y[1..]);
    }
  }

  /** Once one list is empty the merge is the concatenation. */
  lemma {:induction false} MergeRest(c: seq<int>, x: seq<int>, y: seq<int>)
    requires |x| == 0 || |y| == 0
    ensures c + Merge(x, y) == c + x + y
  {
    if |x| == 0 {
      assert x + y == y;
    } else {
      assert x + y == x;
    }
  }

  /** `merge_sorted_lists`: appends the smaller head to c until one list
      runs out, then the rests of both. */
  method MergeSortedLists(a: seq<int>, b: seq<int>) returns (c: seq<int>)
    ensures c == Merge(a, b)
    ensures multiset(c) == multiset(a) + multiset(b)
    ensures Sorted(a) && Sorted(b) ==> Sorted(c)
  {
    var i, j := 0, 0;
    c := [];
    assert a[0..] == a && b[0..] == b;
    while i < |a| && j < |b|
      invariant 0 <= i <= |a| && 0 <= j <= |b|
      invariant c + Merge(a[i..], b[j..]) == Merge(a, b)
      decreases |a| - i + |b| - j
    {
      MergeUnfold(c, a[i..], b[j..]);
      assert a[i..][0] == a[i] && b[j..][0] == b[j];
      assert a[i..][1..] == a[i + 1..] && b[j..][1..] == b[j + 1..];
      if a[i] < b[j] {
        c := c + [a[i]];
        i := i + 1;
      } else {
        c := c + [b[j]];
        j := j + 1;
      }
    }
    MergeRest(c, a[i..], b[j..]);
    c := c + a[i..] + b[j..];
    if Sorted(a) && Sorted(b) {
      MergeSorted(a, b);
    }
  }

  // ---------------------------------------------------------------------
  // Quick sort.

  /** `[el for el in a if el < p]`. */
  function Lesser(a: seq<int>, p: int): (r: seq<int>)
    ensures forall x | x in r :: x < p
    ensures p in a ==> |r| < |a|
    ensures |r| <= |a|
  {
    if |a| == 0 then []
    else if a[0] < p then [a[0]] + Lesser(a[1..], p)
    else Lesser(a[1..], p)
  }

  /** `[el for el in a if el == p]`. */
  function Equals(a: seq<int>, p: int): (r: seq<int>)
    ensures forall x | x in r :: x == p
    ensures multiset(r)[p] == multiset(a)[p]
  {
    if |a| == 0 then []
    else
      assert a == [a[0]] + a[1..];
      if a[0] == p then [a[0]] + Equals(a[1..], p)
      else Equals(a[1..], p)
  }

  /** `[el for el in a if el > p]`. */
  function Greater(a: seq<int>, p: int): (r: seq<int>)
    ensures forall x | x in r :: x > p
    ensures p in a ==> |r| < |a|
    ensures |r| <= |a|
  {
    if |a| == 0 then []
    else if a[0] > p then [a[0]] + Greater(a[1..], p)
    else Greater(a[1..], p)
  }

  /** The three comprehensions split a without loss. */
  lemma {:induction false} PartitionPerm(a: seq<int>, p: int)
    ensures multiset(Lesser(a, p)) + multiset(Equals(a, p)) + multiset(Greater(a, p))
            == multiset(a)
  {
    if |a| > 0 {
      var t := a[1..];
      PartitionPerm(t, p);
      assert multiset(a) == multiset{a[0]} + multiset(t) by {
        assert a == [a[0]] + t;
      }
      if a[0] < p {
        assert Lesser(a, p) == [a[0]] + Lesser(t, p);
        assert Equals(a, p) == Equals(t, p) && Greater(a, p) == Greater(t, p);
      } else if a[0] == p {
        assert Equals(a, p) == [a[0]] + Equals(t, p);
        assert Lesser(a, p) == Lesser(t, p) && Greater(a, p) == Greater(t, p);
      } else {
        assert Greater(a, p) == [a[0]] + Greater(t, p);
        assert Lesser(a, p) == Lesser(t, p) && Equals(a, p) == Equals(t, p);
      }
    }
  }

  /** `random.randint(1, len(a) - 1)`: the choice is handed in as `pick`,
      an arbitrary function of the list, folded into the allowed range. */
  function Pivot(a: seq<int>, pick: seq<int> -> nat): (r: nat)
    requires |a| >= 2
    ensures 1 <= r < |a|
  {
    1 + pick(a) % (|a| - 1)
  }

  /** `quick_sort`. */
  function QuickSort(a: seq<int>, pick: seq<int> -> nat): (r: seq<int>)
    ensures multiset(r) == multiset(a)
    decreases |a|
  {
    if |a| <= 1 then a
    else
      var p := a[Pivot(a, pick)];
      PartitionPerm(a, p);
      QuickSort(Lesser(a, p), pick) + Equals(a, p) + QuickSort(Greater(a, p), pick)
  }

  /** A list below p, a run of p's and a list above p, each sorted, make
      a sorted list. */
  lemma {:induction false} ThreeSorted(x: seq<int>, e: seq<int>, y: seq<int>, p: int)
    requires Sorted(x) && Sorted(y)
    requires forall v | v in x :: v < p
    requires forall v | v in e :: v == p
    requires forall v | v in y :: v > p
    ensures Sorted(x + e + y)
  {
    var s := x + e + y;
    forall i, j | 0 <= i < j < |s|
      ensures s[i] <= s[j]
    {
      if j < |x| {
      } else if i < |x| {
        assert s[i] in x;
        assert s[j] in e || s[j] in y;
      } else if i < |x| + |e| {
        assert s[i] in e;
        assert s[j] in e || s[j] in y;
      } else {
        assert s[i] == y[i - |x| - |e|] && s[j] == y[j - |x| - |e|];
      }
    }
  }

  lemma {:induction false} SameElements(r: seq<int>, a: seq<int>)
    requires multiset(r) == multiset(a)
    ensures forall v | v in r :: v in a
  {
    forall v | v in r
      ensures v in a
    {
      assert v in multiset(r);
    }
  }

  /** Whatever pivots are picked, quick sort returns a sorted list. */
  lemma {:induction false} QuickSortSorted(a: seq<int>, pick: seq<int> -> nat)
    ensures Sorted(QuickSort(a, pick))
    decreases |a|
  {
    if |a| > 1 {
      var p := a[Pivot(a, pick)];
      var x, y := QuickSort(Lesser(a, p), pick), QuickSort(Greater(a, p), pick);
      QuickSortSorted(Lesser(a, p), pick);
      QuickSortSorted(Greater(a, p), pick);
      SameElements(x, Lesser(a, p));
      SameElements(y, Greater(a, p));
      ThreeSorted(x, Equals(a, p), y, p);
    }
  }

  /** The random pivot does not change the result. */
  lemma {:induction false} QuickSortPickFree(a: seq<int>, pick1: seq<int> -> nat, pick2: seq<int> -> nat)
    ensures QuickSort(a, pick1) == QuickSort(a, pick2)
  {
    QuickSortSorted(a, pick1);
    QuickSortSorted(a, pick2);
    SortedUnique(QuickSort(a, pick1), QuickSort(a, pick2));
  }

  // ---------------------------------------------------------------------
  // Merge sort.

  /** `merge_sort`: split at len/2, sort the halves that hold more than
      one element, merge. */
  function MergeSort(a: seq<int>): (r: seq<int>)
    ensures |r| == |a|
    ensures multiset(r) == multiset(a)
    decreases |a|
  {
    var n := |a| / 2;
    var a1 := if n > 1 then MergeSort(a[..n]) else a[..n];
    var a2 := if |a| - n > 1 then MergeSort(a[n..]) else a[n..];
    assert multiset(a1) == multiset(a[..n]) && multiset(a2) == multiset(a[n..]);
    assert a == a[..n] + a[n..];
    var r := Merge(a1, a2);
    assert |r| == |multiset(r)| == |multiset(a)| == |a|;
    r
  }

  lemma {:induction false} MergeSortSorted(a: seq<int>)
    ensures Sorted(MergeSort(a))
    decreases |a|
  {
    var n := |a| / 2;
    if n > 1 {
      MergeSortSorted(a[..n]);
    }
    if |a| - n > 1 {
      MergeSortSorted(a[n..]);
    }
    var a1 := if n > 1 then MergeSort(a[..n]) else a[..n];
    var a2 := if |a| - n > 1 then MergeSort(a[n..]) else a[n..];
    MergeSorted(a1, a2);
  }

  /** Merge sort and quick sort return the same list. */
  lemma {:induction false} MergeSortIsQuickSort(a: seq<int>, pick: seq<int> -> nat)
    ensures MergeSort(a) == QuickSort(a, pick)
  {
    MergeSortSorted(a);
    QuickSortSorted(a, pick);
    SortedUnique(MergeSort(a), QuickSort(a, pick));
  }

  // ---------------------------------------------------------------------
  // The checks of the main block.

  /** A fresh array holding a. */
  method ToArray(a: seq<int>) returns (b: array<int>)
    ensures fresh(b) && b[..] == a
  {
    b := new int[|a|](i requires 0 <= i < |a| => a[i]);
  }

  /** Each sort, run on its own copy of a, returns the same list: the
      sorted arrangement of a, whatever pivots quick sort picks. */
  method SortsAgree(a: seq<int>, pick: seq<int> -> nat)
    returns (selection: seq<int>, bubble: seq<int>, insertion: seq<int>, quick: seq<int>, merged: seq<int>)
    ensures Sorted(merged) && multiset(merged) == multiset(a)
    ensures selection == merged && bubble == merged && insertion == merged && quick == merged
  {
    merged := MergeSort(a);
    MergeSortSorted(a);
    var c := ToArray(a);
    c := SelectionSort(c);
    selection := c[..];
    SortedUnique(selection, merged);
    c := ToArray(a);
    c := BubbleSort(c);
    bubble := c[..];
    SortedUnique(bubble, merged);
    c := ToArray(a);
    c := InsertionSort(c);
    insertion := c[..];
    SortedUnique(insertion, merged);
    quick := QuickSort(a, pick);
    MergeSortIsQuickSort(a, pick);
  }
}
