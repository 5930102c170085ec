/** Cardinality facts about finite sets of vertex numbers. */
module Counting {
  lemma {:induction false} CardAdd(A: set<nat>, B: set<nat>, x: nat)
    requires A <= B && x in B && x !in A
    ensures |A| < |B|
  {
    assert A + {x} <= B;
    assert |A + {x}| == |A| + 1;
    SubsetCard(A + {x}, B);
  }

  lemma {:induction false} SubsetCard(A: set<nat>, B: set<nat>)
    requires A <= B
    ensures |A| <= |B|
  {
    assert B == A + (B - A);
  }

  /** The vertices 0 .. n-1. */
  ghost function Below(n: nat): set<nat> {
    if n == 0 then {} else Below(n - 1) + {n - 1}
  }

  lemma {:induction false} BelowHas(n: nat, x: nat)
    requires x < n
    ensures x in Below(n)
  {
    if x < n - 1 {
      BelowHas(n - 1, x);
    }
  }

  lemma {:induction false} BelowCard(n: nat)
    ensures |Below(n)| == n
  {
    if n > 0 {
      BelowCard(n - 1);
      assert n - 1 !in Below(n - 1) by {
        if n - 1 in Below(n - 1) {
          BelowLess(n - 1, n - 1);
        }
      }
    }
  }

  lemma {:induction false} BelowLess(n: nat, x: nat)
    requires x in Below(n)
    ensures x < n
  {
    if x != n - 1 {
      BelowLess(n - 1, x);
    }
  }

  /** A set of vertex numbers below n has at most n members. */
  lemma {:induction false} BoundedCard(V: set<nat>, n: nat)
    requires forall x | x in V :: x < n
    ensures |V| <= n
  {
    forall x | x in V ensures x in Below(n) {
      BelowHas(n, x);
    }
    SubsetCard(V, Below(n));
    BelowCard(n);
  }
}
