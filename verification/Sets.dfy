/** Sizes of sets, and numbers outside them. */
module Sets {
  lemma SubsetSize<T>(a: set<T>, b: set<T>)
    requires a <= b
    ensures |a| <= |b|
  {
    assert b == a + (b - a);
  }

  lemma {:induction false} Unused(ns: set<nat>) returns (n: nat)
    ensures forall k | k in ns :: k < n
    decreases |ns|
  {
    if ns == {} {
      n := 0;
    } else {
      var k :| k in ns;
      var above := Unused(ns - {k});
      n := if k < above then above else k + 1;
      assert forall d | d in ns :: d == k || d in ns - {k};
    }
  }

  /** A set of numbers below n that lacks one of them has fewer than n members. */
  lemma RoomBelow(ns: set<int>, n: nat, k: int)
    requires (forall i | i in ns :: 0 <= i < n) && 0 <= k < n && k !in ns
    ensures |ns| < n
  {
    SizeBelow(ns + {k}, n);
  }

  lemma {:induction false} SizeBelow(ns: set<int>, n: nat)
    requires forall i | i in ns :: 0 <= i < n
    ensures |ns| <= n
    decreases n
  {
    if n > 0 {
      SizeBelow(ns - {n - 1}, n - 1);
    } else {
      assert forall i :: i !in ns;
      assert ns == {};
    }
  }
}
