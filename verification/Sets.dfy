/** Sizes of sets of numbers. */
module Sets {

  ghost function Interval(lo: nat, n: nat): (s: set<nat>)
    ensures forall i :: i in s <==> lo <= i < lo + n
  {
    if n == 0 then {} else Interval(lo, n - 1) + {lo + n - 1}
  }

  lemma {:induction false} IntervalSize(lo: nat, n: nat)
    ensures |Interval(lo, n)| == n
  {
    if n > 0 {
      IntervalSize(lo, n - 1);
    }
  }

  ghost function Range(n: nat): (s: set<nat>)
    ensures forall i :: i in s <==> 0 <= i < n
  {
    Interval(0, n)
  }

  lemma {:induction false} SubsetSize(a: set<nat>, b: set<nat>)
    requires a <= b
    ensures |a| <= |b|
    decreases a
  {
    if x :| x in a {
      SubsetSize(a - {x}, b - {x});
    }
  }

  lemma SameSizeSubset(a: set<nat>, b: set<nat>)
    requires a <= b && |a| == |b|
    ensures a == b
  {
    if b != a {
      var x :| x in b && x !in a;
      SubsetSize(a, b - {x});
    }
  }
}
