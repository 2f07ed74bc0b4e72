/** Sizes of finite sets. */
module FiniteSets {
  lemma {:induction false} SubsetSize<T>(a: set<T>, b: set<T>)
    requires a <= b
    ensures |a| <= |b|
    ensures a < b ==> |a| < |b|
  {
    if a != {} {
      var x :| x in a;
      SubsetSize(a - {x}, b - {x});
    }
  }

  ghost function Range(i: int, j: int): (s: set<int>)
    requires i <= j
    ensures forall k :: k in s <==> i <= k < j
    decreases j - i
  {
    if i == j then {} else Range(i, j - 1) + {j - 1}
  }

  lemma {:induction false} RangeSize(i: int, j: int)
    requires i <= j
    ensures |Range(i, j)| == j - i
    decreases j - i
  {
    if i < j {
      RangeSize(i, j - 1);
    }
  }
}
