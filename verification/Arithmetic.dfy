/** Powers of two, bit lengths and division. */
module Arithmetic {
  function Pow2(n: nat): (p: nat)
    ensures p > 0
  {
    if n == 0 then 1 else 2 * Pow2(n - 1)
  }

  /** Bits up to and including the highest one set. */
  function BitLen(m: nat): nat {
    if m == 0 then 0 else 1 + BitLen(m / 2)
  }

  lemma {:induction false} Pow2Sum(a: nat, b: nat)
    ensures Pow2(a + b) == Pow2(a) * Pow2(b)
  {
    if a > 0 {
      Pow2Sum(a - 1, b);
      assert Pow2(a) * Pow2(b) == 2 * (Pow2(a - 1) * Pow2(b));
    }
  }

  lemma {:induction false} Pow2Monotone(a: nat, b: nat)
    requires a <= b
    ensures Pow2(a) <= Pow2(b)
  {
    if a < b { Pow2Monotone(a, b - 1); }
  }

  lemma {:induction false} BitLenBounds(m: nat)
    ensures m < Pow2(BitLen(m))
    ensures m > 0 ==> BitLen(m) > 0 && Pow2(BitLen(m) - 1) <= m
  {
    if m > 1 {
      BitLenBounds(m / 2);
    }
  }

  lemma SmallPowers()
    ensures Pow2(0) == 1 && Pow2(8) == 0x100 && Pow2(16) == 0x1_0000 && Pow2(24) == 0x100_0000
  {
    assert Pow2(4) == 16;
    Pow2Sum(4, 4);
    Pow2Sum(8, 8);
    Pow2Sum(8, 16);
  }

  lemma DivLess(a: nat, d: nat, q: nat)
    requires d > 0 && a < d * q
    ensures a / d < q
  {
  }

  lemma MulMonotone(d: nat, x: nat, y: nat)
    requires x <= y
    ensures d * x <= d * y
  {
  }

  lemma DivBelow(a: nat, d: nat)
    requires d > 0
    ensures d * (a / d) <= a < d * (a / d + 1)
  {
  }

  lemma DivIs(a: nat, d: nat, q: nat)
    requires d > 0 && d * q <= a < d * (q + 1)
    ensures a / d == q
  {
    DivLess(a, d, q + 1);
    DivBelow(a, d);
    if a / d < q {
      MulMonotone(d, a / d + 1, q);
    }
  }

  lemma DivMonotone(a: nat, b: nat, d: nat)
    requires d > 0 && a <= b
    ensures a / d <= b / d
  {
    if a / d > b / d {
      DivLess(b, d, b / d + 1);
      DivLess(a, d, b / d + 1);
    }
  }
}
