/**
 * Facts about exact division by a positive number that the linear part of the
 * solver does not find by itself: shares of a whole, their sums and bounds.
 */
module RealArith {

  lemma DivideSelf(t: real)
    requires t > 0.0
    ensures t / t == 1.0
  {
  }

  lemma DivideSum(x: real, y: real, t: real)
    requires t > 0.0
    ensures (x + y) / t == x / t + y / t
  {
  }

  lemma MultiplyQuotient(a: real, b: real)
    requires b > 0.0
    ensures (a / b) * b == a
  {
  }

  lemma ShareOfRemainder(a: real, b: real, q: real, n: real)
    requires q * b == a
    ensures (q - n) * b == a - b * n
  {
    assert n * b == b * n;
  }

  lemma QuotientShift(a: real, c: real, b: real)
    requires b > 0.0
    ensures (a + c * b) / b == a / b + c
  {
    MultiplyQuotient(a, b);
  }

  lemma DivideMonotone(x: real, y: real, t: real)
    requires t > 0.0 && x <= y
    ensures x / t <= y / t
  {
    assert y / t - x / t == (y - x) / t;
  }

  lemma FractionBounds(a: real, b: real)
    requires b > 0.0
    ensures a <= 0.0 ==> a / b <= 0.0
    ensures a >= b ==> a / b >= 1.0
    ensures 0.0 <= a <= b ==> 0.0 <= a / b <= 1.0
  {
    var q := a / b;
    assert q * b == a;
  }

  lemma SharePositive(x: real, t: real)
    requires x > 0.0 && t > 0.0
    ensures x / t > 0.0
  {
    MultiplyQuotient(x, t);
  }
}
