/**
 * Order facts about products and quotients of reals, one step each, so that
 * the estimates and accuracies elsewhere are bounded without nonlinear search.
 */
module Reals {

  /** A product of non-negative numbers is non-negative. */
  lemma ProductNonNegative(a: real, b: real)
    requires a >= 0.0 && b >= 0.0
    ensures a * b >= 0.0
  {
  }

  /** Multiplying by a non-negative number keeps the order. */
  lemma ProductMonotone(a: real, b: real, z: real)
    requires a <= b && z >= 0.0
    ensures a * z <= b * z
  {
    ProductNonNegative(b - a, z);
    assert b * z == a * z + (b - a) * z;
  }

  /** Scaling a non-negative number by at least 1 does not make it smaller. */
  lemma ScaleAtLeast(u: real, x: real)
    requires u >= 1.0 && x >= 0.0
    ensures u * x >= x
  {
    ProductNonNegative(u - 1.0, x);
    assert u * x == x + (u - 1.0) * x;
  }

  /** Dividing by a positive number keeps the order. */
  lemma DivideMonotone(a: real, b: real, c: real)
    requires c > 0.0 && a <= b
    ensures a / c <= b / c
  {
    var x, y := a / c, b / c;
    assert x * c == a && y * c == b;
  }

  /** A positive number divided by a positive number is positive. */
  lemma DividePositive(a: real, c: real)
    requires a > 0.0 && c > 0.0
    ensures a / c > 0.0
  {
    assert a / c * c == a;
  }

  /** A positive number divided by itself is 1. */
  lemma DivideSelf(c: real)
    requires c > 0.0
    ensures c / c == 1.0
  {
  }

  /** A quotient is 1 only when numerator and denominator agree. */
  lemma DivideExact(a: real, c: real)
    requires c > 0.0 && a / c == 1.0
    ensures a == c
  {
    assert a == a / c * c;
  }
}
