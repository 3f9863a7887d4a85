/**
 * The parts of <cmath> the core relies on, idealised over the reals.
 *
 * std::sqrt is a library routine whose body is not part of this model, so
 * every operation that uses it receives it as a parameter `sqrt` and
 * requires `IsSqrt(sqrt)`: on non-negative arguments it returns the
 * non-negative square root. Nothing is assumed about negative arguments
 * (where the library returns NaN).
 */
module MathUtils {

  /**
   * Multiplication of two reals. Every product in the model is written
   * with this function, so that products of equal operands are equal
   * terms for the verifier, whichever way the operands were obtained.
   */
  function Mul(a: real, b: real): real {
    a * b
  }

  /** 1/t for t != 0. */
  function Recip(t: real): (r: real)
    requires t != 0.0
    ensures Mul(t, r) == 1.0
  {
    1.0 / t
  }

  ghost predicate IsSqrt(sqrt: real -> real) {
    forall x: real :: 0.0 <= x ==> 0.0 <= sqrt(x) && Mul(sqrt(x), sqrt(x)) == x
  }

  /** n / d for d != 0: the q with d * q == n. */
  function Quotient(n: real, d: real): (q: real)
    requires d != 0.0
    ensures Mul(d, q) == n
  {
    n / d
  }

  /** A non-zero factor cancels: d*x == d*y implies x == y. */
  lemma CancelFactor(d: real, x: real, y: real)
    requires d != 0.0 && Mul(d, x) == Mul(d, y)
    ensures x == y
  {
  }

  /** The product of two positive reals is positive. */
  lemma ProductPositive(p: real, q: real)
    requires 0.0 < p && 0.0 < q
    ensures 0.0 < Mul(p, q)
  {
  }

  /** The product of two non-negative reals is non-negative. */
  lemma ProductNonNegative(p: real, q: real)
    requires 0.0 <= p && 0.0 <= q
    ensures 0.0 <= Mul(p, q)
  {
  }

  /** A positive factor keeps the sign of the other. */
  lemma PositiveFactorKeepsSign(k: real, x: real)
    requires 0.0 < k
    ensures 0.0 < Mul(k, x) <==> 0.0 < x
    ensures Mul(k, x) < 0.0 <==> x < 0.0
  {
  }

  /** Multiplying by a non-negative factor preserves order. */
  lemma MultiplyMonotone(k: real, a: real, b: real)
    requires 0.0 <= k && a <= b
    ensures Mul(k, a) <= Mul(k, b)
  {
  }

  /** sqrt(x) < 1 for 0 <= x < 1. */
  lemma SqrtBelowOne(sqrt: real -> real, x: real)
    requires IsSqrt(sqrt) && 0.0 <= x < 1.0
    ensures sqrt(x) < 1.0
  {
  }

  lemma SquareNonNegative(x: real)
    ensures 0.0 <= Mul(x, x)
  {
  }

  /** A non-zero real has a positive square. */
  lemma SquarePositive(x: real)
    requires x != 0.0
    ensures 0.0 < Mul(x, x)
  {
    if x < 0.0 {
      ProductPositive(-x, -x);
      assert Mul(x, x) == Mul(-x, -x);
    } else {
      ProductPositive(x, x);
    }
  }

  /** Squaring is strictly increasing on the non-negative reals. */
  lemma SquareStrictlyIncreasing(a: real, b: real)
    requires 0.0 <= b < a
    ensures Mul(b, b) < Mul(a, a)
  {
    ProductPositive(a - b, a + b);
    assert Mul(a, a) - Mul(b, b) == Mul(a - b, a + b);
  }

  /** Two non-negative reals with the same square are equal. */
  lemma SquareInjective(a: real, b: real)
    requires 0.0 <= a && 0.0 <= b && Mul(a, a) == Mul(b, b)
    ensures a == b
  {
    if b < a {
      SquareStrictlyIncreasing(a, b);
    } else if a < b {
      SquareStrictlyIncreasing(b, a);
    }
  }

  /** A square root is determined by its argument: sqrt(s*s) == s for s >= 0. */
  lemma SqrtOfSquare(sqrt: real -> real, s: real)
    requires IsSqrt(sqrt) && 0.0 <= s
    ensures sqrt(Mul(s, s)) == s
  {
    SquareNonNegative(s);
    SquareInjective(sqrt(Mul(s, s)), s);
  }

  /** The square root of a positive real is positive. */
  lemma SqrtPositive(sqrt: real -> real, x: real)
    requires IsSqrt(sqrt) && 0.0 < x
    ensures 0.0 < sqrt(x)
  {
  }

  /** std::sqrt is monotone on the non-negative reals. */
  lemma SqrtMonotone(sqrt: real -> real, x: real, y: real)
    requires IsSqrt(sqrt) && 0.0 <= x <= y
    ensures sqrt(x) <= sqrt(y)
  {
    if sqrt(y) < sqrt(x) {
      SquareStrictlyIncreasing(sqrt(x), sqrt(y));
    }
  }

  /** The square root of a value in [0, 1] is again in [0, 1]; of a value >= 1 it is >= 1. */
  lemma SqrtUnitInterval(sqrt: real -> real, x: real)
    requires IsSqrt(sqrt) && 0.0 <= x
    ensures x <= 1.0 ==> sqrt(x) <= 1.0
    ensures 1.0 <= x ==> 1.0 <= sqrt(x)
  {
    SqrtOfSquare(sqrt, 1.0);
    assert Mul(1.0, 1.0) == 1.0;
    if x <= 1.0 {
      SqrtMonotone(sqrt, x, 1.0);
    } else {
      SqrtMonotone(sqrt, 1.0, x);
    }
  }

  /** std::fmin over the reals (no NaN operands arise here). */
  function Min(a: real, b: real): (m: real)
    ensures m <= a && m <= b && (m == a || m == b)
  {
    if a < b then a else b
  }

  /**
   * std::clamp(v, lo, hi): `v < lo ? lo : hi < v ? hi : v`.
   */
  function Clamp(v: real, lo: real, hi: real): (c: real)
    requires lo <= hi
    ensures lo <= c <= hi
    ensures lo <= v <= hi ==> c == v
    ensures v < lo ==> c == lo
    ensures hi < v ==> c == hi
  {
    if v < lo then lo else if hi < v then hi else v
  }
}
