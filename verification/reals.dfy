/**
 * The real-number primitives the rendering code borrows from the floating-point
 * library. `f32::sqrt`, `f32::cos` and `f32::sin` are foreign functions; the model
 * takes them as function-valued parameters and states the laws it relies on as
 * predicates, so every result that needs a law says so in its `requires`.
 */
module Reals {

  /** `sqrt` is an exact square root on the non-negative reals. */
  ghost predicate IsSqrt(sqrt: real -> real) {
    forall x :: 0.0 <= x ==> 0.0 <= sqrt(x) && sqrt(x) * sqrt(x) == x
  }

  /** `cos` and `sin` lie on the unit circle at every angle. */
  ghost predicate IsUnitCircle(cos: real -> real, sin: real -> real) {
    forall a :: cos(a) * cos(a) + sin(a) * sin(a) == 1.0
  }

  /**
   * `f32::max(self, other)`: the larger value. (The floating-point version also
   * returns `other` when `self` is NaN; the model has no NaN, see Normalize.)
   */
  function Max(a: real, b: real): (m: real)
    ensures m >= a && m >= b && (m == a || m == b)
  {
    if a >= b then a else b
  }

  /** The square root of a positive number is positive. */
  lemma SqrtPositive(sqrt: real -> real, x: real)
    requires IsSqrt(sqrt) && x > 0.0
    ensures sqrt(x) > 0.0
  {
  }

  /** The square root of a square is the absolute value. */
  lemma SqrtOfSquare(sqrt: real -> real, x: real)
    requires IsSqrt(sqrt)
    ensures sqrt(x * x) == if x >= 0.0 then x else -x
  {
    var s, a := sqrt(x * x), if x >= 0.0 then x else -x;
    assert s >= 0.0 && s * s == a * a;
    SquaresEqual(s, a);
  }

  /** Two non-negative reals with the same square are equal. */
  lemma SquaresEqual(s: real, a: real)
    requires s >= 0.0 && a >= 0.0 && s * s == a * a
    ensures s == a
  {
    assert (s - a) * (s + a) == s * s - a * a;
    if s + a == 0.0 {
    } else {
      assert s - a == 0.0;
    }
  }

  /** A real whose square is at most one lies in [-1, 1]. */
  lemma SquareAtMostOne(x: real)
    requires x * x <= 1.0
    ensures -1.0 <= x <= 1.0
  {
  }

  /**
   * The product of a number with itself is non-negative. The factors are passed
   * as two equal arguments, which keeps the product a product of two factors for
   * the solver.
   */
  lemma ProductOfEqualNonNegative(a: real, b: real)
    requires a == b
    ensures a * b >= 0.0
  {
    if a < 0.0 {
      assert a * b == (-a) * (-b);
    }
  }

  /** The product of a non-zero number with itself is positive. */
  lemma ProductOfEqualPositive(a: real, b: real)
    requires a == b && a != 0.0
    ensures a * b > 0.0
  {
    if a < 0.0 {
      assert a * b == (-a) * (-b);
    }
  }

  /** A sum of non-negative terms, one of them positive, is positive. */
  lemma SumPositive(a: real, b: real, c: real, d: real)
    requires a >= 0.0 && b >= 0.0 && c >= 0.0 && d >= 0.0
    requires a > 0.0 || b > 0.0 || c > 0.0 || d > 0.0
    ensures a + b + c + d > 0.0
  {
  }

  /** A non-negative number times a factor in [0, 1] stays between zero and the number. */
  lemma FractionOf(x: real, f: real)
    requires 0.0 <= x && 0.0 <= f <= 1.0
    ensures 0.0 <= x * f <= x
  {
    assert x - x * f == x * (1.0 - f);
  }

  /** The weighted mean `a·(1 - r) + b·r`. */
  function Lerp(a: real, b: real, r: real): real {
    a * (1.0 - r) + b * r
  }

  /** A weighted mean of two numbers in [lo, hi], with weights in [0, 1], stays in [lo, hi]. */
  lemma LerpBetween(lo: real, hi: real, a: real, b: real, r: real)
    requires lo <= a <= hi && lo <= b <= hi && 0.0 <= r <= 1.0
    ensures lo <= Lerp(a, b, r) <= hi
  {
    NonNegativeProduct(a - lo, 1.0 - r);
    NonNegativeProduct(b - lo, r);
    NonNegativeProduct(hi - a, 1.0 - r);
    NonNegativeProduct(hi - b, r);
    assert a * (1.0 - r) + b * r - lo == (a - lo) * (1.0 - r) + (b - lo) * r;
    assert hi - (a * (1.0 - r) + b * r) == (hi - a) * (1.0 - r) + (hi - b) * r;
  }

  lemma NonNegativeProduct(a: real, b: real)
    requires 0.0 <= a && 0.0 <= b
    ensures 0.0 <= a * b
  {
  }

  /** Dividing a non-negative number by a positive one gives a non-negative quotient that multiplies back. */
  lemma QuotientNonNegative(m: real, a: real)
    requires 0.0 <= m && 0.0 < a
    ensures 0.0 <= m / a && (m / a) * a == m
  {
  }

  /** Dividing by a non-zero real and negating can be undone. */
  lemma NegatedQuotient(x: real, p: real)
    requires p != 0.0
    ensures -(-x / p) * p == x
  {
  }

  /** The quadratic `a·t² - 2·b·t + c` in `t`. */
  function Quadratic(a: real, b: real, c: real, t: real): real {
    a * t * t - 2.0 * b * t + c
  }

  /** A sum of quadratics in the same `t` is the quadratic of the summed coefficients. */
  lemma QuadraticSum(a1: real, a2: real, a3: real, b1: real, b2: real, b3: real,
                     c1: real, c2: real, c3: real, t: real)
    ensures Quadratic(a1 + a2 + a3, b1 + b2 + b3, c1 + c2 + c3, t)
         == Quadratic(a1, b1, c1, t) + Quadratic(a2, b2, c2, t) + Quadratic(a3, b3, c3, t)
  {
  }

  /**
   * The roots of `a·t² - 2·b·t + c` are `(b ± s) / a` where `s² = b² - a·c`: a `t`
   * with `t·a = b ± s` makes the quadratic vanish.
   */
  lemma QuadraticRoot(a: real, b: real, c: real, s: real, t: real)
    requires a != 0.0 && s * s == b * b - a * c
    requires t * a == b + s || t * a == b - s
    ensures Quadratic(a, b, c, t) == 0.0
  {
    var k := t * a;
    assert a * Quadratic(a, b, c, t) == k * k - 2.0 * b * k + a * c;
    assert k * k - 2.0 * b * k + a * c == (k - b) * (k - b) - (b * b - a * c);
    assert (k - b) * (k - b) == s * s;
  }

  /** `t = -p / d` solves the linear equation `p + t·d = 0`. */
  lemma LinearRoot(p: real, d: real, t: real)
    requires d != 0.0 && t == -p / d
    ensures p + t * d == 0.0
  {
  }
}
