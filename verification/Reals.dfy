/** Extremes and ratios of real numbers. Comparing a quotient with a bound, scaling an inequality and the
    least and greatest number of a list are proved here once, so that the modules about scores, ratios
    and metrics need no nonlinear arithmetic of their own. Division is exact; rounding plays no role.
 */
module Reals {

  /** Python's max of a non-empty list. */
  function MaxOf(xs: seq<real>): (m: real)
    requires xs != []
    ensures m in xs && forall x :: x in xs ==> x <= m
  {
    if |xs| == 1 then xs[0]
    else
      var rest := MaxOf(xs[1..]);
      assert xs == [xs[0]] + xs[1..];
      if xs[0] >= rest then xs[0] else rest
  }

  /** Python's min of a non-empty list. */
  function MinOf(xs: seq<real>): (m: real)
    requires xs != []
    ensures m in xs && forall x :: x in xs ==> m <= x
  {
    if |xs| == 1 then xs[0]
    else
      var rest := MinOf(xs[1..]);
      assert xs == [xs[0]] + xs[1..];
      if xs[0] <= rest then xs[0] else rest
  }

  /** Scaling by a positive number keeps the order. */
  lemma Scale(a: real, b: real, n: real)
    requires n > 0.0
    ensures a < b ==> a * n < b * n
    ensures a * n < b * n ==> a < b
  {
    Positive(b - a, n);
    Positive(a - b, n);
    assert b * n - a * n == (b - a) * n;
  }

  lemma Positive(d: real, n: real)
    requires n > 0.0
    ensures d > 0.0 ==> d * n > 0.0
  {
  }

  /** What a ratio is, compared with a bound. */
  lemma Ratio(x: real, y: real, bound: real)
    requires y > 0.0
    ensures x / y * y == x
    ensures x / y > bound <==> x > bound * y
    ensures x / y < bound <==> x < bound * y
  {
    Scale(x / y, bound, y);
    Scale(bound, x / y, y);
  }

  lemma Quotient(x: real, y: real)
    requires y != 0.0
    ensures x / y * y == x
  {
  }

  /** A larger divisor gives a smaller quotient. */
  lemma Lower(x: real, a: real, b: real)
    requires x > 0.0 && 0.0 < a < b
    ensures x / b < x / a
  {
    Ratio(x, a, 0.0);
    Ratio(x, b, x / a);
    Scale(a, b, x / a);
  }

  /** A share of y times y is the whole, and it is one exactly when nothing is missing. */
  lemma Share(x: real, y: real)
    requires y > 0.0
    ensures x / y * y == x
    ensures x / y == 1.0 <==> x == y
  {
    Ratio(x, y, 1.0);
  }

  /** Dividing by a positive number keeps the order. */
  lemma SameDivisor(x: real, y: real, n: real)
    requires n > 0.0
    ensures x < y <==> x / n < y / n
  {
    Ratio(y, n, x / n);
    Ratio(x, n, 0.0);
  }
}
