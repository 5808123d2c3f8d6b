/** Facts about products of reals.

    Each lemma names the product it talks about through an extra argument
    (`s == a * b`), so that a caller can pass a component product or a
    function result for `s` and draw the conclusion about that term. */
module Arith {

  lemma MulPositive(a: real, b: real, s: real)
    requires s == a * b
    requires a > 0.0 && b > 0.0
    ensures s > 0.0
  {
  }

  lemma MulNegatives(a: real, b: real, s: real)
    requires s == a * b
    requires a < 0.0 && b < 0.0
    ensures s > 0.0
  {
  }

  lemma MulNonNegative(a: real, b: real, s: real)
    requires s == a * b
    requires a >= 0.0 && b >= 0.0
    ensures s >= 0.0
  {
  }

  /** A square is never negative. */
  lemma SquareNonNegative(a: real, s: real)
    requires s == a * a
    ensures s >= 0.0
  {
  }

  /** The square of a non-zero number is positive. */
  lemma SquarePositive(a: real, s: real)
    requires s == a * a
    requires a != 0.0
    ensures s > 0.0
  {
    if a > 0.0 {
      MulPositive(a, a, s);
    } else {
      MulNegatives(a, a, s);
    }
  }

  /** A product of two numbers in [0, 1] is again in [0, 1]. */
  lemma MulUnitInterval(a: real, b: real, s: real)
    requires s == a * b
    requires 0.0 <= a <= 1.0 && 0.0 <= b <= 1.0
    ensures 0.0 <= s <= 1.0
  {
    MulNonNegative(a, b, s);
    MulNonNegative(1.0 - a, b, b - s);
  }

  /** A non-negative root of a positive number is positive. */
  lemma RootPositive(r: real, s: real)
    requires s == r * r
    requires r >= 0.0 && s > 0.0
    ensures r > 0.0
  {
    if r == 0.0 {
      assert false;
    }
  }

  /** The only non-negative root of 0 is 0. */
  lemma RootZero(r: real, s: real)
    requires s == r * r
    requires r >= 0.0 && s == 0.0
    ensures r == 0.0
  {
    if r > 0.0 {
      MulPositive(r, r, s);
    }
  }

  /** The only non-negative root of 1 is 1. */
  lemma RootOne(r: real, s: real)
    requires s == r * r
    requires r >= 0.0 && s == 1.0
    ensures r == 1.0
  {
    if r > 1.0 {
      MulPositive(r - 1.0, r + 1.0, s - 1.0);
    } else if r < 1.0 {
      MulPositive(1.0 - r, 1.0 + r, 1.0 - s);
    }
  }

  /** Two non-negative roots of the same square are equal. */
  lemma RootUnique(r: real, q: real, s: real)
    requires s == r * r && s == q * q
    requires r >= 0.0 && q >= 0.0
    ensures r == q
  {
    if r > q {
      MulPositive(r - q, r + q, s - q * q);
    } else if r < q {
      MulPositive(q - r, q + r, q * q - s);
    }
  }

  /** A product is zero exactly when one of its factors is. */
  lemma ZeroProduct(a: real, b: real, s: real)
    requires s == a * b
    ensures s == 0.0 <==> (a == 0.0 || b == 0.0)
  {
    if a > 0.0 && b > 0.0 {
      MulPositive(a, b, s);
    } else if a < 0.0 && b < 0.0 {
      MulNegatives(a, b, s);
    } else if a > 0.0 && b < 0.0 {
      MulPositive(a, -b, -s);
    } else if a < 0.0 && b > 0.0 {
      MulPositive(-a, b, -s);
    }
  }

  /** When a product of two non-negative numbers is positive, so are both. */
  lemma ProductPositive(a: real, b: real, s: real)
    requires s == a * b
    requires a >= 0.0 && b >= 0.0 && s > 0.0
    ensures a > 0.0 && b > 0.0
  {
    ZeroProduct(a, b, s);
  }

  /** A number whose square is at most 1 lies in [-1, 1]. */
  lemma SquareAtMostOne(a: real, s: real)
    requires s == a * a && s <= 1.0
    ensures -1.0 <= a <= 1.0
  {
    if a > 1.0 {
      MulPositive(a - 1.0, a + 1.0, s - 1.0);
    } else if a < -1.0 {
      MulNegatives(a - 1.0, a + 1.0, s - 1.0);
    }
  }
}
