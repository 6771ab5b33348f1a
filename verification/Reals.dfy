/** Signs and scaling of real products. */
module Reals {

  lemma Product(x: real, y: real)
    requires x >= 0.0 && y >= 0.0
    ensures x * y >= 0.0
  {
  }

  lemma PositiveProduct(x: real, y: real)
    requires x > 0.0 && y > 0.0
    ensures x * y > 0.0
  {
  }

  lemma NonNegativeFactor(x: real, y: real)
    requires y > 0.0 && x * y >= 0.0
    ensures x >= 0.0
  {
  }

  /** Scaling by a positive factor keeps order both ways. */
  lemma Scale(k: real, x: real, y: real)
    requires k > 0.0
    ensures x <= y <==> x * k <= y * k
  {
    if x <= y {
      Product(y - x, k);
      assert (y - x) * k == y * k - x * k;
    } else {
      PositiveProduct(x - y, k);
      assert (x - y) * k == x * k - y * k;
    }
  }

  /** Scaling by a factor that is not negative keeps order. */
  lemma ScaleUp(k: real, x: real, y: real)
    requires k >= 0.0 && x <= y
    ensures k * x <= k * y
  {
    Product(k, y - x);
    assert k * (y - x) == k * y - k * x;
  }

  lemma QuotientIsStrict(k: real, x: real, y: real)
    requires k > 0.0 && x < y
    ensures x / k < y / k
  {
    var p, q := x / k, y / k;
    assert p * k == x && q * k == y;
    if q <= p {
      ScaleUp(k, q, p);
    }
  }

  function Square(x: real): real { x * x }

  lemma SquareIsPositive(x: real)
    requires x != 0.0
    ensures Square(x) > 0.0
  {
    if x > 0.0 {
      var half := x / 2.0;
      PositiveProduct(x, half);
      assert Square(x) == x * half + x * half;
    } else {
      var half := (0.0 - x) / 2.0;
      PositiveProduct(0.0 - x, half);
      assert Square(x) == (0.0 - x) * half + (0.0 - x) * half;
    }
  }

  lemma SquareIsMonotone(x: real, y: real)
    requires 0.0 <= x <= y
    ensures 0.0 <= Square(x) <= Square(y)
  {
    Product(x, x);
    ScaleUp(x, x, y);
    ScaleUp(y, x, y);
    assert x * y == y * x;
  }

  lemma SquareIsStrict(x: real, y: real)
    requires 0.0 <= x < y
    ensures 0.0 <= Square(x) < Square(y)
  {
    var p, q := x * (y - x), (y - x) * y;
    assert p >= 0.0 by { Product(x, y - x); }
    assert q > 0.0 by { PositiveProduct(y - x, y); }
    assert y * y - x * x == p + q;
    Product(x, x);
  }
}
