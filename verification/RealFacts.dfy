/** The larger, the smaller and the ceiling of reals, and the handful of facts about products
    that the geometry needs by name. */
module RealFacts {

  function Max(a: real, b: real): (m: real)
    ensures m >= a && m >= b && (m == a || m == b)
  {
    if a >= b then a else b
  }

  function Min(a: real, b: real): (m: real)
    ensures m <= a && m <= b && (m == a || m == b)
  {
    if a <= b then a else b
  }

  function Ceiling(x: real): (n: int)
    ensures x <= n as real < x + 1.0
  {
    -((-x).Floor)
  }

  lemma MulMonotone(a: real, b: real, c: real)
    requires a <= b && c >= 0.0
    ensures a * c <= b * c
  {
    assert (b - a) * c >= 0.0;
  }

  /** Comparing with a quotient. */
  lemma QuotientLess(n: real, d: real, t: real)
    requires d > 0.0
    ensures n / d < t <==> n < t * d
    ensures t < n / d <==> t * d < n
  {
    var q := n / d;
    assert q * d == n;
    assert (t - q) * d == t * d - n;
    var x := t - q;
    assert x > 0.0 <==> x * d > 0.0;
    assert x < 0.0 <==> x * d < 0.0;
  }

  lemma SquareLess(x: real, root: real)
    requires root >= 0.0
    ensures x * x < root * root <==> -root < x < root
  {
    if -root < x < root {
      var p := PositiveProduct(root - x, root + x);
      assert p == root * root - x * x;
    } else if x >= root {
      MulMonotone(root, x, root);
      MulMonotone(root, x, x);
    } else {
      MulMonotone(root, -x, root);
      MulMonotone(root, -x, -x);
    }
  }

  lemma QuotientNegated(n: real, d: real)
    requires d != 0.0
    ensures n / d == -n / -d
  {
    var q, r := n / d, -n / -d;
    assert q * d == n && r * -d == -n;
    assert (q - r) * d == 0.0;
  }

  lemma QuotientIs(n: real, d: real, q: real)
    requires d > 0.0 && n == q * d
    ensures n / d == q
  {
    var r := n / d;
    assert r * d == q * d;
    assert (r - q) * d == 0.0;
  }

  lemma ProductSign(a: real, b: real)
    ensures a >= 0.0 && b >= 0.0 ==> a * b >= 0.0
    ensures a > 0.0 && b > 0.0 ==> a * b > 0.0
  {
  }

  lemma PositiveProduct(a: real, b: real) returns (p: real)
    requires a > 0.0 && b > 0.0
    ensures p == a * b && p > 0.0
  {
    p := a * b;
  }

  /** A square as a value of its own, with its sign. */
  lemma SquarePositive(x: real) returns (s: real)
    ensures s == x * x && s >= 0.0 && (s == 0.0 <==> x == 0.0)
  {
    if x > 0.0 {
      s := PositiveProduct(x, x);
    } else if x < 0.0 {
      s := PositiveProduct(-x, -x);
    } else {
      s := 0.0;
    }
  }
}
