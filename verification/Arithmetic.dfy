/** Facts about products and quotients that Dafny's arithmetic has to be led to. */
module Arithmetic {
  import opened Types

  lemma Product(a: int, b: int)
    requires a >= 0 && b >= 0
    ensures a * b >= 0
  {
  }

  lemma Products(a: int, b: int, width: nat)
    ensures a <= b ==> a * width <= b * width
    ensures a < b ==> a * width + width <= b * width
  {
    var d := b - a;
    assert b * width == a * width + d * width;
    assert d * width == (d - 1) * width + width;
    if a <= b { Product(d, width); }
    if a < b { Product(d - 1, width); }
  }

  lemma Quotient(x: int, width: int)
    requires width > 0
    ensures x / width * width <= x < x / width * width + width
  {
  }

  lemma QuotientMonotone(x: int, y: int, width: int)
    requires 0 <= x <= y && width > 0
    ensures x / width <= y / width
  {
    Quotient(x, width);
    Quotient(y, width);
    Products(y / width, x / width, width);
  }

  lemma RemainderIs(x: int, d: int, t: int, r: int)
    requires d > 0 && 0 <= r < d && x == d * t + r
    ensures x % d == r && x / d == t
  {
    var q, m := x / d, x % d;
    assert x == d * q + m;
    assert d * (q - t) == r - m;
    if q < t {
      Products(1, t - q, d);
    } else if q > t {
      Products(1, q - t, d);
    }
  }

  lemma QuotientBetween(n: nat, d: int, low: int, high: int)
    requires d > 0 && low * d <= n <= high * d
    ensures low <= n / d <= high
  {
    var q := n / d;
    Quotient(n, d);
    Products(q, low, d);
    Products(high, q, d);
  }

  lemma Swapped(q: int, d1: int, d2: int)
    ensures q * d2 * d1 == q * d1 * d2
  {
  }

  lemma QuotientsOrdered(n1: nat, d1: int, n2: nat, d2: int)
    requires d1 > 0 && d2 > 0 && n1 * d2 <= n2 * d1
    ensures n1 / d1 <= n2 / d2
  {
    var q, p := n1 / d1, n2 / d2;
    Quotient(n1, d1);
    Quotient(n2, d2);
    if q > p {
      Products(p, q, d2);
      Products(n2, q * d2, d1);
      Swapped(q, d1, d2);
      Products(q * d1, n1, d2);
    }
  }

  lemma Negated(a: int, d: int)
    ensures (-a) * d == -(a * d)
  {
  }

  lemma TruncationSign(n: int, d: int)
    requires d > 0
    ensures n >= 0 ==> TruncDiv(n, d) == n / d >= 0
    ensures n < 0 ==> TruncDiv(n, d) == -((-n) / d) <= 0
  {
  }

  /** A truncated quotient stays between integer bounds of the exact one, on either side of zero. */
  lemma TruncatedBetween(n: int, d: int, low: int, high: int)
    requires d > 0 && low * d <= n <= high * d
    ensures low <= TruncDiv(n, d) <= high
  {
    hide TruncDiv;
    TruncationSign(n, d);
    if n >= 0 {
      QuotientBetween(n, d, low, high);
    } else {
      Negated(low, d);
      Negated(high, d);
      QuotientBetween(-n, d, -high, -low);
    }
  }

  /** Truncation keeps the order of fractions. */
  lemma TruncationOrdered(n1: int, d1: int, n2: int, d2: int)
    requires d1 > 0 && d2 > 0 && n1 * d2 <= n2 * d1
    ensures TruncDiv(n1, d1) <= TruncDiv(n2, d2)
  {
    hide TruncDiv;
    TruncationSign(n1, d1);
    TruncationSign(n2, d2);
    if n1 >= 0 {
      Product(n1, d2);
      Products(n2, 0, d1);
      QuotientsOrdered(n1, d1, n2, d2);
    } else if n2 < 0 {
      Negated(n1, d2);
      Negated(n2, d1);
      QuotientsOrdered(-n2, d2, -n1, d1);
    }
  }
}
