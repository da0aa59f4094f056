/** Small facts on products of reals; the products are parameters, so that callers need no arithmetic on them. */
module Products {
  lemma Positive(x: real, y: real)
    requires x > 0.0 && y > 0.0
    ensures x * y > 0.0
  {
  }

  lemma Difference(x: real, y: real, d: real, p: real, q: real)
    requires p == x * d && q == y * d
    ensures (y - x) * d == q - p
  {
  }

  lemma Scale(x: real, y: real, d: real, p: real, q: real)
    requires d > 0.0 && p == x * d && q == y * d
    ensures x < y <==> p < q
  {
    Difference(x, y, d, p, q);
    if x < y {
      Positive(y - x, d);
    } else if y < x {
      Positive(x - y, d);
      Difference(y, x, d, q, p);
    }
  }

  lemma Quotient(x: real, d: real)
    requires x >= 0.0 && d >= 1.0
    ensures x / d <= x
  {
    var q := x / d;
    if q > x && d > 1.0 {
      Positive(q, d - 1.0);
      Difference(1.0, d, q, q, d * q);
    }
  }

  /** A share taken off each of n. */
  lemma Share(n: real, b: real, t: real)
    requires t > 0.0
    ensures n * (1.0 - b / t) == n - (n * b) / t
  {
    var q := b / t;
    assert b == q * t;
    assert n * b == (n * q) * t;
    Divide(n * b, n * q, t);
  }

  lemma Divide(p: real, x: real, t: real)
    requires t > 0.0 && p == x * t
    ensures p / t == x
  {
  }

  lemma Shares(p: real, q: real, t: real)
    requires t > 0.0
    ensures p / t + q / t == (p + q) / t
  {
  }

  lemma Next(x: real, d: real, p: real)
    requires p == x * d
    ensures (x + 1.0) * d == p + d
  {
  }
}
