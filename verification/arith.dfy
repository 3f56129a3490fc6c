/**
 Small facts of real arithmetic, each over plain variables so that the
 solver sees one product at a time.
 */
module Arith {

  lemma DivMul(n: real, d: real)
    requires d != 0.0
    ensures (n / d) * d == n
  {
  }

  lemma Cancel(k: real, a: real, b: real)
    requires k != 0.0
    requires k * a == k * b
    ensures a == b
  {
    assert a == (k * a) / k;
    assert b == (k * b) / k;
  }

  lemma MulPos(a: real, b: real)
    requires 0.0 < a && 0.0 < b
    ensures 0.0 < a * b
  {
  }

  lemma MulNonneg(a: real, b: real)
    requires 0.0 <= a && 0.0 <= b
    ensures 0.0 <= a * b
  {
  }

  /** Multiplying by a positive factor keeps a strict order. */
  lemma MulStrict(a: real, b: real, c: real)
    requires a < b && 0.0 < c
    ensures a * c < b * c
  {
    MulPos(b - a, c);
    assert (b - a) * c == b * c - a * c;
  }

  /** Multiplying by a non-negative factor keeps a weak order. */
  lemma MulMono(a: real, b: real, c: real)
    requires a <= b && 0.0 <= c
    ensures a * c <= b * c
  {
    MulNonneg(b - a, c);
    assert (b - a) * c == b * c - a * c;
  }

  /** A fraction of a non-negative span stays inside the span. */
  lemma FractionOfSpan(p: real, k: real)
    requires 0.0 <= p <= 1.0 && 0.0 <= k
    ensures 0.0 <= p * k <= k
  {
    MulNonneg(p, k);
    MulMono(p, 1.0, k);
  }

  lemma DivPos(n: real, d: real)
    requires 0.0 < n && 0.0 < d
    ensures 0.0 < n / d
  {
    DivMul(n, d);
    if n / d <= 0.0 {
      MulMono(n / d, 0.0, d);
      assert false;
    }
  }

  /** Dividing by a quotient `h / t` is multiplying by `t` and dividing by `h`. */
  lemma DivByQuotient(x: real, h: real, t: real)
    requires h != 0.0 && t != 0.0
    ensures h / t != 0.0
    ensures x / (h / t) == x * t / h
  {
    var q := h / t;
    DivMul(h, t);
    assert q * t == h;
    var y := x * t / h;
    DivMul(x * t, h);
    assert y * h == x * t;
    assert y * q * t == x * t;
    Cancel(t, y * q, x);
    assert y * q == x;
  }

  lemma DivNeg(n: real, d: real)
    requires d != 0.0
    ensures (-n) / d == -(n / d)
  {
  }

  /** Dividing by a positive number keeps a weak order. */
  lemma DivMono(a: real, b: real, d: real)
    requires a <= b && 0.0 < d
    ensures a / d <= b / d
  {
    DivMul(a, d);
    DivMul(b, d);
  }

  /** Dividing a positive number by a larger one gives a smaller result. */
  lemma DivAntitone(n: real, d1: real, d2: real)
    requires 0.0 < n && 0.0 < d1 < d2
    ensures n / d2 < n / d1
  {
    DivMul(n, d1);
    DivMul(n, d2);
    DivPos(n, d1);
    DivPos(n, d2);
    if n / d1 <= n / d2 {
      MulMono(n / d1, n / d2, d1);
      MulStrict(d1, d2, n / d2);
    }
  }

  /**
   The square of a non-zero number is positive. The factors are passed as
   two equal variables so that the solver reasons about an ordinary product.
   */
  lemma SquarePos(v: real, w: real, r: real)
    requires v != 0.0 && v == w && r == v * w
    ensures 0.0 < r
  {
    var s := if 0.0 < v then v else -v;
    MulPos(s, s);
    assert s * s == v * w;
  }

  /** A non-negative square root of a positive number is positive. */
  lemma RootPos(root: real, x: real)
    requires 0.0 <= root && root * root == x && 0.0 < x
    ensures 0.0 < root
  {
    if root == 0.0 {
      assert false;
    }
  }

  /** A product `x` of positive factors is positive. */
  lemma ProductPositive(x: real, d: real, c: real)
    requires x == d * c && 0.0 < d && 0.0 < c
    ensures 0.0 < x
  {
    MulPos(d, c);
  }

  /** Scaling a positive number by a factor below 1 shrinks it. */
  lemma ProductBelow(x: real, d: real, c: real)
    requires x == d * c && 0.0 < d && c < 1.0
    ensures x < d
  {
    MulPos(d, 1.0 - c);
  }
}
