/** Order and sign facts about products and quotients of reals, one small step each. Every
    product is passed by name, so that a caller's facts are about that name. */
module RealAlgebra {

  function Abs(x: real): real {
    if x >= 0.0 then x else -x
  }

  lemma MulNonNeg(a: real, b: real, ab: real)
    requires a >= 0.0 && b >= 0.0 && ab == a * b
    ensures ab >= 0.0
  {
  }

  lemma MulPos(a: real, b: real, ab: real)
    requires a > 0.0 && b > 0.0 && ab == a * b
    ensures ab > 0.0
  {
  }

  lemma SquareSign(a: real, aa: real)
    requires aa == a * a
    ensures aa >= 0.0
    ensures a != 0.0 ==> aa > 0.0
  {
    if a > 0.0 {
      MulPos(a, a, aa);
    } else if a < 0.0 {
      var b := -a;
      MulPos(b, b, aa);
    }
  }

  /** Multiplying by a positive factor preserves and reflects order. */
  lemma ScaleOrder(a: real, x: real, y: real, ax: real, ay: real)
    requires a > 0.0 && ax == a * x && ay == a * y
    ensures x <= y <==> ax <= ay
    ensures x < y <==> ax < ay
  {
    if x < y {
      MulPos(a, y - x, ay - ax);
    } else if y < x {
      MulPos(a, x - y, ax - ay);
    }
  }

  lemma MulMono(a: real, x: real, y: real, ax: real, ay: real)
    requires a >= 0.0 && x <= y && ax == a * x && ay == a * y
    ensures ax <= ay
  {
    MulNonNeg(a, y - x, ay - ax);
  }

  /** A named quotient, so that equal arguments give equal results without nonlinear reasoning. */
  function Quotient(a: real, b: real): real
    requires b != 0.0
  {
    a / b
  }

  /** q is the quotient a / b. */
  lemma DivMul(a: real, b: real, q: real)
    requires b != 0.0 && q == a / b
    ensures q * b == a
  {
  }

  lemma DivNonNeg(a: real, b: real, q: real)
    requires a >= 0.0 && b > 0.0 && q == a / b
    ensures q >= 0.0
  {
    DivMul(a, b, q);
    ScaleOrder(b, 0.0, q, 0.0, a);
  }

  lemma DivPos(a: real, b: real, q: real)
    requires a > 0.0 && b > 0.0 && q == a / b
    ensures q > 0.0
  {
    DivMul(a, b, q);
    ScaleOrder(b, 0.0, q, 0.0, a);
  }

  /** A quotient q of a by b against c, cleared of the denominator. */
  lemma DivOrder(a: real, b: real, q: real, c: real, cb: real)
    requires b > 0.0 && q == a / b && cb == c * b
    ensures q <= c <==> a <= cb
    ensures c <= q <==> cb <= a
    ensures q == c <==> a == cb
  {
    DivMul(a, b, q);
    ScaleOrder(b, q, c, a, cb);
    ScaleOrder(b, c, q, cb, a);
  }

  lemma AbsAgainstSquare(u: real, h: real, uu: real, hh: real)
    requires h >= 0.0 && uu == u * u && hh == h * h
    ensures -h <= u <= h <==> uu <= hh
  {
    if -h <= u <= h {
      MulNonNeg(h - u, h + u, hh - uu);
    } else if u > h {
      MulPos(u - h, h + u, uu - hh);
    } else {
      MulPos(h - u, -h - u, uu - hh);
    }
  }

  /** Non-negative numbers with equal squares are equal. */
  lemma RootUnique(a: real, b: real, s: real)
    requires a >= 0.0 && b >= 0.0 && s == a * a && s == b * b
    ensures a == b
  {
    AbsAgainstSquare(a, b, s, s);
    AbsAgainstSquare(b, a, s, s);
  }

  lemma Distribute(p: real, a: real, b: real)
    ensures p * (a + b) == p * a + p * b
  {
  }

  /** Scaling both sides of a quotient leaves it. */
  lemma ScaledQuotient(p: real, d: real, k: real, kp: real, kd: real)
    requires k > 0.0 && d > 0.0 && kp == k * p && kd == k * d && kd > 0.0
    ensures Quotient(kp, kd) == Quotient(p, d)
  {
    var q := Quotient(p, d);
    DivMul(p, d, q);
    assert q * kd == k * (q * d);
    DivOrder(kp, kd, Quotient(kp, kd), q, q * kd);
  }
}
