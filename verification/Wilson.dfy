/** The effective-sample Wilson interval and the verdict read off it
    (tools/accuracy_registry.py, wilson_eff and verdict_for). */
module Wilson {
  import opened RealAlgebra

  datatype Interval = Interval(lo: real, hi: real) {
    predicate Contains(q: real) {
      lo <= q <= hi
    }

    /** Every point of the other interval lies in this one. */
    predicate Encloses(other: Interval) {
      lo <= other.lo && other.hi <= hi
    }
  }

  /** The square root, by its defining equation. */
  ghost predicate IsSqrt(sqrt: real -> real) {
    forall x :: x >= 0.0 ==> sqrt(x) >= 0.0 && sqrt(x) * sqrt(x) == x
  }

  function Max(a: real, b: real): real {
    if a >= b then a else b
  }

  function Min(a: real, b: real): real {
    if a <= b then a else b
  }

  function Clamp(p: real): (r: real)
    ensures 0.0 <= r <= 1.0
  {
    Min(1.0, Max(0.0, p))
  }

  function Centre(p: real, n: real, z: real): real
    requires n > 0.0
  {
    (p + z * z / (2.0 * n)) / (1.0 + z * z / n)
  }

  /** What stands under the root, with w the square of z. */
  function Radicand(p: real, n: real, w: real): real
    requires n > 0.0
  {
    p * (1.0 - p) / n + w / (4.0 * n * n)
  }

  function Half(sqrt: real -> real, p: real, n: real, z: real): real
    requires n > 0.0
  {
    z * sqrt(Radicand(p, n, z * z)) / (1.0 + z * z / n)
  }

  /** The interval at an effective sample size, clamped to [0, 1] and patched at its ends. */
  function WilsonEff(sqrt: real -> real, p: real, effN: real, z: real): Interval {
    if effN <= 0.0 then Interval(0.0, 1.0)
    else
      var q := Clamp(p);
      var centre, half := Centre(q, effN, z), Half(sqrt, q, effN, z);
      var lo, hi := Max(0.0, centre - half), Min(1.0, centre + half);
      Interval(if q <= 0.0 then 0.0 else lo, if q >= 1.0 then 1.0 else hi)
  }

  // ---------------------------------------------------------------------------
  // The quadratic behind the interval
  // ---------------------------------------------------------------------------

  /** The score test accepts q: n (q - p)^2 <= z^2 q (1 - q). */
  predicate ScoreAccepts(p: real, n: real, z: real, q: real) {
    n * ((q - p) * (q - p)) <= z * z * (q * (1.0 - q))
  }

  /** d = 1 + w / n, cleared of its denominator. */
  lemma Denominator(n: real, w: real, d: real)
    requires n > 0.0 && w >= 0.0 && d == 1.0 + w / n
    ensures d >= 1.0 && d * n == n + w
  {
    var r := w / n;
    DivNonNeg(w, n, r);
    DivMul(w, n, r);
  }

  /** (n + w) times the centre. */
  lemma ScaledCentre(p: real, n: real, z: real, w: real, c: real)
    requires n > 0.0 && w == z * z && c == Centre(p, n, z)
    ensures c * (n + w) == n * p + w / 2.0
  {
    SquareSign(z, w);
    var d, top, v := 1.0 + w / n, p + w / (2.0 * n), w / (2.0 * n);
    Denominator(n, w, d);
    DivMul(top, d, c);
    DivMul(w, 2.0 * n, v);
    assert top * n == p * n + v * n;
    assert c * (d * n) == (c * d) * n;
  }

  /** The square root's argument is non-negative and, scaled by n^2, a polynomial. */
  lemma RadicandFacts(p: real, n: real, w: real, v: real, rad: real)
    requires n > 0.0 && w >= 0.0 && 0.0 <= p <= 1.0
    requires v == p * (1.0 - p) && rad == Radicand(p, n, w)
    ensures v >= 0.0 && rad >= 0.0
    ensures rad * (n * n) == n * v + w / 4.0
  {
    MulNonNeg(p, 1.0 - p, v);
    var nn := n * n;
    SquareSign(n, nn);
    var m := 4.0 * n * n;
    assert m == 4.0 * nn;
    var x, y := v / n, w / m;
    DivNonNeg(v, n, x);
    DivMul(v, n, x);
    DivNonNeg(w, m, y);
    DivMul(w, m, y);
    assert rad == x + y;
    assert x * nn == (x * n) * n && y * nn == y * m / 4.0;
  }

  /** h = (n + w) * half is non-negative, and its square is a polynomial. */
  lemma ScaledHalf(sqrt: real -> real, p: real, n: real, z: real, w: real, v: real, h: real)
    requires IsSqrt(sqrt) && n > 0.0 && z >= 0.0 && 0.0 <= p <= 1.0
    requires w == z * z && v == p * (1.0 - p) && h == Half(sqrt, p, n, z) * (n + w)
    ensures h >= 0.0 && h * h == w * (n * v + w / 4.0)
  {
    SquareSign(z, w);
    var rad := Radicand(p, n, w);
    RadicandFacts(p, n, w, v, rad);
    var s, half := sqrt(rad), Half(sqrt, p, n, z);
    var zs := z * s;
    assert half == zs / (1.0 + w / n);
    HalfTimes(zs, n, w, half, h);
    MulNonNeg(z, s, zs);
    MulNonNeg(zs, n, h);
    assert zs * zs == (z * z) * (s * s);
    SquaredHalf(zs, n, h, w, rad, v);
  }

  lemma HalfTimes(zs: real, n: real, w: real, half: real, h: real)
    requires n > 0.0 && w >= 0.0 && half == zs / (1.0 + w / n) && h == half * (n + w)
    ensures h == zs * n
  {
    var d := 1.0 + w / n;
    Denominator(n, w, d);
    DivMul(zs, d, half);
    assert half * (d * n) == (half * d) * n;
  }

  lemma SquaredHalf(zs: real, n: real, h: real, w: real, rad: real, v: real)
    requires h == zs * n && zs * zs == w * rad && rad * (n * n) == n * v + w / 4.0
    ensures h * h == w * (n * v + w / 4.0)
  {
    calc {
      h * h;
      (zs * zs) * (n * n);
      (w * rad) * (n * n);
      w * (rad * (n * n));
    }
  }

  /** Completing the square. */
  lemma CompleteSquare(p: real, n: real, w: real, q: real, u: real, hh: real, gap: real)
    requires u == (n + w) * q - (n * p + w / 2.0)
    requires hh == w * (n * (p * (1.0 - p)) + w / 4.0)
    requires gap == n * ((q - p) * (q - p)) - w * (q * (1.0 - q))
    ensures u * u - hh == (n + w) * gap
  {
    var a := n + w;
    var c := n * p + w / 2.0;
    assert u * u == a * q * (a * q) - 2.0 * (a * q * c) + c * c;
    assert c * c == n * p * (n * p) + n * p * w + w * w / 4.0;
    assert hh == w * (n * p) - w * (n * (p * p)) + w * w / 4.0;
    assert n * p * (n * p) + w * (n * (p * p)) == a * (n * (p * p));
    assert a * q * (a * q) == a * (a * (q * q));
    assert 2.0 * (a * q * c) == a * (2.0 * (q * c));
    assert gap == a * (q * q) - 2.0 * (q * c) + n * (p * p);
  }

  /** |q - c| <= half, scaled and squared. */
  lemma WithinHalf(q: real, c: real, half: real, a: real, u: real, h: real, uu: real, hh: real)
    requires a > 0.0 && u == a * (q - c) && h == half * a && h >= 0.0 && uu == u * u && hh == h * h
    ensures c - half <= q <= c + half <==> uu <= hh
  {
    ScaleOrder(a, -half, q - c, -h, u);
    ScaleOrder(a, q - c, half, u, h);
    AbsAgainstSquare(u, h, uu, hh);
  }

  /** Before any clamp, the interval is exactly the score test's acceptance region. */
  lemma RawInversion(sqrt: real -> real, p: real, n: real, z: real, q: real)
    requires IsSqrt(sqrt) && n > 0.0 && z >= 0.0 && 0.0 <= p <= 1.0
    ensures Centre(p, n, z) - Half(sqrt, p, n, z) <= q <= Centre(p, n, z) + Half(sqrt, p, n, z)
            <==> ScoreAccepts(p, n, z, q)
  {
    var w, v := z * z, p * (1.0 - p);
    SquareSign(z, w);
    var a, c, half := n + w, Centre(p, n, z), Half(sqrt, p, n, z);
    var h := half * a;
    ScaledCentre(p, n, z, w, c);
    ScaledHalf(sqrt, p, n, z, w, v, h);
    var u := a * q - (n * p + w / 2.0);
    assert u == a * (q - c);
    var uu, hh := u * u, h * h;
    WithinHalf(q, c, half, a, u, h, uu, hh);
    var gap := n * ((q - p) * (q - p)) - w * (q * (1.0 - q));
    CompleteSquare(p, n, w, q, u, hh, gap);
    ScaleOrder(a, gap, 0.0, uu - hh, 0.0);
    GapIsScore(p, n, z, w, q, gap);
  }

  lemma GapIsScore(p: real, n: real, z: real, w: real, q: real, gap: real)
    requires w == z * z && gap == n * ((q - p) * (q - p)) - w * (q * (1.0 - q))
    ensures gap <= 0.0 <==> ScoreAccepts(p, n, z, q)
  {
    var left, right := n * ((q - p) * (q - p)), z * z * (q * (1.0 - q));
    assert right == w * (q * (1.0 - q));
    assert gap == left - right;
  }

  lemma HalfNonNegative(sqrt: real -> real, p: real, n: real, z: real)
    requires IsSqrt(sqrt) && n > 0.0 && z >= 0.0 && 0.0 <= p <= 1.0
    ensures Half(sqrt, p, n, z) >= 0.0
  {
    var w, v, half := z * z, p * (1.0 - p), Half(sqrt, p, n, z);
    SquareSign(z, w);
    var h := half * (n + w);
    ScaledHalf(sqrt, p, n, z, w, v, h);
    ScaleOrder(n + w, 0.0, half, 0.0, h);
  }

  /** No point outside [0, 1] passes the score test. */
  lemma OutsideUnitRejected(p: real, n: real, z: real, q: real)
    requires n > 0.0 && 0.0 <= p <= 1.0 && !(0.0 <= q <= 1.0)
    ensures !ScoreAccepts(p, n, z, q)
  {
    var v, w, s := q * (1.0 - q), z * z, (q - p) * (q - p);
    if q < 0.0 {
      MulPos(-q, 1.0 - q, -v);
    } else {
      MulPos(q, q - 1.0, -v);
    }
    SquareSign(z, w);
    SquareSign(q - p, s);
    var left, right := n * s, w * v;
    MulNonNeg(w, -v, -right);
    MulPos(n, s, left);
    assert n * ((q - p) * (q - p)) == left && z * z * (q * (1.0 - q)) == right;
  }

  lemma AcceptedWithinUnit(sqrt: real -> real, p: real, n: real, z: real, q: real)
    requires IsSqrt(sqrt) && n > 0.0 && z >= 0.0 && 0.0 <= p <= 1.0
    requires Centre(p, n, z) - Half(sqrt, p, n, z) <= q <= Centre(p, n, z) + Half(sqrt, p, n, z)
    ensures 0.0 <= q <= 1.0
  {
    RawInversion(sqrt, p, n, z, q);
    if !(0.0 <= q <= 1.0) {
      OutsideUnitRejected(p, n, z, q);
    }
  }

  /** In exact arithmetic the raw interval already lies in [0, 1], and reaches the end of it
      that the estimate sits on. */
  lemma RawWithinUnit(sqrt: real -> real, p: real, n: real, z: real)
    requires IsSqrt(sqrt) && n > 0.0 && z >= 0.0 && 0.0 <= p <= 1.0
    ensures 0.0 <= Centre(p, n, z) - Half(sqrt, p, n, z)
    ensures Centre(p, n, z) + Half(sqrt, p, n, z) <= 1.0
    ensures p == 0.0 ==> Centre(p, n, z) - Half(sqrt, p, n, z) == 0.0
    ensures p == 1.0 ==> Centre(p, n, z) + Half(sqrt, p, n, z) == 1.0
  {
    HalfNonNegative(sqrt, p, n, z);
    AcceptedWithinUnit(sqrt, p, n, z, Centre(p, n, z) - Half(sqrt, p, n, z));
    AcceptedWithinUnit(sqrt, p, n, z, Centre(p, n, z) + Half(sqrt, p, n, z));
    EstimateAccepted(p, n, z);
    RawInversion(sqrt, p, n, z, p);
  }

  lemma EstimateAccepted(p: real, n: real, z: real)
    requires 0.0 <= p <= 1.0
    ensures ScoreAccepts(p, n, z, p)
  {
    var v, w := p * (1.0 - p), z * z;
    MulNonNeg(p, 1.0 - p, v);
    SquareSign(z, w);
    var right := w * v;
    MulNonNeg(w, v, right);
    assert z * z * (p * (1.0 - p)) == right;
  }

  // ---------------------------------------------------------------------------
  // What the published interval means
  // ---------------------------------------------------------------------------

  /** The clamps and the endpoint patches guard float rounding only: in exact arithmetic they
      change neither bound. */
  lemma ClampsChangeNothing(sqrt: real -> real, p: real, effN: real, z: real)
    requires IsSqrt(sqrt) && effN > 0.0 && z >= 0.0 && 0.0 <= p <= 1.0
    ensures WilsonEff(sqrt, p, effN, z)
            == Interval(Centre(p, effN, z) - Half(sqrt, p, effN, z), Centre(p, effN, z) + Half(sqrt, p, effN, z))
  {
    RawWithinUnit(sqrt, p, effN, z);
  }

  /** A proportion lies in the interval exactly when the score test at it does not reject. */
  lemma IntervalIsScoreTest(sqrt: real -> real, p: real, effN: real, z: real, q: real)
    requires IsSqrt(sqrt) && effN > 0.0 && z >= 0.0 && 0.0 <= p <= 1.0
    ensures WilsonEff(sqrt, p, effN, z).Contains(q) <==> ScoreAccepts(p, effN, z, q)
  {
    ClampsChangeNothing(sqrt, p, effN, z);
    RawInversion(sqrt, p, effN, z, q);
  }

  /** The interval is never empty, stays in [0, 1] and contains the estimate. */
  lemma IntervalContainsEstimate(sqrt: real -> real, p: real, effN: real, z: real)
    requires IsSqrt(sqrt) && z >= 0.0 && 0.0 <= p <= 1.0
    ensures var ci := WilsonEff(sqrt, p, effN, z);
            0.0 <= ci.lo <= p <= ci.hi <= 1.0
  {
    if effN > 0.0 {
      ClampsChangeNothing(sqrt, p, effN, z);
      RawWithinUnit(sqrt, p, effN, z);
      EstimateAccepted(p, effN, z);
      IntervalIsScoreTest(sqrt, p, effN, z, p);
    }
  }

  lemma AcceptanceGrows(p: real, n: real, z: real, n': real, z': real, q: real)
    requires 0.0 < n' <= n && 0.0 <= z <= z' && 0.0 <= q <= 1.0
    requires ScoreAccepts(p, n, z, q)
    ensures ScoreAccepts(p, n', z', q)
  {
    var s, v := (q - p) * (q - p), q * (1.0 - q);
    var w, w' := z * z, z' * z';
    SquareSign(q - p, s);
    MulNonNeg(q, 1.0 - q, v);
    var left, left', right, right' := n * s, n' * s, w * v, w' * v;
    MulMono(s, n', n, left', left);
    MulMono(z, z, z', w, z * z');
    MulMono(z', z, z', z * z', w');
    MulMono(v, w, w', right, right');
    assert n * ((q - p) * (q - p)) == left && z * z * (q * (1.0 - q)) == right;
    assert n' * ((q - p) * (q - p)) == left' && z' * z' * (q * (1.0 - q)) == right';
  }

  /** Lowering the effective sample or raising z only widens the interval. */
  lemma WideningIsMonotone(sqrt: real -> real, p: real, n: real, z: real, n': real, z': real)
    requires IsSqrt(sqrt) && n' <= n && 0.0 <= z <= z' && 0.0 <= p <= 1.0
    ensures WilsonEff(sqrt, p, n', z').Encloses(WilsonEff(sqrt, p, n, z))
  {
    var ci := WilsonEff(sqrt, p, n, z);
    IntervalContainsEstimate(sqrt, p, n, z);
    if n' > 0.0 {
      IntervalIsScoreTest(sqrt, p, n, z, ci.lo);
      IntervalIsScoreTest(sqrt, p, n, z, ci.hi);
      AcceptanceGrows(p, n, z, n', z', ci.lo);
      AcceptanceGrows(p, n, z, n', z', ci.hi);
      IntervalIsScoreTest(sqrt, p, n', z', ci.lo);
      IntervalIsScoreTest(sqrt, p, n', z', ci.hi);
    }
  }

  /** Which side of a threshold the whole interval falls on, without naming the interval. */
  lemma SideOfThreshold(sqrt: real -> real, p: real, n: real, z: real, t: real)
    requires IsSqrt(sqrt) && n > 0.0 && z >= 0.0 && 0.0 <= p <= 1.0
    ensures var ci := WilsonEff(sqrt, p, n, z);
            && (ci.lo > t <==> p > t && !ScoreAccepts(p, n, z, t))
            && (ci.hi < t <==> p < t && !ScoreAccepts(p, n, z, t))
  {
    IntervalContainsEstimate(sqrt, p, n, z);
    IntervalIsScoreTest(sqrt, p, n, z, t);
  }
}
