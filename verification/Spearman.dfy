/** Rank correlation, in its two versions (research/xsvalue.py, spearman_rankcorr;
    tools/pairs_trading.py, spearman). */
module Spearman {
  import opened Options
  import opened RealAlgebra
  import opened RealSeq
  import opened Ranks
  import opened RankLaws
  import opened Wilson

  // ---------------------------------------------------------------------------
  // Inner products
  // ---------------------------------------------------------------------------

  function Product(x: real, y: real): real {
    x * y
  }

  function Dot(xs: seq<real>, ys: seq<real>): real
    requires |xs| == |ys|
  {
    if xs == [] then 0.0 else Dot(xs[..|xs| - 1], ys[..|ys| - 1]) + xs[|xs| - 1] * ys[|ys| - 1]
  }

  function Square(x: real): real {
    x * x
  }

  function Mix(p: real, q: real, x: real, y: real): real {
    p * x - q * y
  }

  /** zs is p*xs - q*ys, entry by entry. */
  ghost predicate IsMix(zs: seq<real>, xs: seq<real>, ys: seq<real>, p: real, q: real) {
    |zs| == |xs| == |ys| && forall i :: 0 <= i < |xs| ==> zs[i] == Mix(p, q, xs[i], ys[i])
  }

  lemma MixStep(p: real, q: real, a: real, b: real, x: real, y: real, w: real)
    ensures Mix(p, q, a, b) + Mix(p, q, x, y) * w == Mix(p, q, a + x * w, b + y * w)
  {
    assert (p * x - q * y) * w == p * (x * w) - q * (y * w);
  }

  lemma {:induction false} DotOfMix(zs: seq<real>, xs: seq<real>, ys: seq<real>, ws: seq<real>, p: real, q: real)
    requires IsMix(zs, xs, ys, p, q) && |ws| == |xs|
    ensures Dot(zs, ws) == Mix(p, q, Dot(xs, ws), Dot(ys, ws))
    decreases |xs|
  {
    if xs == [] {
      assert Mix(p, q, 0.0, 0.0) == 0.0;
    } else {
      var k := |xs| - 1;
      DotOfMix(zs[..k], xs[..k], ys[..k], ws[..k], p, q);
      MixStep(p, q, Dot(xs[..k], ws[..k]), Dot(ys[..k], ws[..k]), xs[k], ys[k], ws[k]);
    }
  }

  lemma {:induction false} DotCommutes(xs: seq<real>, ys: seq<real>)
    requires |xs| == |ys|
    ensures Dot(xs, ys) == Dot(ys, xs)
    decreases |xs|
  {
    if xs != [] {
      DotCommutes(xs[..|xs| - 1], ys[..|ys| - 1]);
    }
  }

  lemma {:induction false} DotSquares(xs: seq<real>)
    ensures Dot(xs, xs) >= 0.0
    ensures Dot(xs, xs) == 0.0 ==> forall i :: 0 <= i < |xs| ==> xs[i] == 0.0
    decreases |xs|
  {
    if xs != [] {
      var k := |xs| - 1;
      DotSquares(xs[..k]);
      SquareSign(xs[k], xs[k] * xs[k]);
    }
  }

  lemma {:induction false} DotWithZero(xs: seq<real>, ys: seq<real>)
    requires |xs| == |ys| && forall i :: 0 <= i < |ys| ==> ys[i] == 0.0
    ensures Dot(xs, ys) == 0.0 && Dot(ys, ys) == 0.0
    decreases |xs|
  {
    if xs != [] {
      DotWithZero(xs[..|xs| - 1], ys[..|ys| - 1]);
    }
  }

  /** With a, b the squared lengths of the series and c their inner product, the mix
      b*xs - c*ys has squared length b (ab - c^2). */
  lemma MixedLength(zs: seq<real>, xs: seq<real>, ys: seq<real>, a: real, b: real, c: real, gap: real)
    requires IsMix(zs, xs, ys, b, c) && a == Dot(xs, xs) && b == Dot(ys, ys) && c == Dot(xs, ys)
    requires gap == a * b - c * c
    ensures Dot(zs, zs) == b * gap
  {
    DotOfMix(zs, xs, ys, xs, b, c);
    DotOfMix(zs, xs, ys, ys, b, c);
    DotOfMix(zs, xs, ys, zs, b, c);
    DotCommutes(xs, ys);
    DotCommutes(xs, zs);
    DotCommutes(ys, zs);
    LengthOfMix(a, b, c, Dot(zs, xs), Dot(zs, ys), Dot(zs, zs), gap);
  }

  lemma LengthOfMix(a: real, b: real, c: real, zx: real, zy: real, zz: real, gap: real)
    requires gap == a * b - c * c && zx == Mix(b, c, a, c) && zy == Mix(b, c, c, b) && zz == Mix(b, c, zx, zy)
    ensures zz == b * gap
  {
    assert zx == gap && zy == 0.0;
    assert c * 0.0 == 0.0;
  }

  function Mixed(xs: seq<real>, ys: seq<real>, p: real, q: real): (zs: seq<real>)
    requires |xs| == |ys|
    ensures IsMix(zs, xs, ys, p, q)
  {
    seq(|xs|, i requires 0 <= i < |xs| => Mix(p, q, xs[i], ys[i]))
  }

  lemma GapNonNegative(xs: seq<real>, ys: seq<real>, a: real, b: real, c: real, gap: real)
    requires |xs| == |ys| && a == Dot(xs, xs) && b == Dot(ys, ys) && c == Dot(xs, ys)
    requires gap == a * b - c * c && b > 0.0
    ensures gap >= 0.0
  {
    var zs := Mixed(xs, ys, b, c);
    MixedLength(zs, xs, ys, a, b, c, gap);
    DotSquares(zs);
    ScaleOrder(b, 0.0, gap, 0.0, Dot(zs, zs));
  }

  lemma ZeroGap(a: real, b: real, c: real)
    requires b == 0.0 && c == 0.0
    ensures c * c <= a * b
  {
  }

  lemma SquareAgainstProduct(xs: seq<real>, ys: seq<real>, a: real, b: real, c: real)
    requires |xs| == |ys| && a == Dot(xs, xs) && b == Dot(ys, ys) && c == Dot(xs, ys)
    ensures Square(c) <= Product(a, b)
  {
    DotSquares(ys);
    if b == 0.0 {
      DotWithZero(xs, ys);
      ZeroGap(a, b, c);
    } else {
      GapNonNegative(xs, ys, a, b, c, a * b - c * c);
    }
  }

  /** Main result: the Cauchy-Schwarz inequality, over series of any length. */
  lemma CauchySchwarz(xs: seq<real>, ys: seq<real>)
    requires |xs| == |ys|
    ensures Square(Dot(xs, ys)) <= Product(Dot(xs, xs), Dot(ys, ys))
  {
    SquareAgainstProduct(xs, ys, Dot(xs, xs), Dot(ys, ys), Dot(xs, ys));
  }

  /** Equality means that the two series are proportional. */
  lemma CauchySchwarzEquality(xs: seq<real>, ys: seq<real>, a: real, b: real, c: real)
    requires |xs| == |ys| && a == Dot(xs, xs) && b == Dot(ys, ys) && c == Dot(xs, ys) && c * c == a * b
    ensures forall i :: 0 <= i < |xs| ==> Mix(b, c, xs[i], ys[i]) == 0.0
  {
    var zs := Mixed(xs, ys, b, c);
    MixedLength(zs, xs, ys, a, b, c, 0.0);
    assert b * 0.0 == 0.0;
    DotSquares(zs);
    forall i | 0 <= i < |xs| ensures Mix(b, c, xs[i], ys[i]) == 0.0 {
      assert zs[i] == 0.0;
    }
  }

  // ---------------------------------------------------------------------------
  // The two correlations
  // ---------------------------------------------------------------------------

  function Mean(r: seq<real>): real
    requires r != []
  {
    Sum(r) / |r| as real
  }

  /** The series with its mean taken away. */
  function Centred(r: seq<real>): seq<real>
    requires r != []
  {
    seq(|r|, i requires 0 <= i < |r| => r[i] - Mean(r))
  }

  /** A quotient, or nothing when the denominator is zero. */
  function Guarded(c: real, denom: real): Option<real> {
    if denom == 0.0 then None else Some(Quotient(c, denom))
  }

  /** The other guard: only a positive denominator counts. */
  function GuardedPositive(c: real, d: real): Option<real> {
    if d > 0.0 then Some(Quotient(c, d)) else None
  }

  /** The correlation of two centred series, from their inner products. */
  function Rho(sqrt: real -> real, x: real, y: real, c: real): Option<real> {
    Guarded(c, sqrt(Product(x, y)))
  }

  function RhoIfPositive(sqrt: real -> real, x: real, y: real, c: real): Option<real> {
    GuardedPositive(c, sqrt(Product(x, y)))
  }

  function Correlation(sqrt: real -> real, xs: seq<real>, ys: seq<real>): Option<real>
    requires |xs| == |ys|
  {
    Rho(sqrt, Dot(xs, xs), Dot(ys, ys), Dot(xs, ys))
  }

  function CorrelationIfPositive(sqrt: real -> real, xs: seq<real>, ys: seq<real>): Option<real>
    requires |xs| == |ys|
  {
    RhoIfPositive(sqrt, Dot(xs, xs), Dot(ys, ys), Dot(xs, ys))
  }

  /** research/xsvalue.py: scaled ranks, undefined when the denominator is zero. */
  function SpearmanRankcorr(sqrt: real -> real, a: seq<real>, b: seq<real>): Option<real>
    requires |a| == |b|
  {
    if |a| < 2 then None else Correlation(sqrt, Centred(CrossRanks(a)), Centred(CrossRanks(b)))
  }

  /** tools/pairs_trading.py: plain ranks, at least three points. */
  function SpearmanOfPairs(sqrt: real -> real, a: seq<real>, b: seq<real>): Option<real>
    requires |a| == |b|
  {
    if |a| < 3 then None else CorrelationIfPositive(sqrt, Centred(MidRanks(a)), Centred(MidRanks(b)))
  }

  // ---------------------------------------------------------------------------
  // The scalar part
  // ---------------------------------------------------------------------------

  lemma RootOfProduct(sqrt: real -> real, x: real, y: real)
    requires IsSqrt(sqrt) && x >= 0.0 && y >= 0.0
    ensures sqrt(Product(x, y)) >= 0.0 && sqrt(Product(x, y)) * sqrt(Product(x, y)) == x * y
    ensures sqrt(Product(x, y)) == 0.0 <==> x == 0.0 || y == 0.0
  {
    var xy := Product(x, y);
    MulNonNeg(x, y, xy);
    var d := sqrt(xy);
    SquareSign(d, d * d);
    if x > 0.0 && y > 0.0 {
      MulPos(x, y, xy);
    }
  }

  lemma RatioInRange(p: real, d: real, bound: real)
    requires d > 0.0 && d * d == bound && p * p <= bound
    ensures -1.0 <= Quotient(p, d) <= 1.0
  {
    AbsAgainstSquare(p, d, p * p, bound);
    DivOrder(p, d, Quotient(p, d), 1.0, d);
    DivOrder(p, d, Quotient(p, d), -1.0, -d);
  }

  ghost predicate WithinOne(rho: Option<real>) {
    rho.Some? ==> -1.0 <= rho.value <= 1.0
  }

  lemma RhoInRange(sqrt: real -> real, x: real, y: real, c: real)
    requires IsSqrt(sqrt) && x >= 0.0 && y >= 0.0 && c * c <= x * y
    ensures WithinOne(Rho(sqrt, x, y, c))
    ensures RhoIfPositive(sqrt, x, y, c) == Rho(sqrt, x, y, c)
    ensures Rho(sqrt, x, y, c).Some? <==> x > 0.0 && y > 0.0
  {
    RootOfProduct(sqrt, x, y);
    var d := sqrt(Product(x, y));
    if d != 0.0 {
      RatioInRange(c, d, x * y);
    }
  }

  lemma RatioIsOne(p: real, d: real)
    requires d > 0.0
    ensures Quotient(p, d) == 1.0 <==> p == d
  {
    DivOrder(p, d, Quotient(p, d), 1.0, d);
  }

  lemma RhoIsOne(sqrt: real -> real, x: real, y: real, c: real)
    requires IsSqrt(sqrt) && x > 0.0 && y > 0.0
    ensures Rho(sqrt, x, y, c) == Some(1.0) ==> c > 0.0 && c * c == x * y
    ensures x == y == c ==> Rho(sqrt, x, y, c) == Some(1.0)
  {
    RootOfProduct(sqrt, x, y);
    var d := sqrt(Product(x, y));
    RatioIsOne(c, d);
    if x == y == c {
      RootUnique(d, c, c * c);
    }
  }

  lemma NegatedQuotient(s: real, n: real, negated: real)
    requires n > 0.0 && negated == -s
    ensures negated / n == -(s / n)
  {
    var q := s / n;
    DivMul(s, n, q);
    DivOrder(negated, n, negated / n, -q, negated);
  }

  ghost predicate Opposite(rho: Option<real>, flipped: Option<real>) {
    (rho.Some? <==> flipped.Some?) && (rho.Some? ==> flipped.value == -rho.value)
  }

  lemma RhoFlips(sqrt: real -> real, x: real, y: real, c: real, negated: real)
    requires IsSqrt(sqrt) && x >= 0.0 && y >= 0.0 && negated == -c
    ensures Opposite(Rho(sqrt, x, y, c), Rho(sqrt, x, y, negated))
  {
    RootOfProduct(sqrt, x, y);
    if sqrt(Product(x, y)) != 0.0 {
      NegatedQuotient(c, sqrt(Product(x, y)), negated);
    }
  }

  lemma ScaledRoot(sqrt: real -> real, x: real, y: real, k: real, kx: real, ky: real)
    requires IsSqrt(sqrt) && x >= 0.0 && y >= 0.0 && k > 0.0 && kx == k * x && ky == k * y
    ensures sqrt(Product(kx, ky)) == k * sqrt(Product(x, y))
  {
    RootOfProduct(sqrt, x, y);
    MulNonNeg(k, x, kx);
    MulNonNeg(k, y, ky);
    RootOfProduct(sqrt, kx, ky);
    var d, kd := sqrt(Product(x, y)), k * sqrt(Product(x, y));
    MulNonNeg(k, d, kd);
    assert kd * kd == k * k * (d * d);
    assert kx * ky == k * k * (x * y);
    RootUnique(sqrt(Product(kx, ky)), kd, kx * ky);
  }

  /** Scaling both series by one factor scales numerator and denominator by its square. */
  lemma SameQuotient(c: real, d: real, k: real, kc: real, kd: real)
    requires k > 0.0 && d >= 0.0 && kc == k * c && kd == k * d
    ensures Guarded(kc, kd) == GuardedPositive(c, d)
  {
    if d > 0.0 {
      MulPos(k, d, kd);
      ScaledQuotient(c, d, k, kc, kd);
    } else {
      assert k * 0.0 == 0.0;
    }
  }

  // ---------------------------------------------------------------------------
  // Range
  // ---------------------------------------------------------------------------

  lemma InnerProductsInRange(sqrt: real -> real, xs: seq<real>, ys: seq<real>, a: real, b: real, c: real)
    requires IsSqrt(sqrt) && |xs| == |ys| && a == Dot(xs, xs) && b == Dot(ys, ys) && c == Dot(xs, ys)
    ensures WithinOne(Rho(sqrt, a, b, c)) && RhoIfPositive(sqrt, a, b, c) == Rho(sqrt, a, b, c)
    ensures Rho(sqrt, a, b, c).Some? <==> a > 0.0 && b > 0.0
  {
    DotSquares(xs);
    DotSquares(ys);
    SquareAgainstProduct(xs, ys, a, b, c);
    RhoInRange(sqrt, a, b, c);
  }

  lemma SeriesInRange(sqrt: real -> real, xs: seq<real>, ys: seq<real>)
    requires IsSqrt(sqrt) && |xs| == |ys|
    ensures WithinOne(Correlation(sqrt, xs, ys))
    ensures CorrelationIfPositive(sqrt, xs, ys) == Correlation(sqrt, xs, ys)
    ensures Correlation(sqrt, xs, ys).Some? <==> Dot(xs, xs) > 0.0 && Dot(ys, ys) > 0.0
  {
    InnerProductsInRange(sqrt, xs, ys, Dot(xs, xs), Dot(ys, ys), Dot(xs, ys));
  }

  /** Main result: a rank correlation is a correlation. */
  lemma CorrelationInRange(sqrt: real -> real, a: seq<real>, b: seq<real>)
    requires IsSqrt(sqrt) && |a| == |b|
    ensures WithinOne(SpearmanRankcorr(sqrt, a, b)) && WithinOne(SpearmanOfPairs(sqrt, a, b))
  {
    if |a| >= 2 {
      SeriesInRange(sqrt, Centred(CrossRanks(a)), Centred(CrossRanks(b)));
      SeriesInRange(sqrt, Centred(MidRanks(a)), Centred(MidRanks(b)));
    }
  }

  // ---------------------------------------------------------------------------
  // When it is defined
  // ---------------------------------------------------------------------------

  ghost predicate AllEqual(a: seq<real>) {
    forall i, j :: 0 <= i < |a| && 0 <= j < |a| ==> a[i] == a[j]
  }

  lemma SameOrderSameConstancy(xs: seq<real>, ys: seq<real>)
    requires SameOrder(xs, ys)
    ensures AllEqual(xs) <==> AllEqual(ys)
  {
    forall i, j | 0 <= i < |xs| && 0 <= j < |xs| ensures xs[i] == xs[j] <==> ys[i] == ys[j] {
      assert (xs[i] < xs[j] <==> ys[i] < ys[j]) && (xs[j] < xs[i] <==> ys[j] < ys[i]);
    }
  }

  lemma CentredOrder(r: seq<real>)
    requires r != []
    ensures SameOrder(r, Centred(r))
  {
  }

  lemma CrossRanksOrder(a: seq<real>)
    requires |a| >= 2
    ensures SameOrder(a, CrossRanks(a))
  {
    RanksOrderTheValues(a);
    var n := (|a| - 1) as real;
    forall i, j | 0 <= i < |a| && 0 <= j < |a|
      ensures MidRanks(a)[i] < MidRanks(a)[j] <==> CrossRanks(a)[i] < CrossRanks(a)[j]
    {
      DivKeepsOrder(MidRanks(a)[i], MidRanks(a)[j], n);
    }
    SameOrderTrans(a, MidRanks(a), CrossRanks(a));
  }

  lemma DivKeepsOrder(x: real, y: real, n: real)
    requires n > 0.0
    ensures x < y <==> x / n < y / n
  {
    var q := y / n;
    DivMul(y, n, q);
    DivOrder(x, n, x / n, q, y);
  }

  lemma CentredRanksOrder(a: seq<real>)
    requires |a| >= 2
    ensures SameOrder(a, Centred(CrossRanks(a))) && SameOrder(Centred(CrossRanks(a)), a)
  {
    CrossRanksOrder(a);
    CentredOrder(CrossRanks(a));
    SameOrderTrans(a, CrossRanks(a), Centred(CrossRanks(a)));
  }

  lemma CentredConstant(r: seq<real>)
    requires r != [] && AllEqual(r)
    ensures forall i :: 0 <= i < |r| ==> Centred(r)[i] == 0.0
  {
    SumConstant(r, r[0]);
    var n := |r| as real;
    DivOrder(Sum(r), n, Mean(r), r[0], n * r[0]);
  }

  /** A series of ranks has no spread exactly when the values have none. */
  lemma NoSpread(a: seq<real>)
    requires |a| >= 2
    ensures Dot(Centred(CrossRanks(a)), Centred(CrossRanks(a))) == 0.0 <==> AllEqual(a)
  {
    var ra := Centred(CrossRanks(a));
    CentredRanksOrder(a);
    CrossRanksOrder(a);
    DotSquares(ra);
    SameOrderSameConstancy(a, ra);
    SameOrderSameConstancy(a, CrossRanks(a));
    if AllEqual(a) {
      CentredConstant(CrossRanks(a));
      DotWithZero(ra, ra);
    }
  }

  /** Main result: the correlation is defined exactly for two or more points with some spread
      in both series. */
  lemma DefinedExactlyWhen(sqrt: real -> real, a: seq<real>, b: seq<real>)
    requires IsSqrt(sqrt) && |a| == |b|
    ensures SpearmanRankcorr(sqrt, a, b).Some? <==> |a| >= 2 && !AllEqual(a) && !AllEqual(b)
  {
    if |a| >= 2 {
      var ra, rb := Centred(CrossRanks(a)), Centred(CrossRanks(b));
      NoSpread(a);
      NoSpread(b);
      DotSquares(ra);
      DotSquares(rb);
      SeriesInRange(sqrt, ra, rb);
    }
  }

  // ---------------------------------------------------------------------------
  // Only the order counts
  // ---------------------------------------------------------------------------

  /** Main result: no change of either series that keeps its order moves the correlation. */
  lemma CorrelationSeesOrderOnly(sqrt: real -> real, a: seq<real>, b: seq<real>, a': seq<real>, b': seq<real>)
    requires |a| == |b| && SameOrder(a, a') && SameOrder(b, b')
    ensures SpearmanRankcorr(sqrt, a, b) == SpearmanRankcorr(sqrt, a', b')
    ensures SpearmanOfPairs(sqrt, a, b) == SpearmanOfPairs(sqrt, a', b')
  {
    SameOrderSameRanks(a, a');
    SameOrderSameRanks(b, b');
  }

  lemma MixOrder(p: real, q: real, x: real, y: real, x': real, y': real)
    requires p > 0.0 && q > 0.0 && Mix(p, q, x, y) == 0.0 && Mix(p, q, x', y') == 0.0
    ensures x < x' <==> y < y'
  {
    ScaleOrder(p, x, x', p * x, p * x');
    ScaleOrder(q, y, y', q * y, q * y');
  }

  lemma ProportionalOrder(xs: seq<real>, ys: seq<real>, p: real, q: real)
    requires |xs| == |ys| && p > 0.0 && q > 0.0
    requires forall i :: 0 <= i < |xs| ==> Mix(p, q, xs[i], ys[i]) == 0.0
    ensures SameOrder(xs, ys)
  {
    forall i, j | 0 <= i < |xs| && 0 <= j < |xs| ensures xs[i] < xs[j] <==> ys[i] < ys[j] {
      assert Mix(p, q, xs[i], ys[i]) == 0.0 && Mix(p, q, xs[j], ys[j]) == 0.0;
      MixOrder(p, q, xs[i], ys[i], xs[j], ys[j]);
    }
  }

  lemma PerfectSeries(sqrt: real -> real, xs: seq<real>, ys: seq<real>)
    requires IsSqrt(sqrt) && |xs| == |ys| && Dot(xs, xs) > 0.0 && Dot(ys, ys) > 0.0
    requires Correlation(sqrt, xs, ys) == Some(1.0)
    ensures SameOrder(xs, ys)
  {
    RhoIsOne(sqrt, Dot(xs, xs), Dot(ys, ys), Dot(xs, ys));
    CauchySchwarzEquality(xs, ys, Dot(xs, xs), Dot(ys, ys), Dot(xs, ys));
    ProportionalOrder(xs, ys, Dot(ys, ys), Dot(xs, ys));
  }

  lemma SelfCorrelation(sqrt: real -> real, xs: seq<real>)
    requires IsSqrt(sqrt) && Dot(xs, xs) > 0.0
    ensures Correlation(sqrt, xs, xs) == Some(1.0)
  {
    RhoIsOne(sqrt, Dot(xs, xs), Dot(xs, xs), Dot(xs, xs));
  }

  lemma SpreadIsPositive(a: seq<real>)
    requires |a| >= 2 && !AllEqual(a)
    ensures Dot(Centred(CrossRanks(a)), Centred(CrossRanks(a))) > 0.0
  {
    NoSpread(a);
    DotSquares(Centred(CrossRanks(a)));
  }

  /** Main result: the correlation is one exactly when both series put the points in the same
      order. */
  lemma PerfectExactlyWhen(sqrt: real -> real, a: seq<real>, b: seq<real>)
    requires IsSqrt(sqrt) && |a| == |b| >= 2 && !AllEqual(a) && !AllEqual(b)
    ensures SpearmanRankcorr(sqrt, a, b) == Some(1.0) <==> SameOrder(a, b)
  {
    var ra, rb := Centred(CrossRanks(a)), Centred(CrossRanks(b));
    SpreadIsPositive(a);
    SpreadIsPositive(b);
    if SameOrder(a, b) {
      SameOrderSameRanks(a, b);
      SelfCorrelation(sqrt, ra);
    } else if Correlation(sqrt, ra, rb) == Some(1.0) {
      PerfectSeries(sqrt, ra, rb);
      CentredRanksOrder(a);
      CentredRanksOrder(b);
      SameOrderTrans(a, ra, rb);
      SameOrderTrans(a, rb, b);
    }
  }

  // ---------------------------------------------------------------------------
  // Negation and symmetry
  // ---------------------------------------------------------------------------

  lemma {:induction false} DotNegated(xs: seq<real>, ys: seq<real>)
    requires |xs| == |ys|
    ensures Dot(xs, Negated(ys)) == -Dot(xs, ys)
    ensures Dot(Negated(ys), Negated(ys)) == Dot(ys, ys)
    decreases |xs|
  {
    if xs != [] {
      var k := |xs| - 1;
      DotNegated(xs[..k], ys[..k]);
      assert Negated(ys)[..k] == Negated(ys[..k]);
      assert xs[k] * -ys[k] == -(xs[k] * ys[k]) && -ys[k] * -ys[k] == ys[k] * ys[k];
    }
  }

  lemma CentredNegated(r: seq<real>)
    requires r != []
    ensures Centred(Negated(r)) == Negated(Centred(r))
  {
    SumScaled(r, Negated(r), -1.0);
    NegatedQuotient(Sum(r), |r| as real, Sum(Negated(r)));
    assert Mean(Negated(r)) == -Mean(r);
  }

  lemma SeriesFlip(sqrt: real -> real, xs: seq<real>, ys: seq<real>)
    requires IsSqrt(sqrt) && |xs| == |ys|
    ensures Opposite(Correlation(sqrt, xs, ys), Correlation(sqrt, xs, Negated(ys)))
  {
    DotNegated(xs, ys);
    DotSquares(xs);
    DotSquares(ys);
    RhoFlips(sqrt, Dot(xs, xs), Dot(ys, ys), Dot(xs, ys), Dot(xs, Negated(ys)));
  }

  /** Main result: reversing one of the series flips the sign of the correlation. */
  lemma ReversalFlips(sqrt: real -> real, a: seq<real>, b: seq<real>)
    requires IsSqrt(sqrt) && |a| == |b|
    ensures Opposite(SpearmanRankcorr(sqrt, a, b), SpearmanRankcorr(sqrt, a, Negated(b)))
  {
    if |a| >= 2 {
      NegationFlips(b);
      CentredNegated(CrossRanks(b));
      SeriesFlip(sqrt, Centred(CrossRanks(a)), Centred(CrossRanks(b)));
    }
  }

  // ---------------------------------------------------------------------------
  // The two versions agree
  // ---------------------------------------------------------------------------

  /** c is p times a, entry by entry. */
  ghost predicate IsScaled(a: seq<real>, c: seq<real>, p: real) {
    |a| == |c| && forall i :: 0 <= i < |a| ==> c[i] == Product(p, a[i])
  }

  lemma {:induction false} DotScaled(a: seq<real>, c: seq<real>, b: seq<real>, e: seq<real>, p: real)
    requires |a| == |b| && IsScaled(a, c, p) && IsScaled(b, e, p)
    ensures Dot(c, e) == Square(p) * Dot(a, b)
    decreases |a|
  {
    if a == [] {
      assert Square(p) * 0.0 == 0.0;
    } else {
      var k := |a| - 1;
      DotScaled(a[..k], c[..k], b[..k], e[..k], p);
      ScaledTerm(p, Dot(a[..k], b[..k]), a[k], b[k], c[k], e[k]);
    }
  }

  lemma ScaledTerm(p: real, total: real, x: real, y: real, px: real, py: real)
    requires px == Product(p, x) && py == Product(p, y)
    ensures Square(p) * total + px * py == Square(p) * (total + x * y)
  {
    assert px * py == Square(p) * (x * y);
  }

  lemma AffineMean(s: real, n: real, p: real, c: real)
    requires n > 0.0 && c == p * s - 0.5 * n
    ensures c / n == p * (s / n) - 0.5
  {
    var q := s / n;
    DivMul(s, n, q);
    assert (p * q - 0.5) * n == p * (q * n) - 0.5 * n;
    DivOrder(c, n, c / n, p * q - 0.5, c);
  }

  lemma CentredScales(a: seq<real>, p: real)
    requires |a| >= 2 && p == 1.0 / (|a| - 1) as real
    ensures IsScaled(Centred(MidRanks(a)), Centred(CrossRanks(a)), p)
  {
    CrossRanksAreAffine(a);
    AffineTotal(MidRanks(a), CrossRanks(a), p);
    AffineMean(Sum(MidRanks(a)), |a| as real, p, Sum(CrossRanks(a)));
    CentredAffine(MidRanks(a), CrossRanks(a), p, Mean(MidRanks(a)), Mean(CrossRanks(a)));
  }

  lemma CentredAffine(m: seq<real>, c: seq<real>, p: real, mean: real, mean': real)
    requires m != [] && IsAffine(m, c, p) && mean == Mean(m) && mean' == Mean(c) && mean' == p * mean - 0.5
    ensures IsScaled(Centred(m), Centred(c), p)
  {
    forall i | 0 <= i < |m| ensures Centred(c)[i] == Product(p, Centred(m)[i]) {
      assert c[i] == Affine(p, m[i]);
      assert p * (m[i] - mean) == p * m[i] - p * mean;
    }
  }

  lemma ScaledSeries(sqrt: real -> real, xs: seq<real>, xs': seq<real>, ys: seq<real>, ys': seq<real>, p: real)
    requires IsSqrt(sqrt) && |xs| == |ys| && p > 0.0 && IsScaled(xs, xs', p) && IsScaled(ys, ys', p)
    ensures Correlation(sqrt, xs', ys') == CorrelationIfPositive(sqrt, xs, ys)
  {
    MulPos(p, p, Square(p));
    DotScaled(xs, xs', xs, xs', p);
    DotScaled(ys, ys', ys, ys', p);
    DotScaled(xs, xs', ys, ys', p);
    DotSquares(xs);
    DotSquares(ys);
    var d, kd := sqrt(Product(Dot(xs, xs), Dot(ys, ys))), sqrt(Product(Dot(xs', xs'), Dot(ys', ys')));
    RootOfProduct(sqrt, Dot(xs, xs), Dot(ys, ys));
    ScaledRoot(sqrt, Dot(xs, xs), Dot(ys, ys), Square(p), Dot(xs', xs'), Dot(ys', ys'));
    SameQuotient(Dot(xs, ys), d, Square(p), Dot(xs', ys'), kd);
  }

  /** Main result: on three or more points the scaled-rank version and the plain-rank version
      give the same correlation. */
  lemma VersionsAgree(sqrt: real -> real, a: seq<real>, b: seq<real>)
    requires IsSqrt(sqrt) && |a| == |b| >= 3
    ensures SpearmanRankcorr(sqrt, a, b) == SpearmanOfPairs(sqrt, a, b)
  {
    var p := 1.0 / (|a| - 1) as real;
    DivPos(1.0, (|a| - 1) as real, p);
    CentredScales(a, p);
    CentredScales(b, p);
    ScaledSeries(sqrt, Centred(MidRanks(a)), Centred(CrossRanks(a)), Centred(MidRanks(b)), Centred(CrossRanks(b)), p);
  }

  // ---------------------------------------------------------------------------
  // The correlation is linear in the squared rank distance
  // ---------------------------------------------------------------------------

  /** The squared differences of two series, added up. */
  function Distance(xs: seq<real>, ys: seq<real>): real
    requires |xs| == |ys|
  {
    if xs == [] then 0.0
    else Distance(xs[..|xs| - 1], ys[..|ys| - 1]) + Square(xs[|xs| - 1] - ys[|ys| - 1])
  }

  lemma SquaredGap(x: real, y: real)
    ensures Square(x - y) == Product(x, x) + Product(y, y) - 2.0 * Product(x, y)
  {
  }

  lemma {:induction false} DistanceExpands(xs: seq<real>, ys: seq<real>)
    requires |xs| == |ys|
    ensures Distance(xs, ys) == Dot(xs, xs) + Dot(ys, ys) - 2.0 * Dot(xs, ys)
    decreases |xs|
  {
    if xs != [] {
      DistanceExpands(xs[..|xs| - 1], ys[..|ys| - 1]);
      SquaredGap(xs[|xs| - 1], ys[|ys| - 1]);
    }
  }

  /** Centring series with sum zero changes nothing. */
  lemma CentredRanks(a: seq<real>)
    requires a != []
    ensures Centred(CrossRanks(a)) == CrossRanks(a)
  {
    CrossRanksSumToZero(a);
    DivOrder(0.0, |a| as real, Mean(CrossRanks(a)), 0.0, 0.0);
  }

  lemma EqualSpread(sqrt: real -> real, x: real, c: real)
    requires IsSqrt(sqrt) && x > 0.0
    ensures Rho(sqrt, x, x, c) == Some(Quotient(c, x))
  {
    var d := sqrt(Product(x, x));
    RootOfProduct(sqrt, x, x);
    RootUnique(d, x, x * x);
  }

  /** rho is one less half the distance per unit of the spread. */
  ghost predicate IsNearness(rho: real, spread: real, distance: real) {
    spread > 0.0 && 2.0 * (spread * (1.0 - rho)) == distance
  }

  lemma OneMinus(c: real, x: real, rho: real, distance: real)
    requires x > 0.0 && rho == Quotient(c, x) && distance == x + x - 2.0 * c
    ensures IsNearness(rho, x, distance)
  {
    DivMul(c, x, rho);
    assert x * (1.0 - rho) == x - rho * x;
  }

  /** Main result: for series whose ranks spread alike the correlation is one less half the squared
      distance between the ranks per unit of that spread. */
  lemma CorrelationIsDistance(sqrt: real -> real, a: seq<real>, b: seq<real>)
    requires IsSqrt(sqrt) && |a| == |b| >= 2 && !AllEqual(a)
    requires Dot(CrossRanks(a), CrossRanks(a)) == Dot(CrossRanks(b), CrossRanks(b))
    ensures SpearmanRankcorr(sqrt, a, b).Some?
    ensures IsNearness(SpearmanRankcorr(sqrt, a, b).value, Dot(CrossRanks(a), CrossRanks(a)),
                       Distance(CrossRanks(a), CrossRanks(b)))
  {
    var ra, rb := CrossRanks(a), CrossRanks(b);
    CentredRanks(a);
    CentredRanks(b);
    SpreadIsPositive(a);
    DistanceExpands(ra, rb);
    EqualSpread(sqrt, Dot(ra, ra), Dot(ra, rb));
    OneMinus(Dot(ra, rb), Dot(ra, ra), Quotient(Dot(ra, rb), Dot(ra, ra)), Distance(ra, rb));
  }

  /** rho has the sign of c, and its square is that of c over x y. */
  ghost predicate IsRatio(rho: real, x: real, y: real, c: real) {
    (rho * rho) * Product(x, y) == c * c && (rho > 0.0 <==> c > 0.0) && (rho < 0.0 <==> c < 0.0)
  }

  lemma SquaredRatio(c: real, d: real, rho: real, dd: real)
    requires d > 0.0 && d * d == dd && rho == Quotient(c, d)
    ensures (rho * rho) * dd == c * c
    ensures (rho > 0.0 <==> c > 0.0) && (rho < 0.0 <==> c < 0.0)
  {
    DivMul(c, d, rho);
    assert (rho * rho) * (d * d) == (rho * d) * (rho * d);
    DivOrder(c, d, rho, 0.0, 0.0);
  }

  lemma RhoIsRatio(sqrt: real -> real, x: real, y: real, c: real)
    requires IsSqrt(sqrt) && x > 0.0 && y > 0.0
    ensures Rho(sqrt, x, y, c).Some? && IsRatio(Rho(sqrt, x, y, c).value, x, y, c)
  {
    RootOfProduct(sqrt, x, y);
    SquaredRatio(c, sqrt(Product(x, y)), Quotient(c, sqrt(Product(x, y))), Product(x, y));
  }

  /** Main result: in general the correlation has the sign of the ranks' inner product, and its
      square is that of the product over the two spreads. */
  lemma CorrelationIsRatio(sqrt: real -> real, a: seq<real>, b: seq<real>)
    requires IsSqrt(sqrt) && |a| == |b| >= 2 && !AllEqual(a) && !AllEqual(b)
    ensures SpearmanRankcorr(sqrt, a, b).Some?
    ensures IsRatio(SpearmanRankcorr(sqrt, a, b).value, Dot(CrossRanks(a), CrossRanks(a)),
                    Dot(CrossRanks(b), CrossRanks(b)), Dot(CrossRanks(a), CrossRanks(b)))
  {
    CentredRanks(a);
    CentredRanks(b);
    SpreadIsPositive(a);
    SpreadIsPositive(b);
    RhoIsRatio(sqrt, Dot(CrossRanks(a), CrossRanks(a)), Dot(CrossRanks(b), CrossRanks(b)),
               Dot(CrossRanks(a), CrossRanks(b)));
  }
}
