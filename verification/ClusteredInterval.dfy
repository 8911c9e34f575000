/** From per-cluster tallies to a publishable interval (tools/accuracy_registry.py,
    design_effect, clustered_ci, clustered_ci_blocks). */
module ClusteredInterval {
  import opened Options
  import opened RealAlgebra
  import opened RealSeq
  import opened Wilson

  const MIN_DISTINCT_BLOCKS: int := 10
  const DEGENERATE_BLOCK_FRACTION: real := 0.1

  /** One cluster's (n, hits) tally. Counts are reals here, so that every formula of the
      estimator stays in one sort; nothing below depends on their being whole. */
  datatype Cluster = Cluster(n: real, hits: real)

  function SumN(days: seq<Cluster>): real {
    if days == [] then 0.0 else SumN(days[..|days| - 1]) + days[|days| - 1].n
  }

  function SumHits(days: seq<Cluster>): real {
    if days == [] then 0.0 else SumHits(days[..|days| - 1]) + days[|days| - 1].hits
  }

  /** How far a cluster's hits lie from what the overall proportion predicts, squared. */
  function Deviation(d: Cluster, p: real): real {
    (d.hits - d.n * p) * (d.hits - d.n * p)
  }

  function DeviationFrom(p: real): Cluster -> real {
    (d: Cluster) => Deviation(d, p)
  }

  /** The squared deviations of all clusters, added up. */
  function Residual(days: seq<Cluster>, p: real): real {
    SumBy(days, DeviationFrom(p))
  }

  // ---------------------------------------------------------------------------
  // The design effect
  // ---------------------------------------------------------------------------

  /** The penalty for k clusters of n rows with proportion p and squared residual s. */
  function Penalty(k: real, n: real, p: real, s: real): real
    requires k >= 2.0 && n > 0.0
  {
    if p <= 0.0 || p >= 1.0 then n / k
    else
      var clusterVar, binomVar := ClusterVar(k, n, s), BinomVar(p, n);
      if binomVar <= 0.0 || clusterVar <= 0.0 then 1.0 else Max(1.0, Quotient(clusterVar, binomVar))
  }

  function ClusterVar(k: real, n: real, s: real): real
    requires k >= 2.0 && n > 0.0
  {
    var den := (k - 1.0) * n * n;
    PositiveDenominator(k, n, den);
    k / den * s
  }

  function BinomVar(p: real, n: real): real
    requires n > 0.0
  {
    p * (1.0 - p) / n
  }

  lemma PositiveDenominator(k: real, n: real, den: real)
    requires k >= 2.0 && n > 0.0 && den == (k - 1.0) * n * n
    ensures den > 0.0
  {
    var m := (k - 1.0) * n;
    MulPos(k - 1.0, n, m);
    MulPos(m, n, den);
  }

  function DesignEffect(days: seq<Cluster>): Option<real> {
    var n := SumN(days);
    if |days| < 2 || n <= 0.0 then None
    else
      var p := SumHits(days) / n;
      Some(Penalty(|days| as real, n, p, Residual(days, p)))
  }

  /** A cluster holds no more hits than observations. It may be empty. */
  predicate Tallied(d: Cluster) {
    0.0 <= d.hits <= d.n
  }

  ghost predicate AllTallied(days: seq<Cluster>) {
    forall d :: d in days ==> Tallied(d)
  }

  ghost predicate SizesAtMost(days: seq<Cluster>, m: real) {
    forall d :: d in days ==> d.n <= m
  }

  /** The squared deviations of n single observations, h of them hits, from the proportion p. */
  function RowDeviation(h: real, n: real, p: real): real {
    h - 2.0 * p * h + p * p * n
  }

  lemma RowDeviationNonNegative(h: real, n: real, p: real)
    requires 0.0 <= h <= n
    ensures RowDeviation(h, n, p) >= 0.0
  {
    var pp, qq := p * p, (1.0 - p) * (1.0 - p);
    SquareSign(p, pp);
    SquareSign(1.0 - p, qq);
    var x, y := h * qq, (n - h) * pp;
    MulNonNeg(h, qq, x);
    MulNonNeg(n - h, pp, y);
    assert RowDeviation(h, n, p) == x + y;
  }

  /** One cluster's squared deviation is at most m times that of its rows taken singly. */
  lemma DeviationBound(n: real, h: real, p: real, m: real, dev: real)
    requires 0.0 <= h <= n <= m && dev == (h - n * p) * (h - n * p)
    ensures dev <= m * RowDeviation(h, n, p)
  {
    var t := RowDeviation(h, n, p);
    RowDeviationNonNegative(h, n, p);
    var nt, mt := n * t, m * t;
    MulMono(t, n, m, nt, mt);
    var slack := h * (n - h);
    MulNonNeg(h, n - h, slack);
    assert dev == h * h - 2.0 * (h * (n * p)) + n * p * (n * p);
    assert nt == h * n - 2.0 * (h * (n * p)) + n * p * (n * p);
  }

  function RowDeviationFrom(p: real): Cluster -> real {
    (d: Cluster) => RowDeviation(d.hits, d.n, p)
  }

  function ScaledFrom(p: real, m: real): Cluster -> real {
    (d: Cluster) => m * RowDeviation(d.hits, d.n, p)
  }

  lemma {:induction false} RowDeviationsAddUp(days: seq<Cluster>, p: real)
    ensures SumBy(days, RowDeviationFrom(p)) == RowDeviation(SumHits(days), SumN(days), p)
    decreases |days|
  {
    if days != [] {
      var front, d := days[..|days| - 1], days[|days| - 1];
      RowDeviationsAddUp(front, p);
      RowDeviationAdds(SumHits(front), SumN(front), d.hits, d.n, p);
    }
  }

  lemma RowDeviationAdds(h: real, n: real, h': real, n': real, p: real)
    ensures RowDeviation(h + h', n + n', p) == RowDeviation(h, n, p) + RowDeviation(h', n', p)
  {
  }

  lemma ClusterBound(d: Cluster, p: real, m: real)
    requires Tallied(d) && d.n <= m
    ensures DeviationFrom(p)(d) <= ScaledFrom(p, m)(d)
  {
    DeviationBound(d.n, d.hits, p, m, Deviation(d, p));
  }

  lemma ResidualDominated(days: seq<Cluster>, p: real, m: real)
    requires AllTallied(days) && SizesAtMost(days, m)
    ensures Residual(days, p) <= SumBy(days, ScaledFrom(p, m))
  {
    forall d | d in days ensures DeviationFrom(p)(d) <= ScaledFrom(p, m)(d) {
      ClusterBound(d, p, m);
    }
    SumByMono(days, DeviationFrom(p), ScaledFrom(p, m));
  }

  lemma ScaledTotal(days: seq<Cluster>, p: real, m: real, t: real, bound: real)
    requires t == SumBy(days, RowDeviationFrom(p)) && bound == m * t
    ensures SumBy(days, ScaledFrom(p, m)) == bound
  {
    SumByScaled(days, RowDeviationFrom(p), ScaledFrom(p, m), m);
  }

  /** When p is the overall proportion, the rows' deviation is the binomial n p (1 - p). */
  lemma RowsAsVariance(days: seq<Cluster>, n: real, h: real, p: real, t: real)
    requires n == SumN(days) && h == SumHits(days) && p * n == h && t == n * (p * (1.0 - p))
    ensures SumBy(days, RowDeviationFrom(p)) == t
  {
    RowDeviationsAddUp(days, p);
    BinomialDeviation(n, h, p, RowDeviation(h, n, p));
  }

  lemma BinomialDeviation(n: real, h: real, p: real, t: real)
    requires t == RowDeviation(h, n, p) && p * n == h
    ensures t == n * (p * (1.0 - p))
  {
    assert p * p * n == p * h && n * (p * (1.0 - p)) == h - p * h;
  }

  ghost predicate NoneEmpty(days: seq<Cluster>) {
    forall d :: d in days ==> d.n >= 1.0
  }

  lemma {:induction false} RowsAtLeastClusters(days: seq<Cluster>)
    requires NoneEmpty(days)
    ensures SumN(days) >= |days| as real
    decreases |days|
  {
    if days != [] {
      RowsAtLeastClusters(days[..|days| - 1]);
      assert days[|days| - 1].n >= 1.0;
    }
  }

  lemma {:induction false} RowsAtMost(days: seq<Cluster>, m: real)
    requires SizesAtMost(days, m)
    ensures SumN(days) <= |days| as real * m
    decreases |days|
  {
    if days != [] {
      RowsAtMost(days[..|days| - 1], m);
      assert days[|days| - 1].n <= m;
      assert |days| as real == (|days| - 1) as real + 1.0;
    }
  }

  /** With p the overall proportion, the residual is at most m times the binomial n p (1 - p). */
  lemma ResidualBound(days: seq<Cluster>, m: real, n: real, h: real, p: real, t: real, bound: real)
    requires AllTallied(days) && SizesAtMost(days, m)
    requires n == SumN(days) && h == SumHits(days) && p * n == h
    requires t == n * (p * (1.0 - p)) && bound == m * t
    ensures Residual(days, p) <= bound
  {
    RowsAsVariance(days, n, h, p, t);
    ScaledTotal(days, p, m, t, bound);
    ResidualDominated(days, p, m);
  }

  /** The most that k clusters of at most m rows can inflate the variance. */
  function LargestEffect(k: real, m: real): real
    requires k > 1.0
  {
    k * m / (k - 1.0)
  }

  lemma LargestEffectFacts(k: real, m: real, c: real)
    requires k >= 2.0 && m > 0.0 && c == LargestEffect(k, m)
    ensures c * (k - 1.0) == k * m && c >= m
  {
    var km := k * m;
    DivMul(km, k - 1.0, c);
    var low := m * (k - 1.0);
    DivOrder(km, k - 1.0, c, m, low);
    assert km - low == m;
  }

  /** The variance ratio against its bound, cleared of denominators. */
  lemma RatioBound(k: real, n: real, m: real, v: real, s: real, cv: real, bv: real, ratio: real)
    requires k >= 2.0 && n > 0.0 && m > 0.0 && v > 0.0 && s <= m * (n * v)
    requires cv == ClusterVar(k, n, s) && bv == v / n && bv > 0.0 && ratio == Quotient(cv, bv)
    ensures ratio <= LargestEffect(k, m)
  {
    DivMul(v, n, bv);
    var den := (k - 1.0) * n * n;
    PositiveDenominator(k, n, den);
    var f := k / den;
    DivPos(k, den, f);
    var c := LargestEffect(k, m);
    LargestEffectFacts(k, m, c);
    var b, top, ftop := c * bv, m * (n * v), f * (m * (n * v));
    MulMono(f, s, top, cv, ftop);
    ScaledBounds(k, n, m, v, f, c, bv, den, ftop, b);
    DivOrder(cv, bv, ratio, c, b);
  }

  lemma ScaledBounds(k: real, n: real, m: real, v: real, f: real, c: real, bv: real, den: real, ftop: real, b: real)
    requires den > 0.0 && den == (k - 1.0) * n * n && f == k / den
    requires c * (k - 1.0) == k * m && bv * n == v && ftop == f * (m * (n * v)) && b == c * bv
    ensures ftop == b
  {
    DivMul(k, den, f);
    var x := k * m * v * n;
    assert ftop * den == (f * den) * (m * (n * v)) == x;
    assert b * den == (c * (k - 1.0)) * (bv * n) * n == x;
    ScaleOrder(den, ftop, b, x, x);
    ScaleOrder(den, b, ftop, x, x);
  }

  lemma PenaltyAtMost(k: real, n: real, m: real, p: real, s: real, t: real, bound: real)
    requires k >= 2.0 && m > 0.0 && 0.0 < n <= k * m
    requires t == n * (p * (1.0 - p)) && bound == m * t && s <= bound
    ensures Penalty(k, n, p, s) <= Max(1.0, LargestEffect(k, m))
  {
    LargestEffectFacts(k, m, LargestEffect(k, m));
    if p <= 0.0 || p >= 1.0 {
      DivOrder(n, k, n / k, m, m * k);
    } else {
      var cv, bv := ClusterVar(k, n, s), BinomVar(p, n);
      if bv > 0.0 && cv > 0.0 {
        var v := p * (1.0 - p);
        MulPos(p, 1.0 - p, v);
        RatioBound(k, n, m, v, s, cv, bv, Quotient(cv, bv));
      }
    }
  }

  /** The penalty is documented never to fall below 1. It does not, exactly when the proportion
      lies strictly inside (0, 1) or there are at least as many rows as clusters. */
  lemma PenaltyAtLeastOneExactlyWhen(k: real, n: real, p: real, s: real)
    requires k >= 2.0 && n > 0.0
    ensures Penalty(k, n, p, s) >= 1.0 <==> 0.0 < p < 1.0 || n >= k
  {
    DivOrder(n, k, n / k, 1.0, k);
  }

  /** The design effect of two or more existing clusters, in the terms of Penalty. */
  lemma DesignEffectIs(days: seq<Cluster>, k: real, n: real, p: real)
    requires |days| >= 2 && k == |days| as real && n == SumN(days) && n > 0.0 && p == SumHits(days) / n
    ensures DesignEffect(days) == Some(Penalty(k, n, p, Residual(days, p)))
    ensures p * n == SumHits(days)
  {
    DivMul(SumHits(days), n, p);
  }

  /** Some rows hit and some miss, or there are at least as many rows as clusters. Clusters that
      all hold a row always meet this. */
  predicate NotThinned(days: seq<Cluster>) {
    0.0 < SumHits(days) < SumN(days) || SumN(days) >= |days| as real
  }

  lemma NoneEmptyIsNotThinned(days: seq<Cluster>)
    requires NoneEmpty(days)
    ensures NotThinned(days)
  {
    RowsAtLeastClusters(days);
  }

  /** Main result: the design effect is at most k/(k-1) times the largest cluster, and it is at
      least 1 exactly when the sample is not thinned to fewer rows than clusters, all alike. */
  lemma DesignEffectBounds(days: seq<Cluster>, m: real)
    requires |days| >= 2 && AllTallied(days) && SizesAtMost(days, m) && SumN(days) > 0.0
    ensures DesignEffect(days).Some?
    ensures DesignEffect(days).value <= Max(1.0, LargestEffect(|days| as real, m))
    ensures m >= 1.0 ==> DesignEffect(days).value <= LargestEffect(|days| as real, m)
    ensures DesignEffect(days).value >= 1.0 <==> NotThinned(days)
  {
    var k, n, h := |days| as real, SumN(days), SumHits(days);
    var p := h / n;
    DesignEffectIs(days, k, n, p);
    PenaltyIsBounded(days, m, k, n, h, p);
    PenaltyAtLeastOneExactlyWhen(k, n, p, Residual(days, p));
    InsideUnit(h, n, p);
  }

  lemma PenaltyIsBounded(days: seq<Cluster>, m: real, k: real, n: real, h: real, p: real)
    requires |days| >= 2 && AllTallied(days) && SizesAtMost(days, m)
    requires k == |days| as real && n == SumN(days) > 0.0 && h == SumHits(days) && p * n == h
    ensures Penalty(k, n, p, Residual(days, p)) <= Max(1.0, LargestEffect(k, m))
    ensures m >= 1.0 ==> LargestEffect(k, m) >= 1.0
  {
    RowsAtMost(days, m);
    PositiveFactors(k, m, k * m);
    var t := n * (p * (1.0 - p));
    ResidualBound(days, m, n, h, p, t, m * t);
    PenaltyAtMost(k, n, m, p, Residual(days, p), t, m * t);
    LargestEffectFacts(k, m, LargestEffect(k, m));
  }

  lemma PositiveFactors(k: real, m: real, km: real)
    requires k > 0.0 && km == k * m
    ensures km > 0.0 ==> m > 0.0
  {
    if m <= 0.0 {
      MulNonNeg(k, -m, -km);
    }
  }

  lemma InsideUnit(h: real, n: real, p: real)
    requires n > 0.0 && p == h / n
    ensures 0.0 < p < 1.0 <==> 0.0 < h < n
  {
    DivOrder(h, n, p, 0.0, 0.0);
    DivOrder(h, n, p, 1.0, n);
  }

  /** An empty cluster can bring it below 1: one row in two clusters counts as two. */
  lemma EmptyClusterInflates()
    ensures DesignEffect([Cluster(1.0, 1.0), Cluster(0.0, 0.0)]) == Some(0.5)
  {
    var a, b := Cluster(1.0, 1.0), Cluster(0.0, 0.0);
    var days := [a, b];
    assert days[..1] == [a] && [a][..0] == [];
    assert SumN([a]) == 1.0 && SumHits([a]) == 1.0;
    assert SumN(days) == 1.0 && SumHits(days) == 1.0;
  }

  /** Main result: the effective sample is at least (k-1) n / (k m), and it exceeds the rows
      exactly when the sample is thinned. */
  lemma EffectiveSampleBounds(days: seq<Cluster>, m: real)
    requires |days| >= 2 && AllTallied(days) && SizesAtMost(days, m) && SumN(days) > 0.0 && m >= 1.0
    ensures LargestEffect(|days| as real, m) > 0.0
    ensures DesignEffect(days).Some? && DesignEffect(days).value > 0.0
    ensures var eff := Quotient(SumN(days), DesignEffect(days).value);
            && Quotient(SumN(days), LargestEffect(|days| as real, m)) <= eff
            && (eff <= SumN(days) <==> NotThinned(days))
  {
    DesignEffectBounds(days, m);
    DesignEffectPositive(days);
    var n, c, deff := SumN(days), LargestEffect(|days| as real, m), DesignEffect(days).value;
    LargestEffectFacts(|days| as real, m, c);
    EffectiveBetween(n, deff, c, Quotient(n, deff), Quotient(n, c));
  }

  lemma EffectiveBetween(n: real, deff: real, c: real, eff: real, least: real)
    requires n > 0.0 && 0.0 < deff <= c && eff == Quotient(n, deff) && least == Quotient(n, c)
    ensures least <= eff
    ensures eff <= n <==> deff >= 1.0
  {
    DivMul(n, deff, eff);
    DivPos(n, deff, eff);
    ScaleOrder(eff, 1.0, deff, eff, n);
    var ec := eff * c;
    MulMono(eff, deff, c, n, ec);
    DivOrder(n, c, least, eff, ec);
  }

  lemma {:induction false} LargestCluster(days: seq<Cluster>) returns (m: real)
    ensures m >= 1.0 && SizesAtMost(days, m)
    decreases |days|
  {
    if days == [] {
      m := 1.0;
    } else {
      var front, last := days[..|days| - 1], days[|days| - 1];
      var before := LargestCluster(front);
      m := Max(before, last.n);
      assert days == front + [last];
    }
  }

  lemma DesignEffectPositive(days: seq<Cluster>)
    ensures DesignEffect(days).Some? ==> DesignEffect(days).value > 0.0
  {
    if |days| >= 2 && SumN(days) > 0.0 {
      var n, k := SumN(days), |days| as real;
      DivPos(n, k, n / k);
    }
  }

  /** The upper bound is attained: two clusters of size m that disagree completely. */
  lemma DesignEffectBoundIsTight(m: real)
    requires m >= 1.0
    ensures DesignEffect([Cluster(m, m), Cluster(m, 0.0)]) == Some(LargestEffect(2.0, m))
  {
    var a, b := Cluster(m, m), Cluster(m, 0.0);
    var days := [a, b];
    assert days[..1] == [a] && [a][..0] == [];
    assert SumN([a]) == m && SumHits([a]) == m;
    assert SumN(days) == 2.0 * m && SumHits(days) == m;
    var n, p := SumN(days), SumHits(days) / SumN(days);
    DivOrder(m, n, p, 0.5, m);
    SumBySnoc([a], b, DeviationFrom(p));
    SumBySnoc([], a, DeviationFrom(p));
    assert [a] + [b] == days && [] + [a] == [a];
    DesignEffectIs(days, 2.0, n, p);
    OpposedClusters(a, b, m, Residual(days, p), n, p);
  }

  lemma OpposedClusters(a: Cluster, b: Cluster, m: real, s: real, n: real, p: real)
    requires a == Cluster(m, m) && b == Cluster(m, 0.0)
    requires m >= 1.0 && n == 2.0 * m && p == 0.5
    requires s == Deviation(a, p) + Deviation(b, p)
    ensures Penalty(2.0, n, p, s) == LargestEffect(2.0, m)
  {
    var mm := m * m;
    MulPos(m, m, mm);
    assert s == mm / 2.0;
    var den := (2.0 - 1.0) * n * n;
    assert den == 4.0 * mm;
    var cv, bv := ClusterVar(2.0, n, s), BinomVar(p, n);
    DivMul(2.0, den, 2.0 / den);
    assert cv == 0.25;
    DivPos(0.25, n, bv);
    DivMul(0.25, n, bv);
    DivOrder(cv, bv, Quotient(cv, bv), n, n * bv);
  }
}
