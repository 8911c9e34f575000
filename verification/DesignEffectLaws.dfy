/** The design effect in whole counts, and the samples that inflate it most
    (tools/accuracy_registry.py, design_effect). */
module DesignEffectLaws {
  import opened Options
  import opened RealAlgebra
  import opened RealSeq
  import opened Wilson
  import opened ClusteredInterval

  /** How far a cluster's share of hits lies from the sample's, with both denominators cleared. */
  function Gap(d: Cluster, n: real, h: real): real {
    d.hits * n - d.n * h
  }

  function SquaredGap(n: real, h: real): Cluster -> real {
    (d: Cluster) => Gap(d, n, h) * Gap(d, n, h)
  }

  /** The squared gaps of all clusters, added up. */
  function Gaps(days: seq<Cluster>, n: real, h: real): real {
    SumBy(days, SquaredGap(n, h))
  }

  lemma OneGap(d: Cluster, n: real, h: real, p: real, nn: real)
    requires h == p * n && nn == n * n
    ensures SquaredGap(n, h)(d) == nn * DeviationFrom(p)(d)
  {
    var miss := d.hits - d.n * p;
    assert Gap(d, n, h) == n * miss by {
      assert d.n * h == n * (d.n * p);
    }
    assert (n * miss) * (n * miss) == nn * (miss * miss);
  }

  lemma GapsAreDeviations(days: seq<Cluster>, n: real, h: real, p: real, nn: real)
    requires h == p * n && nn == n * n
    ensures Gaps(days, n, h) == nn * Residual(days, p)
  {
    forall d | d in days ensures SquaredGap(n, h)(d) == nn * DeviationFrom(p)(d) {
      OneGap(d, n, h, p, nn);
    }
    SumByScaled(days, DeviationFrom(p), SquaredGap(n, h), nn);
  }

  lemma {:induction false} ResidualNonNegative(days: seq<Cluster>, p: real)
    ensures Residual(days, p) >= 0.0
    decreases |days|
  {
    if days != [] {
      ResidualNonNegative(days[..|days| - 1], p);
      var d := days[|days| - 1];
      SquareSign(d.hits - d.n * p, Deviation(d, p));
    }
  }

  lemma BinomialInCounts(n: real, p: real, h: real, v: real, nn: real, hv: real)
    requires n > 0.0 && h == p * n && 0.0 < h < n && v == p * (1.0 - p) && nn == n * n && hv == h * (n - h)
    ensures 0.0 < p < 1.0 && v > 0.0 && hv > 0.0 && hv == nn * v
  {
    DivOrder(h, n, h / n, p, p * n);
    DivPos(h, n, p);
    DivOrder(h, n, p, 1.0, n);
    MulPos(p, 1.0 - p, v);
    MulPos(h, n - h, hv);
    assert n - h == n * (1.0 - p);
    assert (p * n) * (n * (1.0 - p)) == (n * n) * (p * (1.0 - p));
  }

  /** The variance between clusters, cleared of its denominator. */
  lemma BetweenInCounts(k: real, n: real, s: real, c: real, nn: real, den: real, ks: real)
    requires k >= 2.0 && n > 0.0 && c == k - 1.0 && nn == n * n && den == c * nn && ks == k * s
    ensures ClusterVar(k, n, s) * den == ks
    ensures s == 0.0 ==> ClusterVar(k, n, s) == 0.0
    ensures s > 0.0 ==> ClusterVar(k, n, s) > 0.0
  {
    PositiveDenominator(k, n, (k - 1.0) * n * n);
    assert (k - 1.0) * n * n == den;
    var r := k / den;
    DivMul(k, den, r);
    DivPos(k, den, r);
    assert (r * s) * den == (r * den) * s;
    if s > 0.0 {
      MulPos(r, s, r * s);
    }
  }

  lemma RatioInCounts(q: real, cv: real, bv: real, n: real, nn: real, v: real, hv: real, c: real, den: real,
          ks: real, kg: real, spread: real)
    requires q * bv == cv && bv * n == v && nn == n * n && hv == nn * v && den == c * nn
    requires cv * den == ks && kg == nn * ks && spread == c * n * hv
    ensures q * spread == kg
  {
    assert spread == c * n * (nn * (bv * n));
    assert c * n * (nn * (bv * n)) == bv * ((c * nn) * nn);
    assert q * (bv * (den * nn)) == (q * bv) * (den * nn);
    assert cv * (den * nn) == nn * (cv * den);
  }

  lemma LargerScaled(q: real, spread: real, kg: real)
    requires spread > 0.0 && q * spread == kg
    ensures Max(1.0, q) * spread == Max(spread, kg)
  {
    ScaleOrder(spread, 1.0, q, spread, kg);
    ScaleOrder(spread, q, 1.0, kg, spread);
  }

  /** A design effect in whole counts: for k clusters of n rows with h hits it is k times the
      squared gaps over (k - 1) n h (n - h), or one if that is less; when all rows hit or all miss
      it is n over k. */
  ghost predicate InCounts(deff: real, k: real, n: real, h: real, gaps: real) {
    var spread := (k - 1.0) * n * (h * (n - h));
    if 0.0 < h < n then spread > 0.0 && deff * spread == Max(spread, k * gaps) else deff * k == n
  }

  lemma MixedIsInCounts(deff: real, k: real, n: real, h: real, gaps: real, spread: real)
    requires 0.0 < h < n && spread == (k - 1.0) * n * (h * (n - h)) && spread > 0.0
    requires deff * spread == Max(spread, k * gaps)
    ensures InCounts(deff, k, n, h, gaps)
  {
  }

  lemma AlikeInCounts(k: real, n: real, p: real, s: real, h: real, g: real)
    requires k >= 2.0 && n > 0.0 && p == h / n && !(0.0 < h < n)
    ensures InCounts(Penalty(k, n, p, s), k, n, h, g)
  {
    DivOrder(h, n, p, 0.0, 0.0);
    DivOrder(h, n, p, 1.0, n);
    DivMul(n, k, n / k);
  }

  lemma PenaltyInCounts(k: real, n: real, p: real, s: real, h: real, g: real, nn: real)
    requires k >= 2.0 && n > 0.0 && p == h / n && s >= 0.0 && nn == n * n && g == nn * s
    ensures InCounts(Penalty(k, n, p, s), k, n, h, g)
  {
    if 0.0 < h < n {
      var spread := (k - 1.0) * n * (h * (n - h));
      DivMul(h, n, p);
      MixedInCounts(k, n, p, s, h, g, nn, spread);
      MixedIsInCounts(Penalty(k, n, p, s), k, n, h, g, spread);
    } else {
      AlikeInCounts(k, n, p, s, h, g);
    }
  }

  lemma Reordered(k: real, g: real, nn: real, s: real, ks: real)
    requires g == nn * s && ks == k * s
    ensures k * g == nn * ks && (s == 0.0 ==> k * g == 0.0)
  {
  }

  lemma MixedInCounts(k: real, n: real, p: real, s: real, h: real, g: real, nn: real, spread: real)
    requires k >= 2.0 && n > 0.0 && h == p * n && 0.0 < h < n && s >= 0.0
    requires nn == n * n && g == nn * s && spread == (k - 1.0) * n * (h * (n - h))
    ensures spread > 0.0 && Penalty(k, n, p, s) * spread == Max(spread, k * g)
  {
    var v, hv, c := p * (1.0 - p), h * (n - h), k - 1.0;
    var cn, den, ks, kg := c * n, c * nn, k * s, k * g;
    BinomialInCounts(n, p, h, v, nn, hv);
    BetweenInCounts(k, n, s, c, nn, den, ks);
    MulPos(c, n, cn);
    MulPos(cn, hv, spread);
    var cv, bv := ClusterVar(k, n, s), BinomVar(p, n);
    DivMul(v, n, bv);
    DivPos(v, n, bv);
    Reordered(k, g, nn, s, ks);
    if s > 0.0 {
      var q := Quotient(cv, bv);
      DivMul(cv, bv, q);
      RatioInCounts(q, cv, bv, n, nn, v, hv, c, den, ks, kg, spread);
      LargerScaled(q, spread, kg);
    }
  }

  /** Main result: the measured design effect, cleared of every quotient. */
  lemma DesignEffectInCounts(days: seq<Cluster>)
    requires |days| >= 2 && SumN(days) > 0.0
    ensures DesignEffect(days).Some?
    ensures InCounts(DesignEffect(days).value, |days| as real, SumN(days), SumHits(days),
                     Gaps(days, SumN(days), SumHits(days)))
  {
    var k, n, h := |days| as real, SumN(days), SumHits(days);
    var p, nn := h / n, n * n;
    DesignEffectIs(days, k, n, p);
    ResidualNonNegative(days, p);
    GapsAreDeviations(days, n, h, p, nn);
    PenaltyInCounts(k, n, p, Residual(days, p), h, Gaps(days, n, h), nn);
  }

  // ---------------------------------------------------------------------------
  // Clusters of one mind
  // ---------------------------------------------------------------------------

  /** Every cluster has m rows, and they all hit or all miss. */
  ghost predicate Unanimous(days: seq<Cluster>, m: real) {
    forall d :: d in days ==> d.n == m && (d.hits == 0.0 || d.hits == m)
  }

  function Combined(a: real, b: real): Cluster -> real {
    (d: Cluster) => a * d.hits + b * d.n
  }

  lemma {:induction false} CombinedSum(days: seq<Cluster>, a: real, b: real)
    ensures SumBy(days, Combined(a, b)) == a * SumHits(days) + b * SumN(days)
    decreases |days|
  {
    if days == [] {
      assert a * 0.0 == 0.0 && b * 0.0 == 0.0;
    } else {
      var front, d := days[..|days| - 1], days[|days| - 1];
      CombinedSum(front, a, b);
      Distribute(a, SumHits(front), d.hits);
      Distribute(b, SumN(front), d.n);
    }
  }

  lemma UnanimousGap(d: Cluster, m: real, n: real, h: real, a: real, b: real)
    requires d.n == m && (d.hits == 0.0 || d.hits == m)
    requires a == m * (n * n) - 2.0 * (m * (n * h)) && b == m * (h * h)
    ensures SquaredGap(n, h)(d) == Combined(a, b)(d)
  {
    if d.hits == 0.0 {
      assert Gap(d, n, h) == -(m * h);
      assert (m * h) * (m * h) == b * m;
      assert a * d.hits == 0.0;
    } else {
      assert Gap(d, n, h) == m * (n - h);
      assert (m * (n - h)) * (m * (n - h)) == m * (m * (n * n) - 2.0 * (m * (n * h)) + m * (h * h));
      assert a * m + b * m == m * (a + b);
    }
  }

  lemma UnanimousGaps(days: seq<Cluster>, m: real, n: real, h: real)
    requires Unanimous(days, m) && n == SumN(days) && h == SumHits(days)
    ensures Gaps(days, n, h) == m * (n * (h * (n - h)))
  {
    var a, b := m * (n * n) - 2.0 * (m * (n * h)), m * (h * h);
    GapsCombine(days, m, n, h, a, b);
    var total := GapTotal(m, n, h, a, b);
    CombinedTotal(days, a, b, n, h, total);
  }

  lemma CombinedTotal(days: seq<Cluster>, a: real, b: real, n: real, h: real, total: real)
    requires n == SumN(days) && h == SumHits(days) && total == a * h + b * n
    ensures SumBy(days, Combined(a, b)) == total
  {
    CombinedSum(days, a, b);
  }

  lemma GapsCombine(days: seq<Cluster>, m: real, n: real, h: real, a: real, b: real)
    requires Unanimous(days, m) && a == m * (n * n) - 2.0 * (m * (n * h)) && b == m * (h * h)
    ensures Gaps(days, n, h) == SumBy(days, Combined(a, b))
  {
    forall d | d in days ensures SquaredGap(n, h)(d) == Combined(a, b)(d) {
      UnanimousGap(d, m, n, h, a, b);
    }
    SumBySame(days, SquaredGap(n, h), Combined(a, b));
  }

  lemma GapTotal(m: real, n: real, h: real, a: real, b: real) returns (total: real)
    requires a == m * (n * n) - 2.0 * (m * (n * h)) && b == m * (h * h)
    ensures total == a * h + b * n == m * (n * (h * (n - h)))
  {
    total := a * h + b * n;
    assert a * h == m * (n * (n * h)) - 2.0 * (m * (n * (h * h)));
    assert b * n == m * (n * (h * h));
    assert n * (h * (n - h)) == n * (n * h) - n * (h * h);
  }

  lemma SumBySame(days: seq<Cluster>, f: Cluster -> real, g: Cluster -> real)
    requires forall d :: d in days ==> f(d) == g(d)
    ensures SumBy(days, f) == SumBy(days, g)
  {
    SumByMono(days, f, g);
    SumByMono(days, g, f);
  }

  /** Main result: clusters of one size whose rows all agree attain the largest design effect
      there is, k m / (k - 1), whatever their number and however they split. Rows that are their
      own clusters pay k / (k - 1). */
  lemma UnanimousClustersInflateMost(days: seq<Cluster>, m: real)
    requires |days| >= 2 && m >= 1.0 && Unanimous(days, m) && 0.0 < SumHits(days) < SumN(days)
    ensures DesignEffect(days) == Some(LargestEffect(|days| as real, m))
  {
    var k, n, h := |days| as real, SumN(days), SumHits(days);
    DesignEffectInCounts(days);
    UnanimousGaps(days, m, n, h);
    MostInflated(k, n, h, m, DesignEffect(days).value, Gaps(days, n, h));
  }

  lemma MostInflated(k: real, n: real, h: real, m: real, deff: real, gaps: real)
    requires k >= 2.0 && m >= 1.0 && 0.0 < h < n && gaps == m * (n * (h * (n - h))) && InCounts(deff, k, n, h, gaps)
    ensures deff == LargestEffect(k, m)
  {
    var base, spread := n * (h * (n - h)), (k - 1.0) * n * (h * (n - h));
    var c, km := k - 1.0, k * m;
    MulPos(h, n - h, h * (n - h));
    MulPos(n, h * (n - h), base);
    assert spread == c * base && k * (m * base) == km * base;
    MulMono(k, 1.0, m, k, km);
    ScaleOrder(base, c, km, spread, km * base);
    assert deff * (c * base) == (deff * c) * base;
    ScaleOrder(base, deff * c, km, (deff * c) * base, km * base);
    ScaleOrder(base, km, deff * c, km * base, (deff * c) * base);
    DivOrder(km, c, km / c, deff, deff * c);
  }
}
