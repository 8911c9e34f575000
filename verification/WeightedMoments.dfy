/** Weighted means and squared distances over a series: what the M-step of fit_hmm estimates
    (research/volregime.py). */
module WeightedMoments {
  import opened RealAlgebra
  import opened HmmChain
  import opened ScaledChain

  function Mix(p: real, a: real, q: real, b: real): real {
    p * a + q * b
  }

  ghost predicate IsMix(f: nat -> real, g: nat -> real, h: nat -> real, p: real, q: real, j: nat) {
    forall i: nat :: i < j ==> h(i) == Mix(p, f(i), q, g(i))
  }

  lemma SumIsMix(f: nat -> real, g: nat -> real, h: nat -> real, j: nat)
    requires forall i: nat :: i < j ==> h(i) == f(i) + g(i)
    ensures IsMix(f, g, h, 1.0, 1.0, j)
  {
  }

  lemma MixStep(p: real, q: real, a: real, b: real, f: real, g: real)
    ensures Mix(p, a, q, b) + Mix(p, f, q, g) == Mix(p, a + f, q, b + g)
  {
  }

  lemma MixNothing(p: real, q: real)
    ensures Mix(p, 0.0, q, 0.0) == 0.0
  {
  }

  /** Sums of states are linear. */
  lemma {:induction false} MixStates(f: nat -> real, g: nat -> real, h: nat -> real, p: real, q: real, j: nat)
    requires IsMix(f, g, h, p, q, j)
    ensures StateSum(h, j) == Mix(p, StateSum(f, j), q, StateSum(g, j))
    decreases j
  {
    if j > 0 {
      MixStates(f, g, h, p, q, j - 1);
      MixStep(p, q, StateSum(f, j - 1), StateSum(g, j - 1), f(j - 1), g(j - 1));
    } else {
      MixNothing(p, q);
    }
  }

  // ---------------------------------------------------------------------------
  // Pulls and distances
  // ---------------------------------------------------------------------------

  /** How hard each observation pulls away from c. */
  function PullAt(w: nat -> real, x: seq<real>, c: real): nat -> real {
    (u: nat) => if u < |x| then w(u) * (x[u] - c) else 0.0
  }

  /** How far off each observation is, squared. */
  function ScatterAt(w: nat -> real, x: seq<real>, c: real): nat -> real {
    (u: nat) => if u < |x| then w(u) * ((x[u] - c) * (x[u] - c)) else 0.0
  }

  /** How far the observations pull away from c, each by its weight. */
  function Pull(w: nat -> real, x: seq<real>, c: real): real {
    StateSum(PullAt(w, x, c), |x|)
  }

  /** Their squared distances from c, weighted the same way. */
  function Scatter(w: nat -> real, x: seq<real>, c: real): real {
    StateSum(ScatterAt(w, x, c), |x|)
  }

  /** The weights are total times g. */
  ghost predicate Weighs(w: nat -> real, g: nat -> real, n: nat, total: real) {
    forall u: nat :: u < n ==> w(u) == total * g(u)
  }

  /** f is g times the observations. */
  ghost predicate Weighted(g: nat -> real, f: nat -> real, x: seq<real>) {
    forall u: nat :: u < |x| ==> f(u) == g(u) * x[u]
  }

  lemma OnePull(total: real, g: real, w: real, xu: real, c: real, f: real)
    requires w == total * g && f == g * xu
    ensures w * (xu - c) == Mix(total, f, -c, w)
  {
    assert (total * g) * xu == total * (g * xu);
  }

  lemma PullIsMix(w: nat -> real, g: nat -> real, f: nat -> real, x: seq<real>, total: real, c: real)
    requires Weighs(w, g, |x|, total) && Weighted(g, f, x)
    ensures IsMix(f, w, PullAt(w, x, c), total, -c, |x|)
  {
    forall u: nat | u < |x| ensures PullAt(w, x, c)(u) == Mix(total, f(u), -c, w(u)) {
      OnePull(total, g(u), w(u), x[u], c, f(u));
    }
  }

  lemma PullIs(w: nat -> real, g: nat -> real, f: nat -> real, x: seq<real>, total: real, c: real)
    requires Weighs(w, g, |x|, total) && Weighted(g, f, x)
    ensures Pull(w, x, c) == Mix(total, StateSum(f, |x|), -c, StateSum(w, |x|))
  {
    PullIsMix(w, g, f, x, total, c);
    MixStates(f, w, PullAt(w, x, c), total, -c, |x|);
  }

  lemma Balanced(total: real, weight: real, sum: real, mean: real, mass: real)
    requires mean * weight == sum && mass == total * weight
    ensures Mix(total, sum, -mean, mass) == 0.0
  {
    assert mean * (total * weight) == total * (mean * weight);
  }

  /** At the weighted mean the pulls balance. */
  lemma MeanBalances(w: nat -> real, g: nat -> real, f: nat -> real, x: seq<real>, total: real, mean: real)
    requires Weighs(w, g, |x|, total) && Weighted(g, f, x)
    requires StateSum(g, |x|) != 0.0 && mean == Share(StateSum(f, |x|), StateSum(g, |x|))
    ensures Pull(w, x, mean) == 0.0
  {
    ShareTimes(StateSum(f, |x|), StateSum(g, |x|));
    PullIs(w, g, f, x, total, mean);
    ScaleStates(g, w, total, |x|);
    Balanced(total, StateSum(g, |x|), StateSum(f, |x|), mean, StateSum(w, |x|));
  }

  lemma OneScatter(total: real, g: real, w: real, dd: real, f: real)
    requires w == total * g && f == g * dd
    ensures w * dd == total * f
  {
  }

  lemma ScatterIs(w: nat -> real, g: nat -> real, x: seq<real>, total: real, c: real)
    requires Weighs(w, g, |x|, total)
    ensures Scatter(w, x, c) == total * Scatter(g, x, c)
  {
    forall u: nat | u < |x| ensures ScatterAt(w, x, c)(u) == total * ScatterAt(g, x, c)(u) {
      OneScatter(total, g(u), w(u), (x[u] - c) * (x[u] - c), ScatterAt(g, x, c)(u));
    }
    ScaleStates(ScatterAt(g, x, c), ScatterAt(w, x, c), total, |x|);
  }

  lemma Fitted(total: real, weight: real, sum: real, variance: real, mass: real)
    requires variance * weight == sum && mass == total * weight
    ensures variance * mass == total * sum
  {
    assert variance * (total * weight) == total * (variance * weight);
  }

  /** variance is the squared distance per unit of weight. */
  ghost predicate Fits(variance: real, mass: real, scatter: real) {
    variance * mass == scatter
  }

  lemma VarianceFits(w: nat -> real, g: nat -> real, x: seq<real>, total: real, c: real, variance: real)
    requires Weighs(w, g, |x|, total)
    requires StateSum(g, |x|) != 0.0 && variance == Share(Scatter(g, x, c), StateSum(g, |x|))
    ensures Fits(variance, StateSum(w, |x|), Scatter(w, x, c))
  {
    ShareTimes(Scatter(g, x, c), StateSum(g, |x|));
    ScatterIs(w, g, x, total, c);
    ScaleStates(g, w, total, |x|);
    Fitted(total, StateSum(g, |x|), Scatter(g, x, c), variance, StateSum(w, |x|));
  }

  /** The weights reach a floor exactly when g reaches it per unit of the total. */
  lemma MassAgainst(w: nat -> real, g: nat -> real, n: nat, total: real, floor: real, scaled: real)
    requires Weighs(w, g, n, total) && total > 0.0 && scaled == total * floor
    ensures StateSum(w, n) >= scaled <==> StateSum(g, n) >= floor
  {
    ScaleStates(g, w, total, n);
    ScaleOrder(total, floor, StateSum(g, n), scaled, StateSum(w, n));
  }

  // ---------------------------------------------------------------------------
  // The mean is the best centre
  // ---------------------------------------------------------------------------

  lemma OneShift(w: real, d: real, g: real, e: real, gg: real, k: real)
    requires gg == g * g && k == 2.0 * g && e == d + g
    ensures w * (e * e) == w * (d * d) + Mix(k, w * d, gg, w)
  {
    assert e * e == d * d + k * d + gg;
    assert w * (k * d) == k * (w * d);
  }

  function ShiftAt(w: nat -> real, x: seq<real>, c: real, k: real, gg: real): nat -> real {
    (u: nat) => Mix(k, PullAt(w, x, c)(u), gg, w(u))
  }

  lemma OneShiftAt(w: nat -> real, x: seq<real>, c: real, g: real, moved: real, k: real, gg: real, u: nat)
    requires moved == c - g && gg == g * g && k == 2.0 * g && u < |x|
    ensures ScatterAt(w, x, moved)(u) == ScatterAt(w, x, c)(u) + ShiftAt(w, x, c, k, gg)(u)
  {
    OneShift(w(u), x[u] - c, g, x[u] - moved, gg, k);
  }

  lemma ShiftIsMix(w: nat -> real, x: seq<real>, c: real, g: real, moved: real, k: real, gg: real)
    requires moved == c - g && gg == g * g && k == 2.0 * g
    ensures IsMix(ScatterAt(w, x, c), ShiftAt(w, x, c, k, gg), ScatterAt(w, x, moved), 1.0, 1.0, |x|)
  {
    var before, shift, after := ScatterAt(w, x, c), ShiftAt(w, x, c, k, gg), ScatterAt(w, x, moved);
    forall u: nat | u < |x| ensures after(u) == before(u) + shift(u) {
      OneShiftAt(w, x, c, g, moved, k, gg, u);
    }
    SumIsMix(before, shift, after, |x|);
  }

  /** Moving the centre by g adds the pull and the square of the move. */
  lemma ScatterShifts(w: nat -> real, x: seq<real>, c: real, g: real, moved: real, k: real, gg: real)
    requires moved == c - g && gg == g * g && k == 2.0 * g
    ensures Scatter(w, x, moved) == Mix(1.0, Scatter(w, x, c), 1.0, Mix(k, Pull(w, x, c), gg, StateSum(w, |x|)))
  {
    MixStates(PullAt(w, x, c), w, ShiftAt(w, x, c, k, gg), k, gg, |x|);
    ShiftIsMix(w, x, c, g, moved, k, gg);
    MixStates(ScatterAt(w, x, c), ShiftAt(w, x, c, k, gg), ScatterAt(w, x, moved), 1.0, 1.0, |x|);
  }

  lemma BalancedShift(scatter: real, pull: real, mass: real, gg: real, k: real, shifted: real)
    requires mass >= 0.0 && gg >= 0.0 && pull == 0.0 && shifted == Mix(1.0, scatter, 1.0, Mix(k, pull, gg, mass))
    ensures scatter <= shifted
  {
    MulNonNeg(gg, mass, gg * mass);
    assert k * 0.0 == 0.0;
  }

  /** Where the pulls balance, the squared distance is least. */
  lemma BalanceIsBest(w: nat -> real, x: seq<real>, mean: real, other: real)
    requires Pull(w, x, mean) == 0.0 && StateSum(w, |x|) >= 0.0
    ensures Scatter(w, x, mean) <= Scatter(w, x, other)
  {
    var g := mean - other;
    var gg := g * g;
    SquareSign(g, gg);
    ScatterShifts(w, x, mean, g, other, 2.0 * g, gg);
    BalancedShift(Scatter(w, x, mean), Pull(w, x, mean), StateSum(w, |x|), gg, 2.0 * g, Scatter(w, x, other));
  }
}
