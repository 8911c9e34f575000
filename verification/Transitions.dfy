/** Expected transitions and the re-estimated transition matrix
    (research/volregime.py, xi in _forward_backward and the M-step of fit_hmm). */
module Transitions {
  import opened RealAlgebra
  import opened HmmChain
  import opened ScaledChain

  // ---------------------------------------------------------------------------
  // xi at one step
  // ---------------------------------------------------------------------------

  function XiRaw(c: Chain, n: nat, t: nat, i: nat): nat -> real
    requires t + 1 < n
  {
    (j: nat) => Hat(c, t, i) * c.step(i, j) * c.emit(t + 1, j) * BetaHat(c, n, t + 1, j)
  }

  function XiRow(c: Chain, n: nat, t: nat): nat -> real
    requires t + 1 < n
  {
    (i: nat) => StateSum(XiRaw(c, n, t, i), c.k)
  }

  /** The smoothed posterior of stepping from i to j at bar t. */
  function Xi(c: Chain, n: nat, t: nat, i: nat, j: nat): real
    requires t + 1 < n
  {
    Share(XiRaw(c, n, t, i)(j), StateSum(XiRow(c, n, t), c.k))
  }

  function XiAt(c: Chain, n: nat, t: nat, i: nat): nat -> real
    requires t + 1 < n
  {
    (j: nat) => Xi(c, n, t, i, j)
  }

  function CrossingRow(c: Chain, n: nat, t: nat, i: nat): nat -> real
    requires t + 1 < n
  {
    (j: nat) => Crossing(c, t, i, j, n)
  }

  /** The steps out of i at time t carry all the weight of being there. */
  lemma CrossingsAddUp(c: Chain, n: nat, t: nat, i: nat)
    requires t + 1 < n && i < c.k
    ensures StateSum(CrossingRow(c, n, t, i), c.k) == WeightAt(c, n, t, i)
  {
    var f, row, onward := Forward(c, t, i), CrossingRow(c, n, t, i), Onward(c, t, i, n - 1 - t);
    forall j | 0 <= j < c.k ensures row(j) == f * onward(j) {
      OnwardProduct(f, c.step(i, j), c.emit(t + 1, j), Backward(c, t + 1, j, n - 2 - t));
    }
    ScaleStates(onward, row, f, c.k);
    WeightAtFactors(c, n, t, i);
    assert f * Backward(c, t, i, n - 1 - t) == Backward(c, t, i, n - 1 - t) * f;
  }

  lemma FourScales(p: real, h: real, q: real, b: real, f: real, r: real, a: real, m: real, e: real, x: real)
    requires p * h == f && q * b == r && e == p * q && x == h * a * m * b
    ensures e * x == f * a * m * r
  {
    assert (p * q) * (h * a * m * b) == (p * h) * a * m * (q * b);
  }

  lemma XiScaled(c: Chain, n: nat, t: nat, i: nat, j: nat, p: real, q: real, e: real, h: real, b: real, x: real)
    requires Positive(c) && t + 1 < n && p == Evidence(c, t) && q == Tail(c, n, t + 1) && e == p * q
    requires h == Hat(c, t, i) && b == BetaHat(c, n, t + 1, j) && x == h * c.step(i, j) * c.emit(t + 1, j) * b
    ensures Crossing(c, t, i, j, n) == e * x
  {
    var f, r := Forward(c, t, i), Backward(c, t + 1, j, n - 2 - t);
    HatFact(c, t, i, p, h, f);
    BetaFact(c, n, t + 1, j, q, b, r);
    FourScales(p, h, q, b, f, r, c.step(i, j), c.emit(t + 1, j), e, x);
  }

  lemma OneXiScaled(c: Chain, n: nat, t: nat, i: nat, j: nat, p: real, q: real, e: real)
    requires Positive(c) && t + 1 < n && p == Evidence(c, t) && q == Tail(c, n, t + 1) && e == p * q
    ensures CrossingRow(c, n, t, i)(j) == e * XiRaw(c, n, t, i)(j)
  {
    XiScaled(c, n, t, i, j, p, q, e, Hat(c, t, i), BetaHat(c, n, t + 1, j), XiRaw(c, n, t, i)(j));
  }

  lemma AllXiScaled(c: Chain, n: nat, t: nat, i: nat, p: real, q: real, e: real)
    requires Positive(c) && t + 1 < n && p == Evidence(c, t) && q == Tail(c, n, t + 1) && e == p * q
    ensures forall j :: 0 <= j < c.k ==> CrossingRow(c, n, t, i)(j) == e * XiRaw(c, n, t, i)(j)
  {
    forall j | 0 <= j < c.k ensures CrossingRow(c, n, t, i)(j) == e * XiRaw(c, n, t, i)(j) {
      OneXiScaled(c, n, t, i, j, p, q, e);
    }
  }

  lemma XiRowScaled(c: Chain, n: nat, t: nat, i: nat, p: real, q: real, e: real)
    requires Positive(c) && t + 1 < n && i < c.k && p == Evidence(c, t) && q == Tail(c, n, t + 1) && e == p * q
    ensures WeightAt(c, n, t, i) == e * XiRow(c, n, t)(i)
  {
    AllXiScaled(c, n, t, i, p, q, e);
    ScaleStates(XiRaw(c, n, t, i), CrossingRow(c, n, t, i), e, c.k);
    CrossingsAddUp(c, n, t, i);
  }

  /** The normaliser of xi, unscaled, is the total weight of all paths. */
  lemma XiTotalScaled(c: Chain, n: nat, t: nat, p: real, q: real, e: real)
    requires Positive(c) && t + 1 < n && p == Evidence(c, t) && q == Tail(c, n, t + 1) && e == p * q
    ensures TotalWeight(c, n) == e * StateSum(XiRow(c, n, t), c.k) > 0.0
  {
    var f, g := XiRow(c, n, t), PartAt(c.k, n, t, WeightOf(c));
    forall i | 0 <= i < c.k ensures g(i) == e * f(i) {
      XiRowScaled(c, n, t, i, p, q, e);
    }
    ScaleStates(f, g, e, c.k);
    PartsAddUp(c.k, n, t, WeightOf(c));
    LikelihoodIsPathSum(c, n);
  }

  lemma CancelScale(e: real, x: real, sum: real, total: real, y: real)
    requires e > 0.0 && total == e * sum && total > 0.0 && y == e * x
    ensures Share(x, sum) * total == y
  {
    PositiveFactor(e, sum, total);
    ShareTimes(x, sum);
    assert Share(x, sum) * (e * sum) == e * (Share(x, sum) * sum);
  }

  lemma XiFact(c: Chain, n: nat, t: nat, i: nat, j: nat, e: real, x: real, w: real)
    requires Positive(c) && t + 1 < n && i < c.k && j < c.k && e == Evidence(c, t) * Tail(c, n, t + 1)
    requires x == XiRaw(c, n, t, i)(j) && w == Crossing(c, t, i, j, n)
    ensures w == e * x
  {
    AllXiScaled(c, n, t, i, Evidence(c, t), Tail(c, n, t + 1), e);
    assert w == CrossingRow(c, n, t, i)(j);
  }

  lemma XiTotalFact(c: Chain, n: nat, t: nat, e: real, sum: real, total: real)
    requires Positive(c) && t + 1 < n && e == Evidence(c, t) * Tail(c, n, t + 1)
    requires sum == StateSum(XiRow(c, n, t), c.k) && total == TotalWeight(c, n)
    ensures e > 0.0 && total == e * sum && total > 0.0
  {
    ScalesPositive(c, n, t, t + 1, e);
    XiTotalScaled(c, n, t, Evidence(c, t), Tail(c, n, t + 1), e);
  }

  lemma XiShare(c: Chain, n: nat, t: nat, i: nat, j: nat, x: real, sum: real, total: real, w: real)
    requires Positive(c) && t + 1 < n && i < c.k && j < c.k
    requires x == XiRaw(c, n, t, i)(j) && w == Crossing(c, t, i, j, n)
    requires sum == StateSum(XiRow(c, n, t), c.k) && total == TotalWeight(c, n)
    ensures Share(x, sum) * total == w
  {
    var e := Evidence(c, t) * Tail(c, n, t + 1);
    XiFact(c, n, t, i, j, e, x, w);
    XiTotalFact(c, n, t, e, sum, total);
    CancelScale(e, x, sum, total, w);
  }

  /** xi[t, i, j] is the share of all paths that step from i to j at time t. */
  lemma XiIsPosterior(c: Chain, n: nat, t: nat, i: nat, j: nat)
    requires Positive(c) && t + 1 < n && i < c.k && j < c.k
    ensures Xi(c, n, t, i, j) * TotalWeight(c, n) == WeightThrough(c, n, t, i, j)
  {
    XiShare(c, n, t, i, j, XiRaw(c, n, t, i)(j), StateSum(XiRow(c, n, t), c.k), TotalWeight(c, n),
            Crossing(c, t, i, j, n));
    WeightThroughFactors(c, n, t, i, j);
  }

  lemma EqualShares(a: real, b: real, total: real, w: real)
    requires total > 0.0 && w == a * total && w == b * total
    ensures a == b
  {
    ScaleOrder(total, a, b, w, w);
    ScaleOrder(total, b, a, w, w);
  }

  lemma OneXiShare(c: Chain, n: nat, t: nat, i: nat, j: nat, total: real)
    requires Positive(c) && t + 1 < n && i < c.k && j < c.k && total == TotalWeight(c, n)
    ensures CrossingRow(c, n, t, i)(j) == total * XiAt(c, n, t, i)(j)
  {
    XiShare(c, n, t, i, j, XiRaw(c, n, t, i)(j), StateSum(XiRow(c, n, t), c.k), total, Crossing(c, t, i, j, n));
  }

  lemma AllXiShare(c: Chain, n: nat, t: nat, i: nat, total: real)
    requires Positive(c) && t + 1 < n && i < c.k && total == TotalWeight(c, n)
    ensures forall j :: 0 <= j < c.k ==> CrossingRow(c, n, t, i)(j) == total * XiAt(c, n, t, i)(j)
  {
    forall j | 0 <= j < c.k ensures CrossingRow(c, n, t, i)(j) == total * XiAt(c, n, t, i)(j) {
      OneXiShare(c, n, t, i, j, total);
    }
  }

  lemma XiRowShare(c: Chain, n: nat, t: nat, i: nat, sum: real, total: real, w: real)
    requires Positive(c) && t + 1 < n && i < c.k
    requires sum == StateSum(XiAt(c, n, t, i), c.k) && total == TotalWeight(c, n) && w == WeightAt(c, n, t, i)
    ensures w == sum * total
  {
    AllXiShare(c, n, t, i, total);
    ScaleStates(XiAt(c, n, t, i), CrossingRow(c, n, t, i), total, c.k);
    CrossingsAddUp(c, n, t, i);
  }

  lemma GammaFact(c: Chain, n: nat, t: nat, i: nat, gamma: real, total: real, w: real)
    requires Positive(c) && t < n && i < c.k
    requires gamma == Gamma(c, n, t, i) && total == TotalWeight(c, n) && w == WeightAt(c, n, t, i)
    ensures w == gamma * total && total > 0.0
  {
    GammaIsPosterior(c, n, t, i);
    LikelihoodIsPathSum(c, n);
  }

  /** Summed over the next state, xi[t, i, .] is gamma[t, i]. */
  lemma XiRowsAreGamma(c: Chain, n: nat, t: nat, i: nat)
    requires Positive(c) && t + 1 < n && i < c.k
    ensures StateSum(XiAt(c, n, t, i), c.k) == Gamma(c, n, t, i)
  {
    var total, w := TotalWeight(c, n), WeightAt(c, n, t, i);
    var sum, gamma := StateSum(XiAt(c, n, t, i), c.k), Gamma(c, n, t, i);
    XiRowShare(c, n, t, i, sum, total, w);
    GammaFact(c, n, t, i, gamma, total, w);
    EqualShares(sum, gamma, total, w);
  }

  // ---------------------------------------------------------------------------
  // xi over the whole series
  // ---------------------------------------------------------------------------

  /** The expected number of steps from i to j among the first m. */
  function XiSum(c: Chain, n: nat, m: nat, i: nat, j: nat): real
    requires m < n
  {
    if m == 0 then 0.0 else XiSum(c, n, m - 1, i, j) + Xi(c, n, m - 1, i, j)
  }

  function XiSumAt(c: Chain, n: nat, m: nat, i: nat): nat -> real
    requires m < n
  {
    (j: nat) => XiSum(c, n, m, i, j)
  }

  /** The expected number of visits to i in the first m steps. */
  function Visits(c: Chain, n: nat, m: nat, i: nat): real
    requires m <= n
  {
    if m == 0 then 0.0 else Visits(c, n, m - 1, i) + Gamma(c, n, m - 1, i)
  }

  function VisitsAt(c: Chain, n: nat, m: nat): nat -> real
    requires m <= n
  {
    (i: nat) => Visits(c, n, m, i)
  }

  lemma {:induction false} AddStates(f: nat -> real, g: nat -> real, h: nat -> real, j: nat)
    requires forall i :: 0 <= i < j ==> h(i) == f(i) + g(i)
    ensures StateSum(h, j) == StateSum(f, j) + StateSum(g, j)
    decreases j
  {
    if j > 0 {
      AddStates(f, g, h, j - 1);
    }
  }

  lemma {:induction false} ZeroStates(f: nat -> real, j: nat)
    requires forall i :: 0 <= i < j ==> f(i) == 0.0
    ensures StateSum(f, j) == 0.0
    decreases j
  {
    if j > 0 {
      ZeroStates(f, j - 1);
    }
  }

  /** Expected transitions out of i are expected visits to i. */
  lemma {:induction false} TransitionsAreVisits(c: Chain, n: nat, m: nat, i: nat)
    requires Positive(c) && m < n && i < c.k
    ensures StateSum(XiSumAt(c, n, m, i), c.k) == Visits(c, n, m, i)
    decreases m
  {
    if m == 0 {
      ZeroStates(XiSumAt(c, n, 0, i), c.k);
    } else {
      TransitionsAreVisits(c, n, m - 1, i);
      XiRowsAreGamma(c, n, m - 1, i);
      AddStates(XiSumAt(c, n, m - 1, i), XiAt(c, n, m - 1, i), XiSumAt(c, n, m, i), c.k);
    }
  }

  /** All expected visits together number the steps. */
  lemma {:induction false} VisitsTotal(c: Chain, n: nat, m: nat)
    requires Positive(c) && m < n
    ensures StateSum(VisitsAt(c, n, m), c.k) == m as real
    decreases m
  {
    if m == 0 {
      ZeroStates(VisitsAt(c, n, 0), c.k);
    } else {
      VisitsTotal(c, n, m - 1);
      GammaSumsToOne(c, n, m - 1);
      AddStates(VisitsAt(c, n, m - 1), GammaAt(c, n, m - 1), VisitsAt(c, n, m), c.k);
    }
  }

  /** The row sums of the accumulated xi. */
  function XiSumRow(c: Chain, n: nat, m: nat): nat -> real
    requires m < n
  {
    (i: nat) => StateSum(XiSumAt(c, n, m, i), c.k)
  }

  /** Main result: the accumulated xi totals the steps taken, m after m steps and N - 1 over the
      whole series. */
  lemma TransitionsTotal(c: Chain, n: nat, m: nat)
    requires Positive(c) && m < n
    ensures StateSum(XiSumRow(c, n, m), c.k) == m as real
  {
    forall i | 0 <= i < c.k ensures XiSumRow(c, n, m)(i) == VisitsAt(c, n, m)(i) {
      TransitionsAreVisits(c, n, m, i);
    }
    SameStates(XiSumRow(c, n, m), VisitsAt(c, n, m), c.k);
    VisitsTotal(c, n, m);
  }

  // ---------------------------------------------------------------------------
  // The re-estimated transition matrix
  // ---------------------------------------------------------------------------

  const SMOOTHING: real := 0.000000000001

  function Smoothed(c: Chain, n: nat, i: nat): nat -> real
    requires n >= 1
  {
    (j: nat) => XiSum(c, n, n - 1, i, j) + SMOOTHING
  }

  /** The re-estimated probability of i -> j: the smoothed steps over their row's total. */
  function NewStep(c: Chain, n: nat, i: nat, j: nat): real
    requires n >= 1
  {
    Share(Smoothed(c, n, i)(j), StateSum(Smoothed(c, n, i), c.k))
  }

  function NewRow(c: Chain, n: nat, i: nat): nat -> real
    requires n >= 1
  {
    (j: nat) => NewStep(c, n, i, j)
  }

  lemma XiPositive(c: Chain, n: nat, t: nat, i: nat, j: nat)
    requires Positive(c) && t + 1 < n && i < c.k && j < c.k
    ensures Xi(c, n, t, i, j) > 0.0
  {
    XiIsPosterior(c, n, t, i, j);
    LikelihoodIsPathSum(c, n);
    WeightThroughFactors(c, n, t, i, j);
    ForwardPositive(c, t, i);
    BackwardPositive(c, t + 1, j, n - 2 - t);
    var x := Forward(c, t, i) * c.step(i, j);
    MulPos(Forward(c, t, i), c.step(i, j), x);
    var y := x * c.emit(t + 1, j);
    MulPos(x, c.emit(t + 1, j), y);
    MulPos(y, Backward(c, t + 1, j, n - 2 - t), Crossing(c, t, i, j, n));
    PositiveShare(Xi(c, n, t, i, j), TotalWeight(c, n), Crossing(c, t, i, j, n));
  }

  lemma PositiveShare(x: real, total: real, w: real)
    requires total > 0.0 && w == x * total && w > 0.0
    ensures x > 0.0
  {
    ScaleOrder(total, 0.0, x, 0.0, w);
  }

  lemma {:induction false} XiSumNonNegative(c: Chain, n: nat, m: nat, i: nat, j: nat)
    requires Positive(c) && m < n && i < c.k && j < c.k
    ensures XiSum(c, n, m, i, j) >= 0.0
    decreases m
  {
    if m > 0 {
      XiSumNonNegative(c, n, m - 1, i, j);
      XiPositive(c, n, m - 1, i, j);
    }
  }

  /** Normalising a positive vector gives a positive vector that sums to one. */
  lemma Normalise(f: nat -> real, g: nat -> real, k: nat)
    requires k >= 1 && forall i :: 0 <= i < k ==> f(i) > 0.0 && g(i) == Share(f(i), StateSum(f, k))
    ensures StateSum(g, k) == 1.0 && forall i :: 0 <= i < k ==> g(i) > 0.0
  {
    PositiveStates(f, k);
    var sum := StateSum(f, k);
    forall i | 0 <= i < k ensures f(i) == sum * g(i) && g(i) > 0.0 {
      ShareOfSum(f(i), sum, g(i));
    }
    ScaleStates(g, f, sum, k);
    UnitFactor(sum, StateSum(g, k), StateSum(f, k));
  }

  lemma ShareOfSum(x: real, sum: real, share: real)
    requires x > 0.0 && sum > 0.0 && share == Share(x, sum)
    ensures x == sum * share && share > 0.0
  {
    ShareTimes(x, sum);
    PositiveShare(share, sum, x);
  }

  /** The re-estimated transition matrix is again positive with unit rows, so the next
      forward-backward pass is defined. */
  lemma NewRowsAreStochastic(c: Chain, n: nat, i: nat)
    requires Positive(c) && n >= 1 && i < c.k
    ensures StateSum(NewRow(c, n, i), c.k) == 1.0
    ensures forall j :: 0 <= j < c.k ==> NewStep(c, n, i, j) > 0.0
  {
    forall j | 0 <= j < c.k ensures Smoothed(c, n, i)(j) > 0.0 {
      XiSumNonNegative(c, n, n - 1, i, j);
    }
    Normalise(Smoothed(c, n, i), NewRow(c, n, i), c.k);
    forall j | 0 <= j < c.k ensures NewStep(c, n, i, j) > 0.0 {
      assert NewRow(c, n, i)(j) > 0.0;
    }
  }

  function Constant(x: real): nat -> real {
    (j: nat) => x
  }

  lemma {:induction false} ConstantStates(x: real, j: nat)
    ensures StateSum(Constant(x), j) == j as real * x
    decreases j
  {
    if j > 0 {
      ConstantStates(x, j - 1);
      OneTermMore((j - 1) as real, j as real, x);
    }
  }

  lemma OneTermMore(before: real, count: real, x: real)
    requires count == before + 1.0
    ensures before * x + x == count * x
  {
  }

  lemma SmoothedPositive(c: Chain, n: nat, i: nat)
    requires Positive(c) && n >= 1 && i < c.k
    ensures StateSum(Smoothed(c, n, i), c.k) > 0.0
  {
    forall l | 0 <= l < c.k ensures Smoothed(c, n, i)(l) > 0.0 {
      XiSumNonNegative(c, n, n - 1, i, l);
    }
    PositiveStates(Smoothed(c, n, i), c.k);
  }

  /** The expected visits to state i before the last bar, with the smoothing of its row. */
  function SmoothedVisits(c: Chain, n: nat, i: nat): real
    requires n >= 1
  {
    Visits(c, n, n - 1, i) + c.k as real * SMOOTHING
  }

  lemma SmoothedTotal(c: Chain, n: nat, i: nat)
    requires Positive(c) && n >= 1 && i < c.k
    ensures StateSum(Smoothed(c, n, i), c.k) == SmoothedVisits(c, n, i)
  {
    TransitionsAreVisits(c, n, n - 1, i);
    ConstantStates(SMOOTHING, c.k);
    AddStates(XiSumAt(c, n, n - 1, i), Constant(SMOOTHING), Smoothed(c, n, i), c.k);
  }

  /** Baum-Welch: the new probability of i -> j is expected transitions over expected visits,
      up to the smoothing constant. */
  lemma NewStepIsExpectedRate(c: Chain, n: nat, i: nat, j: nat)
    requires Positive(c) && n >= 1 && i < c.k && j < c.k
    ensures SmoothedVisits(c, n, i) > 0.0
    ensures NewStep(c, n, i, j) == Share(XiSum(c, n, n - 1, i, j) + SMOOTHING, SmoothedVisits(c, n, i))
  {
    SmoothedTotal(c, n, i);
    SmoothedPositive(c, n, i);
  }
}
