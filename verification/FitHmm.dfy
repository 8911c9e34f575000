/** fit_hmm: where the estimation starts, and when it stops (research/volregime.py). */
module FitHmm {
  import opened Options
  import opened RealAlgebra
  import opened RealSeq
  import opened HmmChain
  import opened ScaledChain
  import opened Transitions
  import opened VolRegime
  import opened ModelWeights
  import opened BaumWelch
  import opened WeightedMoments
  import Admission

  // ---------------------------------------------------------------------------
  // Initial parameters
  // ---------------------------------------------------------------------------

  /** Where a level falls among the indices of n order statistics. */
  function Position(n: nat, level: real): (h: real)
    requires n >= 1 && 0.0 <= level <= 1.0
    ensures 0.0 <= h <= (n - 1) as real
  {
    var last := (n - 1) as real;
    var h := last * level;
    MulMono(last, 0.0, level, 0.0, h);
    MulMono(last, level, 1.0, h, last);
    h
  }

  function Between(a: real, b: real, weight: real): real {
    a + weight * (b - a)
  }

  function Interpolate(t: seq<real>, h: real): real
    requires t != [] && 0.0 <= h <= (|t| - 1) as real
  {
    var lo := h.Floor;
    if lo + 1 < |t| then Between(t[lo], t[lo + 1], h - lo as real) else t[|t| - 1]
  }

  /** np.quantile: linear interpolation between neighbouring order statistics. */
  function Quantile(x: seq<real>, level: real): real
    requires x != [] && 0.0 <= level <= 1.0
  {
    Admission.SortedSorts(x);
    Interpolate(Admission.Sorted(x), Position(|x|, level))
  }

  lemma MiddlePosition(n: nat)
    requires n >= 1
    ensures n % 2 == 1 ==> Position(n, 0.5) == (n / 2) as real
    ensures n % 2 == 0 ==> Position(n, 0.5) == (n / 2 - 1) as real + 0.5
  {
  }

  lemma HalfwayIsMiddle(t: seq<real>)
    requires t != []
    ensures Interpolate(t, Position(|t|, 0.5))
            == if |t| % 2 == 1 then t[|t| / 2] else (t[|t| / 2 - 1] + t[|t| / 2]) / 2.0
  {
    var h, half := Position(|t|, 0.5), |t| / 2;
    MiddlePosition(|t|);
    if |t| % 2 == 1 {
      assert h.Floor == half;
    } else {
      assert h.Floor == half - 1;
      BetweenEvenly(t[half - 1], t[half], h - (half - 1) as real);
    }
  }

  lemma BetweenEvenly(a: real, b: real, weight: real)
    requires weight == 0.5
    ensures Between(a, b, weight) == (a + b) / 2.0
  {
  }

  /** The quantile at one half is the median that the accuracy registry computes. */
  lemma HalfQuantileIsMedian(x: seq<real>)
    requires x != []
    ensures Quantile(x, 0.5) == Admission.Median(x)
  {
    Admission.SortedSorts(x);
    HalfwayIsMiddle(Admission.Sorted(x));
  }

  function SquaredDeviations(x: seq<real>, mean: real): seq<real> {
    seq(|x|, i requires 0 <= i < |x| => (x[i] - mean) * (x[i] - mean))
  }

  /** np.var: the mean squared deviation from the mean. */
  function Variance(x: seq<real>): real
    requires x != []
  {
    Share(Sum(SquaredDeviations(x, Share(Sum(x), |x| as real))), |x| as real)
  }

  lemma {:induction false} NonNegativeSum(a: seq<real>)
    requires forall i :: 0 <= i < |a| ==> a[i] >= 0.0
    ensures Sum(a) >= 0.0
    decreases |a|
  {
    if a != [] {
      NonNegativeSum(a[..|a| - 1]);
    }
  }

  lemma VarianceNonNegative(x: seq<real>)
    requires x != []
    ensures Variance(x) >= 0.0
  {
    var mean := Share(Sum(x), |x| as real);
    var squares := SquaredDeviations(x, mean);
    forall i | 0 <= i < |x| ensures squares[i] >= 0.0 {
      SquareSign(x[i] - mean, squares[i]);
    }
    NonNegativeSum(squares);
    DivNonNeg(Sum(squares), |x| as real, Variance(x));
  }

  /** The near-diagonal starting transition row of fit_hmm, before normalisation: 0.9 on the
      diagonal and 0.1 shared among the rest. */
  function RawStartRow(k: nat, i: nat): nat -> real {
    (j: nat) => if i == j then 0.9 else Share(0.1, (k - 1) as real)
  }

  function StartRow(k: nat, i: nat): nat -> real {
    (j: nat) => Share(RawStartRow(k, i)(j), StateSum(RawStartRow(k, i), k))
  }

  function StartHmm(mu: seq<real>, variance: real): Hmm {
    var k := |mu|;
    Hmm(mu, seq(k, _ => variance), seq(k, (i: nat) => seq(k, StartRow(k, i))), seq(k, _ => Share(1.0, k as real)))
  }

  lemma PositiveQuotient(x: real, total: real)
    requires x > 0.0 && total > 0.0
    ensures Share(x, total) > 0.0
  {
    DivPos(x, total, x / total);
  }

  lemma StartRowIsPositive(k: nat, i: nat)
    requires i < k
    ensures StateSum(StartRow(k, i), k) == 1.0 && forall j :: 0 <= j < k ==> StartRow(k, i)(j) > 0.0
  {
    var f := RawStartRow(k, i);
    forall j | 0 <= j < k ensures f(j) > 0.0 {
      if j != i {
        PositiveQuotient(0.1, (k - 1) as real);
      }
    }
    Normalise(f, StartRow(k, i), k);
  }

  lemma EqualShares(k: nat)
    requires k >= 1
    ensures StateSum(Constant(Share(1.0, k as real)), k) == 1.0
  {
    ConstantStates(Share(1.0, k as real), k);
    ShareTimes(1.0, k as real);
  }

  lemma StartHmmIsValid(mu: seq<real>, variance: real)
    requires |mu| >= 1 && variance > 0.0
    ensures ValidHmm(StartHmm(mu, variance)) && Stochastic(StartHmm(mu, variance))
  {
    var k, m := |mu|, StartHmm(mu, variance);
    PositiveQuotient(1.0, k as real);
    forall i | 0 <= i < k ensures |m.a[i]| == k && AllPositive(m.a[i]) && RowSum(m.a[i]) == 1.0 {
      StartRowIsPositive(k, i);
      forall j | 0 <= j < k ensures m.a[i][j] == StartRow(k, i)(j) > 0.0 {
      }
      RowSumIs(m.a[i], StartRow(k, i), k);
    }
    EqualShares(k);
    RowSumIs(m.pi, Constant(Share(1.0, k as real)), k);
  }

  /** The i-th of k quantile levels: np.linspace from half a step to one minus half a step. */
  function Level(k: nat, i: nat): (level: real)
    requires i < k
    ensures 0.0 < level < 1.0
  {
    var level := (i as real + 0.5) / k as real;
    DivPos(i as real + 0.5, k as real, level);
    DivOrder(i as real + 0.5, k as real, level, 1.0, k as real);
    level
  }

  function StartMean(x: seq<real>, jitter: seq<real>, i: nat): real
    requires x != [] && i < |jitter|
  {
    Quantile(x, Level(|jitter|, i)) + jitter[i]
  }

  /** The parameters before the first iteration, one state for each random jitter. */
  function StartOf(x: seq<real>, jitter: seq<real>): (m: Hmm)
    requires x != []
    ensures |m.mu| == |m.vars| == |jitter|
  {
    StartHmm(seq(|jitter|, i requires 0 <= i < |jitter| => StartMean(x, jitter, i)), Variance(x) + VARIANCE_FLOOR)
  }

  /** fit_hmm starts inside the domain, whatever the series and the jitter: every variance is
      positive, and the initial distribution and every transition row sum to one. */
  lemma StartIsValid(x: seq<real>, jitter: seq<real>)
    requires x != [] && jitter != []
    ensures ValidHmm(StartOf(x, jitter)) && Stochastic(StartOf(x, jitter))
  {
    VarianceNonNegative(x);
    StartHmmIsValid(StartOf(x, jitter).mu, Variance(x) + VARIANCE_FLOOR);
  }

  // ---------------------------------------------------------------------------
  // The loop
  // ---------------------------------------------------------------------------

  /** The likelihood of the series under the parameters after some iterations. */
  function LikelihoodAfter(density: Density, start: Hmm, x: seq<real>, iterations: nat): real
    requires |x| >= 1 && |start.mu| == |start.vars| >= 1
  {
    Evidence(ChainOf(density, EmIterate(density, start, x, iterations), x), |x| - 1)
  }

  /** The last two likelihoods that the given number of iterations computed are close. */
  predicate Settled(density: Density, ln: real -> real, tol: real, start: Hmm, x: seq<real>, iterations: nat)
    requires |x| >= 1 && |start.mu| == |start.vars| >= 1
  {
    iterations >= 2 && Abs(ln(LikelihoodAfter(density, start, x, iterations - 1))
                           - ln(LikelihoodAfter(density, start, x, iterations - 2))) < tol
  }

  /** No number of iterations up to the given one settles. */
  ghost predicate Unsettled(density: Density, ln: real -> real, tol: real, start: Hmm, x: seq<real>, iterations: nat)
    requires |x| >= 1 && |start.mu| == |start.vars| >= 1
  {
    forall t: nat :: t <= iterations ==> !Settled(density, ln, tol, start, x, t)
  }

  /** What the loop compares decides whether the next iteration settles. */
  lemma SettledNext(density: Density, ln: real -> real, tol: real, start: Hmm, x: seq<real>, i: nat,
          before: real, now: real)
    requires |x| >= 1 && |start.mu| == |start.vars| >= 1 && Unsettled(density, ln, tol, start, x, i)
    requires now == ln(LikelihoodAfter(density, start, x, i))
    requires i > 0 ==> before == ln(LikelihoodAfter(density, start, x, i - 1))
    ensures Settled(density, ln, tol, start, x, i + 1) <==> i > 0 && Abs(now - before) < tol
    ensures !Settled(density, ln, tol, start, x, i + 1) ==> Unsettled(density, ln, tol, start, x, i + 1)
  {
  }

  /** Where the loop stops: after the first iteration that settles, or after nIter. */
  ghost predicate StopsAt(density: Density, ln: real -> real, tol: real, start: Hmm, x: seq<real>, nIter: nat, n: nat)
    requires |x| >= 1 && |start.mu| == |start.vars| >= 1
  {
    && n <= nIter && (n < nIter ==> Settled(density, ln, tol, start, x, n))
    && (n > 0 ==> Unsettled(density, ln, tol, start, x, n - 1))
  }

  /** What the loop knows after the given number of iterations, none of which settled. */
  ghost predicate Running(density: Density, ln: real -> real, tol: real, start: Hmm, x: seq<real>,
          m: Hmm, before: real, iterations: nat)
    requires |x| >= 1 && |start.mu| == |start.vars| >= 1
  {
    && m == EmIterate(density, start, x, iterations) && ValidHmm(m) && Stochastic(m)
    && Unsettled(density, ln, tol, start, x, iterations)
    && (iterations > 0 ==> before == ln(LikelihoodAfter(density, start, x, iterations - 1)))
  }

  lemma RunsOn(density: Density, ln: real -> real, tol: real, start: Hmm, x: seq<real>, m: Hmm, before: real, i: nat,
          next: Hmm, now: real)
    requires PositiveDensity(density) && ValidHmm(start) && |x| >= 1
    requires Running(density, ln, tol, start, x, m, before, i)
    requires next == EmStep(density, m, x) && now == ln(Evidence(ChainOf(density, m, x), |x| - 1))
    ensures next == EmIterate(density, start, x, i + 1) && ValidHmm(next) && Stochastic(next)
    ensures i > 0 && Abs(now - before) < tol ==> Settled(density, ln, tol, start, x, i + 1)
    ensures !(i > 0 && Abs(now - before) < tol) ==> Running(density, ln, tol, start, x, next, now, i + 1)
  {
    NextIterate(density, start, x, i);
    SettledNext(density, ln, tol, start, x, i, before, now);
  }

  /** One iteration, and whether it is the last. */
  method Iterate(density: Density, ln: real -> real, tol: real, ghost start: Hmm, x: seq<real>, m: Hmm, before: real,
          i: nat)
    returns (next: Hmm, now: real, stop: bool)
    requires PositiveDensity(density) && ValidHmm(start) && |x| >= 1
    requires Running(density, ln, tol, start, x, m, before, i)
    ensures next == EmIterate(density, start, x, i + 1) && ValidHmm(next) && Stochastic(next)
    ensures stop ==> Settled(density, ln, tol, start, x, i + 1)
    ensures !stop ==> Running(density, ln, tol, start, x, next, now, i + 1)
  {
    var likelihood;
    next, likelihood := EmIteration(density, m, x);
    now := ln(likelihood);
    stop := i > 0 && Abs(now - before) < tol;
    RunsOn(density, ln, tol, start, x, m, before, i, next, now);
  }

  lemma StopsWhenSettled(density: Density, ln: real -> real, tol: real, start: Hmm, x: seq<real>, m: Hmm, before: real,
          nIter: nat, i: nat)
    requires |x| >= 1 && |start.mu| == |start.vars| >= 1 && Running(density, ln, tol, start, x, m, before, i)
    ensures i < nIter && Settled(density, ln, tol, start, x, i + 1)
            ==> StopsAt(density, ln, tol, start, x, nIter, i + 1)
    ensures i == nIter ==> StopsAt(density, ln, tol, start, x, nIter, i)
  {
  }

  /** The loop of fit_hmm. */
  method Estimate(density: Density, ln: real -> real, start: Hmm, x: seq<real>, nIter: nat, tol: real)
    returns (m: Hmm, iterations: nat)
    requires PositiveDensity(density) && ValidHmm(start) && Stochastic(start) && |x| >= 1
    ensures m == EmIterate(density, start, x, iterations) && ValidHmm(m) && Stochastic(m)
    ensures StopsAt(density, ln, tol, start, x, nIter, iterations)
  {
    m, iterations := start, 0;
    var before := 0.0;
    while iterations < nIter
      invariant iterations <= nIter && Running(density, ln, tol, start, x, m, before, iterations)
    {
      var next, now, stop := Iterate(density, ln, tol, start, x, m, before, iterations);
      StopsWhenSettled(density, ln, tol, start, x, m, before, nIter, iterations);
      m, before, iterations := next, now, iterations + 1;
      if stop {
        return;
      }
    }
    StopsWhenSettled(density, ln, tol, start, x, m, before, nIter, iterations);
  }

  /** fit_hmm: no fit on fewer than ten observations; otherwise the parameters after nIter
      iterations, or after the first iteration that settles if that comes sooner. */
  method FitHmm(density: Density, ln: real -> real, x: seq<real>, jitter: seq<real>, nIter: nat, tol: real)
    returns (fit: Option<Hmm>, iterations: nat)
    requires PositiveDensity(density) && jitter != []
    ensures fit.None? <==> |x| < 10
    ensures fit.Some? ==>
              var start := StartOf(x, jitter);
              && fit.value == EmIterate(density, start, x, iterations)
              && ValidHmm(fit.value) && Stochastic(fit.value)
              && StopsAt(density, ln, tol, start, x, nIter, iterations)
  {
    if |x| < 10 {
      return None, 0;
    }
    StartIsValid(x, jitter);
    var m;
    m, iterations := Estimate(density, ln, StartOf(x, jitter), x, nIter, tol);
    fit := Some(m);
  }

  // ---------------------------------------------------------------------------
  // What the start and the likelihood are
  // ---------------------------------------------------------------------------

  /** The k levels are evenly spaced, and as far from zero as from one. */
  lemma LevelsAreEven(k: nat, i: nat)
    requires i < k
    ensures Level(k, i) + Level(k, k - 1 - i) == 1.0
    ensures i + 1 < k ==> (Level(k, i + 1) - Level(k, i)) * k as real == 1.0
  {
    var n, a, b := k as real, Level(k, i), Level(k, k - 1 - i);
    DivMul(i as real + 0.5, n, a);
    DivMul((k - 1 - i) as real + 0.5, n, b);
    Distribute(n, a, b);
    ScaleOrder(n, a + b, 1.0, n * (a + b), n);
    ScaleOrder(n, 1.0, a + b, n, n * (a + b));
    if i + 1 < k {
      DivMul((i + 1) as real + 0.5, n, Level(k, i + 1));
    }
  }

  lemma NoWeight(a: real, b: real, weight: real)
    requires weight == 0.0
    ensures Between(a, b, weight) == a
  {
  }

  lemma FullWeight(a: real, b: real, weight: real)
    requires weight == 1.0
    ensures Between(a, b, weight) == b
  {
  }

  /** At j steps out of n - 1 the quantile is the j-th order statistic. */
  lemma QuantileAtOrder(x: seq<real>, j: nat, level: real)
    requires j < |x| && 0.0 <= level <= 1.0 && level * (|x| - 1) as real == j as real
    ensures |Admission.Sorted(x)| == |x| && Quantile(x, level) == Admission.Sorted(x)[j]
  {
    Admission.SortedSorts(x);
    assert Position(|x|, level) == j as real;
    assert (j as real).Floor == j;
    var t := Admission.Sorted(x);
    if j + 1 < |x| {
      NoWeight(t[j], t[j + 1], j as real - j as real);
    }
  }

  /** y lies the given part of the way from one value to the other. */
  ghost predicate OnLine(y: real, a: real, b: real, part: real) {
    y - a == part * (b - a)
  }

  lemma BetweenOnLine(a: real, b: real, part: real)
    ensures OnLine(Between(a, b, part), a, b, part)
  {
  }

  lemma InterpolateBetween(t: seq<real>, j: nat, h: real)
    requires j + 1 < |t| && j as real <= h <= (j + 1) as real
    ensures Interpolate(t, h) == Between(t[j], t[j + 1], h - j as real)
  {
    if h == (j + 1) as real {
      FullWeight(t[j], t[j + 1], h - j as real);
      if j + 2 < |t| {
        NoWeight(t[j + 1], t[j + 2], h - h.Floor as real);
      }
    } else {
      assert h.Floor == j;
    }
  }

  lemma QuantileIs(x: seq<real>, level: real, h: real)
    requires x != [] && 0.0 <= level <= 1.0 && h == level * (|x| - 1) as real
    ensures |Admission.Sorted(x)| == |x| && 0.0 <= h <= (|x| - 1) as real
    ensures Quantile(x, level) == Interpolate(Admission.Sorted(x), h)
  {
    Admission.SortedSorts(x);
    assert Position(|x|, level) == h;
  }

  /** From one order statistic to the next the quantile grows in proportion to the level. */
  lemma QuantileInterpolates(x: seq<real>, j: nat, level: real, h: real)
    requires j + 1 < |x| && 0.0 <= level <= 1.0
    requires h == level * (|x| - 1) as real && j as real <= h <= (j + 1) as real
    ensures |Admission.Sorted(x)| == |x|
    ensures OnLine(Quantile(x, level), Admission.Sorted(x)[j], Admission.Sorted(x)[j + 1], h - j as real)
  {
    QuantileIs(x, level, h);
    InterpolateBetween(Admission.Sorted(x), j, h);
    BetweenOnLine(Admission.Sorted(x)[j], Admission.Sorted(x)[j + 1], h - j as real);
  }

  /** The 0.9 of the raw row and its remaining tenth already add up to one. */
  lemma {:induction false} RawRowSum(k: nat, i: nat, j: nat, off: real)
    requires i < k && k >= 2 && j <= k && off == Share(0.1, (k - 1) as real)
    ensures StateSum(RawStartRow(k, i), j)
            == if i < j then 0.9 + StateSum(Constant(off), j - 1) else StateSum(Constant(off), j)
    decreases j
  {
    if j > 0 {
      RawRowSum(k, i, j - 1, off);
    }
  }

  /** A state starts out staying where it is nine times in ten, and moves to every other state
      equally often; a single state always stays. */
  lemma StartStays(mu: seq<real>, variance: real, i: nat, j: nat)
    requires i < |mu| && j < |mu|
    ensures i < |StartHmm(mu, variance).a| && j < |StartHmm(mu, variance).a[i]|
    ensures |mu| >= 2 && i == j ==> StartHmm(mu, variance).a[i][j] == 0.9
    ensures |mu| >= 2 && i != j ==> StartHmm(mu, variance).a[i][j] * (|mu| - 1) as real == 0.1
    ensures |mu| == 1 ==> StartHmm(mu, variance).a[i][j] == 1.0
  {
    var k := |mu|;
    if k >= 2 {
      var off := Share(0.1, (k - 1) as real);
      ShareTimes(0.1, (k - 1) as real);
      RawRowSum(k, i, k, off);
      ConstantStates(off, k - 1);
      UnitTotal(RawStartRow(k, i)(j), StateSum(RawStartRow(k, i), k));
    } else {
      assert StateSum(RawStartRow(1, 0), 1) == StateSum(RawStartRow(1, 0), 0) + RawStartRow(1, 0)(0);
    }
  }

  lemma UnitTotal(x: real, total: real)
    requires total == 1.0
    ensures Share(x, total) == x
  {
  }

  function ValueAt(x: seq<real>): nat -> real {
    (u: nat) => if u < |x| then x[u] else 0.0
  }

  lemma {:induction false} SumOfValues(x: seq<real>, f: nat -> real, t: nat)
    requires t <= |x| && forall u: nat :: u < |x| ==> f(u) == x[u]
    ensures StateSum(f, t) == Sum(x[..t])
    decreases t
  {
    if t > 0 {
      SumOfValues(x, f, t - 1);
      assert x[..t][..t - 1] == x[..t - 1];
    }
  }

  lemma OneSquare(x: seq<real>, mean: real, u: nat)
    requires u < |x|
    ensures ScatterAt(Constant(1.0), x, mean)(u) == SquaredDeviations(x, mean)[u]
  {
    var dd := (x[u] - mean) * (x[u] - mean);
    assert 1.0 * dd == dd;
  }

  lemma SquaresAddUp(x: seq<real>, mean: real)
    ensures Scatter(Constant(1.0), x, mean) == Sum(SquaredDeviations(x, mean))
  {
    forall u: nat | u < |x| ensures ScatterAt(Constant(1.0), x, mean)(u) == SquaredDeviations(x, mean)[u] {
      OneSquare(x, mean, u);
    }
    SumOfValues(SquaredDeviations(x, mean), ScatterAt(Constant(1.0), x, mean), |x|);
    assert SquaredDeviations(x, mean)[..|x|] == SquaredDeviations(x, mean);
  }

  lemma VarianceIsScatter(x: seq<real>, mean: real)
    requires x != [] && mean == Share(Sum(x), |x| as real)
    ensures Fits(Variance(x), |x| as real, Scatter(Constant(1.0), x, mean))
  {
    SquaresAddUp(x, mean);
    ShareFits(Sum(SquaredDeviations(x, mean)), |x| as real);
  }

  lemma ShareFits(x: real, total: real)
    requires total != 0.0
    ensures Fits(Share(x, total), total, x)
  {
    ShareTimes(x, total);
  }

  /** The initial variance is the mean squared distance from the mean, and no other centre has a
      smaller one. */
  lemma VarianceIsLeast(x: seq<real>, other: real)
    requires x != []
    ensures Fits(Variance(x), |x| as real, Scatter(Constant(1.0), x, Share(Sum(x), |x| as real)))
    ensures Scatter(Constant(1.0), x, Share(Sum(x), |x| as real)) <= Scatter(Constant(1.0), x, other)
  {
    var one, f, mean := Constant(1.0), ValueAt(x), Share(Sum(x), |x| as real);
    VarianceIsScatter(x, mean);
    SumOfValues(x, f, |x|);
    assert x[..|x|] == x;
    ConstantStates(1.0, |x|);
    MeanBalances(one, one, f, x, 1.0, mean);
    BalanceIsBest(one, x, mean, other);
  }

  /** 2i + 1 parts in 2k of the way through n order statistics lies the j-th. */
  ghost predicate AtOrder(k: nat, i: nat, n: nat, j: nat) {
    (2 * i + 1) * (n - 1) == 2 * k * j
  }

  lemma LevelPosition(k: nat, i: nat, n: nat, j: nat)
    requires i < k && n >= 1 && AtOrder(k, i, n, j)
    ensures Level(k, i) * (n - 1) as real == j as real
  {
    var level, kk, nn, odd := Level(k, i), k as real, (n - 1) as real, (2 * i + 1) as real;
    DivMul(i as real + 0.5, kk, level);
    assert 2.0 * (level * kk) == odd;
    assert odd * nn == 2.0 * kk * j as real;
    assert 2.0 * kk * (level * nn) == 2.0 * kk * j as real;
  }

  lemma MeanAtOrder(x: seq<real>, jitter: seq<real>, i: nat, j: nat)
    requires i < |jitter| && j < |x| && AtOrder(|jitter|, i, |x|, j)
    ensures |Admission.Sorted(x)| == |x| && StartOf(x, jitter).mu[i] - jitter[i] == Admission.Sorted(x)[j]
  {
    LevelPosition(|jitter|, i, |x|, j);
    QuantileAtOrder(x, j, Level(|jitter|, i));
  }

  lemma StartSpreads(x: seq<real>, jitter: seq<real>, i: nat)
    requires x != [] && i < |jitter|
    ensures Fits(StartOf(x, jitter).vars[i] - VARIANCE_FLOOR, |x| as real,
                 Scatter(Constant(1.0), x, Share(Sum(x), |x| as real)))
  {
    VarianceIsScatter(x, Share(Sum(x), |x| as real));
    assert StartOf(x, jitter).vars[i] == Variance(x) + VARIANCE_FLOOR;
  }

  lemma StartEvenly(x: seq<real>, jitter: seq<real>, i: nat)
    requires x != [] && i < |jitter|
    ensures i < |StartOf(x, jitter).pi| && StartOf(x, jitter).pi[i] * |jitter| as real == 1.0
  {
    ShareTimes(1.0, |jitter| as real);
  }

  /** The start read off the series. The i-th of k means, less its jitter, is the order statistic
      at 2i + 1 parts in 2k of the way, where there is one; every variance, less the floor, is the
      mean squared distance from the mean; and every state is equally likely at first. */
  lemma StartReadsTheSeries(x: seq<real>, jitter: seq<real>, i: nat)
    requires x != [] && i < |jitter|
    ensures i < |StartOf(x, jitter).pi| && |Admission.Sorted(x)| == |x|
    ensures forall j: nat :: j < |x| && AtOrder(|jitter|, i, |x|, j) ==>
              StartOf(x, jitter).mu[i] - jitter[i] == Admission.Sorted(x)[j]
    ensures Fits(StartOf(x, jitter).vars[i] - VARIANCE_FLOOR, |x| as real,
                 Scatter(Constant(1.0), x, Share(Sum(x), |x| as real)))
    ensures StartOf(x, jitter).pi[i] * |jitter| as real == 1.0
  {
    Admission.SortedSorts(x);
    forall j: nat | j < |x| && AtOrder(|jitter|, i, |x|, j)
      ensures StartOf(x, jitter).mu[i] - jitter[i] == Admission.Sorted(x)[j]
    {
      MeanAtOrder(x, jitter, i, j);
    }
    StartSpreads(x, jitter, i);
    StartEvenly(x, jitter, i);
  }

  /** The jitter moves every mean by itself and changes nothing else. */
  lemma JitterMovesTheMeans(x: seq<real>, jitter: seq<real>, other: seq<real>, i: nat)
    requires x != [] && i < |jitter| == |other|
    ensures StartOf(x, jitter).mu[i] - StartOf(x, other).mu[i] == jitter[i] - other[i]
    ensures StartOf(x, jitter).(mu := []) == StartOf(x, other).(mu := [])
  {
    var m, n := StartOf(x, jitter), StartOf(x, other);
    assert m.vars == n.vars && m.pi == n.pi && m.a == n.a;
  }

  /** The likelihood after some iterations is the summed weight of all paths under those
      parameters. */
  lemma LikelihoodIsTotal(density: Density, start: Hmm, x: seq<real>, iterations: nat)
    requires PositiveDensity(density) && ValidHmm(start) && |x| >= 1
    ensures LikelihoodAfter(density, start, x, iterations)
            == Total(density, EmIterate(density, start, x, iterations), x, |x|) > 0.0
  {
    EmKeepsValid(density, start, x, iterations);
    LikelihoodOfModel(density, EmIterate(density, start, x, iterations), x, |x|);
  }
}
