/** What one Baum-Welch iteration estimates, in terms of the model's own path weights
    (research/volregime.py, the M-step of fit_hmm). */
module EmLaws {
  import opened HmmChain
  import opened ScaledChain
  import opened Transitions
  import opened VolRegime
  import opened ModelWeights
  import opened BaumWelch
  import opened WeightedMoments

  /** The weight of the paths that are in state s, bar by bar. */
  ghost function InState(density: Density, m: Hmm, x: seq<real>, s: nat): nat -> real {
    (t: nat) => At(density, m, x, |x|, t, s)
  }

  /** The same, added up over the first t bars. */
  ghost function Occupied(density: Density, m: Hmm, x: seq<real>, s: nat, t: nat): real {
    StateSum(InState(density, m, x, s), t)
  }

  // ---------------------------------------------------------------------------
  // Start and transitions
  // ---------------------------------------------------------------------------

  lemma UnitShare(x: real)
    ensures Share(x, 1.0) == x
  {
  }

  lemma NewStart(density: Density, m: Hmm, x: seq<real>, s: nat)
    requires PositiveDensity(density) && ValidHmm(m) && |x| >= 1 && s < |m.mu|
    ensures EmStep(density, m, x).pi[s] == Gamma(ChainOf(density, m, x), |x|, 0, s)
  {
    var c := ChainOf(density, m, x);
    ChainIsPositive(density, m, x);
    GammaSumsToOne(c, |x|, 0);
    UnitShare(Gamma(c, |x|, 0, s));
    assert EmStep(density, m, x).pi[s] == Share(Gamma(c, |x|, 0, s), StateSum(GammaAt(c, |x|, 0), |m.mu|));
  }

  /** Main result: the new start is the share of the paths that start there. */
  lemma StartIsExpected(density: Density, m: Hmm, x: seq<real>, s: nat)
    requires PositiveDensity(density) && ValidHmm(m) && |x| >= 1 && s < |m.mu|
    ensures IsShare(EmStep(density, m, x).pi[s], At(density, m, x, |x|, 0, s), Total(density, m, x, |x|))
  {
    NewStart(density, m, x, s);
    GammaOfModel(density, m, x, 0, s);
  }

  lemma {:induction false} VisitsOfModel(density: Density, m: Hmm, x: seq<real>, i: nat, t: nat)
    requires PositiveDensity(density) && ValidHmm(m) && t <= |x| && |x| >= 1 && i < |m.mu|
    ensures IsShare(Visits(ChainOf(density, m, x), |x|, t, i), Occupied(density, m, x, i, t), Total(density, m, x, |x|))
    decreases t
  {
    var c, total := ChainOf(density, m, x), Total(density, m, x, |x|);
    LikelihoodOfModel(density, m, x, |x|);
    if t > 0 {
      VisitsOfModel(density, m, x, i, t - 1);
      GammaOfModel(density, m, x, t - 1, i);
      SharesAdd(Visits(c, |x|, t - 1, i), Gamma(c, |x|, t - 1, i), total);
    } else {
      assert 0.0 * total == 0.0;
    }
  }

  /** rate is steps over visits, each raised by the smoothing; k entries of the row are. */
  ghost predicate IsRate(rate: real, steps: real, visits: real, k: real, smooth: real) {
    rate * (visits + k * smooth) == steps + smooth
  }

  lemma RateScales(rate: real, steps: real, visits: real, k: real, smooth: real, total: real, sw: real, vw: real,
          scaled: real)
    requires IsRate(rate, steps, visits, k, smooth) && scaled == smooth * total
    requires IsShare(steps, sw, total) && IsShare(visits, vw, total)
    ensures IsRate(rate, sw, vw, k, scaled)
  {
    var all := visits + k * smooth;
    assert vw + k * scaled == all * total;
    assert (rate * all) * total == rate * (all * total);
    assert (steps + smooth) * total == sw + scaled;
  }

  lemma NewRate(c: Chain, n: nat, i: nat, j: nat, k: real)
    requires Positive(c) && n >= 1 && i < c.k && j < c.k && k == c.k as real
    ensures IsRate(NewStep(c, n, i, j), XiSum(c, n, n - 1, i, j), Visits(c, n, n - 1, i), k, SMOOTHING)
  {
    NewStepIsExpectedRate(c, n, i, j);
    ShareTimes(XiSum(c, n, n - 1, i, j) + SMOOTHING, SmoothedVisits(c, n, i));
  }

  lemma NewEntry(density: Density, m: Hmm, x: seq<real>, i: nat, j: nat)
    requires |x| >= 1 && |m.mu| == |m.vars| && i < |m.mu| && j < |m.mu|
    ensures var a := EmStep(density, m, x).a;
            i < |a| && j < |a[i]| && a[i][j] == NewStep(ChainOf(density, m, x), |x|, i, j)
  {
  }

  /** Main result: the new probability of i -> j is the weight of the paths that step from i to j
      over the weight of being in i before the last bar, up to the smoothing. */
  lemma TransitionIsExpected(density: Density, m: Hmm, x: seq<real>, i: nat, j: nat)
    requires PositiveDensity(density) && ValidHmm(m) && |x| >= 1 && i < |m.mu| && j < |m.mu|
    ensures var a := EmStep(density, m, x).a;
            && i < |a| && j < |a[i]| && Total(density, m, x, |x|) > 0.0
            && IsRate(a[i][j], Steps(density, m, x, |x| - 1, i, j), Occupied(density, m, x, i, |x| - 1),
                      |m.mu| as real, SMOOTHING * Total(density, m, x, |x|))
  {
    var c := ChainOf(density, m, x);
    ChainIsPositive(density, m, x);
    XiOfModel(density, m, x, |x| - 1, i, j);
    VisitsOfModel(density, m, x, i, |x| - 1);
    NewEntry(density, m, x, i, j);
    NewRate(c, |x|, i, j, |m.mu| as real);
    RateScales(NewStep(c, |x|, i, j), XiSum(c, |x|, |x| - 1, i, j), Visits(c, |x|, |x| - 1, i), |m.mu| as real,
               SMOOTHING, Total(density, m, x, |x|), Steps(density, m, x, |x| - 1, i, j),
               Occupied(density, m, x, i, |x| - 1), SMOOTHING * Total(density, m, x, |x|));
  }

  // ---------------------------------------------------------------------------
  // Means and variances
  // ---------------------------------------------------------------------------

  lemma ColumnsOfModel(density: Density, m: Hmm, x: seq<real>, s: nat)
    requires PositiveDensity(density) && ValidHmm(m) && |x| >= 1 && s < |m.mu|
    ensures var c, g := ChainOf(density, m, x), GammaColumn(ChainOf(density, m, x), |x|, s);
            && Weighs(InState(density, m, x, s), g, |x|, Total(density, m, x, |x|))
            && Weighted(g, WeightedColumn(c, |x|, s, x), x)
  {
    forall t: nat | t < |x|
      ensures InState(density, m, x, s)(t)
              == Total(density, m, x, |x|) * GammaColumn(ChainOf(density, m, x), |x|, s)(t)
    {
      GammaOfModel(density, m, x, t, s);
    }
  }

  lemma SpreadIsScatter(c: Chain, x: seq<real>, s: nat, mu: real)
    ensures StateSum(SpreadColumn(c, |x|, s, x, mu), |x|) == Scatter(GammaColumn(c, |x|, s), x, mu)
  {
    SameStates(SpreadColumn(c, |x|, s, x, mu), ScatterAt(GammaColumn(c, |x|, s), x, mu), |x|);
  }

  lemma NewMoments(density: Density, m: Hmm, x: seq<real>, s: nat)
    requires |x| >= 1 && |m.mu| == |m.vars| && s < |m.mu|
    ensures var e, c := EmStep(density, m, x), ChainOf(density, m, x);
            && s < |e.mu| == |e.vars|
            && e.mu[s] == NewMu(c, |x|, s, x, m.mu[s]) && e.vars[s] == NewVar(c, |x|, s, x, m.vars[s], e.mu[s])
  {
  }

  /** Being in the state counts for at least MIN_WEIGHT bars. */
  ghost predicate Visited(density: Density, m: Hmm, x: seq<real>, s: nat) {
    Occupied(density, m, x, s, |x|) >= Total(density, m, x, |x|) * MIN_WEIGHT
  }

  lemma VisitedExactlyWhen(density: Density, m: Hmm, x: seq<real>, s: nat)
    requires PositiveDensity(density) && ValidHmm(m) && |x| >= 1 && s < |m.mu|
    ensures Visited(density, m, x, s) <==> StateSum(GammaColumn(ChainOf(density, m, x), |x|, s), |x|) >= MIN_WEIGHT
  {
    var g, total := GammaColumn(ChainOf(density, m, x), |x|, s), Total(density, m, x, |x|);
    LikelihoodOfModel(density, m, x, |x|);
    ColumnsOfModel(density, m, x, s);
    MassAgainst(InState(density, m, x, s), g, |x|, total, MIN_WEIGHT, total * MIN_WEIGHT);
  }

  /** A state that is hardly ever visited keeps its mean and variance. */
  lemma UnvisitedKeeps(density: Density, m: Hmm, x: seq<real>, s: nat)
    requires PositiveDensity(density) && ValidHmm(m) && |x| >= 1 && s < |m.mu| && !Visited(density, m, x, s)
    ensures var e := EmStep(density, m, x);
            s < |e.mu| == |e.vars| && e.mu[s] == m.mu[s] && e.vars[s] == m.vars[s]
  {
    VisitedExactlyWhen(density, m, x, s);
    NewMoments(density, m, x, s);
  }

  lemma MeanBalancesModel(density: Density, m: Hmm, x: seq<real>, s: nat)
    requires PositiveDensity(density) && ValidHmm(m) && |x| >= 1 && s < |m.mu| && Visited(density, m, x, s)
    ensures Pull(InState(density, m, x, s), x, NewMu(ChainOf(density, m, x), |x|, s, x, m.mu[s])) == 0.0
  {
    var c := ChainOf(density, m, x);
    var g, f := GammaColumn(c, |x|, s), WeightedColumn(c, |x|, s, x);
    VisitedExactlyWhen(density, m, x, s);
    ColumnsOfModel(density, m, x, s);
    MeanBalances(InState(density, m, x, s), g, f, x, Total(density, m, x, |x|), NewMu(c, |x|, s, x, m.mu[s]));
  }

  lemma VarianceFitsModel(density: Density, m: Hmm, x: seq<real>, s: nat, mu: real)
    requires PositiveDensity(density) && ValidHmm(m) && |x| >= 1 && s < |m.mu| && Visited(density, m, x, s)
    ensures Fits(NewVar(ChainOf(density, m, x), |x|, s, x, m.vars[s], mu) - VARIANCE_FLOOR,
                 Occupied(density, m, x, s, |x|), Scatter(InState(density, m, x, s), x, mu))
  {
    var c := ChainOf(density, m, x);
    var g := GammaColumn(c, |x|, s);
    VisitedExactlyWhen(density, m, x, s);
    ColumnsOfModel(density, m, x, s);
    SpreadIsScatter(c, x, s, mu);
    VarianceFits(InState(density, m, x, s), g, x, Total(density, m, x, |x|), mu,
                 NewVar(c, |x|, s, x, m.vars[s], mu) - VARIANCE_FLOOR);
  }

  /** Main result: for a visited state the new mean is where the pulls of its observations balance,
      and the new variance, less the floor, is their weighted mean squared distance from it. */
  lemma MomentsAreExpected(density: Density, m: Hmm, x: seq<real>, s: nat)
    requires PositiveDensity(density) && ValidHmm(m) && |x| >= 1 && s < |m.mu| && Visited(density, m, x, s)
    ensures var e, w := EmStep(density, m, x), InState(density, m, x, s);
            && s < |e.mu| == |e.vars|
            && Pull(w, x, e.mu[s]) == 0.0
            && Fits(e.vars[s] - VARIANCE_FLOOR, Occupied(density, m, x, s, |x|), Scatter(w, x, e.mu[s]))
  {
    NewMoments(density, m, x, s);
    MeanBalancesModel(density, m, x, s);
    VarianceFitsModel(density, m, x, s, EmStep(density, m, x).mu[s]);
  }

  /** No other centre is closer to the state's observations. */
  lemma NewMeanIsClosest(density: Density, m: Hmm, x: seq<real>, s: nat, other: real)
    requires PositiveDensity(density) && ValidHmm(m) && |x| >= 1 && s < |m.mu| && Visited(density, m, x, s)
    ensures s < |EmStep(density, m, x).mu|
    ensures var w := InState(density, m, x, s);
            Scatter(w, x, EmStep(density, m, x).mu[s]) <= Scatter(w, x, other)
  {
    MomentsAreExpected(density, m, x, s);
    LikelihoodOfModel(density, m, x, |x|);
    BalanceIsBest(InState(density, m, x, s), x, EmStep(density, m, x).mu[s], other);
  }
}
