/** The weight of a state path, read straight off the parameters of the model, and the sums over
    all paths that the labeller's results are shares of (research/volregime.py). */
module ModelWeights {
  import opened RealAlgebra
  import opened PathSums
  import opened HmmChain
  import opened ScaledChain
  import opened Transitions
  import opened VolRegime

  // ---------------------------------------------------------------------------
  // One path
  // ---------------------------------------------------------------------------

  /** One mean, one variance, one start and one row of transitions for every state. */
  ghost predicate Shaped(m: Hmm) {
    |m.mu| == |m.vars| == |m.pi| == |m.a| >= 1 && forall i :: 0 <= i < |m.a| ==> |m.a[i]| == |m.mu|
  }

  /** A path through the model's states, no longer than the series. */
  ghost predicate Walks(m: Hmm, x: seq<real>, q: Path) {
    1 <= |q| <= |x| && forall i :: 0 <= i < |q| ==> q[i] < |m.mu|
  }

  /** The product of a[q[u-1]][q[u]] over the first t states of the path. */
  ghost function StepProduct(m: Hmm, x: seq<real>, q: Path, t: nat): real
    requires Shaped(m) && Walks(m, x, q) && t <= |q|
  {
    if t <= 1 then 1.0 else StepProduct(m, x, q, t - 1) * m.a[q[t - 2]][q[t - 1]]
  }

  /** The product of the densities of the first t observations in the path's states. */
  ghost function DensityProduct(density: Density, m: Hmm, x: seq<real>, q: Path, t: nat): real
    requires Shaped(m) && Walks(m, x, q) && t <= |q|
  {
    if t == 0 then 1.0
    else DensityProduct(density, m, x, q, t - 1) * density(x[t - 1], m.mu[q[t - 1]], m.vars[q[t - 1]])
  }

  /** The joint weight of the first t states of the path and their observations. */
  ghost function PartWeight(density: Density, m: Hmm, x: seq<real>, q: Path, t: nat): real
    requires Shaped(m) && Walks(m, x, q) && t <= |q|
  {
    m.pi[q[0]] * StepProduct(m, x, q, t) * DensityProduct(density, m, x, q, t)
  }

  /** The joint weight of the path and the observations up to its end. */
  ghost function JointWeight(density: Density, m: Hmm, x: seq<real>, q: Path): real
    requires Shaped(m) && Walks(m, x, q)
  {
    PartWeight(density, m, x, q, |q|)
  }

  /** What one more state multiplies the weight by. */
  ghost function Factor(density: Density, m: Hmm, x: seq<real>, q: Path, t: nat, w: real): real
    requires Shaped(m) && Walks(m, x, q) && 2 <= t <= |q|
  {
    w * m.a[q[t - 2]][q[t - 1]] * density(x[t - 1], m.mu[q[t - 1]], m.vars[q[t - 1]])
  }

  lemma NextProduct(p: real, s: real, e: real, a: real, d: real, sa: real, ed: real)
    requires sa == s * a && ed == e * d
    ensures p * sa * ed == (p * s * e) * a * d
  {
  }

  lemma PartStep(density: Density, m: Hmm, x: seq<real>, q: Path, t: nat)
    requires Shaped(m) && Walks(m, x, q) && 2 <= t <= |q|
    ensures PartWeight(density, m, x, q, t) == Factor(density, m, x, q, t, PartWeight(density, m, x, q, t - 1))
  {
    NextProduct(m.pi[q[0]], StepProduct(m, x, q, t - 1), DensityProduct(density, m, x, q, t - 1),
                m.a[q[t - 2]][q[t - 1]], density(x[t - 1], m.mu[q[t - 1]], m.vars[q[t - 1]]),
                StepProduct(m, x, q, t), DensityProduct(density, m, x, q, t));
  }

  lemma FirstProduct(p: real, d: real, one: real, oneD: real)
    requires one == 1.0 && oneD == 1.0 * d
    ensures p * one * oneD == p * d
  {
  }

  lemma PartStart(density: Density, m: Hmm, x: seq<real>, q: Path)
    requires Shaped(m) && Walks(m, x, q)
    ensures PartWeight(density, m, x, q, 1) == m.pi[q[0]] * density(x[0], m.mu[q[0]], m.vars[q[0]])
  {
    assert DensityProduct(density, m, x, q, 0) == 1.0;
    FirstProduct(m.pi[q[0]], density(x[0], m.mu[q[0]], m.vars[q[0]]), StepProduct(m, x, q, 1),
                 DensityProduct(density, m, x, q, 1));
  }

  /** The chain brings one transition and one density for one state more, too. */
  lemma ChainStep(density: Density, m: Hmm, x: seq<real>, q: Path, t: nat)
    requires Shaped(m) && Walks(m, x, q) && 2 <= t <= |q|
    ensures Weight(ChainOf(density, m, x), q[..t])
            == Factor(density, m, x, q, t, Weight(ChainOf(density, m, x), q[..t - 1]))
  {
    assert q[..t][..t - 1] == q[..t - 1];
  }

  lemma ChainStart(density: Density, m: Hmm, x: seq<real>, q: Path)
    requires Shaped(m) && Walks(m, x, q)
    ensures Weight(ChainOf(density, m, x), q[..1]) == m.pi[q[0]] * density(x[0], m.mu[q[0]], m.vars[q[0]])
  {
  }

  lemma {:induction false} ChainWeight(density: Density, m: Hmm, x: seq<real>, q: Path, t: nat)
    requires Shaped(m) && Walks(m, x, q) && 1 <= t <= |q|
    ensures Weight(ChainOf(density, m, x), q[..t]) == PartWeight(density, m, x, q, t)
    decreases t
  {
    if t == 1 {
      ChainStart(density, m, x, q);
      PartStart(density, m, x, q);
    } else {
      ChainWeight(density, m, x, q, t - 1);
      ChainStep(density, m, x, q, t);
      PartStep(density, m, x, q, t);
    }
  }

  /** The chain that the recursions run on weighs every path as the model does. */
  lemma ChainWeighsTheModel(density: Density, m: Hmm, x: seq<real>, q: Path)
    requires Shaped(m) && Walks(m, x, q)
    ensures Weight(ChainOf(density, m, x), q) == JointWeight(density, m, x, q)
  {
    ChainWeight(density, m, x, q, |q|);
    assert q[..|q|] == q;
  }

  // ---------------------------------------------------------------------------
  // Sums over all paths
  // ---------------------------------------------------------------------------

  ghost function JointOf(density: Density, m: Hmm, x: seq<real>): Path -> real {
    (q: Path) => if Shaped(m) && Walks(m, x, q) then JointWeight(density, m, x, q) else 0.0
  }

  /** The summed weight of all paths over the first n observations. */
  ghost function Total(density: Density, m: Hmm, x: seq<real>, n: nat): real {
    PathSum(|m.mu|, [], n, JointOf(density, m, x))
  }

  /** Of those, the paths in state s at bar t. */
  ghost function At(density: Density, m: Hmm, x: seq<real>, n: nat, t: nat, s: nat): real {
    PathSum(|m.mu|, [], n, Where(t, s, JointOf(density, m, x)))
  }

  /** The summed weight of the paths over x[0..t] that end in s. */
  ghost function EndingIn(density: Density, m: Hmm, x: seq<real>, t: nat, s: nat): real {
    At(density, m, x, t + 1, t, s)
  }

  /** Of those, the paths that step from i at bar t to j. */
  ghost function Through(density: Density, m: Hmm, x: seq<real>, n: nat, t: nat, i: nat, j: nat): real {
    PathSum(|m.mu|, [], n, Where(t, i, Where(t + 1, j, JointOf(density, m, x))))
  }

  lemma ExtensionsWalk(m: Hmm, x: seq<real>, n: nat, q: Path)
    requires 1 <= n <= |x| && Extends(|m.mu|, [], n, q)
    ensures Walks(m, x, q)
  {
  }

  lemma SameWeights(density: Density, m: Hmm, x: seq<real>, n: nat)
    requires Shaped(m) && 1 <= n <= |x|
    ensures forall q :: Extends(|m.mu|, [], n, q) ==>
              WeightOf(ChainOf(density, m, x))(q) == JointOf(density, m, x)(q)
  {
    forall q | Extends(|m.mu|, [], n, q)
      ensures WeightOf(ChainOf(density, m, x))(q) == JointOf(density, m, x)(q)
    {
      ExtensionsWalk(m, x, n, q);
      ChainWeighsTheModel(density, m, x, q);
    }
  }

  lemma TotalIs(density: Density, m: Hmm, x: seq<real>, n: nat)
    requires Shaped(m) && 1 <= n <= |x|
    ensures TotalWeight(ChainOf(density, m, x), n) == Total(density, m, x, n)
  {
    SameWeights(density, m, x, n);
    SameSum(|m.mu|, [], n, WeightOf(ChainOf(density, m, x)), JointOf(density, m, x));
  }

  lemma AtIs(density: Density, m: Hmm, x: seq<real>, n: nat, t: nat, s: nat)
    requires Shaped(m) && 1 <= n <= |x|
    ensures WeightAt(ChainOf(density, m, x), n, t, s) == At(density, m, x, n, t, s)
  {
    var f, g := WeightOf(ChainOf(density, m, x)), JointOf(density, m, x);
    SameWeights(density, m, x, n);
    SameSum(|m.mu|, [], n, Where(t, s, f), Where(t, s, g));
  }

  lemma ThroughIs(density: Density, m: Hmm, x: seq<real>, n: nat, t: nat, i: nat, j: nat)
    requires Shaped(m) && 1 <= n <= |x|
    ensures WeightThrough(ChainOf(density, m, x), n, t, i, j) == Through(density, m, x, n, t, i, j)
  {
    var f, g := WeightOf(ChainOf(density, m, x)), JointOf(density, m, x);
    SameWeights(density, m, x, n);
    SameSum(|m.mu|, [], n, Where(t, i, Where(t + 1, j, f)), Where(t, i, Where(t + 1, j, g)));
  }

  // ---------------------------------------------------------------------------
  // What the labeller computes
  // ---------------------------------------------------------------------------

  /** share is part of the positive total. */
  ghost predicate IsShare(share: real, part: real, total: real) {
    total > 0.0 && share * total == part
  }

  /** The likelihood is the summed weight of all paths. */
  lemma LikelihoodOfModel(density: Density, m: Hmm, x: seq<real>, n: nat)
    requires PositiveDensity(density) && ValidHmm(m) && 1 <= n <= |x|
    ensures Evidence(ChainOf(density, m, x), n - 1) == Total(density, m, x, n) > 0.0
  {
    ChainIsPositive(density, m, x);
    LikelihoodIsPathSum(ChainOf(density, m, x), n);
    TotalIs(density, m, x, n);
  }

  /** filtered[t][s] is the share of the paths over x[0..t] that end in s. */
  lemma FilteredOfModel(density: Density, m: Hmm, x: seq<real>, t: nat, s: nat)
    requires PositiveDensity(density) && ValidHmm(m) && t < |x| && s < |m.mu|
    ensures IsShare(Hat(ChainOf(density, m, x), t, s), EndingIn(density, m, x, t, s), Total(density, m, x, t + 1))
  {
    LikelihoodOfModel(density, m, x, t + 1);
    ChainIsPositive(density, m, x);
    FilteredIsPosterior(ChainOf(density, m, x), t, s);
    TotalIs(density, m, x, t + 1);
    AtIs(density, m, x, t + 1, t, s);
  }

  /** gamma[t][s] is the share of the paths over the whole series that are in s at bar t. */
  lemma GammaOfModel(density: Density, m: Hmm, x: seq<real>, t: nat, s: nat)
    requires PositiveDensity(density) && ValidHmm(m) && t < |x| && s < |m.mu|
    ensures IsShare(Gamma(ChainOf(density, m, x), |x|, t, s), At(density, m, x, |x|, t, s), Total(density, m, x, |x|))
  {
    LikelihoodOfModel(density, m, x, |x|);
    ChainIsPositive(density, m, x);
    GammaIsPosterior(ChainOf(density, m, x), |x|, t, s);
    TotalIs(density, m, x, |x|);
    AtIs(density, m, x, |x|, t, s);
  }

  /** The summed weight of the paths that step from i to j, added up over the first steps. */
  ghost function Steps(density: Density, m: Hmm, x: seq<real>, steps: nat, i: nat, j: nat): real {
    if steps == 0 then 0.0
    else Steps(density, m, x, steps - 1, i, j) + Through(density, m, x, |x|, steps - 1, i, j)
  }

  /** xi[i][j] is the share of those. */
  lemma {:induction false} XiOfModel(density: Density, m: Hmm, x: seq<real>, steps: nat, i: nat, j: nat)
    requires PositiveDensity(density) && ValidHmm(m) && steps < |x| && i < |m.mu| && j < |m.mu|
    ensures IsShare(XiSum(ChainOf(density, m, x), |x|, steps, i, j), Steps(density, m, x, steps, i, j),
                    Total(density, m, x, |x|))
    decreases steps
  {
    LikelihoodOfModel(density, m, x, |x|);
    if steps > 0 {
      XiOfModel(density, m, x, steps - 1, i, j);
      OneXiOfModel(density, m, x, steps - 1, i, j);
      SharesAdd(XiSum(ChainOf(density, m, x), |x|, steps - 1, i, j), Xi(ChainOf(density, m, x), |x|, steps - 1, i, j),
                Total(density, m, x, |x|));
    } else {
      assert 0.0 * Total(density, m, x, |x|) == 0.0;
    }
  }

  lemma OneXiOfModel(density: Density, m: Hmm, x: seq<real>, t: nat, i: nat, j: nat)
    requires PositiveDensity(density) && ValidHmm(m) && t + 1 < |x| && i < |m.mu| && j < |m.mu|
    ensures Xi(ChainOf(density, m, x), |x|, t, i, j) * Total(density, m, x, |x|) == Through(density, m, x, |x|, t, i, j)
  {
    ChainIsPositive(density, m, x);
    XiIsPosterior(ChainOf(density, m, x), |x|, t, i, j);
    TotalIs(density, m, x, |x|);
    ThroughIs(density, m, x, |x|, t, i, j);
  }

  lemma SharesAdd(a: real, b: real, total: real)
    ensures (a + b) * total == a * total + b * total
  {
  }

  /** The state carries the most weight over x[0..i], and it is the first that does. */
  ghost predicate Heaviest(density: Density, m: Hmm, x: seq<real>, i: nat, state: nat) {
    && state < |m.mu|
    && (forall s :: 0 <= s < |m.mu| ==> EndingIn(density, m, x, i, s) <= EndingIn(density, m, x, i, state))
    && (forall s :: 0 <= s < state ==> EndingIn(density, m, x, i, s) < EndingIn(density, m, x, i, state))
  }

  lemma FilteredOrder(density: Density, m: Hmm, x: seq<real>, i: nat, s: nat, u: nat, a: real, b: real)
    requires PositiveDensity(density) && ValidHmm(m) && i < |x| && s < |m.mu| && u < |m.mu|
    requires a == HatAt(ChainOf(density, m, x), i)(s) && b == HatAt(ChainOf(density, m, x), i)(u)
    ensures a <= b <==> EndingIn(density, m, x, i, s) <= EndingIn(density, m, x, i, u)
    ensures a < b <==> EndingIn(density, m, x, i, s) < EndingIn(density, m, x, i, u)
  {
    FilteredOfModel(density, m, x, i, s);
    FilteredOfModel(density, m, x, i, u);
    ScaleOrder(Total(density, m, x, i + 1), a, b, EndingIn(density, m, x, i, s), EndingIn(density, m, x, i, u));
  }

  /** Main result: labels are read off the model. */
  lemma LabelIsHeaviest(density: Density, m: Hmm, x: seq<real>, i: nat)
    requires PositiveDensity(density) && ValidHmm(m) && i < |x|
    ensures Heaviest(density, m, x, i, LabelAt(density, m, x, i))
  {
    var f, best := HatAt(ChainOf(density, m, x), i), LabelAt(density, m, x, i);
    forall s: nat | s < |m.mu|
      ensures f(s) <= f(best) <==> EndingIn(density, m, x, i, s) <= EndingIn(density, m, x, i, best)
      ensures f(s) < f(best) <==> EndingIn(density, m, x, i, s) < EndingIn(density, m, x, i, best)
    {
      FilteredOrder(density, m, x, i, s, best, f(s), f(best));
    }
  }

  // ---------------------------------------------------------------------------
  // Whole rows
  // ---------------------------------------------------------------------------

  /** The row of bar t holds every state's share of the paths over x[0..t]. */
  ghost predicate IsFilteredRow(density: Density, m: Hmm, x: seq<real>, t: nat, row: seq<real>) {
    && |row| == |m.mu|
    && forall s :: 0 <= s < |row| ==> IsShare(row[s], EndingIn(density, m, x, t, s), Total(density, m, x, t + 1))
  }

  /** The row of bar t holds every state's share of the paths over the whole series. */
  ghost predicate IsGammaRow(density: Density, m: Hmm, x: seq<real>, t: nat, row: seq<real>) {
    && |row| == |m.mu|
    && forall s :: 0 <= s < |row| ==> IsShare(row[s], At(density, m, x, |x|, t, s), Total(density, m, x, |x|))
  }

  /** The row of state i holds the shares of the paths that step from it, added up over the bars. */
  ghost predicate IsXiRow(density: Density, m: Hmm, x: seq<real>, i: nat, row: seq<real>)
    requires |x| >= 1
  {
    && |row| == |m.mu|
    && forall j :: 0 <= j < |row| ==>
         IsShare(row[j], Steps(density, m, x, |x| - 1, i, j), Total(density, m, x, |x|))
  }

  lemma FilteredRowOfModel(density: Density, m: Hmm, x: seq<real>, t: nat, row: seq<real>)
    requires PositiveDensity(density) && ValidHmm(m) && t < |x| && |row| == |m.mu|
    requires forall s :: 0 <= s < |row| ==> row[s] == HatAt(ChainOf(density, m, x), t)(s)
    ensures IsFilteredRow(density, m, x, t, row)
  {
    forall s: nat | s < |row| ensures IsShare(row[s], EndingIn(density, m, x, t, s), Total(density, m, x, t + 1)) {
      FilteredOfModel(density, m, x, t, s);
    }
  }

  lemma GammaRowOfModel(density: Density, m: Hmm, x: seq<real>, t: nat, row: seq<real>)
    requires PositiveDensity(density) && ValidHmm(m) && t < |x| && |row| == |m.mu|
    requires forall s :: 0 <= s < |row| ==> row[s] == GammaAt(ChainOf(density, m, x), |x|, t)(s)
    ensures IsGammaRow(density, m, x, t, row)
  {
    forall s: nat | s < |row| ensures IsShare(row[s], At(density, m, x, |x|, t, s), Total(density, m, x, |x|)) {
      GammaOfModel(density, m, x, t, s);
    }
  }

  lemma XiRowOfModel(density: Density, m: Hmm, x: seq<real>, i: nat, row: seq<real>)
    requires PositiveDensity(density) && ValidHmm(m) && |x| >= 1 && i < |m.mu| && |row| == |m.mu|
    requires forall j :: 0 <= j < |row| ==> row[j] == XiSumAt(ChainOf(density, m, x), |x|, |x| - 1, i)(j)
    ensures IsXiRow(density, m, x, i, row)
  {
    forall j: nat | j < |row|
      ensures IsShare(row[j], Steps(density, m, x, |x| - 1, i, j), Total(density, m, x, |x|))
    {
      XiOfModel(density, m, x, |x| - 1, i, j);
    }
  }
}
