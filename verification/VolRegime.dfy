/** The volatility labeller: forward-backward over arrays, Baum-Welch, and the label path
    (research/volregime.py). */
module VolRegime {
  import opened RealAlgebra
  import opened HmmChain
  import opened ScaledChain

  /** The parameters that fit_hmm re-estimates. */
  datatype Hmm = Hmm(mu: seq<real>, vars: seq<real>, a: seq<seq<real>>, pi: seq<real>)

  /** The likelihood of an observation under a mean and a variance. */
  type Density = (real, real, real) -> real

  ghost predicate PositiveDensity(density: Density) {
    forall x, mu, v :: v > 0.0 ==> density(x, mu, v) > 0.0
  }

  ghost predicate AllPositive(s: seq<real>) {
    forall i :: 0 <= i < |s| ==> s[i] > 0.0
  }

  ghost predicate ValidHmm(m: Hmm) {
    && |m.mu| == |m.vars| == |m.pi| == |m.a| >= 1
    && AllPositive(m.vars) && AllPositive(m.pi)
    && forall i :: 0 <= i < |m.a| ==> |m.a[i]| == |m.mu| && AllPositive(m.a[i])
  }

  function InitOf(m: Hmm): nat -> real {
    (s: nat) => if s < |m.pi| then m.pi[s] else 1.0
  }

  function StepOf(m: Hmm): (nat, nat) -> real {
    (i: nat, j: nat) => if i < |m.a| && j < |m.a[i]| then m.a[i][j] else 1.0
  }

  function EmitOf(density: Density, m: Hmm, x: seq<real>): (nat, nat) -> real {
    (t: nat, s: nat) => if t < |x| && s < |m.mu| && s < |m.vars| then density(x[t], m.mu[s], m.vars[s]) else 1.0
  }

  function ChainOf(density: Density, m: Hmm, x: seq<real>): Chain {
    Chain(|m.mu|, InitOf(m), StepOf(m), EmitOf(density, m, x))
  }

  lemma DensityAt(density: Density, x: real, mu: real, v: real)
    requires PositiveDensity(density) && v > 0.0
    ensures density(x, mu, v) > 0.0
  {
  }

  lemma ChainIsPositive(density: Density, m: Hmm, x: seq<real>)
    requires PositiveDensity(density) && ValidHmm(m)
    ensures Positive(ChainOf(density, m, x))
  {
    forall t: nat, s: nat ensures EmitOf(density, m, x)(t, s) > 0.0 {
      if t < |x| && s < |m.mu| {
        DensityAt(density, x[t], m.mu[s], m.vars[s]);
      }
    }
  }

  // ---------------------------------------------------------------------------
  // Labels
  // ---------------------------------------------------------------------------

  /** np.argmax: the first state with the largest value. */
  function LikeliestState(f: nat -> real, k: nat): (best: nat)
    requires k >= 1
    ensures best < k
    ensures forall i :: 0 <= i < k ==> f(i) <= f(best)
    ensures forall i :: 0 <= i < best ==> f(i) < f(best)
  {
    if k == 1 then 0
    else
      var before := LikeliestState(f, k - 1);
      if f(k - 1) > f(before) then k - 1 else before
  }

  lemma {:induction false} SameLikeliestState(f: nat -> real, g: nat -> real, k: nat)
    requires k >= 1 && forall i :: 0 <= i < k ==> f(i) == g(i)
    ensures LikeliestState(f, k) == LikeliestState(g, k)
    decreases k
  {
    if k > 1 {
      SameLikeliestState(f, g, k - 1);
    }
  }

  /** The label of bar i: the argmax of filtered[i]. */
  function LabelAt(density: Density, m: Hmm, x: seq<real>, i: nat): nat
    requires |m.mu| >= 1
  {
    LikeliestState(HatAt(ChainOf(density, m, x), i), |m.mu|)
  }

  /** No lookahead: whatever follows bar i, its label is the same. */
  lemma LabelNeverSeesTheFuture(density: Density, m: Hmm, x: seq<real>, x': seq<real>, i: nat)
    requires |m.mu| >= 1 && i < |x| && i < |x'| && x[..i + 1] == x'[..i + 1]
    ensures LabelAt(density, m, x, i) == LabelAt(density, m, x', i)
  {
    var c, d := ChainOf(density, m, x), ChainOf(density, m, x');
    forall u: nat, s: nat | u <= i ensures c.emit(u, s) == d.emit(u, s) {
      assert x[u] == x[..i + 1][u] == x'[..i + 1][u] == x'[u];
    }
    FilteredIsCausal(c, d, i);
    SameLikeliestState(HatAt(c, i), HatAt(d, i), |m.mu|);
  }

  /** The label of bar i is the state that carries the most path weight over x[0..i]. */
  lemma LabelMaximisesPosterior(density: Density, m: Hmm, x: seq<real>, i: nat, s: nat)
    requires PositiveDensity(density) && ValidHmm(m) && s < |m.mu|
    ensures var c := ChainOf(density, m, x);
            WeightAt(c, i + 1, i, s) <= WeightAt(c, i + 1, i, LabelAt(density, m, x, i))
  {
    var c, best := ChainOf(density, m, x), LabelAt(density, m, x, i);
    ChainIsPositive(density, m, x);
    var total, f, g := TotalWeight(c, i + 1), Hat(c, i, s), Hat(c, i, best);
    assert HatAt(c, i)(s) <= HatAt(c, i)(best);
    FilteredFact(c, i, s, f, total, WeightAt(c, i + 1, i, s));
    FilteredFact(c, i, best, g, total, WeightAt(c, i + 1, i, best));
    MulMono(total, f, g, WeightAt(c, i + 1, i, s), WeightAt(c, i + 1, i, best));
  }

  lemma FilteredFact(c: Chain, i: nat, s: nat, h: real, total: real, w: real)
    requires Positive(c) && s < c.k
    requires h == Hat(c, i, s) && total == TotalWeight(c, i + 1) && w == WeightAt(c, i + 1, i, s)
    ensures w == total * h && total > 0.0
  {
    FilteredIsPosterior(c, i, s);
    LikelihoodIsPathSum(c, i + 1);
  }

  // ---------------------------------------------------------------------------
  // The smoothed posterior does see the future
  // ---------------------------------------------------------------------------

  function NearDensity(x: real, mu: real, v: real): real {
    if x == mu then 2.0 else 1.0
  }

  function StickyHmm(): Hmm {
    Hmm([0.0, 1.0], [1.0, 1.0], [[0.9, 0.1], [0.1, 0.9]], [0.5, 0.5])
  }

  lemma StickyChain(next: real, c: Chain)
    requires c == ChainOf(NearDensity, StickyHmm(), [5.0, next])
    ensures c.k == 2 && Forward(c, 0, 0) == 0.5 && Forward(c, 0, 1) == 0.5
    ensures c.step(0, 0) == 0.9 && c.step(0, 1) == 0.1 && c.step(1, 0) == 0.1 && c.step(1, 1) == 0.9
    ensures c.emit(1, 0) == NearDensity(next, 0.0, 1.0) && c.emit(1, 1) == NearDensity(next, 1.0, 1.0)
  {
    var m, x := StickyHmm(), [5.0, next];
    assert x[0] == 5.0 && x[1] == next && m.mu[0] == 0.0 && m.mu[1] == 1.0;
    assert c.emit(0, 0) == NearDensity(5.0, 0.0, 1.0) == 1.0;
    assert c.emit(0, 1) == NearDensity(5.0, 1.0, 1.0) == 1.0;
    assert c.init(0) == 0.5 && c.init(1) == 0.5;
    assert m.a[0] == [0.9, 0.1] && m.a[1] == [0.1, 0.9];
  }

  lemma SmoothedWeights(next: real)
    requires next == 0.0 || next == 1.0
    ensures var c := ChainOf(NearDensity, StickyHmm(), [5.0, next]);
            && WeightAt(c, 2, 0, 0) == (if next == 0.0 then 0.95 else 0.55)
            && WeightAt(c, 2, 0, 1) == (if next == 0.0 then 0.55 else 0.95)
  {
    var c := ChainOf(NearDensity, StickyHmm(), [5.0, next]);
    StickyChain(next, c);
    WeightAtFactors(c, 2, 0, 0);
    WeightAtFactors(c, 2, 0, 1);
    OneStepBack(c, 0);
    OneStepBack(c, 1);
  }

  lemma OneStepBack(c: Chain, s: nat)
    requires c.k == 2
    ensures Backward(c, 0, s, 1) == c.step(s, 0) * c.emit(1, 0) + c.step(s, 1) * c.emit(1, 1)
  {
    var f := Onward(c, 0, s, 1);
    assert Backward(c, 1, 0, 0) == 1.0 && Backward(c, 1, 1, 0) == 1.0;
    assert StateSum(f, 0) == 0.0 && StateSum(f, 1) == f(0) && StateSum(f, 2) == StateSum(f, 1) + f(1);
  }

  /** Labels read off gamma are not causal: one later observation flips an earlier label. */
  lemma SmoothedLabelsSeeTheFuture()
    ensures var c, d := ChainOf(NearDensity, StickyHmm(), [5.0, 0.0]), ChainOf(NearDensity, StickyHmm(), [5.0, 1.0]);
            && Positive(c) && Positive(d) && [5.0, 0.0][..1] == [5.0, 1.0][..1]
            && Gamma(c, 2, 0, 0) > Gamma(c, 2, 0, 1)
            && Gamma(d, 2, 0, 0) < Gamma(d, 2, 0, 1)
  {
    var m := StickyHmm();
    assert ValidHmm(m) && PositiveDensity(NearDensity);
    ChainIsPositive(NearDensity, m, [5.0, 0.0]);
    ChainIsPositive(NearDensity, m, [5.0, 1.0]);
    var c, d := ChainOf(NearDensity, m, [5.0, 0.0]), ChainOf(NearDensity, m, [5.0, 1.0]);
    SmoothedWeights(0.0);
    SmoothedWeights(1.0);
    HeavierIsLikelier(c, 0, 1);
    HeavierIsLikelier(d, 1, 0);
  }

  lemma HeavierIsLikelier(c: Chain, s: nat, s': nat)
    requires Positive(c) && s < c.k && s' < c.k && WeightAt(c, 2, 0, s) > WeightAt(c, 2, 0, s')
    ensures Gamma(c, 2, 0, s) > Gamma(c, 2, 0, s')
  {
    GammaIsPosterior(c, 2, 0, s);
    GammaIsPosterior(c, 2, 0, s');
    LikelihoodIsPathSum(c, 2);
    ScaleOrder(TotalWeight(c, 2), Gamma(c, 2, 0, s'), Gamma(c, 2, 0, s), WeightAt(c, 2, 0, s'), WeightAt(c, 2, 0, s));
  }
}
