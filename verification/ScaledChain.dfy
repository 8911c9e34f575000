/** The recursions the code runs, scaled at every step so that no row under- or overflows, and
    what the scaled quantities mean (research/volregime.py, _forward_backward). */
module ScaledChain {
  import opened RealAlgebra
  import opened HmmChain

  /** x / total; the code meets a zero total only outside the positive parameters. */
  function Share(x: real, total: real): real {
    if total == 0.0 then 0.0 else x / total
  }

  /** A state's scaled forward variable before normalisation. */
  function Raw(c: Chain, t: nat, s: nat): real
    decreases t, 1
  {
    if t == 0 then c.init(s) * c.emit(0, s)
    else c.emit(t, s) * StateSum(IntoHat(c, t, s), c.k)
  }

  function IntoHat(c: Chain, t: nat, s: nat): nat -> real
    requires t > 0
    decreases t, 0
  {
    (j: nat) => c.step(j, s) * Hat(c, t - 1, j)
  }

  function RawAt(c: Chain, t: nat): nat -> real
    decreases t, 2
  {
    (s: nat) => Raw(c, t, s)
  }

  /** The row's sum: the code's exp(-c[t]). */
  function Scale(c: Chain, t: nat): real
    decreases t, 3
  {
    StateSum(RawAt(c, t), c.k)
  }

  /** exp(alpha[t, s]): what the code returns as filtered[t, s]. */
  function Hat(c: Chain, t: nat, s: nat): real
    decreases t, 4
  {
    Share(Raw(c, t, s), Scale(c, t))
  }

  /** The product of the scale factors up to and including t. */
  function Evidence(c: Chain, t: nat): real {
    if t == 0 then Scale(c, 0) else Evidence(c, t - 1) * Scale(c, t)
  }

  lemma ShareTimes(x: real, total: real)
    requires total != 0.0
    ensures Share(x, total) * total == x
  {
    DivMul(x, total, x / total);
  }

  lemma ShareScaled(e: real, x: real, total: real, y: real)
    requires total != 0.0 && e * x == y
    ensures e * total * Share(x, total) == y
  {
    ShareTimes(x, total);
    assert e * total * Share(x, total) == e * (Share(x, total) * total);
  }

  lemma PositiveFactor(e: real, x: real, ex: real)
    requires e > 0.0 && ex == e * x && ex > 0.0
    ensures x > 0.0
  {
    ScaleOrder(e, 0.0, x, 0.0, ex);
  }

  /** Unscaling row t multiplies it by e. */
  ghost predicate Unscales(c: Chain, t: nat, e: real) {
    forall s :: e * Hat(c, t, s) == Forward(c, t, s)
  }

  lemma OneIntoScaled(c: Chain, t: nat, s: nat, j: nat, e: real)
    requires t > 0 && j < c.k && Unscales(c, t - 1, e)
    ensures Into(c, t, s)(j) == e * IntoHat(c, t, s)(j)
  {
    assert e * Hat(c, t - 1, j) == Forward(c, t - 1, j);
    MoveFactor(c.step(j, s), e, Hat(c, t - 1, j));
  }

  lemma IntoScaled(c: Chain, t: nat, s: nat, e: real)
    requires t > 0 && Unscales(c, t - 1, e)
    ensures StateSum(Into(c, t, s), c.k) == e * StateSum(IntoHat(c, t, s), c.k)
  {
    forall j | 0 <= j < c.k ensures Into(c, t, s)(j) == e * IntoHat(c, t, s)(j) {
      OneIntoScaled(c, t, s, j, e);
    }
    ScaleStates(IntoHat(c, t, s), Into(c, t, s), e, c.k);
  }

  lemma RawScaled(c: Chain, t: nat, s: nat, e: real)
    requires t > 0 && Unscales(c, t - 1, e)
    ensures e * Raw(c, t, s) == Forward(c, t, s)
  {
    IntoScaled(c, t, s, e);
    RawScaledFrom(c, t, s, e, StateSum(IntoHat(c, t, s), c.k), StateSum(Into(c, t, s), c.k));
  }

  lemma RawScaledFrom(c: Chain, t: nat, s: nat, e: real, hat: real, plain: real)
    requires t > 0 && hat == StateSum(IntoHat(c, t, s), c.k) && plain == StateSum(Into(c, t, s), c.k)
    requires plain == e * hat
    ensures e * Raw(c, t, s) == Forward(c, t, s)
  {
    ScaledTerm(c.emit(t, s), e, hat, plain, Raw(c, t, s), Forward(c, t, s));
  }

  lemma ScaledTerm(a: real, e: real, x: real, y: real, ax: real, ay: real)
    requires y == e * x && ax == a * x && ay == a * y
    ensures e * ax == ay
  {
    MoveFactor(a, e, x);
  }

  lemma ScaleScaled(c: Chain, t: nat, e: real)
    requires t > 0 && Unscales(c, t - 1, e)
    ensures e * Scale(c, t) == StateSum(ForwardAt(c, t), c.k)
  {
    forall s | 0 <= s < c.k ensures ForwardAt(c, t)(s) == e * RawAt(c, t)(s) {
      RawScaled(c, t, s, e);
    }
    ScaleStates(RawAt(c, t), ForwardAt(c, t), e, c.k);
  }

  lemma MoveFactor(a: real, e: real, h: real)
    ensures a * (e * h) == e * (a * h)
  {
  }

  lemma HatStep(c: Chain, t: nat, s: nat, e: real, scale: real)
    requires t > 0 && Unscales(c, t - 1, e) && scale == Scale(c, t) && scale != 0.0
    ensures e * scale * Hat(c, t, s) == Forward(c, t, s)
  {
    RawScaled(c, t, s, e);
    ShareScaled(e, Raw(c, t, s), scale, Forward(c, t, s));
  }

  lemma FirstHat(c: Chain)
    requires StateSum(ForwardAt(c, 0), c.k) > 0.0
    ensures Scale(c, 0) == StateSum(ForwardAt(c, 0), c.k) && Unscales(c, 0, Scale(c, 0))
  {
    SameStates(RawAt(c, 0), ForwardAt(c, 0), c.k);
    forall s ensures Scale(c, 0) * Hat(c, 0, s) == Forward(c, 0, s) {
      ShareTimes(Raw(c, 0, s), Scale(c, 0));
    }
  }

  lemma NextHat(c: Chain, t: nat, e: real, scale: real)
    requires t > 0 && e > 0.0 && Unscales(c, t - 1, e) && scale == Scale(c, t)
    requires StateSum(ForwardAt(c, t), c.k) > 0.0
    ensures scale > 0.0 && e * scale == StateSum(ForwardAt(c, t), c.k) && Unscales(c, t, e * scale)
  {
    ScaleScaled(c, t, e);
    PositiveFactor(e, scale, StateSum(ForwardAt(c, t), c.k));
    forall s ensures e * scale * Hat(c, t, s) == Forward(c, t, s) {
      HatStep(c, t, s, e, scale);
    }
  }

  /** Unscaling the forward pass: the product of the scales restores the path sums. */
  lemma {:induction false} HatIsForward(c: Chain, t: nat)
    requires Positive(c)
    ensures Scale(c, t) > 0.0 && Evidence(c, t) == StateSum(ForwardAt(c, t), c.k) > 0.0
    ensures Unscales(c, t, Evidence(c, t))
    decreases t
  {
    TotalIsForward(c, t);
    if t == 0 {
      FirstHat(c);
    } else {
      HatIsForward(c, t - 1);
      NextHat(c, t, Evidence(c, t - 1), Scale(c, t));
    }
  }

  /** exp(loglik): the product of the scale factors is the total weight of all k^n paths. */
  lemma LikelihoodIsPathSum(c: Chain, n: nat)
    requires Positive(c) && n >= 1
    ensures Evidence(c, n - 1) == TotalWeight(c, n) > 0.0
  {
    HatIsForward(c, n - 1);
    TotalIsForward(c, n - 1);
  }

  /** filtered[t, s] is the share of the paths over x[0..t] that end in s. */
  lemma FilteredIsPosterior(c: Chain, t: nat, s: nat)
    requires Positive(c) && s < c.k
    ensures Hat(c, t, s) * TotalWeight(c, t + 1) == WeightAt(c, t + 1, t, s)
  {
    HatIsForward(c, t);
    LikelihoodIsPathSum(c, t + 1);
    ForwardIsPathSum(c, t, s);
    assert Evidence(c, t) * Hat(c, t, s) == Hat(c, t, s) * Evidence(c, t);
  }

  function HatAt(c: Chain, t: nat): nat -> real {
    (s: nat) => Hat(c, t, s)
  }

  lemma UnitFactor(e: real, x: real, ex: real)
    requires e > 0.0 && ex == e * x && ex == e
    ensures x == 1.0
  {
    ScaleOrder(e, x, 1.0, e, e);
    ScaleOrder(e, 1.0, x, e, e);
  }

  // ---------------------------------------------------------------------------
  // Causality
  // ---------------------------------------------------------------------------

  lemma HatPositive(c: Chain, t: nat, s: nat, e: real)
    requires e > 0.0 && Unscales(c, t, e) && Forward(c, t, s) > 0.0
    ensures Hat(c, t, s) > 0.0
  {
    PositiveFactor(e, Hat(c, t, s), Forward(c, t, s));
  }

  lemma HatsSumToOne(c: Chain, t: nat, e: real)
    requires e > 0.0 && Unscales(c, t, e) && e == StateSum(ForwardAt(c, t), c.k)
    ensures StateSum(HatAt(c, t), c.k) == 1.0
  {
    forall s | 0 <= s < c.k ensures ForwardAt(c, t)(s) == e * HatAt(c, t)(s) {
      assert e * Hat(c, t, s) == Forward(c, t, s);
    }
    ScaleStates(HatAt(c, t), ForwardAt(c, t), e, c.k);
    UnitFactor(e, StateSum(HatAt(c, t), c.k), StateSum(ForwardAt(c, t), c.k));
  }

  /** Each filtered row is a probability vector. */
  lemma FilteredSumsToOne(c: Chain, t: nat)
    requires Positive(c)
    ensures StateSum(HatAt(c, t), c.k) == 1.0
    ensures forall s :: Hat(c, t, s) > 0.0
  {
    HatIsForward(c, t);
    HatsSumToOne(c, t, Evidence(c, t));
    forall s ensures Hat(c, t, s) > 0.0 {
      ForwardPositive(c, t, s);
      HatPositive(c, t, s, Evidence(c, t));
    }
  }

  /** The two chains differ at most in what they observe after t. */
  ghost predicate SameUntil(c: Chain, d: Chain, t: nat) {
    && c.k == d.k && c.init == d.init && c.step == d.step
    && forall u: nat, s: nat :: u <= t ==> c.emit(u, s) == d.emit(u, s)
  }

  ghost predicate SameFiltered(c: Chain, d: Chain, t: nat) {
    forall s :: Hat(c, t, s) == Hat(d, t, s)
  }

  /** The filtered posterior at t depends on nothing observed after t. */
  lemma {:induction false} FilteredIsCausal(c: Chain, d: Chain, t: nat)
    requires SameUntil(c, d, t)
    ensures Scale(c, t) == Scale(d, t) && SameFiltered(c, d, t)
    decreases t
  {
    if t > 0 {
      FilteredIsCausal(c, d, t - 1);
    }
    forall s: nat ensures Raw(c, t, s) == Raw(d, t, s) {
      RawIsCausal(c, d, t, s);
    }
    forall s: nat | 0 <= s < c.k ensures RawAt(c, t)(s) == RawAt(d, t)(s) {
      assert Raw(c, t, s) == Raw(d, t, s);
    }
    SameStates(RawAt(c, t), RawAt(d, t), c.k);
  }

  lemma RawIsCausal(c: Chain, d: Chain, t: nat, s: nat)
    requires SameUntil(c, d, t) && (t > 0 ==> SameFiltered(c, d, t - 1))
    ensures Raw(c, t, s) == Raw(d, t, s)
  {
    assert c.emit(t, s) == d.emit(t, s);
    if t > 0 {
      forall j: nat | 0 <= j < c.k ensures IntoHat(c, t, s)(j) == IntoHat(d, t, s)(j) {
        assert Hat(c, t - 1, j) == Hat(d, t - 1, j);
      }
      SameStates(IntoHat(c, t, s), IntoHat(d, t, s), c.k);
    }
  }

  // ---------------------------------------------------------------------------
  // The backward pass
  // ---------------------------------------------------------------------------

  /** The scaled backward variable over n observations. */
  function BetaHat(c: Chain, n: nat, t: nat, s: nat): real
    requires t < n
    decreases n - t, 1
  {
    if t == n - 1 then Share(1.0, Scale(c, t))
    else Share(StateSum(OnwardHat(c, n, t, s), c.k), Scale(c, t))
  }

  function OnwardHat(c: Chain, n: nat, t: nat, s: nat): nat -> real
    requires t + 1 < n
    decreases n - t, 0
  {
    (j: nat) => c.step(s, j) * c.emit(t + 1, j) * BetaHat(c, n, t + 1, j)
  }

  /** The product of the scale factors from t on. */
  function Tail(c: Chain, n: nat, t: nat): real
    requires t < n
    decreases n - t
  {
    if t == n - 1 then Scale(c, t) else Tail(c, n, t + 1) * Scale(c, t)
  }

  /** Unscaling the backward row t multiplies it by e. */
  ghost predicate UnscalesBack(c: Chain, n: nat, t: nat, e: real)
    requires t < n
  {
    forall s :: e * BetaHat(c, n, t, s) == Backward(c, t, s, n - 1 - t)
  }

  lemma {:induction false} BetaIsBackward(c: Chain, n: nat, t: nat)
    requires Positive(c) && t < n
    ensures Tail(c, n, t) > 0.0 && UnscalesBack(c, n, t, Tail(c, n, t))
    decreases n - t
  {
    HatIsForward(c, t);
    if t == n - 1 {
      ShareTimes(1.0, Scale(c, t));
    } else {
      BetaIsBackward(c, n, t + 1);
      MulPos(Tail(c, n, t + 1), Scale(c, t), Tail(c, n, t));
      forall s ensures Tail(c, n, t) * BetaHat(c, n, t, s) == Backward(c, t, s, n - 1 - t) {
        BetaStep(c, n, t, s, Tail(c, n, t + 1), Scale(c, t));
      }
    }
  }

  lemma BetaStep(c: Chain, n: nat, t: nat, s: nat, e: real, scale: real)
    requires t + 1 < n && UnscalesBack(c, n, t + 1, e) && scale == Scale(c, t) && scale != 0.0
    ensures e * scale * BetaHat(c, n, t, s) == Backward(c, t, s, n - 1 - t)
  {
    OnwardScaled(c, n, t, s, e);
    ShareScaled(e, StateSum(OnwardHat(c, n, t, s), c.k), scale, Backward(c, t, s, n - 1 - t));
  }

  lemma OneOnward(c: Chain, n: nat, t: nat, s: nat, j: nat, e: real, hat: real, plain: real)
    requires t + 1 < n && plain == e * hat
    requires hat == BetaHat(c, n, t + 1, j) && plain == Backward(c, t + 1, j, n - 2 - t)
    ensures Onward(c, t, s, n - 1 - t)(j) == e * OnwardHat(c, n, t, s)(j)
  {
    MoveFactor(c.step(s, j) * c.emit(t + 1, j), e, hat);
  }

  lemma OnwardScaled(c: Chain, n: nat, t: nat, s: nat, e: real)
    requires t + 1 < n && UnscalesBack(c, n, t + 1, e)
    ensures e * StateSum(OnwardHat(c, n, t, s), c.k) == Backward(c, t, s, n - 1 - t)
  {
    var f, g := OnwardHat(c, n, t, s), Onward(c, t, s, n - 1 - t);
    forall j | 0 <= j < c.k ensures g(j) == e * f(j) {
      OneOnward(c, n, t, s, j, e, BetaHat(c, n, t + 1, j), Backward(c, t + 1, j, n - 2 - t));
    }
    ScaleStates(f, g, e, c.k);
  }

  // ---------------------------------------------------------------------------
  // Smoothed posteriors
  // ---------------------------------------------------------------------------

  function GammaRaw(c: Chain, n: nat, t: nat): nat -> real
    requires t < n
  {
    (s: nat) => Hat(c, t, s) * BetaHat(c, n, t, s)
  }

  /** The smoothed posterior of state s at bar t. */
  function Gamma(c: Chain, n: nat, t: nat, s: nat): real
    requires t < n
  {
    Share(GammaRaw(c, n, t)(s), StateSum(GammaRaw(c, n, t), c.k))
  }

  /** Normalising a rescaled vector gives the shares of the original. */
  lemma NormalisedShares(f: nat -> real, g: nat -> real, e: real, k: nat, total: real, s: nat)
    requires e > 0.0 && total > 0.0 && s < k
    requires forall i :: 0 <= i < k ==> g(i) == e * f(i)
    requires StateSum(g, k) == total
    ensures StateSum(f, k) > 0.0 && Share(f(s), StateSum(f, k)) * total == g(s)
  {
    ScaleStates(f, g, e, k);
    var sum := StateSum(f, k);
    PositiveFactor(e, sum, total);
    ShareTimes(f(s), sum);
    assert Share(f(s), sum) * (e * sum) == e * (Share(f(s), sum) * sum);
  }

  lemma TwoScales(p: real, h: real, q: real, b: real, f: real, r: real, e: real, x: real)
    requires p * h == f && q * b == r && e == p * q && x == h * b
    ensures e * x == r * f
  {
    assert (p * q) * (h * b) == (p * h) * (q * b);
  }

  lemma HatFact(c: Chain, t: nat, s: nat, p: real, h: real, f: real)
    requires Positive(c) && p == Evidence(c, t) && h == Hat(c, t, s) && f == Forward(c, t, s)
    ensures p * h == f
  {
    HatIsForward(c, t);
  }

  lemma BetaFact(c: Chain, n: nat, t: nat, s: nat, q: real, b: real, r: real)
    requires Positive(c) && t < n && q == Tail(c, n, t) && b == BetaHat(c, n, t, s) && r == Backward(c, t, s, n - 1 - t)
    ensures q * b == r
  {
    BetaIsBackward(c, n, t);
  }

  lemma WeightFact(c: Chain, n: nat, t: nat, s: nat, w: real, r: real, f: real)
    requires t < n && s < c.k
    requires w == WeightAt(c, n, t, s) && r == Backward(c, t, s, n - 1 - t) && f == Forward(c, t, s)
    ensures w == r * f
  {
    WeightAtFactors(c, n, t, s);
  }

  lemma GammaScaled(c: Chain, n: nat, t: nat, s: nat, p: real, q: real, e: real, w: real, h: real, b: real, x: real)
    requires Positive(c) && t < n && s < c.k && p == Evidence(c, t) && q == Tail(c, n, t) && e == p * q
    requires w == WeightAt(c, n, t, s) && h == Hat(c, t, s) && b == BetaHat(c, n, t, s) && x == h * b
    ensures w == e * x
  {
    var f, r := Forward(c, t, s), Backward(c, t, s, n - 1 - t);
    HatFact(c, t, s, p, h, f);
    BetaFact(c, n, t, s, q, b, r);
    WeightFact(c, n, t, s, w, r, f);
    TwoScales(p, h, q, b, f, r, e, x);
  }

  lemma ScalesPositive(c: Chain, n: nat, t: nat, u: nat, e: real)
    requires Positive(c) && u < n && e == Evidence(c, t) * Tail(c, n, u)
    ensures e > 0.0
  {
    HatIsForward(c, t);
    BetaIsBackward(c, n, u);
    MulPos(Evidence(c, t), Tail(c, n, u), e);
  }

  lemma AllGammaScaled(c: Chain, n: nat, t: nat, p: real, q: real, e: real)
    requires Positive(c) && t < n && p == Evidence(c, t) && q == Tail(c, n, t) && e == p * q
    ensures forall i :: 0 <= i < c.k ==> PartAt(c.k, n, t, WeightOf(c))(i) == e * GammaRaw(c, n, t)(i)
  {
    forall i | 0 <= i < c.k ensures PartAt(c.k, n, t, WeightOf(c))(i) == e * GammaRaw(c, n, t)(i) {
      GammaScaled(c, n, t, i, p, q, e, WeightAt(c, n, t, i), Hat(c, t, i), BetaHat(c, n, t, i), GammaRaw(c, n, t)(i));
    }
  }

  /** gamma[t] is the whole-series posterior: the share of all paths in state s at time t. */
  lemma GammaIsPosterior(c: Chain, n: nat, t: nat, s: nat)
    requires Positive(c) && t < n && s < c.k
    ensures Gamma(c, n, t, s) * TotalWeight(c, n) == WeightAt(c, n, t, s)
    ensures StateSum(GammaRaw(c, n, t), c.k) > 0.0
  {
    LikelihoodIsPathSum(c, n);
    PartsAddUp(c.k, n, t, WeightOf(c));
    var e := Evidence(c, t) * Tail(c, n, t);
    ScalesPositive(c, n, t, t, e);
    AllGammaScaled(c, n, t, Evidence(c, t), Tail(c, n, t), e);
    NormalisedShares(GammaRaw(c, n, t), PartAt(c.k, n, t, WeightOf(c)), e, c.k, TotalWeight(c, n), s);
  }

  function GammaAt(c: Chain, n: nat, t: nat): nat -> real
    requires t < n
  {
    (s: nat) => Gamma(c, n, t, s)
  }

  /** Each gamma row is a probability vector with no zero entry. */
  lemma GammaSumsToOne(c: Chain, n: nat, t: nat)
    requires Positive(c) && t < n
    ensures StateSum(GammaAt(c, n, t), c.k) == 1.0
    ensures forall s :: 0 <= s < c.k ==> Gamma(c, n, t, s) > 0.0
  {
    LikelihoodIsPathSum(c, n);
    PartsAddUp(c.k, n, t, WeightOf(c));
    var total := TotalWeight(c, n);
    forall s | 0 <= s < c.k
      ensures PartAt(c.k, n, t, WeightOf(c))(s) == total * GammaAt(c, n, t)(s)
      ensures Gamma(c, n, t, s) > 0.0
    {
      GammaIsPosterior(c, n, t, s);
      assert total * Gamma(c, n, t, s) == Gamma(c, n, t, s) * total;
      WeightAtFactors(c, n, t, s);
      BackwardPositive(c, t, s, n - 1 - t);
      ForwardPositive(c, t, s);
      MulPos(Backward(c, t, s, n - 1 - t), Forward(c, t, s), WeightAt(c, n, t, s));
      PositiveFactor(total, Gamma(c, n, t, s), WeightAt(c, n, t, s));
    }
    ScaleStates(GammaAt(c, n, t), PartAt(c.k, n, t, WeightOf(c)), total, c.k);
    UnitFactor(total, StateSum(GammaAt(c, n, t), c.k), StateSum(PartAt(c.k, n, t, WeightOf(c)), c.k));
  }

  lemma {:induction false} BackwardPositive(c: Chain, t: nat, s: nat, n: nat)
    requires Positive(c)
    ensures Backward(c, t, s, n) > 0.0
    decreases n
  {
    if n > 0 {
      var f := Onward(c, t, s, n);
      forall j | 0 <= j < c.k ensures f(j) > 0.0 {
        BackwardPositive(c, t + 1, j, n - 1);
        var m := c.step(s, j) * c.emit(t + 1, j);
        MulPos(c.step(s, j), c.emit(t + 1, j), m);
        MulPos(m, Backward(c, t + 1, j, n - 1), f(j));
      }
      PositiveStates(f, c.k);
    }
  }
}
