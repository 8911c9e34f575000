/** The array-filling passes of _forward_backward and the estimation loop of fit_hmm, proved
    against the recursions (research/volregime.py). */
module BaumWelch {
  import opened RealAlgebra
  import opened HmmChain
  import opened ScaledChain
  import opened Transitions
  import opened VolRegime
  import opened ModelWeights

  type Row = seq<real>

  /** The row holds f's values on the k states. */
  ghost predicate RowIs(row: Row, f: nat -> real, k: nat) {
    |row| == k && forall s :: 0 <= s < k ==> row[s] == f(s)
  }

  function ValueOf(row: Row): nat -> real {
    (s: nat) => if s < |row| then row[s] else 0.0
  }

  lemma ValueIs(row: Row, f: nat -> real, k: nat, s: nat)
    requires RowIs(row, f, k) && s < k
    ensures ValueOf(row)(s) == f(s)
  {
  }

  /** Add up a row. */
  function RowSum(row: Row): real {
    StateSum(ValueOf(row), |row|)
  }

  lemma RowSumIs(row: Row, f: nat -> real, k: nat)
    requires RowIs(row, f, k)
    ensures RowSum(row) == StateSum(f, k)
  {
    SameStates(ValueOf(row), f, k);
  }

  /** Divide a row by its own sum. */
  method NormaliseRow(row: Row, total: real) returns (out: Row)
    ensures |out| == |row| && forall s :: 0 <= s < |row| ==> out[s] == Share(row[s], total)
  {
    out := [];
    for s := 0 to |row|
      invariant |out| == s && forall u :: 0 <= u < s ==> out[u] == Share(row[u], total)
    {
      out := out + [Share(row[s], total)];
    }
  }

  /** What every state of the bar before sends into state s. */
  function Arriving(c: Chain, before: Row, s: nat): nat -> real {
    (j: nat) => c.step(j, s) * ValueOf(before)(j)
  }

  lemma ArrivingIs(c: Chain, t: nat, before: Row, s: nat)
    requires t > 0 && RowIs(before, HatAt(c, t - 1), c.k)
    ensures StateSum(Arriving(c, before, s), c.k) == StateSum(IntoHat(c, t, s), c.k)
  {
    forall j | 0 <= j < c.k ensures Arriving(c, before, s)(j) == IntoHat(c, t, s)(j) {
      ValueIs(before, HatAt(c, t - 1), c.k, j);
      assert ValueOf(before)(j) == Hat(c, t - 1, j);
    }
    SameStates(Arriving(c, before, s), IntoHat(c, t, s), c.k);
  }

  /** One raw forward row from the scaled row before it. */
  method ForwardRow(c: Chain, t: nat, before: Row) returns (row: Row)
    requires t > 0 ==> RowIs(before, HatAt(c, t - 1), c.k)
    ensures RowIs(row, RawAt(c, t), c.k)
  {
    row := [];
    for s := 0 to c.k
      invariant |row| == s && forall u :: 0 <= u < s ==> row[u] == Raw(c, t, u)
    {
      if t == 0 {
        row := row + [c.init(s) * c.emit(0, s)];
      } else {
        ArrivingIs(c, t, before, s);
        row := row + [c.emit(t, s) * StateSum(Arriving(c, before, s), c.k)];
      }
    }
  }

  /** One scaled forward row and its scale factor. */
  method ScaledForwardRow(c: Chain, t: nat, before: Row) returns (row: Row, scale: real)
    requires t > 0 ==> RowIs(before, HatAt(c, t - 1), c.k)
    ensures RowIs(row, HatAt(c, t), c.k) && scale == Scale(c, t)
  {
    var raw := ForwardRow(c, t, before);
    RowSumIs(raw, RawAt(c, t), c.k);
    scale := RowSum(raw);
    row := NormaliseRow(raw, scale);
    assert scale == Scale(c, t);
    forall s | 0 <= s < c.k ensures row[s] == HatAt(c, t)(s) {
      assert raw[s] == RawAt(c, t)(s) == Raw(c, t, s);
      assert Hat(c, t, s) == Share(Raw(c, t, s), Scale(c, t));
    }
  }

  /** The forward pass: every row scaled to sum to one as soon as it is filled. */
  method ForwardPass(c: Chain, n: nat) returns (alpha: array<Row>, scales: array<real>)
    ensures fresh(alpha) && fresh(scales) && alpha.Length == n && scales.Length == n
    ensures forall t :: 0 <= t < n ==> RowIs(alpha[t], HatAt(c, t), c.k)
    ensures forall t :: 0 <= t < n ==> scales[t] == Scale(c, t)
  {
    alpha, scales := new Row[n](_ => []), new real[n](_ => 0.0);
    for t := 0 to n
      invariant forall u :: 0 <= u < t ==> RowIs(alpha[u], HatAt(c, u), c.k)
      invariant forall u :: 0 <= u < t ==> scales[u] == Scale(c, u)
    {
      var row, scale := ScaledForwardRow(c, t, if t == 0 then [] else alpha[t - 1]);
      alpha[t], scales[t] := row, scale;
    }
  }

  /** The likelihood of the series: the product of the scale factors. */
  method Likelihood(c: Chain, scales: seq<real>) returns (likelihood: real)
    requires |scales| >= 1 && forall t :: 0 <= t < |scales| ==> scales[t] == Scale(c, t)
    ensures likelihood == Evidence(c, |scales| - 1)
  {
    likelihood := scales[0];
    for t := 1 to |scales|
      invariant likelihood == Evidence(c, t - 1)
    {
      likelihood := likelihood * scales[t];
    }
  }

  /** What state s sends onward through every state of the next bar. */
  function Leaving(c: Chain, t: nat, s: nat, after: Row): nat -> real {
    (j: nat) => c.step(s, j) * c.emit(t + 1, j) * ValueOf(after)(j)
  }

  function BetaAt(c: Chain, n: nat, t: nat): nat -> real
    requires t < n
  {
    (s: nat) => BetaHat(c, n, t, s)
  }

  lemma LeavingTerm(c: Chain, n: nat, t: nat, s: nat, after: Row, j: nat)
    requires t + 1 < n && RowIs(after, BetaAt(c, n, t + 1), c.k) && j < c.k
    ensures Leaving(c, t, s, after)(j) == OnwardHat(c, n, t, s)(j)
  {
    ValueIs(after, BetaAt(c, n, t + 1), c.k, j);
    SameProduct(c.step(s, j), c.emit(t + 1, j), ValueOf(after)(j), BetaHat(c, n, t + 1, j));
  }

  lemma SameProduct(a: real, b: real, x: real, y: real)
    requires x == y
    ensures a * b * x == a * b * y
  {
  }

  lemma LeavingIs(c: Chain, n: nat, t: nat, s: nat, after: Row)
    requires t + 1 < n && RowIs(after, BetaAt(c, n, t + 1), c.k)
    ensures StateSum(Leaving(c, t, s, after), c.k) == StateSum(OnwardHat(c, n, t, s), c.k)
  {
    forall j | 0 <= j < c.k ensures Leaving(c, t, s, after)(j) == OnwardHat(c, n, t, s)(j) {
      LeavingTerm(c, n, t, s, after, j);
    }
    SameStates(Leaving(c, t, s, after), OnwardHat(c, n, t, s), c.k);
  }

  method BackwardRow(c: Chain, n: nat, t: nat, after: Row, scale: real) returns (row: Row)
    requires t < n && scale == Scale(c, t)
    requires t + 1 < n ==> RowIs(after, BetaAt(c, n, t + 1), c.k)
    ensures RowIs(row, BetaAt(c, n, t), c.k)
  {
    row := [];
    for s := 0 to c.k
      invariant |row| == s && forall u :: 0 <= u < s ==> row[u] == BetaHat(c, n, t, u)
    {
      if t == n - 1 {
        row := row + [Share(1.0, scale)];
      } else {
        LeavingIs(c, n, t, s, after);
        row := row + [Share(StateSum(Leaving(c, t, s, after), c.k), scale)];
      }
    }
  }

  /** The backward pass, filling beta from its last row to its first. */
  method BackwardPass(c: Chain, n: nat, scales: array<real>) returns (beta: array<Row>)
    requires n >= 1 && scales.Length == n && forall t :: 0 <= t < n ==> scales[t] == Scale(c, t)
    ensures fresh(beta) && beta.Length == n
    ensures forall t :: 0 <= t < n ==> RowIs(beta[t], BetaAt(c, n, t), c.k)
  {
    beta := new Row[n](_ => []);
    var t := n;
    while t > 0
      invariant 0 <= t <= n
      invariant forall u :: t <= u < n ==> RowIs(beta[u], BetaAt(c, n, u), c.k)
    {
      t := t - 1;
      beta[t] := BackwardRow(c, n, t, if t + 1 < n then beta[t + 1] else [], scales[t]);
    }
  }

  method MultiplyRows(a: Row, b: Row) returns (out: Row)
    requires |a| == |b|
    ensures |out| == |a| && forall s :: 0 <= s < |a| ==> out[s] == a[s] * b[s]
  {
    out := [];
    for s := 0 to |a|
      invariant |out| == s && forall u :: 0 <= u < s ==> out[u] == a[u] * b[u]
    {
      out := out + [a[s] * b[s]];
    }
  }

  /** One row of gamma from the two scaled rows. */
  method GammaRow(c: Chain, n: nat, t: nat, alpha: Row, beta: Row) returns (row: Row)
    requires t < n && RowIs(alpha, HatAt(c, t), c.k) && RowIs(beta, BetaAt(c, n, t), c.k)
    ensures RowIs(row, GammaAt(c, n, t), c.k)
  {
    var raw := MultiplyRows(alpha, beta);
    RowSumIs(raw, GammaRaw(c, n, t), c.k);
    row := NormaliseRow(raw, RowSum(raw));
  }

  method GammaPass(c: Chain, n: nat, alpha: array<Row>, beta: array<Row>) returns (gamma: array<Row>)
    requires alpha.Length == n && beta.Length == n
    requires forall t :: 0 <= t < n ==> RowIs(alpha[t], HatAt(c, t), c.k) && RowIs(beta[t], BetaAt(c, n, t), c.k)
    ensures fresh(gamma) && gamma.Length == n
    ensures forall t :: 0 <= t < n ==> RowIs(gamma[t], GammaAt(c, n, t), c.k)
  {
    gamma := new Row[n](_ => []);
    for t := 0 to n
      invariant forall u :: 0 <= u < t ==> RowIs(gamma[u], GammaAt(c, n, u), c.k)
    {
      gamma[t] := GammaRow(c, n, t, alpha[t], beta[t]);
    }
  }

  // ---------------------------------------------------------------------------
  // xi
  // ---------------------------------------------------------------------------

  ghost predicate MatrixIs(rows: seq<Row>, f: nat -> nat -> real, k: nat) {
    |rows| == k && forall i :: 0 <= i < k ==> RowIs(rows[i], f(i), k)
  }

  function XiRaws(c: Chain, n: nat, t: nat): nat -> nat -> real
    requires t + 1 < n
  {
    (i: nat) => XiRaw(c, n, t, i)
  }

  method XiRawRow(c: Chain, n: nat, t: nat, i: nat, alpha: Row, beta: Row) returns (row: Row)
    requires t + 1 < n && i < c.k && RowIs(alpha, HatAt(c, t), c.k) && RowIs(beta, BetaAt(c, n, t + 1), c.k)
    ensures RowIs(row, XiRaw(c, n, t, i), c.k)
  {
    row := [];
    for j := 0 to c.k
      invariant |row| == j && forall u :: 0 <= u < j ==> row[u] == XiRaw(c, n, t, i)(u)
    {
      assert alpha[i] == Hat(c, t, i) && beta[j] == BetaHat(c, n, t + 1, j);
      row := row + [alpha[i] * c.step(i, j) * c.emit(t + 1, j) * beta[j]];
    }
  }

  /** The unnormalised transition matrix of one step, and its total. */
  method XiRawMatrix(c: Chain, n: nat, t: nat, alpha: Row, beta: Row) returns (rows: seq<Row>, total: real)
    requires t + 1 < n && RowIs(alpha, HatAt(c, t), c.k) && RowIs(beta, BetaAt(c, n, t + 1), c.k)
    ensures MatrixIs(rows, XiRaws(c, n, t), c.k) && total == StateSum(XiRow(c, n, t), c.k)
  {
    rows, total := [], 0.0;
    for i := 0 to c.k
      invariant |rows| == i && forall u :: 0 <= u < i ==> RowIs(rows[u], XiRaw(c, n, t, u), c.k)
      invariant total == StateSum(XiRow(c, n, t), i)
    {
      var row := XiRawRow(c, n, t, i, alpha, beta);
      RowSumIs(row, XiRaw(c, n, t, i), c.k);
      rows, total := rows + [row], total + RowSum(row);
    }
  }

  method AddXiRow(c: Chain, n: nat, t: nat, i: nat, sums: Row, raw: Row, total: real) returns (out: Row)
    requires t + 1 < n && i < c.k
    requires RowIs(sums, XiSumAt(c, n, t, i), c.k) && RowIs(raw, XiRaw(c, n, t, i), c.k)
    requires total == StateSum(XiRow(c, n, t), c.k)
    ensures RowIs(out, XiSumAt(c, n, t + 1, i), c.k)
  {
    out := [];
    for j := 0 to c.k
      invariant |out| == j && forall u :: 0 <= u < j ==> out[u] == XiSum(c, n, t + 1, i, u)
    {
      assert sums[j] == XiSum(c, n, t, i, j) && raw[j] == XiRaw(c, n, t, i)(j);
      out := out + [sums[j] + Share(raw[j], total)];
    }
  }

  /** Add one step's normalised transitions to the running sums. */
  method AddXiStep(c: Chain, n: nat, t: nat, raw: seq<Row>, total: real, xi: array<Row>)
    requires t + 1 < n && MatrixIs(raw, XiRaws(c, n, t), c.k) && total == StateSum(XiRow(c, n, t), c.k)
    requires xi.Length == c.k && forall i :: 0 <= i < c.k ==> RowIs(xi[i], XiSumAt(c, n, t, i), c.k)
    modifies xi
    ensures forall i :: 0 <= i < c.k ==> RowIs(xi[i], XiSumAt(c, n, t + 1, i), c.k)
  {
    for i := 0 to c.k
      invariant forall u :: 0 <= u < i ==> RowIs(xi[u], XiSumAt(c, n, t + 1, u), c.k)
      invariant forall u :: i <= u < c.k ==> RowIs(xi[u], XiSumAt(c, n, t, u), c.k)
    {
      assert RowIs(raw[i], XiRaws(c, n, t)(i), c.k);
      xi[i] := AddXiRow(c, n, t, i, xi[i], raw[i], total);
    }
  }

  /** xi summed over the series, one step at a time. */
  method XiPass(c: Chain, n: nat, alpha: array<Row>, beta: array<Row>) returns (xi: array<Row>)
    requires n >= 1 && alpha.Length == n && beta.Length == n
    requires forall t :: 0 <= t < n ==> RowIs(alpha[t], HatAt(c, t), c.k) && RowIs(beta[t], BetaAt(c, n, t), c.k)
    ensures fresh(xi) && xi.Length == c.k
    ensures forall i :: 0 <= i < c.k ==> RowIs(xi[i], XiSumAt(c, n, n - 1, i), c.k)
  {
    xi := new Row[c.k](_ => seq(c.k, _ => 0.0));
    for t := 0 to n - 1
      invariant forall i :: 0 <= i < c.k ==> RowIs(xi[i], XiSumAt(c, n, t, i), c.k)
    {
      var raw, total := XiRawMatrix(c, n, t, alpha[t], beta[t + 1]);
      AddXiStep(c, n, t, raw, total, xi);
    }
  }

  /** Rows that hold the recursions' values are shares of the model's path weights. */
  lemma RowsOfModel(density: Density, m: Hmm, x: seq<real>, gamma: seq<Row>, xi: seq<Row>, filtered: seq<Row>)
    requires PositiveDensity(density) && ValidHmm(m) && |x| >= 1
    requires |gamma| == |filtered| == |x| && |xi| == |m.mu|
    requires forall t :: 0 <= t < |x| ==> RowIs(gamma[t], GammaAt(ChainOf(density, m, x), |x|, t), |m.mu|)
    requires forall i :: 0 <= i < |m.mu| ==> RowIs(xi[i], XiSumAt(ChainOf(density, m, x), |x|, |x| - 1, i), |m.mu|)
    requires forall t :: 0 <= t < |x| ==> RowIs(filtered[t], HatAt(ChainOf(density, m, x), t), |m.mu|)
    ensures forall t :: 0 <= t < |x| ==>
              IsGammaRow(density, m, x, t, gamma[t]) && IsFilteredRow(density, m, x, t, filtered[t])
    ensures forall i :: 0 <= i < |m.mu| ==> IsXiRow(density, m, x, i, xi[i])
  {
    forall t: nat | t < |x|
      ensures IsGammaRow(density, m, x, t, gamma[t]) && IsFilteredRow(density, m, x, t, filtered[t])
    {
      GammaRowOfModel(density, m, x, t, gamma[t]);
      FilteredRowOfModel(density, m, x, t, filtered[t]);
    }
    forall i: nat | i < |m.mu| ensures IsXiRow(density, m, x, i, xi[i]) {
      XiRowOfModel(density, m, x, i, xi[i]);
    }
  }

  /** _forward_backward: the smoothed posterior, the expected transitions, exp(loglik) and the
      filtered posterior. */
  method ForwardBackward(density: Density, m: Hmm, x: seq<real>)
    returns (gamma: array<Row>, xi: array<Row>, likelihood: real, filtered: array<Row>)
    requires |x| >= 1
    ensures gamma.Length == |x| && xi.Length == |m.mu| && filtered.Length == |x|
    ensures var c, n := ChainOf(density, m, x), |x|;
            && (forall t :: 0 <= t < n ==> RowIs(gamma[t], GammaAt(c, n, t), c.k))
            && (forall i :: 0 <= i < c.k ==> RowIs(xi[i], XiSumAt(c, n, n - 1, i), c.k))
            && likelihood == Evidence(c, n - 1)
            && (forall t :: 0 <= t < n ==> RowIs(filtered[t], HatAt(c, t), c.k))
    ensures PositiveDensity(density) && ValidHmm(m) ==>
              && likelihood == Total(density, m, x, |x|) > 0.0
              && (forall t :: 0 <= t < |x| ==> IsGammaRow(density, m, x, t, gamma[t]))
              && (forall i :: 0 <= i < |m.mu| ==> IsXiRow(density, m, x, i, xi[i]))
              && (forall t :: 0 <= t < |x| ==> IsFilteredRow(density, m, x, t, filtered[t]))
  {
    var c, n := ChainOf(density, m, x), |x|;
    var scales;
    filtered, scales := ForwardPass(c, n);
    var beta := BackwardPass(c, n, scales);
    gamma := GammaPass(c, n, filtered, beta);
    xi := XiPass(c, n, filtered, beta);
    likelihood := Likelihood(c, scales[..]);
    if PositiveDensity(density) && ValidHmm(m) {
      LikelihoodOfModel(density, m, x, |x|);
      RowsOfModel(density, m, x, gamma[..], xi[..], filtered[..]);
      assert forall t :: 0 <= t < |x| ==> gamma[..][t] == gamma[t] && filtered[..][t] == filtered[t];
      assert forall i :: 0 <= i < |m.mu| ==> xi[..][i] == xi[i];
    }
  }

  lemma RowLabel(density: Density, m: Hmm, x: seq<real>, i: nat, row: Row)
    requires |m.mu| >= 1 && RowIs(row, HatAt(ChainOf(density, m, x), i), |m.mu|)
    ensures LikeliestState(ValueOf(row), |m.mu|) == LabelAt(density, m, x, i)
  {
    SameLikeliestState(ValueOf(row), HatAt(ChainOf(density, m, x), i), |m.mu|);
  }

  /** Per-bar labels from the filtered posterior. */
  method HmmLabelPath(density: Density, m: Hmm, x: seq<real>) returns (labels: seq<nat>)
    requires |x| >= 1 && |m.mu| >= 1
    ensures |labels| == |x| && forall i :: 0 <= i < |x| ==> labels[i] == LabelAt(density, m, x, i)
    ensures PositiveDensity(density) && ValidHmm(m) ==>
              forall i :: 0 <= i < |x| ==> Heaviest(density, m, x, i, labels[i])
  {
    ghost var c := ChainOf(density, m, x);
    var gamma, xi, likelihood, filtered := ForwardBackward(density, m, x);
    var rows := filtered[..];
    assert forall t :: 0 <= t < |x| ==> RowIs(rows[t], HatAt(c, t), c.k);
    labels := [];
    for i := 0 to |x|
      invariant |labels| == i && forall u :: 0 <= u < i ==> labels[u] == LabelAt(density, m, x, u)
    {
      RowLabel(density, m, x, i, rows[i]);
      labels := labels + [LikeliestState(ValueOf(rows[i]), |m.mu|)];
    }
    if PositiveDensity(density) && ValidHmm(m) {
      forall i: nat | i < |x| ensures Heaviest(density, m, x, i, labels[i]) {
        LabelIsHeaviest(density, m, x, i);
      }
    }
  }

  // ---------------------------------------------------------------------------
  // The M-step and the estimation loop
  // ---------------------------------------------------------------------------

  const MIN_WEIGHT: real := 0.000000000001
  const VARIANCE_FLOOR: real := 0.00000001

  function GammaColumn(c: Chain, n: nat, s: nat): nat -> real {
    (t: nat) => if t < n then Gamma(c, n, t, s) else 0.0
  }

  /** Each observation, weighted by how likely its bar was spent in state s. */
  function WeightedColumn(c: Chain, n: nat, s: nat, x: seq<real>): nat -> real {
    (t: nat) => if t < n && t < |x| then Gamma(c, n, t, s) * x[t] else 0.0
  }

  /** Each observation's squared distance from mu, weighted the same way. */
  function SpreadColumn(c: Chain, n: nat, s: nat, x: seq<real>, mu: real): nat -> real {
    (t: nat) => if t < n && t < |x| then Gamma(c, n, t, s) * ((x[t] - mu) * (x[t] - mu)) else 0.0
  }

  function NewMu(c: Chain, n: nat, s: nat, x: seq<real>, old_: real): real {
    var weight := StateSum(GammaColumn(c, n, s), n);
    if weight < MIN_WEIGHT then old_ else Share(StateSum(WeightedColumn(c, n, s, x), n), weight)
  }

  function NewVar(c: Chain, n: nat, s: nat, x: seq<real>, old_: real, mu: real): real {
    var weight := StateSum(GammaColumn(c, n, s), n);
    if weight < MIN_WEIGHT then old_ else Share(StateSum(SpreadColumn(c, n, s, x, mu), n), weight) + VARIANCE_FLOOR
  }

  /** One Baum-Welch iteration. */
  function EmStep(density: Density, m: Hmm, x: seq<real>): Hmm
    requires |m.mu| == |m.vars| && |x| >= 1
  {
    var c, n, k := ChainOf(density, m, x), |x|, |m.mu|;
    Hmm(seq(k, s requires 0 <= s < k => NewMu(c, n, s, x, m.mu[s])),
        seq(k, s requires 0 <= s < k => NewVar(c, n, s, x, m.vars[s], NewMu(c, n, s, x, m.mu[s]))),
        seq(k, (i: nat) requires i < k => seq(k, (j: nat) => NewStep(c, n, i, j))),
        seq(k, (s: nat) => Share(Gamma(c, n, 0, s), StateSum(GammaAt(c, n, 0), k))))
  }

  lemma {:induction false} NonNegativeStates(f: nat -> real, j: nat)
    requires forall i :: 0 <= i < j ==> f(i) >= 0.0
    ensures StateSum(f, j) >= 0.0
    decreases j
  {
    if j > 0 {
      NonNegativeStates(f, j - 1);
    }
  }

  lemma NewVarPositive(c: Chain, n: nat, s: nat, x: seq<real>, old_: real, mu: real)
    requires Positive(c) && s < c.k && old_ > 0.0
    ensures NewVar(c, n, s, x, old_, mu) > 0.0
  {
    var f := SpreadColumn(c, n, s, x, mu);
    forall t | 0 <= t < n ensures f(t) >= 0.0 {
      if t < |x| {
        GammaSumsToOne(c, n, t);
        var d2 := (x[t] - mu) * (x[t] - mu);
        SquareSign(x[t] - mu, d2);
        MulNonNeg(Gamma(c, n, t, s), d2, f(t));
      }
    }
    NonNegativeStates(f, n);
    var weight, spread := StateSum(GammaColumn(c, n, s), n), StateSum(f, n);
    if weight >= MIN_WEIGHT {
      DivNonNeg(spread, weight, Share(spread, weight));
    }
  }

  /** An iteration keeps every parameter in the domain of the next forward-backward pass: the
      initial and transition probabilities stay positive and sum to one, the variances positive. */
  lemma EmStepIsValid(density: Density, m: Hmm, x: seq<real>)
    requires PositiveDensity(density) && ValidHmm(m) && |x| >= 1
    ensures ValidHmm(EmStep(density, m, x)) && |EmStep(density, m, x).mu| == |m.mu|
    ensures Stochastic(EmStep(density, m, x))
  {
    var c, n, k, e := ChainOf(density, m, x), |x|, |m.mu|, EmStep(density, m, x);
    ChainIsPositive(density, m, x);
    forall s | 0 <= s < k ensures e.vars[s] > 0.0 {
      NewVarPositive(c, n, s, x, m.vars[s], NewMu(c, n, s, x, m.mu[s]));
    }
    GammaSumsToOne(c, n, 0);
    forall s | 0 <= s < k ensures e.pi[s] == Gamma(c, n, 0, s) > 0.0 {
      ShareTimes(Gamma(c, n, 0, s), 1.0);
    }
    RowSumIs(e.pi, GammaAt(c, n, 0), k);
    forall i | 0 <= i < k ensures |e.a[i]| == k && AllPositive(e.a[i]) && RowSum(e.a[i]) == 1.0 {
      NewRowsAreStochastic(c, n, i);
      RowSumIs(e.a[i], NewRow(c, n, i), k);
    }
  }

  /** The initial distribution and every transition row sum to one. */
  ghost predicate Stochastic(m: Hmm) {
    RowSum(m.pi) == 1.0 && forall i :: 0 <= i < |m.a| ==> RowSum(m.a[i]) == 1.0
  }

  /** The parameters after some iterations. */
  function EmIterate(density: Density, m: Hmm, x: seq<real>, iterations: nat): Hmm
    requires |m.mu| == |m.vars| && |x| >= 1
    ensures |EmIterate(density, m, x, iterations).mu| == |EmIterate(density, m, x, iterations).vars| == |m.mu|
  {
    if iterations == 0 then m else EmStep(density, EmIterate(density, m, x, iterations - 1), x)
  }

  lemma {:induction false} EmKeepsValid(density: Density, m: Hmm, x: seq<real>, iterations: nat)
    requires PositiveDensity(density) && ValidHmm(m) && |x| >= 1
    ensures ValidHmm(EmIterate(density, m, x, iterations))
    ensures iterations > 0 ==> Stochastic(EmIterate(density, m, x, iterations))
    decreases iterations
  {
    if iterations > 0 {
      EmKeepsValid(density, m, x, iterations - 1);
      EmStepIsValid(density, EmIterate(density, m, x, iterations - 1), x);
    }
  }

  // ---------------------------------------------------------------------------
  // The M-step and the loop, computed from the filled arrays
  // ---------------------------------------------------------------------------

  ghost predicate RowsAre(rows: seq<Row>, c: Chain, n: nat) {
    |rows| == n && forall t :: 0 <= t < n ==> RowIs(rows[t], GammaAt(c, n, t), c.k)
  }

  /** The expected number of bars spent in state s. */
  method ColumnWeight(ghost c: Chain, n: nat, rows: seq<Row>, s: nat) returns (weight: real)
    requires RowsAre(rows, c, n) && s < c.k
    ensures weight == StateSum(GammaColumn(c, n, s), n)
  {
    weight := 0.0;
    for t := 0 to n
      invariant weight == StateSum(GammaColumn(c, n, s), t)
    {
      assert rows[t][s] == GammaAt(c, n, t)(s);
      weight := weight + rows[t][s];
    }
  }

  /** The weighted sum of the observations in state s. */
  method ColumnMean(ghost c: Chain, rows: seq<Row>, x: seq<real>, s: nat) returns (weighted: real)
    requires RowsAre(rows, c, |x|) && s < c.k
    ensures weighted == StateSum(WeightedColumn(c, |x|, s, x), |x|)
  {
    weighted := 0.0;
    for t := 0 to |x|
      invariant weighted == StateSum(WeightedColumn(c, |x|, s, x), t)
    {
      assert rows[t][s] == GammaAt(c, |x|, t)(s);
      weighted := weighted + rows[t][s] * x[t];
    }
  }

  /** The weighted sum of their squared distances from mu. */
  method ColumnSpread(ghost c: Chain, rows: seq<Row>, x: seq<real>, s: nat, mu: real) returns (spread: real)
    requires RowsAre(rows, c, |x|) && s < c.k
    ensures spread == StateSum(SpreadColumn(c, |x|, s, x, mu), |x|)
  {
    spread := 0.0;
    for t := 0 to |x|
      invariant spread == StateSum(SpreadColumn(c, |x|, s, x, mu), t)
    {
      assert rows[t][s] == GammaAt(c, |x|, t)(s);
      spread := spread + rows[t][s] * ((x[t] - mu) * (x[t] - mu));
    }
  }

  /** The state-by-state update of mu and var. */
  method UpdateStates(ghost c: Chain, rows: seq<Row>, x: seq<real>, mu0: seq<real>, vars0: seq<real>)
    returns (mu: seq<real>, vars: seq<real>)
    requires RowsAre(rows, c, |x|) && |mu0| == |vars0| == c.k
    ensures |mu| == |vars| == c.k
    ensures forall s :: 0 <= s < c.k ==> mu[s] == NewMu(c, |x|, s, x, mu0[s])
                                         && vars[s] == NewVar(c, |x|, s, x, vars0[s], mu[s])
  {
    mu, vars := mu0, vars0;
    for s := 0 to |mu0|
      invariant |mu| == |vars| == c.k
      invariant forall u :: 0 <= u < s ==> mu[u] == NewMu(c, |x|, u, x, mu0[u])
                                           && vars[u] == NewVar(c, |x|, u, x, vars0[u], mu[u])
      invariant forall u :: s <= u < c.k ==> mu[u] == mu0[u] && vars[u] == vars0[u]
    {
      var weight := ColumnWeight(c, |x|, rows, s);
      if weight >= MIN_WEIGHT {
        var weighted := ColumnMean(c, rows, x, s);
        mu := mu[s := Share(weighted, weight)];
        var spread := ColumnSpread(c, rows, x, s, mu[s]);
        vars := vars[s := Share(spread, weight) + VARIANCE_FLOOR];
      }
    }
  }

  method AddSmoothing(row: Row) returns (out: Row)
    ensures |out| == |row| && forall j :: 0 <= j < |row| ==> out[j] == row[j] + SMOOTHING
  {
    out := [];
    for j := 0 to |row|
      invariant |out| == j && forall u :: 0 <= u < j ==> out[u] == row[u] + SMOOTHING
    {
      out := out + [row[j] + SMOOTHING];
    }
  }

  method UpdateRow(ghost c: Chain, n: nat, i: nat, xi: Row) returns (row: Row)
    requires n >= 1 && RowIs(xi, XiSumAt(c, n, n - 1, i), c.k)
    ensures RowIs(row, NewRow(c, n, i), c.k)
  {
    var smoothed := AddSmoothing(xi);
    RowSumIs(smoothed, Smoothed(c, n, i), c.k);
    row := NormaliseRow(smoothed, RowSum(smoothed));
  }

  method UpdateTransitions(ghost c: Chain, n: nat, xi: seq<Row>) returns (a: seq<Row>)
    requires n >= 1 && |xi| == c.k && forall i :: 0 <= i < c.k ==> RowIs(xi[i], XiSumAt(c, n, n - 1, i), c.k)
    ensures |a| == c.k && forall i :: 0 <= i < c.k ==> RowIs(a[i], NewRow(c, n, i), c.k)
  {
    a := [];
    for i := 0 to |xi|
      invariant |a| == i && forall u :: 0 <= u < i ==> RowIs(a[u], NewRow(c, n, u), c.k)
    {
      var row := UpdateRow(c, n, i, xi[i]);
      a := a + [row];
    }
  }

  /** One iteration from the arrays of one forward-backward pass. */
  method EmIteration(density: Density, m: Hmm, x: seq<real>) returns (next: Hmm, likelihood: real)
    requires |x| >= 1 && |m.mu| == |m.vars| >= 1
    ensures next == EmStep(density, m, x)
    ensures likelihood == Evidence(ChainOf(density, m, x), |x| - 1)
  {
    ghost var c := ChainOf(density, m, x);
    var n := |x|;
    var gamma, xi, filtered;
    gamma, xi, likelihood, filtered := ForwardBackward(density, m, x);
    var rows, xis := gamma[..], xi[..];
    assert forall t :: 0 <= t < n ==> RowIs(rows[t], GammaAt(c, n, t), c.k);
    assert forall i :: 0 <= i < c.k ==> RowIs(xis[i], XiSumAt(c, n, n - 1, i), c.k);
    var first := rows[0];
    RowSumIs(first, GammaAt(c, n, 0), c.k);
    var pi := NormaliseRow(first, RowSum(first));
    var mu, vars := UpdateStates(c, rows, x, m.mu, m.vars);
    var a := UpdateTransitions(c, n, xis);
    next := Hmm(mu, vars, a, pi);
    ghost var e := EmStep(density, m, x);
    assert mu == e.mu && vars == e.vars && pi == e.pi;
    assert a == e.a by {
      forall i | 0 <= i < c.k ensures a[i] == e.a[i] {
        assert RowIs(a[i], NewRow(c, n, i), c.k);
      }
    }
  }

  lemma NextIterate(density: Density, m: Hmm, x: seq<real>, i: nat)
    requires PositiveDensity(density) && ValidHmm(m) && |x| >= 1
    ensures EmIterate(density, m, x, i + 1) == EmStep(density, EmIterate(density, m, x, i), x)
    ensures ValidHmm(EmIterate(density, m, x, i + 1)) && Stochastic(EmIterate(density, m, x, i + 1))
  {
    EmKeepsValid(density, m, x, i + 1);
  }
}
