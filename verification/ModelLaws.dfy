/** What the filtered posterior does when observations tell the states nothing: it follows the
    transition matrix (research/volregime.py, _forward_backward). */
module ModelLaws {
  import opened RealAlgebra
  import opened HmmChain
  import opened Transitions
  import opened VolRegime
  import opened ModelWeights

  /** pi[i] * a[i][s], summed over the first j states i. */
  ghost function FirstStep(m: Hmm, s: nat, j: nat): real
    requires Shaped(m) && s < |m.mu| && j <= |m.mu|
  {
    if j == 0 then 0.0 else FirstStep(m, s, j - 1) + m.pi[j - 1] * m.a[j - 1][s]
  }

  /** One of pi, summed over the first j states. */
  ghost function Starts(m: Hmm, j: nat): real
    requires j <= |m.pi|
  {
    if j == 0 then 0.0 else Starts(m, j - 1) + m.pi[j - 1]
  }

  ghost function RowTotal(row: seq<real>, j: nat): real
    requires j <= |row|
  {
    if j == 0 then 0.0 else RowTotal(row, j - 1) + row[j - 1]
  }

  /** The observation at bar t is equally likely, e, in every state. */
  ghost predicate Uninformative(density: Density, m: Hmm, x: seq<real>, t: nat, e: real)
    requires Shaped(m) && t < |x|
  {
    e > 0.0 && forall s :: 0 <= s < |m.mu| ==> density(x[t], m.mu[s], m.vars[s]) == e
  }

  lemma {:induction false} IntoSecond(density: Density, m: Hmm, x: seq<real>, s: nat, j: nat, e: real)
    requires Shaped(m) && |x| >= 2 && s < |m.mu| && j <= |m.mu| && Uninformative(density, m, x, 0, e)
    ensures StateSum(Into(ChainOf(density, m, x), 1, s), j) == e * FirstStep(m, s, j)
    decreases j
  {
    if j > 0 {
      IntoSecond(density, m, x, s, j - 1, e);
      var c := ChainOf(density, m, x);
      assert Forward(c, 0, j - 1) == m.pi[j - 1] * e;
      assert m.a[j - 1][s] * (m.pi[j - 1] * e) == e * (m.pi[j - 1] * m.a[j - 1][s]);
      Distribute(e, FirstStep(m, s, j - 1), m.pi[j - 1] * m.a[j - 1][s]);
    } else {
      assert e * 0.0 == 0.0;
    }
  }

  /** The weight in s after one step through uninformative observations. */
  lemma SecondForward(density: Density, m: Hmm, x: seq<real>, s: nat, e: real, e': real, ee: real)
    requires Shaped(m) && |x| >= 2 && s < |m.mu| && ee == e' * e
    requires Uninformative(density, m, x, 0, e) && Uninformative(density, m, x, 1, e')
    ensures Forward(ChainOf(density, m, x), 1, s) == ee * FirstStep(m, s, |m.mu|)
  {
    var c := ChainOf(density, m, x);
    IntoSecond(density, m, x, s, |m.mu|, e);
    assert c.emit(1, s) == e';
    Rebracket(e', e, ee, FirstStep(m, s, |m.mu|), StateSum(Into(c, 1, s), |m.mu|));
  }

  lemma Rebracket(e': real, e: real, ee: real, f: real, ef: real)
    requires ee == e' * e && ef == e * f
    ensures e' * ef == ee * f
  {
  }

  function Entry(row: seq<real>, p: real): nat -> real {
    (s: nat) => if s < |row| then p * row[s] else 0.0
  }

  lemma {:induction false} ScaledRow(row: seq<real>, p: real, j: nat)
    requires j <= |row|
    ensures StateSum(Entry(row, p), j) == p * RowTotal(row, j)
    decreases j
  {
    if j > 0 {
      ScaledRow(row, p, j - 1);
      Distribute(p, RowTotal(row, j - 1), row[j - 1]);
    } else {
      assert p * 0.0 == 0.0;
    }
  }

  ghost function FirstStepAt(m: Hmm, j: nat): nat -> real
    requires Shaped(m) && j <= |m.mu|
  {
    (s: nat) => if s < |m.mu| then FirstStep(m, s, j) else 0.0
  }

  /** The start distribution and every row of transitions sum to one. */
  ghost predicate UnitRows(m: Hmm)
    requires Shaped(m)
  {
    Starts(m, |m.mu|) == 1.0 && forall i :: 0 <= i < |m.mu| ==> RowTotal(m.a[i], |m.mu|) == 1.0
  }

  lemma {:induction false} FirstStepsAddUp(m: Hmm, j: nat)
    requires Shaped(m) && UnitRows(m) && j <= |m.mu|
    ensures StateSum(FirstStepAt(m, j), |m.mu|) == Starts(m, j)
    decreases j
  {
    if j == 0 {
      ZeroStates(FirstStepAt(m, 0), |m.mu|);
    } else {
      FirstStepsAddUp(m, j - 1);
      ScaledRow(m.a[j - 1], m.pi[j - 1], |m.mu|);
      AddStates(FirstStepAt(m, j - 1), Entry(m.a[j - 1], m.pi[j - 1]), FirstStepAt(m, j), |m.mu|);
    }
  }

  lemma SecondTotal(density: Density, m: Hmm, x: seq<real>, e: real, e': real, ee: real)
    requires Shaped(m) && UnitRows(m) && |x| >= 2 && ee == e' * e
    requires Uninformative(density, m, x, 0, e) && Uninformative(density, m, x, 1, e')
    ensures StateSum(ForwardAt(ChainOf(density, m, x), 1), |m.mu|) == ee
  {
    var f, g := FirstStepAt(m, |m.mu|), ForwardAt(ChainOf(density, m, x), 1);
    forall s: nat | s < |m.mu| ensures g(s) == ee * f(s) {
      SecondForward(density, m, x, s, e, e', ee);
    }
    FirstStepsAddUp(m, |m.mu|);
    ScaledToOne(f, g, ee, |m.mu|);
  }

  lemma ScaledToOne(f: nat -> real, g: nat -> real, ee: real, k: nat)
    requires StateSum(f, k) == 1.0 && forall i :: 0 <= i < k ==> g(i) == ee * f(i)
    ensures StateSum(g, k) == ee
  {
    ScaleStates(f, g, ee, k);
  }

  lemma SecondWeights(density: Density, m: Hmm, x: seq<real>, s: nat, e: real, e': real, ee: real)
    requires PositiveDensity(density) && ValidHmm(m) && UnitRows(m) && |x| >= 2 && s < |m.mu| && ee == e' * e
    requires Uninformative(density, m, x, 0, e) && Uninformative(density, m, x, 1, e')
    ensures EndingIn(density, m, x, 1, s) == ee * FirstStep(m, s, |m.mu|)
    ensures Total(density, m, x, 2) == ee
  {
    var c := ChainOf(density, m, x);
    ChainIsPositive(density, m, x);
    ForwardIsPathSum(c, 1, s);
    AtIs(density, m, x, 2, 1, s);
    TotalIsForward(c, 1);
    TotalIs(density, m, x, 2);
    SecondForward(density, m, x, s, e, e', ee);
    SecondTotal(density, m, x, e, e', ee);
  }

  lemma ShareIs(h: real, part: real, total: real, p: real)
    requires IsShare(h, part, total) && part == total * p
    ensures h == p
  {
    ScaleOrder(total, h, p, part, part);
    ScaleOrder(total, p, h, part, part);
  }

  /** Main result: when the first two observations are equally likely in every state, the second
      filtered row is the start distribution moved one step by the transition matrix, from row to
      column. */
  lemma UninformedFilterFollowsTheChain(density: Density, m: Hmm, x: seq<real>, row: seq<real>, s: nat,
          e: real, e': real)
    requires PositiveDensity(density) && ValidHmm(m) && UnitRows(m) && |x| >= 2 && s < |m.mu|
    requires Uninformative(density, m, x, 0, e) && Uninformative(density, m, x, 1, e')
    requires IsFilteredRow(density, m, x, 1, row)
    ensures row[s] == FirstStep(m, s, |m.mu|)
  {
    SecondWeights(density, m, x, s, e, e', e' * e);
    ShareIs(row[s], EndingIn(density, m, x, 1, s), Total(density, m, x, 2), FirstStep(m, s, |m.mu|));
  }
}
