/** For which gaps in the prints the two ledgers of a pair can differ (tools/pairs_trading.py,
    trade_pair). */
module LedgerGaps {
  import opened Options
  import opened RealAlgebra
  import opened RealSeq
  import opened TradePair
  import opened PairLedgers

  /** The same leg with other prices: it prints on the same bars. */
  ghost predicate SamePrints(leg: seq<Option<real>>, leg': seq<Option<real>>) {
    |leg| == |leg'| && forall k :: 0 <= k < |leg| ==> (leg[k].Some? <==> leg'[k].Some?)
  }

  /** The same pair, window, cost and gaps; the prices may differ. */
  ghost predicate SameGaps(m: Market, m': Market) {
    m' == m.(la := m'.la, lb := m'.lb) && SamePrints(m.la, m'.la) && SamePrints(m.lb, m'.lb)
  }

  /** A bar of the window on which both legs printed is followed by one on which they did not. */
  ghost predicate CutOffAt(m: Market, k: nat) {
    m.t0 <= k && k + 1 < m.t1 && Alive(m, k) && !Alive(m, k + 1)
  }

  lemma {:induction false} SomeDelisting(trades: seq<Trade>)
    requires Delistings(trades) > 0
    ensures exists i :: 0 <= i < |trades| && trades[i].exit == Delisted
    decreases |trades|
  {
    var k := |trades| - 1;
    if trades[k].exit != Delisted {
      SomeDelisting(trades[..k]);
      var i :| 0 <= i < k && trades[..k][i].exit == Delisted;
      assert trades[i].exit == Delisted;
    }
  }

  lemma DelistedTrade(m: Market, tr: Trade)
    requires m.pair.sd > 0.0 && GoodTrade(m, tr) && tr.exit == Delisted
    ensures tr.ExitBar() > 0 && CutOffAt(m, tr.ExitBar() - 1)
  {
    assert Alive(m, tr.ExitBar() - 1);
  }

  /** A delisted exit is only ever taken where the prints are cut off. */
  lemma DelistedWhereCutOff(m: Market)
    requires ValidMarket(m) && Delistings(Run(m, m.t1).trades) > 0
    ensures exists k :: CutOffAt(m, k)
  {
    var trades := Run(m, m.t1).trades;
    TradesAlwaysGood(m, m.t1);
    SomeDelisting(trades);
    var i :| 0 <= i < |trades| && trades[i].exit == Delisted;
    DelistedTrade(m, trades[i]);
  }

  function Reprice(leg: seq<Option<real>>, k: nat, base: real, spike: real): seq<Option<real>> {
    seq(|leg|, (i: nat) requires i < |leg| => if leg[i].None? then None else Some(if i == k then spike else base))
  }

  /** Prices with a z-score of three on bar k and of zero on every other bar. */
  function Spiked(m: Market, k: nat): Market {
    var base := m.pair.alpha + m.pair.mu;
    m.(la := Reprice(m.la, k, base, base + 3.0 * m.pair.sd), lb := Reprice(m.lb, k, 0.0, 0.0))
  }

  lemma SpikedZ(m: Market, k: nat, j: nat)
    requires m.pair.sd > 0.0 && Alive(m, j)
    ensures Alive(Spiked(m, k), j) && Z(Spiked(m, k), j) == if j == k then 3.0 else 0.0
  {
    assert m.pair.beta * 0.0 == 0.0;
    DivOrder(3.0 * m.pair.sd, m.pair.sd, 3.0 * m.pair.sd / m.pair.sd, 3.0, 3.0 * m.pair.sd);
  }

  /** Before the spike there is nothing to enter. */
  lemma {:induction false} QuietBeforeSpike(m: Market, k: nat, j: nat)
    requires ValidMarket(m) && m.t0 <= j <= k
    ensures Run(Spiked(m, k), j).pos == 0 && Run(Spiked(m, k), j).trades == []
    decreases j
  {
    if j > m.t0 {
      QuietBeforeSpike(m, k, j - 1);
      if Alive(m, j - 1) {
        SpikedZ(m, k, j - 1);
      }
    }
  }

  lemma StepKeepsDelistings(m: Market, k: nat, b: Book)
    requires m.pair.sd > 0.0
    ensures Delistings(b.trades) <= Delistings(Step(m, k, b).trades)
  {
    var after := Step(m, k, b).trades;
    assert after == b.trades || after[..|after| - 1] == b.trades;
  }

  lemma BarKeepsDelistings(m: Market, k: nat)
    requires m.pair.sd > 0.0 && m.t0 < k
    ensures Delistings(Run(m, k - 1).trades) <= Delistings(Run(m, k).trades)
  {
    StepKeepsDelistings(m, k - 1, Run(m, k - 1));
  }

  lemma {:induction false} DelistingsStay(m: Market, j: nat, k: nat)
    requires m.pair.sd > 0.0 && m.t0 <= j <= k
    ensures Delistings(Run(m, j).trades) <= Delistings(Run(m, k).trades)
    decreases k
  {
    if j < k {
      DelistingsStay(m, j, k - 1);
      BarKeepsDelistings(m, k);
    }
  }

  lemma SpikedGaps(m: Market, k: nat)
    ensures SameGaps(m, Spiked(m, k))
  {
  }

  lemma SpikeIsHeld(m: Market, k: nat)
    requires ValidMarket(m) && CutOffAt(m, k)
    ensures Run(Spiked(m, k), k + 1).pos != 0
  {
    QuietBeforeSpike(m, k, k);
    SpikedZ(m, k, k);
  }

  lemma HeldIsDelisted(m: Market, k: nat, b: Book)
    requires m.pair.sd > 0.0 && b.pos != 0 && !Alive(m, k)
    ensures Delistings(Step(m, k, b).trades) > 0
  {
    assert Step(m, k, b).trades[..|b.trades|] == b.trades;
  }

  /** Entered on the spike, delisted on the next bar. */
  lemma SpikeIsCutOff(m: Market, k: nat)
    requires ValidMarket(m) && CutOffAt(m, k)
    ensures Delistings(Run(Spiked(m, k), m.t1).trades) > 0
  {
    var m' := Spiked(m, k);
    SpikeIsHeld(m, k);
    SpikedGaps(m, k);
    HeldIsDelisted(m', k + 1, Run(m', k + 1));
    DelistingsStay(m', k + 2, m.t1);
  }

  ghost predicate LedgersAgree(m: Market)
    requires ValidMarket(m)
  {
    Sum(Run(m, m.t1).daily) == Returns(Run(m, m.t1).trades)
  }

  lemma CostOfNothing(m: Market, trades: seq<Trade>)
    requires m.cost != 0.0
    ensures DelistingCosts(m, trades) == 0.0 <==> Delistings(trades) == 0
  {
    OneCostEach(m, trades);
  }

  lemma AgreeWithoutDelistings(m: Market)
    requires ValidMarket(m) && m.cost != 0.0
    ensures LedgersAgree(m) <==> Delistings(Run(m, m.t1).trades) == 0
  {
    LedgersReconcile(m);
    CostOfNothing(m, Run(m, m.t1).trades);
  }

  lemma DisagreementIsCutOff(m: Market, m': Market)
    requires ValidMarket(m) && m.cost != 0.0 && SameGaps(m, m') && !LedgersAgree(m')
    ensures exists k :: CutOffAt(m, k)
  {
    AgreeWithoutDelistings(m');
    DelistedWhereCutOff(m');
    var k :| CutOffAt(m', k);
    assert CutOffAt(m, k);
  }

  lemma CutOffDisagrees(m: Market, k: nat)
    requires ValidMarket(m) && m.cost != 0.0 && CutOffAt(m, k)
    ensures SameGaps(m, Spiked(m, k)) && !LedgersAgree(Spiked(m, k))
  {
    SpikedGaps(m, k);
    SpikeIsCutOff(m, k);
    AgreeWithoutDelistings(Spiked(m, k));
  }

  /** Main result: for given gaps the two ledgers agree at all prices exactly when the prints are
      cut off nowhere in the window. */
  lemma LedgersAgreeExactlyWhen(m: Market)
    requires ValidMarket(m) && m.cost != 0.0
    ensures (forall m' :: SameGaps(m, m') ==> LedgersAgree(m')) <==> !exists k :: CutOffAt(m, k)
  {
    forall m' | SameGaps(m, m') && !LedgersAgree(m') ensures exists k :: CutOffAt(m, k) {
      DisagreementIsCutOff(m, m');
    }
    forall k: nat | CutOffAt(m, k) ensures SameGaps(m, Spiked(m, k)) && !LedgersAgree(Spiked(m, k)) {
      CutOffDisagrees(m, k);
    }
  }
}
