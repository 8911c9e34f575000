/** What the pair trade sees of its prices: the spread of the hedged pair and nothing else
    (tools/pairs_trading.py, trade_pair). */
module SpreadLaws {
  import opened Options
  import opened RealAlgebra
  import opened TradePair
  import opened PairLedgers
  import opened LedgerGaps

  /** The same gaps, and the same spread wherever both legs printed. */
  ghost predicate SameSpread(m: Market, m': Market) {
    SameGaps(m, m') && forall k :: Alive(m, k) ==> Spread(m', k) == Spread(m, k)
  }

  lemma SameScore(m: Market, m': Market, k: nat)
    requires m.pair.sd > 0.0 && SameSpread(m, m') && Alive(m, k)
    ensures Alive(m', k) && Z(m', k) == Z(m, k)
  {
    SignalsAreSpread(m, k);
    SignalsAreSpread(m', k);
  }

  lemma SameEarnings(m: Market, m': Market, k: nat, b: Book)
    requires m.pair.sd > 0.0 && SameSpread(m, m') && Alive(m, k)
    ensures Earned(m', k, b) == Earned(m, k, b)
  {
    if b.pos != 0 && k > 0 && Alive(m, k - 1) {
      BarReturnIsMove(m, b.pos, k);
      BarReturnIsMove(m', b.pos, k);
    }
  }

  lemma SameBar(m: Market, m': Market, k: nat, b: Book)
    requires m.pair.sd > 0.0 && SameSpread(m, m')
    ensures Step(m', k, b) == Step(m, k, b)
  {
    if Alive(m, k) {
      SameScore(m, m', k);
      SameEarnings(m, m', k, b);
    }
  }

  /** Main result: markets with the same gaps and the same spread have the same book. */
  lemma {:induction false} BookSeesOnlyTheSpread(m: Market, m': Market, k: nat)
    requires m.pair.sd > 0.0 && m.t0 <= k && SameSpread(m, m')
    ensures Run(m', k) == Run(m, k)
    decreases k
  {
    if k > m.t0 {
      BookSeesOnlyTheSpread(m, m', k - 1);
      SameBar(m, m', k - 1, Run(m, k - 1));
    }
  }

  function Moved(leg: seq<Option<real>>, change: nat -> real): seq<Option<real>> {
    seq(|leg|, (k: nat) requires k < |leg| => if leg[k].None? then None else Some(leg[k].value + change(k)))
  }

  /** Every print of the second leg moved by d, and of the first leg by beta times that. */
  function Hedged(m: Market, d: nat -> real): Market {
    m.(la := Moved(m.la, (k: nat) => m.pair.beta * d(k)), lb := Moved(m.lb, d))
  }

  lemma HedgedSpread(m: Market, d: nat -> real, k: nat)
    requires Alive(m, k)
    ensures Spread(Hedged(m, d), k) == Spread(m, k)
  {
    Distribute(m.pair.beta, Price(m.lb, k), d(k));
  }

  /** A move that the hedge ratio hedges changes nothing: no trade, no return, no bar. */
  lemma HedgedMovesAreInvisible(m: Market, d: nat -> real)
    requires ValidMarket(m)
    ensures Run(Hedged(m, d), m.t1) == Run(m, m.t1)
  {
    forall k: nat | Alive(m, k) ensures Spread(Hedged(m, d), k) == Spread(m, k) {
      HedgedSpread(m, d, k);
    }
    BookSeesOnlyTheSpread(m, Hedged(m, d), m.t1);
  }
}
