/** Trading one pair through its out-of-sample window (tools/pairs_trading.py, trade_pair). */
module TradePair {
  import opened Options
  import opened RealAlgebra

  const ENTRY_Z: real := 2.0
  const EXIT_Z: real := 0.5
  const STOP_Z: real := 4.0

  /** The frozen formation-window parameters of a pair. */
  datatype Pair = Pair(beta: real, alpha: real, mu: real, sd: real)

  /** The two legs' log closes, None where a leg did not print; the window [t0, t1); and the
      cost per side. */
  datatype Market = Market(pair: Pair, la: seq<Option<real>>, lb: seq<Option<real>>, t0: nat, t1: nat, cost: real)

  datatype Exit = Delisted | Stop | Revert | WindowEnd

  datatype Trade = Trade(ret: real, bars: nat, ei: nat, exit: Exit, entryZ: real) {
    function ExitBar(): nat {
      ei + bars
    }
  }

  /** The loop's variables. The daily ledger holds one entry per bar already seen. */
  datatype Book = Book(pos: int, cum: real, entryI: nat, entryZ: real, daily: seq<real>, trades: seq<Trade>)

  ghost predicate ValidMarket(m: Market) {
    m.t0 <= m.t1 <= |m.la| == |m.lb| && m.pair.sd > 0.0
  }

  function Price(leg: seq<Option<real>>, k: nat): real {
    if k < |leg| && leg[k].Some? then leg[k].value else 0.0
  }

  predicate Alive(m: Market, k: nat) {
    k < |m.la| && k < |m.lb| && m.la[k].Some? && m.lb[k].Some?
  }

  function Gross(m: Market): (g: real)
    ensures g >= 1.0
  {
    1.0 + Abs(m.pair.beta)
  }

  function Z(m: Market, k: nat): real
    requires m.pair.sd > 0.0
  {
    (Price(m.la, k) - m.pair.beta * Price(m.lb, k) - m.pair.alpha - m.pair.mu) / m.pair.sd
  }

  /** What a position earns on bar k per unit of gross notional: the change of the spread. */
  function BarReturn(m: Market, pos: int, k: nat): real
    requires k > 0
  {
    var ra, rb := Price(m.la, k) - Price(m.la, k - 1), Price(m.lb, k) - Price(m.lb, k - 1);
    pos as real * (ra - m.pair.beta * rb) / Gross(m)
  }

  predicate Reverted(pos: int, z: real) {
    (pos == 1 && z >= -EXIT_Z) || (pos == -1 && z <= EXIT_Z)
  }

  /** One bar, with the return that it earns the position carried into it. */
  function BarStep(m: Market, k: nat, b: Book, step: real): Book
    requires m.pair.sd > 0.0
  {
    if b.pos != 0 && !Alive(m, k) then
      b.(pos := 0, cum := 0.0, daily := b.daily + [0.0],
         trades := b.trades + [Trade(b.cum - m.cost, Bars(k, b.entryI), b.entryI, Delisted, b.entryZ)])
    else if !Alive(m, k) then
      b.(daily := b.daily + [0.0])
    else
      var z := Z(m, k);
      if b.pos != 0 then
        var stop, reverted, last := Abs(z) >= STOP_Z, Reverted(b.pos, z), k + 1 == m.t1;
        if stop || reverted || last then
          b.(pos := 0, cum := 0.0, daily := b.daily + [step - m.cost],
             trades := b.trades + [Trade(b.cum + step - m.cost, Bars(k, b.entryI), b.entryI,
                                         if stop then Stop else if reverted then Revert else WindowEnd, b.entryZ)])
        else b.(cum := b.cum + step, daily := b.daily + [step])
      else if k + 1 < m.t1 && Abs(z) >= ENTRY_Z && Abs(z) < STOP_Z then
        b.(pos := if z > 0.0 then -1 else 1, cum := -m.cost, entryI := k, entryZ := z, daily := b.daily + [-m.cost])
      else b.(daily := b.daily + [0.0])
  }

  /** A held position earns the bar's return if both legs also printed on the bar before. */
  function Earned(m: Market, k: nat, b: Book): real {
    if b.pos != 0 && k > 0 && Alive(m, k - 1) then BarReturn(m, b.pos, k) else 0.0
  }

  function Step(m: Market, k: nat, b: Book): Book
    requires m.pair.sd > 0.0
  {
    BarStep(m, k, b, Earned(m, k, b))
  }

  function Bars(k: nat, entryI: nat): nat {
    if k >= entryI then k - entryI else 0
  }

  const FLAT: Book := Book(0, 0.0, 0, 0.0, [], [])

  /** The book after the bars before k. */
  function Run(m: Market, k: nat): Book
    requires m.pair.sd > 0.0 && m.t0 <= k
  {
    if k == m.t0 then FLAT else Step(m, k - 1, Run(m, k - 1))
  }

  /** The loop body for one bar: the new state and the amount booked to the bar. */
  method TradeBar(m: Market, k: nat, pos0: int, cum0: real, entryI0: nat, entryZ0: real, trades0: seq<Trade>,
          ghost daily: seq<real>)
    returns (pos: int, cum: real, entryI: nat, entryZ: real, trades: seq<Trade>, booked: real)
    requires m.pair.sd > 0.0
    ensures Book(pos, cum, entryI, entryZ, daily + [booked], trades)
            == Step(m, k, Book(pos0, cum0, entryI0, entryZ0, daily, trades0))
  {
    pos, cum, entryI, entryZ, trades, booked := pos0, cum0, entryI0, entryZ0, trades0, 0.0;
    var prevOk, alive := k > 0 && Alive(m, k - 1), Alive(m, k);
    if pos != 0 && !alive {
      trades := trades + [Trade(cum - m.cost, Bars(k, entryI), entryI, Delisted, entryZ)];
      pos, cum := 0, 0.0;
      return;
    }
    if !alive {
      return;
    }
    if pos != 0 && prevOk {
      var step := BarReturn(m, pos, k);
      booked := step;
      cum := cum + step;
    }
    var z := Z(m, k);
    if pos != 0 {
      var hitStop, reverted, lastBar := Abs(z) >= STOP_Z, Reverted(pos, z), k == m.t1 - 1;
      if hitStop || reverted || lastBar {
        cum := cum - m.cost;
        booked := booked - m.cost;
        trades := trades + [Trade(cum, Bars(k, entryI), entryI,
                                  if hitStop then Stop else if reverted then Revert else WindowEnd, entryZ)];
        pos, cum := 0, 0.0;
      }
    } else if k < m.t1 - 1 && Abs(z) >= ENTRY_Z && Abs(z) < STOP_Z {
      pos, entryZ, entryI, cum := if z > 0.0 then -1 else 1, z, k, -m.cost;
      booked := booked - m.cost;
    }
  }

  /** Trade the window: the daily return array and the closed trades. */
  method TradePair(p: Pair, la: seq<Option<real>>, lb: seq<Option<real>>, t0: nat, t1: nat, costBps: real)
    returns (daily: array<real>, trades: seq<Trade>)
    requires ValidMarket(Market(p, la, lb, t0, t1, costBps / 10000.0))
    ensures var final := Run(Market(p, la, lb, t0, t1, costBps / 10000.0), t1);
            daily[..] == final.daily && trades == final.trades
  {
    var m := Market(p, la, lb, t0, t1, costBps / 10000.0);
    daily, trades := new real[t1 - t0](_ => 0.0), [];
    var pos, cum, entryI: nat, entryZ := 0, 0.0, 0, 0.0;
    for k := t0 to t1
      invariant Run(m, k) == Book(pos, cum, entryI, entryZ, daily[..k - t0], trades)
    {
      ghost var before := daily[..k - t0];
      var booked;
      pos, cum, entryI, entryZ, trades, booked := TradeBar(m, k, pos, cum, entryI, entryZ, trades, before);
      daily[k - t0] := booked;
      assert daily[..k + 1 - t0] == before + [booked];
    }
    assert daily[..] == daily[..t1 - t0];
  }
}
