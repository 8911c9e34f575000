/** What every path of the pair trade keeps: trades that follow the rules, and two ledgers that
    agree (tools/pairs_trading.py, trade_pair and the portfolio averaging in run). */
module PairLedgers {
  import opened RealAlgebra
  import opened RealSeq
  import opened TradePair

  // ---------------------------------------------------------------------------
  // The rules, stated without the loop
  // ---------------------------------------------------------------------------

  function Spread(m: Market, k: nat): real {
    Price(m.la, k) - m.pair.beta * Price(m.lb, k)
  }

  /** The return of a position held from bar i to bar j. One unit of the first leg is hedged with
      beta units of the second, so the notional is 1 + |beta|. */
  function Move(m: Market, pos: int, i: nat, j: nat): real {
    PerGross(pos as real, Spread(m, j) - Spread(m, i), 1.0 + Abs(m.pair.beta))
  }

  function PerGross(p: real, change: real, gross: real): real
    requires gross > 0.0
  {
    p * change / gross
  }

  /** How far the spread lies from where the formation window had it. */
  function Divergence(m: Market, k: nat): real {
    Spread(m, k) - m.pair.alpha - m.pair.mu
  }

  /** Fade the divergence. */
  function Side(divergence: real): int {
    if divergence > 0.0 then -1 else 1
  }

  ghost predicate EntrySignal(m: Market, k: nat) {
    Alive(m, k) && k + 1 < m.t1 && ENTRY_Z * m.pair.sd <= Abs(Divergence(m, k)) < STOP_Z * m.pair.sd
  }

  ghost predicate Stopped(m: Market, k: nat) {
    Abs(Divergence(m, k)) >= STOP_Z * m.pair.sd
  }

  /** The spread has come back to within EXIT_Z deviations, or has crossed over. */
  ghost predicate Returned(m: Market, pos: int, k: nat) {
    || (pos == 1 && Divergence(m, k) >= -EXIT_Z * m.pair.sd)
    || (pos == -1 && Divergence(m, k) <= EXIT_Z * m.pair.sd)
  }

  ghost predicate ExitSignal(m: Market, pos: int, k: nat) {
    Alive(m, k) && (Stopped(m, k) || Returned(m, pos, k) || k + 1 == m.t1)
  }

  /** Entered at ei and held through every bar before x: both legs printed on all of them and
      none after the entry gave an exit. */
  ghost predicate Holding(m: Market, pos: int, ei: nat, x: nat) {
    && (forall j :: ei <= j < x ==> Alive(m, j))
    && (forall j :: ei < j < x ==> !ExitSignal(m, pos, j))
  }

  ghost predicate ExitFits(m: Market, tr: Trade) {
    var x, pos := tr.ExitBar(), Side(Divergence(m, tr.ei));
    match tr.exit
    case Delisted => !Alive(m, x)
    case Stop => Alive(m, x) && Stopped(m, x)
    case Revert => Alive(m, x) && !Stopped(m, x) && Returned(m, pos, x)
    case WindowEnd => Alive(m, x) && !Stopped(m, x) && !Returned(m, pos, x) && x + 1 == m.t1
  }

  /** The divergence in units of the formation window's deviation. */
  function Deviations(m: Market, k: nat): real
    requires m.pair.sd > 0.0
  {
    Quotient(Divergence(m, k), m.pair.sd)
  }

  /** A closed trade that follows the rules: entered on a signal, held at least one bar to the
      first exit, closed for the stated reason, and paid the spread's move less a round trip. */
  ghost predicate GoodTrade(m: Market, tr: Trade)
    requires m.pair.sd > 0.0
  {
    var x, pos := tr.ExitBar(), Side(Divergence(m, tr.ei));
    && m.t0 <= tr.ei < x < m.t1
    && EntrySignal(m, tr.ei) && tr.entryZ == Deviations(m, tr.ei)
    && Holding(m, pos, tr.ei, x)
    && ExitFits(m, tr)
    && tr.ret == Move(m, pos, tr.ei, if tr.exit == Delisted then x - 1 else x) - 2.0 * m.cost
  }

  /** The position carried into bar k. */
  ghost predicate OpenPosition(m: Market, k: nat, b: Book)
    requires m.pair.sd > 0.0
  {
    b.pos != 0 ==>
      && m.t0 <= b.entryI < k
      && EntrySignal(m, b.entryI) && b.entryZ == Deviations(m, b.entryI) && b.pos == Side(Divergence(m, b.entryI))
      && Holding(m, b.pos, b.entryI, k)
      && b.cum == Move(m, b.pos, b.entryI, k - 1) - m.cost
  }

  // ---------------------------------------------------------------------------
  // The machine's z-score tests are tests of the spread
  // ---------------------------------------------------------------------------

  lemma ScaledTest(z: real, sd: real, d: real, c: real)
    requires sd > 0.0 && z == d / sd
    ensures z >= c <==> d >= c * sd
    ensures z <= c <==> d <= c * sd
  {
    DivOrder(d, sd, z, c, c * sd);
  }

  lemma SignalsAreSpread(m: Market, k: nat)
    requires m.pair.sd > 0.0
    ensures Z(m, k) == Deviations(m, k)
    ensures ENTRY_Z <= Abs(Z(m, k)) <==> ENTRY_Z * m.pair.sd <= Abs(Divergence(m, k))
    ensures Abs(Z(m, k)) >= STOP_Z <==> Stopped(m, k)
    ensures Reverted(1, Z(m, k)) <==> Returned(m, 1, k)
    ensures Reverted(-1, Z(m, k)) <==> Returned(m, -1, k)
    ensures Z(m, k) > 0.0 <==> Divergence(m, k) > 0.0
  {
    var z, sd, d := Z(m, k), m.pair.sd, Divergence(m, k);
    ScaledTest(z, sd, d, ENTRY_Z);
    ScaledTest(z, sd, d, -ENTRY_Z);
    ScaledTest(z, sd, d, STOP_Z);
    ScaledTest(z, sd, d, -STOP_Z);
    ScaledTest(z, sd, d, EXIT_Z);
    ScaledTest(z, sd, d, -EXIT_Z);
    ScaledTest(z, sd, d, 0.0);
  }

  // ---------------------------------------------------------------------------
  // Moves telescope
  // ---------------------------------------------------------------------------

  lemma DivAdds(a: real, b: real, g: real)
    requires g > 0.0
    ensures a / g + b / g == (a + b) / g
  {
    var x, y := a / g, b / g;
    DivMul(a, g, x);
    DivMul(b, g, y);
    DivOrder(a + b, g, (a + b) / g, x + y, a + b);
  }

  lemma MoveAdds(m: Market, pos: int, i: nat, j: nat, l: nat)
    ensures Move(m, pos, i, j) + Move(m, pos, j, l) == Move(m, pos, i, l)
  {
    PerGrossAdds(pos as real, Spread(m, j) - Spread(m, i), Spread(m, l) - Spread(m, j),
                 Spread(m, l) - Spread(m, i), 1.0 + Abs(m.pair.beta));
  }

  lemma PerGrossAdds(p: real, a: real, b: real, both: real, g: real)
    requires g > 0.0 && both == a + b
    ensures PerGross(p, a, g) + PerGross(p, b, g) == PerGross(p, both, g)
  {
    Distribute(p, a, b);
    DivAdds(p * a, p * b, g);
  }

  lemma BarReturnIsMove(m: Market, pos: int, k: nat)
    requires k > 0
    ensures BarReturn(m, pos, k) == Move(m, pos, k - 1, k)
  {
    var ra, rb := Price(m.la, k) - Price(m.la, k - 1), Price(m.lb, k) - Price(m.lb, k - 1);
    SpreadChange(m, k, ra, rb);
  }

  lemma SpreadChange(m: Market, k: nat, ra: real, rb: real)
    requires k > 0 && ra == Price(m.la, k) - Price(m.la, k - 1) && rb == Price(m.lb, k) - Price(m.lb, k - 1)
    ensures ra - m.pair.beta * rb == Spread(m, k) - Spread(m, k - 1)
  {
  }

  lemma NoMove(m: Market, pos: int, i: nat)
    ensures Move(m, pos, i, i) == 0.0
  {
    DivOrder(0.0, 1.0 + Abs(m.pair.beta), 0.0 / (1.0 + Abs(m.pair.beta)), 0.0, 0.0);
    assert pos as real * 0.0 == 0.0;
  }

  // ---------------------------------------------------------------------------
  // Every step keeps the open position honest
  // ---------------------------------------------------------------------------

  lemma HeldMeansPrinted(m: Market, k: nat, b: Book)
    requires m.pair.sd > 0.0 && OpenPosition(m, k, b) && b.pos != 0
    ensures k > 0 && Alive(m, k - 1)
  {
  }

  /** The running profit carried one bar further. */
  lemma HeldReturn(m: Market, k: nat, b: Book)
    requires m.pair.sd > 0.0 && OpenPosition(m, k, b) && b.pos != 0
    ensures k > 0 && b.cum + BarReturn(m, b.pos, k) == Move(m, b.pos, b.entryI, k) - m.cost
  {
    BarReturnIsMove(m, b.pos, k);
    MoveAdds(m, b.pos, b.entryI, k - 1, k);
  }

  lemma OpenKept(m: Market, k: nat, b: Book)
    requires m.pair.sd > 0.0 && m.t0 <= k < m.t1 && OpenPosition(m, k, b)
    ensures OpenPosition(m, k + 1, Step(m, k, b))
  {
    SignalsAreSpread(m, k);
    if b.pos != 0 && Alive(m, k) {
      HeldMeansPrinted(m, k, b);
      HeldReturn(m, k, b);
    } else if b.pos == 0 && EntrySignal(m, k) {
      NoMove(m, Side(Divergence(m, k)), k);
    }
  }

  /** Main result: on every reachable book an open position was entered on a signal, has met no
      exit since, and carries the spread's move less the entry cost. */
  lemma {:induction false} OpenAlways(m: Market, k: nat)
    requires m.pair.sd > 0.0 && m.t0 <= k <= m.t1
    ensures OpenPosition(m, k, Run(m, k))
    decreases k
  {
    if k > m.t0 {
      OpenAlways(m, k - 1);
      OpenKept(m, k - 1, Run(m, k - 1));
    }
  }

  /** Main result: whenever the machine holds a position, both legs printed on the bar before,
      and that bar lies inside the window. */
  lemma PrevOkWhileHolding(m: Market, k: nat)
    requires m.pair.sd > 0.0 && m.t0 <= k <= m.t1
    ensures Run(m, k).pos != 0 ==> k > m.t0 && Alive(m, k - 1)
  {
    OpenAlways(m, k);
  }

  /** The machine without the test of the previous bar. */
  function EarnedUntested(m: Market, k: nat, b: Book): real {
    if b.pos != 0 && k > 0 then BarReturn(m, b.pos, k) else 0.0
  }

  function RunUntested(m: Market, k: nat): Book
    requires m.pair.sd > 0.0 && m.t0 <= k
  {
    if k == m.t0 then FLAT
    else
      var b := RunUntested(m, k - 1);
      BarStep(m, k - 1, b, EarnedUntested(m, k - 1, b))
  }

  /** Main result: the test never skips a return. The machine without it computes the same book
      on every path. */
  lemma {:induction false} TestNeverSkips(m: Market, k: nat)
    requires m.pair.sd > 0.0 && m.t0 <= k <= m.t1
    ensures RunUntested(m, k) == Run(m, k)
    decreases k
  {
    if k > m.t0 {
      TestNeverSkips(m, k - 1);
      PrevOkWhileHolding(m, k - 1);
      assert EarnedUntested(m, k - 1, Run(m, k - 1)) == Earned(m, k - 1, Run(m, k - 1));
    }
  }

  /** The book ends flat. */
  lemma EndsFlat(m: Market)
    requires m.pair.sd > 0.0 && m.t0 <= m.t1
    ensures Run(m, m.t1).pos == 0
  {
    OpenAlways(m, m.t1);
    var b := Run(m, m.t1);
    if b.pos != 0 {
      assert Alive(m, m.t1 - 1);
      assert ExitSignal(m, b.pos, m.t1 - 1);
    }
  }

  // ---------------------------------------------------------------------------
  // Every closed trade follows the rules
  // ---------------------------------------------------------------------------

  ghost predicate GoodTrades(m: Market, trades: seq<Trade>)
    requires m.pair.sd > 0.0
  {
    forall i :: 0 <= i < |trades| ==> GoodTrade(m, trades[i])
  }

  /** Trades are disjoint in time, and all over before the given bar. */
  ghost predicate Disjoint(trades: seq<Trade>, before: nat) {
    && (forall i, j :: 0 <= i < j < |trades| ==> trades[i].ExitBar() < trades[j].ei)
    && (forall i :: 0 <= i < |trades| ==> trades[i].ExitBar() < before)
  }

  lemma ClosesWell(m: Market, k: nat, b: Book)
    requires m.pair.sd > 0.0 && m.t0 <= k < m.t1 && OpenPosition(m, k, b) && b.pos != 0
    requires |Step(m, k, b).trades| > |b.trades|
    ensures GoodTrade(m, Step(m, k, b).trades[|b.trades|])
  {
    SignalsAreSpread(m, k);
    HeldMeansPrinted(m, k, b);
    HeldReturn(m, k, b);
  }

  lemma TradesKept(m: Market, k: nat, b: Book)
    requires m.pair.sd > 0.0 && m.t0 <= k < m.t1 && OpenPosition(m, k, b) && GoodTrades(m, b.trades)
    ensures GoodTrades(m, Step(m, k, b).trades)
  {
    if b.pos != 0 && |Step(m, k, b).trades| > |b.trades| {
      ClosesWell(m, k, b);
    }
  }

  lemma {:induction false} TradesAlwaysGood(m: Market, k: nat)
    requires m.pair.sd > 0.0 && m.t0 <= k <= m.t1
    ensures GoodTrades(m, Run(m, k).trades)
    decreases k
  {
    if k > m.t0 {
      TradesAlwaysGood(m, k - 1);
      OpenAlways(m, k - 1);
      TradesKept(m, k - 1, Run(m, k - 1));
    }
  }

  /** The first bar that the next closed trade may start from. */
  function Frontier(b: Book, k: nat): nat {
    if b.pos != 0 then b.entryI else k
  }

  /** Each trade is over before the next begins, and the last before the given bar. */
  ghost predicate Staged(trades: seq<Trade>, before: nat)
    decreases |trades|
  {
    trades != [] ==>
      var last := trades[|trades| - 1];
      last.ei <= last.ExitBar() < before && Staged(trades[..|trades| - 1], last.ei)
  }

  lemma {:induction false} StagedAreDisjoint(trades: seq<Trade>, before: nat)
    requires Staged(trades, before)
    ensures Disjoint(trades, before)
    decreases |trades|
  {
    if trades != [] {
      StagedAreDisjoint(trades[..|trades| - 1], trades[|trades| - 1].ei);
    }
  }

  lemma StagedSnoc(trades: seq<Trade>, tr: Trade, before: nat)
    requires Staged(trades, tr.ei) && tr.ei <= tr.ExitBar() < before
    ensures Staged(trades + [tr], before)
  {
    assert (trades + [tr])[..|trades|] == trades;
  }

  lemma StagedLater(trades: seq<Trade>, before: nat, later: nat)
    requires Staged(trades, before) && before <= later
    ensures Staged(trades, later)
  {
  }

  /** What one bar may do to the closed trades: nothing, or close the open position. */
  ghost predicate TradesFollow(k: nat, b: Book, b': Book) {
    || (b'.trades == b.trades && Frontier(b, k) <= Frontier(b', k + 1))
    || (b.pos != 0 && b'.pos == 0 && |b'.trades| == |b.trades| + 1
        && b'.trades[..|b.trades|] == b.trades
        && b.entryI == b'.trades[|b.trades|].ei <= b'.trades[|b.trades|].ExitBar() == k)
  }

  lemma StepTrades(m: Market, k: nat, b: Book)
    requires m.pair.sd > 0.0 && m.t0 <= k < m.t1 && OpenPosition(m, k, b)
    ensures TradesFollow(k, b, Step(m, k, b))
  {
  }

  lemma StagedGrows(k: nat, b: Book, b': Book)
    requires TradesFollow(k, b, b') && Staged(b.trades, Frontier(b, k))
    ensures Staged(b'.trades, Frontier(b', k + 1))
  {
    if b'.trades == b.trades && Frontier(b, k) <= Frontier(b', k + 1) {
      StagedLater(b.trades, Frontier(b, k), Frontier(b', k + 1));
    } else {
      assert b'.trades == b.trades + [b'.trades[|b.trades|]];
      StagedSnoc(b.trades, b'.trades[|b.trades|], k + 1);
    }
  }

  lemma StagedKept(m: Market, k: nat, b: Book)
    requires m.pair.sd > 0.0 && m.t0 <= k < m.t1 && OpenPosition(m, k, b) && Staged(b.trades, Frontier(b, k))
    ensures Staged(Step(m, k, b).trades, Frontier(Step(m, k, b), k + 1))
  {
    StepTrades(m, k, b);
    StagedGrows(k, b, Step(m, k, b));
  }

  lemma {:induction false} TradesAlwaysStaged(m: Market, k: nat)
    requires m.pair.sd > 0.0 && m.t0 <= k <= m.t1
    ensures Staged(Run(m, k).trades, Frontier(Run(m, k), k))
    decreases k
  {
    if k > m.t0 {
      TradesAlwaysStaged(m, k - 1);
      OpenAlways(m, k - 1);
      StagedKept(m, k - 1, Run(m, k - 1));
    }
  }

  // ---------------------------------------------------------------------------
  // No signal is missed while the book is flat
  // ---------------------------------------------------------------------------

  /** Bar j lies inside a closed trade, entry and exit bars included. */
  ghost predicate InTrade(trades: seq<Trade>, j: nat) {
    exists i :: 0 <= i < |trades| && trades[i].ei <= j <= trades[i].ExitBar()
  }

  /** Outside its trades the book had nothing to enter and booked nothing. */
  ghost predicate QuietOutside(m: Market, k: nat, b: Book)
    requires m.pair.sd > 0.0
  {
    && m.t0 <= k && |b.daily| == k - m.t0 && Frontier(b, k) <= k
    && forall j :: m.t0 <= j < Frontier(b, k) && !InTrade(b.trades, j) ==>
         !EntrySignal(m, j) && b.daily[j - m.t0] == 0.0
  }

  lemma InTradeGrows(trades: seq<Trade>, tr: Trade, j: nat)
    ensures InTrade(trades, j) ==> InTrade(trades + [tr], j)
    ensures tr.ei <= j <= tr.ExitBar() ==> InTrade(trades + [tr], j)
  {
    if InTrade(trades, j) {
      var i :| 0 <= i < |trades| && trades[i].ei <= j <= trades[i].ExitBar();
      assert (trades + [tr])[i] == trades[i];
    }
    assert (trades + [tr])[|trades|] == tr;
  }

  lemma QuietKept(m: Market, k: nat, b: Book)
    requires m.pair.sd > 0.0 && m.t0 <= k < m.t1 && OpenPosition(m, k, b) && QuietOutside(m, k, b)
    ensures QuietOutside(m, k + 1, Step(m, k, b))
  {
    var b' := Step(m, k, b);
    SignalsAreSpread(m, k);
    if |b'.trades| > |b.trades| {
      var tr := b'.trades[|b.trades|];
      assert tr.ei == b.entryI && tr.ExitBar() == k;
      forall j | m.t0 <= j < Frontier(b', k + 1) && !InTrade(b'.trades, j)
        ensures !EntrySignal(m, j) && b'.daily[j - m.t0] == 0.0
      {
        InTradeGrows(b.trades, tr, j);
      }
    }
  }

  lemma {:induction false} QuietAlways(m: Market, k: nat)
    requires m.pair.sd > 0.0 && m.t0 <= k <= m.t1
    ensures QuietOutside(m, k, Run(m, k))
    decreases k
  {
    if k > m.t0 {
      QuietAlways(m, k - 1);
      OpenAlways(m, k - 1);
      QuietKept(m, k - 1, Run(m, k - 1));
    }
  }

  // ---------------------------------------------------------------------------
  // The ledgers reconcile
  // ---------------------------------------------------------------------------

  /** What a trade left in the daily ledger: its return, plus the exit cost that a delisted
      exit charges to the trade alone. */
  function Booked(m: Market, tr: Trade): real {
    if tr.exit == Delisted then tr.ret + m.cost else tr.ret
  }

  function BookedTotal(m: Market, trades: seq<Trade>): real {
    if trades == [] then 0.0
    else BookedTotal(m, trades[..|trades| - 1]) + Booked(m, trades[|trades| - 1])
  }

  function Returns(trades: seq<Trade>): real {
    if trades == [] then 0.0 else Returns(trades[..|trades| - 1]) + trades[|trades| - 1].ret
  }

  function Delistings(trades: seq<Trade>): nat {
    if trades == [] then 0
    else Delistings(trades[..|trades| - 1]) + if trades[|trades| - 1].exit == Delisted then 1 else 0
  }

  ghost predicate Reconciled(m: Market, b: Book) {
    Sum(b.daily) == BookedTotal(m, b.trades) + if b.pos != 0 then b.cum else 0.0
  }

  /** The exit costs of the delisted exits, which only the trade ledger carries. */
  function DelistingCosts(m: Market, trades: seq<Trade>): real {
    if trades == [] then 0.0
    else DelistingCosts(m, trades[..|trades| - 1]) + if trades[|trades| - 1].exit == Delisted then m.cost else 0.0
  }

  lemma {:induction false} OneCostEach(m: Market, trades: seq<Trade>)
    ensures DelistingCosts(m, trades) == m.cost * Delistings(trades) as real
    decreases |trades|
  {
    if trades == [] {
      assert m.cost * 0.0 == 0.0;
    } else {
      OneCostEach(m, trades[..|trades| - 1]);
      var n := Delistings(trades[..|trades| - 1]) as real;
      assert m.cost * (n + 1.0) == m.cost * n + m.cost;
    }
  }

  lemma BookedSnoc(m: Market, trades: seq<Trade>, tr: Trade)
    ensures BookedTotal(m, trades + [tr]) == BookedTotal(m, trades) + Booked(m, tr)
  {
    assert (trades + [tr])[..|trades|] == trades;
  }

  /** What the bar adds to the ledger, and where the running profit goes. */
  lemma LedgerStep(m: Market, k: nat, b: Book) returns (x: real)
    requires m.pair.sd > 0.0 && OpenPosition(m, k, b)
    ensures var b' := Step(m, k, b);
            && b'.daily == b.daily + [x]
            && (b.pos != 0 && b'.pos != 0 ==> b'.entryI == b.entryI && b'.cum == b.cum + x && b'.trades == b.trades)
            && (b.pos != 0 && b'.pos == 0 ==>
                  exists tr :: b'.trades == b.trades + [tr] && tr.ei == b.entryI && tr.ExitBar() == k
                               && Booked(m, tr) == b.cum + x)
            && (b.pos == 0 ==> b'.trades == b.trades)
            && (b.pos == 0 && b'.pos != 0 ==> b'.entryI == k && b'.cum == x)
            && (b.pos == 0 && b'.pos == 0 ==> x == 0.0)
  {
    var b' := Step(m, k, b);
    x := b'.daily[|b.daily|];
    if b.pos != 0 && b'.pos == 0 {
      var tr := b'.trades[|b.trades|];
      assert b'.trades == b.trades + [tr];
    }
  }

  lemma ReconciledKept(m: Market, k: nat, b: Book)
    requires m.pair.sd > 0.0 && m.t0 <= k < m.t1 && OpenPosition(m, k, b) && Reconciled(m, b)
    ensures Reconciled(m, Step(m, k, b))
  {
    var x := LedgerStep(m, k, b);
    ReconciledGrows(m, k, b, Step(m, k, b), x);
  }

  lemma ReconciledGrows(m: Market, k: nat, b: Book, b': Book, x: real)
    requires Reconciled(m, b) && b'.daily == b.daily + [x]
    requires b.pos != 0 && b'.pos != 0 ==> b'.trades == b.trades && b'.cum == b.cum + x
    requires b.pos == 0 ==> b'.trades == b.trades && x == (if b'.pos != 0 then b'.cum else 0.0)
    requires b.pos != 0 && b'.pos == 0 ==> exists tr :: b'.trades == b.trades + [tr] && Booked(m, tr) == b.cum + x
    ensures Reconciled(m, b')
  {
    SumSnoc(b.daily, x);
    if b.pos != 0 && b'.pos == 0 {
      var tr :| b'.trades == b.trades + [tr] && Booked(m, tr) == b.cum + x;
      BookedSnoc(m, b.trades, tr);
    }
  }

  lemma {:induction false} AlwaysReconciled(m: Market, k: nat)
    requires m.pair.sd > 0.0 && m.t0 <= k <= m.t1
    ensures Reconciled(m, Run(m, k))
    decreases k
  {
    if k > m.t0 {
      AlwaysReconciled(m, k - 1);
      OpenAlways(m, k - 1);
      ReconciledKept(m, k - 1, Run(m, k - 1));
    }
  }

  lemma {:induction false} BookedIsReturns(m: Market, trades: seq<Trade>)
    ensures BookedTotal(m, trades) == Returns(trades) + DelistingCosts(m, trades)
    decreases |trades|
  {
    if trades != [] {
      BookedIsReturns(m, trades[..|trades| - 1]);
    }
  }

  /** Main result: the daily ledger holds exactly the trades' returns, plus one exit cost for
      every delisted exit. */
  lemma LedgersReconcile(m: Market)
    requires ValidMarket(m)
    ensures var final := Run(m, m.t1);
            Sum(final.daily) == Returns(final.trades) + DelistingCosts(m, final.trades)
  {
    var final := Run(m, m.t1);
    EndsFlat(m);
    AlwaysReconciled(m, m.t1);
    assert Sum(final.daily) == BookedTotal(m, final.trades);
    BookedIsReturns(m, final.trades);
  }

  // ---------------------------------------------------------------------------
  // Trade by trade
  // ---------------------------------------------------------------------------

  /** The bars of a trade hold what that trade booked, no more and no less. */
  ghost predicate BookedInPlace(m: Market, daily: seq<real>, tr: Trade) {
    && m.t0 <= tr.ei && tr.ExitBar() - m.t0 < |daily|
    && Sum(daily[tr.ei - m.t0..tr.ExitBar() + 1 - m.t0]) == Booked(m, tr)
  }

  /** The bars since the entry hold the running profit of the open position. */
  ghost predicate OpenInPlace(m: Market, b: Book) {
    b.pos != 0 ==> m.t0 <= b.entryI && b.entryI - m.t0 < |b.daily| && Sum(b.daily[b.entryI - m.t0..]) == b.cum
  }

  ghost predicate ClosedInPlace(m: Market, b: Book) {
    forall i :: 0 <= i < |b.trades| ==> BookedInPlace(m, b.daily, b.trades[i])
  }

  lemma InPlaceGrows(m: Market, daily: seq<real>, x: real, tr: Trade)
    requires BookedInPlace(m, daily, tr)
    ensures BookedInPlace(m, daily + [x], tr)
  {
    var lo, hi := tr.ei - m.t0, tr.ExitBar() + 1 - m.t0;
    assert (daily + [x])[lo..hi] == daily[lo..hi];
  }

  /** The open half of LedgerStep, for books that need not come from a step. */
  ghost predicate OpenFollows(k: nat, b: Book, b': Book, x: real) {
    && b'.daily == b.daily + [x]
    && (b.pos != 0 && b'.pos != 0 ==> b'.entryI == b.entryI && b'.cum == b.cum + x)
    && (b.pos == 0 && b'.pos != 0 ==> b'.entryI == k && b'.cum == x)
  }

  lemma OpenInPlaceGrows(m: Market, k: nat, b: Book, b': Book, x: real)
    requires m.t0 <= k && |b.daily| == k - m.t0 && OpenInPlace(m, b) && OpenFollows(k, b, b', x)
    ensures OpenInPlace(m, b')
  {
    if b.pos != 0 {
      var lo := b.entryI - m.t0;
      assert (b.daily + [x])[lo..] == b.daily[lo..] + [x];
      SumSnoc(b.daily[lo..], x);
    } else {
      assert (b.daily + [x])[k - m.t0..] == [] + [x];
      SumSnoc([], x);
    }
  }

  lemma OpenInPlaceKept(m: Market, k: nat, b: Book)
    requires m.pair.sd > 0.0 && m.t0 <= k < m.t1 && |b.daily| == k - m.t0
    requires OpenPosition(m, k, b) && OpenInPlace(m, b)
    ensures OpenInPlace(m, Step(m, k, b))
  {
    var x := LedgerStep(m, k, b);
    OpenInPlaceGrows(m, k, b, Step(m, k, b), x);
  }

  lemma ClosedInPlaceGrows(m: Market, b: Book, x: real)
    requires ClosedInPlace(m, b)
    ensures forall i :: 0 <= i < |b.trades| ==> BookedInPlace(m, b.daily + [x], b.trades[i])
  {
    forall i | 0 <= i < |b.trades| ensures BookedInPlace(m, b.daily + [x], b.trades[i]) {
      InPlaceGrows(m, b.daily, x, b.trades[i]);
    }
  }

  lemma NewlyClosed(m: Market, k: nat, b: Book, x: real, tr: Trade)
    requires m.t0 <= k && |b.daily| == k - m.t0 && b.pos != 0 && OpenInPlace(m, b)
    requires tr.ei == b.entryI && tr.ExitBar() == k && Booked(m, tr) == b.cum + x
    ensures BookedInPlace(m, b.daily + [x], tr)
  {
    var lo := b.entryI - m.t0;
    assert (b.daily + [x])[lo..k + 1 - m.t0] == b.daily[lo..] + [x];
    SumSnoc(b.daily[lo..], x);
  }

  lemma ClosedInPlaceKept(m: Market, k: nat, b: Book)
    requires m.pair.sd > 0.0 && m.t0 <= k < m.t1 && |b.daily| == k - m.t0
    requires OpenPosition(m, k, b) && OpenInPlace(m, b) && ClosedInPlace(m, b)
    ensures ClosedInPlace(m, Step(m, k, b))
  {
    var b' := Step(m, k, b);
    var x := LedgerStep(m, k, b);
    ClosedInPlaceGrows(m, b, x);
    if b.pos != 0 && b'.pos == 0 {
      var tr :| b'.trades == b.trades + [tr] && tr.ei == b.entryI && tr.ExitBar() == k
                && Booked(m, tr) == b.cum + x;
      NewlyClosed(m, k, b, x, tr);
    }
  }

  ghost predicate InPlace(m: Market, b: Book) {
    OpenInPlace(m, b) && ClosedInPlace(m, b)
  }

  lemma InPlaceKept(m: Market, k: nat, b: Book)
    requires m.pair.sd > 0.0 && m.t0 <= k < m.t1 && |b.daily| == k - m.t0 && OpenPosition(m, k, b) && InPlace(m, b)
    ensures InPlace(m, Step(m, k, b))
  {
    OpenInPlaceKept(m, k, b);
    ClosedInPlaceKept(m, k, b);
  }

  lemma {:induction false} AlwaysInPlace(m: Market, k: nat)
    requires m.pair.sd > 0.0 && m.t0 <= k <= m.t1
    ensures InPlace(m, Run(m, k))
    decreases k
  {
    if k > m.t0 {
      AlwaysInPlace(m, k - 1);
      OpenAlways(m, k - 1);
      DailyLength(m, k - 1);
      InPlaceKept(m, k - 1, Run(m, k - 1));
    }
  }

  /** Main result: along every path of every pair, the book ends flat, trades never overlap,
      and each of them follows the rules. */
  lemma EveryTradeFollowsTheRules(m: Market)
    requires ValidMarket(m)
    ensures var final := Run(m, m.t1);
            && final.pos == 0 && |final.daily| == m.t1 - m.t0
            && GoodTrades(m, final.trades) && Disjoint(final.trades, m.t1)
            && (forall i :: 0 <= i < |final.trades| ==>
                  final.trades[i].bars >= 1 && ENTRY_Z <= Abs(final.trades[i].entryZ) < STOP_Z)
  {
    EndsFlat(m);
    TradesAlwaysGood(m, m.t1);
    forall k: nat ensures EntrySignal(m, k) ==> ENTRY_Z <= Abs(Deviations(m, k)) < STOP_Z {
      SignalsAreSpread(m, k);
    }
    TradesAlwaysStaged(m, m.t1);
    StagedAreDisjoint(Run(m, m.t1).trades, m.t1);
    DailyLength(m, m.t1);
  }

  /** Main result: every bar of the window is accounted for. A bar inside a trade belongs to
      that trade's booked amount; a bar outside every trade booked nothing and gave no entry. */
  lemma EveryBarIsAccountedFor(m: Market)
    requires ValidMarket(m)
    ensures var final := Run(m, m.t1);
            && (forall i :: 0 <= i < |final.trades| ==> BookedInPlace(m, final.daily, final.trades[i]))
            && |final.daily| == m.t1 - m.t0
            && (forall j :: m.t0 <= j < m.t1 && !InTrade(final.trades, j) ==>
                  !EntrySignal(m, j) && final.daily[j - m.t0] == 0.0)
  {
    EndsFlat(m);
    AlwaysInPlace(m, m.t1);
    QuietAlways(m, m.t1);
  }

  lemma {:induction false} DailyLength(m: Market, k: nat)
    requires m.pair.sd > 0.0 && m.t0 <= k
    ensures |Run(m, k).daily| == k - m.t0
    decreases k
  {
    if k > m.t0 {
      DailyLength(m, k - 1);
    }
  }

  // ---------------------------------------------------------------------------
  // The arm's portfolio
  // ---------------------------------------------------------------------------

  function SumOfSums(ledgers: seq<seq<real>>): real {
    if ledgers == [] then 0.0 else SumOfSums(ledgers[..|ledgers| - 1]) + Sum(ledgers[|ledgers| - 1])
  }

  /** What the ledgers booked on bar k, added up. */
  function EntrySum(ledgers: seq<seq<real>>, k: nat): real {
    if ledgers == [] then 0.0
    else
      var last := ledgers[|ledgers| - 1];
      EntrySum(ledgers[..|ledgers| - 1], k) + if k < |last| then last[k] else 0.0
  }

  lemma ScaledSum(port: seq<real>, d: seq<real>, n: real, k: nat, before: real)
    requires |port| == |d| && k < |d| && n > 0.0 && before == Sum(port[..k]) + Sum(d[..k]) / n
    ensures before + (port[k] + d[k] / n) == Sum(port[..k + 1]) + Sum(d[..k + 1]) / n
  {
    assert port[..k + 1][..k] == port[..k] && d[..k + 1][..k] == d[..k];
    DivAdds(Sum(d[..k]), d[k], n);
  }

  method AddScaled(port: seq<real>, d: seq<real>, n: real) returns (out: seq<real>)
    requires |port| == |d| && n > 0.0
    ensures |out| == |port| && forall k :: 0 <= k < |port| ==> out[k] == port[k] + d[k] / n
    ensures Sum(out) == Sum(port) + Sum(d) / n
  {
    out := [];
    for k := 0 to |port|
      invariant |out| == k && forall j :: 0 <= j < k ==> out[j] == port[j] + d[j] / n
      invariant Sum(out) == Sum(port[..k]) + Sum(d[..k]) / n
    {
      var x := port[k] + d[k] / n;
      SumSnoc(out, x);
      ScaledSum(port, d, n, k, Sum(out));
      out := out + [x];
    }
    assert port[..|port|] == port && d[..|d|] == d;
  }

  /** The arm's portfolio: starting from zeros, every pair's ledger is added at its share. Each
      entry is the mean of the pairs' entries on that bar, and the total the mean of their totals. */
  method Portfolio(ledgers: seq<seq<real>>, width: nat) returns (port: seq<real>)
    requires |ledgers| >= 1 && forall i :: 0 <= i < |ledgers| ==> |ledgers[i]| == width
    ensures |port| == width
    ensures forall k :: 0 <= k < width ==> port[k] == EntrySum(ledgers, k) / |ledgers| as real
    ensures Sum(port) == SumOfSums(ledgers) / |ledgers| as real
  {
    var n := |ledgers| as real;
    port := seq(width, _ => 0.0);
    SumConstant(port, 0.0);
    for i := 0 to |ledgers|
      invariant |port| == width && forall k :: 0 <= k < width ==> port[k] == EntrySum(ledgers[..i], k) / n
      invariant Sum(port) == SumOfSums(ledgers[..i]) / n
    {
      assert ledgers[..i + 1][..i] == ledgers[..i];
      forall k | 0 <= k < width
        ensures EntrySum(ledgers[..i + 1], k) / n == EntrySum(ledgers[..i], k) / n + ledgers[i][k] / n
      {
        DivAdds(EntrySum(ledgers[..i], k), ledgers[i][k], n);
      }
      DivAdds(SumOfSums(ledgers[..i]), Sum(ledgers[i]), n);
      port := AddScaled(port, ledgers[i], n);
    }
    assert ledgers[..|ledgers|] == ledgers;
  }

  /** The daily ledger of one pair's window. */
  ghost function DailyLedger(m: Market): seq<real> {
    if ValidMarket(m) then Run(m, m.t1).daily else []
  }

  /** What one pair's trades earned, plus the exit costs its delistings did not book. */
  ghost function TradeLedger(m: Market): real {
    if ValidMarket(m) then Returns(Run(m, m.t1).trades) + DelistingCosts(m, Run(m, m.t1).trades) else 0.0
  }

  ghost function DailyLedgers(markets: seq<Market>): seq<seq<real>> {
    seq(|markets|, i requires 0 <= i < |markets| => DailyLedger(markets[i]))
  }

  ghost function TradeLedgers(markets: seq<Market>): real {
    if markets == [] then 0.0
    else TradeLedgers(markets[..|markets| - 1]) + TradeLedger(markets[|markets| - 1])
  }

  lemma OneLedger(m: Market)
    requires ValidMarket(m)
    ensures Sum(DailyLedger(m)) == TradeLedger(m)
  {
    LedgersReconcile(m);
  }

  /** Both ledgers of a whole arm agree: the daily totals of its pairs are what its trades
      earned, plus the exit costs that delistings did not book. */
  lemma {:induction false} ArmReconciles(markets: seq<Market>)
    requires forall m :: m in markets ==> ValidMarket(m)
    ensures SumOfSums(DailyLedgers(markets)) == TradeLedgers(markets)
    decreases |markets|
  {
    if markets != [] {
      var k := |markets| - 1;
      ArmReconciles(markets[..k]);
      assert markets[k] in markets;
      OneLedger(markets[k]);
      assert DailyLedgers(markets)[..k] == DailyLedgers(markets[..k]);
    }
  }
}
