/** What a cross-validation reports, split by split, in terms of the panel's own rows
    (tools/pbo_ledger.py, cscv). */
module CscvReport {
  import opened RealAlgebra
  import opened Counting
  import opened Ranks
  import opened Combinations
  import opened Degradation
  import opened Cscv
  import opened CscvTheorems

  // ---------------------------------------------------------------------------
  // The two sides of a split, row by row
  // ---------------------------------------------------------------------------

  /** Of the first r rows, those whose block is in the combination, or those whose is not. */
  function SideRows(rows: seq<Row>, per: nat, combo: seq<nat>, want: bool, r: nat): seq<Row>
    requires per > 0 && r <= |rows|
  {
    if r == 0 then []
    else SideRows(rows, per, combo, want, r - 1) + if ((r - 1) / per in combo) == want then [rows[r - 1]] else []
  }

  lemma SmallMultiple(per: int, d: int, product: int)
    requires per > 0 && product == per * d
    ensures d >= 1 ==> product >= per
    ensures d <= -1 ==> product <= -per
  {
    if d >= 1 {
      assert per * (d - 1) >= 0;
    } else if d <= -1 {
      assert per * (-1 - d) >= 0;
    }
  }

  lemma BlockOfRow(per: nat, k: nat, t: nat, x: nat)
    requires t < per && x == k * per + t
    ensures x / per == k
  {
    var q, r := x / per, x % per;
    assert x == per * q + r;
    SmallMultiple(per, q - k, t - r);
  }

  lemma {:induction false} SideOfBlock(rows: seq<Row>, per: nat, combo: seq<nat>, want: bool, k: nat, lo: nat, t: nat)
    requires lo == k * per && per > 0 && t <= per && lo + t <= |rows|
    ensures SideRows(rows, per, combo, want, lo + t)
            == SideRows(rows, per, combo, want, lo) + if (k in combo) == want then rows[lo..lo + t] else []
    decreases t
  {
    if t == 0 {
      assert rows[lo..lo] == [];
    } else {
      SideOfBlock(rows, per, combo, want, k, lo, t - 1);
      BlockOfRow(per, k, t - 1, lo + t - 1);
      NextRow(rows, per, combo, want, k, lo, lo + t);
    }
  }

  lemma NextRow(rows: seq<Row>, per: nat, combo: seq<nat>, want: bool, k: nat, lo: nat, hi: nat)
    requires per > 0 && lo < hi <= |rows| && (hi - 1) / per == k
    requires SideRows(rows, per, combo, want, hi - 1)
             == SideRows(rows, per, combo, want, lo) + if (k in combo) == want then rows[lo..hi - 1] else []
    ensures SideRows(rows, per, combo, want, hi)
            == SideRows(rows, per, combo, want, lo) + if (k in combo) == want then rows[lo..hi] else []
  {
    assert rows[lo..hi] == rows[lo..hi - 1] + [rows[hi - 1]];
  }

  lemma NonNegative(a: nat, b: nat)
    ensures a * b >= 0
  {
  }

  lemma NextBlock(per: nat, k: nat, count: nat)
    requires k < count
    ensures k * per + per == (k + 1) * per <= count * per
  {
    var left := count - k - 1;
    NonNegative(left, per);
    assert count * per == k * per + per + left * per;
  }

  lemma {:induction false} ChunkIs(rows: seq<Row>, per: nat, count: nat, k: nat)
    requires |rows| == count * per && k < count
    ensures k * per + per <= |rows| && Chunks(rows, per, count)[k] == rows[k * per..k * per + per]
    decreases count
  {
    NextBlock(per, k, count);
    OneChunkLess(per, count);
    if k < count - 1 {
      ChunkIs(rows[..|rows| - per], per, count - 1, k);
    }
  }

  lemma SelectStep(rows: seq<Row>, per: nat, blocks: seq<seq<Row>>, mask: seq<bool>, combo: seq<nat>, want: bool,
          k: nat, lo: nat)
    requires per > 0 && k < |blocks| == |mask| && lo == k * per && lo + per <= |rows|
    requires blocks[k] == rows[lo..lo + per] && mask[k] == (k in combo)
    requires Select(blocks[..k], mask[..k], want) == SideRows(rows, per, combo, want, lo)
    ensures Select(blocks[..k + 1], mask[..k + 1], want) == SideRows(rows, per, combo, want, lo + per)
  {
    SideOfBlock(rows, per, combo, want, k, lo, per);
    assert blocks[..k + 1][..k] == blocks[..k] && mask[..k + 1][..k] == mask[..k];
  }

  lemma {:induction false} SelectIsSide(rows: seq<Row>, per: nat, count: nat, combo: seq<nat>, want: bool, k: nat)
    requires per > 0 && |rows| == count * per && k <= count
    ensures k * per <= |rows|
    ensures Select(Chunks(rows, per, count)[..k], Mask(combo, count)[..k], want)
            == SideRows(rows, per, combo, want, k * per)
    decreases k
  {
    if k > 0 {
      var blocks, mask := Chunks(rows, per, count), Mask(combo, count);
      SelectIsSide(rows, per, count, combo, want, k - 1);
      NextBlock(per, k - 1, count);
      ChunkIs(rows, per, count, k - 1);
      SelectStep(rows, per, blocks, mask, combo, want, k - 1, (k - 1) * per);
    }
  }

  function PerBlock(m: seq<Row>, s: nat): (per: nat)
    requires 0 < s <= |m|
    ensures per > 0 && per == |m| / s
  {
    |m| / s
  }

  /** What is trimmed is the oldest rows, fewer than there are blocks. */
  lemma OldestRowsAreTrimmed(m: seq<Row>, s: nat)
    requires 0 < s <= |m|
    ensures |Trimmed(m, s)| == s * PerBlock(m, s) && 0 <= |m| - |Trimmed(m, s)| < s
    ensures Trimmed(m, s) == m[|m| - |Trimmed(m, s)|..]
  {
    var per, left := |m| / s, |m| % s;
    assert |m| == s * per + left;
    assert |m| - |Trimmed(m, s)| == left;
  }

  /** The rows a combination trains on, or the rows it leaves for testing. */
  function Side(m: seq<Row>, s: nat, combo: seq<nat>, want: bool): seq<Row>
    requires 0 < s <= |m|
  {
    SideRows(Trimmed(m, s), PerBlock(m, s), combo, want, |Trimmed(m, s)|)
  }

  lemma SelectedSide(m: seq<Row>, s: nat, combo: seq<nat>, want: bool, per: nat)
    requires 0 < s <= |m| && per == PerBlock(m, s)
    ensures Select(BlocksOf(m, s), Mask(combo, s), want) == Side(m, s, combo, want)
  {
    var rows, blocks, mask := Trimmed(m, s), BlocksOf(m, s), Mask(combo, s);
    SelectIsSide(rows, per, s, combo, want, s);
    assert blocks[..s] == blocks && mask[..s] == mask;
  }

  /** Main result: training rows are the rows of the combination's blocks and testing rows all the
      others, both in time order. */
  lemma SidesOfASplit(m: seq<Row>, s: nat, combo: seq<nat>)
    requires 0 < s <= |m|
    ensures TrainRows(m, s, combo) == Side(m, s, combo, true)
    ensures TestRows(m, s, combo) == Side(m, s, combo, false)
  {
    SelectedSide(m, s, combo, true, PerBlock(m, s));
    SelectedSide(m, s, combo, false, PerBlock(m, s));
  }

  // ---------------------------------------------------------------------------
  // Every split of the report
  // ---------------------------------------------------------------------------

  /** A split records the first rule with the best training score, that score, the rule's testing
      score, and its mean return over the rows not trained on. */
  ghost predicate Recorded(split: Split, m: seq<Row>, n: nat, s: nat, stat: Statistic, combo: seq<nat>)
    requires 0 < s <= |m| && ScoresEvery(stat, n)
  {
    var train, test := Side(m, s, combo, true), Side(m, s, combo, false);
    && split.selected < n
    && (forall j :: 0 <= j < n ==> stat(train)[j] <= stat(train)[split.selected])
    && (forall j :: 0 <= j < split.selected ==> stat(train)[j] < stat(train)[split.selected])
    && split.isPerf == stat(train)[split.selected] && split.oosPerf == stat(test)[split.selected]
    && split.oosReturn == ColumnMean(test, split.selected)
  }

  /** In testing, more rules score above the selected one than below it. */
  ghost predicate BeatenByMore(test: seq<real>, selected: nat)
    requires selected < |test|
  {
    Smaller(test, test[selected]) < |test| - Smaller(test, test[selected]) - Equal(test, test[selected])
  }

  /** w is the selected rule's mid-rank in testing, counted from one, per rule and one more. */
  ghost predicate MidRanked(w: real, test: seq<real>, selected: nat)
    requires selected < |test|
  {
    w * (2 * (|test| + 1)) as real == (2 * Smaller(test, test[selected]) + Equal(test, test[selected]) + 1) as real
  }

  lemma RankOfWinner(test: seq<real>, best: nat)
    requires best < |test|
    ensures MidRanked(RelativeRank(test, best), test, best)
  {
    var rank, n1, w := 1.0 + MidRank(test, test[best]), |test| as real + 1.0, RelativeRank(test, best);
    DivMul(rank, n1, w);
    assert w * (2.0 * n1) == 2.0 * (w * n1);
  }

  /** The logit is the logarithm of the rank's odds, whatever the logarithm. */
  lemma LogitIsOfOdds(m: seq<Row>, n: nat, s: nat, stat: Statistic, ln: real -> real, combo: seq<nat>, odds: real)
    requires 0 < s <= |m| && n > 0 && ScoresEvery(stat, n)
    requires odds * (1.0 - SplitOf(m, n, stat, ln, s, combo).wBar) == SplitOf(m, n, stat, ln, s, combo).wBar
    ensures SplitOf(m, n, stat, ln, s, combo).logit == ln(odds)
  {
    var w := SplitOf(m, n, stat, ln, s, combo).wBar;
    OnlyQuotient(w, 1.0 - w, odds);
  }

  lemma OnlyQuotient(p: real, q: real, odds: real)
    requires q > 0.0 && odds * q == p
    ensures odds == Quotient(p, q)
  {
    DivMul(p, q, p / q);
    ScaleOrder(q, odds, p / q, p, p);
    ScaleOrder(q, p / q, odds, p, p);
  }

  lemma OneSplitRecorded(m: seq<Row>, n: nat, s: nat, stat: Statistic, ln: real -> real, combo: seq<nat>)
    requires 0 < s <= |m| && n > 0 && ScoresEvery(stat, n) && IsLog(ln)
    ensures var split := SplitOf(m, n, stat, ln, s, combo);
            && Recorded(split, m, n, s, stat, combo)
            && MidRanked(split.wBar, stat(Side(m, s, combo, false)), split.selected)
            && (split.logit < 0.0 <==> BeatenByMore(stat(Side(m, s, combo, false)), split.selected))
  {
    SidesOfASplit(m, s, combo);
    var split, test := SplitOf(m, n, stat, ln, s, combo), stat(TestRows(m, s, combo));
    RankOfWinner(test, split.selected);
    RelativeRankAgainstHalf(test, split.selected);
    LogitSign(ln, RelativeRank(test, split.selected));
  }

  /** What a rule's return loses in training it gains in testing, whatever the statistic. */
  lemma ReturnsAreShared(m: seq<Row>, n: nat, half: nat, stat: Statistic, ln: real -> real, combo: seq<nat>)
    requires half > 0 && n > 0 && |m| >= 2 * half && ScoresEvery(stat, n) && HalfSplit(combo, half)
    ensures var split := SplitOf(m, n, stat, ln, 2 * half, combo);
            split.oosReturn + ColumnMean(Side(m, 2 * half, combo, true), split.selected)
            == 2.0 * ColumnMean(Trimmed(m, 2 * half), split.selected)
  {
    SidesOfASplit(m, 2 * half, combo);
    MeansAreShared(m, half, combo, SplitOf(m, n, stat, ln, 2 * half, combo).selected);
  }

  /** Under mean_return the out-of-sample score is that return. */
  lemma MeanReturnScoresReturns(m: seq<Row>, n: nat, s: nat, ln: real -> real, combo: seq<nat>)
    requires 0 < s <= |m| && n > 0
    ensures var split := SplitOf(m, n, MeanReturn(n), ln, s, combo);
            split.oosReturn == split.oosPerf == ColumnMean(Side(m, s, combo, false), split.selected)
  {
    SidesOfASplit(m, s, combo);
  }

  function OverfitCount(splits: seq<Split>): nat {
    if splits == [] then 0
    else OverfitCount(splits[..|splits| - 1]) + if splits[|splits| - 1].logit < 0.0 then 1 else 0
  }

  function LosingCount(splits: seq<Split>): nat {
    if splits == [] then 0
    else LosingCount(splits[..|splits| - 1]) + if splits[|splits| - 1].oosReturn < 0.0 then 1 else 0
  }

  lemma {:induction false} CountsAgree(splits: seq<Split>)
    ensures Count(splits, Overfit()) == OverfitCount(splits) && Count(splits, Losing()) == LosingCount(splits)
    decreases |splits|
  {
    if splits != [] {
      CountsAgree(splits[..|splits| - 1]);
    }
  }

  /** x is part out of whole. */
  ghost predicate ShareOf(x: real, part: nat, whole: nat) {
    whole > 0 && x * whole as real == part as real
  }

  lemma FractionIsShare(splits: seq<Split>, p: Split -> bool)
    requires splits != []
    ensures ShareOf(Fraction(splits, p), Count(splits, p), |splits|)
  {
    DivMul(Count(splits, p) as real, |splits| as real, Fraction(splits, p));
  }

  /** The report adds its splits up: the share that look overfit, and the share that lose. */
  ghost predicate AddedUp(r: Report) {
    && r.nCombinations == |r.splits|
    && ShareOf(r.pbo, OverfitCount(r.splits), r.nCombinations)
    && ShareOf(r.probLoss, LosingCount(r.splits), r.nCombinations)
  }

  lemma SummaryAddsUp(splits: seq<Split>, polyfit: Polyfit, s: nat, trimmed: nat)
    requires splits != []
    ensures AddedUp(Summarised(splits, polyfit, s, trimmed))
  {
    FractionIsShare(splits, Overfit());
    FractionIsShare(splits, Losing());
    CountsAgree(splits);
  }

  /** A split that is recorded with its winner's rank, and looks overfit when the winner is beaten
      by more rules than it beats. */
  ghost predicate Told(split: Split, m: seq<Row>, n: nat, s: nat, stat: Statistic, combo: seq<nat>)
    requires 0 < s <= |m| && ScoresEvery(stat, n)
  {
    && Recorded(split, m, n, s, stat, combo)
    && MidRanked(split.wBar, stat(Side(m, s, combo, false)), split.selected)
    && (split.logit < 0.0 <==> BeatenByMore(stat(Side(m, s, combo, false)), split.selected))
  }

  lemma SplitsTold(m: seq<Row>, n: nat, s: nat, stat: Statistic, ln: real -> real, combos: seq<seq<nat>>)
    requires 0 < s <= |m| && n > 0 && ScoresEvery(stat, n) && IsLog(ln)
    ensures forall i :: 0 <= i < |combos| ==> Told(SplitsOf(m, n, stat, ln, s, combos)[i], m, n, s, stat, combos[i])
  {
    forall i | 0 <= i < |combos| ensures Told(SplitsOf(m, n, stat, ln, s, combos)[i], m, n, s, stat, combos[i]) {
      OneSplitRecorded(m, n, s, stat, ln, combos[i]);
    }
  }

  /** Main result: the report, for any statistic. Its splits are those of every half of the
      blocks, each told as it fell out; the probability of overfitting is the share of splits
      whose winner is beaten by more rules than it beats, and the probability of loss the share
      whose winner lost money on the rows it was not trained on. */
  lemma ReportSaysWhatHappened(m: seq<Row>, n: nat, half: nat, stat: Statistic, ln: real -> real, polyfit: Polyfit)
    requires half > 0 && n > 0 && |m| >= 2 * half && ScoresEvery(stat, n) && IsLog(ln)
    ensures var r, combos := ReportOf(m, n, stat, ln, polyfit, 2 * half), Combos(0, 2 * half, half);
            && r.nBlocks == 2 * half && r.nTrimmed == |m| % (2 * half) && |r.splits| == |combos|
            && (forall i :: 0 <= i < |combos| ==> Told(r.splits[i], m, n, 2 * half, stat, combos[i]))
            && AddedUp(r)
  {
    var s, combos := 2 * half, Combos(0, 2 * half, half);
    assert s / 2 == half;
    CombosAreHalfSplits(half);
    SplitsTold(m, n, s, stat, ln, combos);
    SummaryAddsUp(SplitsOf(m, n, stat, ln, s, combos), polyfit, s, |m| % s);
  }

  /** Its degradation line is a best line through the splits' training and testing scores. */
  lemma ReportFitsBest(m: seq<Row>, n: nat, half: nat, stat: Statistic, ln: real -> real, polyfit: Polyfit)
    requires half > 0 && n > 0 && |m| >= 2 * half && ScoresEvery(stat, n) && IsLeastSquares(polyfit)
    ensures var r := ReportOf(m, n, stat, ln, polyfit, 2 * half);
            && |r.splits| > 0 && BestLine(r.degradation, TrainScores(r.splits), TestScores(r.splits))
            && forall i :: 0 <= i < |r.splits| ==>
                 TrainScores(r.splits)[i] == r.splits[i].isPerf && TestScores(r.splits)[i] == r.splits[i].oosPerf
  {
    assert 2 * half / 2 == half;
    CombosAreHalfSplits(half);
    var splits := SplitsOf(m, n, stat, ln, 2 * half, Combos(0, 2 * half, half));
    DegradationIsBest(polyfit, TrainScores(splits), TestScores(splits));
  }
}
