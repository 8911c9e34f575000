/** Combinatorially symmetric cross-validation (tools/pbo_ledger.py). */
module Cscv {
  import opened RealAlgebra
  import opened Counting
  import opened Ranks
  import opened RankLaws
  import opened Combinations
  import opened Degradation

  // ---------------------------------------------------------------------------
  // Panels and scores
  // ---------------------------------------------------------------------------

  /** One period, one return for every rule. */
  type Row = seq<real>

  /** One score for every rule, computed from a block of rows. */
  type Statistic = seq<Row> -> seq<real>

  ghost predicate ScoresEvery(stat: Statistic, n: nat) {
    forall rows :: |stat(rows)| == n
  }

  function Cell(row: Row, j: nat): real {
    if j < |row| then row[j] else 0.0
  }

  function ColumnSum(rows: seq<Row>, j: nat): real {
    if rows == [] then 0.0 else ColumnSum(rows[..|rows| - 1], j) + Cell(rows[|rows| - 1], j)
  }

  function ColumnMean(rows: seq<Row>, j: nat): real {
    if rows == [] then 0.0 else ColumnSum(rows, j) / |rows| as real
  }

  function MeanScores(rows: seq<Row>, n: nat): (scores: seq<real>)
    ensures |scores| == n
  {
    seq(n, j requires 0 <= j < n => ColumnMean(rows, j))
  }

  /** Every rule's arithmetic mean return. */
  function MeanReturn(n: nat): (stat: Statistic)
    ensures ScoresEvery(stat, n)
  {
    (rows: seq<Row>) => MeanScores(rows, n)
  }

  /** The position of the first of the largest entries. */
  function ArgMax(s: seq<real>): (best: nat)
    requires s != []
    ensures best < |s|
    ensures forall i :: 0 <= i < |s| ==> s[i] <= s[best]
    ensures forall i :: 0 <= i < best ==> s[i] < s[best]
  {
    if |s| == 1 then 0
    else
      var front := ArgMax(s[..|s| - 1]);
      if s[|s| - 1] > s[front] then |s| - 1 else front
  }

  // ---------------------------------------------------------------------------
  // Blocks and splits
  // ---------------------------------------------------------------------------

  /** The rows cut into equal blocks, in time order. */
  function Chunks(rows: seq<Row>, per: nat, count: nat): (blocks: seq<seq<Row>>)
    requires |rows| == count * per
    ensures |blocks| == count
  {
    if count == 0 then []
    else
      assert |rows| - per == (count - 1) * per;
      Chunks(rows[..|rows| - per], per, count - 1) + [rows[|rows| - per..]]
  }

  function Mask(combo: seq<nat>, s: nat): seq<bool> {
    seq(s, k => k in combo)
  }

  /** The rows of the blocks whose flag is as wanted, in time order. */
  function Select(blocks: seq<seq<Row>>, mask: seq<bool>, want: bool): seq<Row>
    requires |mask| == |blocks|
    decreases |blocks|
  {
    if blocks == [] then []
    else
      var k := |blocks| - 1;
      Select(blocks[..k], mask[..k], want) + if mask[k] == want then blocks[k] else []
  }

  // ---------------------------------------------------------------------------
  // One split
  // ---------------------------------------------------------------------------

  datatype Split = Split(selected: nat, wBar: real, logit: real, isPerf: real, oosPerf: real, oosReturn: real)

  lemma QuotientInside(p: real, q: real)
    requires 0.0 < p < q
    ensures 0.0 < Quotient(p, q) < 1.0
    ensures Quotient(p, q) < 0.5 <==> 2.0 * p < q
    ensures Quotient(p, q) > 0.5 <==> 2.0 * p > q
  {
    DivPos(p, q, p / q);
    DivOrder(p, q, p / q, 1.0, q);
    DivOrder(p, q, p / q, 0.5, 0.5 * q);
  }

  /** w_bar: the out-of-sample mid-rank of the winner, from 1 up, over N + 1. */
  function RelativeRank(oos: seq<real>, best: nat): (w: real)
    requires best < |oos|
    ensures 0.0 < w < 1.0
  {
    RankRange(oos, best);
    QuotientInside(1.0 + MidRank(oos, oos[best]), |oos| as real + 1.0);
    Quotient(1.0 + MidRank(oos, oos[best]), |oos| as real + 1.0)
  }

  function Judge(stat: Statistic, ln: real -> real, train: seq<Row>, test: seq<Row>, n: nat): Split
    requires ScoresEvery(stat, n) && n > 0
  {
    var isStat, oosStat := stat(train), stat(test);
    assert |isStat| == n && |oosStat| == n;
    var best := ArgMax(isStat);
    var wBar := RelativeRank(oosStat, best);
    Split(best, wBar, ln(Quotient(wBar, 1.0 - wBar)), isStat[best], oosStat[best], ColumnMean(test, best))
  }

  // ---------------------------------------------------------------------------
  // The whole procedure
  // ---------------------------------------------------------------------------

  datatype CscvError = BadBlockCount | TooFewRows | NoRules

  datatype Report = Report(
    pbo: real, nBlocks: nat, nCombinations: nat, nTrimmed: nat, splits: seq<Split>, degradation: Line, probLoss: real)

  datatype Outcome = Failed(error: CscvError) | Done(report: Report)

  function Overfit(): Split -> bool { (s: Split) => s.logit < 0.0 }

  function Losing(): Split -> bool { (s: Split) => s.oosReturn < 0.0 }

  function Fraction(splits: seq<Split>, p: Split -> bool): real {
    if splits == [] then 0.0 else Quotient(Count(splits, p) as real, |splits| as real)
  }

  function TrainScores(splits: seq<Split>): seq<real> {
    seq(|splits|, i requires 0 <= i < |splits| => splits[i].isPerf)
  }

  function TestScores(splits: seq<Split>): seq<real> {
    seq(|splits|, i requires 0 <= i < |splits| => splits[i].oosPerf)
  }

  /** What is reported about the judged splits. */
  function Summarised(splits: seq<Split>, polyfit: Polyfit, s: nat, trimmed: nat): Report {
    Report(Fraction(splits, Overfit()), s, |splits|, trimmed, splits,
           DegradationLine(polyfit, TrainScores(splits), TestScores(splits)), Fraction(splits, Losing()))
  }

  /** The most recent rows that divide evenly into s blocks. */
  function Trimmed(m: seq<Row>, s: nat): (rows: seq<Row>)
    requires s > 0
    ensures |rows| == s * (|m| / s)
  {
    m[|m| % s..]
  }

  function BlocksOf(m: seq<Row>, s: nat): (blocks: seq<seq<Row>>)
    requires s > 0
    ensures |blocks| == s
  {
    Chunks(Trimmed(m, s), |m| / s, s)
  }

  function TrainRows(m: seq<Row>, s: nat, combo: seq<nat>): seq<Row>
    requires s > 0
  {
    Select(BlocksOf(m, s), Mask(combo, s), true)
  }

  function TestRows(m: seq<Row>, s: nat, combo: seq<nat>): seq<Row>
    requires s > 0
  {
    Select(BlocksOf(m, s), Mask(combo, s), false)
  }

  function SplitOf(m: seq<Row>, n: nat, stat: Statistic, ln: real -> real, s: nat, combo: seq<nat>): Split
    requires s > 0 && ScoresEvery(stat, n) && n > 0
  {
    Judge(stat, ln, TrainRows(m, s, combo), TestRows(m, s, combo), n)
  }

  function SplitsOf(m: seq<Row>, n: nat, stat: Statistic, ln: real -> real, s: nat, combos: seq<seq<nat>>): seq<Split>
    requires s > 0 && ScoresEvery(stat, n) && n > 0
  {
    seq(|combos|, i requires 0 <= i < |combos| => SplitOf(m, n, stat, ln, s, combos[i]))
  }

  lemma SplitsSnoc(m: seq<Row>, n: nat, stat: Statistic, ln: real -> real, s: nat, combos: seq<seq<nat>>, i: nat)
    requires s > 0 && ScoresEvery(stat, n) && n > 0 && i < |combos|
    ensures SplitsOf(m, n, stat, ln, s, combos[..i + 1])
            == SplitsOf(m, n, stat, ln, s, combos[..i]) + [SplitOf(m, n, stat, ln, s, combos[i])]
  {
  }

  function ReportOf(m: seq<Row>, n: nat, stat: Statistic, ln: real -> real, polyfit: Polyfit, s: nat): Report
    requires s > 0 && ScoresEvery(stat, n) && n > 0
  {
    Summarised(SplitsOf(m, n, stat, ln, s, Combos(0, s, s / 2)), polyfit, s, |m| % s)
  }

  /** cscv: every split is judged with one train/test mask, overwritten in place. */
  method Cscv(m: seq<Row>, n: nat, stat: Statistic, ln: real -> real, polyfit: Polyfit, s: int) returns (r: Outcome)
    requires ScoresEvery(stat, n)
    ensures r == if s <= 0 || s % 2 != 0 then Failed(BadBlockCount)
                 else if |m| < s then Failed(TooFewRows)
                 else if n == 0 then Failed(NoRules)
                 else Done(ReportOf(m, n, stat, ln, polyfit, s))
  {
    if s <= 0 || s % 2 != 0 {
      return Failed(BadBlockCount);
    }
    if |m| < s {
      return Failed(TooFewRows);
    }
    if n == 0 {
      return Failed(NoRules);
    }
    var blocks := BlocksOf(m, s);
    var combos := Combos(0, s, s / 2);
    var splits: seq<Split> := [];
    var inTrain := new bool[s];
    for i := 0 to |combos|
      invariant splits == SplitsOf(m, n, stat, ln, s, combos[..i])
    {
      CombosAscend(0, s, s / 2, i);
      SetMask(inTrain, combos[i], s);
      var mask := inTrain[..];
      var split := Judge(stat, ln, Select(blocks, mask, true), Select(blocks, mask, false), n);
      SplitsSnoc(m, n, stat, ln, s, combos, i);
      splits := splits + [split];
    }
    assert combos[..|combos|] == combos;
    r := Done(Summarised(splits, polyfit, s, |m| % s));
  }

  /** Clears the mask and sets the flags of the combination's blocks. */
  method SetMask(inTrain: array<bool>, combo: seq<nat>, s: nat)
    requires inTrain.Length == s && forall a :: 0 <= a < |combo| ==> combo[a] < s
    modifies inTrain
    ensures inTrain[..] == Mask(combo, s)
  {
    for k := 0 to s
      invariant forall j :: 0 <= j < k ==> !inTrain[j]
    {
      inTrain[k] := false;
    }
    for a := 0 to |combo|
      invariant forall j :: 0 <= j < s ==> (inTrain[j] <==> j in combo[..a])
    {
      inTrain[combo[a]] := true;
      assert combo[..a + 1] == combo[..a] + [combo[a]];
    }
    assert combo[..|combo|] == combo;
  }
}
