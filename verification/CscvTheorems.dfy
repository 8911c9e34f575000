/** What symmetric cross-validation guarantees whatever the panel (tools/pbo_ledger.py). */
module CscvTheorems {
  import opened RealAlgebra
  import opened Counting
  import opened Ranks
  import opened RankLaws
  import opened Combinations
  import opened Cscv
  import opened Degradation

  // ---------------------------------------------------------------------------
  // Train and test share out the trimmed rows
  // ---------------------------------------------------------------------------

  lemma {:induction false} ColumnSumConcat(a: seq<Row>, b: seq<Row>, j: nat)
    ensures ColumnSum(a + b, j) == ColumnSum(a, j) + ColumnSum(b, j)
    decreases |b|
  {
    if b == [] {
      assert a + b == a;
    } else {
      var k := |b| - 1;
      ColumnSumConcat(a, b[..k], j);
      assert (a + b)[..|a + b| - 1] == a + b[..k];
    }
  }

  function TotalSum(blocks: seq<seq<Row>>, j: nat): real {
    if blocks == [] then 0.0 else TotalSum(blocks[..|blocks| - 1], j) + ColumnSum(blocks[|blocks| - 1], j)
  }

  lemma OneChunkLess(per: nat, count: nat)
    requires count > 0
    ensures count * per - per == (count - 1) * per >= 0
  {
  }

  lemma {:induction false} ChunksAreEven(rows: seq<Row>, per: nat, count: nat)
    requires |rows| == count * per
    ensures forall b :: 0 <= b < count ==> |Chunks(rows, per, count)[b]| == per
    decreases count
  {
    if count > 0 {
      OneChunkLess(per, count);
      ChunksAreEven(rows[..|rows| - per], per, count - 1);
    }
  }

  lemma {:induction false} ChunksShareOut(rows: seq<Row>, per: nat, count: nat, j: nat)
    requires |rows| == count * per
    ensures TotalSum(Chunks(rows, per, count), j) == ColumnSum(rows, j)
    decreases count
  {
    if count > 0 {
      OneChunkLess(per, count);
      var front, last := rows[..|rows| - per], rows[|rows| - per..];
      ChunksShareOut(front, per, count - 1, j);
      assert rows == front + last;
      ColumnSumConcat(front, last, j);
      assert Chunks(rows, per, count)[..count - 1] == Chunks(front, per, count - 1);
    }
  }

  lemma {:induction false} SelectShares(blocks: seq<seq<Row>>, mask: seq<bool>, j: nat)
    requires |mask| == |blocks|
    ensures ColumnSum(Select(blocks, mask, true), j) + ColumnSum(Select(blocks, mask, false), j) == TotalSum(blocks, j)
    decreases |blocks|
  {
    if blocks != [] {
      var k := |blocks| - 1;
      SelectShares(blocks[..k], mask[..k], j);
      ColumnSumConcat(Select(blocks[..k], mask[..k], mask[k]), blocks[k], j);
      assert Select(blocks[..k], mask[..k], !mask[k]) + [] == Select(blocks[..k], mask[..k], !mask[k]);
    }
  }

  /** The number of rows in count blocks of per rows each. */
  function RowsIn(count: nat, per: nat): nat {
    if count == 0 then 0 else RowsIn(count - 1, per) + per
  }

  lemma {:induction false} RowsInIsProduct(count: nat, per: nat)
    ensures RowsIn(count, per) == count * per
    decreases count
  {
    if count > 0 {
      RowsInIsProduct(count - 1, per);
      assert count * per == (count - 1) * per + per;
    }
  }

  function MembersBelowOr(combo: seq<nat>, k: nat, want: bool): nat {
    if k == 0 then 0 else MembersBelowOr(combo, k - 1, want) + if (k - 1 in combo) == want then 1 else 0
  }

  lemma {:induction false} MembersAndOthers(combo: seq<nat>, k: nat)
    ensures MembersBelowOr(combo, k, true) == MembersBelow(combo, k)
    ensures MembersBelowOr(combo, k, false) + MembersBelow(combo, k) == k
    decreases k
  {
    if k > 0 {
      MembersAndOthers(combo, k - 1);
    }
  }

  /** Selecting a combination's blocks takes as many rows as its members supply. */
  lemma {:induction false} SelectLength(blocks: seq<seq<Row>>, combo: seq<nat>, per: nat, k: nat, want: bool)
    requires k <= |blocks| && forall b :: 0 <= b < |blocks| ==> |blocks[b]| == per
    ensures |Select(blocks[..k], Mask(combo, k), want)| == RowsIn(MembersBelowOr(combo, k, want), per)
    decreases k
  {
    if k > 0 {
      SelectLength(blocks, combo, per, k - 1, want);
      assert blocks[..k][..k - 1] == blocks[..k - 1];
      assert Mask(combo, k)[..k - 1] == Mask(combo, k - 1);
    }
  }

  lemma HalvesInBlocks(m: seq<Row>, s: nat, half: nat, per: nat, combo: seq<nat>)
    requires half > 0 && s == 2 * half && per == |m| / s && Ascending(combo, 0, s) && |combo| == half
    ensures |TrainRows(m, s, combo)| == RowsIn(half, per) && |TestRows(m, s, combo)| == RowsIn(half, per)
  {
    var blocks := BlocksOf(m, s);
    ChunksAreEven(Trimmed(m, s), per, s);
    SelectLength(blocks, combo, per, s, true);
    SelectLength(blocks, combo, per, s, false);
    MembersCount(combo, s);
    MembersAndOthers(combo, s);
    assert blocks[..s] == blocks;
  }

  /** Half the blocks train and half test: both sides hold half of the rows. */
  lemma HalvesAreEqual(m: seq<Row>, half: nat, combo: seq<nat>)
    requires half > 0 && Ascending(combo, 0, 2 * half) && |combo| == half
    ensures |TrainRows(m, 2 * half, combo)| == half * (|m| / (2 * half))
    ensures |TestRows(m, 2 * half, combo)| == half * (|m| / (2 * half))
  {
    HalvesInBlocks(m, 2 * half, half, |m| / (2 * half), combo);
    RowsInIsProduct(half, |m| / (2 * half));
  }

  lemma HalfMeans(train: real, test: real, total: real, count: real, doubled: real)
    requires count > 0.0 && doubled == 2.0 * count && train + test == total
    ensures train / count + test / count == 2.0 * (total / doubled)
  {
    var a, b, t := train / count, test / count, total / doubled;
    DivMul(train, count, a);
    DivMul(test, count, b);
    DivMul(total, doubled, t);
    assert (a + b) * count == (2.0 * t) * count;
    ScaleOrder(count, a + b, 2.0 * t, count * (a + b), count * (2.0 * t));
  }

  /** Main result: what a rule loses in training it gains in testing. Its two mean returns add
      up to twice its mean over all the trimmed rows, in every split. */
  lemma MeansAreShared(m: seq<Row>, half: nat, combo: seq<nat>, j: nat)
    requires half > 0 && |m| >= 2 * half && Ascending(combo, 0, 2 * half) && |combo| == half
    ensures ColumnMean(TrainRows(m, 2 * half, combo), j) + ColumnMean(TestRows(m, 2 * half, combo), j)
            == 2.0 * ColumnMean(Trimmed(m, 2 * half), j)
  {
    var s, per := 2 * half, |m| / (2 * half);
    var train, test, rows := TrainRows(m, s, combo), TestRows(m, s, combo), Trimmed(m, s);
    HalvesAreEqual(m, half, combo);
    AtLeastOne(half, per);
    assert |rows| == 2 * |train|;
    SelectShares(BlocksOf(m, s), Mask(combo, s), j);
    ChunksShareOut(rows, per, s, j);
    HalfMeans(ColumnSum(train, j), ColumnSum(test, j), ColumnSum(rows, j), |train| as real, |rows| as real);
  }

  lemma AtLeastOne(half: nat, per: nat)
    requires half > 0 && per > 0
    ensures half * per > 0 && 2 * half * per == 2 * (half * per)
  {
  }

  // ---------------------------------------------------------------------------
  // Split i and its mirror trade places
  // ---------------------------------------------------------------------------

  lemma {:induction false} SelectFlips(blocks: seq<seq<Row>>, mask: seq<bool>, mirror: seq<bool>, want: bool)
    requires |mask| == |mirror| == |blocks| && forall k :: 0 <= k < |mask| ==> mask[k] == !mirror[k]
    ensures Select(blocks, mask, want) == Select(blocks, mirror, !want)
    decreases |blocks|
  {
    if blocks != [] {
      var k := |blocks| - 1;
      SelectFlips(blocks[..k], mask[..k], mirror[..k], want);
      assert mask[k] == !mirror[k];
    }
  }

  lemma ComplementsTradePlaces(m: seq<Row>, s: nat, c: seq<nat>, d: seq<nat>)
    requires s > 0 && Complementary(c, d, 0, s)
    ensures TrainRows(m, s, c) == TestRows(m, s, d) && TestRows(m, s, c) == TrainRows(m, s, d)
  {
    forall k | 0 <= k < s ensures Mask(c, s)[k] == !Mask(d, s)[k] {
      assert k in c <==> k !in d;
    }
    SelectFlips(BlocksOf(m, s), Mask(c, s), Mask(d, s), true);
    SelectFlips(BlocksOf(m, s), Mask(c, s), Mask(d, s), false);
  }

  /** Main result: the i-th split from the front and the i-th from the back exchange their
      training and test rows, so the procedure is symmetric whatever the panel. */
  lemma SplitsTradePlaces(m: seq<Row>, half: nat, combos: seq<seq<nat>>, i: nat)
    requires half > 0 && combos == Combos(0, 2 * half, half) && i < |combos|
    ensures TrainRows(m, 2 * half, combos[i]) == TestRows(m, 2 * half, combos[|combos| - 1 - i])
    ensures TestRows(m, 2 * half, combos[i]) == TrainRows(m, 2 * half, combos[|combos| - 1 - i])
  {
    CombosMirror(0, 2 * half, half, half);
    ComplementsTradePlaces(m, 2 * half, combos[i], combos[|combos| - 1 - i]);
  }

  // ---------------------------------------------------------------------------
  // Relative ranks and logits
  // ---------------------------------------------------------------------------

  /** The natural logarithm, as far as the logit's sign needs it. */
  ghost predicate IsLog(ln: real -> real) {
    ln(1.0) == 0.0 && forall x, y :: 0.0 < x < y ==> ln(x) < ln(y)
  }

  lemma OddsAgainstOne(w: real)
    requires 0.0 < w < 1.0
    ensures Quotient(w, 1.0 - w) > 0.0
    ensures Quotient(w, 1.0 - w) < 1.0 <==> w < 0.5
    ensures Quotient(w, 1.0 - w) > 1.0 <==> w > 0.5
  {
    DivPos(w, 1.0 - w, w / (1.0 - w));
    DivOrder(w, 1.0 - w, w / (1.0 - w), 1.0, 1.0 - w);
  }

  /** A logit is negative exactly when the winner lands in the lower half out of sample. */
  lemma LogitSign(ln: real -> real, w: real)
    requires IsLog(ln) && 0.0 < w < 1.0
    ensures ln(Quotient(w, 1.0 - w)) < 0.0 <==> w < 0.5
    ensures ln(Quotient(w, 1.0 - w)) <= 0.0 <==> w <= 0.5
  {
    OddsAgainstOne(w);
    var odds := Quotient(w, 1.0 - w);
    if odds > 1.0 {
      assert ln(1.0) < ln(odds);
    } else if odds < 1.0 {
      assert ln(odds) < ln(1.0);
    }
  }

  /** The relative rank in terms of counts: below the median exactly when more rules beat the
      winner out of sample than it beats. */
  lemma RelativeRankAgainstHalf(oos: seq<real>, best: nat)
    requires best < |oos|
    ensures RelativeRank(oos, best) < 0.5
            <==> Smaller(oos, oos[best]) < |oos| - Smaller(oos, oos[best]) - Equal(oos, oos[best])
  {
    RankRange(oos, best);
    QuotientInside(1.0 + MidRank(oos, oos[best]), |oos| as real + 1.0);
  }

  // ---------------------------------------------------------------------------
  // Rules with equal means
  // ---------------------------------------------------------------------------

  lemma {:induction false} NothingSmaller(xs: seq<real>, v: real, n: nat)
    requires n <= |xs| && forall i :: 0 <= i < n ==> v <= xs[i]
    ensures Smaller(xs[..n], v) == 0
    ensures Equal(xs[..n], v) == n <==> forall i :: 0 <= i < n ==> xs[i] == v
    decreases n
  {
    SmallerAndEqual(xs, v, n);
    if n > 0 {
      NothingSmaller(xs, v, n - 1);
      SmallerAndEqual(xs, v, n - 1);
      EqualStep(xs, v, n);
      assert xs[..n] == xs[..n - 1] + [xs[n - 1]];
      CountSnoc(xs[..n - 1], xs[n - 1], Below(v));
    }
  }

  /** The lowest score ranks below the median unless every score ties with it. */
  lemma LowestRanksBelowHalf(oos: seq<real>, best: nat)
    requires best < |oos| && forall i :: 0 <= i < |oos| ==> oos[best] <= oos[i]
    ensures RelativeRank(oos, best) <= 0.5
    ensures RelativeRank(oos, best) < 0.5 <==> exists i :: 0 <= i < |oos| && oos[i] != oos[best]
  {
    NothingSmaller(oos, oos[best], |oos|);
    SmallerAndEqual(oos, oos[best], |oos|);
    assert oos[..|oos|] == oos;
    RankRange(oos, best);
    QuotientInside(1.0 + MidRank(oos, oos[best]), |oos| as real + 1.0);
  }

  /** All rules have one and the same mean over the trimmed rows. */
  ghost predicate EqualMeans(m: seq<Row>, n: nat, half: nat, mean: real)
    requires half > 0
  {
    forall j :: 0 <= j < n ==> ColumnMean(Trimmed(m, 2 * half), j) == mean
  }

  /** Scores that add up, rule by rule, to one constant: the best on one side is the worst on
      the other. */
  lemma BestBecomesWorst(train: seq<real>, test: seq<real>, total: real)
    requires |train| == |test| > 0 && forall j :: 0 <= j < |train| ==> train[j] + test[j] == total
    ensures RelativeRank(test, ArgMax(train)) <= 0.5
    ensures RelativeRank(test, ArgMax(train)) < 0.5 <==> Varies(train)
  {
    var best := ArgMax(train);
    forall i | 0 <= i < |test| ensures test[best] <= test[i] {
      assert train[i] + test[i] == total && train[best] + test[best] == total;
    }
    LowestRanksBelowHalf(test, best);
    if Varies(train) {
      var i, j :| 0 <= i < |train| && 0 <= j < |train| && train[i] != train[j];
      var other := if train[i] != train[best] then i else j;
      assert train[other] + test[other] == total && train[best] + test[best] == total;
      assert test[other] != test[best];
    }
    if RelativeRank(test, best) < 0.5 {
      var i :| 0 <= i < |test| && test[i] != test[best];
      assert train[i] + test[i] == total && train[best] + test[best] == total;
      assert train[i] != train[best];
    }
  }

  /** The combination puts half of the blocks in training. */
  ghost predicate HalfSplit(combo: seq<nat>, half: nat) {
    Ascending(combo, 0, 2 * half) && |combo| == half
  }

  lemma SharedScores(m: seq<Row>, n: nat, half: nat, combo: seq<nat>, mean: real)
    requires half > 0 && |m| >= 2 * half && HalfSplit(combo, half) && EqualMeans(m, n, half, mean)
    ensures forall j :: 0 <= j < n ==> MeanScores(TrainRows(m, 2 * half, combo), n)[j]
                                       + MeanScores(TestRows(m, 2 * half, combo), n)[j] == 2.0 * mean
  {
    forall j | 0 <= j < n
      ensures MeanScores(TrainRows(m, 2 * half, combo), n)[j]
              + MeanScores(TestRows(m, 2 * half, combo), n)[j] == 2.0 * mean
    {
      MeansAreShared(m, half, combo, j);
      assert ColumnMean(Trimmed(m, 2 * half), j) == mean;
    }
  }

  /** Main result: when all rules have the same mean, mean-return selection never looks better
      than overfit. The winner's logit is never positive, and it is negative exactly when
      training told any rules apart. */
  lemma EqualMeansLookOverfit(m: seq<Row>, n: nat, half: nat, combo: seq<nat>, mean: real, ln: real -> real)
    requires half > 0 && n > 0 && |m| >= 2 * half && HalfSplit(combo, half)
    requires EqualMeans(m, n, half, mean) && IsLog(ln)
    ensures var split := SplitOf(m, n, MeanReturn(n), ln, 2 * half, combo);
            && split.logit <= 0.0
            && (split.logit < 0.0 <==> Varies(MeanScores(TrainRows(m, 2 * half, combo), n)))
  {
    var train, test := TrainRows(m, 2 * half, combo), TestRows(m, 2 * half, combo);
    SharedScores(m, n, half, combo, mean);
    BestBecomesWorst(MeanScores(train, n), MeanScores(test, n), 2.0 * mean);
    LogitSign(ln, RelativeRank(MeanScores(test, n), ArgMax(MeanScores(train, n))));
  }

  /** Whichever half of the blocks trains, it gives some rules different scores. */
  ghost predicate AlwaysTellsApart(m: seq<Row>, n: nat, half: nat)
    requires half > 0
  {
    forall combo :: HalfSplit(combo, half) ==> Varies(MeanScores(TrainRows(m, 2 * half, combo), n))
  }

  lemma CombosAreHalfSplits(half: nat)
    ensures forall c :: c in Combos(0, 2 * half, half) <==> HalfSplit(c, half)
    ensures Combos(0, 2 * half, half) != []
  {
    CombosAreTheSubsets(2 * half, half);
    assert HalfSplit(seq(half, i => i), half);
  }

  /** Every split overfits exactly when every training half tells some rules apart. */
  lemma EverySplitOverfits(m: seq<Row>, n: nat, half: nat, mean: real, ln: real -> real)
    requires half > 0 && n > 0 && |m| >= 2 * half && EqualMeans(m, n, half, mean) && IsLog(ln)
    ensures (forall c :: c in Combos(0, 2 * half, half) ==> Overfit()(SplitOf(m, n, MeanReturn(n), ln, 2 * half, c)))
            <==> AlwaysTellsApart(m, n, half)
  {
    CombosAreHalfSplits(half);
    forall c | HalfSplit(c, half)
      ensures Overfit()(SplitOf(m, n, MeanReturn(n), ln, 2 * half, c))
              <==> Varies(MeanScores(TrainRows(m, 2 * half, c), n))
    {
      EqualMeansLookOverfit(m, n, half, c, mean, ln);
    }
  }

  lemma FullQuotient(c: real, n: real)
    requires n > 0.0
    ensures Quotient(c, n) == 1.0 <==> c == n
  {
    DivOrder(c, n, c / n, 1.0, n);
  }

  /** A fraction is one exactly when it leaves nothing out. */
  lemma FractionIsOne(splits: seq<Split>, p: Split -> bool)
    requires splits != []
    ensures Fraction(splits, p) == 1.0 <==> forall i :: 0 <= i < |splits| ==> p(splits[i])
  {
    CountIsFull(splits, p);
    FullQuotient(Count(splits, p) as real, |splits| as real);
  }

  /** Under any statistic: the probability of overfitting is one exactly when every split is. */
  lemma PboIsOneExactlyWhen(m: seq<Row>, n: nat, half: nat, stat: Statistic, ln: real -> real, polyfit: Polyfit)
    requires half > 0 && n > 0 && ScoresEvery(stat, n)
    ensures ReportOf(m, n, stat, ln, polyfit, 2 * half).pbo == 1.0
            <==> forall c :: c in Combos(0, 2 * half, half) ==> Overfit()(SplitOf(m, n, stat, ln, 2 * half, c))
  {
    var combos := Combos(0, 2 * half, half);
    var splits := SplitsOf(m, n, stat, ln, 2 * half, combos);
    assert 2 * half / 2 == half;
    CombosAreHalfSplits(half);
    FractionIsOne(splits, Overfit());
    assert forall i :: 0 <= i < |combos| ==> splits[i] == SplitOf(m, n, stat, ln, 2 * half, combos[i]);
  }

  /** Main result: among rules with the same mean the probability of overfitting comes out as
      one exactly when training always tells some of them apart. */
  lemma CertainOverfitExactlyWhen(m: seq<Row>, n: nat, half: nat, mean: real, ln: real -> real, polyfit: Polyfit)
    requires half > 0 && n > 0 && |m| >= 2 * half && EqualMeans(m, n, half, mean) && IsLog(ln)
    ensures ReportOf(m, n, MeanReturn(n), ln, polyfit, 2 * half).pbo == 1.0 <==> AlwaysTellsApart(m, n, half)
  {
    PboIsOneExactlyWhen(m, n, half, MeanReturn(n), ln, polyfit);
    EverySplitOverfits(m, n, half, mean, ln);
  }

  /** The winner's two scores add up to twice the common mean. */
  lemma WinnerTradesOff(m: seq<Row>, n: nat, half: nat, combo: seq<nat>, mean: real, ln: real -> real)
    requires half > 0 && n > 0 && |m| >= 2 * half && HalfSplit(combo, half) && EqualMeans(m, n, half, mean)
    ensures var split := SplitOf(m, n, MeanReturn(n), ln, 2 * half, combo);
            split.isPerf + split.oosPerf == 2.0 * mean
  {
    SharedScores(m, n, half, combo, mean);
  }

  /** Main result: among rules with the same mean the degradation line is no measurement. It
      falls by exactly one from twice that mean, unless every split's winner scored the same in
      training. */
  lemma EqualMeansDegradeByOne(m: seq<Row>, n: nat, half: nat, mean: real, ln: real -> real, polyfit: Polyfit)
    requires half > 0 && n > 0 && |m| >= 2 * half && EqualMeans(m, n, half, mean) && IsLeastSquares(polyfit)
    ensures var r := ReportOf(m, n, MeanReturn(n), ln, polyfit, 2 * half);
            r.degradation.slope == if Varies(TrainScores(r.splits)) then -1.0 else 0.0
    ensures var r := ReportOf(m, n, MeanReturn(n), ln, polyfit, 2 * half);
            Varies(TrainScores(r.splits)) ==> r.degradation.intercept == 2.0 * mean
  {
    var combos := Combos(0, 2 * half, half);
    var splits := SplitsOf(m, n, MeanReturn(n), ln, 2 * half, combos);
    assert 2 * half / 2 == half;
    forall i | 0 <= i < |splits| ensures TrainScores(splits)[i] + TestScores(splits)[i] == 2.0 * mean {
      CombosAscend(0, 2 * half, half, i);
      WinnerTradesOff(m, n, half, combos[i], mean, ln);
    }
    if Varies(TrainScores(splits)) {
      TradeOffIsFitted(polyfit, TrainScores(splits), TestScores(splits), 2.0 * mean);
    }
  }

  // ---------------------------------------------------------------------------
  // A panel that always looks overfit
  // ---------------------------------------------------------------------------

  function UnitRow(n: nat, k: nat): Row {
    seq(n, (j: nat) => if j == k then 1.0 else 0.0)
  }

  /** As many periods as rules; rule k earns one in period k and nothing else. */
  function TurnByTurn(n: nat): seq<Row> {
    seq(n, (k: nat) => UnitRow(n, k))
  }

  lemma {:induction false} ChunksOfOne(rows: seq<Row>, count: nat, k: nat)
    requires |rows| == count && k < count
    ensures Chunks(rows, 1, count)[k] == [rows[k]]
    decreases count
  {
    if k < count - 1 {
      ChunksOfOne(rows[..count - 1], count - 1, k);
    }
  }

  /** One more block adds its own sum if it is selected. */
  lemma SelectStep(blocks: seq<seq<Row>>, mask: seq<bool>, want: bool, j: nat, k: nat)
    requires |mask| == |blocks| && k < |blocks|
    ensures ColumnSum(Select(blocks[..k + 1], mask[..k + 1], want), j)
            == ColumnSum(Select(blocks[..k], mask[..k], want), j)
               + if mask[k] == want then ColumnSum(blocks[k], j) else 0.0
  {
    var before := Select(blocks[..k], mask[..k], want);
    assert blocks[..k + 1][..k] == blocks[..k] && mask[..k + 1][..k] == mask[..k];
    ColumnSumConcat(before, blocks[k], j);
    assert before + [] == before;
  }

  lemma OneTurn(n: nat, k: nat, j: nat)
    requires k < n && j < n
    ensures ColumnSum(Chunks(TurnByTurn(n), 1, n)[k], j) == if j == k then 1.0 else 0.0
  {
    ChunksOfOne(TurnByTurn(n), n, k);
    assert ColumnSum([UnitRow(n, k)], j) == ColumnSum([], j) + Cell(UnitRow(n, k), j);
  }

  /** What the selected blocks hold for rule j: its one, if its own block is among them. */
  lemma {:induction false} TurnsSelected(n: nat, mask: seq<bool>, want: bool, j: nat, k: nat)
    requires |mask| == n && j < n && k <= n
    ensures ColumnSum(Select(Chunks(TurnByTurn(n), 1, n)[..k], mask[..k], want), j)
            == if j < k && mask[j] == want then 1.0 else 0.0
    decreases k
  {
    if k > 0 {
      TurnsSelected(n, mask, want, j, k - 1);
      OneTurn(n, k - 1, j);
      SelectStep(Chunks(TurnByTurn(n), 1, n), mask, want, j, k - 1);
    }
  }

  lemma TurnsUntrimmed(half: nat)
    requires half > 0
    ensures Trimmed(TurnByTurn(2 * half), 2 * half) == TurnByTurn(2 * half)
    ensures BlocksOf(TurnByTurn(2 * half), 2 * half) == Chunks(TurnByTurn(2 * half), 1, 2 * half)
  {
    var m, s := TurnByTurn(2 * half), 2 * half;
    assert |m| % s == 0 && |m| / s == 1;
    assert m[0..] == m;
  }

  lemma TurnsHaveEqualMeans(half: nat)
    requires half > 0
    ensures EqualMeans(TurnByTurn(2 * half), 2 * half, half, 1.0 / (2 * half) as real)
  {
    var s := 2 * half;
    var m, mask := TurnByTurn(s), seq(s, _ => true);
    var blocks := Chunks(m, 1, s);
    TurnsUntrimmed(half);
    assert blocks[..s] == blocks && mask[..s] == mask;
    forall j | 0 <= j < s ensures ColumnSum(m, j) == 1.0 {
      TurnsSelected(s, mask, true, j, s);
      TurnsSelected(s, mask, false, j, s);
      SelectShares(blocks, mask, j);
      ChunksShareOut(m, 1, s, j);
    }
  }

  lemma {:induction false} AllMembersBelow(combo: seq<nat>, k: nat)
    requires forall j: nat :: j < k ==> j in combo
    ensures MembersBelow(combo, k) == k
    decreases k
  {
    if k > 0 {
      AllMembersBelow(combo, k - 1);
    }
  }

  lemma SomeOutsider(combo: seq<nat>, s: nat)
    requires Ascending(combo, 0, s) && |combo| < s
    ensures exists j: nat :: j < s && j !in combo
  {
    if forall j: nat :: j < s ==> j in combo {
      AllMembersBelow(combo, s);
      MembersCount(combo, s);
    }
  }

  /** A block that the combination leaves out. */
  ghost function Outsider(combo: seq<nat>, s: nat): (j: nat)
    requires Ascending(combo, 0, s) && |combo| < s
    ensures j < s && j !in combo
  {
    SomeOutsider(combo, s);
    var j: nat :| j < s && j !in combo;
    j
  }

  lemma TurnsAreToldApart(half: nat, combo: seq<nat>)
    requires half > 0 && HalfSplit(combo, half)
    ensures Varies(MeanScores(TrainRows(TurnByTurn(2 * half), 2 * half, combo), 2 * half))
  {
    var s := 2 * half;
    var m, mask := TurnByTurn(s), Mask(combo, s);
    var blocks, train := Chunks(m, 1, s), TrainRows(m, s, combo);
    var i, j := combo[0], Outsider(combo, s);
    TurnsUntrimmed(half);
    assert blocks[..s] == blocks && mask[..s] == mask;
    TurnsSelected(s, mask, true, i, s);
    TurnsSelected(s, mask, true, j, s);
    assert train != [];
    DivPos(1.0, |train| as real, 1.0 / |train| as real);
    assert MeanScores(train, s)[i] != MeanScores(train, s)[j];
  }

  /** For every number of blocks there is a panel of rules with the same mean whose probability
      of overfitting is one. */
  lemma EqualMeansCanLookCertain(half: nat, ln: real -> real, polyfit: Polyfit)
    requires half > 0 && IsLog(ln)
    ensures var n, m := 2 * half, TurnByTurn(2 * half);
            && EqualMeans(m, n, half, 1.0 / n as real)
            && ReportOf(m, n, MeanReturn(n), ln, polyfit, 2 * half).pbo == 1.0
  {
    var n, m := 2 * half, TurnByTurn(2 * half);
    TurnsHaveEqualMeans(half);
    forall combo | HalfSplit(combo, half) ensures Varies(MeanScores(TrainRows(m, n, combo), n)) {
      TurnsAreToldApart(half, combo);
    }
    CertainOverfitExactlyWhen(m, n, half, 1.0 / n as real, ln, polyfit);
  }
}
