/** When a pre-registered kind can first be graded (tools/prereg_readiness.py), related to the
    greedy fold that actually decides it. */
module Readiness {
  import opened HorizonBlocks
  import opened BlockTheorems

  // ---------------------------------------------------------------------------
  // Calendar estimates
  // ---------------------------------------------------------------------------

  /** Truncation toward zero. */
  function Truncate(x: real): int {
    if x >= 0.0 then x.Floor else -((-x).Floor)
  }

  function Ceiling(x: real): int {
    -((-x).Floor)
  }

  /** The estimate the code computes: 0.999 is added and the sum truncated; 0 for no bars. */
  function TradingToCalendar(bars: int, ratio: real): int {
    if bars <= 0 then 0 else Truncate(bars as real * ratio + 0.999)
  }

  /** The documentation calls the estimate a ceiling. Down to a product of -0.999 it is one
      exactly when the product is whole or its fractional part is at least 0.001. Below that the
      sum is truncated upward, and they agree exactly when that part is in (0, 0.001]. */
  lemma RoundsUpExactly(bars: int, ratio: real)
    requires bars > 0
    ensures var x := bars as real * ratio;
            var part := x - x.Floor as real;
            TradingToCalendar(bars, ratio) == Ceiling(x)
            <==> if x >= -0.999 then part == 0.0 || part >= 0.001 else 0.0 < part <= 0.001
  {
    RoundingAt(bars as real * ratio);
  }

  lemma RoundingAt(x: real)
    ensures var part := x - x.Floor as real;
            Truncate(x + 0.999) == Ceiling(x)
            <==> if x >= -0.999 then part == 0.0 || part >= 0.001 else 0.0 < part <= 0.001
  {
    var whole := x.Floor;
    var part := x - whole as real;
    assert Ceiling(x) == if part == 0.0 then whole else whole + 1;
    assert (x + 0.999).Floor == if part >= 0.001 then whole + 1 else whole;
    assert Ceiling(x + 0.999) == if part <= 0.001 then whole + 1 else whole + 2;
  }

  /** A ratio a shade above one falls short: one bar is estimated at one day, not two. */
  lemma RatioCanRoundDown()
    ensures TradingToCalendar(1, 1.0005) == 1 && Ceiling(1.0 * 1.0005) == 2
  {
    assert (1.0005 + 0.999).Floor == 1;
    assert (-1.0005).Floor == -2;
  }

  /** The default ratio of 7/5 always rounds up. */
  lemma DefaultRatioRoundsUp(bars: int)
    requires bars > 0
    ensures TradingToCalendar(bars, 7.0 / 5.0) == (7 * bars + 4) / 5
  {
    var q, r := 7 * bars / 5, 7 * bars % 5;
    assert 7 * bars == 5 * q + r;
    var x := bars as real * (7.0 / 5.0);
    assert x == (7 * bars) as real / 5.0 == q as real + r as real / 5.0;
    assert (x + 0.999).Floor == if r == 0 then q else q + 1;
  }

  // ---------------------------------------------------------------------------
  // The readiness dates
  // ---------------------------------------------------------------------------

  datatype Dates = Dates(earliestResolutionDay: int, blockGateCallDay: int, firstVerdictDay: int, minIndependent: int)

  datatype ReadinessResult = Ready(dates: Dates) | BadHorizon | BadMinBlocks

  function Readiness(firstCallDay: int, horizonDays: int, minBlocks: int, minIndependent: int, ratio: real)
    : ReadinessResult
  {
    if horizonDays < 1 then BadHorizon
    else if minBlocks < 1 then BadMinBlocks
    else
      var gate := firstCallDay + (minBlocks - 1) * horizonDays;
      var wait := TradingToCalendar(horizonDays, ratio);
      Ready(Dates(firstCallDay + wait, gate, gate + wait, minIndependent))
  }

  lemma SubsetSize(a: set<int>, b: set<int>)
    requires a <= b
    ensures |a| <= |b|
  {
    assert b == a + (b - a);
  }

  /** Calls on every day from first to last. */
  ghost predicate DailyCalls(days: set<int>, first: int, last: int) {
    forall d :: d in days <==> first <= d <= last
  }

  /** No set of calls starting no earlier than the first call day can produce min_blocks blocks
      before the gate. */
  lemma NoBlocksBeforeGate(rows: seq<DayRow>, blocks: seq<DayRow>, first: int, last: int,
                           horizonDays: int, minBlocks: int, minIndependent: int, ratio: real)
    requires horizonDays >= 1 && minBlocks >= 1
    requires (forall d :: d in Days(rows) ==> first <= d <= last) && IsFold(rows, Horizon(horizonDays), blocks)
    requires |blocks| >= minBlocks
    ensures last >= Readiness(first, horizonDays, minBlocks, minIndependent, ratio).dates.blockGateCallDay
  {
    var starts := Anchors(blocks);
    AnchorsAdvance(starts, horizonDays, minBlocks - 1);
    assert starts[0] in SetOf(starts) && starts[minBlocks - 1] in SetOf(starts);
  }

  /** k days spaced hd apart, the first of them given. */
  lemma {:induction false} SpreadDays(first: int, hd: int, k: nat) returns (starts: seq<int>)
    requires hd >= 1
    ensures |starts| == k && Spaced(starts, hd)
    ensures forall i :: 0 <= i < k ==> first <= starts[i] <= first + (k - 1) * hd
    ensures k > 0 ==> starts[k - 1] == first + (k - 1) * hd
    decreases k
  {
    if k == 0 {
      starts := [];
    } else {
      var before := SpreadDays(first, hd, k - 1);
      assert (k - 1) * hd == (k - 2) * hd + hd;
      assert k > 1 ==> (k - 2) * hd >= 0;
      SpacedSnoc(before, hd, first + (k - 1) * hd);
      starts := before + [first + (k - 1) * hd];
    }
  }

  lemma SpreadFromSpaced(starts: seq<int>, hd: int)
    requires hd >= 1 && Spaced(starts, hd)
    ensures Spread(SetOf(starts), hd)
  {
    forall d, e | d in SetOf(starts) && e in SetOf(starts) && d < e ensures d + hd <= e {
      var i :| 0 <= i < |starts| && starts[i] == d;
      var j :| 0 <= j < |starts| && starts[j] == e;
      assert j < i ==> starts[j] + hd <= starts[i];
    }
  }

  /** The block gate is exact: daily calls give min_blocks blocks on the gate day and not before. */
  lemma GateIsExact(rows: seq<DayRow>, blocks: seq<DayRow>, first: int, last: int,
                    horizonDays: int, minBlocks: int, minIndependent: int, ratio: real)
    requires horizonDays >= 1 && minBlocks >= 1
    requires DailyCalls(Days(rows), first, last) && IsFold(rows, Horizon(horizonDays), blocks)
    ensures |blocks| >= minBlocks <==>
            last >= Readiness(first, horizonDays, minBlocks, minIndependent, ratio).dates.blockGateCallDay
  {
    if |blocks| >= minBlocks {
      NoBlocksBeforeGate(rows, blocks, first, last, horizonDays, minBlocks, minIndependent, ratio);
    }
    if last >= first + (minBlocks - 1) * horizonDays {
      var starts := SpreadDays(first, horizonDays, minBlocks);
      SpacedSet(starts, horizonDays, minBlocks);
      assert starts[..minBlocks] == starts;
      forall s | s in SetOf(starts) ensures s in Days(rows) {
        var i :| 0 <= i < minBlocks && starts[i] == s;
      }
      SpreadFromSpaced(starts, horizonDays);
      FoldIsOptimal(rows, horizonDays, blocks);
    }
  }

  lemma SpanBetween(stretch: int, hd: int, span: int)
    requires hd >= 1 && stretch >= 0 && span == (stretch + hd) / hd
    ensures span >= 1 && (span - 1) * hd <= stretch < span * hd
  {
    assert stretch + hd == hd * span + (stretch + hd) % hd;
    assert (span - 1) * hd == hd * span - hd && span * hd == hd * span;
    QuotientAtLeast(stretch + hd, 1, hd);
  }

  /** block_span is exact too: it is the number of blocks that calls on every day from the first
      anchor to the last would fold into. */
  lemma SpanIsDailyBlocks(blocks: seq<DayRow>, rows: seq<DayRow>, daily: seq<DayRow>, hd: int)
    requires hd >= 1 && blocks != [] && blocks[0].day <= blocks[|blocks| - 1].day
    requires DailyCalls(Days(rows), blocks[0].day, blocks[|blocks| - 1].day) && IsFold(rows, Horizon(hd), daily)
    ensures |daily| == BlockSpan(blocks, hd)
  {
    var first, last, span := blocks[0].day, blocks[|blocks| - 1].day, BlockSpan(blocks, hd);
    SpanBetween(last - first, hd, span);
    GateIsExact(rows, daily, first, last, hd, span, 0, 1.0);
    GateIsExact(rows, daily, first, last, hd, span + 1, 0, 1.0);
  }

  /** The dates at the default ratio, in whole days: seven calendar days for five bars, rounded up,
      after the first call and after the gate. */
  lemma DefaultDates(first: int, horizonDays: int, minBlocks: int, minIndependent: int)
    requires horizonDays >= 1 && minBlocks >= 1
    ensures Readiness(first, horizonDays, minBlocks, minIndependent, 7.0 / 5.0)
            == Ready(Dates(first + (7 * horizonDays + 4) / 5,
                           first + (minBlocks - 1) * horizonDays,
                           first + (minBlocks - 1) * horizonDays + (7 * horizonDays + 4) / 5,
                           minIndependent))
  {
    DefaultRatioRoundsUp(horizonDays);
  }

  // ---------------------------------------------------------------------------
  // The fixed grid that the report counts blocks on
  // ---------------------------------------------------------------------------

  /** The bucket of a day on the fixed grid. SQLite's division truncates toward zero. */
  function Bucket(day: int, hd: int): int
    requires hd >= 1
  {
    if day >= 0 then day / hd else -((-day) / hd)
  }

  /** How many buckets of the grid hold a call day. */
  function GridCount(days: set<int>, hd: int): nat
    requires hd >= 1
  {
    |set d | d in days :: Bucket(d, hd)|
  }

  lemma QuotientOrder(x: int, y: int, d: int)
    requires d >= 1 && x <= y
    ensures x / d <= y / d
    ensures y < x + d ==> y / d <= x / d + 1
    ensures x + d <= y ==> x / d + 1 <= y / d
  {
    var q := x / d;
    assert x == d * q + x % d;
    QuotientAtLeast(y, q, d);
    if y < x + d {
      assert (q + 2) * d == d * q + 2 * d;
      QuotientBelow(y, q + 2, d);
    }
    if x + d <= y {
      assert (q + 1) * d == d * q + d;
      QuotientAtLeast(y, q + 1, d);
    }
  }

  lemma QuotientBelow(x: int, q: int, d: int)
    requires d >= 1 && x < q * d
    ensures x / d < q
  {
    assert x == d * (x / d) + x % d;
    assert d * (q - x / d) == q * d - d * (x / d) > 0;
  }

  lemma SmallQuotient(x: int, d: int)
    requires d >= 1 && 0 <= x < d
    ensures x / d == 0
  {
  }

  /** Two days on either side of day zero, far enough apart for two blocks and close enough for
      truncation to put both in bucket zero. */
  predicate Straddles(d: int, e: int, hd: int) {
    -hd < d < 0 < e < hd && d + hd <= e
  }

  /** Days a horizon apart lie in different buckets, unless they straddle day zero. */
  lemma BucketAdvances(d: int, e: int, hd: int)
    requires hd >= 1 && d + hd <= e
    ensures !Straddles(d, e, hd) ==> Bucket(d, hd) < Bucket(e, hd)
    ensures Straddles(d, e, hd) ==> Bucket(d, hd) == 0 == Bucket(e, hd)
  {
    if d >= 0 {
      QuotientOrder(d, e, hd);
    } else if e <= 0 {
      QuotientOrder(-e, -d, hd);
    } else {
      QuotientSign(-d, hd);
      QuotientSign(e, hd);
    }
  }

  lemma QuotientSign(x: int, d: int)
    requires d >= 1 && x >= 0
    ensures x < d ==> x / d == 0
    ensures x >= d ==> x / d >= 1
  {
    if x < d {
      SmallQuotient(x, d);
    } else {
      QuotientAtLeast(x, 1, d);
    }
    QuotientAtLeast(x, 0, d);
  }

  lemma BucketsPerWindow(start: int, day: int, hd: int)
    requires hd >= 1 && InWindow(start, hd, day)
    ensures Bucket(start, hd) <= Bucket(day, hd) <= Bucket(start, hd) + 1
  {
    if start >= 0 {
      QuotientOrder(start, day, hd);
    } else if day < 0 {
      QuotientOrder(-day, -start, hd);
    } else {
      SmallQuotient(day, hd);
      QuotientOrder(0, -start, hd);
      QuotientOrder(-start, hd, hd);
      assert hd / hd == 1;
    }
  }

  // ---------------------------------------------------------------------------
  // When the grid undercounts
  // ---------------------------------------------------------------------------

  /** No two of the days straddle day zero. Days from the epoch on never do. */
  ghost predicate NoStraddle(days: set<int>, hd: int) {
    forall d, e :: d in days && e in days ==> !Straddles(d, e, hd)
  }

  function BucketsOf(starts: seq<int>, hd: int): seq<int>
    requires hd >= 1
  {
    seq(|starts|, i requires 0 <= i < |starts| => Bucket(starts[i], hd))
  }

  lemma DistinctBuckets(starts: seq<int>, hd: int)
    requires hd >= 1 && Spaced(starts, hd) && NoStraddle(SetOf(starts), hd)
    ensures |SetOf(BucketsOf(starts, hd))| == |starts|
  {
    var buckets := BucketsOf(starts, hd);
    forall i, j | 0 <= i < j < |starts| ensures buckets[i] + 1 <= buckets[j] {
      assert starts[i] in SetOf(starts) && starts[j] in SetOf(starts);
      BucketAdvances(starts[i], starts[j], hd);
    }
    SpacedSet(buckets, 1, |buckets|);
    assert buckets[..|buckets|] == buckets;
  }

  lemma AnchorsAreBucketed(starts: seq<int>, hd: int, days: set<int>)
    requires hd >= 1 && SetOf(starts) <= days
    ensures SetOf(BucketsOf(starts, hd)) <= (set d | d in days :: Bucket(d, hd))
  {
    var buckets := BucketsOf(starts, hd);
    forall b | b in SetOf(buckets) ensures b in (set d | d in days :: Bucket(d, hd)) {
      var i :| 0 <= i < |buckets| && buckets[i] == b;
      assert starts[i] in SetOf(starts);
    }
  }

  /** The grid never counts fewer blocks than the greedy fold, as long as no two call days
      straddle day zero. */
  lemma GridNeverUndercounts(starts: seq<int>, hd: int, days: set<int>)
    requires hd >= 1 && Anchoring(starts, hd, days) && NoStraddle(days, hd)
    ensures |starts| <= GridCount(days, hd)
  {
    DistinctBuckets(starts, hd);
    AnchorsAreBucketed(starts, hd, days);
    SubsetSize(SetOf(BucketsOf(starts, hd)), set d | d in days :: Bucket(d, hd));
  }

  lemma StraddlersMerge(d: int, e: int, hd: int)
    requires hd >= 1 && Straddles(d, e, hd)
    ensures Anchoring([d, e], hd, {d, e}) && GridCount({d, e}, hd) == 1
  {
    BucketAdvances(d, e, hd);
    assert InWindow([d, e][0], hd, d) && InWindow([d, e][1], hd, e);
    var days := {d, e};
    var grid := set x | x in days :: Bucket(x, hd);
    assert d in days && Bucket(d, hd) in grid;
    assert forall b :: b in grid ==> b == 0;
    assert grid == {0};
  }

  /** The grid is safe for every set of call days in this range. */
  ghost predicate GridIsSafe(possible: set<int>, hd: int)
    requires hd >= 1
  {
    forall days: set<int>, starts: seq<int> :: days <= possible && Anchoring(starts, hd, days) ==>
      |starts| <= GridCount(days, hd)
  }

  lemma StraddlersAreUnsafe(possible: set<int>, d: int, e: int, hd: int)
    requires hd >= 1 && d in possible && e in possible && Straddles(d, e, hd)
    ensures !GridIsSafe(possible, hd)
  {
    StraddlersMerge(d, e, hd);
    assert {d, e} <= possible && |[d, e]| == 2;
  }

  /** Main result: whatever days the calls fall on, out of the days they can fall on, the grid
      never undercounts exactly when no two of those days straddle day zero. */
  lemma GridIsSafeExactlyWhen(possible: set<int>, hd: int)
    requires hd >= 1
    ensures GridIsSafe(possible, hd) <==> NoStraddle(possible, hd)
  {
    if NoStraddle(possible, hd) {
      forall days: set<int>, starts: seq<int> | days <= possible && Anchoring(starts, hd, days)
        ensures |starts| <= GridCount(days, hd)
      {
        GridNeverUndercounts(starts, hd, days);
      }
    }
    if GridIsSafe(possible, hd) {
      forall d, e | d in possible && e in possible ensures !Straddles(d, e, hd) {
        if Straddles(d, e, hd) {
          StraddlersAreUnsafe(possible, d, e, hd);
        }
      }
    }
  }

  function Without(starts: seq<int>, j: nat): seq<int>
    requires j < |starts|
  {
    starts[..j] + starts[j + 1..]
  }

  /** Dropping the later of two straddling anchors leaves none that straddle. */
  lemma NoStraddleWithout(starts: seq<int>, hd: int, j: nat)
    requires hd >= 1 && Spaced(starts, hd) && 0 < j < |starts| && Straddles(starts[j - 1], starts[j], hd)
    ensures Spaced(Without(starts, j), hd) && NoStraddle(SetOf(Without(starts, j)), hd)
  {
    var rest := Without(starts, j);
    forall e | e in SetOf(rest) ensures e <= 0 || e >= hd {
      var b: nat :| b < |rest| && rest[b] == e;
      if b < j {
        SpacedGap(starts, hd, b, j);
      } else {
        SpacedGap(starts, hd, j, b + 1);
      }
    }
  }

  /** And it loses no bucket. */
  lemma SameBucketsWithout(starts: seq<int>, hd: int, j: nat)
    requires hd >= 1 && 0 < j < |starts| && Bucket(starts[j - 1], hd) == Bucket(starts[j], hd)
    ensures SetOf(BucketsOf(Without(starts, j), hd)) == SetOf(BucketsOf(starts, hd))
  {
    var all, kept := BucketsOf(starts, hd), BucketsOf(Without(starts, j), hd);
    forall i | 0 <= i < |all| ensures all[i] in kept {
      assert all[i] == kept[if i < j then i else i - 1];
    }
    forall i | 0 <= i < |kept| ensures kept[i] in all {
      assert kept[i] == all[if i < j then i else i + 1];
    }
  }

  lemma SpacedGap(starts: seq<int>, hd: int, i: nat, j: nat)
    requires hd >= 1 && Spaced(starts, hd) && i < |starts| && j < |starts|
    ensures i < j ==> starts[i] + hd <= starts[j]
    ensures i + 1 < j ==> starts[i] + 2 * hd <= starts[j]
  {
    if i + 1 < j {
      assert starts[i] + hd <= starts[i + 1] && starts[i + 1] + hd <= starts[j];
    }
  }

  lemma StraddlersAreNeighbours(starts: seq<int>, hd: int, d: int, e: int) returns (j: nat)
    requires hd >= 1 && Spaced(starts, hd) && d in starts && e in starts && Straddles(d, e, hd)
    ensures 0 < j < |starts| && starts[j - 1] == d && starts[j] == e
  {
    var i: nat :| i < |starts| && starts[i] == d;
    j :| 0 <= j < |starts| && starts[j] == e;
    SpacedGap(starts, hd, i, j);
    SpacedGap(starts, hd, j, i);
  }

  /** For one set of call days: the grid falls short exactly when two anchors straddle day zero
      and no call day lies outside the anchors' buckets, and then by a single block. */
  lemma GridUndercountsExactlyWhen(starts: seq<int>, hd: int, days: set<int>)
    requires hd >= 1 && Anchoring(starts, hd, days)
    ensures GridCount(days, hd) < |starts| <==>
              && !NoStraddle(SetOf(starts), hd)
              && forall d :: d in days ==> Bucket(d, hd) in SetOf(BucketsOf(starts, hd))
    ensures |starts| <= GridCount(days, hd) + 1
  {
    var grid, anchored := set d | d in days :: Bucket(d, hd), SetOf(BucketsOf(starts, hd));
    AnchorsAreBucketed(starts, hd, days);
    SubsetSize(anchored, grid);
    if NoStraddle(SetOf(starts), hd) {
      DistinctBuckets(starts, hd);
    } else {
      var d, e :| d in SetOf(starts) && e in SetOf(starts) && Straddles(d, e, hd);
      var j := StraddlersAreNeighbours(starts, hd, d, e);
      NoStraddleWithout(starts, hd, j);
      BucketAdvances(starts[j - 1], starts[j], hd);
      SameBucketsWithout(starts, hd, j);
      DistinctBuckets(Without(starts, j), hd);
      EqualWhenSameSize(anchored, grid);
      assert (forall b :: b in grid ==> b in anchored) <==> forall d :: d in days ==> Bucket(d, hd) in anchored;
    }
  }

  lemma EqualWhenSameSize(a: set<int>, b: set<int>)
    requires a <= b
    ensures |b| <= |a| <==> forall x :: x in b ==> x in a
  {
    SubsetSize(a, b);
    assert b == a + (b - a);
    assert |b| == |a| + |b - a|;
    if |b| <= |a| {
      assert b - a == {};
    }
    if forall x :: x in b ==> x in a {
      assert a == b;
    }
  }

  function TwoBuckets(starts: seq<int>, hd: int, k: nat): set<int>
    requires hd >= 1 && k <= |starts|
  {
    if k == 0 then {}
    else TwoBuckets(starts, hd, k - 1) + {Bucket(starts[k - 1], hd), Bucket(starts[k - 1], hd) + 1}
  }

  lemma {:induction false} TwoBucketsEach(starts: seq<int>, hd: int, k: nat)
    requires hd >= 1 && k <= |starts|
    ensures |TwoBuckets(starts, hd, k)| <= 2 * k
    ensures forall j :: 0 <= j < k ==> Bucket(starts[j], hd) in TwoBuckets(starts, hd, k)
                                       && Bucket(starts[j], hd) + 1 in TwoBuckets(starts, hd, k)
    decreases k
  {
    if k > 0 {
      TwoBucketsEach(starts, hd, k - 1);
      var b, rest := Bucket(starts[k - 1], hd), TwoBuckets(starts, hd, k - 1);
      assert |rest + {b}| <= |rest| + 1;
      assert TwoBuckets(starts, hd, k) == (rest + {b}) + {b + 1};
    }
  }

  /** The grid at most doubles the greedy count, whatever the sign of the days. */
  lemma GridAtMostDoubles(starts: seq<int>, hd: int, days: set<int>)
    requires hd >= 1 && Anchoring(starts, hd, days)
    ensures GridCount(days, hd) <= 2 * |starts|
  {
    var grid := set d | d in days :: Bucket(d, hd);
    var touched := TwoBuckets(starts, hd, |starts|);
    forall b | b in grid ensures b in touched {
      var d :| d in days && Bucket(d, hd) == b;
      CoveredBucket(starts, hd, days, d);
    }
    SubsetSize(grid, touched);
    TwoBucketsEach(starts, hd, |starts|);
  }

  lemma CoveredBucket(starts: seq<int>, hd: int, days: set<int>, day: int)
    requires hd >= 1 && Covers(starts, hd, days) && day in days
    ensures Bucket(day, hd) in TwoBuckets(starts, hd, |starts|)
  {
    var j :| 0 <= j < |starts| && InWindow(starts[j], hd, day);
    BucketsPerWindow(starts[j], day, hd);
    TwoBucketsEach(starts, hd, |starts|);
  }

  /** The first day of the i-th odd block of the grid. */
  function Edge(i: nat, hd: int): int {
    if i == 0 then hd else Edge(i - 1, hd) + 2 * hd
  }

  lemma {:induction false} EdgeIsMultiple(i: nat, hd: int)
    ensures Edge(i, hd) == (2 * i + 1) * hd
    decreases i
  {
    if i > 0 {
      EdgeIsMultiple(i - 1, hd);
      assert (2 * i + 1) * hd == (2 * (i - 1) + 1) * hd + 2 * hd;
    }
  }

  /** The last day before each of the first g edges. */
  function PairStarts(g: nat, hd: int): seq<int> {
    seq(g, (i: nat) => Edge(i, hd) - 1)
  }

  /** Both days at each of the first g edges. */
  function PairDays(g: nat, hd: int): set<int> {
    (set i | 0 <= i < g :: Edge(i, hd) - 1) + set i | 0 <= i < g :: Edge(i, hd)
  }

  lemma {:induction false} EdgesAdvance(i: nat, j: nat, hd: int)
    requires hd >= 2 && i < j
    ensures Edge(i, hd) + 2 * hd <= Edge(j, hd)
    decreases j
  {
    if i < j - 1 {
      EdgesAdvance(i, j - 1, hd);
    }
  }

  lemma PairsAreSpaced(g: nat, hd: int)
    requires hd >= 2
    ensures Spaced(PairStarts(g, hd), hd)
  {
    var starts := PairStarts(g, hd);
    forall i, j | 0 <= i < j < |starts| ensures starts[i] + hd <= starts[j] {
      EdgesAdvance(i, j, hd);
    }
  }

  lemma PairsAreCovered(g: nat, hd: int)
    requires hd >= 2
    ensures Covers(PairStarts(g, hd), hd, PairDays(g, hd))
  {
    var starts := PairStarts(g, hd);
    forall d | d in PairDays(g, hd) ensures exists j :: 0 <= j < |starts| && InWindow(starts[j], hd, d) {
      var i :| 0 <= i < g && (d == Edge(i, hd) - 1 || d == Edge(i, hd));
      assert InWindow(starts[i], hd, d);
    }
  }

  lemma PairsAreAnchored(g: nat, hd: int)
    requires hd >= 2
    ensures Anchoring(PairStarts(g, hd), hd, PairDays(g, hd))
  {
    PairsAreSpaced(g, hd);
    PairsAreCovered(g, hd);
  }

  function FirstBuckets(n: nat): (r: set<int>)
    ensures |r| == n && forall b :: b in r <==> 0 <= b < n
  {
    if n == 0 then {} else FirstBuckets(n - 1) + {n - 1}
  }

  lemma PairBuckets(g: nat, hd: int)
    requires hd >= 2
    ensures (set d | d in PairDays(g, hd) :: Bucket(d, hd)) == FirstBuckets(2 * g)
  {
    var days := PairDays(g, hd);
    var grid := set d | d in days :: Bucket(d, hd);
    forall b | 0 <= b < 2 * g ensures b in grid {
      EdgeBuckets(b / 2, hd);
      var d := if b % 2 == 0 then Edge(b / 2, hd) - 1 else Edge(b / 2, hd);
      assert d in days && Bucket(d, hd) == b;
    }
    forall b | b in grid ensures 0 <= b < 2 * g {
      var d :| d in days && Bucket(d, hd) == b;
      var i :| 0 <= i < g && (d == Edge(i, hd) - 1 || d == Edge(i, hd));
      EdgeBuckets(i, hd);
    }
  }

  lemma EdgeBuckets(i: nat, hd: int)
    requires hd >= 2
    ensures Bucket(Edge(i, hd) - 1, hd) == 2 * i && Bucket(Edge(i, hd), hd) == 2 * i + 1
  {
    EdgeIsMultiple(i, hd);
    BucketBefore(hd, 2 * i + 1);
    QuotientOfMultiple(2 * i + 1, hd);
  }

  lemma QuotientOfMultiple(k: nat, hd: int)
    requires hd >= 1
    ensures k * hd >= 0 && k * hd / hd == k
  {
    QuotientAtLeast(k * hd, k, hd);
    assert (k + 1) * hd == k * hd + hd;
    QuotientBelow(k * hd, k + 1, hd);
  }

  /** Main result: the doubling is reached at every count. For every g there are call days that
      fold into g blocks and lie in 2g buckets of the grid. */
  lemma GridCanDouble(g: nat, hd: int)
    requires hd >= 2
    ensures Anchoring(PairStarts(g, hd), hd, PairDays(g, hd)) && |PairStarts(g, hd)| == g
    ensures GridCount(PairDays(g, hd), hd) == 2 * g
  {
    PairsAreAnchored(g, hd);
    PairBuckets(g, hd);
  }

  lemma BucketBefore(hd: int, k: nat)
    requires hd >= 2 && k >= 1
    ensures k * hd - 1 >= 0 && Bucket(k * hd - 1, hd) == k - 1
  {
    var x := k * hd - 1;
    assert x == (k - 1) * hd + (hd - 1);
    QuotientAtLeast(x, k - 1, hd);
    var q := x / hd;
    assert x == hd * q + x % hd;
    assert hd * (k - q) == k * hd - hd * q > 0;
  }

  /** Around day zero truncation merges two blocks, and the grid undercounts. */
  lemma GridUndercountsAroundZero()
    ensures Anchoring([-1, 1], 2, {-1, 1}) && GridCount({-1, 1}, 2) == 1
  {
    StraddlersMerge(-1, 1, 2);
  }
}
