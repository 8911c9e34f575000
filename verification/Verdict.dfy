/** Reading a verdict off an interval (tools/accuracy_registry.py, verdict_for). */
module Verdict {
  import opened Options
  import opened Wilson

  const MIN_INDEPENDENT_N: int := 30
  const MIN_DISTINCT_DAYS: int := 10
  const VERDICT_EPS: real := 0.000000000001

  datatype Verdict =
    | Insufficient(n: int)
    | InsufficientBlocks(distinct: int)
    | InsufficientCredibleDays(credible: int, distinct: int)
    | InsufficientDays(distinct: int)
    | NoInterval
    | PartialBaseline(coverage: real)
    | Failed
    | Validated
    | NoSkill
    | Decayed(claim: real)
    | Holding(claim: real)
    | Wide(claim: real)
    | Ungraded

  /** Everything verdict_for is handed beside the interval. */
  datatype Evidence = Evidence(
    n: int,
    nullAcc: Option<real>,
    claimed: Option<real>,
    distinctDays: Option<int>,
    nullCoverage: Option<real>,
    distinctBlocks: Option<int>,
    credibleBlocks: Option<int>)

  function VerdictFor(e: Evidence, ci: Option<Interval>): Verdict {
    if e.n < MIN_INDEPENDENT_N then Insufficient(e.n)
    else if ci.None? then Withheld(e)
    else if e.nullCoverage.Some? && e.nullCoverage.value < 1.0 then PartialBaseline(e.nullCoverage.value)
    else if e.nullAcc.Some? then
      if ci.value.hi < e.nullAcc.value - VERDICT_EPS then Failed
      else if ci.value.lo > e.nullAcc.value + VERDICT_EPS then Validated
      else NoSkill
    else if e.claimed.Some? then
      if ci.value.hi < e.claimed.value - 0.05 then Decayed(e.claimed.value)
      else if ci.value.lo >= e.claimed.value - 0.05 then Holding(e.claimed.value)
      else Wide(e.claimed.value)
    else Ungraded
  }

  function Withheld(e: Evidence): Verdict {
    if e.distinctBlocks.Some? then InsufficientBlocks(e.distinctBlocks.value)
    else if e.distinctDays.Some? then
      if e.credibleBlocks.Some? && e.credibleBlocks.value < MIN_DISTINCT_DAYS
      then InsufficientCredibleDays(e.credibleBlocks.value, e.distinctDays.value)
      else InsufficientDays(e.distinctDays.value)
    else NoInterval
  }

  /** The only moves a wider interval may cause: keep the verdict, or lose it. */
  predicate FallsTo(before: Verdict, after: Verdict) {
    || after == before
    || (before in {Failed, Validated} && after == NoSkill)
    || (before.Decayed? && after == Wide(before.claim))
    || (before.Holding? && after == Wide(before.claim))
  }

  lemma FallsToIsTransitive(a: Verdict, b: Verdict, c: Verdict)
    requires FallsTo(a, b) && FallsTo(b, c)
    ensures FallsTo(a, c)
  {
  }

  /** A wider interval never gains a verdict and never crosses from one to its opposite. */
  lemma WideningOnlyLoses(e: Evidence, narrow: Interval, wide: Interval)
    requires narrow.lo <= narrow.hi && wide.Encloses(narrow)
    ensures var before, after := VerdictFor(e, Some(narrow)), VerdictFor(e, Some(wide));
            && FallsTo(before, after)
            && (after.Failed? || after.Validated? || after.Decayed? || after.Holding? ==> before == after)
  {
  }

  /** Widening the interval takes the one verdict to the other. */
  ghost predicate Widens(e: Evidence, narrow: Interval, wide: Interval, before: Verdict, after: Verdict) {
    && narrow.lo <= narrow.hi && wide.Encloses(narrow)
    && VerdictFor(e, Some(narrow)) == before && VerdictFor(e, Some(wide)) == after
  }

  /** And every such loss does happen: these are all the moves there are. */
  lemma FallsExactlyWhenWidened(before: Verdict, after: Verdict)
    ensures before != after ==>
              (FallsTo(before, after) <==> exists e, narrow, wide :: Widens(e, narrow, wide, before, after))
  {
    forall e, narrow, wide | Widens(e, narrow, wide, before, after) ensures FallsTo(before, after) {
      WideningOnlyLoses(e, narrow, wide);
    }
    if before != after && FallsTo(before, after) {
      var e := Evidence(MIN_INDEPENDENT_N, None, None, None, None, None, None);
      match before {
        case Failed =>
          assert Widens(e.(nullAcc := Some(0.5)), Interval(0.0, 0.0), Interval(0.0, 1.0), before, after);
        case Validated =>
          assert Widens(e.(nullAcc := Some(0.5)), Interval(1.0, 1.0), Interval(0.0, 1.0), before, after);
        case Decayed(c) =>
          assert Widens(e.(claimed := Some(c)), Interval(c - 1.0, c - 1.0), Interval(c - 1.0, c), before, after);
        case Holding(c) =>
          assert Widens(e.(claimed := Some(c)), Interval(c, c), Interval(c - 1.0, c), before, after);
        case _ =>
      }
    }
  }

  /** Against a null, the verdict is the score test at the null moved by the rounding guard:
      no verdict unless the estimate is on that side and the test rejects there. */
  lemma NullVerdictIsScoreTest(sqrt: real -> real, e: Evidence, p: real, effN: real, z: real)
    requires IsSqrt(sqrt) && effN > 0.0 && z >= 0.0 && 0.0 <= p <= 1.0
    requires e.n >= MIN_INDEPENDENT_N && e.nullAcc.Some?
    requires e.nullCoverage.Some? ==> e.nullCoverage.value >= 1.0
    ensures var v := VerdictFor(e, Some(WilsonEff(sqrt, p, effN, z)));
            var above, below := e.nullAcc.value + VERDICT_EPS, e.nullAcc.value - VERDICT_EPS;
            && (v == Validated <==> p > above && !ScoreAccepts(p, effN, z, above))
            && (v == Failed <==> p < below && !ScoreAccepts(p, effN, z, below))
            && (v == NoSkill <==> v != Validated && v != Failed)
  {
    SideOfThreshold(sqrt, p, effN, z, e.nullAcc.value + VERDICT_EPS);
    SideOfThreshold(sqrt, p, effN, z, e.nullAcc.value - VERDICT_EPS);
    IntervalContainsEstimate(sqrt, p, effN, z);
  }

  /** Against a frozen claim, the verdict is the score test on both sides of the claim less five
      points: DECAYED when no rate at or above that line is compatible with the record, HOLDING
      when no rate below it is, WIDE otherwise. */
  lemma ClaimVerdictIsScoreTest(sqrt: real -> real, e: Evidence, p: real, effN: real, z: real)
    requires IsSqrt(sqrt) && effN > 0.0 && z >= 0.0 && 0.0 <= p <= 1.0
    requires e.n >= MIN_INDEPENDENT_N && e.nullAcc.None? && e.claimed.Some?
    requires e.nullCoverage.Some? ==> e.nullCoverage.value >= 1.0
    ensures var v := VerdictFor(e, Some(WilsonEff(sqrt, p, effN, z)));
            var line := e.claimed.value - 0.05;
            && (v.Decayed? <==> forall q :: line <= q && 0.0 <= q <= 1.0 ==> !ScoreAccepts(p, effN, z, q))
            && (v.Holding? <==> forall q :: q < line && 0.0 <= q <= 1.0 ==> !ScoreAccepts(p, effN, z, q))
            && (v.Wide? <==> !v.Decayed? && !v.Holding?)
  {
    var ci, line := WilsonEff(sqrt, p, effN, z), e.claimed.value - 0.05;
    IntervalContainsEstimate(sqrt, p, effN, z);
    IntervalIsScoreTest(sqrt, p, effN, z, ci.lo);
    IntervalIsScoreTest(sqrt, p, effN, z, ci.hi);
    forall q | 0.0 <= q <= 1.0 ensures ci.Contains(q) <==> ScoreAccepts(p, effN, z, q) {
      IntervalIsScoreTest(sqrt, p, effN, z, q);
    }
  }

  /** A judgement is passed exactly on enough rows, a measured interval, a fully covered
      baseline, and something to compare with. Everything else withholds it. */
  lemma JudgedExactlyWhen(e: Evidence, ci: Option<Interval>)
    ensures var v := VerdictFor(e, ci);
            (v in {Failed, Validated, NoSkill} || v.Decayed? || v.Holding? || v.Wide?)
            <==> && e.n >= MIN_INDEPENDENT_N && ci.Some?
                 && (e.nullCoverage.Some? ==> e.nullCoverage.value >= 1.0)
                 && (e.nullAcc.Some? || e.claimed.Some?)
  {
  }

  /** A perfect record is never FAILED, and a record with no hits is never VALIDATED, against
      any null in [0, 1]. */
  lemma ExtremesAreNotInverted(sqrt: real -> real, e: Evidence, effN: real, z: real)
    requires IsSqrt(sqrt) && z >= 0.0
    requires e.nullAcc.Some? && 0.0 <= e.nullAcc.value <= 1.0
    ensures VerdictFor(e, Some(WilsonEff(sqrt, 1.0, effN, z))) != Failed
    ensures VerdictFor(e, Some(WilsonEff(sqrt, 0.0, effN, z))) != Validated
  {
    IntervalContainsEstimate(sqrt, 1.0, effN, z);
    IntervalContainsEstimate(sqrt, 0.0, effN, z);
  }

  /** Without an interval, a refusal quotes the count that the row is gated on: blocks if the row
      carries them, otherwise the credible days if those fall short, otherwise the days. */
  lemma RefusalNamesItsCount(e: Evidence)
    requires e.n >= MIN_INDEPENDENT_N
    ensures forall b :: VerdictFor(e, None) == InsufficientBlocks(b) <==> e.distinctBlocks == Some(b)
    ensures forall c, d :: VerdictFor(e, None) == InsufficientCredibleDays(c, d) <==>
              && e.distinctBlocks.None? && e.distinctDays == Some(d)
              && e.credibleBlocks == Some(c) && c < MIN_DISTINCT_DAYS
    ensures forall d :: VerdictFor(e, None) == InsufficientDays(d) <==>
              e.distinctBlocks.None? && e.distinctDays == Some(d)
              && (e.credibleBlocks.None? || e.credibleBlocks.value >= MIN_DISTINCT_DAYS)
    ensures VerdictFor(e, None) == NoInterval <==> e.distinctBlocks.None? && e.distinctDays.None?
  {
  }
}
