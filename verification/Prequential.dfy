/** Grading blocks instead of days, and the walk-forward majority null that the model is
    benchmarked against (tools/accuracy_registry.py, clustered_ci_blocks, prequential_null). */
module Prequential {
  import opened Wilson
  import opened HorizonBlocks
  import opened BlockTheorems
  import opened ClusteredInterval
  import opened Admission
  import opened GradeLaws

  function ClustersOf(blocks: seq<DayRow>): seq<Cluster> {
    seq(|blocks|, i requires 0 <= i < |blocks| => Cluster(blocks[i].n as real, blocks[i].hits))
  }

  datatype BlockGrade = BlockGrade(
    graded: Graded, distinctBlocks: nat, distinctDays: nat, blockSpan: int, horizonDays: int)

  lemma {:induction false} ClusterSums(blocks: seq<DayRow>)
    ensures SumN(ClustersOf(blocks)) == Total(blocks).n as real
    ensures SumHits(ClustersOf(blocks)) == Total(blocks).hits
    decreases |blocks|
  {
    if blocks != [] {
      var k := |blocks| - 1;
      ClusterSums(blocks[..k]);
      assert ClustersOf(blocks)[..k] == ClustersOf(blocks[..k]);
    }
  }

  /** No day has more ups than observations. */
  ghost predicate Counted(days: seq<DayRow>) {
    forall d :: d in days ==> 0.0 <= d.hits <= d.n as real
  }

  lemma {:induction false} WindowCounted(rows: seq<DayRow>, lo: int, hi: int)
    requires Counted(rows)
    ensures 0.0 <= Window(rows, lo, hi).hits <= Window(rows, lo, hi).n as real
    decreases |rows|
  {
    if rows != [] {
      WindowCounted(rows[..|rows| - 1], lo, hi);
      assert rows[|rows| - 1] in rows;
    }
  }

  /** Blocks folded from such rows are such clusters. */
  lemma BlocksAreTallied(rows: seq<DayRow>, hd: int, blocks: seq<DayRow>)
    requires Counted(rows) && IsFold(rows, hd, blocks)
    ensures AllTallied(ClustersOf(blocks))
  {
    var days := ClustersOf(blocks);
    forall d | d in days ensures Tallied(d) {
      var j :| 0 <= j < |days| && days[j] == d;
      WindowCounted(rows, blocks[j].day, blocks[j].day + hd);
      assert Tally(blocks[j].n, blocks[j].hits) == Window(rows, blocks[j].day, blocks[j].day + hd);
    }
  }

  /** A published interval of such rows is the score test at the blocks' design effect. */
  lemma BlocksAreMeasured(sqrt: real -> real, z: real, rows: seq<DayRow>, hd: int, blocks: seq<DayRow>)
    requires IsSqrt(sqrt) && z >= 0.0 && Counted(rows) && IsFold(rows, hd, blocks)
    ensures var g := ClusteredCi(sqrt, z, ClustersOf(blocks), MIN_DISTINCT_BLOCKS);
            g.ci.Some? ==> Measured(g, ClustersOf(blocks), z)
  {
    BlocksAreTallied(rows, hd, blocks);
    if ClusteredCi(sqrt, z, ClustersOf(blocks), MIN_DISTINCT_BLOCKS).ci.Some? {
      PublishedIsScoreTest(sqrt, z, ClustersOf(blocks), MIN_DISTINCT_BLOCKS);
    }
  }

  /** clustered_ci with the horizon block as the cluster. The numbers published are those of
      all the rows, whatever the fold. */
  method ClusteredCiBlocks(sqrt: real -> real, z: real, rows: seq<DayRow>, horizonDays: int)
    returns (grade: BlockGrade, blocks: seq<DayRow>)
    ensures IsFold(rows, Horizon(horizonDays), blocks)
    ensures grade.graded == ClusteredCi(sqrt, z, ClustersOf(blocks), MIN_DISTINCT_BLOCKS)
    ensures grade.graded.n == Total(rows).n as real && grade.graded.hits == Total(rows).hits
    ensures grade.distinctBlocks == |blocks| && grade.distinctDays == |Days(rows)|
    ensures grade.blockSpan == BlockSpan(blocks, Horizon(horizonDays)) && grade.blockSpan >= grade.distinctBlocks
    ensures grade.horizonDays == Horizon(horizonDays)
    ensures IsSqrt(sqrt) && z >= 0.0 && Counted(rows) && grade.graded.ci.Some? ==>
              Measured(grade.graded, ClustersOf(blocks), z)
  {
    blocks := HorizonBlocks.HorizonBlocks(rows, horizonDays);
    var hd := Horizon(horizonDays);
    FoldConserves(rows, hd, blocks);
    SpanBoundsBlocks(rows, hd, blocks);
    ClusterSums(blocks);
    if IsSqrt(sqrt) && z >= 0.0 && Counted(rows) {
      BlocksAreMeasured(sqrt, z, rows, hd, blocks);
    }
    grade := BlockGrade(ClusteredCi(sqrt, z, ClustersOf(blocks), MIN_DISTINCT_BLOCKS),
                        |blocks|, |Days(rows)|, BlockSpan(blocks, hd), hd);
  }

  // ---------------------------------------------------------------------------
  // The walk-forward null
  // ---------------------------------------------------------------------------

  datatype Guess = CoinFlip | Up | Down

  /** The majority class of everything seen before, whose hits count the ups. */
  function GuessAfter(prior: Tally): Guess {
    if prior.n == 0 || prior.hits * 2.0 == prior.n as real then CoinFlip
    else if prior.hits * 2.0 > prior.n as real then Up
    else Down
  }

  function HitsOf(guess: Guess, day: DayRow): real {
    match guess
    case CoinFlip => day.n as real / 2.0
    case Up => day.hits
    case Down => day.n as real - day.hits
  }

  /** Each day graded by the guess made before it. */
  function NullDays(days: seq<DayRow>): seq<DayRow> {
    if days == [] then []
    else
      var before, day := days[..|days| - 1], days[|days| - 1];
      NullDays(before) + [DayRow(day.day, day.n, HitsOf(GuessAfter(Total(before)), day))]
  }

  lemma {:induction false} NullCounted(days: seq<DayRow>)
    requires Counted(days)
    ensures Counted(NullDays(days))
    decreases |days|
  {
    if days != [] {
      NullCounted(days[..|days| - 1]);
      assert days[|days| - 1] in days;
    }
  }

  method PrequentialNull(sqrt: real -> real, z: real, days: seq<DayRow>, horizonDays: int)
    returns (grade: BlockGrade, blocks: seq<DayRow>)
    ensures IsFold(NullDays(days), Horizon(horizonDays), blocks)
    ensures grade.graded == ClusteredCi(sqrt, z, ClustersOf(blocks), MIN_DISTINCT_BLOCKS)
    ensures grade.graded.n == Total(NullDays(days)).n as real && grade.graded.hits == Total(NullDays(days)).hits
    ensures IsSqrt(sqrt) && z >= 0.0 && Counted(days) && grade.graded.ci.Some? ==>
              Measured(grade.graded, ClustersOf(blocks), z)
  {
    var nullDays := [];
    var priorN, priorUps := 0, 0.0;
    for i := 0 to |days|
      invariant nullDays == NullDays(days[..i])
      invariant Tally(priorN, priorUps) == Total(days[..i])
    {
      var day := days[i];
      var hits;
      if priorN == 0 || priorUps * 2.0 == priorN as real {
        hits := day.n as real / 2.0;
      } else if priorUps * 2.0 > priorN as real {
        hits := day.hits;
      } else {
        hits := day.n as real - day.hits;
      }
      assert days[..i + 1][..i] == days[..i];
      nullDays := nullDays + [DayRow(day.day, day.n, hits)];
      priorN, priorUps := priorN + day.n, priorUps + day.hits;
    }
    assert days[..|days|] == days;
    if Counted(days) {
      NullCounted(days);
    }
    grade, blocks := ClusteredCiBlocks(sqrt, z, nullDays, horizonDays);
  }

  lemma {:induction false} TotalsCounted(days: seq<DayRow>)
    requires Counted(days)
    ensures 0.0 <= Total(days).hits <= Total(days).n as real
    decreases |days|
  {
    if days != [] {
      TotalsCounted(days[..|days| - 1]);
      assert days[|days| - 1] in days;
    }
  }

  /** One more day moves the better constant guess by at least as much as any guess for it. */
  lemma HindsightKeepsUp(prior: Tally, day: DayRow, nullHits: real)
    requires 0.0 <= prior.hits <= prior.n as real && 0.0 <= day.hits <= day.n as real
    requires nullHits <= Max(prior.hits, prior.n as real - prior.hits)
    ensures var t := prior.Add(Tally(day.n, day.hits));
            nullHits + HitsOf(GuessAfter(prior), day) <= Max(t.hits, t.n as real - t.hits)
  {
  }

  lemma NullTotalStep(days: seq<DayRow>)
    requires days != []
    ensures var before, day := days[..|days| - 1], days[|days| - 1];
            && Total(days) == Total(before).Add(Tally(day.n, day.hits))
            && Total(NullDays(days))
               == Total(NullDays(before)).Add(Tally(day.n, HitsOf(GuessAfter(Total(before)), day)))
  {
    var before := days[..|days| - 1];
    assert NullDays(days)[..|NullDays(before)|] == NullDays(before);
  }

  /** The walk-forward null never beats the constant guess chosen in hindsight, and it grades
      exactly the observations it was handed. */
  lemma {:induction false} NullNeverBeatsHindsight(days: seq<DayRow>)
    requires Counted(days)
    ensures Total(NullDays(days)).n == Total(days).n
    ensures var t := Total(days); Total(NullDays(days)).hits <= Max(t.hits, t.n as real - t.hits)
    decreases |days|
  {
    if days != [] {
      var before, day := days[..|days| - 1], days[|days| - 1];
      NullNeverBeatsHindsight(before);
      TotalsCounted(before);
      NullTotalStep(days);
      assert day in days;
      HindsightKeepsUp(Total(before), day, Total(NullDays(before)).hits);
    }
  }

  /** Out of sample: what the null scores on the first k days, and the guess it makes for the
      next one, are the same for any two histories that agree on those k days. */
  lemma {:induction false} NullIsCausal(days: seq<DayRow>, k: nat)
    requires k <= |days|
    ensures |NullDays(days)| == |days| && NullDays(days)[..k] == NullDays(days[..k])
    ensures k < |days| ==> NullDays(days)[k].hits == HitsOf(GuessAfter(Total(days[..k])), days[k])
    decreases |days|
  {
    if k < |days| {
      var before := days[..|days| - 1];
      NullIsCausal(before, k);
      assert before[..k] == days[..k];
      assert |NullDays(before)| == |before| by {
        NullIsCausal(before, |before|);
      }
      if k == |before| {
        assert days[..k] == before && before[..k] == before;
      }
    } else {
      assert days[..k] == days;
      if days != [] {
        NullIsCausal(days[..|days| - 1], |days| - 1);
      }
    }
  }

  // ---------------------------------------------------------------------------
  // The null favours neither side
  // ---------------------------------------------------------------------------

  /** The same days with ups and downs exchanged. */
  function Flipped(days: seq<DayRow>): seq<DayRow> {
    seq(|days|, i requires 0 <= i < |days| => DayRow(days[i].day, days[i].n, days[i].n as real - days[i].hits))
  }

  lemma {:induction false} FlippedTotal(days: seq<DayRow>)
    ensures Total(Flipped(days)) == Tally(Total(days).n, Total(days).n as real - Total(days).hits)
    decreases |days|
  {
    if days != [] {
      FlippedTotal(days[..|days| - 1]);
      assert Flipped(days)[..|days| - 1] == Flipped(days[..|days| - 1]);
    }
  }

  /** Main result: exchanging ups and downs exchanges the guesses, so the null scores the same. */
  lemma {:induction false} NullIsSymmetric(days: seq<DayRow>)
    ensures NullDays(Flipped(days)) == NullDays(days)
    decreases |days|
  {
    if days != [] {
      var before, day := days[..|days| - 1], days[|days| - 1];
      NullIsSymmetric(before);
      FlippedTotal(before);
      assert Flipped(days)[..|days| - 1] == Flipped(before);
    }
  }

  /** With nothing seen, or as many ups as downs, it scores exactly half; after more ups than
      downs it scores the ups. */
  lemma NullScores(days: seq<DayRow>, k: nat)
    requires k < |days|
    ensures |NullDays(days)| == |days| && NullDays(days)[k].n == days[k].n && NullDays(days)[k].day == days[k].day
    ensures 2.0 * Total(days[..k]).hits == Total(days[..k]).n as real ==>
              NullDays(days)[k].hits == days[k].n as real / 2.0
    ensures 2.0 * Total(days[..k]).hits > Total(days[..k]).n as real > 0.0 ==> NullDays(days)[k].hits == days[k].hits
  {
    NullIsCausal(days, k);
    NullIsCausal(days, k + 1);
    var upTo := days[..k + 1];
    assert NullDays(days)[..k + 1][k] == NullDays(upTo)[k];
    assert upTo[..k] == days[..k] && |NullDays(days[..k])| == k by {
      NullIsCausal(days[..k], k);
    }
  }
}
