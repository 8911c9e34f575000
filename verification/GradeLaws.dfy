/** What a published grade says: its interval is the score test at the measured effective sample,
    and so is the verdict read off it (tools/accuracy_registry.py, clustered_ci, verdict_for). */
module GradeLaws {
  import opened Options
  import opened RealAlgebra
  import opened Counting
  import opened Wilson
  import opened Verdict
  import opened ClusteredInterval
  import opened DesignEffectLaws
  import opened Admission

  /** q is compatible with the proportion p of n effective rows: n (q - p)^2 <= z^2 q (1 - q). */
  ghost predicate Compatible(n: real, p: real, z: real, q: real) {
    n * ((q - p) * (q - p)) <= z * z * (q * (1.0 - q))
  }

  /** The interval holds exactly the proportions in [0, 1] that are compatible. */
  ghost predicate HoldsExactly(ci: Interval, n: real, p: real, z: real) {
    forall q :: ci.Contains(q) <==> 0.0 <= q <= 1.0 && Compatible(n, p, z, q)
  }

  /** The published numbers belong together: the accuracy is hits over rows, the effective sample
      is the rows over the design effect, which is that of the clusters, and the interval holds
      exactly the proportions in [0, 1] compatible with them. */
  ghost predicate Measured(g: Graded, days: seq<Cluster>, z: real) {
    && g.n == SumN(days) > 0.0 && g.hits == SumHits(days) && g.distinctClusters == |days|
    && g.acc.Some? && g.designEffect.Some? && g.effectiveN.Some? && g.ci.Some?
    && g.acc.value * g.n == g.hits
    && InCounts(g.designEffect.value, |days| as real, g.n, g.hits, Gaps(days, g.n, g.hits))
    && g.effectiveN.value * g.designEffect.value == g.n
    && HoldsExactly(g.ci.value, g.effectiveN.value, g.acc.value, z)
  }

  /** Main result: every published grade is so measured. */
  lemma PublishedIsScoreTest(sqrt: real -> real, z: real, days: seq<Cluster>, minClusters: int)
    requires IsSqrt(sqrt) && z >= 0.0 && AllTallied(days)
    requires ClusteredCi(sqrt, z, days, minClusters).ci.Some?
    ensures Measured(ClusteredCi(sqrt, z, days, minClusters), days, z)
  {
    PublishedExactlyWhen(sqrt, z, days, minClusters);
    var n, hits, deff := SumN(days), SumHits(days), DesignEffect(days).value;
    var p, eff := hits / n, Quotient(n, deff);
    DesignEffectInCounts(days);
    DesignEffectPositive(days);
    GradeParts(sqrt, z, days, minClusters, p, eff);
    EstimateInside(days, p);
    MeasuredParts(ClusteredCi(sqrt, z, days, minClusters), sqrt, days, z, n, hits, deff, p, eff);
  }

  lemma MeasuredParts(g: Graded, sqrt: real -> real, days: seq<Cluster>, z: real, n: real, hits: real, deff: real,
          p: real, eff: real)
    requires IsSqrt(sqrt) && z >= 0.0 && n == SumN(days) > 0.0 && hits == SumHits(days) && deff > 0.0
    requires p == hits / n && eff == Quotient(n, deff) && 0.0 <= p <= 1.0
    requires InCounts(deff, |days| as real, n, hits, Gaps(days, n, hits))
    requires g.n == n && g.hits == hits && g.distinctClusters == |days| && g.acc == Some(p)
    requires g.designEffect == Some(deff) && g.effectiveN == Some(eff) && g.ci == Some(WilsonEff(sqrt, p, eff, z))
    ensures Measured(g, days, z)
  {
    DivMul(hits, n, p);
    DivMul(n, deff, eff);
    DivPos(n, deff, eff);
    IntervalHolds(sqrt, p, eff, z);
  }

  lemma IntervalHolds(sqrt: real -> real, p: real, eff: real, z: real)
    requires IsSqrt(sqrt) && eff > 0.0 && z >= 0.0 && 0.0 <= p <= 1.0
    ensures HoldsExactly(WilsonEff(sqrt, p, eff, z), eff, p, z)
  {
    forall q ensures WilsonEff(sqrt, p, eff, z).Contains(q) <==> 0.0 <= q <= 1.0 && Compatible(eff, p, z, q) {
      IntervalPoint(sqrt, p, eff, z, q);
    }
  }

  lemma GradeParts(sqrt: real -> real, z: real, days: seq<Cluster>, minClusters: int, p: real, eff: real)
    requires ClusteredCi(sqrt, z, days, minClusters).ci.Some? && SumN(days) > 0.0
    requires DesignEffect(days).Some? && DesignEffect(days).value > 0.0
    requires p == SumHits(days) / SumN(days) && eff == Quotient(SumN(days), DesignEffect(days).value)
    ensures var g := ClusteredCi(sqrt, z, days, minClusters);
            && g.n == SumN(days) && g.hits == SumHits(days) && g.distinctClusters == |days|
            && g.acc == Some(p) && g.designEffect == DesignEffect(days) && g.effectiveN == Some(eff)
            && g.ci == Some(WilsonEff(sqrt, p, eff, z))
  {
  }

  lemma EstimateInside(days: seq<Cluster>, p: real)
    requires AllTallied(days) && SumN(days) > 0.0 && p == SumHits(days) / SumN(days)
    ensures 0.0 <= p <= 1.0
  {
    HitsWithinRows(days);
    DivOrder(SumHits(days), SumN(days), p, 0.0, 0.0);
    DivOrder(SumHits(days), SumN(days), p, 1.0, SumN(days));
  }

  lemma IntervalPoint(sqrt: real -> real, p: real, eff: real, z: real, q: real)
    requires IsSqrt(sqrt) && eff > 0.0 && z >= 0.0 && 0.0 <= p <= 1.0
    ensures WilsonEff(sqrt, p, eff, z).Contains(q) <==> 0.0 <= q <= 1.0 && Compatible(eff, p, z, q)
  {
    IntervalIsScoreTest(sqrt, p, eff, z, q);
    IntervalContainsEstimate(sqrt, p, eff, z);
  }

  /** Main result: against a null, a published grade is VALIDATED exactly when its accuracy lies
      above the guarded null and that null is not compatible with it, FAILED exactly when the
      same holds below, and otherwise NO SKILL. */
  lemma GradeVerdictIsScoreTest(sqrt: real -> real, z: real, days: seq<Cluster>, minClusters: int, e: Evidence)
    requires IsSqrt(sqrt) && z >= 0.0 && AllTallied(days)
    requires ClusteredCi(sqrt, z, days, minClusters).ci.Some?
    requires e.n >= MIN_INDEPENDENT_N && e.nullAcc.Some?
    requires e.nullCoverage.Some? ==> e.nullCoverage.value >= 1.0
    ensures var g := ClusteredCi(sqrt, z, days, minClusters);
            var v := VerdictFor(e, g.ci);
            var above, below := e.nullAcc.value + VERDICT_EPS, e.nullAcc.value - VERDICT_EPS;
            && Measured(g, days, z)
            && (v == Validated <==> g.acc.value > above && !Compatible(g.effectiveN.value, g.acc.value, z, above))
            && (v == Failed <==> g.acc.value < below && !Compatible(g.effectiveN.value, g.acc.value, z, below))
            && (v == NoSkill <==> v != Validated && v != Failed)
  {
    PublishedIsScoreTest(sqrt, z, days, minClusters);
    PublishedExactlyWhen(sqrt, z, days, minClusters);
    var n, deff := SumN(days), DesignEffect(days).value;
    var p, eff := SumHits(days) / n, Quotient(n, deff);
    DesignEffectPositive(days);
    GradeParts(sqrt, z, days, minClusters, p, eff);
    EstimateInside(days, p);
    DivPos(n, deff, eff);
    NullVerdictIsScoreTest(sqrt, e, p, eff, z);
  }

  /** A larger z only keeps or loses the verdict on the same clusters. */
  lemma LargerZOnlyLoses(sqrt: real -> real, z: real, z': real, days: seq<Cluster>, minClusters: int, e: Evidence)
    requires IsSqrt(sqrt) && 0.0 <= z <= z' && AllTallied(days)
    ensures FallsTo(VerdictFor(e, ClusteredCi(sqrt, z, days, minClusters).ci),
                    VerdictFor(e, ClusteredCi(sqrt, z', days, minClusters).ci))
  {
    PublishedExactlyWhen(sqrt, z, days, minClusters);
    PublishedExactlyWhen(sqrt, z', days, minClusters);
    if ClusteredCi(sqrt, z, days, minClusters).ci.Some? {
      var p, eff := SumHits(days) / SumN(days), Quotient(SumN(days), DesignEffect(days).value);
      DesignEffectPositive(days);
      GradeParts(sqrt, z, days, minClusters, p, eff);
      GradeParts(sqrt, z', days, minClusters, p, eff);
      EstimateInside(days, p);
      WidenedVerdict(sqrt, z, z', p, eff, e);
    }
  }

  lemma WidenedVerdict(sqrt: real -> real, z: real, z': real, p: real, eff: real, e: Evidence)
    requires IsSqrt(sqrt) && 0.0 <= z <= z' && 0.0 <= p <= 1.0
    ensures FallsTo(VerdictFor(e, Some(WilsonEff(sqrt, p, eff, z))), VerdictFor(e, Some(WilsonEff(sqrt, p, eff, z'))))
  {
    WideningIsMonotone(sqrt, p, eff, z, eff, z');
    IntervalContainsEstimate(sqrt, p, eff, z);
    WideningOnlyLoses(e, WilsonEff(sqrt, p, eff, z), WilsonEff(sqrt, p, eff, z'));
  }

  // ---------------------------------------------------------------------------
  // Credible clusters
  // ---------------------------------------------------------------------------

  function HoldsTenth(median: real): Cluster -> bool {
    (d: Cluster) => 10.0 * d.n >= median
  }

  lemma {:induction false} SameCount(days: seq<Cluster>, median: real, floor: real)
    requires floor == median * DEGENERATE_BLOCK_FRACTION
    ensures Count(Sizes(days), AtLeast(floor)) == Count(days, HoldsTenth(median))
    decreases |days|
  {
    if days != [] {
      SameCount(days[..|days| - 1], median, floor);
      assert Sizes(days)[..|days| - 1] == Sizes(days[..|days| - 1]);
    }
  }

  /** The credible clusters are exactly those that hold at least a tenth of the median cluster's
      rows. */
  lemma CredibleExactlyWhen(days: seq<Cluster>)
    requires days != []
    ensures Credible(days) == Count(days, HoldsTenth(Median(Sizes(days))))
  {
    SameCount(days, Median(Sizes(days)), CredibleFloor(days));
  }

  /** Rows, hits and clusters are always told, and so is what came of the interval: whether there
      were rows, and otherwise how many credible clusters there were and what they were too few
      for. */
  lemma OutcomeSaysWhy(sqrt: real -> real, z: real, days: seq<Cluster>, minClusters: int)
    ensures var g := ClusteredCi(sqrt, z, days, minClusters);
            && g.n == SumN(days) && g.hits == SumHits(days) && g.distinctClusters == |days|
            && (SumN(days) <= 0.0 ==> g.outcome == NoRows)
            && (SumN(days) > 0.0 ==>
                  && |days| > 0
                  && var credible := Count(days, HoldsTenth(Median(Sizes(days))));
                     && (credible < minClusters ==> g.outcome == TooFewCredible(credible))
                     && (credible >= minClusters && |days| < 2 ==> g.outcome == NotMeasurable(credible))
                     && (credible >= minClusters && |days| >= 2 ==> g.outcome == Published(credible)))
  {
    if SumN(days) > 0.0 {
      CredibleExactlyWhen(days);
    }
  }

  /** A day-clustered row with rows but no interval is refused for its credible days, and the count
      it quotes does fall short. */
  lemma DayRefusalIsHonest(sqrt: real -> real, z: real, days: seq<Cluster>, e: Evidence)
    requires SumN(days) > 0.0 && ClusteredCi(sqrt, z, days, MIN_DISTINCT_DAYS).ci.None?
    requires e.n >= MIN_INDEPENDENT_N && e.distinctBlocks.None?
    requires e.distinctDays == Some(|days|) && e.credibleBlocks == Some(Credible(days))
    ensures VerdictFor(e, None) == InsufficientCredibleDays(Credible(days), |days|)
    ensures Credible(days) < MIN_DISTINCT_DAYS
    ensures ClusteredCi(sqrt, z, days, MIN_DISTINCT_DAYS).outcome == TooFewCredible(Credible(days))
  {
    PublishedExactlyWhen(sqrt, z, days, MIN_DISTINCT_DAYS);
    RefusalNamesItsCount(e);
  }
}
