/** Which samples earn a published interval (tools/accuracy_registry.py, clustered_ci and
    clustered_ci_blocks), and the walk-forward null graded the same way (prequential_null). */
module Admission {
  import opened Options
  import opened RealAlgebra
  import opened Counting
  import opened Wilson
  import opened ClusteredInterval

  // ---------------------------------------------------------------------------
  // The median
  // ---------------------------------------------------------------------------

  ghost predicate Ascending(s: seq<real>) {
    forall i, j :: 0 <= i <= j < |s| ==> s[i] <= s[j]
  }

  function Insert(x: real, s: seq<real>): seq<real> {
    if s == [] || x <= s[0] then [x] + s else [s[0]] + Insert(x, s[1..])
  }

  function Sorted(s: seq<real>): seq<real> {
    if s == [] then [] else Insert(s[0], Sorted(s[1..]))
  }

  lemma {:induction false} InsertAtLeast(x: real, s: seq<real>, lo: real)
    requires x >= lo && forall i :: 0 <= i < |s| ==> s[i] >= lo
    ensures |Insert(x, s)| == |s| + 1
    ensures forall i :: 0 <= i < |Insert(x, s)| ==> Insert(x, s)[i] >= lo
    decreases |s|
  {
    if s != [] && x > s[0] {
      InsertAtLeast(x, s[1..], lo);
    }
  }

  lemma {:induction false} InsertKeepsOrder(x: real, s: seq<real>)
    requires Ascending(s)
    ensures Ascending(Insert(x, s))
    decreases |s|
  {
    if s != [] && x > s[0] {
      InsertKeepsOrder(x, s[1..]);
      InsertAtLeast(x, s[1..], s[0]);
    }
  }

  lemma {:induction false} InsertPermutes(x: real, s: seq<real>)
    ensures multiset(Insert(x, s)) == multiset(s) + multiset{x}
    decreases |s|
  {
    if s != [] && x > s[0] {
      InsertPermutes(x, s[1..]);
      assert s == [s[0]] + s[1..];
    }
  }

  lemma {:induction false} SortedSorts(s: seq<real>)
    ensures Ascending(Sorted(s)) && multiset(Sorted(s)) == multiset(s) && |Sorted(s)| == |s|
    decreases |s|
  {
    if s != [] {
      var rest := Sorted(s[1..]);
      SortedSorts(s[1..]);
      InsertKeepsOrder(s[0], rest);
      InsertPermutes(s[0], rest);
      assert s == [s[0]] + s[1..];
      assert |Sorted(s)| == |multiset(Sorted(s))| == |multiset(s)|;
    }
  }

  /** statistics.median: the middle value, or the mean of the two middle ones. */
  function Median(s: seq<real>): real
    requires s != []
  {
    SortedSorts(s);
    var t, h := Sorted(s), |s| / 2;
    if |s| % 2 == 1 then t[h] else (t[h - 1] + t[h]) / 2.0
  }

  function AtLeast(floor: real): real -> bool { (x: real) => x >= floor }

  /** At least half of any sample, rounded up, reaches a floor no higher than its median. */
  lemma HalfReachTheMedian(s: seq<real>, floor: real)
    requires s != [] && floor <= Median(s)
    ensures 2 * Count(s, AtLeast(floor)) >= |s|
  {
    SortedSorts(s);
    CountPermutes(Sorted(s), s, AtLeast(floor));
    var t, h := Sorted(s), |s| / 2;
    assert |s| % 2 == 0 ==> t[h - 1] <= t[h];
    UpperHalfReaches(t, h, floor);
  }

  lemma UpperHalfReaches(t: seq<real>, h: nat, floor: real)
    requires Ascending(t) && h < |t| && floor <= t[h]
    ensures Count(t, AtLeast(floor)) >= |t| - h
  {
    assert t == t[..h] + t[h..];
    CountConcat(t[..h], t[h..], AtLeast(floor));
    CountAll(t[h..], AtLeast(floor));
  }

  // ---------------------------------------------------------------------------
  // clustered_ci
  // ---------------------------------------------------------------------------

  datatype Outcome = NoRows | TooFewCredible(credible: nat) | NotMeasurable(credible: nat) | Published(credible: nat)

  datatype Graded = Graded(
    n: real,
    hits: real,
    distinctClusters: nat,
    acc: Option<real>,
    ci: Option<Interval>,
    designEffect: Option<real>,
    effectiveN: Option<real>,
    outcome: Outcome)

  function Sizes(days: seq<Cluster>): seq<real> {
    seq(|days|, i requires 0 <= i < |days| => days[i].n)
  }

  /** A tenth of the median cluster, or 0 without clusters. */
  function CredibleFloor(days: seq<Cluster>): real {
    if days == [] then 0.0 else Median(Sizes(days)) * DEGENERATE_BLOCK_FRACTION
  }

  function Credible(days: seq<Cluster>): nat {
    Count(Sizes(days), AtLeast(CredibleFloor(days)))
  }

  function ClusteredCi(sqrt: real -> real, z: real, days: seq<Cluster>, minClusters: int): Graded {
    var n, hits := SumN(days), SumHits(days);
    var acc := if n == 0.0 then None else Some(hits / n);
    var withheld := Graded(n, hits, |days|, acc, None, None, None, NoRows);
    if n <= 0.0 then withheld
    else if Credible(days) < minClusters then withheld.(outcome := TooFewCredible(Credible(days)))
    else if DesignEffect(days).None? then withheld.(outcome := NotMeasurable(Credible(days)))
    else
      var deff := DesignEffect(days).value;
      DesignEffectPositive(days);
      var eff := Quotient(n, deff);
      withheld.(ci := Some(WilsonEff(sqrt, hits / n, eff, z)), designEffect := Some(deff), effectiveN := Some(eff),
                outcome := Published(Credible(days)))
  }

  ghost predicate SizesNonNegative(days: seq<Cluster>) {
    forall d :: d in days ==> d.n >= 0.0
  }

  lemma MedianNonNegative(s: seq<real>)
    requires s != [] && forall x :: x in s ==> x >= 0.0
    ensures Median(s) >= 0.0
  {
    SortedSorts(s);
    var t, h := Sorted(s), |s| / 2;
    forall i | 0 <= i < |t| ensures t[i] >= 0.0 {
      assert t[i] in multiset(t);
      assert t[i] in multiset(s);
      assert t[i] in s;
    }
  }

  /** The admission floor is relative, so it can never call more than half the clusters
      degenerate. */
  lemma AdmissionKeepsHalf(days: seq<Cluster>)
    requires SizesNonNegative(days)
    ensures |days| <= 2 * Credible(days) && Credible(days) <= |days|
  {
    CountAtMost(Sizes(days), AtLeast(CredibleFloor(days)));
    if days != [] {
      var s := Sizes(days);
      forall x | x in s ensures x >= 0.0 {
        var i :| 0 <= i < |s| && s[i] == x;
        assert days[i] in days;
      }
      MedianNonNegative(s);
      HalfReachTheMedian(s, CredibleFloor(days));
    }
  }

  /** A non-empty sample of at least 2 min_clusters - 1 clusters is always admitted. */
  lemma EnoughClustersAreAdmitted(sqrt: real -> real, z: real, days: seq<Cluster>, minClusters: int)
    requires SizesNonNegative(days) && SumN(days) > 0.0
    requires |days| >= 2 * minClusters - 1
    ensures !ClusteredCi(sqrt, z, days, minClusters).outcome.TooFewCredible?
    ensures minClusters >= 2 ==> ClusteredCi(sqrt, z, days, minClusters).ci.Some?
  {
    AdmissionKeepsHalf(days);
  }

  /** Exactly when an interval is published: there are rows, enough credible clusters, and at
      least two clusters to measure variance between. */
  lemma PublishedExactlyWhen(sqrt: real -> real, z: real, days: seq<Cluster>, minClusters: int)
    ensures ClusteredCi(sqrt, z, days, minClusters).ci.Some? <==>
            SumN(days) > 0.0 && Credible(days) >= minClusters && |days| >= 2
    ensures minClusters >= 2 ==>
              (ClusteredCi(sqrt, z, days, minClusters).ci.Some? <==>
               SumN(days) > 0.0 && Credible(days) >= minClusters)
    ensures ClusteredCi(sqrt, z, days, minClusters).ci.Some? <==>
            ClusteredCi(sqrt, z, days, minClusters).outcome.Published?
  {
    CountAtMost(Sizes(days), AtLeast(CredibleFloor(days)));
  }

  lemma {:induction false} HitsWithinRows(days: seq<Cluster>)
    requires AllTallied(days)
    ensures 0.0 <= SumHits(days) <= SumN(days)
    decreases |days|
  {
    if days != [] {
      HitsWithinRows(days[..|days| - 1]);
      assert Tallied(days[|days| - 1]);
    }
  }

  /** A published interval describes the whole sample: it contains the accuracy measured over
      every cluster, and it is at least as wide as treating the rows as independent, unless
      empty clusters have thinned the sample. */
  lemma PublishedIntervalIsHonest(sqrt: real -> real, z: real, days: seq<Cluster>, minClusters: int)
    requires IsSqrt(sqrt) && z >= 0.0 && AllTallied(days)
    requires ClusteredCi(sqrt, z, days, minClusters).ci.Some?
    ensures var g := ClusteredCi(sqrt, z, days, minClusters);
            && g.acc.Some? && g.effectiveN.Some? && g.effectiveN.value > 0.0
            && g.ci.value.Contains(g.acc.value)
            && (g.effectiveN.value <= g.n <==> NotThinned(days))
            && (NotThinned(days) ==> g.ci.value.Encloses(WilsonEff(sqrt, g.acc.value, g.n, z)))
  {
    PublishedExactlyWhen(sqrt, z, days, minClusters);
    var n, hits, deff := SumN(days), SumHits(days), DesignEffect(days).value;
    var m := LargestCluster(days);
    EffectiveSampleBounds(days, m);
    HitsWithinRows(days);
    var p, eff := hits / n, Quotient(n, deff);
    DivOrder(hits, n, p, 0.0, 0.0);
    DivOrder(hits, n, p, 1.0, n);
    DivPos(n, deff, eff);
    IntervalContainsEstimate(sqrt, p, eff, z);
    if NotThinned(days) {
      WideningIsMonotone(sqrt, p, n, z, eff, z);
    }
  }
}
