/** What the average-tie ranks mean: they are the order of a series and nothing else
    (research/xsvalue.py and research/xsdirection.py, rank_cross_sectional;
    tools/pairs_trading.py, _rank). */
module RankLaws {
  import opened RealAlgebra
  import opened RealSeq
  import opened Counting
  import opened Ranks

  function Negated(xs: seq<real>): seq<real> {
    seq(|xs|, i requires 0 <= i < |xs| => -xs[i])
  }

  /** Two series put their entries in the same order, ties included. */
  ghost predicate SameOrder(xs: seq<real>, ys: seq<real>) {
    |xs| == |ys| && forall i, j :: 0 <= i < |xs| && 0 <= j < |xs| ==> (xs[i] < xs[j] <==> ys[i] < ys[j])
  }

  lemma SmallerStep(xs: seq<real>, x: real, v: real)
    ensures Smaller(xs + [x], v) == Smaller(xs, v) + (if x < v then 1 else 0)
    ensures Equal(xs + [x], v) == Equal(xs, v) + (if x == v then 1 else 0)
  {
    CountSnoc(xs, x, Below(v));
    CountSnoc(xs, x, Same(v));
  }

  lemma PrefixStep(xs: seq<real>, v: real, n: nat)
    requires 0 < n <= |xs|
    ensures Smaller(xs[..n], v) == Smaller(xs[..n - 1], v) + (if xs[n - 1] < v then 1 else 0)
    ensures Equal(xs[..n], v) == Equal(xs[..n - 1], v) + (if xs[n - 1] == v then 1 else 0)
  {
    assert xs[..n] == xs[..n - 1] + [xs[n - 1]];
    SmallerStep(xs[..n - 1], xs[n - 1], v);
  }

  // ---------------------------------------------------------------------------
  // Range and order
  // ---------------------------------------------------------------------------

  lemma {:induction false} SmallerAndEqual(xs: seq<real>, v: real, n: nat)
    requires n <= |xs|
    ensures Smaller(xs[..n], v) + Equal(xs[..n], v) <= n
    decreases n
  {
    if n > 0 {
      SmallerAndEqual(xs, v, n - 1);
      PrefixStep(xs, v, n);
    }
  }

  /** A rank is a position: between 0 and n - 1, scaled between -1/2 and 1/2. */
  lemma RankRange(xs: seq<real>, k: nat)
    requires k < |xs|
    ensures 0.0 <= MidRank(xs, xs[k]) <= (|xs| - 1) as real
    ensures -0.5 <= CrossRank(xs, xs[k]) <= 0.5
  {
    SmallerAndEqual(xs, xs[k], |xs|);
    assert xs[..|xs|] == xs;
    EqualSplits(xs, k);
    if |xs| > 1 {
      var n, m := (|xs| - 1) as real, MidRank(xs, xs[k]);
      DivOrder(m, n, m / n, 1.0, n);
      DivOrder(m, n, m / n, 0.0, 0.0);
    }
  }

  lemma {:induction false} SmallerGrows(xs: seq<real>, u: real, v: real, n: nat)
    requires u < v && n <= |xs|
    ensures Smaller(xs[..n], u) + Equal(xs[..n], u) <= Smaller(xs[..n], v)
    decreases n
  {
    if n > 0 {
      SmallerGrows(xs, u, v, n - 1);
      PrefixStep(xs, u, n);
      PrefixStep(xs, v, n);
    }
  }

  /** A larger value ranks at least one whole position higher. */
  lemma LargerRanksHigher(xs: seq<real>, i: nat, j: nat)
    requires i < |xs| && j < |xs| && xs[i] < xs[j]
    ensures MidRank(xs, xs[i]) + 1.0 <= MidRank(xs, xs[j])
  {
    SmallerGrows(xs, xs[i], xs[j], |xs|);
    assert xs[..|xs|] == xs;
    EqualSplits(xs, i);
    EqualSplits(xs, j);
  }

  lemma RanksOrderTheValues(xs: seq<real>)
    ensures SameOrder(xs, MidRanks(xs))
  {
    forall i, j | 0 <= i < |xs| && 0 <= j < |xs|
      ensures xs[i] < xs[j] <==> MidRanks(xs)[i] < MidRanks(xs)[j]
    {
      if xs[i] < xs[j] {
        LargerRanksHigher(xs, i, j);
      } else if xs[j] < xs[i] {
        LargerRanksHigher(xs, j, i);
      }
    }
  }

  // ---------------------------------------------------------------------------
  // Ranks see the order and nothing else
  // ---------------------------------------------------------------------------

  lemma {:induction false} SameOrderSameCounts(xs: seq<real>, ys: seq<real>, k: nat, n: nat)
    requires SameOrder(xs, ys) && k < |xs| && n <= |xs|
    ensures Smaller(xs[..n], xs[k]) == Smaller(ys[..n], ys[k])
    ensures Equal(xs[..n], xs[k]) == Equal(ys[..n], ys[k])
    decreases n
  {
    if n > 0 {
      SameOrderSameCounts(xs, ys, k, n - 1);
      PrefixStep(xs, xs[k], n);
      PrefixStep(ys, ys[k], n);
      assert xs[n - 1] < xs[k] <==> ys[n - 1] < ys[k];
      assert xs[k] < xs[n - 1] <==> ys[k] < ys[n - 1];
    }
  }

  lemma SameOrderSameRanks(xs: seq<real>, ys: seq<real>)
    requires SameOrder(xs, ys)
    ensures MidRanks(xs) == MidRanks(ys) && CrossRanks(xs) == CrossRanks(ys)
  {
    forall k | 0 <= k < |xs| ensures MidRank(xs, xs[k]) == MidRank(ys, ys[k]) {
      SameOrderSameCounts(xs, ys, k, |xs|);
      assert xs[..|xs|] == xs && ys[..|ys|] == ys;
    }
  }

  lemma SameOrderTrans(xs: seq<real>, ys: seq<real>, zs: seq<real>)
    requires SameOrder(xs, ys) && SameOrder(ys, zs)
    ensures SameOrder(xs, zs) && SameOrder(ys, xs)
  {
  }

  /** Main result: two series have the same ranks exactly when they order their entries the
      same way. */
  lemma RanksAreTheOrder(xs: seq<real>, ys: seq<real>)
    ensures MidRanks(xs) == MidRanks(ys) <==> SameOrder(xs, ys)
  {
    if SameOrder(xs, ys) {
      SameOrderSameRanks(xs, ys);
    }
    if MidRanks(xs) == MidRanks(ys) {
      assert |MidRanks(xs)| == |xs| && |MidRanks(ys)| == |ys|;
      RanksOrderTheValues(xs);
      RanksOrderTheValues(ys);
      assert SameOrder(MidRanks(ys), ys);
      SameOrderTrans(xs, MidRanks(ys), ys);
    }
  }

  /** No strictly increasing transform of a series moves its ranks. */
  lemma RanksIgnoreIncreasingMaps(xs: seq<real>, f: real -> real)
    requires forall i, j :: 0 <= i < |xs| && 0 <= j < |xs| && xs[i] < xs[j] ==> f(xs[i]) < f(xs[j])
    ensures CrossRanks(seq(|xs|, i requires 0 <= i < |xs| => f(xs[i]))) == CrossRanks(xs)
  {
    var ys := seq(|xs|, i requires 0 <= i < |xs| => f(xs[i]));
    forall i, j | 0 <= i < |xs| && 0 <= j < |xs| ensures xs[i] < xs[j] <==> ys[i] < ys[j] {
      if xs[j] < xs[i] {
        assert f(xs[j]) < f(xs[i]);
      } else if xs[i] < xs[j] {
        assert f(xs[i]) < f(xs[j]);
      } else {
        assert xs[i] == xs[j];
      }
    }
    SameOrderSameRanks(xs, ys);
  }

  /** Shuffling a series shuffles its ranks with it. */
  lemma RanksFollowPermutations(xs: seq<real>, ys: seq<real>, moved: seq<nat>)
    requires multiset(xs) == multiset(ys) && |moved| == |ys|
    requires forall i :: 0 <= i < |ys| ==> moved[i] < |xs| && ys[i] == xs[moved[i]]
    ensures |CrossRanks(ys)| == |ys| && |CrossRanks(xs)| == |xs|
    ensures forall i :: 0 <= i < |ys| ==> CrossRanks(ys)[i] == CrossRanks(xs)[moved[i]]
  {
    assert |xs| == |multiset(xs)| == |multiset(ys)| == |ys|;
    forall i | 0 <= i < |ys| ensures CrossRank(ys, ys[i]) == CrossRank(xs, ys[i]) {
      CountPermutes(xs, ys, Below(ys[i]));
      CountPermutes(xs, ys, Same(ys[i]));
    }
  }

  // ---------------------------------------------------------------------------
  // Negation
  // ---------------------------------------------------------------------------

  lemma {:induction false} NegatedCounts(xs: seq<real>, v: real, n: nat)
    requires n <= |xs|
    ensures Smaller(Negated(xs)[..n], -v) == n - Smaller(xs[..n], v) - Equal(xs[..n], v)
    ensures Equal(Negated(xs)[..n], -v) == Equal(xs[..n], v)
    decreases n
  {
    if n > 0 {
      NegatedCounts(xs, v, n - 1);
      PrefixStep(xs, v, n);
      PrefixStep(Negated(xs), -v, n);
    }
  }

  lemma NegationReflects(xs: seq<real>, v: real)
    ensures MidRank(Negated(xs), -v) == (|xs| - 1) as real - MidRank(xs, v)
  {
    NegatedCounts(xs, v, |xs|);
    assert xs[..|xs|] == xs && Negated(xs)[..|xs|] == Negated(xs);
  }

  lemma ReflectedQuotient(m: real, n: real, reflected: real)
    requires n > 0.0 && reflected == n - m
    ensures reflected / n - 0.5 == -(m / n - 0.5)
  {
    var q := m / n;
    DivMul(m, n, q);
    DivOrder(reflected, n, reflected / n, 1.0 - q, reflected);
  }

  lemma CrossRankFlips(xs: seq<real>, v: real)
    ensures CrossRank(Negated(xs), -v) == -CrossRank(xs, v)
  {
    NegationReflects(xs, v);
    if |xs| > 1 {
      ReflectedQuotient(MidRank(xs, v), (|xs| - 1) as real, MidRank(Negated(xs), -v));
    }
  }

  /** Negating a series flips the sign of every scaled rank. */
  lemma NegationFlips(xs: seq<real>)
    ensures CrossRanks(Negated(xs)) == Negated(CrossRanks(xs))
  {
    forall k | 0 <= k < |xs| ensures CrossRank(Negated(xs), -xs[k]) == -CrossRank(xs, xs[k]) {
      CrossRankFlips(xs, xs[k]);
    }
  }

  // ---------------------------------------------------------------------------
  // The sum of the ranks
  // ---------------------------------------------------------------------------

  /** The ranks of the values ys against the series xs, added up. */
  function RankSum(xs: seq<real>, ys: seq<real>): real {
    if ys == [] then 0.0 else RankSum(xs, ys[..|ys| - 1]) + MidRank(xs, ys[|ys| - 1])
  }

  lemma MidRankStep(xs: seq<real>, x: real, v: real)
    ensures MidRank(xs + [x], v) == MidRank(xs, v) + (if x < v then 1.0 else if x == v then 0.5 else 0.0)
  {
    SmallerStep(xs, x, v);
  }

  /** A further value x lifts everything above it by one and everything equal by a half. */
  lemma {:induction false} RankSumGrows(xs: seq<real>, x: real, ys: seq<real>, n: nat)
    requires n <= |ys|
    ensures RankSum(xs + [x], ys[..n])
            == RankSum(xs, ys[..n]) + n as real - Smaller(ys[..n], x) as real - Equal(ys[..n], x) as real / 2.0
    decreases n
  {
    if n > 0 {
      RankSumGrows(xs, x, ys, n - 1);
      PrefixStep(ys, x, n);
      assert ys[..n][..n - 1] == ys[..n - 1];
      MidRankStep(xs, x, ys[n - 1]);
    }
  }

  /** The sum of the first n positions, counted from zero. */
  function PositionSum(n: nat): real {
    if n == 0 then 0.0 else PositionSum(n - 1) + (n - 1) as real
  }

  lemma {:induction false} PositionSumTotal(n: nat)
    ensures PositionSum(n) == n as real * (n as real - 1.0) / 2.0
    decreases n
  {
    if n > 0 {
      PositionSumTotal(n - 1);
      Gauss((n - 1) as real);
    }
  }

  lemma Gauss(c: real)
    ensures c * (c - 1.0) / 2.0 + c == (c + 1.0) * (c + 1.0 - 1.0) / 2.0
  {
  }

  lemma {:induction false} RankSumIsPositionSum(xs: seq<real>, n: nat)
    requires n <= |xs|
    ensures RankSum(xs[..n], xs[..n]) == PositionSum(n)
    decreases n
  {
    if n > 0 {
      RankSumIsPositionSum(xs, n - 1);
      var front, x := xs[..n - 1], xs[n - 1];
      RankSumGrows(front, x, front, n - 1);
      assert front[..n - 1] == front;
      assert xs[..n] == front + [x];
      assert (front + [x])[..n - 1] == front;
      MidRankStep(front, x, x);
    }
  }

  lemma {:induction false} SumOfRanks(xs: seq<real>, n: nat)
    requires n <= |xs|
    ensures Sum(MidRanks(xs)[..n]) == RankSum(xs, xs[..n])
    decreases n
  {
    if n > 0 {
      SumOfRanks(xs, n - 1);
      assert MidRanks(xs)[..n] == MidRanks(xs)[..n - 1] + [MidRank(xs, xs[n - 1])];
      SumSnoc(MidRanks(xs)[..n - 1], MidRank(xs, xs[n - 1]));
      assert xs[..n][..n - 1] == xs[..n - 1];
    }
  }

  /** Whatever the ties, the ranks add up to those of n distinct values. */
  lemma MidRanksSum(xs: seq<real>)
    ensures Sum(MidRanks(xs)) == |xs| as real * (|xs| as real - 1.0) / 2.0
  {
    SumOfRanks(xs, |xs|);
    RankSumIsPositionSum(xs, |xs|);
    PositionSumTotal(|xs|);
    assert xs[..|xs|] == xs && MidRanks(xs)[..|xs|] == MidRanks(xs);
  }

  lemma ScaledTotal(n: real, total: real, p: real)
    requires n > 1.0 && total == n * (n - 1.0) / 2.0 && p == 1.0 / (n - 1.0)
    ensures p * total == n / 2.0
  {
    DivMul(1.0, n - 1.0, p);
    assert p * (n * (n - 1.0)) == n * (p * (n - 1.0));
  }

  lemma QuotientIsProduct(m: real, n: real)
    requires n > 0.0
    ensures m / n == (1.0 / n) * m
  {
    DivMul(1.0, n, 1.0 / n);
    var p := (1.0 / n) * m;
    assert p * n == m;
    DivOrder(m, n, m / n, p, p * n);
  }

  function Affine(p: real, m: real): real {
    p * m - 0.5
  }

  ghost predicate IsAffine(a: seq<real>, c: seq<real>, p: real) {
    |a| == |c| && forall k :: 0 <= k < |a| ==> c[k] == Affine(p, a[k])
  }

  lemma AffineStep(p: real, total: real, m: real, count: real)
    ensures p * total - 0.5 * count + Affine(p, m) == p * (total + m) - 0.5 * (count + 1.0)
  {
  }

  lemma {:induction false} AffineTotal(a: seq<real>, c: seq<real>, p: real)
    requires IsAffine(a, c, p)
    ensures Sum(c) == p * Sum(a) - 0.5 * |a| as real
    decreases |a|
  {
    if a == [] {
      assert p * 0.0 == 0.0;
    } else {
      var k := |a| - 1;
      AffineTotal(a[..k], c[..k], p);
      AffineStep(p, Sum(a[..k]), a[k], k as real);
    }
  }

  lemma CrossRankIsAffine(xs: seq<real>, v: real)
    requires |xs| > 1
    ensures CrossRank(xs, v) == Affine(1.0 / (|xs| - 1) as real, MidRank(xs, v))
  {
    QuotientIsProduct(MidRank(xs, v), (|xs| - 1) as real);
  }

  lemma CrossRanksAreAffine(xs: seq<real>)
    requires |xs| > 1
    ensures IsAffine(MidRanks(xs), CrossRanks(xs), 1.0 / (|xs| - 1) as real)
  {
    forall k | 0 <= k < |xs| ensures CrossRank(xs, xs[k]) == Affine(1.0 / (|xs| - 1) as real, MidRank(xs, xs[k])) {
      CrossRankIsAffine(xs, xs[k]);
    }
  }

  /** Main result: scaled ranks are centred on zero. */
  lemma CrossRanksSumToZero(xs: seq<real>)
    ensures Sum(CrossRanks(xs)) == 0.0
  {
    if |xs| <= 1 {
      SumConstant(CrossRanks(xs), 0.0);
    } else {
      var p := 1.0 / (|xs| - 1) as real;
      CrossRanksAreAffine(xs);
      AffineTotal(MidRanks(xs), CrossRanks(xs), p);
      MidRanksSum(xs);
      ScaledTotal(|xs| as real, Sum(MidRanks(xs)), p);
    }
  }
}
