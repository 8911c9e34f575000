/** Average-tie ranks: the run-grouping loop of research/xsvalue.py and research/xsdirection.py
    (rank_cross_sectional), and the group-mean algorithm of tools/pairs_trading.py (_rank). Both
    are proved against the counting definition. */
module Ranks {
  import opened RealAlgebra
  import opened Counting

  // ---------------------------------------------------------------------------
  // The counting definition of a rank
  // ---------------------------------------------------------------------------

  function Below(x: real): real -> bool { (y: real) => y < x }

  function Same(x: real): real -> bool { (y: real) => y == x }

  function Smaller(xs: seq<real>, x: real): nat { Count(xs, Below(x)) }

  function Equal(xs: seq<real>, x: real): nat { Count(xs, Same(x)) }

  /** The mean 0-based position of x among xs. */
  function MidRank(xs: seq<real>, x: real): real {
    Smaller(xs, x) as real + (Equal(xs, x) as real - 1.0) / 2.0
  }

  function MidRanks(xs: seq<real>): seq<real> {
    seq(|xs|, i requires 0 <= i < |xs| => MidRank(xs, xs[i]))
  }

  /** Ranks scaled to [-1/2, 1/2]; a cross-section of one stock has no ranking. */
  function CrossRank(xs: seq<real>, x: real): real {
    if |xs| <= 1 then 0.0 else MidRank(xs, x) / (|xs| - 1) as real - 0.5
  }

  function CrossRanks(xs: seq<real>): seq<real> {
    seq(|xs|, i requires 0 <= i < |xs| => CrossRank(xs, xs[i]))
  }

  // ---------------------------------------------------------------------------
  // The stable sort of the indices
  // ---------------------------------------------------------------------------

  ghost predicate Indices(order: seq<nat>, n: nat) {
    forall a :: 0 <= a < |order| ==> order[a] < n
  }

  /** How many of the first n indices satisfy p. */
  function CountTo(n: nat, p: nat -> bool): nat {
    if n == 0 then 0 else CountTo(n - 1, p) + if p(n - 1) then 1 else 0
  }

  ghost predicate LexBefore(xs: seq<real>, i: nat, j: nat) {
    i < |xs| && j < |xs| && (xs[i] < xs[j] || (xs[i] == xs[j] && i < j))
  }

  ghost predicate StableOrder(xs: seq<real>, order: seq<nat>) {
    && Indices(order, |xs|)
    && forall a, b :: 0 <= a < b < |order| ==> LexBefore(xs, order[a], order[b])
  }

  /** Index i put behind every index whose value is no larger. */
  function Place(xs: seq<real>, order: seq<nat>, i: nat): (r: seq<nat>)
    requires i < |xs| && Indices(order, |xs|)
    ensures Indices(r, |xs|)
    decreases |order|
  {
    if order == [] || xs[order[|order| - 1]] <= xs[i] then order + [i]
    else Place(xs, order[..|order| - 1], i) + [order[|order| - 1]]
  }

  function SortedUpTo(xs: seq<real>, n: nat): (r: seq<nat>)
    requires n <= |xs|
    ensures Indices(r, |xs|)
  {
    if n == 0 then [] else Place(xs, SortedUpTo(xs, n - 1), n - 1)
  }

  /** The indices, stably sorted by value. */
  function ArgSort(xs: seq<real>): seq<nat> {
    SortedUpTo(xs, |xs|)
  }

  lemma {:induction false} PlaceCounts(xs: seq<real>, order: seq<nat>, i: nat, p: nat -> bool)
    requires i < |xs| && Indices(order, |xs|)
    ensures Count(Place(xs, order, i), p) == Count(order, p) + (if p(i) then 1 else 0)
    ensures |Place(xs, order, i)| == |order| + 1
    decreases |order|
  {
    if order == [] || xs[order[|order| - 1]] <= xs[i] {
      CountSnoc(order, i, p);
    } else {
      var front, last := order[..|order| - 1], order[|order| - 1];
      PlaceCounts(xs, front, i, p);
      CountSnoc(Place(xs, front, i), last, p);
    }
  }

  lemma {:induction false} PlaceMembers(xs: seq<real>, order: seq<nat>, i: nat)
    requires i < |xs| && Indices(order, |xs|)
    ensures forall j :: j in Place(xs, order, i) <==> j in order || j == i
    decreases |order|
  {
    if order != [] && xs[order[|order| - 1]] > xs[i] {
      PlaceMembers(xs, order[..|order| - 1], i);
      assert order == order[..|order| - 1] + [order[|order| - 1]];
    }
  }

  ghost predicate AllBefore(xs: seq<real>, order: seq<nat>, last: nat) {
    forall a :: 0 <= a < |order| ==> LexBefore(xs, order[a], last)
  }

  lemma StableSnoc(xs: seq<real>, order: seq<nat>, last: nat)
    requires StableOrder(xs, order) && last < |xs| && AllBefore(xs, order, last)
    ensures StableOrder(xs, order + [last])
  {
  }

  lemma StableFront(xs: seq<real>, order: seq<nat>)
    requires StableOrder(xs, order) && order != []
    ensures StableOrder(xs, order[..|order| - 1])
    ensures AllBefore(xs, order[..|order| - 1], order[|order| - 1])
  {
  }

  lemma {:induction false} PlaceKeeps(xs: seq<real>, order: seq<nat>, i: nat)
    requires i < |xs| && StableOrder(xs, order) && Indices(order, i)
    ensures StableOrder(xs, Place(xs, order, i))
    decreases |order|
  {
    if order == [] {
      StableSnoc(xs, order, i);
    } else {
      var front, last := order[..|order| - 1], order[|order| - 1];
      assert order == front + [last];
      StableFront(xs, order);
      if xs[last] <= xs[i] {
        StableSnoc(xs, order, i);
      } else {
        PlaceKeeps(xs, front, i);
        PlaceMembers(xs, front, i);
        var placed := Place(xs, front, i);
        forall a | 0 <= a < |placed| ensures LexBefore(xs, placed[a], last) {
          assert placed[a] in placed;
        }
        StableSnoc(xs, placed, last);
      }
    }
  }

  lemma {:induction false} SortedUpToSorts(xs: seq<real>, n: nat)
    requires n <= |xs|
    ensures StableOrder(xs, SortedUpTo(xs, n))
    ensures Indices(SortedUpTo(xs, n), n) && forall j :: j in SortedUpTo(xs, n) <==> 0 <= j < n
    decreases n
  {
    if n > 0 {
      SortedUpToSorts(xs, n - 1);
      PlaceKeeps(xs, SortedUpTo(xs, n - 1), n - 1);
      PlaceMembers(xs, SortedUpTo(xs, n - 1), n - 1);
      forall a | 0 <= a < |SortedUpTo(xs, n)| ensures SortedUpTo(xs, n)[a] < n {
        assert SortedUpTo(xs, n)[a] in SortedUpTo(xs, n);
      }
    }
  }

  lemma {:induction false} SortedUpToCounts(xs: seq<real>, n: nat, p: nat -> bool)
    requires n <= |xs|
    ensures Count(SortedUpTo(xs, n), p) == CountTo(n, p) && |SortedUpTo(xs, n)| == n
    decreases n
  {
    if n > 0 {
      SortedUpToCounts(xs, n - 1, p);
      PlaceCounts(xs, SortedUpTo(xs, n - 1), n - 1, p);
    }
  }

  /** The sort is stable and visits every index exactly once. */
  lemma ArgSortSorts(xs: seq<real>)
    ensures StableOrder(xs, ArgSort(xs)) && |ArgSort(xs)| == |xs|
    ensures forall i :: i in ArgSort(xs) <==> 0 <= i < |xs|
  {
    SortedUpToSorts(xs, |xs|);
    SortedUpToCounts(xs, |xs|, i => true);
  }

  lemma ArgSortIndices(xs: seq<real>)
    ensures |ArgSort(xs)| == |xs| && Indices(ArgSort(xs), |xs|)
  {
    ArgSortSorts(xs);
  }

  // ---------------------------------------------------------------------------
  // A run of the sorted order counts the smaller and the equal values
  // ---------------------------------------------------------------------------

  function AtBelow(xs: seq<real>, v: real): nat -> bool { (i: nat) => i < |xs| && xs[i] < v }

  function AtSame(xs: seq<real>, v: real): nat -> bool { (i: nat) => i < |xs| && xs[i] == v }

  lemma {:induction false} CountByIndex(xs: seq<real>, v: real, n: nat)
    requires n <= |xs|
    ensures CountTo(n, AtBelow(xs, v)) == Smaller(xs[..n], v)
    ensures CountTo(n, AtSame(xs, v)) == Equal(xs[..n], v)
    decreases n
  {
    if n > 0 {
      CountByIndex(xs, v, n - 1);
      assert xs[..n] == xs[..n - 1] + [xs[n - 1]];
      CountSnoc(xs[..n - 1], xs[n - 1], Below(v));
      CountSnoc(xs[..n - 1], xs[n - 1], Same(v));
    }
  }

  /** order[i..j] is exactly the stretch of the order whose values equal v. */
  ghost predicate Run(xs: seq<real>, order: seq<nat>, i: nat, j: nat, v: real) {
    && i <= j <= |order| && Indices(order, |xs|)
    && (forall a :: 0 <= a < i ==> xs[order[a]] < v)
    && (forall a :: i <= a < j ==> xs[order[a]] == v)
    && (forall a :: j <= a < |order| ==> xs[order[a]] > v)
  }

  lemma RunCounts(xs: seq<real>, order: seq<nat>, i: nat, j: nat, v: real)
    requires order == ArgSort(xs) && Run(xs, order, i, j, v)
    ensures Smaller(xs, v) == i && Equal(xs, v) == j - i
  {
    var below, same := AtBelow(xs, v), AtSame(xs, v);
    CountInThree(order, i, j, below);
    CountInThree(order, i, j, same);
    CountAll(order[..i], below);
    CountNone(order[i..j], below);
    CountNone(order[j..], below);
    CountNone(order[..i], same);
    CountAll(order[i..j], same);
    CountNone(order[j..], same);
    SortedUpToCounts(xs, |xs|, below);
    SortedUpToCounts(xs, |xs|, same);
    CountByIndex(xs, v, |xs|);
    assert xs[..|xs|] == xs;
  }

  // ---------------------------------------------------------------------------
  // rank_cross_sectional
  // ---------------------------------------------------------------------------

  /** The entries of rows reached by the first k places of the order are the target's. */
  ghost predicate Agree(rows: seq<real>, target: seq<real>, order: seq<nat>, k: nat)
    requires |rows| == |target| && Indices(order, |rows|) && k <= |order|
  {
    forall a :: 0 <= a < k ==> rows[order[a]] == target[order[a]]
  }

  lemma AgreeStep(rows: seq<real>, target: seq<real>, order: seq<nat>, k: nat, x: real)
    requires |rows| == |target| && Indices(order, |rows|) && k < |order|
    requires Agree(rows, target, order, k) && target[order[k]] == x
    ensures Agree(rows[order[k] := x], target, order, k + 1)
  {
  }

  /** Every rank scaled to its share of the highest possible one, and centred. */
  function Scaled(rows: seq<real>): seq<real>
    requires |rows| >= 2
  {
    seq(|rows|, k requires 0 <= k < |rows| => rows[k] / (|rows| - 1) as real - 0.5)
  }

  lemma ScaledMidRanks(xs: seq<real>)
    requires |xs| >= 2
    ensures Scaled(MidRanks(xs)) == CrossRanks(xs)
  {
  }

  /** The run-grouping loop gives every value its mean position. */
  method RankCrossSectional(values: seq<real>) returns (r: seq<real>)
    ensures r == CrossRanks(values)
  {
    var n := |values|;
    if n <= 1 {
      return seq(n, _ => 0.0);
    }
    var order := ArgSort(values);
    ArgSortIndices(values);
    ghost var mid := MidRanks(values);
    var ranks := new real[n];
    var i: nat := 0;
    while i < n
      invariant i <= n && (0 < i < n ==> values[order[i - 1]] < values[order[i]])
      invariant Agree(ranks[..], mid, order, i)
    {
      var j: nat := i;
      while j < n && values[order[j]] == values[order[i]]
        invariant i <= j <= n && forall a :: i <= a < j ==> values[order[a]] == values[order[i]]
      {
        j := j + 1;
      }
      var avg := (i + j - 1) as real / 2.0;
      RunIsAveraged(values, order, i, j);
      for k := i to j
        invariant Agree(ranks[..], mid, order, k)
      {
        AgreeStep(ranks[..], mid, order, k, avg);
        ghost var before := ranks[..];
        ranks[order[k]] := avg;
        assert ranks[..] == before[order[k] := avg];
      }
      i := j;
    }
    var rows := ranks[..];
    OrderReaches(values, rows, mid);
    ScaledMidRanks(values);
    r := Scaled(rows);
  }

  /** What holds along the whole order holds at every index. */
  lemma OrderReaches(xs: seq<real>, rows: seq<real>, target: seq<real>)
    requires |rows| == |target| == |xs|
    requires |ArgSort(xs)| == |xs| && Indices(ArgSort(xs), |xs|)
    requires Agree(rows, target, ArgSort(xs), |xs|)
    ensures rows == target
  {
    ArgSortSorts(xs);
    forall k | 0 <= k < |xs| ensures rows[k] == target[k] {
      assert k in ArgSort(xs);
      var a :| 0 <= a < |xs| && ArgSort(xs)[a] == k;
    }
  }

  lemma RunIsAveraged(xs: seq<real>, order: seq<nat>, i: nat, j: nat)
    requires order == ArgSort(xs) && Indices(order, |xs|) && i < j <= |order|
    requires i > 0 ==> xs[order[i - 1]] < xs[order[i]]
    requires forall a :: i <= a < j ==> xs[order[a]] == xs[order[i]]
    requires j < |order| ==> xs[order[j]] != xs[order[i]]
    ensures forall a :: i <= a < j ==> MidRanks(xs)[order[a]] == (i + j - 1) as real / 2.0
    ensures j < |order| ==> xs[order[j - 1]] < xs[order[j]]
  {
    ArgSortSorts(xs);
    IsRun(xs, order, i, j, xs[order[i]]);
    RunCounts(xs, order, i, j, xs[order[i]]);
  }

  lemma IsRun(xs: seq<real>, order: seq<nat>, i: nat, j: nat, v: real)
    requires StableOrder(xs, order) && i < j <= |order|
    requires i > 0 ==> xs[order[i - 1]] < xs[order[i]]
    requires forall a :: i <= a < j ==> xs[order[a]] == v
    requires j < |order| ==> xs[order[j]] != v
    ensures Run(xs, order, i, j, v)
  {
    forall a | 0 <= a < i ensures xs[order[a]] < v {
      assert a < i - 1 ==> LexBefore(xs, order[a], order[i - 1]);
      assert xs[order[i]] == v;
    }
    forall a | j <= a < |order| ensures xs[order[a]] > v {
      assert a > j ==> LexBefore(xs, order[j], order[a]);
      assert LexBefore(xs, order[i], order[j]);
      assert xs[order[i]] == v;
    }
  }

  // ---------------------------------------------------------------------------
  // _rank
  // ---------------------------------------------------------------------------

  function LexBelow(xs: seq<real>, k: nat): nat -> bool
    requires k < |xs|
  {
    (i: nat) => i < |xs| && (xs[i] < xs[k] || (xs[i] == xs[k] && i < k))
  }

  /** How many of the first n indices sort before index k. */
  lemma {:induction false} CountLexBelow(xs: seq<real>, k: nat, n: nat)
    requires k < |xs| && n <= |xs|
    ensures CountTo(n, LexBelow(xs, k))
            == Smaller(xs[..n], xs[k]) + Equal(xs[..(if n <= k then n else k)], xs[k])
    decreases n
  {
    if n > 0 {
      CountLexBelow(xs, k, n - 1);
      assert xs[..n] == xs[..n - 1] + [xs[n - 1]];
      CountSnoc(xs[..n - 1], xs[n - 1], Below(xs[k]));
      CountSnoc(xs[..n - 1], xs[n - 1], Same(xs[k]));
    }
  }

  lemma BeforeInOrder(xs: seq<real>, order: seq<nat>, a: nat)
    requires StableOrder(xs, order) && a < |order|
    ensures forall i :: i in order[..a] ==> LexBelow(xs, order[a])(i)
    ensures forall i :: i in order[a..] ==> !LexBelow(xs, order[a])(i)
  {
    forall i | i in order[..a] ensures LexBelow(xs, order[a])(i) {
      var b :| 0 <= b < a && order[b] == i;
      assert LexBefore(xs, order[b], order[a]);
    }
    forall i | i in order[a..] ensures !LexBelow(xs, order[a])(i) {
      var b :| a <= b < |order| && order[b] == i;
      assert a < b ==> LexBefore(xs, order[a], order[b]);
    }
  }

  lemma PlaceIsCount(xs: seq<real>, order: seq<nat>, a: nat)
    requires StableOrder(xs, order) && a < |order|
    ensures Count(order, LexBelow(xs, order[a])) == a
  {
    var p := LexBelow(xs, order[a]);
    BeforeInOrder(xs, order, a);
    assert order == order[..a] + order[a..];
    CountConcat(order[..a], order[a..], p);
    CountAll(order[..a], p);
    CountNone(order[a..], p);
  }

  /** The place of an index in the stable order: everything smaller comes first, then the
      equal values in index order. */
  lemma PlaceInOrder(xs: seq<real>, order: seq<nat>, a: nat)
    requires order == ArgSort(xs) && StableOrder(xs, order) && a < |order|
    ensures a == Smaller(xs, xs[order[a]]) + Equal(xs[..order[a]], xs[order[a]])
  {
    PlaceIsCount(xs, order, a);
    SortedUpToCounts(xs, |xs|, LexBelow(xs, order[a]));
    CountLexBelow(xs, order[a], |xs|);
    assert xs[..|xs|] == xs;
  }

  /** The sum of c consecutive positions from s on. */
  function RunSum(s: nat, c: nat): real {
    c as real * s as real + c as real * (c as real - 1.0) / 2.0
  }

  lemma RunSumStep(s: nat, c: nat)
    ensures RunSum(s, c) + (s + c) as real == RunSum(s, c + 1)
  {
    RunSumAlgebra(s as real, c as real);
  }

  lemma RunSumAlgebra(s: real, c: real)
    ensures c * s + c * (c - 1.0) / 2.0 + s + c == (c + 1.0) * s + (c + 1.0) * c / 2.0
  {
  }

  lemma RunMean(s: nat, c: nat)
    requires c > 0
    ensures RunSum(s, c) / c as real == s as real + (c as real - 1.0) / 2.0
  {
    RunMeanAlgebra(s as real, c as real, RunSum(s, c), RunSum(s, c) / c as real);
  }

  lemma RunMeanAlgebra(s: real, c: real, sum: real, q: real)
    requires c > 0.0 && sum == c * s + c * (c - 1.0) / 2.0 && q == sum / c
    ensures q == s + (c - 1.0) / 2.0
  {
    var m := s + (c - 1.0) / 2.0;
    assert m * c == sum;
    DivOrder(sum, c, q, m, m * c);
  }

  /** The position that the stable sort gives index i. */
  function Position(x: seq<real>, i: nat): real
    requires i < |x|
  {
    (Smaller(x, x[i]) + Equal(x[..i], x[i])) as real
  }

  function Positions(x: seq<real>): seq<real> {
    seq(|x|, i requires 0 <= i < |x| => Position(x, i))
  }

  /** The positions of the first n values that equal v, added up. */
  function GroupTotal(x: seq<real>, r: seq<real>, v: real, n: nat): real
    requires n <= |x| == |r|
  {
    if n == 0 then 0.0 else GroupTotal(x, r, v, n - 1) + if x[n - 1] == v then r[n - 1] else 0.0
  }

  lemma EqualStep(x: seq<real>, v: real, n: nat)
    requires 0 < n <= |x|
    ensures Equal(x[..n], v) == Equal(x[..n - 1], v) + (if x[n - 1] == v then 1 else 0)
  {
    assert x[..n] == x[..n - 1] + [x[n - 1]];
    CountSnoc(x[..n - 1], x[n - 1], Same(v));
  }

  /** A group of ties holds consecutive positions. */
  lemma {:induction false} GroupTotalIsRun(x: seq<real>, v: real, n: nat)
    requires n <= |x|
    ensures GroupTotal(x, Positions(x), v, n) == RunSum(Smaller(x, v), Equal(x[..n], v))
    decreases n
  {
    if n == 0 {
      assert x[..0] == [];
      RunSumEmpty(Smaller(x, v));
    } else {
      GroupTotalIsRun(x, v, n - 1);
      EqualStep(x, v, n);
      RunSumStep(Smaller(x, v), Equal(x[..n - 1], v));
    }
  }

  lemma RunSumEmpty(s: nat)
    ensures RunSum(s, 0) == 0.0
  {
    assert 0.0 * s as real == 0.0;
  }

  /** Index i itself is one of the values equal to x[i]. */
  lemma EqualSplits(x: seq<real>, i: nat)
    requires i < |x|
    ensures Equal(x, x[i]) >= Equal(x[..i], x[i]) + 1
  {
    CountInThree(x, i, i + 1, Same(x[i]));
    assert x[i..i + 1] == [x[i]];
    CountSingle(x[i], Same(x[i]));
  }

  lemma GroupMean(x: seq<real>, i: nat)
    requires i < |x|
    ensures Equal(x, x[i]) > 0
    ensures GroupTotal(x, Positions(x), x[i], |x|) / Equal(x, x[i]) as real == MidRank(x, x[i])
  {
    EqualSplits(x, i);
    GroupTotalIsRun(x, x[i], |x|);
    assert x[..|x|] == x;
    RunMean(Smaller(x, x[i]), Equal(x, x[i]));
  }

  lemma NoTies(x: seq<real>)
    requires forall i :: 0 <= i < |x| ==> Equal(x, x[i]) <= 1
    ensures Positions(x) == MidRanks(x)
  {
    forall i | 0 <= i < |x| ensures Position(x, i) == MidRank(x, x[i]) {
      EqualSplits(x, i);
    }
  }

  lemma OrderPositions(x: seq<real>, k: nat)
    requires k < |x|
    ensures k < |ArgSort(x)| && ArgSort(x)[k] < |x| && Position(x, ArgSort(x)[k]) == k as real
  {
    ArgSortSorts(x);
    PlaceInOrder(x, ArgSort(x), k);
  }

  /** Positions through the order, then every group of ties replaced by its mean: the same ranks by
      another road. */
  method Rank(x: seq<real>) returns (ranks: seq<real>)
    ensures ranks == MidRanks(x)
  {
    var n := |x|;
    var order := ArgSort(x);
    ArgSortIndices(x);
    ghost var positions := Positions(x);
    var r := new real[n];
    for k := 0 to n
      invariant Agree(r[..], positions, order, k)
    {
      OrderPositions(x, k);
      AgreeStep(r[..], positions, order, k, k as real);
      ghost var before := r[..];
      r[order[k]] := k as real;
      assert r[..] == before[order[k] := k as real];
    }
    var rows := r[..];
    OrderReaches(x, rows, positions);
    var cnt, tied := Groups(x);
    if !tied {
      NoTies(x);
      return rows;
    }
    var sums := GroupSums(x, rows);
    forall i | 0 <= i < n ensures Equal(x, x[i]) > 0 && sums[x[i]] / Equal(x, x[i]) as real == MidRank(x, x[i]) {
      GroupMean(x, i);
    }
    ranks := seq(n, i requires 0 <= i < n => sums[x[i]] / cnt[x[i]] as real);
  }

  /** How often each value occurs, and whether any occurs twice. */
  method Groups(x: seq<real>) returns (cnt: map<real, nat>, tied: bool)
    ensures forall v :: v in cnt <==> v in x
    ensures forall v :: v in cnt ==> cnt[v] == Equal(x, v) >= 1
    ensures tied <==> exists v :: v in cnt && cnt[v] > 1
  {
    cnt := map[];
    for i := 0 to |x|
      invariant forall v :: v in cnt <==> v in x[..i]
      invariant forall v :: Equal(x[..i], v) == if v in cnt then cnt[v] else 0
      invariant forall v :: v in cnt ==> cnt[v] >= 1
    {
      forall v ensures Equal(x[..i + 1], v) == Equal(x[..i], v) + if x[i] == v then 1 else 0 {
        EqualStep(x, v, i + 1);
      }
      cnt := cnt[x[i] := (if x[i] in cnt then cnt[x[i]] else 0) + 1];
    }
    assert x[..|x|] == x;
    tied := exists v | v in cnt :: cnt[v] > 1;
  }

  /** Each group of ties collects its positions. */
  method GroupSums(x: seq<real>, r: seq<real>) returns (sums: map<real, real>)
    requires |r| == |x|
    ensures forall v :: v in sums <==> v in x
    ensures forall v :: v in sums ==> sums[v] == GroupTotal(x, r, v, |x|)
  {
    sums := map[];
    for i := 0 to |x|
      invariant forall v :: v in sums <==> v in x[..i]
      invariant forall v :: GroupTotal(x, r, v, i) == if v in sums then sums[v] else 0.0
    {
      sums := sums[x[i] := (if x[i] in sums then sums[x[i]] else 0.0) + r[i]];
    }
    assert x[..|x|] == x;
  }
}
