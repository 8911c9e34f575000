/** The half-splits of cross-validation, in the order itertools.combinations gives them
    (tools/pbo_ledger.py, cscv). */
module Combinations {

  function Prepend(x: nat, tails: seq<seq<nat>>): seq<seq<nat>> {
    seq(|tails|, i requires 0 <= i < |tails| => [x] + tails[i])
  }

  /** All ascending m-tuples over lo..n, in lexicographic order. */
  function Combos(lo: nat, n: nat, m: nat): seq<seq<nat>>
    requires lo <= n
    decreases n - lo
  {
    if m > n - lo then []
    else if m == 0 then [[]]
    else Prepend(lo, Combos(lo + 1, n, m - 1)) + Combos(lo + 1, n, m)
  }

  /** What follows lo in the combinations that start with lo; the other combinations are
      Combos(lo + 1, n, m). */
  function Tails(lo: nat, n: nat, m: nat): seq<seq<nat>>
    requires lo < n
  {
    if m == 0 then [] else Combos(lo + 1, n, m - 1)
  }

  lemma Unfold(lo: nat, n: nat, m: nat)
    requires lo < n
    ensures Combos(lo, n, m) == Prepend(lo, Tails(lo, n, m)) + Combos(lo + 1, n, m)
  {
    if m > n - lo {
      assert Combos(lo + 1, n, m - 1) == [] && Combos(lo + 1, n, m) == [];
    }
  }

  // ---------------------------------------------------------------------------
  // Exactly the m-subsets, each once
  // ---------------------------------------------------------------------------

  ghost predicate Ascending(c: seq<nat>, lo: nat, n: nat) {
    && (forall a :: 0 <= a < |c| ==> lo <= c[a] < n)
    && forall a, b :: 0 <= a < b < |c| ==> c[a] < c[b]
  }

  /** Every tuple of the list is ascending, over lo..n, and has m members. */
  ghost predicate AllAscend(combos: seq<seq<nat>>, lo: nat, n: nat, m: nat) {
    forall i :: 0 <= i < |combos| ==> Ascending(combos[i], lo, n) && |combos[i]| == m
  }

  lemma AscendGrows(x: seq<seq<nat>>, a: seq<seq<nat>>, lo: nat, n: nat, m: nat)
    requires lo < n && m > 0 && AllAscend(x, lo + 1, n, m - 1) && AllAscend(a, lo + 1, n, m)
    ensures AllAscend(Prepend(lo, x) + a, lo, n, m)
  {
    var whole := Prepend(lo, x) + a;
    forall i | 0 <= i < |whole| ensures Ascending(whole[i], lo, n) && |whole[i]| == m {
      if i < |x| {
        assert Ascending(x[i], lo + 1, n);
      } else {
        assert Ascending(a[i - |x|], lo + 1, n);
      }
    }
  }

  lemma {:induction false} CombosAllAscend(lo: nat, n: nat, m: nat)
    requires lo <= n
    ensures AllAscend(Combos(lo, n, m), lo, n, m)
    decreases n - lo
  {
    if 0 < m <= n - lo {
      CombosAllAscend(lo + 1, n, m - 1);
      CombosAllAscend(lo + 1, n, m);
      AscendGrows(Combos(lo + 1, n, m - 1), Combos(lo + 1, n, m), lo, n, m);
    }
  }

  lemma CombosAscend(lo: nat, n: nat, m: nat, i: nat)
    requires lo <= n && i < |Combos(lo, n, m)|
    ensures Ascending(Combos(lo, n, m)[i], lo, n) && |Combos(lo, n, m)[i]| == m
  {
    CombosAllAscend(lo, n, m);
  }

  lemma {:induction false} AscendingFits(c: seq<nat>, lo: nat, n: nat)
    requires lo <= n && Ascending(c, lo, n)
    ensures |c| <= n - lo
    decreases |c|
  {
    if c != [] {
      AscendingFits(c[1..], c[0] + 1, n);
    }
  }

  lemma PrependHolds(lo: nat, tails: seq<seq<nat>>, tail: seq<nat>)
    requires tail in tails
    ensures [lo] + tail in Prepend(lo, tails)
  {
    var i :| 0 <= i < |tails| && tails[i] == tail;
    assert Prepend(lo, tails)[i] == [lo] + tail;
  }

  lemma {:induction false} CombosComplete(c: seq<nat>, lo: nat, n: nat)
    requires lo <= n && Ascending(c, lo, n)
    ensures c in Combos(lo, n, |c|)
    decreases n - lo
  {
    AscendingFits(c, lo, n);
    if c != [] {
      if c[0] == lo {
        var tail := c[1..];
        assert c == [lo] + tail;
        assert Ascending(tail, lo + 1, n);
        CombosComplete(tail, lo + 1, n);
        PrependHolds(lo, Combos(lo + 1, n, |tail|), tail);
      } else {
        CombosComplete(c, lo + 1, n);
      }
    }
  }

  /** c comes before d in dictionary order. */
  ghost predicate LexLess(c: seq<nat>, d: seq<nat>)
    decreases |c|
  {
    c != [] && d != [] && (c[0] < d[0] || (c[0] == d[0] && LexLess(c[1..], d[1..])))
  }

  lemma {:induction false} LexDiffers(c: seq<nat>, d: seq<nat>)
    requires LexLess(c, d)
    ensures c != d
    decreases |c|
  {
    if c[0] == d[0] {
      LexDiffers(c[1..], d[1..]);
    }
  }

  /** Every earlier entry comes before every later one in dictionary order. */
  ghost predicate LexSorted(combos: seq<seq<nat>>) {
    forall i, j :: 0 <= i < j < |combos| ==> LexLess(combos[i], combos[j])
  }

  /** A sorted list with lo put in front, followed by a sorted list of tuples that start later. */
  lemma SortedGrows(x: seq<seq<nat>>, a: seq<seq<nat>>, lo: nat)
    requires LexSorted(x) && LexSorted(a) && forall i :: 0 <= i < |a| ==> a[i] != [] && a[i][0] > lo
    ensures LexSorted(Prepend(lo, x) + a)
  {
    var whole := Prepend(lo, x) + a;
    forall i, j | 0 <= i < j < |whole| ensures LexLess(whole[i], whole[j]) {
      if j < |x| {
        assert LexLess(x[i], x[j]);
        assert whole[i][1..] == x[i] && whole[j][1..] == x[j];
      }
    }
  }

  lemma {:induction false} CombosSorted(lo: nat, n: nat, m: nat)
    requires lo <= n
    ensures LexSorted(Combos(lo, n, m))
    decreases n - lo
  {
    if 0 < m <= n - lo {
      CombosSorted(lo + 1, n, m - 1);
      CombosSorted(lo + 1, n, m);
      var later := Combos(lo + 1, n, m);
      forall i | 0 <= i < |later| ensures later[i] != [] && later[i][0] > lo {
        CombosAscend(lo + 1, n, m, i);
      }
      SortedGrows(Combos(lo + 1, n, m - 1), later, lo);
    }
  }

  /** Main result: the enumeration lists every ascending m-tuple, nothing else, and nothing
      twice. */
  lemma CombosAreTheSubsets(n: nat, m: nat)
    ensures forall c :: c in Combos(0, n, m) <==> Ascending(c, 0, n) && |c| == m
    ensures forall i, j :: 0 <= i < j < |Combos(0, n, m)| ==> Combos(0, n, m)[i] != Combos(0, n, m)[j]
  {
    forall c ensures c in Combos(0, n, m) <==> Ascending(c, 0, n) && |c| == m {
      if c in Combos(0, n, m) {
        var i :| 0 <= i < |Combos(0, n, m)| && Combos(0, n, m)[i] == c;
        CombosAscend(0, n, m, i);
      }
      if Ascending(c, 0, n) && |c| == m {
        CombosComplete(c, 0, n);
      }
    }
    CombosSorted(0, n, m);
    forall i, j | 0 <= i < j < |Combos(0, n, m)| ensures Combos(0, n, m)[i] != Combos(0, n, m)[j] {
      LexDiffers(Combos(0, n, m)[i], Combos(0, n, m)[j]);
    }
  }

  // ---------------------------------------------------------------------------
  // Mirrors
  // ---------------------------------------------------------------------------

  /** Inside lo..n, exactly one of the two holds each index. */
  ghost predicate Complementary(c: seq<nat>, d: seq<nat>, lo: nat, n: nat) {
    forall k :: lo <= k < n ==> (k in c <==> k !in d)
  }

  /** The list b read backwards holds the complements of the list a. */
  ghost predicate Mirrored(a: seq<seq<nat>>, b: seq<seq<nat>>, lo: nat, n: nat) {
    |a| == |b| && forall i :: 0 <= i < |a| ==> Complementary(a[i], b[|a| - 1 - i], lo, n)
  }

  ghost predicate AllAbove(a: seq<seq<nat>>, lo: nat) {
    forall i :: 0 <= i < |a| ==> lo !in a[i]
  }

  lemma ComplementGrows(c: seq<nat>, d: seq<nat>, lo: nat, n: nat)
    requires lo < n && Complementary(c, d, lo + 1, n) && lo !in d
    ensures Complementary([lo] + c, d, lo, n)
  {
    forall k | lo <= k < n ensures k in [lo] + c <==> k !in d {
      assert k in [lo] + c <==> k == lo || k in c;
    }
  }

  lemma ComplementSwaps(c: seq<nat>, d: seq<nat>, lo: nat, n: nat)
    requires Complementary(c, d, lo, n)
    ensures Complementary(d, c, lo, n)
  {
  }

  /** Putting lo in front of the first half of each list keeps the lists mirrored. */
  lemma MirrorGrows(x: seq<seq<nat>>, a: seq<seq<nat>>, y: seq<seq<nat>>, b: seq<seq<nat>>, lo: nat, n: nat)
    requires lo < n && Mirrored(x, b, lo + 1, n) && Mirrored(a, y, lo + 1, n) && AllAbove(a, lo) && AllAbove(b, lo)
    ensures Mirrored(Prepend(lo, x) + a, Prepend(lo, y) + b, lo, n)
  {
    var whole, mirror := Prepend(lo, x) + a, Prepend(lo, y) + b;
    forall i | 0 <= i < |whole| ensures Complementary(whole[i], mirror[|whole| - 1 - i], lo, n) {
      if i < |x| {
        ComplementGrows(x[i], b[|x| - 1 - i], lo, n);
      } else {
        var j := i - |x|;
        ComplementSwaps(a[j], y[|a| - 1 - j], lo + 1, n);
        ComplementGrows(y[|a| - 1 - j], a[j], lo, n);
        ComplementSwaps([lo] + y[|a| - 1 - j], a[j], lo, n);
      }
    }
  }

  lemma CombosAbove(lo: nat, n: nat, m: nat)
    requires lo < n
    ensures AllAbove(Combos(lo + 1, n, m), lo)
  {
    var combos := Combos(lo + 1, n, m);
    forall i | 0 <= i < |combos| ensures lo !in combos[i] {
      CombosAscend(lo + 1, n, m, i);
    }
  }

  /** Main result: the list read backwards is the list of complements. */
  lemma {:induction false} CombosMirror(lo: nat, n: nat, m: nat, other: nat)
    requires lo <= n && m + other == n - lo
    ensures Mirrored(Combos(lo, n, m), Combos(lo, n, other), lo, n)
    decreases n - lo, 1
  {
    if lo < n {
      Unfold(lo, n, m);
      Unfold(lo, n, other);
      TailsMirror(lo, n, m, other);
      TailsMirror(lo, n, other, m);
      MirrorSwaps(Tails(lo, n, other), Combos(lo + 1, n, m), lo + 1, n);
      CombosAbove(lo, n, m);
      CombosAbove(lo, n, other);
      MirrorGrows(Tails(lo, n, m), Combos(lo + 1, n, m), Tails(lo, n, other), Combos(lo + 1, n, other), lo, n);
    }
  }

  lemma {:induction false} TailsMirror(lo: nat, n: nat, m: nat, other: nat)
    requires lo < n && m + other == n - lo
    ensures Mirrored(Tails(lo, n, m), Combos(lo + 1, n, other), lo + 1, n)
    decreases n - lo, 0
  {
    if m > 0 {
      CombosMirror(lo + 1, n, m - 1, other);
    }
  }

  lemma MirrorSwaps(a: seq<seq<nat>>, b: seq<seq<nat>>, lo: nat, n: nat)
    requires Mirrored(a, b, lo, n)
    ensures Mirrored(b, a, lo, n)
  {
    forall i | 0 <= i < |b| ensures Complementary(b[i], a[|b| - 1 - i], lo, n) {
      ComplementSwaps(a[|b| - 1 - i], b[i], lo, n);
    }
  }

  // ---------------------------------------------------------------------------
  // Every block trains in half of the splits
  // ---------------------------------------------------------------------------

  /** How many of the given combinations hold index k. */
  function Holding(combos: seq<seq<nat>>, k: nat): nat {
    if combos == [] then 0
    else Holding(combos[..|combos| - 1], k) + if k in combos[|combos| - 1] then 1 else 0
  }

  /** Counting a list from its end, against one that holds k where this one does not. */
  lemma {:induction false} HoldingMirrored(a: seq<seq<nat>>, b: seq<seq<nat>>, k: nat)
    requires |a| == |b| && forall i :: 0 <= i < |a| ==> (k in a[i] <==> k !in b[|a| - 1 - i])
    ensures Holding(a, k) + Holding(b, k) == |a|
    decreases |a|
  {
    if a != [] {
      var last := |a| - 1;
      HoldingMirrored(a[..last], b[1..], k);
      HoldingHead(b, k);
      assert k in a[last] <==> k !in b[0];
    }
  }

  lemma {:induction false} HoldingHead(b: seq<seq<nat>>, k: nat)
    requires b != []
    ensures Holding(b, k) == Holding(b[1..], k) + if k in b[0] then 1 else 0
    decreases |b|
  {
    if |b| > 1 {
      var last := |b| - 1;
      HoldingHead(b[..last], k);
      assert b[1..][..last - 1] == b[..last][1..];
    }
  }

  /** Main result: over all half-splits, every block trains in exactly half of them. */
  lemma BlocksTrainInHalf(half: nat, k: nat)
    requires k < 2 * half
    ensures 2 * Holding(Combos(0, 2 * half, half), k) == |Combos(0, 2 * half, half)|
  {
    var combos := Combos(0, 2 * half, half);
    CombosMirror(0, 2 * half, half, half);
    forall i | 0 <= i < |combos| ensures k in combos[i] <==> k !in combos[|combos| - 1 - i] {
      assert Complementary(combos[i], combos[|combos| - 1 - i], 0, 2 * half);
    }
    HoldingMirrored(combos, combos, k);
  }

  // ---------------------------------------------------------------------------
  // Counting the members below a bound
  // ---------------------------------------------------------------------------

  /** How many of 0..k the combination holds. */
  function MembersBelow(c: seq<nat>, k: nat): nat {
    if k == 0 then 0 else MembersBelow(c, k - 1) + if k - 1 in c then 1 else 0
  }

  lemma {:induction false} NoMembersBelow(c: seq<nat>, k: nat)
    requires forall j :: 0 <= j < k ==> j !in c
    ensures MembersBelow(c, k) == 0
    decreases k
  {
    if k > 0 {
      NoMembersBelow(c, k - 1);
    }
  }

  lemma {:induction false} MembersOfPrefix(c: seq<nat>, d: seq<nat>, k: nat)
    requires forall j :: 0 <= j < k ==> (j in c <==> j in d)
    ensures MembersBelow(c, k) == MembersBelow(d, k)
    decreases k
  {
    if k > 0 {
      MembersOfPrefix(c, d, k - 1);
    }
  }

  lemma {:induction false} MembersAbove(c: seq<nat>, last: nat, k: nat)
    requires last < k && last in c && forall j :: last < j < k ==> j !in c
    ensures MembersBelow(c, k) == MembersBelow(c, last) + 1
    decreases k
  {
    if last < k - 1 {
      MembersAbove(c, last, k - 1);
    }
  }

  /** An ascending tuple holds as many indices as it is long. */
  lemma {:induction false} MembersCount(c: seq<nat>, n: nat)
    requires Ascending(c, 0, n)
    ensures MembersBelow(c, n) == |c|
    decreases |c|
  {
    if c == [] {
      NoMembersBelow(c, n);
    } else {
      var front, last := c[..|c| - 1], c[|c| - 1];
      MembersCount(front, last);
      forall j | 0 <= j < last ensures j in c <==> j in front {
        if j in c {
          var a :| 0 <= a < |c| && c[a] == j;
          assert front[a] == j;
        }
      }
      MembersOfPrefix(c, front, last);
      forall j | last < j < n ensures j !in c {
        assert forall a :: 0 <= a < |c| - 1 ==> c[a] < c[|c| - 1];
      }
      assert last in c;
      MembersAbove(c, last, n);
    }
  }
}
