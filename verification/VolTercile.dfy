/** The trailing-volatility baseline labels (research/volregime.py, vol_tercile_labels). */
module VolTercile {
  import opened Options
  import opened RealAlgebra
  import opened Counting
  import opened Ranks
  import Admission
  import Wilson

  const VOL_WINDOW: nat := 20
  const VOL_LOOKBK: nat := 250

  datatype Tercile = VolLow | VolMid | VolHigh

  /** The logarithm and the square root, which may be any functions here. */
  datatype Maths = Maths(ln: real -> real, sqrt: real -> real)

  // ---------------------------------------------------------------------------
  // The label, stated without the loops
  // ---------------------------------------------------------------------------

  /** The squared log return into bar j; a missing price contributes nothing. */
  function SquaredReturn(f: Maths, closes: seq<real>, j: nat): real
    requires 0 < j < |closes|
  {
    if closes[j - 1] > 0.0 && closes[j] > 0.0 then
      var r := f.ln(Quotient(closes[j], closes[j - 1])); r * r
    else 0.0
  }

  function ReturnSum(f: Maths, closes: seq<real>, lo: nat, hi: nat): real
    requires 0 < lo <= hi <= |closes|
    decreases hi
  {
    if lo == hi then 0.0 else ReturnSum(f, closes, lo, hi - 1) + SquaredReturn(f, closes, hi - 1)
  }

  /** Realised volatility over the window that ends at bar i. */
  function Rv(f: Maths, closes: seq<real>, i: nat): real
    requires VOL_WINDOW <= i < |closes|
  {
    f.sqrt(ReturnSum(f, closes, i - VOL_WINDOW + 1, i + 1) / VOL_WINDOW as real)
  }

  /** The realised volatilities of the look-back that ends at bar i. */
  function History(f: Maths, closes: seq<real>, i: nat): seq<real>
    requires VOL_WINDOW + VOL_LOOKBK <= i < |closes|
  {
    seq(VOL_LOOKBK, k requires 0 <= k < VOL_LOOKBK => Rv(f, closes, i - VOL_LOOKBK + 1 + k))
  }

  /** Where v falls between the two tercile entries of the sorted history. */
  function TercileOf(hist: seq<real>, v: real): Tercile
    requires hist != []
  {
    Admission.SortedSorts(hist);
    var sorted := Admission.Sorted(hist);
    if v <= sorted[|hist| / 3] then VolLow
    else if v >= sorted[2 * |hist| / 3] then VolHigh
    else VolMid
  }

  function LabelAt(f: Maths, closes: seq<real>, i: nat): Option<Tercile>
    requires i < |closes|
  {
    if i < VOL_WINDOW + VOL_LOOKBK then None
    else Some(TercileOf(History(f, closes, i), Rv(f, closes, i)))
  }

  // ---------------------------------------------------------------------------
  // The loops
  // ---------------------------------------------------------------------------

  /** Fills rv, not-a-number before the first full window, and labels every bar with a full
      look-back. */
  method VolTercileLabels(f: Maths, closes: seq<real>) returns (out: seq<Option<Tercile>>)
    ensures |out| == |closes|
    ensures forall i :: 0 <= i < |closes| ==> out[i] == LabelAt(f, closes, i)
  {
    var n := |closes|;
    var rows := RealisedVolatility(f, closes);
    var labels := new Option<Tercile>[n](_ => None);
    for i := 0 to n
      invariant forall k :: 0 <= k < i ==> labels[k] == LabelAt(f, closes, k)
    {
      if VOL_WINDOW + VOL_LOOKBK <= i {
        var hist := LookBack(rows, i);
        assert hist == History(f, closes, i);
        if |hist| >= 30 {
          labels[i] := Some(TercileOf(hist, rows[i].value));
        }
      } else {
        labels[i] := None;
      }
    }
    out := labels[..];
  }

  method RealisedVolatility(f: Maths, closes: seq<real>) returns (rows: seq<Option<real>>)
    ensures |rows| == |closes|
    ensures forall i :: 0 <= i < |closes| ==> rows[i] == if i < VOL_WINDOW then None else Some(Rv(f, closes, i))
  {
    var n := |closes|;
    var rv := new Option<real>[n](_ => None);
    for i := 0 to n
      invariant forall k :: 0 <= k < i ==> rv[k] == if k < VOL_WINDOW then None else Some(Rv(f, closes, k))
      invariant forall k :: i <= k < n ==> rv[k] == None
    {
      if VOL_WINDOW <= i {
        var s := 0.0;
        for j := i - VOL_WINDOW + 1 to i + 1
          invariant s == ReturnSum(f, closes, i - VOL_WINDOW + 1, j)
        {
          s := s + SquaredReturn(f, closes, j);
        }
        rv[i] := Some(f.sqrt(s / VOL_WINDOW as real));
      }
    }
    rows := rv[..];
  }

  /** The computed entries of the look-back. */
  method LookBack(rows: seq<Option<real>>, i: nat) returns (hist: seq<real>)
    requires VOL_WINDOW + VOL_LOOKBK <= i < |rows|
    requires forall k :: VOL_WINDOW <= k < |rows| ==> rows[k].Some?
    ensures |hist| == VOL_LOOKBK
    ensures forall k :: 0 <= k < VOL_LOOKBK ==> Some(hist[k]) == rows[i - VOL_LOOKBK + 1 + k]
  {
    hist := [];
    for j := i - VOL_LOOKBK + 1 to i + 1
      invariant |hist| == j - (i - VOL_LOOKBK + 1)
      invariant forall k :: 0 <= k < |hist| ==> Some(hist[k]) == rows[i - VOL_LOOKBK + 1 + k]
    {
      if rows[j].Some? {
        hist := hist + [rows[j].value];
      }
    }
  }

  // ---------------------------------------------------------------------------
  // The label is a rank
  // ---------------------------------------------------------------------------

  function NoMore(v: real): real -> bool { (y: real) => y <= v }

  lemma {:induction false} NoMoreSplits(xs: seq<real>, v: real)
    ensures Count(xs, NoMore(v)) == Smaller(xs, v) + Equal(xs, v)
    decreases |xs|
  {
    if xs != [] {
      NoMoreSplits(xs[..|xs| - 1], v);
    }
  }

  /** In an ascending sequence a count below v is a position. */
  lemma BelowIsPosition(s: seq<real>, v: real, k: nat)
    requires Admission.Ascending(s) && k < |s|
    ensures v <= s[k] <==> Count(s, Below(v)) <= k
  {
    CountInThree(s, k, k + 1, Below(v));
    assert s[k..k + 1] == [s[k]];
    CountSingle(s[k], Below(v));
    if v <= s[k] {
      CountNone(s[k + 1..], Below(v));
      CountAtMost(s[..k], Below(v));
    } else {
      CountAll(s[..k], Below(v));
    }
  }

  lemma NoMoreIsPosition(s: seq<real>, v: real, k: nat)
    requires Admission.Ascending(s) && k < |s|
    ensures v >= s[k] <==> Count(s, NoMore(v)) > k
  {
    CountInThree(s, k, k + 1, NoMore(v));
    assert s[k..k + 1] == [s[k]];
    CountSingle(s[k], NoMore(v));
    if v >= s[k] {
      CountAll(s[..k], NoMore(v));
    } else {
      CountNone(s[k + 1..], NoMore(v));
      CountAtMost(s[..k], NoMore(v));
    }
  }

  /** Main result: low means that at most a third of the look-back is calmer; high means that
      more than two thirds are no wilder. */
  lemma LabelIsARank(hist: seq<real>, v: real)
    requires hist != []
    ensures TercileOf(hist, v) == VolLow <==> Smaller(hist, v) <= |hist| / 3
    ensures TercileOf(hist, v) == VolHigh
            <==> Smaller(hist, v) > |hist| / 3 && Smaller(hist, v) + Equal(hist, v) > 2 * |hist| / 3
  {
    Admission.SortedSorts(hist);
    var sorted := Admission.Sorted(hist);
    CountPermutes(sorted, hist, Below(v));
    CountPermutes(sorted, hist, NoMore(v));
    BelowIsPosition(sorted, v, |hist| / 3);
    NoMoreIsPosition(sorted, v, 2 * |hist| / 3);
    NoMoreSplits(hist, v);
  }

  // ---------------------------------------------------------------------------
  // Causality and scale
  // ---------------------------------------------------------------------------

  /** The squared returns into the bars lo..hi are the same in both series. */
  ghost predicate SameReturns(f: Maths, a: seq<real>, b: seq<real>, lo: nat, hi: nat) {
    0 < lo && hi <= |a| && hi <= |b| && forall j :: lo <= j < hi ==> SquaredReturn(f, a, j) == SquaredReturn(f, b, j)
  }

  lemma {:induction false} SameSums(f: Maths, a: seq<real>, b: seq<real>, lo: nat, hi: nat)
    requires lo <= hi && SameReturns(f, a, b, lo, hi)
    ensures ReturnSum(f, a, lo, hi) == ReturnSum(f, b, lo, hi)
    decreases hi
  {
    if lo < hi {
      SameSums(f, a, b, lo, hi - 1);
    }
  }

  lemma SameLabel(f: Maths, a: seq<real>, b: seq<real>, i: nat)
    requires i < |a| && i < |b|
    requires i >= VOL_WINDOW + VOL_LOOKBK ==> SameReturns(f, a, b, i - VOL_LOOKBK - VOL_WINDOW + 2, i + 1)
    ensures LabelAt(f, a, i) == LabelAt(f, b, i)
  {
    if i >= VOL_WINDOW + VOL_LOOKBK {
      forall k | i - VOL_LOOKBK < k <= i ensures Rv(f, a, k) == Rv(f, b, k) {
        SameSums(f, a, b, k - VOL_WINDOW + 1, k + 1);
      }
      assert History(f, a, i) == History(f, b, i);
    }
  }

  /** Main result: the label at bar i depends on the closes of its own look-back and nothing
      else. No later close can move it, nor any earlier one. */
  lemma LabelIsCausalAndLocal(f: Maths, a: seq<real>, b: seq<real>, i: nat)
    requires i < |a| && i < |b|
    requires forall j :: 0 <= j <= i && i - VOL_LOOKBK - VOL_WINDOW < j ==> a[j] == b[j]
    ensures LabelAt(f, a, i) == LabelAt(f, b, i)
  {
    SameLabel(f, a, b, i);
  }

  lemma ScaledReturn(f: Maths, a: seq<real>, b: seq<real>, c: real, j: nat)
    requires c > 0.0 && 0 < j < |a| == |b| && b[j] == c * a[j] && b[j - 1] == c * a[j - 1]
    ensures SquaredReturn(f, a, j) == SquaredReturn(f, b, j)
  {
    ScaleOrder(c, 0.0, a[j], 0.0, b[j]);
    ScaleOrder(c, 0.0, a[j - 1], 0.0, b[j - 1]);
    if a[j] > 0.0 && a[j - 1] > 0.0 {
      ScaledQuotient(a[j], a[j - 1], c, b[j], b[j - 1]);
    }
  }

  /** Main result: quoting the prices in another unit moves no label. */
  lemma LabelIgnoresTheUnit(f: Maths, a: seq<real>, b: seq<real>, c: real, i: nat)
    requires c > 0.0 && i < |a| == |b| && forall j :: 0 <= j < |a| ==> b[j] == c * a[j]
    ensures LabelAt(f, a, i) == LabelAt(f, b, i)
  {
    forall j | 0 < j < |a| ensures SquaredReturn(f, a, j) == SquaredReturn(f, b, j) {
      ScaledReturn(f, a, b, c, j);
    }
    SameLabel(f, a, b, i);
  }

  // ---------------------------------------------------------------------------
  // Realised volatility is the size of a move
  // ---------------------------------------------------------------------------

  /** Bar j moved by r, up or down. */
  ghost predicate Moves(f: Maths, closes: seq<real>, j: nat, r: real)
    requires 0 < j < |closes|
  {
    && closes[j - 1] > 0.0 && closes[j] > 0.0
    && (f.ln(Quotient(closes[j], closes[j - 1])) == r || f.ln(Quotient(closes[j], closes[j - 1])) == -r)
  }

  lemma {:induction false} EqualMovesAddUp(f: Maths, closes: seq<real>, lo: nat, hi: nat, r: real, rr: real)
    requires 0 < lo <= hi <= |closes| && rr == r * r && forall j: nat :: lo <= j < hi ==> Moves(f, closes, j, r)
    ensures ReturnSum(f, closes, lo, hi) == (hi - lo) as real * rr
    decreases hi
  {
    if lo < hi {
      EqualMovesAddUp(f, closes, lo, hi - 1, r, rr);
      OneMoveMore((hi - 1 - lo) as real, (hi - lo) as real, rr);
      assert Moves(f, closes, hi - 1, r);
      assert (-r) * (-r) == rr;
    }
  }

  lemma OneMoveMore(before: real, count: real, rr: real)
    requires count == before + 1.0
    ensures before * rr + rr == count * rr
  {
  }

  /** Main result: when every bar of the window moves by r, up or down, the realised volatility is
      r. */
  lemma SteadyMovesHaveTheirSize(f: Maths, closes: seq<real>, i: nat, r: real)
    requires Wilson.IsSqrt(f.sqrt) && VOL_WINDOW <= i < |closes| && r >= 0.0
    requires forall j: nat :: i - VOL_WINDOW < j <= i ==> Moves(f, closes, j, r)
    ensures Rv(f, closes, i) == r
  {
    var rr := r * r;
    EqualMovesAddUp(f, closes, i - VOL_WINDOW + 1, i + 1, r, rr);
    SquareSign(r, rr);
    assert (VOL_WINDOW as real * rr) / VOL_WINDOW as real == rr;
    RootUnique(f.sqrt(rr), r, rr);
  }
}
