/** Dropping rules that are another rule's negation (tools/pbo_ledger.py, drop_mirrors). */
module Mirrors {
  import opened RealAlgebra

  const ATOL: real := 0.00000001
  const RTOL: real := 0.00001

  /** np.allclose(a, -b): in every period a negates b, up to the default tolerances. */
  predicate Mirror(a: seq<real>, b: seq<real>) {
    |a| == |b| && forall t :: 0 <= t < |a| ==> Abs(a[t] + b[t]) <= ATOL + RTOL * Abs(b[t])
  }

  /** The loops have compared column a with column b: everything before (i, j). */
  ghost predicate Compared(a: nat, b: nat, i: nat, j: nat) {
    a < b && (a < i || (a == i && b < j))
  }

  /** No two kept columns that were compared mirror each other. */
  ghost predicate Unmirrored(columns: seq<seq<real>>, keep: seq<bool>, i: nat, j: nat)
    requires |keep| == |columns|
  {
    forall a, b :: 0 <= a < |keep| && 0 <= b < |keep| && Compared(a, b, i, j) && keep[a] && keep[b] ==>
      !Mirror(columns[a], columns[b])
  }

  /** why[b] is the kept column for which b was dropped. */
  ghost predicate Justified(columns: seq<seq<real>>, keep: seq<bool>, why: seq<nat>, i: nat)
    requires |keep| == |columns|
  {
    |why| == |keep| && forall b :: 0 <= b < |keep| && !keep[b] ==>
      why[b] < b && why[b] <= i && keep[why[b]] && Mirror(columns[why[b]], columns[b])
  }

  lemma Drop(columns: seq<seq<real>>, keep: seq<bool>, why: seq<nat>, i: nat, j: nat)
    requires |keep| == |columns| && i < j < |keep| && keep[i]
    requires Unmirrored(columns, keep, i, j) && Justified(columns, keep, why, i) && Mirror(columns[i], columns[j])
    ensures Unmirrored(columns, keep[j := false], i, j + 1)
    ensures Justified(columns, keep[j := false], why[j := i], i)
  {
  }

  lemma Pass(columns: seq<seq<real>>, keep: seq<bool>, i: nat, j: nat)
    requires |keep| == |columns| && i < j < |keep| && Unmirrored(columns, keep, i, j)
    requires !(keep[j] && Mirror(columns[i], columns[j]))
    ensures Unmirrored(columns, keep, i, j + 1)
  {
  }

  /** The dropped columns, each once, in the order they were dropped. */
  ghost predicate Lists(dropped: seq<nat>, keep: seq<bool>) {
    && (forall d :: 0 <= d < |dropped| ==> dropped[d] < |keep| && !keep[dropped[d]])
    && (forall b: nat :: b < |keep| && !keep[b] ==> b in dropped)
    && (forall c, d :: 0 <= c < d < |dropped| ==> dropped[c] != dropped[d])
  }

  lemma ListsGrow(dropped: seq<nat>, keep: seq<bool>, j: nat)
    requires Lists(dropped, keep) && j < |keep| && keep[j]
    ensures Lists(dropped + [j], keep[j := false])
  {
  }

  /** A finished row of comparisons; a dropped column needs none. */
  lemma NextColumn(columns: seq<seq<real>>, keep: seq<bool>, i: nat)
    requires |keep| == |columns| && i < |keep|
    requires Unmirrored(columns, keep, i, if keep[i] then |keep| else i + 1)
    ensures Unmirrored(columns, keep, i + 1, i + 2)
  {
    forall a, b | 0 <= a < |keep| && 0 <= b < |keep| && Compared(a, b, i + 1, i + 2) && keep[a] && keep[b]
      ensures !Mirror(columns[a], columns[b])
    {
      assert Compared(a, b, i, if keep[i] then |keep| else i + 1);
    }
  }

  /** What the loops keep: no two kept columns compared so far mirror each other, every dropped
      one has its mirror kept, and the list of dropped columns is exact. */
  ghost predicate Progress(columns: seq<seq<real>>, keep: seq<bool>, why: seq<nat>, dropped: seq<nat>, i: nat, j: nat) {
    && |keep| == |columns| && Unmirrored(columns, keep, i, j) && Justified(columns, keep, why, i)
    && Lists(dropped, keep)
  }

  lemma AllCompared(columns: seq<seq<real>>, keep: seq<bool>, why: seq<nat>, dropped: seq<nat>)
    requires Progress(columns, keep, why, dropped, |keep|, |keep| + 1)
    ensures forall a, b :: 0 <= a < b < |keep| && keep[a] && keep[b] ==> !Mirror(columns[a], columns[b])
    ensures forall b :: 0 <= b < |keep| && !keep[b] ==>
              exists a :: 0 <= a < b && keep[a] && Mirror(columns[a], columns[b])
  {
    forall a, b | 0 <= a < b < |keep| && keep[a] && keep[b] ensures !Mirror(columns[a], columns[b]) {
      assert Compared(a, b, |keep|, |keep| + 1);
    }
    forall b | 0 <= b < |keep| && !keep[b]
      ensures exists a :: 0 <= a < b && keep[a] && Mirror(columns[a], columns[b])
    {
      assert Mirror(columns[why[b]], columns[b]);
    }
  }

  /** The inner loop: drops every later mirror of column i. */
  method DropMirrorsOf(columns: seq<seq<real>>, keep: array<bool>, i: nat, ghost why0: seq<nat>, dropped0: seq<nat>)
    returns (ghost why: seq<nat>, dropped: seq<nat>)
    requires keep.Length == |columns| && i < keep.Length && keep[i]
    requires Progress(columns, keep[..], why0, dropped0, i, i + 1)
    modifies keep
    ensures keep[i] && Progress(columns, keep[..], why, dropped, i, keep.Length)
  {
    why, dropped := why0, dropped0;
    for j := i + 1 to keep.Length
      invariant keep[i] && Progress(columns, keep[..], why, dropped, i, j)
    {
      if keep[j] && Mirror(columns[i], columns[j]) {
        Drop(columns, keep[..], why, i, j);
        ListsGrow(dropped, keep[..], j);
        ghost var before := keep[..];
        keep[j] := false;
        assert keep[..] == before[j := false];
        why := why[j := i];
        dropped := dropped + [j];
      } else {
        Pass(columns, keep[..], i, j);
      }
    }
  }

  /** What stays holds no mirror pair, what goes had its mirror kept, and the list of dropped
      rules is exactly what went. */
  method DropMirrors(columns: seq<seq<real>>) returns (kept: seq<bool>, dropped: seq<nat>)
    ensures |kept| == |columns| && Lists(dropped, kept)
    ensures forall a, b :: 0 <= a < b < |kept| && kept[a] && kept[b] ==> !Mirror(columns[a], columns[b])
    ensures forall b :: 0 <= b < |kept| && !kept[b] ==>
              exists a :: 0 <= a < b && kept[a] && Mirror(columns[a], columns[b])
  {
    var n := |columns|;
    var keep := new bool[n](_ => true);
    ghost var why: seq<nat> := seq(n, _ => 0);
    dropped := [];
    for i := 0 to n
      invariant Progress(columns, keep[..], why, dropped, i, i + 1)
    {
      if keep[i] {
        why, dropped := DropMirrorsOf(columns, keep, i, why, dropped);
      }
      NextColumn(columns, keep[..], i);
    }
    kept := keep[..];
    AllCompared(columns, kept, why, dropped);
  }

  function Negated(a: seq<real>): seq<real> {
    seq(|a|, t requires 0 <= t < |a| => -a[t])
  }

  /** An exact negation is always a mirror, and a rule mirrors itself only if it is as good as
      zero throughout. */
  lemma MirrorsNegate(a: seq<real>)
    ensures Mirror(a, Negated(a)) && Mirror(Negated(a), a)
    ensures Mirror(a, a) <==> forall t :: 0 <= t < |a| ==> Abs(a[t]) * (2.0 - RTOL) <= ATOL
  {
    forall t | 0 <= t < |a| ensures Abs(a[t] + a[t]) <= ATOL + RTOL * Abs(a[t]) <==> Abs(a[t]) * (2.0 - RTOL) <= ATOL {
    }
  }
}
