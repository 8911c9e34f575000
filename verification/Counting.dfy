/** How many entries of a sequence satisfy a predicate. */
module Counting {

  function Count<T>(xs: seq<T>, p: T -> bool): nat {
    if xs == [] then 0 else Count(xs[..|xs| - 1], p) + if p(xs[|xs| - 1]) then 1 else 0
  }

  lemma CountSnoc<T>(xs: seq<T>, x: T, p: T -> bool)
    ensures Count(xs + [x], p) == Count(xs, p) + (if p(x) then 1 else 0)
  {
    assert (xs + [x])[..|xs|] == xs;
  }

  lemma {:induction false} CountConcat<T>(xs: seq<T>, ys: seq<T>, p: T -> bool)
    ensures Count(xs + ys, p) == Count(xs, p) + Count(ys, p)
    decreases |ys|
  {
    if ys == [] {
      assert xs + ys == xs;
    } else {
      var k := |ys| - 1;
      CountConcat(xs, ys[..k], p);
      assert xs + ys == (xs + ys[..k]) + [ys[k]];
      CountSnoc(xs + ys[..k], ys[k], p);
    }
  }

  lemma {:induction false} CountAll<T>(xs: seq<T>, p: T -> bool)
    requires forall x :: x in xs ==> p(x)
    ensures Count(xs, p) == |xs|
    decreases |xs|
  {
    if xs != [] {
      CountAll(xs[..|xs| - 1], p);
    }
  }

  lemma {:induction false} CountNone<T>(xs: seq<T>, p: T -> bool)
    requires forall x :: x in xs ==> !p(x)
    ensures Count(xs, p) == 0
    decreases |xs|
  {
    if xs != [] {
      CountNone(xs[..|xs| - 1], p);
    }
  }

  lemma CountInThree<T>(xs: seq<T>, i: nat, j: nat, p: T -> bool)
    requires i <= j <= |xs|
    ensures Count(xs, p) == Count(xs[..i], p) + Count(xs[i..j], p) + Count(xs[j..], p)
  {
    assert xs[..j] == xs[..i] + xs[i..j];
    CountConcat(xs[..i], xs[i..j], p);
    assert xs == xs[..j] + xs[j..];
    CountConcat(xs[..j], xs[j..], p);
  }

  lemma CountSingle<T>(x: T, p: T -> bool)
    ensures Count([x], p) == if p(x) then 1 else 0
  {
    assert [x] == [] + [x];
    CountSnoc([], x, p);
  }

  lemma CountRemoved<T>(ys: seq<T>, k: nat, p: T -> bool)
    requires k < |ys|
    ensures Count(ys, p) == Count(ys[..k] + ys[k + 1..], p) + (if p(ys[k]) then 1 else 0)
  {
    CountInThree(ys, k, k + 1, p);
    assert ys[k..k + 1] == [ys[k]];
    CountSingle(ys[k], p);
    CountConcat(ys[..k], ys[k + 1..], p);
  }

  lemma CancelOne<T>(a: multiset<T>, b: multiset<T>, x: T)
    requires a + multiset{x} == b + multiset{x}
    ensures a == b
  {
    assert a == (a + multiset{x}) - multiset{x};
    assert b == (b + multiset{x}) - multiset{x};
  }

  lemma WithoutLast<T>(xs: seq<T>)
    requires xs != []
    ensures multiset(xs) == multiset(xs[..|xs| - 1]) + multiset{xs[|xs| - 1]}
  {
    assert xs == xs[..|xs| - 1] + [xs[|xs| - 1]];
  }

  lemma WithoutAt<T>(ys: seq<T>, k: nat)
    requires k < |ys|
    ensures multiset(ys) == multiset(ys[..k] + ys[k + 1..]) + multiset{ys[k]}
  {
    assert ys == (ys[..k] + [ys[k]]) + ys[k + 1..];
  }

  lemma RemovedMatch<T>(xs: seq<T>, ys: seq<T>, k: nat)
    requires xs != [] && multiset(xs) == multiset(ys) && k < |ys| && ys[k] == xs[|xs| - 1]
    ensures multiset(xs[..|xs| - 1]) == multiset(ys[..k] + ys[k + 1..])
  {
    WithoutLast(xs);
    WithoutAt(ys, k);
    CancelOne(multiset(xs[..|xs| - 1]), multiset(ys[..k] + ys[k + 1..]), ys[k]);
  }

  /** A count does not depend on the order. */
  lemma {:induction false} CountPermutes<T>(xs: seq<T>, ys: seq<T>, p: T -> bool)
    requires multiset(xs) == multiset(ys)
    ensures Count(xs, p) == Count(ys, p)
    decreases |xs|
  {
    if xs == [] {
      assert |multiset(ys)| == 0;
    } else {
      assert xs[|xs| - 1] in multiset(ys);
      var k :| 0 <= k < |ys| && ys[k] == xs[|xs| - 1];
      RemovedMatch(xs, ys, k);
      CountPermutes(xs[..|xs| - 1], ys[..k] + ys[k + 1..], p);
      CountRemoved(ys, k, p);
    }
  }

  lemma {:induction false} CountAtMost<T>(xs: seq<T>, p: T -> bool)
    ensures Count(xs, p) <= |xs|
    decreases |xs|
  {
    if xs != [] {
      CountAtMost(xs[..|xs| - 1], p);
    }
  }

  lemma {:induction false} CountIsFull<T>(xs: seq<T>, p: T -> bool)
    ensures Count(xs, p) == |xs| <==> forall i :: 0 <= i < |xs| ==> p(xs[i])
    decreases |xs|
  {
    if xs != [] {
      CountAtMost(xs[..|xs| - 1], p);
      CountIsFull(xs[..|xs| - 1], p);
    }
  }
}
