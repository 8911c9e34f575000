/** Sums over sequences of reals. Sums peel the last element, as loops append. */
module RealSeq {

  function Sum(s: seq<real>): real {
    if s == [] then 0.0 else Sum(s[..|s| - 1]) + s[|s| - 1]
  }

  lemma SumSnoc(s: seq<real>, x: real)
    ensures Sum(s + [x]) == Sum(s) + x
  {
    assert (s + [x])[..|s|] == s;
  }

  lemma {:induction false} SumConcat(a: seq<real>, b: seq<real>)
    ensures Sum(a + b) == Sum(a) + Sum(b)
    decreases |b|
  {
    if b == [] {
      assert a + b == a;
    } else {
      var k := |b| - 1;
      SumConcat(a, b[..k]);
      assert a + b == (a + b[..k]) + [b[k]];
      SumSnoc(a + b[..k], b[k]);
    }
  }

  /** Termwise order carries over to the sums. */
  lemma {:induction false} SumMono(a: seq<real>, b: seq<real>)
    requires |a| == |b| && forall i :: 0 <= i < |a| ==> a[i] <= b[i]
    ensures Sum(a) <= Sum(b)
    decreases |a|
  {
    if a != [] {
      var k := |a| - 1;
      SumMono(a[..k], b[..k]);
      assert a[k] <= b[k];
    }
  }

  /** Sums are linear: termwise c[i] == p * a[i] + q * b[i] carries over to the sums. */
  lemma {:induction false} SumLinear(a: seq<real>, b: seq<real>, c: seq<real>, p: real, q: real)
    requires |a| == |b| == |c| && forall i :: 0 <= i < |a| ==> c[i] == p * a[i] + q * b[i]
    ensures Sum(c) == p * Sum(a) + q * Sum(b)
    decreases |a|
  {
    if a == [] {
      assert p * Sum(a) + q * Sum(b) == 0.0;
    } else {
      var k := |a| - 1;
      SumLinear(a[..k], b[..k], c[..k], p, q);
      assert c[k] == p * a[k] + q * b[k];
      var x, y := Sum(a[..k]), Sum(b[..k]);
      assert p * (x + a[k]) == p * x + p * a[k] && q * (y + b[k]) == q * y + q * b[k];
    }
  }

  lemma SumScaled(a: seq<real>, c: seq<real>, p: real)
    requires |a| == |c| && forall i :: 0 <= i < |a| ==> c[i] == p * a[i]
    ensures Sum(c) == p * Sum(a)
  {
    SumLinear(a, a, c, p, 0.0);
  }

  lemma {:induction false} SumNonNegative(a: seq<real>)
    requires forall i :: 0 <= i < |a| ==> a[i] >= 0.0
    ensures Sum(a) >= 0.0
    decreases |a|
  {
    if a != [] {
      SumNonNegative(a[..|a| - 1]);
      assert a[|a| - 1] >= 0.0;
    }
  }

  lemma {:induction false} SumConstant(a: seq<real>, c: real)
    requires forall i :: 0 <= i < |a| ==> a[i] == c
    ensures Sum(a) == |a| as real * c
    decreases |a|
  {
    if a != [] {
      SumConstant(a[..|a| - 1], c);
      assert |a| as real == (|a| - 1) as real + 1.0;
      assert a[|a| - 1] == c;
    }
  }

  /** The sum of f along a sequence of anything. */
  function SumBy<T>(xs: seq<T>, f: T -> real): real {
    if xs == [] then 0.0 else SumBy(xs[..|xs| - 1], f) + f(xs[|xs| - 1])
  }

  lemma SumBySnoc<T>(xs: seq<T>, x: T, f: T -> real)
    ensures SumBy(xs + [x], f) == SumBy(xs, f) + f(x)
  {
    assert (xs + [x])[..|xs|] == xs;
  }

  lemma {:induction false} SumByMono<T>(xs: seq<T>, f: T -> real, g: T -> real)
    requires forall x :: x in xs ==> f(x) <= g(x)
    ensures SumBy(xs, f) <= SumBy(xs, g)
    decreases |xs|
  {
    if xs != [] {
      SumByMono(xs[..|xs| - 1], f, g);
      assert xs[|xs| - 1] in xs;
    }
  }

  lemma {:induction false} SumByScaled<T>(xs: seq<T>, f: T -> real, g: T -> real, m: real)
    requires forall x :: x in xs ==> g(x) == m * f(x)
    ensures SumBy(xs, g) == m * SumBy(xs, f)
    decreases |xs|
  {
    if xs == [] {
      assert m * SumBy(xs, f) == 0.0;
    } else {
      var front, last := xs[..|xs| - 1], xs[|xs| - 1];
      SumByScaled(front, f, g, m);
      assert last in xs;
      var a, b := SumBy(front, f), f(last);
      assert m * (a + b) == m * a + m * b;
    }
  }
}
