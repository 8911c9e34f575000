/** The forward and backward recursions of a hidden Markov chain, in linear space, against the
    sums over all state paths (research/volregime.py, _forward_backward). */
module HmmChain {
  import opened RealAlgebra
  import opened PathSums

  /** k states; emit(t, s) is the likelihood of the t-th observation in state s. */
  datatype Chain = Chain(k: nat, init: nat -> real, step: (nat, nat) -> real, emit: (nat, nat) -> real)

  ghost predicate Positive(c: Chain) {
    && c.k >= 1
    && (forall s :: c.init(s) > 0.0)
    && (forall i, j :: c.step(i, j) > 0.0)
    && (forall t, s :: c.emit(t, s) > 0.0)
  }

  // ---------------------------------------------------------------------------
  // Sums over states
  // ---------------------------------------------------------------------------

  /** The sum of f over the first j states. */
  function StateSum(f: nat -> real, j: nat): real {
    if j == 0 then 0.0 else StateSum(f, j - 1) + f(j - 1)
  }

  lemma {:induction false} SameStates(f: nat -> real, g: nat -> real, j: nat)
    requires forall i :: 0 <= i < j ==> f(i) == g(i)
    ensures StateSum(f, j) == StateSum(g, j)
    decreases j
  {
    if j > 0 {
      SameStates(f, g, j - 1);
    }
  }

  lemma {:induction false} ScaleStates(f: nat -> real, g: nat -> real, m: real, j: nat)
    requires forall i :: 0 <= i < j ==> g(i) == m * f(i)
    ensures StateSum(g, j) == m * StateSum(f, j)
    decreases j
  {
    if j > 0 {
      ScaleStates(f, g, m, j - 1);
      Distribute(m, StateSum(f, j - 1), f(j - 1));
    } else {
      assert m * 0.0 == 0.0;
    }
  }

  lemma {:induction false} PositiveStates(f: nat -> real, j: nat)
    requires forall i :: 0 <= i < j ==> f(i) > 0.0
    ensures j > 0 ==> StateSum(f, j) > 0.0
    decreases j
  {
    if j > 0 {
      PositiveStates(f, j - 1);
    }
  }

  // ---------------------------------------------------------------------------
  // Path weights
  // ---------------------------------------------------------------------------

  /** The joint weight of a path and the observations up to its end. */
  function Weight(c: Chain, q: Path): real {
    if |q| == 0 then 1.0
    else if |q| == 1 then c.init(q[0]) * c.emit(0, q[0])
    else
      var t := |q| - 1;
      Weight(c, q[..t]) * c.step(q[t - 1], q[t]) * c.emit(t, q[t])
  }

  function WeightOf(c: Chain): Path -> real {
    (q: Path) => Weight(c, q)
  }

  /** f restricted to the paths that are in state s at time t. */
  function Where(t: nat, s: nat, f: Path -> real): Path -> real {
    (q: Path) => if t < |q| && q[t] == s then f(q) else 0.0
  }

  /** The brute force: the summed weight of all k^n paths of length n. */
  function TotalWeight(c: Chain, n: nat): real {
    PathSum(c.k, [], n, WeightOf(c))
  }

  /** Of those, the ones in state s at time t. */
  function WeightAt(c: Chain, n: nat, t: nat, s: nat): real {
    PathSum(c.k, [], n, Where(t, s, WeightOf(c)))
  }

  /** Of those, the ones that step from i at time t to j. */
  function WeightThrough(c: Chain, n: nat, t: nat, i: nat, j: nat): real {
    PathSum(c.k, [], n, Where(t, i, Where(t + 1, j, WeightOf(c))))
  }

  lemma WeightSnoc(c: Chain, r: Path, s: nat)
    requires |r| >= 1
    ensures Weight(c, r + [s]) == Weight(c, r) * c.step(r[|r| - 1], s) * c.emit(|r|, s)
  {
    assert (r + [s])[..|r|] == r;
  }

  // ---------------------------------------------------------------------------
  // Forward
  // ---------------------------------------------------------------------------

  function Forward(c: Chain, t: nat, s: nat): real
    decreases t, 1
  {
    if t == 0 then c.init(s) * c.emit(0, s)
    else c.emit(t, s) * StateSum(Into(c, t, s), c.k)
  }

  function Into(c: Chain, t: nat, s: nat): nat -> real
    requires t > 0
    decreases t, 0
  {
    (j: nat) => c.step(j, s) * Forward(c, t - 1, j)
  }

  function ForwardAt(c: Chain, t: nat): nat -> real {
    (s: nat) => Forward(c, t, s)
  }

  /** Paths whose last state is below i, weighted by their step into s. */
  function FromBelow(c: Chain, t: nat, s: nat, i: nat): Path -> real {
    (r: Path) => if |r| == t && t > 0 && r[t - 1] < i then c.step(r[t - 1], s) * Weight(c, r) else 0.0
  }

  function FromExactly(c: Chain, t: nat, s: nat, i: nat): Path -> real {
    (r: Path) => if |r| == t && t > 0 && r[t - 1] == i then c.step(i, s) * Weight(c, r) else 0.0
  }

  lemma {:induction false} ZeroSum(k: nat, prefix: Path, n: nat, f: Path -> real)
    requires forall q :: Extends(k, prefix, n, q) ==> f(q) == 0.0
    ensures PathSum(k, prefix, n, f) == 0.0
  {
    SumAdds(k, prefix, n, f, f, f);
  }

  /** The path sum of the weighted arrivals is the forward recursion's inner sum. */
  lemma {:induction false} ArrivalsBelow(c: Chain, t: nat, s: nat, i: nat)
    requires t > 0 && i <= c.k
    ensures PathSum(c.k, [], t, FromBelow(c, t, s, i)) == StateSum(Into(c, t, s), i)
    decreases t, 0, i
  {
    if i == 0 {
      ZeroSum(c.k, [], t, FromBelow(c, t, s, 0));
    } else {
      ArrivalsBelow(c, t, s, i - 1);
      var f, g, h := FromBelow(c, t, s, i - 1), FromExactly(c, t, s, i - 1), FromBelow(c, t, s, i);
      SumAdds(c.k, [], t, f, g, h);
      ForwardIsPathSum(c, t - 1, i - 1);
      var e := Where(t - 1, i - 1, WeightOf(c));
      forall r | Extends(c.k, [], t, r) ensures g(r) == c.step(i - 1, s) * e(r) {
        if r[t - 1] != i - 1 {
          assert c.step(i - 1, s) * 0.0 == 0.0;
        }
      }
      SumScales(c.k, [], t, e, g, c.step(i - 1, s));
    }
  }

  /** The unscaled forward variable is the summed weight of every path ending in s. */
  lemma {:induction false} ForwardIsPathSum(c: Chain, t: nat, s: nat)
    requires s < c.k
    ensures WeightAt(c, t + 1, t, s) == Forward(c, t, s)
    decreases t, 1
  {
    var f := Where(t, s, WeightOf(c));
    if t == 0 {
      OnlyBranch(c.k, [], f, s, c.k);
      assert [] + [s] == [s];
    } else {
      SumSplits(c.k, [], t, 1, f);
      var arrivals, below := Then(c.k, 1, f), FromBelow(c, t, s, c.k);
      forall r | Extends(c.k, [], t, r) ensures arrivals(r) == c.emit(t, s) * below(r) {
        OnlyBranch(c.k, r, f, s, c.k);
        WeightSnoc(c, r, s);
        ArrivalProduct(Weight(c, r), c.step(r[t - 1], s), c.emit(t, s));
      }
      SumScales(c.k, [], t, below, arrivals, c.emit(t, s));
      ArrivalsBelow(c, t, s, c.k);
    }
  }

  lemma ArrivalProduct(w: real, a: real, b: real)
    ensures w * a * b == b * (a * w)
  {
  }

  // ---------------------------------------------------------------------------
  // Backward
  // ---------------------------------------------------------------------------

  /** The summed weight of every continuation by n steps from state s at time t. */
  function Backward(c: Chain, t: nat, s: nat, n: nat): real
    decreases n, 1
  {
    if n == 0 then 1.0 else StateSum(Onward(c, t, s, n), c.k)
  }

  function Onward(c: Chain, t: nat, s: nat, n: nat): nat -> real
    requires n > 0
    decreases n, 0
  {
    (j: nat) => c.step(s, j) * c.emit(t + 1, j) * Backward(c, t + 1, j, n - 1)
  }

  lemma {:induction false} BackwardIsPathSum(c: Chain, prefix: Path, n: nat)
    requires |prefix| >= 1
    ensures PathSum(c.k, prefix, n, WeightOf(c))
            == Weight(c, prefix) * Backward(c, |prefix| - 1, prefix[|prefix| - 1], n)
    decreases n, c.k + 1
  {
    if n > 0 {
      BackwardBranches(c, prefix, n, c.k);
    }
  }

  lemma {:induction false} BackwardBranches(c: Chain, prefix: Path, n: nat, j: nat)
    requires |prefix| >= 1 && n > 0 && j <= c.k
    ensures var t := |prefix| - 1;
            Branches(c.k, prefix, n, WeightOf(c), j) == Weight(c, prefix) * StateSum(Onward(c, t, prefix[t], n), j)
    decreases n, j
  {
    var t, w := |prefix| - 1, Weight(c, prefix);
    var s := prefix[t];
    if j == 0 {
      assert w * 0.0 == 0.0;
    } else {
      BackwardBranches(c, prefix, n, j - 1);
      BackwardIsPathSum(c, prefix + [j - 1], n - 1);
      BranchWeight(c, prefix, n, j - 1);
      Distribute(w, StateSum(Onward(c, t, s, n), j - 1), Onward(c, t, s, n)(j - 1));
    }
  }

  lemma BranchWeight(c: Chain, prefix: Path, n: nat, j: nat)
    requires |prefix| >= 1 && n > 0
    ensures var t := |prefix| - 1;
            Weight(c, prefix + [j]) * Backward(c, t + 1, j, n - 1) == Weight(c, prefix) * Onward(c, t, prefix[t], n)(j)
  {
    var t := |prefix| - 1;
    WeightSnoc(c, prefix, j);
    OnwardProduct(Weight(c, prefix), c.step(prefix[t], j), c.emit(t + 1, j), Backward(c, t + 1, j, n - 1));
  }

  lemma OnwardProduct(w: real, a: real, b: real, r: real)
    ensures w * a * b * r == w * (a * b * r)
  {
  }

  // ---------------------------------------------------------------------------
  // Forward and backward together
  // ---------------------------------------------------------------------------

  /** The weight of the paths of length n in state s at time t factors at t. */
  lemma WeightAtFactors(c: Chain, n: nat, t: nat, s: nat)
    requires t < n && s < c.k
    ensures WeightAt(c, n, t, s) == Backward(c, t, s, n - 1 - t) * Forward(c, t, s)
  {
    var f, w, tail := Where(t, s, WeightOf(c)), WeightOf(c), n - 1 - t;
    SumSplits(c.k, [], t + 1, tail, f);
    var after := Then(c.k, tail, f);
    forall q | Extends(c.k, [], t + 1, q) ensures after(q) == Backward(c, t, s, tail) * f(q) {
      if q[t] == s {
        SameSum(c.k, q, tail, f, w);
        BackwardIsPathSum(c, q, tail);
        assert Weight(c, q) * Backward(c, t, s, tail) == Backward(c, t, s, tail) * Weight(c, q);
      } else {
        ZeroSum(c.k, q, tail, f);
        assert Backward(c, t, s, tail) * 0.0 == 0.0;
      }
    }
    SumScales(c.k, [], t + 1, f, after, Backward(c, t, s, tail));
    ForwardIsPathSum(c, t, s);
  }

  /** The weight of one transition: everything before it, the step, everything after it. */
  function Crossing(c: Chain, t: nat, i: nat, j: nat, n: nat): real
    requires t + 1 < n
  {
    Forward(c, t, i) * c.step(i, j) * c.emit(t + 1, j) * Backward(c, t + 1, j, n - 2 - t)
  }

  lemma WeightThroughFactors(c: Chain, n: nat, t: nat, i: nat, j: nat)
    requires t + 1 < n && i < c.k && j < c.k
    ensures WeightThrough(c, n, t, i, j) == Crossing(c, t, i, j, n)
  {
    var tail, b := n - 2 - t, Backward(c, t + 1, j, n - 2 - t);
    var f := Where(t, i, Where(t + 1, j, WeightOf(c)));
    SumSplits(c.k, [], t + 2, tail, f);
    var after := Then(c.k, tail, f);
    forall q | Extends(c.k, [], t + 2, q) ensures after(q) == b * f(q) {
      if q[t] == i && q[t + 1] == j {
        SameSum(c.k, q, tail, f, WeightOf(c));
        BackwardIsPathSum(c, q, tail);
        assert Weight(c, q) * b == b * Weight(c, q);
      } else {
        ZeroSum(c.k, q, tail, f);
        assert b * 0.0 == 0.0;
      }
    }
    SumScales(c.k, [], t + 2, f, after, b);
    StepWeight(c, t, i, j);
    assert b * (c.step(i, j) * c.emit(t + 1, j) * Forward(c, t, i)) == Crossing(c, t, i, j, n);
  }

  lemma StepWeight(c: Chain, t: nat, i: nat, j: nat)
    requires i < c.k && j < c.k
    ensures PathSum(c.k, [], t + 2, Where(t, i, Where(t + 1, j, WeightOf(c))))
            == c.step(i, j) * c.emit(t + 1, j) * Forward(c, t, i)
  {
    var f, e := Where(t, i, Where(t + 1, j, WeightOf(c))), Where(t, i, WeightOf(c));
    var m := c.step(i, j) * c.emit(t + 1, j);
    SumSplits(c.k, [], t + 1, 1, f);
    var stepped := Then(c.k, 1, f);
    forall r | Extends(c.k, [], t + 1, r) ensures stepped(r) == m * e(r) {
      SteppedPath(c, t, i, j, r, m);
    }
    SumScales(c.k, [], t + 1, e, stepped, m);
    ForwardIsPathSum(c, t, i);
  }

  lemma SteppedPath(c: Chain, t: nat, i: nat, j: nat, r: Path, m: real)
    requires i < c.k && j < c.k && |r| == t + 1 && m == c.step(i, j) * c.emit(t + 1, j)
    ensures Branches(c.k, r, 1, Where(t, i, Where(t + 1, j, WeightOf(c))), c.k) == m * Where(t, i, WeightOf(c))(r)
  {
    OnlyBranch(c.k, r, Where(t, i, Where(t + 1, j, WeightOf(c))), j, c.k);
    if r[t] == i {
      WeightSnoc(c, r, j);
      ArrivalProduct(Weight(c, r), c.step(i, j), c.emit(t + 1, j));
      assert c.emit(t + 1, j) * (c.step(i, j) * Weight(c, r)) == m * Weight(c, r);
    } else {
      assert m * 0.0 == 0.0;
    }
  }

  // ---------------------------------------------------------------------------
  // Partition by the state at one time
  // ---------------------------------------------------------------------------

  function WhereBelow(t: nat, i: nat, f: Path -> real): Path -> real {
    (q: Path) => if t < |q| && q[t] < i then f(q) else 0.0
  }

  function PartAt(k: nat, n: nat, t: nat, f: Path -> real): nat -> real {
    (s: nat) => PathSum(k, [], n, Where(t, s, f))
  }

  lemma {:induction false} PartsBelow(k: nat, n: nat, t: nat, f: Path -> real, i: nat)
    requires t < n && i <= k
    ensures PathSum(k, [], n, WhereBelow(t, i, f)) == StateSum(PartAt(k, n, t, f), i)
    decreases i
  {
    if i == 0 {
      ZeroSum(k, [], n, WhereBelow(t, 0, f));
    } else {
      PartsBelow(k, n, t, f, i - 1);
      SumAdds(k, [], n, WhereBelow(t, i - 1, f), Where(t, i - 1, f), WhereBelow(t, i, f));
    }
  }

  /** Every path is in exactly one state at time t. */
  lemma PartsAddUp(k: nat, n: nat, t: nat, f: Path -> real)
    requires t < n
    ensures StateSum(PartAt(k, n, t, f), k) == PathSum(k, [], n, f)
  {
    PartsBelow(k, n, t, f, k);
    SameSum(k, [], n, WhereBelow(t, k, f), f);
  }

  lemma {:induction false} ForwardPositive(c: Chain, t: nat, s: nat)
    requires Positive(c)
    ensures Forward(c, t, s) > 0.0
    decreases t
  {
    if t == 0 {
      MulPos(c.init(s), c.emit(0, s), Forward(c, t, s));
    } else {
      var f := Into(c, t, s);
      forall j | 0 <= j < c.k ensures f(j) > 0.0 {
        ForwardPositive(c, t - 1, j);
        MulPos(c.step(j, s), Forward(c, t - 1, j), f(j));
      }
      PositiveStates(f, c.k);
      MulPos(c.emit(t, s), StateSum(f, c.k), Forward(c, t, s));
    }
  }

  /** The brute-force total is the last forward row, and it is positive. */
  lemma TotalIsForward(c: Chain, t: nat)
    requires Positive(c)
    ensures TotalWeight(c, t + 1) == StateSum(ForwardAt(c, t), c.k) > 0.0
  {
    PartsAddUp(c.k, t + 1, t, WeightOf(c));
    forall s | 0 <= s < c.k ensures PartAt(c.k, t + 1, t, WeightOf(c))(s) == ForwardAt(c, t)(s) > 0.0 {
      ForwardIsPathSum(c, t, s);
      ForwardPositive(c, t, s);
    }
    SameStates(PartAt(c.k, t + 1, t, WeightOf(c)), ForwardAt(c, t), c.k);
    PositiveStates(ForwardAt(c, t), c.k);
  }
}
