/** Sums over all state paths: the brute force that the forward-backward recursions of
    research/volregime.py must reproduce. */
module PathSums {
  import opened RealAlgebra

  /** A path is the list of states visited, each below the number of states. */
  type Path = seq<nat>

  /** The sum of f over every extension of the prefix by n more states, each below k: k^n terms. */
  function PathSum(k: nat, prefix: Path, n: nat, f: Path -> real): real
    decreases n, k + 1
  {
    if n == 0 then f(prefix) else Branches(k, prefix, n, f, k)
  }

  /** The part of that sum whose next state is below j. */
  function Branches(k: nat, prefix: Path, n: nat, f: Path -> real, j: nat): real
    requires n > 0 && j <= k
    decreases n, j
  {
    if j == 0 then 0.0
    else Branches(k, prefix, n, f, j - 1) + PathSum(k, prefix + [j - 1], n - 1, f)
  }

  /** The number of extensions. */
  function Power(k: nat, n: nat): nat {
    if n == 0 then 1 else k * Power(k, n - 1)
  }

  /** The sum really ranges over k^n paths: it counts them when f is 1. */
  lemma {:induction false} CountsEveryPath(k: nat, prefix: Path, n: nat, f: Path -> real)
    requires forall q :: f(q) == 1.0
    ensures PathSum(k, prefix, n, f) == Power(k, n) as real
    decreases n, k + 1
  {
    if n > 0 {
      CountBranches(k, prefix, n, f, k);
    }
  }

  lemma {:induction false} CountBranches(k: nat, prefix: Path, n: nat, f: Path -> real, j: nat)
    requires n > 0 && j <= k && forall q :: f(q) == 1.0
    ensures Branches(k, prefix, n, f, j) == (j * Power(k, n - 1)) as real
    decreases n, j
  {
    if j > 0 {
      CountBranches(k, prefix, n, f, j - 1);
      CountsEveryPath(k, prefix + [j - 1], n - 1, f);
      assert j * Power(k, n - 1) == (j - 1) * Power(k, n - 1) + Power(k, n - 1);
    }
  }

  /** q extends the prefix by n states below k. */
  ghost predicate Extends(k: nat, prefix: Path, n: nat, q: Path) {
    |q| == |prefix| + n && prefix <= q && forall i :: |prefix| <= i < |q| ==> q[i] < k
  }

  /** A function that singles out the path q. */
  ghost predicate Singles(f: Path -> real, q: Path) {
    forall r :: f(r) == if r == q then 1.0 else 0.0
  }

  /** The sum meets every path that extends the prefix exactly once, and no other. */
  lemma {:induction false} MeetsEachPathOnce(k: nat, prefix: Path, n: nat, f: Path -> real, q: Path)
    requires Singles(f, q)
    ensures PathSum(k, prefix, n, f) == if Extends(k, prefix, n, q) then 1.0 else 0.0
    decreases n, k + 1
  {
    if n == 0 {
      assert Extends(k, prefix, 0, q) <==> prefix == q;
    } else {
      MeetsOnceBelow(k, prefix, n, f, q, k);
    }
  }

  lemma {:induction false} MeetsOnceBelow(k: nat, prefix: Path, n: nat, f: Path -> real, q: Path, j: nat)
    requires n > 0 && j <= k && Singles(f, q)
    ensures Branches(k, prefix, n, f, j) == if Extends(k, prefix, n, q) && q[|prefix|] < j then 1.0 else 0.0
    decreases n, j
  {
    if j > 0 {
      MeetsOnceBelow(k, prefix, n, f, q, j - 1);
      MeetsEachPathOnce(k, prefix + [j - 1], n - 1, f, q);
      ExtendsThrough(k, prefix, n, q, j - 1);
    }
  }

  lemma ExtendsThrough(k: nat, prefix: Path, n: nat, q: Path, s: nat)
    requires n > 0 && s < k
    ensures Extends(k, prefix + [s], n - 1, q) <==> Extends(k, prefix, n, q) && q[|prefix|] == s
  {
    if Extends(k, prefix + [s], n - 1, q) {
      ExtendsStep(k, prefix, n - 1, s, q);
      assert q[|prefix|] == (prefix + [s])[|prefix|];
    }
    if Extends(k, prefix, n, q) && q[|prefix|] == s {
      assert prefix + [s] == q[..|prefix| + 1];
    }
  }

  lemma ExtendsStep(k: nat, prefix: Path, n: nat, j: nat, q: Path)
    requires j < k && Extends(k, prefix + [j], n, q)
    ensures Extends(k, prefix, n + 1, q)
  {
    assert q[|prefix|] == (prefix + [j])[|prefix|];
    assert prefix <= prefix + [j] <= q;
  }

  /** Only the values on actual extensions matter. */
  lemma {:induction false} SameSum(k: nat, prefix: Path, n: nat, f: Path -> real, g: Path -> real)
    requires forall q :: Extends(k, prefix, n, q) ==> f(q) == g(q)
    ensures PathSum(k, prefix, n, f) == PathSum(k, prefix, n, g)
    decreases n, k + 1
  {
    if n == 0 {
      assert Extends(k, prefix, 0, prefix);
    } else {
      SameBranches(k, prefix, n, f, g, k);
    }
  }

  lemma {:induction false} SameBranches(k: nat, prefix: Path, n: nat, f: Path -> real, g: Path -> real, j: nat)
    requires n > 0 && j <= k
    requires forall q :: Extends(k, prefix, n, q) ==> f(q) == g(q)
    ensures Branches(k, prefix, n, f, j) == Branches(k, prefix, n, g, j)
    decreases n, j
  {
    if j > 0 {
      SameBranches(k, prefix, n, f, g, j - 1);
      forall q | Extends(k, prefix + [j - 1], n - 1, q) ensures f(q) == g(q) {
        ExtendsStep(k, prefix, n - 1, j - 1, q);
      }
      SameSum(k, prefix + [j - 1], n - 1, f, g);
    }
  }

  /** The sum is additive. */
  lemma {:induction false} SumAdds(k: nat, prefix: Path, n: nat, f: Path -> real, g: Path -> real, h: Path -> real)
    requires forall q :: Extends(k, prefix, n, q) ==> h(q) == f(q) + g(q)
    ensures PathSum(k, prefix, n, h) == PathSum(k, prefix, n, f) + PathSum(k, prefix, n, g)
    decreases n, k + 1
  {
    if n == 0 {
      assert Extends(k, prefix, 0, prefix);
    } else {
      BranchesAdd(k, prefix, n, f, g, h, k);
    }
  }

  lemma {:induction false} BranchesAdd(k: nat, prefix: Path, n: nat, f: Path -> real, g: Path -> real,
          h: Path -> real, j: nat)
    requires n > 0 && j <= k
    requires forall q :: Extends(k, prefix, n, q) ==> h(q) == f(q) + g(q)
    ensures Branches(k, prefix, n, h, j) == Branches(k, prefix, n, f, j) + Branches(k, prefix, n, g, j)
    decreases n, j
  {
    if j > 0 {
      BranchesAdd(k, prefix, n, f, g, h, j - 1);
      forall q | Extends(k, prefix + [j - 1], n - 1, q) ensures h(q) == f(q) + g(q) {
        ExtendsStep(k, prefix, n - 1, j - 1, q);
      }
      SumAdds(k, prefix + [j - 1], n - 1, f, g, h);
    }
  }

  /** The sum is homogeneous. */
  lemma {:induction false} SumScales(k: nat, prefix: Path, n: nat, f: Path -> real, g: Path -> real, m: real)
    requires forall q :: Extends(k, prefix, n, q) ==> g(q) == m * f(q)
    ensures PathSum(k, prefix, n, g) == m * PathSum(k, prefix, n, f)
    decreases n, k + 1
  {
    if n == 0 {
      assert Extends(k, prefix, 0, prefix);
    } else {
      BranchesScale(k, prefix, n, f, g, m, k);
    }
  }

  lemma {:induction false} BranchesScale(k: nat, prefix: Path, n: nat, f: Path -> real, g: Path -> real,
          m: real, j: nat)
    requires n > 0 && j <= k
    requires forall q :: Extends(k, prefix, n, q) ==> g(q) == m * f(q)
    ensures Branches(k, prefix, n, g, j) == m * Branches(k, prefix, n, f, j)
    decreases n, j
  {
    if j > 0 {
      BranchesScale(k, prefix, n, f, g, m, j - 1);
      forall q | Extends(k, prefix + [j - 1], n - 1, q) ensures g(q) == m * f(q) {
        ExtendsStep(k, prefix, n - 1, j - 1, q);
      }
      SumScales(k, prefix + [j - 1], n - 1, f, g, m);
      Distribute(m, Branches(k, prefix, n, f, j - 1), PathSum(k, prefix + [j - 1], n - 1, f));
    } else {
      assert m * 0.0 == 0.0;
    }
  }

  /** Sum over the first a states of the sums over the last b. */
  function Then(k: nat, b: nat, f: Path -> real): Path -> real {
    (q: Path) => PathSum(k, q, b, f)
  }

  lemma {:induction false} SumSplits(k: nat, prefix: Path, a: nat, b: nat, f: Path -> real)
    ensures PathSum(k, prefix, a + b, f) == PathSum(k, prefix, a, Then(k, b, f))
    decreases a, k + 1
  {
    if a > 0 {
      BranchesSplit(k, prefix, a, b, f, k);
    }
  }

  lemma {:induction false} BranchesSplit(k: nat, prefix: Path, a: nat, b: nat, f: Path -> real, j: nat)
    requires a > 0 && j <= k
    ensures Branches(k, prefix, a + b, f, j) == Branches(k, prefix, a, Then(k, b, f), j)
    decreases a, j
  {
    if j > 0 {
      BranchesSplit(k, prefix, a, b, f, j - 1);
      SumSplits(k, prefix + [j - 1], a - 1, b, f);
    }
  }

  /** A sum in which only the branch of one next state is not zero. */
  lemma {:induction false} OnlyBranch(k: nat, prefix: Path, f: Path -> real, only: nat, j: nat)
    requires j <= k && forall i :: 0 <= i < k && i != only ==> f(prefix + [i]) == 0.0
    ensures Branches(k, prefix, 1, f, j) == if only < j then f(prefix + [only]) else 0.0
    decreases j
  {
    if j > 0 {
      OnlyBranch(k, prefix, f, only, j - 1);
    }
  }

  /** Non-negative terms sum to a non-negative total, and positive terms to a positive one. */
  lemma {:induction false} SumPositive(k: nat, prefix: Path, n: nat, f: Path -> real)
    requires k >= 1 && forall q :: Extends(k, prefix, n, q) ==> f(q) > 0.0
    ensures PathSum(k, prefix, n, f) > 0.0
    decreases n, k + 1
  {
    if n == 0 {
      assert Extends(k, prefix, 0, prefix);
    } else {
      BranchesPositive(k, prefix, n, f, k);
    }
  }

  lemma {:induction false} BranchesPositive(k: nat, prefix: Path, n: nat, f: Path -> real, j: nat)
    requires n > 0 && 1 <= j <= k && forall q :: Extends(k, prefix, n, q) ==> f(q) > 0.0
    ensures Branches(k, prefix, n, f, j) > 0.0
    decreases n, j
  {
    forall q | Extends(k, prefix + [j - 1], n - 1, q) ensures f(q) > 0.0 {
      ExtendsStep(k, prefix, n - 1, j - 1, q);
    }
    SumPositive(k, prefix + [j - 1], n - 1, f);
    if j > 1 {
      BranchesPositive(k, prefix, n, f, j - 1);
    }
  }
}
