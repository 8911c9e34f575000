/** What the multiplicity protocol keeps over one grading and over every run of gradings. */
module MultiplicityRuns {
  import opened Options
  import opened Wilson
  import opened Verdict
  import opened Multiplicity
  import opened ClusteredInterval
  import opened Admission
  import opened GradeLaws

  // ---------------------------------------------------------------------------
  // One grading
  // ---------------------------------------------------------------------------

  /** Every row is there, with the price beside it. */
  ghost predicate Priced<T>(stamped: seq<Stamped<T>>, rows: seq<T>, m: Mult) {
    |stamped| == |rows| && forall i :: 0 <= i < |rows| ==> stamped[i].row == rows[i] && stamped[i].stamp == m
  }

  /** Whatever path it takes, a grading publishes rows graded at exactly the z they are
      stamped with, and a family no smaller than the floor. */
  lemma {:induction false} PublishedAtItsOwnPrice<T>(probit: real -> real, gradeOnce: real -> seq<T>,
          looks: int, floor: int, fam: int, left: nat)
    ensures var g := Regrade(probit, gradeOnce, looks, floor, fam, left);
            && g.rows == Stamp(gradeOnce(g.mult.z), g.mult)
            && Priced(g.rows, gradeOnce(g.mult.z), g.mult)
            && g.mult == Price(probit, g.mult.familySize, looks)
            && g.mult.familySize >= MaxInt(1, MaxInt(fam, floor))
    decreases left
  {
    var m := Price(probit, MaxInt(fam, floor), looks);
    if left > 0 && |gradeOnce(m.z)| > fam {
      PublishedAtItsOwnPrice(probit, gradeOnce, looks, floor, |gradeOnce(m.z)|, left - 1);
    }
  }

  /** A run that stops on its own check charges for at least the rows it publishes. */
  lemma {:induction false} CheckedRunsAreCovered<T>(probit: real -> real, gradeOnce: real -> seq<T>,
          looks: int, floor: int, fam: int, left: nat)
    ensures var g := Regrade(probit, gradeOnce, looks, floor, fam, left);
            g.checked ==> |g.rows| <= g.mult.familySize
    decreases left
  {
    var m := Price(probit, MaxInt(fam, floor), looks);
    if left > 0 && |gradeOnce(m.z)| > fam {
      CheckedRunsAreCovered(probit, gradeOnce, looks, floor, |gradeOnce(m.z)|, left - 1);
    }
  }

  /** When the row count does not depend on z, one regrade settles it. */
  lemma ConstantRowsSettle<T>(probit: real -> real, gradeOnce: real -> seq<T>, looks: int, floor: int,
          z0: real, count: nat)
    requires forall z :: |gradeOnce(z)| == count
    ensures var g := GradeFully(probit, gradeOnce, looks, floor, z0);
            && g.checked && g.regrades == 1 && |g.rows| == count
            && g.mult == Price(probit, MaxInt(count, floor), looks)
  {
  }

  /** From a fresh process, one regrade also settles any grader whose row count can only shrink
      as intervals widen. */
  lemma ShrinkingRowsSettle<T>(probit: real -> real, gradeOnce: real -> seq<T>, looks: int, floor: int)
    requires IsProbit(probit)
    requires forall z, z' :: z <= z' ==> |gradeOnce(z')| <= |gradeOnce(z)|
    ensures var g := GradeFully(probit, gradeOnce, looks, floor, UncorrectedZ(probit));
            g.checked && g.regrades == 1
  {
    var fam := |gradeOnce(UncorrectedZ(probit))|;
    var d := Divisor(MaxInt(fam, floor), looks);
    ZGrowsWithDivisor(probit, 1, d);
  }

  /** The rows published by the i-th pass when every pass before it published more than the
      last: pass 0 is the first grade. */
  function PassRows<T>(probit: real -> real, gradeOnce: real -> seq<T>, looks: int, floor: int, z0: real, i: nat): nat {
    if i == 0 then |gradeOnce(z0)|
    else
      var fam := PassRows(probit, gradeOnce, looks, floor, z0, i - 1);
      |gradeOnce(Price(probit, MaxInt(fam, floor), looks).z)|
  }

  /** Exactly when the published rows outnumber the family they are priced for: the count grew
      on all three checked regrades, and the unchecked last pass outgrew the price again. */
  lemma UncoveredExactlyWhen<T>(probit: real -> real, gradeOnce: real -> seq<T>, looks: int, floor: int, z0: real)
    ensures var g := GradeFully(probit, gradeOnce, looks, floor, z0);
            var c0 := PassRows(probit, gradeOnce, looks, floor, z0, 0);
            var c1 := PassRows(probit, gradeOnce, looks, floor, z0, 1);
            var c2 := PassRows(probit, gradeOnce, looks, floor, z0, 2);
            var c3 := PassRows(probit, gradeOnce, looks, floor, z0, 3);
            var c4 := PassRows(probit, gradeOnce, looks, floor, z0, 4);
            |g.rows| > g.mult.familySize <==> c0 < c1 < c2 < c3 && c4 > MaxInt(c3, floor)
  {
    var c0 := PassRows(probit, gradeOnce, looks, floor, z0, 0);
    var c1 := PassRows(probit, gradeOnce, looks, floor, z0, 1);
    var c2 := PassRows(probit, gradeOnce, looks, floor, z0, 2);
    var c3 := PassRows(probit, gradeOnce, looks, floor, z0, 3);
    CheckedRunsAreCovered(probit, gradeOnce, looks, floor, c0, 3);
    if c0 < c1 {
      CheckedRunsAreCovered(probit, gradeOnce, looks, floor, c1, 2);
      if c1 < c2 {
        CheckedRunsAreCovered(probit, gradeOnce, looks, floor, c2, 1);
        if c2 < c3 {
          var g := Regrade(probit, gradeOnce, looks, floor, c3, 0);
          assert |g.rows| == PassRows(probit, gradeOnce, looks, floor, z0, 4);
        }
      }
    }
  }

  /** The family that a row count is charged for. */
  function Charge(count: nat): (family: nat)
    ensures family >= 1
  {
    if count == 0 then 1 else count
  }

  function Charges(counts: set<nat>): set<nat> {
    set c | c in counts :: Charge(c)
  }

  /** Whatever z it is given, a grading publishes one of these numbers of rows. */
  ghost predicate PublishesOneOf<T>(gradeOnce: real -> seq<T>, counts: set<nat>) {
    forall z :: |gradeOnce(z)| in counts
  }

  predicate Covered<T>(g: Grading<T>) {
    |g.rows| <= g.mult.familySize
  }

  lemma FiveAreFive(a: nat, b: nat, c: nat, d: nat, e: nat, s: set<nat>)
    requires a < b < c < d < e && {a, b, c, d, e} <= s
    ensures |s| >= 5
  {
    var five := {a, b, c, d, e};
    assert |five + (s - five)| == |five| + |s - five|;
    assert five + (s - five) == s;
  }

  lemma PassesPublish<T>(probit: real -> real, gradeOnce: real -> seq<T>, looks: int, floor: int, z0: real,
          i: nat, counts: set<nat>)
    requires PublishesOneOf(gradeOnce, counts)
    ensures PassRows(probit, gradeOnce, looks, floor, z0, i) in counts
  {
  }

  /** Graders with at most four different charges are always covered: each pass that outgrew
      the last one met a price of its own. */
  lemma FourChargesAreCovered<T>(probit: real -> real, gradeOnce: real -> seq<T>, looks: int, floor: int, z0: real,
          counts: set<nat>)
    requires PublishesOneOf(gradeOnce, counts) && |Charges(counts)| <= 4
    ensures Covered(GradeFully(probit, gradeOnce, looks, floor, z0))
  {
    var pass := (i: nat) => PassRows(probit, gradeOnce, looks, floor, z0, i);
    UncoveredExactlyWhen(probit, gradeOnce, looks, floor, z0);
    forall i: nat ensures pass(i) in counts && Charge(pass(i)) in Charges(counts) {
      PassesPublish(probit, gradeOnce, looks, floor, z0, i, counts);
    }
    if pass(0) < pass(1) < pass(2) < pass(3) < pass(4) {
      SameChargeSamePrice(probit, pass(0), pass(1), floor, looks);
      assert Charge(pass(0)) < Charge(pass(1));
      FiveAreFive(Charge(pass(0)), Charge(pass(1)), Charge(pass(2)), Charge(pass(3)), Charge(pass(4)), Charges(counts));
    }
  }

  lemma SameChargeSamePrice(probit: real -> real, c: nat, d: nat, floor: int, looks: int)
    ensures Charge(c) == Charge(d) ==> Price(probit, MaxInt(c, floor), looks) == Price(probit, MaxInt(d, floor), looks)
  {
    assert Divisor(MaxInt(c, floor), looks) == Divisor(MaxInt(Charge(c), floor), looks);
    assert Divisor(MaxInt(d, floor), looks) == Divisor(MaxInt(Charge(d), floor), looks);
  }

  lemma {:induction false} Least(s: set<nat>) returns (least: nat)
    requires s != {}
    ensures least in s && forall x :: x in s ==> least <= x
    decreases |s|
  {
    var x: nat :| x in s;
    least := x;
    if s - {x} != {} {
      var lower := Least(s - {x});
      forall y | y in s ensures y == x || lower <= y {
        assert y == x || y in s - {x};
      }
      least := if lower <= x then lower else x;
    } else {
      assert s == {x};
    }
  }

  /** The count of the least charge, and what the counts charged more than it number. */
  lemma LeastCharge(counts: set<nat>) returns (c: nat, rest: set<nat>)
    requires counts != {}
    ensures c in counts && rest <= counts && |Charges(rest)| >= |Charges(counts)| - 1
    ensures forall x :: x in rest ==> Charge(c) < Charge(x)
  {
    var some: nat :| some in counts;
    assert Charge(some) in Charges(counts);
    var least := Least(Charges(counts));
    c :| c in counts && Charge(c) == least;
    rest := set x | x in counts && Charge(x) != least;
    assert Charges(rest) == Charges(counts) - {least};
    forall x | x in rest ensures Charge(c) < Charge(x) {
      assert Charge(x) in Charges(counts);
    }
  }

  lemma FiveCharges(counts: set<nat>) returns (c: seq<nat>)
    requires |Charges(counts)| >= 5
    ensures |c| == 5 && forall i :: 0 <= i < 5 ==> c[i] in counts
    ensures Charge(c[0]) < Charge(c[1]) < Charge(c[2]) < Charge(c[3]) < Charge(c[4])
  {
    var rest := counts;
    c := [];
    for i := 0 to 5
      invariant |c| == i && rest <= counts && |Charges(rest)| >= 5 - i
      invariant forall j :: 0 <= j < i ==> c[j] in counts
      invariant forall x :: x in rest && i > 0 ==> Charge(c[i - 1]) < Charge(x)
      invariant forall j :: 0 < j < i ==> Charge(c[j - 1]) < Charge(c[j])
    {
      var least;
      least, rest := LeastCharge(rest);
      c := c + [least];
    }
  }

  /** A grader that publishes the next of five counts each time z passes the next price. */
  function Growing<T>(c: seq<nat>, price: nat -> real, row: T): real -> seq<T>
    requires |c| == 5
  {
    (z: real) => seq(if z < price(c[0]) then c[0] else if z < price(c[1]) then c[1]
                     else if z < price(c[2]) then c[2] else if z < price(c[3]) then c[3] else c[4], _ => row)
  }

  function PriceAtTwoLooks(probit: real -> real): nat -> real {
    (count: nat) => Price(probit, MaxInt(count, 1), 2).z
  }

  lemma PricesApart(probit: real -> real, c: nat, d: nat)
    requires IsStrictProbit(probit)
    ensures UncorrectedZ(probit) < PriceAtTwoLooks(probit)(c)
    ensures Charge(c) < Charge(d) ==> PriceAtTwoLooks(probit)(c) < PriceAtTwoLooks(probit)(d)
  {
    FloorIsImplied(probit, 1);
    assert Divisor(MaxInt(c, 1), 2) == 2 * Charge(c) && Divisor(MaxInt(d, 1), 2) == 2 * Charge(d);
    ZGrowsStrictly(probit, 1, 2 * Charge(c));
    if Charge(c) < Charge(d) {
      ZGrowsStrictly(probit, 2 * Charge(c), 2 * Charge(d));
    }
  }

  /** Five different charges are enough: from a fresh process, a grader that keeps outgrowing
      its price publishes rows that the family does not pay for. */
  lemma FiveChargesCanUndercharge<T>(probit: real -> real, c: seq<nat>, row: T)
    requires IsStrictProbit(probit) && |c| == 5
    requires Charge(c[0]) < Charge(c[1]) < Charge(c[2]) < Charge(c[3]) < Charge(c[4])
    ensures !Covered(GradeFully(probit, Growing(c, PriceAtTwoLooks(probit), row), 2, 1, UncorrectedZ(probit)))
  {
    var gradeOnce, z0 := Growing(c, PriceAtTwoLooks(probit), row), UncorrectedZ(probit);
    PricesApart(probit, c[0], c[1]);
    PricesApart(probit, c[1], c[2]);
    PricesApart(probit, c[2], c[3]);
    UncoveredExactlyWhen(probit, gradeOnce, 2, 1, z0);
    assert PassRows(probit, gradeOnce, 2, 1, z0, 0) == c[0];
    assert PassRows(probit, gradeOnce, 2, 1, z0, 1) == c[1];
    assert PassRows(probit, gradeOnce, 2, 1, z0, 2) == c[2];
    assert PassRows(probit, gradeOnce, 2, 1, z0, 3) == c[3];
    assert PassRows(probit, gradeOnce, 2, 1, z0, 4) == c[4];
  }

  lemma GrowingPublishes<T>(c: seq<nat>, price: nat -> real, row: T, counts: set<nat>)
    requires |c| == 5 && forall i :: 0 <= i < 5 ==> c[i] in counts
    ensures PublishesOneOf(Growing(c, price, row), counts)
  {
  }

  /** Whichever of these numbers of rows a grader publishes at which z, and whatever the looks,
      the floor and the z it starts from, the family covers the rows. */
  ghost predicate AlwaysCovered<T(!new)>(probit: real -> real, counts: set<nat>) {
    forall gradeOnce: real -> seq<T>, looks: int, floor: int, z0: real :: PublishesOneOf(gradeOnce, counts) ==>
      Covered(GradeFully(probit, gradeOnce, looks, floor, z0))
  }

  /** Main result: which graders are safe although the last pass is not checked. The family
      always covers the rows exactly when the numbers of rows that can be published are charged
      at most four ways. */
  lemma CoveredExactlyWhen<T(!new)>(probit: real -> real, counts: set<nat>, row: T)
    requires IsStrictProbit(probit)
    ensures AlwaysCovered<T>(probit, counts) <==> |Charges(counts)| <= 4
  {
    if |Charges(counts)| <= 4 {
      forall gradeOnce: real -> seq<T>, looks: int, floor: int, z0: real | PublishesOneOf(gradeOnce, counts)
        ensures Covered(GradeFully(probit, gradeOnce, looks, floor, z0))
      {
        FourChargesAreCovered(probit, gradeOnce, looks, floor, z0, counts);
      }
    } else {
      var c := FiveCharges(counts);
      GrowingPublishes(c, PriceAtTwoLooks(probit), row, counts);
      FiveChargesCanUndercharge(probit, c, row);
    }
  }

  /** A grader that publishes one more row at each of the five prices it meets. */
  function GrowingRows(z: real): seq<int> {
    if z < 0.48 then [1]
    else if z < 0.49 then [1, 2]
    else if z < 0.494 then [1, 2, 3]
    else if z < 0.496 then [1, 2, 3, 4]
    else [1, 2, 3, 4, 5]
  }

  /** The last pass can leave rows unpriced: five rows published at a family of four. */
  lemma LastPassCanUndercharge()
    ensures var probit := (p: real) => p - 0.5;
            var g := GradeFully(probit, GrowingRows, 2, 1, UncorrectedZ(probit));
            IsProbit(probit) && |g.rows| == 5 && g.mult.familySize == 4
  {
    var probit := (p: real) => p - 0.5;
    assert UncorrectedZ(probit) == 0.475;
    assert Divisor(1, 2) == 2 && Divisor(2, 2) == 4 && Divisor(3, 2) == 6 && Divisor(4, 2) == 8;
    assert CorrectedZ(probit, 2) == 0.4875 && CorrectedZ(probit, 4) == 0.49375 && CorrectedZ(probit, 8) == 0.496875;
    assert 0.4958 < CorrectedZ(probit, 6) < 0.4959;
    assert Regrade(probit, GrowingRows, 2, 1, 4, 0).mult.familySize == 4;
    assert |Regrade(probit, GrowingRows, 2, 1, 3, 1).rows| == 5;
    assert |Regrade(probit, GrowingRows, 2, 1, 2, 2).rows| == 5;
  }

  // ---------------------------------------------------------------------------
  // Runs of grading cycles
  // ---------------------------------------------------------------------------

  /** One process grading from one source. Each may read any chain at all. */
  datatype Cycle<T> =
    | Database(chain: Option<seq<LookRecord>>, gradeOnce: real -> seq<T>, publishes: bool)
    | Snapshot(pinnedLooks: int, gradeOnce: real -> seq<T>, publishes: bool)

  /** The price a cycle grades at, given the last published registry. */
  function CyclePrice<T>(probit: real -> real, published: Option<Mult>, cycle: Cycle<T>): Mult {
    match cycle
    case Database(chain, gradeOnce, _) =>
      GradeFully(probit, gradeOnce, DatabaseLooks(published, chain), DatabaseFloor(1, published, chain),
                 UncorrectedZ(probit)).mult
    case Snapshot(pinned, gradeOnce, _) =>
      GradeFully(probit, gradeOnce, SnapshotLooks(published, pinned), 1, UncorrectedZ(probit)).mult
  }

  /** A cycle as a process runs it: fresh module state, one of the two paths, and rows graded
      and stamped at the price that the cycle publishes. */
  method RunCycle<T>(probit: real -> real, published: Option<Mult>, cycle: Cycle<T>)
    returns (rows: seq<Stamped<T>>, price: Mult)
    ensures price == CyclePrice(probit, published, cycle)
    ensures rows == Stamp(cycle.gradeOnce(price.z), price)
  {
    var process := new Grader<T>(probit);
    match cycle {
      case Database(chain, gradeOnce, _) =>
        PublishedAtItsOwnPrice(probit, gradeOnce, DatabaseLooks(published, chain), DatabaseFloor(1, published, chain),
                               |gradeOnce(UncorrectedZ(probit))|, 3);
        rows := process.DatabaseCycle(published, chain, gradeOnce);
      case Snapshot(pinned, gradeOnce, _) =>
        PublishedAtItsOwnPrice(probit, gradeOnce, SnapshotLooks(published, pinned), 1,
                               |gradeOnce(UncorrectedZ(probit))|, 3);
        rows := process.SnapshotCycle(published, pinned, gradeOnce);
    }
    price := process.mult;
  }

  /** What a cycle may read its looks from: one, the last registry, and the record count and the
      counters on the chain or the count pinned in the snapshot. */
  ghost predicate LooksSource<T>(published: Option<Mult>, cycle: Cycle<T>, n: int) {
    || n == 1
    || (published.Some? && n == published.value.looks)
    || (cycle.Snapshot? && n == cycle.pinnedLooks)
    || (cycle.Database? && cycle.chain.Some?
        && (n == |cycle.chain.value| || exists r :: r in cycle.chain.value && r.counter == Whole(n)))
  }

  /** What it may read its family from: one and, on the database path alone, the last registry and
      the families on the chain. */
  ghost predicate FamilySource<T>(published: Option<Mult>, cycle: Cycle<T>, n: int) {
    || n == 1
    || (cycle.Database? && published.Some? && n == published.value.familySize)
    || (cycle.Database? && cycle.chain.Some? && exists r :: r in cycle.chain.value && r.family == Whole(n))
  }

  /** Main result: a cycle prices the most looks that any source reports, and a family that is the
      largest any source reports or, if the rows outnumber those, a number of rows. */
  lemma CyclePricesTheMost<T>(probit: real -> real, published: Option<Mult>, cycle: Cycle<T>)
    ensures var m := CyclePrice(probit, published, cycle);
            && LooksSource(published, cycle, m.looks)
            && (forall n :: LooksSource(published, cycle, n) ==> n <= m.looks)
            && (FamilySource(published, cycle, m.familySize) || exists z :: m.familySize == |cycle.gradeOnce(z)|)
            && (forall n :: FamilySource(published, cycle, n) ==> n <= m.familySize)
  {
    var z0 := UncorrectedZ(probit);
    match cycle {
      case Database(chain, gradeOnce, _) =>
        if chain.Some? {
          ChainLooksIsMax(chain.value, |chain.value|);
          ChainFamiliesIsMax(chain.value);
        }
        var looks, floor := DatabaseLooks(published, chain), DatabaseFloor(1, published, chain);
        PublishedAtItsOwnPrice(probit, gradeOnce, looks, floor, |gradeOnce(z0)|, 3);
        FamilyIsRowsOrFloor(probit, gradeOnce, looks, floor, z0, 3);
      case Snapshot(pinned, gradeOnce, _) =>
        var looks := SnapshotLooks(published, pinned);
        PublishedAtItsOwnPrice(probit, gradeOnce, looks, 1, |gradeOnce(z0)|, 3);
        FamilyIsRowsOrFloor(probit, gradeOnce, looks, 1, z0, 3);
    }
  }

  lemma {:induction false} FamilyIsRowsOrFloor<T>(probit: real -> real, gradeOnce: real -> seq<T>, looks: int,
          floor: int, z: real, left: nat)
    requires floor >= 1
    ensures var m := Regrade(probit, gradeOnce, looks, floor, |gradeOnce(z)|, left).mult;
            m.familySize == floor || exists z' :: m.familySize == |gradeOnce(z')|
    decreases left
  {
    var m := Price(probit, MaxInt(|gradeOnce(z)|, floor), looks);
    if left > 0 && |gradeOnce(m.z)| > |gradeOnce(z)| {
      FamilyIsRowsOrFloor(probit, gradeOnce, looks, floor, m.z, left - 1);
    } else {
      assert m.familySize == MaxInt(|gradeOnce(z)|, floor);
    }
  }

  /** The published registry after the first k cycles. */
  function PublishedAfter<T>(probit: real -> real, published: Option<Mult>, cycles: seq<Cycle<T>>, k: nat): Option<Mult>
    requires k <= |cycles|
  {
    if k == 0 then published
    else
      var before := PublishedAfter(probit, published, cycles, k - 1);
      if cycles[k - 1].publishes then Some(CyclePrice(probit, before, cycles[k - 1])) else before
  }

  /** A registry this grader wrote: its divisor and z are those of its own family and looks. */
  ghost predicate WrittenByGrader(probit: real -> real, published: Option<Mult>) {
    published.Some? ==> published.value == Price(probit, published.value.familySize, published.value.looks)
  }

  /** Snapshot cycles may run, but publish nothing. */
  predicate OnlyDatabasesPublish<T>(cycles: seq<Cycle<T>>) {
    forall i :: 0 <= i < |cycles| && cycles[i].publishes ==> cycles[i].Database?
  }

  /** A database cycle never prices below the registry it read, whatever the chain now holds. */
  lemma DatabaseCycleNeverRefunds<T>(probit: real -> real, published: Option<Mult>, cycle: Cycle<T>)
    requires IsProbit(probit) && WrittenByGrader(probit, published) && cycle.Database?
    ensures var m := CyclePrice(probit, published, cycle);
            && WrittenByGrader(probit, Some(m))
            && (published.Some? ==> NoCheaper(published.value, m))
  {
    var looks, floor := DatabaseLooks(published, cycle.chain), DatabaseFloor(1, published, cycle.chain);
    var fam := |cycle.gradeOnce(UncorrectedZ(probit))|;
    PublishedAtItsOwnPrice(probit, cycle.gradeOnce, looks, floor, fam, 3);
    var m := CyclePrice(probit, published, cycle);
    PriceIsStable(probit, m.familySize, looks);
    if published.Some? {
      PriceGrows(probit, published.value.familySize, published.value.looks, m.familySize, looks);
    }
  }

  lemma PriceIsStable(probit: real -> real, f: int, l: int)
    ensures var m := Price(probit, f, l); m == Price(probit, m.familySize, m.looks)
  {
    assert Divisor(MaxInt(1, f), MaxInt(1, l)) == Divisor(f, l);
  }

  lemma {:induction false} PublishedIsWritten<T>(probit: real -> real, published: Option<Mult>,
          cycles: seq<Cycle<T>>, k: nat)
    requires IsProbit(probit) && WrittenByGrader(probit, published) && k <= |cycles|
    requires OnlyDatabasesPublish(cycles)
    ensures WrittenByGrader(probit, PublishedAfter(probit, published, cycles, k))
    decreases k
  {
    if k > 0 {
      PublishedIsWritten(probit, published, cycles, k - 1);
      if cycles[k - 1].publishes {
        DatabaseCycleNeverRefunds(probit, PublishedAfter(probit, published, cycles, k - 1), cycles[k - 1]);
      }
    }
  }

  /** Over any run in which only database cycles publish and the last published registry
      survives, published looks, family, divisor and z never decrease. */
  lemma {:induction false} RunNeverRefunds<T>(probit: real -> real, published: Option<Mult>,
          cycles: seq<Cycle<T>>, i: nat, j: nat)
    requires IsProbit(probit) && WrittenByGrader(probit, published) && i <= j <= |cycles|
    requires OnlyDatabasesPublish(cycles)
    requires PublishedAfter(probit, published, cycles, i).Some?
    ensures PublishedAfter(probit, published, cycles, j).Some?
    ensures NoCheaper(PublishedAfter(probit, published, cycles, i).value,
                      PublishedAfter(probit, published, cycles, j).value)
    decreases j
  {
    if i < j {
      RunNeverRefunds(probit, published, cycles, i, j - 1);
      PublishedIsWritten(probit, published, cycles, j - 1);
      if cycles[j - 1].publishes {
        DatabaseCycleNeverRefunds(probit, PublishedAfter(probit, published, cycles, j - 1), cycles[j - 1]);
      }
    }
  }

  /** End to end: over such a run, the verdict on unchanged evidence is kept or lost, never
      gained and never reversed. */
  lemma VerdictsOnlyFall<T>(probit: real -> real, sqrt: real -> real, published: Option<Mult>, cycles: seq<Cycle<T>>,
          i: nat, j: nat, e: Evidence, p: real, effN: real)
    requires IsProbit(probit) && IsSqrt(sqrt) && WrittenByGrader(probit, published) && i <= j <= |cycles|
    requires OnlyDatabasesPublish(cycles)
    requires PublishedAfter(probit, published, cycles, i).Some? && 0.0 <= p <= 1.0
    ensures PublishedAfter(probit, published, cycles, j).Some?
    ensures var before := PublishedAfter(probit, published, cycles, i).value;
            var after := PublishedAfter(probit, published, cycles, j).value;
            && WilsonEff(sqrt, p, effN, after.z).Encloses(WilsonEff(sqrt, p, effN, before.z))
            && FallsTo(VerdictFor(e, Some(WilsonEff(sqrt, p, effN, before.z))),
                       VerdictFor(e, Some(WilsonEff(sqrt, p, effN, after.z))))
  {
    RunNeverRefunds(probit, published, cycles, i, j);
    PublishedIsWritten(probit, published, cycles, i);
    var before := PublishedAfter(probit, published, cycles, i).value;
    var after := PublishedAfter(probit, published, cycles, j).value;
    ZGrowsWithDivisor(probit, 1, Divisor(before.familySize, before.looks));
    WideningIsMonotone(sqrt, p, effN, before.z, effN, after.z);
    IntervalContainsEstimate(sqrt, p, effN, before.z);
    WideningOnlyLoses(e, WilsonEff(sqrt, p, effN, before.z), WilsonEff(sqrt, p, effN, after.z));
  }

  /** The same of clusters as they are graded: over such a run, regrading them at the published z
      keeps or loses their verdict. */
  lemma GradesOnlyFall<T>(probit: real -> real, sqrt: real -> real, published: Option<Mult>, cycles: seq<Cycle<T>>,
          i: nat, j: nat, e: Evidence, days: seq<Cluster>, minClusters: int)
    requires IsProbit(probit) && IsSqrt(sqrt) && WrittenByGrader(probit, published) && i <= j <= |cycles|
    requires OnlyDatabasesPublish(cycles)
    requires PublishedAfter(probit, published, cycles, i).Some? && AllTallied(days)
    ensures PublishedAfter(probit, published, cycles, j).Some?
    ensures var before := PublishedAfter(probit, published, cycles, i).value;
            var after := PublishedAfter(probit, published, cycles, j).value;
            FallsTo(VerdictFor(e, ClusteredCi(sqrt, before.z, days, minClusters).ci),
                    VerdictFor(e, ClusteredCi(sqrt, after.z, days, minClusters).ci))
  {
    RunNeverRefunds(probit, published, cycles, i, j);
    PublishedIsWritten(probit, published, cycles, i);
    var before := PublishedAfter(probit, published, cycles, i).value;
    var after := PublishedAfter(probit, published, cycles, j).value;
    ZGrowsWithDivisor(probit, 1, Divisor(before.familySize, before.looks));
    LargerZOnlyLoses(sqrt, before.z, after.z, days, minClusters, e);
  }

  // ---------------------------------------------------------------------------
  // The snapshot path
  // ---------------------------------------------------------------------------

  /** The family that a grading from a floor of one charges: the count of the last pass that the
      next pass outgrew or matched. */
  lemma ChargedFamily<T>(probit: real -> real, gradeOnce: real -> seq<T>, looks: int, z0: real)
    ensures var c0 := PassRows(probit, gradeOnce, looks, 1, z0, 0);
            var c1 := PassRows(probit, gradeOnce, looks, 1, z0, 1);
            var c2 := PassRows(probit, gradeOnce, looks, 1, z0, 2);
            var c3 := PassRows(probit, gradeOnce, looks, 1, z0, 3);
            GradeFully(probit, gradeOnce, looks, 1, z0).mult
            == Price(probit, if c1 <= c0 then c0 else if c2 <= c1 then c1 else if c3 <= c2 then c2 else c3, looks)
  {
    var c0 := PassRows(probit, gradeOnce, looks, 1, z0, 0);
    var c1 := PassRows(probit, gradeOnce, looks, 1, z0, 1);
    var c2 := PassRows(probit, gradeOnce, looks, 1, z0, 2);
    var c3 := PassRows(probit, gradeOnce, looks, 1, z0, 3);
    FloorOfOne(probit, c0, looks);
    FloorOfOne(probit, c1, looks);
    FloorOfOne(probit, c2, looks);
    FloorOfOne(probit, c3, looks);
    if c0 < c1 {
      assert Regrade(probit, gradeOnce, looks, 1, c0, 3).mult == Regrade(probit, gradeOnce, looks, 1, c1, 2).mult;
      if c1 < c2 {
        assert Regrade(probit, gradeOnce, looks, 1, c1, 2).mult == Regrade(probit, gradeOnce, looks, 1, c2, 1).mult;
      }
    }
  }

  lemma FloorOfOne(probit: real -> real, fam: int, looks: int)
    ensures Price(probit, MaxInt(fam, 1), looks) == Price(probit, fam, looks)
  {
  }

  lemma DivisorShrinks(f: int, l: int, f': int, l': int)
    requires Divisor(f', l') < Divisor(f, l) && l <= l'
    ensures f' < f
  {
    if f <= f' {
      DivisorGrows(f, l, f', l');
    }
  }

  lemma FewerRowsDivideLess(f: int, f': int, l: int)
    requires 1 <= f < f' && l >= 1
    ensures Divisor(f, l) < Divisor(f', l)
  {
    assert f' * l == f * l + (f' - f) * l;
    PositiveProduct(f' - f, l);
  }

  /** What a snapshot cycle charges for is the charge of a row count it published. */
  lemma SnapshotChargesAPass<T>(probit: real -> real, published: Mult, cycle: Cycle<T>, counts: set<nat>)
    requires cycle.Snapshot? && PublishesOneOf(cycle.gradeOnce, counts)
    ensures exists c :: c in counts && CyclePrice(probit, Some(published), cycle).familySize == Charge(c)
  {
    var looks, z0 := SnapshotLooks(Some(published), cycle.pinnedLooks), UncorrectedZ(probit);
    ChargedFamily(probit, cycle.gradeOnce, looks, z0);
    var c0 := PassRows(probit, cycle.gradeOnce, looks, 1, z0, 0);
    var c1 := PassRows(probit, cycle.gradeOnce, looks, 1, z0, 1);
    var c2 := PassRows(probit, cycle.gradeOnce, looks, 1, z0, 2);
    var c3 := PassRows(probit, cycle.gradeOnce, looks, 1, z0, 3);
    PassesPublish(probit, cycle.gradeOnce, looks, 1, z0, 0, counts);
    PassesPublish(probit, cycle.gradeOnce, looks, 1, z0, 1, counts);
    PassesPublish(probit, cycle.gradeOnce, looks, 1, z0, 2, counts);
    PassesPublish(probit, cycle.gradeOnce, looks, 1, z0, 3, counts);
    var c: nat := if c1 <= c0 then c0 else if c2 <= c1 then c1 else if c3 <= c2 then c2 else c3;
    assert c in counts && Price(probit, c, looks).familySize == Charge(c);
  }

  /** Main result: which graders may be graded from a snapshot. Over all snapshot cycles that
      publish one of the given numbers of rows, none hands family back exactly when every one of
      those numbers is charged for at least the family already published. */
  lemma SnapshotNeverRefundsExactlyWhen<T(!new)>(probit: real -> real, published: Mult, counts: set<nat>, row: T)
    ensures (forall cycle: Cycle<T> :: cycle.Snapshot? && PublishesOneOf(cycle.gradeOnce, counts) ==>
               CyclePrice(probit, Some(published), cycle).familySize >= published.familySize)
            <==> forall c :: c in counts ==> Charge(c) >= published.familySize
  {
    forall cycle: Cycle<T> | cycle.Snapshot? && PublishesOneOf(cycle.gradeOnce, counts)
      ensures exists c :: c in counts && CyclePrice(probit, Some(published), cycle).familySize == Charge(c)
    {
      SnapshotChargesAPass(probit, published, cycle, counts);
    }
    forall c | c in counts
      ensures exists cycle: Cycle<T> :: cycle.Snapshot? && PublishesOneOf(cycle.gradeOnce, counts)
                                        && CyclePrice(probit, Some(published), cycle).familySize == Charge(c)
    {
      var gradeOnce := (z: real) => seq(c, _ => row);
      var cycle := Snapshot(1, gradeOnce, true);
      ConstantRowsSettle(probit, gradeOnce, SnapshotLooks(Some(published), 1), 1, UncorrectedZ(probit), c);
      assert PublishesOneOf(cycle.gradeOnce, counts);
      assert CyclePrice(probit, Some(published), cycle).familySize == Charge(c);
    }
  }

  /** Main result: a snapshot cycle keeps the looks, but it does not read the family floor. It
      hands family back exactly when every pass up to the one it charges published fewer rows
      than the family already charged. A lower divisor can only come from that, and z falls with the
      divisor and, under a strictly increasing quantile, whenever it does. */
  lemma SnapshotRefundsExactlyWhen<T>(probit: real -> real, published: Mult, cycle: Cycle<T>)
    requires IsProbit(probit) && WrittenByGrader(probit, Some(published)) && cycle.Snapshot?
    ensures var m := CyclePrice(probit, Some(published), cycle);
            var looks, z0 := SnapshotLooks(Some(published), cycle.pinnedLooks), UncorrectedZ(probit);
            var family := published.familySize;
            var c0 := PassRows(probit, cycle.gradeOnce, looks, 1, z0, 0);
            var c1 := PassRows(probit, cycle.gradeOnce, looks, 1, z0, 1);
            var c2 := PassRows(probit, cycle.gradeOnce, looks, 1, z0, 2);
            var c3 := PassRows(probit, cycle.gradeOnce, looks, 1, z0, 3);
            && m.looks >= published.looks
            && (m.familySize < family <==>
                  1 < family && c0 < family && (c0 < c1 ==> c1 < family) && (c0 < c1 < c2 ==> c2 < family)
                  && (c0 < c1 < c2 < c3 ==> c3 < family))
            && (m.divisor < published.divisor ==> m.familySize < family)
            && (m.looks == published.looks && m.familySize < family ==> m.divisor < published.divisor)
            && (m.z < published.z ==> m.divisor < published.divisor)
            && (IsStrictProbit(probit) && m.divisor < published.divisor ==> m.z < published.z)
  {
    var m := CyclePrice(probit, Some(published), cycle);
    var looks := SnapshotLooks(Some(published), cycle.pinnedLooks);
    ChargedFamily(probit, cycle.gradeOnce, looks, UncorrectedZ(probit));
    if m.looks == published.looks && m.familySize < published.familySize {
      FewerRowsDivideLess(m.familySize, published.familySize, m.looks);
    }
    if m.divisor < published.divisor {
      DivisorShrinks(published.familySize, published.looks, m.familySize, looks);
      if IsStrictProbit(probit) {
        ZGrowsStrictly(probit, m.divisor, published.divisor);
      }
    } else {
      ZGrowsWithDivisor(probit, published.divisor, m.divisor);
    }
  }

  /** Ten rows graded from a snapshot after a family of a hundred was charged: the divisor falls
      from 500 to 50, and z with it. */
  lemma SnapshotCanRefund()
    ensures var probit := (p: real) => p - 0.5;
            var published := Price(probit, 100, 5);
            var m := CyclePrice(probit, Some(published), Snapshot(0, z => seq(10, i => i), true));
            && IsProbit(probit) && published.divisor == 500 && m == Price(probit, 10, 5)
            && m.divisor == 50 && m.familySize < published.familySize && m.z < published.z
  {
    var probit := (p: real) => p - 0.5;
    var gradeOnce := (z: real) => seq(10, i => i);
    ConstantRowsSettle(probit, gradeOnce, 5, 1, UncorrectedZ(probit), 10);
    assert Divisor(100, 5) == 500 && Divisor(10, 5) == 50;
    assert CorrectedZ(probit, 500) == 0.49995 && CorrectedZ(probit, 50) == 0.4995;
  }
}
