/** Pricing the multiplicity of the published surface, and never refunding it
    (tools/accuracy_registry.py, corrected_z ... published_family, and main's database and
    snapshot paths). */
module Multiplicity {
  import opened Options
  import opened RealAlgebra
  import opened Wilson

  const MAX_ALPHA: real := 0.05

  /** NormalDist().inv_cdf: non-decreasing on (0, 1), zero at the middle. */
  ghost predicate IsProbit(probit: real -> real) {
    && probit(0.5) == 0.0
    && forall p, q :: 0.0 < p <= q < 1.0 ==> probit(p) <= probit(q)
  }

  function MaxInt(a: int, b: int): int {
    if a >= b then a else b
  }

  // ---------------------------------------------------------------------------
  // corrected_z
  // ---------------------------------------------------------------------------

  /** The multiplicity in force: the module's _MULT. */
  datatype Mult = Mult(familySize: int, looks: int, divisor: int, correctedAlpha: real, z: real)

  function UncorrectedZ(probit: real -> real): real {
    probit(1.0 - MAX_ALPHA / 2.0)
  }

  function Divisor(familySize: int, looks: int): (d: int)
    ensures d >= 1
  {
    PositiveProduct(MaxInt(1, familySize), MaxInt(1, looks));
    MaxInt(1, familySize) * MaxInt(1, looks)
  }

  lemma PositiveProduct(a: int, b: int)
    requires a >= 1 && b >= 1
    ensures a * b >= a && a * b >= b
  {
    assert a * b == a + a * (b - 1) == b + (a - 1) * b;
  }

  /** The z for a divisor: floored, so that no divisor narrows an interval. */
  function CorrectedZ(probit: real -> real, divisor: int): real
    requires divisor >= 1
  {
    Wilson.Max(UncorrectedZ(probit), probit(1.0 - MAX_ALPHA / divisor as real / 2.0))
  }

  /** What set_multiplicity stores for a family already folded with the floor. */
  function Price(probit: real -> real, familySize: int, looks: int): Mult {
    var d := Divisor(familySize, looks);
    Mult(MaxInt(1, familySize), MaxInt(1, looks), d, MAX_ALPHA / d as real, CorrectedZ(probit, d))
  }

  /** Bonferroni: the family's rows at every look share out MAX_ALPHA evenly. */
  lemma AlphaIsShared(probit: real -> real, familySize: int, looks: int)
    requires familySize >= 1 && looks >= 1
    ensures var m := Price(probit, familySize, looks);
            && m.divisor == familySize * looks && m.correctedAlpha * m.divisor as real == MAX_ALPHA
            && m.z == Wilson.Max(probit(1.0 - MAX_ALPHA / 2.0), probit(1.0 - m.correctedAlpha / 2.0))
  {
    DivMul(MAX_ALPHA, Divisor(familySize, looks) as real, MAX_ALPHA / Divisor(familySize, looks) as real);
  }

  lemma TailOrder(d: int, e: int, a: real, b: real)
    requires 1 <= d <= e && a == MAX_ALPHA / d as real && b == MAX_ALPHA / e as real
    ensures 0.0 < b <= a <= MAX_ALPHA
  {
    var dr, er := d as real, e as real;
    DivPos(MAX_ALPHA, er, b);
    DivMul(MAX_ALPHA, er, b);
    var ae := a * er;
    DivMul(MAX_ALPHA, dr, a);
    DivPos(MAX_ALPHA, dr, a);
    MulMono(a, dr, er, MAX_ALPHA, ae);
    DivOrder(MAX_ALPHA, er, b, a, ae);
    MulMono(a, 1.0, dr, a, MAX_ALPHA);
  }

  lemma ZGrowsWithDivisor(probit: real -> real, d: int, e: int)
    requires IsProbit(probit) && 1 <= d <= e
    ensures 0.0 <= UncorrectedZ(probit) <= CorrectedZ(probit, d) <= CorrectedZ(probit, e)
  {
    var a, b := MAX_ALPHA / d as real, MAX_ALPHA / e as real;
    TailOrder(d, e, a, b);
    var p, q := 1.0 - a / 2.0, 1.0 - b / 2.0;
    assert 0.5 <= p <= q < 1.0;
    assert probit(p) <= probit(q);
  }

  /** In exact arithmetic the floor is already implied by the quantile. */
  lemma FloorIsImplied(probit: real -> real, d: int)
    requires IsProbit(probit) && d >= 1
    ensures CorrectedZ(probit, d) == probit(1.0 - MAX_ALPHA / d as real / 2.0)
  {
    TailOrder(1, d, MAX_ALPHA / 1.0, MAX_ALPHA / d as real);
    var p, q := 1.0 - MAX_ALPHA / 2.0, 1.0 - MAX_ALPHA / d as real / 2.0;
    assert 0.0 < p <= q < 1.0;
  }

  /** The quantile takes every level to a different value. */
  ghost predicate IsStrictProbit(probit: real -> real) {
    IsProbit(probit) && forall p, q :: 0.0 < p < q < 1.0 ==> probit(p) < probit(q)
  }

  lemma TailShrinks(d: int, e: int, a: real, b: real)
    requires 1 <= d < e && a == MAX_ALPHA / d as real && b == MAX_ALPHA / e as real
    ensures 0.0 < b < a <= MAX_ALPHA
  {
    TailOrder(d, e, a, b);
    DivMul(MAX_ALPHA, d as real, a);
    DivMul(MAX_ALPHA, e as real, b);
    if a == b {
      ScaleOrder(a, d as real, e as real, MAX_ALPHA, MAX_ALPHA);
    }
  }

  /** A strictly increasing quantile tells any two divisors apart. */
  lemma ZGrowsStrictly(probit: real -> real, d: int, e: int)
    requires IsStrictProbit(probit) && 1 <= d < e
    ensures CorrectedZ(probit, d) < CorrectedZ(probit, e)
  {
    var a, b := MAX_ALPHA / d as real, MAX_ALPHA / e as real;
    TailShrinks(d, e, a, b);
    FloorIsImplied(probit, d);
    FloorIsImplied(probit, e);
    var p, q := 1.0 - a / 2.0, 1.0 - b / 2.0;
    assert 0.0 < p < q < 1.0;
  }

  lemma DivisorGrows(f: int, l: int, f': int, l': int)
    requires f <= f' && l <= l'
    ensures Divisor(f, l) <= Divisor(f', l')
  {
    var a, b, a', b' := MaxInt(1, f), MaxInt(1, l), MaxInt(1, f'), MaxInt(1, l');
    assert a' * b' == a * b + (a' - a) * b' + a * (b' - b);
    assert (a' - a) * b' >= 0 && a * (b' - b) >= 0;
  }

  /** A wider family or another look never lowers any part of the price. */
  lemma PriceGrows(probit: real -> real, f: int, l: int, f': int, l': int)
    requires IsProbit(probit) && f <= f' && l <= l'
    ensures NoCheaper(Price(probit, f, l), Price(probit, f', l'))
  {
    DivisorGrows(f, l, f', l');
    ZGrowsWithDivisor(probit, Divisor(f, l), Divisor(f', l'));
  }

  predicate NoCheaper(before: Mult, after: Mult) {
    && before.familySize <= after.familySize && before.looks <= after.looks
    && before.divisor <= after.divisor && before.z <= after.z
  }

  // ---------------------------------------------------------------------------
  // Grading until the price covers what is published
  // ---------------------------------------------------------------------------

  /** A row carrying the multiplicity its interval was priced at. */
  datatype Stamped<T> = Stamped(row: T, stamp: Mult)

  function Stamp<T>(rows: seq<T>, m: Mult): seq<Stamped<T>> {
    seq(|rows|, i requires 0 <= i < |rows| => Stamped(rows[i], m))
  }

  /** What a grading run leaves behind: the price in force, the rows it published, how many
      regrades it took, and whether the last one was checked against the price. */
  datatype Grading<T> = Grading(mult: Mult, rows: seq<Stamped<T>>, regrades: nat, checked: bool)

  /** The passes left after the first grade published fam rows. Each pass prices the family
      folded with the floor and grades again at that z. */
  function Regrade<T>(probit: real -> real, gradeOnce: real -> seq<T>, looks: int, floor: int, fam: int, left: nat)
    : Grading<T>
    decreases left
  {
    var m := Price(probit, MaxInt(fam, floor), looks);
    var rows := gradeOnce(m.z);
    if left == 0 then Grading(m, Stamp(rows, m), 1, false)
    else if |rows| <= fam then Grading(m, Stamp(rows, m), 1, true)
    else
      var rest := Regrade(probit, gradeOnce, looks, floor, |rows|, left - 1);
      rest.(regrades := rest.regrades + 1)
  }

  function GradeFully<T>(probit: real -> real, gradeOnce: real -> seq<T>, looks: int, floor: int, z0: real)
    : Grading<T>
  {
    Regrade(probit, gradeOnce, looks, floor, |gradeOnce(z0)|, 3)
  }

  ghost predicate SameOutcome<T>(g: Grading<T>, h: Grading<T>) {
    g.rows == h.rows && g.mult == h.mult
  }

  lemma RegradeStep<T>(probit: real -> real, gradeOnce: real -> seq<T>, looks: int, floor: int, fam: int,
          left: nat, m: Mult)
    requires left > 0 && m == Price(probit, MaxInt(fam, floor), looks)
    ensures |gradeOnce(m.z)| <= fam ==>
              var g := Regrade(probit, gradeOnce, looks, floor, fam, left);
              g.rows == Stamp(gradeOnce(m.z), m) && g.mult == m
    ensures |gradeOnce(m.z)| > fam ==>
              SameOutcome(Regrade(probit, gradeOnce, looks, floor, fam, left),
                          Regrade(probit, gradeOnce, looks, floor, |gradeOnce(m.z)|, left - 1))
  {
  }

  /** The module state of the accuracy registry. */
  class Grader<T> {
    const probit: real -> real
    var familyFloor: int
    var mult: Mult

    constructor (probit: real -> real)
      ensures this.probit == probit && familyFloor == 1
      ensures mult == Mult(1, 1, 1, MAX_ALPHA, UncorrectedZ(probit))
    {
      this.probit := probit;
      familyFloor := 1;
      mult := Mult(1, 1, 1, MAX_ALPHA, UncorrectedZ(probit));
    }

    /** Raise the monotone family floor. */
    method SetFamilyFloor(n: int) returns (floor: int)
      modifies this`familyFloor
      ensures familyFloor == MaxInt(old(familyFloor), MaxInt(1, n))
      ensures floor == familyFloor >= old(familyFloor)
    {
      familyFloor := MaxInt(familyFloor, MaxInt(1, n));
      floor := familyFloor;
    }

    /** Price this cycle's multiplicity. */
    method SetMultiplicity(familySize: int, looks: int) returns (m: Mult)
      modifies this`mult
      ensures m == mult == Price(probit, MaxInt(familySize, familyFloor), looks)
    {
      var family := MaxInt(familySize, familyFloor);
      var divisor := Divisor(family, looks);
      mult := Mult(MaxInt(1, family), MaxInt(1, looks), divisor, MAX_ALPHA / divisor as real,
                   CorrectedZ(probit, divisor));
      m := mult;
    }

    /** Grade, size the family from what was published, regrade. */
    method GradeWithMultiplicity(gradeOnce: real -> seq<T>, looks: int) returns (rows: seq<Stamped<T>>)
      modifies this`mult
      ensures var g := GradeFully(probit, gradeOnce, looks, familyFloor, old(mult).z);
              rows == g.rows && mult == g.mult
    {
      var graded := gradeOnce(mult.z);
      var fam := |graded|;
      ghost var expected := GradeFully(probit, gradeOnce, looks, familyFloor, mult.z);
      for pass := 0 to 3
        invariant fam == |graded|
        invariant SameOutcome(expected, Regrade(probit, gradeOnce, looks, familyFloor, fam, 3 - pass))
      {
        var m := SetMultiplicity(fam, looks);
        graded := gradeOnce(m.z);
        RegradeStep(probit, gradeOnce, looks, familyFloor, fam, 3 - pass, m);
        if |graded| <= fam {
          return Stamp(graded, m);
        }
        fam := |graded|;
      }
      var m := SetMultiplicity(MaxInt(fam, |graded|), looks);
      graded := gradeOnce(m.z);
      rows := Stamp(graded, m);
    }

    /** The database path of main, from reading the look counters to the published price. */
    method DatabaseCycle(published: Option<Mult>, chain: Option<seq<LookRecord>>, gradeOnce: real -> seq<T>)
      returns (rows: seq<Stamped<T>>)
      modifies this
      ensures familyFloor == DatabaseFloor(old(familyFloor), published, chain)
      ensures var g := GradeFully(probit, gradeOnce, DatabaseLooks(published, chain), familyFloor, old(mult).z);
              rows == g.rows && mult == g.mult
    {
      var recorded := ChainLooks(chain);
      var looks := MaxInt(1, MaxInt(recorded, PublishedLooks(published)));
      var widest := ChainFamilies(chain);
      var floor := SetFamilyFloor(MaxInt(widest, PublishedFamily(published)));
      rows := GradeWithMultiplicity(gradeOnce, looks);
    }

    /** The snapshot path of main: looks folded from the pinned protocol and the last registry,
        and no family floor read. */
    method SnapshotCycle(published: Option<Mult>, pinnedLooks: int, gradeOnce: real -> seq<T>)
      returns (rows: seq<Stamped<T>>)
      modifies this`mult
      ensures var g := GradeFully(probit, gradeOnce, SnapshotLooks(published, pinnedLooks), familyFloor, old(mult).z);
              rows == g.rows && mult == g.mult
    {
      rows := GradeWithMultiplicity(gradeOnce, SnapshotLooks(published, pinnedLooks));
    }
  }

  // ---------------------------------------------------------------------------
  // The durable counters
  // ---------------------------------------------------------------------------

  /** An integer read off a look record; a record that does not parse is skipped. */
  datatype Field = Whole(value: int) | Unparsable

  datatype LookRecord = LookRecord(counter: Field, family: Field)

  function FoldField(n: int, f: Field): int {
    match f
    case Whole(v) => MaxInt(n, v)
    case Unparsable => n
  }

  function FoldCounters(records: seq<LookRecord>, start: int): int {
    if records == [] then start
    else FoldField(FoldCounters(records[..|records| - 1], start), records[|records| - 1].counter)
  }

  function FoldFamilies(records: seq<LookRecord>): int {
    if records == [] then 0
    else FoldField(FoldFamilies(records[..|records| - 1]), records[|records| - 1].family)
  }

  /** An unreadable table counts as no records. */
  function LooksOnChain(chain: Option<seq<LookRecord>>): int {
    if chain.None? then 0 else FoldCounters(chain.value, |chain.value|)
  }

  function FamiliesOnChain(chain: Option<seq<LookRecord>>): int {
    if chain.None? then 0 else FoldFamilies(chain.value)
  }

  method ChainLooks(chain: Option<seq<LookRecord>>) returns (n: int)
    ensures n == LooksOnChain(chain)
  {
    if chain.None? {
      return 0;
    }
    var records := chain.value;
    n := |records|;
    for i := 0 to |records|
      invariant n == FoldCounters(records[..i], |records|)
    {
      assert records[..i + 1][..i] == records[..i];
      match records[i].counter {
        case Whole(v) => n := MaxInt(n, v);
        case Unparsable =>
      }
    }
    assert records[..|records|] == records;
  }

  method ChainFamilies(chain: Option<seq<LookRecord>>) returns (n: int)
    ensures n == FamiliesOnChain(chain)
  {
    if chain.None? {
      return 0;
    }
    var records := chain.value;
    n := 0;
    for i := 0 to |records|
      invariant n == FoldFamilies(records[..i])
    {
      assert records[..i + 1][..i] == records[..i];
      match records[i].family {
        case Whole(v) => n := MaxInt(n, v);
        case Unparsable =>
      }
    }
    assert records[..|records|] == records;
  }

  /** The look count is the maximum of its sources: the record count and every counter that
      parses, and nothing larger. */
  lemma {:induction false} ChainLooksIsMax(records: seq<LookRecord>, start: int)
    ensures FoldCounters(records, start) >= start
    ensures forall r :: r in records && r.counter.Whole? ==> FoldCounters(records, start) >= r.counter.value
    ensures FoldCounters(records, start) == start
            || exists r :: r in records && r.counter == Whole(FoldCounters(records, start))
    decreases |records|
  {
    if records != [] {
      var front, last := records[..|records| - 1], records[|records| - 1];
      ChainLooksIsMax(front, start);
      assert records == front + [last];
      assert last in records;
    }
  }

  lemma {:induction false} ChainFamiliesIsMax(records: seq<LookRecord>)
    ensures FoldFamilies(records) >= 0
    ensures forall r :: r in records && r.family.Whole? ==> FoldFamilies(records) >= r.family.value
    ensures FoldFamilies(records) == 0
            || exists r :: r in records && r.family == Whole(FoldFamilies(records))
    decreases |records|
  {
    if records != [] {
      var front, last := records[..|records| - 1], records[|records| - 1];
      ChainFamiliesIsMax(front);
      assert records == front + [last];
      assert last in records;
    }
  }

  function PublishedLooks(published: Option<Mult>): int {
    if published.None? then 0 else published.value.looks
  }

  function PublishedFamily(published: Option<Mult>): int {
    if published.None? then 0 else published.value.familySize
  }

  function DatabaseLooks(published: Option<Mult>, chain: Option<seq<LookRecord>>): int {
    MaxInt(1, MaxInt(LooksOnChain(chain), PublishedLooks(published)))
  }

  function SnapshotLooks(published: Option<Mult>, pinnedLooks: int): int {
    MaxInt(1, MaxInt(pinnedLooks, PublishedLooks(published)))
  }

  function DatabaseFloor(floor: int, published: Option<Mult>, chain: Option<seq<LookRecord>>): int {
    MaxInt(floor, MaxInt(1, MaxInt(FamiliesOnChain(chain), PublishedFamily(published))))
  }
}
