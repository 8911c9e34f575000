/** The greedy fold of per-call-day tallies into non-overlapping forward windows
    (tools/accuracy_registry.py, horizon_blocks), proved equal to a packing and a covering optimum. */
module HorizonBlocks {

  /** One (day, n, hits) tuple. The same shape serves as an input row and as a block,
      whose day is then its anchor. Hits are real because the null grades coin flips as n / 2. */
  datatype DayRow = DayRow(day: int, n: int, hits: real)

  datatype Tally = Tally(n: int, hits: real) {
    function Add(other: Tally): Tally {
      Tally(n + other.n, hits + other.hits)
    }
  }

  const ZERO: Tally := Tally(0, 0.0)

  /** The block width: the horizon, and one day for anything shorter. */
  function Horizon(horizonDays: int): (hd: int)
    ensures hd >= 1
  {
    if horizonDays < 1 then 1 else horizonDays
  }

  // ---------------------------------------------------------------------------
  // What a fold is
  // ---------------------------------------------------------------------------

  /** Everything the rows put on days in [lo, hi). */
  function Window(rows: seq<DayRow>, lo: int, hi: int): Tally {
    if rows == [] then ZERO
    else
      var last := rows[|rows| - 1];
      var rest := Window(rows[..|rows| - 1], lo, hi);
      if lo <= last.day < hi then rest.Add(Tally(last.n, last.hits)) else rest
  }

  /** Everything the rows hold. */
  function Total(rows: seq<DayRow>): Tally {
    if rows == [] then ZERO
    else
      var last := rows[|rows| - 1];
      Total(rows[..|rows| - 1]).Add(Tally(last.n, last.hits))
  }

  function Days(rows: seq<DayRow>): set<int> {
    set r | r in rows :: r.day
  }

  function SetOf(ds: seq<int>): set<int> {
    set d | d in ds
  }

  function Anchors(blocks: seq<DayRow>): seq<int> {
    seq(|blocks|, i requires 0 <= i < |blocks| => blocks[i].day)
  }

  predicate InWindow(start: int, hd: int, day: int) {
    start <= day < start + hd
  }

  /** Every day of the set falls in the window opened at one of the starts. */
  ghost predicate Covers(starts: seq<int>, hd: int, days: set<int>) {
    forall d :: d in days ==> exists j :: 0 <= j < |starts| && InWindow(starts[j], hd, d)
  }

  /** No two days of the set share any part of a forward window of length hd. */
  ghost predicate Spread(days: set<int>, hd: int) {
    forall d, e :: d in days && e in days && d < e ==> d + hd <= e
  }

  ghost predicate Spaced(starts: seq<int>, hd: int) {
    forall i, j :: 0 <= i < j < |starts| ==> starts[i] + hd <= starts[j]
  }

  /** Call days at least hd apart whose windows cover every call day. */
  ghost predicate Anchoring(starts: seq<int>, hd: int, days: set<int>) {
    Spaced(starts, hd) && SetOf(starts) <= days && Covers(starts, hd, days)
  }

  /** The declarative meaning of a fold: the anchors anchor the call days, and each block
      carries exactly the tally of its own window. */
  ghost predicate IsFold(rows: seq<DayRow>, hd: int, blocks: seq<DayRow>) {
    && Anchoring(Anchors(blocks), hd, Days(rows))
    && forall j :: 0 <= j < |blocks| ==>
         Tally(blocks[j].n, blocks[j].hits) == Window(rows, blocks[j].day, blocks[j].day + hd)
  }

  // ---------------------------------------------------------------------------
  // The sweep
  // ---------------------------------------------------------------------------

  ghost predicate Increasing(ds: seq<int>) {
    forall i, j :: 0 <= i < j < |ds| ==> ds[i] < ds[j]
  }

  lemma SomeElement(days: set<int>) returns (day: int)
    requires days != {}
    ensures day in days
  {
    assert (forall d :: d !in days) ==> days == {};
    day :| day in days;
  }

  lemma {:induction false} LeastElement(days: set<int>) returns (least: int)
    requires days != {}
    ensures least in days && forall d :: d in days ==> least <= d
    decreases |days|
  {
    least := SomeElement(days);
    var rest := days - {least};
    assert forall d :: d in days ==> d == least || d in rest;
    if rest != {} {
      var l := LeastElement(rest);
      if l < least { least := l; }
    }
  }

  /** Python's sorted() over the keys of the aggregate. */
  method SortedDays(days: set<int>) returns (ds: seq<int>)
    ensures Increasing(ds)
    ensures forall d :: d in ds <==> d in days
  {
    ds := [];
    var rest := days;
    while rest != {}
      invariant rest <= days
      invariant Increasing(ds)
      invariant forall d :: d in ds <==> d in days - rest
      invariant forall i, e :: 0 <= i < |ds| && e in rest ==> ds[i] < e
      decreases |rest|
    {
      ghost var least := LeastElement(rest);
      var day :| day in rest && forall d :: d in rest ==> day <= d;
      ds := ds + [day];
      rest := rest - {day};
    }
  }

  lemma WindowGap(rows: seq<DayRow>, lo: int, mid: int, hi: int)
    requires lo <= mid <= hi
    requires forall d :: d in Days(rows) ==> !(mid <= d < hi)
    ensures Window(rows, lo, mid) == Window(rows, lo, hi)
  {
    if rows != [] {
      var front, last := rows[..|rows| - 1], rows[|rows| - 1];
      assert last in rows && last.day in Days(rows);
      forall d | d in Days(front) ensures d in Days(rows) {}
      WindowGap(front, lo, mid, hi);
    }
  }

  lemma WindowSplit(rows: seq<DayRow>, lo: int, mid: int, hi: int)
    requires lo <= mid <= hi
    ensures Window(rows, lo, hi) == Window(rows, lo, mid).Add(Window(rows, mid, hi))
  {
  }

  /** The sweep after the first i sorted days: all blocks but the last are complete, and the
      last one holds every tally from its anchor up to the day just absorbed. */
  ghost predicate Swept(rows: seq<DayRow>, hd: int, ds: seq<int>, i: nat, blocks: seq<DayRow>)
    requires i <= |ds|
  {
    && (i == 0 <==> blocks == [])
    && Anchoring(Anchors(blocks), hd, SetOf(ds[..i]))
    && (forall j :: 0 <= j < |blocks| - 1 ==>
          Tally(blocks[j].n, blocks[j].hits) == Window(rows, blocks[j].day, blocks[j].day + hd))
    && (i > 0 ==> OpenBlock(rows, hd, ds[i - 1], blocks[|blocks| - 1]))
  }

  /** The block b is open and has absorbed its window up to and including day. */
  ghost predicate OpenBlock(rows: seq<DayRow>, hd: int, day: int, b: DayRow) {
    && b.day <= day < b.day + hd
    && Tally(b.n, b.hits) == Window(rows, b.day, day + 1)
  }

  lemma {:induction false} CoversOneMore(starts: seq<int>, starts': seq<int>, hd: int, ds: seq<int>, i: nat)
    requires i < |ds| && starts' != []
    requires Covers(starts, hd, SetOf(ds[..i]))
    requires starts <= starts' && InWindow(starts'[|starts'| - 1], hd, ds[i])
    ensures Covers(starts', hd, SetOf(ds[..i + 1]))
  {
    var reached := SetOf(ds[..i + 1]);
    forall d | d in reached
      ensures exists j :: 0 <= j < |starts'| && InWindow(starts'[j], hd, d) {
      if d != ds[i] {
        assert d in SetOf(ds[..i]);
        var j :| 0 <= j < |starts| && InWindow(starts[j], hd, d);
        assert starts'[j] == starts[j];
      }
    }
  }

  lemma {:induction false} SetOfSnoc(ds: seq<int>, i: nat)
    requires i < |ds|
    ensures SetOf(ds[..i + 1]) == SetOf(ds[..i]) + {ds[i]}
  {
    assert ds[..i + 1] == ds[..i] + [ds[i]];
  }

  lemma {:induction false} SpacedSnoc(starts: seq<int>, hd: int, day: int)
    requires hd >= 1 && Spaced(starts, hd)
    requires starts != [] ==> starts[|starts| - 1] + hd <= day
    ensures Spaced(starts + [day], hd)
  {
    forall i, j | 0 <= i < j < |starts| + 1
      ensures (starts + [day])[i] + hd <= (starts + [day])[j]
    {
      if j == |starts| && i < |starts| - 1 {
        assert starts[i] + hd <= starts[|starts| - 1];
      }
    }
  }

  /** Consecutive call days: nothing happened strictly between them. */
  ghost predicate NoDayBetween(rows: seq<DayRow>, prev: int, day: int) {
    prev < day && forall d :: d in Days(rows) ==> !(prev < d < day)
  }

  /** The block open when the next day falls outside its window is complete. */
  lemma {:induction false} OpenBlockCloses(rows: seq<DayRow>, hd: int, prev: int, day: int, b: DayRow)
    requires NoDayBetween(rows, prev, day) && OpenBlock(rows, hd, prev, b) && day >= b.day + hd
    ensures Tally(b.n, b.hits) == Window(rows, b.day, b.day + hd)
  {
    WindowGap(rows, b.day, prev + 1, b.day + hd);
  }

  /** The block open when the next day falls inside its window absorbs exactly that day. */
  lemma {:induction false} BlockAbsorbs(rows: seq<DayRow>, hd: int, prev: int, day: int, b: DayRow, t: Tally)
    requires NoDayBetween(rows, prev, day) && OpenBlock(rows, hd, prev, b) && day < b.day + hd
    requires t == Window(rows, day, day + 1)
    ensures OpenBlock(rows, hd, day, DayRow(b.day, b.n + t.n, b.hits + t.hits))
  {
    WindowGap(rows, b.day, prev + 1, day);
    WindowSplit(rows, b.day, day, day + 1);
    assert Window(rows, b.day, day + 1) == Tally(b.n, b.hits).Add(t);
  }

  lemma {:induction false} SweepOpens(rows: seq<DayRow>, hd: int, ds: seq<int>, i: nat, blocks: seq<DayRow>, b': DayRow)
    requires hd >= 1 && Increasing(ds) && i < |ds| && forall d :: d in ds <==> d in Days(rows)
    requires Swept(rows, hd, ds, i, blocks)
    requires b'.day == ds[i] && Tally(b'.n, b'.hits) == Window(rows, ds[i], ds[i] + 1)
    requires blocks == [] || ds[i] >= blocks[|blocks| - 1].day + hd
    ensures Swept(rows, hd, ds, i + 1, blocks + [b'])
  {
    var blocks' := blocks + [b'];
    assert ds[i] in ds;
    assert Anchors(blocks') == Anchors(blocks) + [ds[i]];
    SpacedSnoc(Anchors(blocks), hd, ds[i]);
    assert InWindow(Anchors(blocks')[|blocks|], hd, ds[i]);
    CoversOneMore(Anchors(blocks), Anchors(blocks'), hd, ds, i);
    SetOfSnoc(ds, i);
    if i > 0 {
      NextDay(ds, i, rows);
      OpenBlockCloses(rows, hd, ds[i - 1], ds[i], blocks[|blocks| - 1]);
    }
  }

  lemma {:induction false} SweepExtends(rows: seq<DayRow>, hd: int, ds: seq<int>, i: nat, blocks: seq<DayRow>, t: Tally)
    requires hd >= 1 && Increasing(ds) && i < |ds| && forall d :: d in ds <==> d in Days(rows)
    requires Swept(rows, hd, ds, i, blocks)
    requires t == Window(rows, ds[i], ds[i] + 1)
    requires blocks != [] && ds[i] < blocks[|blocks| - 1].day + hd
    ensures var b := blocks[|blocks| - 1];
            Swept(rows, hd, ds, i + 1, blocks[..|blocks| - 1] + [DayRow(b.day, b.n + t.n, b.hits + t.hits)])
  {
    var b := blocks[|blocks| - 1];
    NextDay(ds, i, rows);
    BlockAbsorbs(rows, hd, ds[i - 1], ds[i], b, t);
    var blocks' := blocks[..|blocks| - 1] + [DayRow(b.day, b.n + t.n, b.hits + t.hits)];
    assert Anchors(blocks') == Anchors(blocks);
    assert ds[i - 1] < ds[i];
    SetOfSnoc(ds, i);
    CoversOneMore(Anchors(blocks), Anchors(blocks'), hd, ds, i);
  }

  lemma {:induction false} SweepCloses(rows: seq<DayRow>, hd: int, ds: seq<int>, blocks: seq<DayRow>)
    requires hd >= 1 && Increasing(ds) && forall d :: d in ds <==> d in Days(rows)
    requires Swept(rows, hd, ds, |ds|, blocks)
    ensures IsFold(rows, hd, blocks)
  {
    assert ds[..|ds|] == ds;
    assert SetOf(ds) == Days(rows);
    if blocks != [] {
      var b := blocks[|blocks| - 1];
      LastDay(ds, Days(rows));
      WindowGap(rows, b.day, ds[|ds| - 1] + 1, b.day + hd);
    }
  }

  lemma WindowSnoc(rows: seq<DayRow>, row: DayRow, lo: int, hi: int)
    ensures Window(rows + [row], lo, hi) ==
            if lo <= row.day < hi then Window(rows, lo, hi).Add(Tally(row.n, row.hits)) else Window(rows, lo, hi)
  {
    assert (rows + [row])[..|rows|] == rows;
  }

  lemma DaysSnoc(rows: seq<DayRow>, row: DayRow)
    ensures Days(rows + [row]) == Days(rows) + {row.day}
  {
    forall d | d in Days(rows) + {row.day} ensures d in Days(rows + [row]) {
      if d == row.day {
        assert (rows + [row])[|rows|] == row;
      } else {
        var r :| r in rows && r.day == d;
        assert r in rows + [row];
      }
    }
  }

  ghost predicate IsAggregate(rows: seq<DayRow>, agg: map<int, Tally>) {
    agg.Keys == Days(rows) && forall d :: d in agg ==> agg[d] == Window(rows, d, d + 1)
  }

  lemma {:induction false} AggregateSnoc(rows: seq<DayRow>, row: DayRow, agg: map<int, Tally>)
    requires IsAggregate(rows, agg)
    ensures var before := if row.day in agg then agg[row.day] else ZERO;
            IsAggregate(rows + [row], agg[row.day := before.Add(Tally(row.n, row.hits))])
  {
    DaysSnoc(rows, row);
    var before := if row.day in agg then agg[row.day] else ZERO;
    var agg' := agg[row.day := before.Add(Tally(row.n, row.hits))];
    if row.day !in agg {
      WindowGap(rows, row.day, row.day, row.day + 1);
      EmptyWindow(rows, row.day);
    }
    forall d | d in agg' ensures agg'[d] == Window(rows + [row], d, d + 1) {
      WindowSnoc(rows, row, d, d + 1);
      assert d != row.day ==> d in agg && agg'[d] == agg[d];
    }
  }

  /** Sum the tallies of each call day, whatever order and multiplicity the rows come in. */
  method AggregateDays(rows: seq<DayRow>) returns (agg: map<int, Tally>)
    ensures IsAggregate(rows, agg)
  {
    agg := map[];
    for i := 0 to |rows|
      invariant IsAggregate(rows[..i], agg)
    {
      var row := rows[i];
      var before := if row.day in agg then agg[row.day] else ZERO;
      AggregateSnoc(rows[..i], row, agg);
      assert rows[..i + 1] == rows[..i] + [row];
      agg := agg[row.day := before.Add(Tally(row.n, row.hits))];
    }
    assert rows[..|rows|] == rows;
  }

  /** The sweep itself: every day joins the last block if its window reaches that far, and
      otherwise opens the next one. */
  method HorizonBlocks(rows: seq<DayRow>, horizonDays: int) returns (blocks: seq<DayRow>)
    ensures IsFold(rows, Horizon(horizonDays), blocks)
  {
    var hd := Horizon(horizonDays);
    var agg := AggregateDays(rows);
    var ds := SortedDays(agg.Keys);
    blocks := [];
    for i := 0 to |ds|
      invariant Swept(rows, hd, ds, i, blocks)
    {
      var day := ds[i];
      assert day in ds;
      var t := agg[day];
      if blocks == [] || day >= blocks[|blocks| - 1].day + hd {
        SweepOpens(rows, hd, ds, i, blocks, DayRow(day, t.n, t.hits));
        blocks := blocks + [DayRow(day, t.n, t.hits)];
      } else {
        SweepExtends(rows, hd, ds, i, blocks, t);
        var b := blocks[|blocks| - 1];
        blocks := blocks[..|blocks| - 1] + [DayRow(b.day, b.n + t.n, b.hits + t.hits)];
      }
    }
    SweepCloses(rows, hd, ds, blocks);
  }

  lemma EmptyWindow(rows: seq<DayRow>, lo: int)
    ensures Window(rows, lo, lo) == ZERO
  {
  }

  lemma NextDay(ds: seq<int>, i: nat, rows: seq<DayRow>)
    requires Increasing(ds) && 0 < i < |ds|
    requires forall d :: d in ds <==> d in Days(rows)
    ensures NoDayBetween(rows, ds[i - 1], ds[i])
  {
    forall d | d in Days(rows) ensures !(ds[i - 1] < d < ds[i]) {
      assert d in ds;
    }
  }

  lemma LastDay(ds: seq<int>, days: set<int>)
    requires Increasing(ds) && ds != []
    requires forall d :: d in ds <==> d in days
    ensures forall d :: d in days ==> d <= ds[|ds| - 1]
  {
  }
}
