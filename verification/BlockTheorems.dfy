/** What the greedy fold of HorizonBlocks guarantees: it is the unique fold, it loses nothing,
    and its block count is at once a largest packing and a smallest cover. */
module BlockTheorems {
  import opened HorizonBlocks

  // ---------------------------------------------------------------------------
  // Packing against covering
  // ---------------------------------------------------------------------------

  /** A single window holds at most one day of a spread set. */
  lemma OneDayPerWindow(days: set<int>, start: int, hd: int, day: int)
    requires Spread(days, hd) && day in days && InWindow(start, hd, day)
    ensures forall d :: d in days && InWindow(start, hd, d) ==> d == day
  {
  }

  /** Days pairwise at least hd apart never outnumber the windows needed to cover them. */
  lemma {:induction false} PackingNeverExceedsCover(days: set<int>, starts: seq<int>, hd: int)
    requires Spread(days, hd) && Covers(starts, hd, days)
    ensures |days| <= |starts|
    decreases |starts|
  {
    if starts == [] {
      assert (forall d :: d !in days) ==> days == {};
    } else {
      var k := |starts| - 1;
      var rest := set d | d in days && !InWindow(starts[k], hd, d);
      forall d | d in rest
        ensures exists j :: 0 <= j < |starts[..k]| && InWindow(starts[..k][j], hd, d)
      {
        var j :| 0 <= j < |starts| && InWindow(starts[j], hd, d);
        assert starts[..k][j] == starts[j];
      }
      PackingNeverExceedsCover(rest, starts[..k], hd);
      if day :| day in days && InWindow(starts[k], hd, day) {
        OneDayPerWindow(days, starts[k], hd, day);
        assert days == rest + {day};
      } else {
        assert days == rest;
      }
    }
  }

  lemma EarlierStarts(starts: seq<int>, hd: int, k: nat)
    requires hd >= 1 && Spaced(starts, hd) && k < |starts|
    ensures starts[k] !in SetOf(starts[..k])
  {
    forall d | d in SetOf(starts[..k]) ensures d < starts[k] {
      var i :| 0 <= i < k && starts[..k][i] == d;
      assert starts[i] + hd <= starts[k];
    }
  }

  ghost predicate NewAt(ds: seq<int>, i: nat)
    requires i < |ds|
  {
    ds[i] !in SetOf(ds[..i])
  }

  lemma {:induction false} DistinctDays(ds: seq<int>, k: nat)
    requires k <= |ds| && forall i :: 0 <= i < k ==> NewAt(ds, i)
    ensures |SetOf(ds[..k])| == k
    decreases k
  {
    if k == 0 {
      assert SetOf(ds[..0]) == {};
    } else {
      DistinctDays(ds, k - 1);
      assert NewAt(ds, k - 1);
      SetOfSnoc(ds, k - 1);
      OneMore(SetOf(ds[..k - 1]), ds[k - 1]);
    }
  }

  lemma SpacedSet(starts: seq<int>, hd: int, k: nat)
    requires hd >= 1 && Spaced(starts, hd) && k <= |starts|
    ensures |SetOf(starts[..k])| == k
  {
    forall i | 0 <= i < k ensures NewAt(starts, i) {
      EarlierStarts(starts, hd, i);
    }
    DistinctDays(starts, k);
  }

  lemma OneMore(days: set<int>, day: int)
    requires day !in days
    ensures |days + {day}| == |days| + 1
  {
  }

  /** An anchoring is a largest packing of the days and a smallest cover of them. */
  lemma {:induction false} AnchoringIsOptimal(starts: seq<int>, hd: int, days: set<int>)
    requires hd >= 1 && Anchoring(starts, hd, days)
    ensures Spread(SetOf(starts), hd) && |SetOf(starts)| == |starts|
    ensures forall spread :: spread <= days && Spread(spread, hd) ==> |spread| <= |starts|
    ensures forall cover :: Covers(cover, hd, days) ==> |starts| <= |cover|
  {
    SpacedSet(starts, hd, |starts|);
    assert starts[..|starts|] == starts;
    forall spread | spread <= days && Spread(spread, hd) ensures |spread| <= |starts| {
      PackingNeverExceedsCover(spread, starts, hd);
    }
    forall cover | Covers(cover, hd, days) ensures |starts| <= |cover| {
      PackingNeverExceedsCover(SetOf(starts), cover, hd);
    }
  }

  /** The block count is the size of a largest set of call days pairwise at least hd apart,
      attained by the anchors, and the least number of length-hd windows that cover every
      call day, attained by the anchors' own windows. */
  lemma {:induction false} FoldIsOptimal(rows: seq<DayRow>, hd: int, blocks: seq<DayRow>)
    requires hd >= 1 && IsFold(rows, hd, blocks)
    ensures SetOf(Anchors(blocks)) <= Days(rows)
    ensures Spread(SetOf(Anchors(blocks)), hd) && |SetOf(Anchors(blocks))| == |blocks|
    ensures forall days :: days <= Days(rows) && Spread(days, hd) ==> |days| <= |blocks|
    ensures Covers(Anchors(blocks), hd, Days(rows))
    ensures forall starts :: Covers(starts, hd, Days(rows)) ==> |blocks| <= |starts|
  {
    AnchoringIsOptimal(Anchors(blocks), hd, Days(rows));
  }

  // ---------------------------------------------------------------------------
  // Uniqueness
  // ---------------------------------------------------------------------------

  /** With equal anchors before k, the k-th anchor cannot lie after another anchoring's k-th. */
  lemma {:induction false} AnchorNotAfter(a: seq<int>, b: seq<int>, hd: int, days: set<int>, k: nat)
    requires hd >= 1 && Anchoring(a, hd, days) && Anchoring(b, hd, days)
    requires k < |a| && k < |b| && a[..k] == b[..k]
    ensures a[k] <= b[k]
  {
    forall i | 0 <= i < k ensures !InWindow(a[i], hd, b[k]) {
      assert a[i] == a[..k][i] == b[..k][i] == b[i];
    }
    assert forall i :: k < i < |a| ==> a[k] + hd <= a[i];
    assert b[k] in SetOf(b);
    var j :| 0 <= j < |a| && InWindow(a[j], hd, b[k]);
  }

  /** Two anchorings of the same days agree on their first k anchors. */
  lemma {:induction false} SameAnchors(a: seq<int>, b: seq<int>, hd: int, days: set<int>, k: nat)
    requires hd >= 1 && Anchoring(a, hd, days) && Anchoring(b, hd, days)
    requires k <= |a| && k <= |b|
    ensures a[..k] == b[..k]
    decreases k
  {
    if k > 0 {
      SameAnchors(a, b, hd, days, k - 1);
      AnchorNotAfter(a, b, hd, days, k - 1);
      AnchorNotAfter(b, a, hd, days, k - 1);
      assert a[..k] == a[..k - 1] + [a[k - 1]] && b[..k] == b[..k - 1] + [b[k - 1]];
    }
  }

  lemma {:induction false} AnchoringIsUnique(a: seq<int>, b: seq<int>, hd: int, days: set<int>)
    requires hd >= 1 && Anchoring(a, hd, days) && Anchoring(b, hd, days)
    ensures a == b
  {
    AnchoringIsOptimal(a, hd, days);
    AnchoringIsOptimal(b, hd, days);
    SameAnchors(a, b, hd, days, |a|);
    assert a[..|a|] == a && b[..|a|] == b;
  }

  /** A fold is determined by its rows: anchors, counts and hits. */
  lemma {:induction false} FoldIsUnique(rows: seq<DayRow>, hd: int, a: seq<DayRow>, b: seq<DayRow>)
    requires hd >= 1 && IsFold(rows, hd, a) && IsFold(rows, hd, b)
    ensures a == b
  {
    AnchoringIsUnique(Anchors(a), Anchors(b), hd, Days(rows));
    SameBlocks(rows, hd, a, b);
  }

  lemma {:induction false} SameBlocks(rows: seq<DayRow>, hd: int, a: seq<DayRow>, b: seq<DayRow>)
    requires IsFold(rows, hd, a) && IsFold(rows, hd, b) && Anchors(a) == Anchors(b)
    ensures a == b
  {
    assert |a| == |Anchors(a)| == |b|;
    forall j | 0 <= j < |a| ensures a[j] == b[j] {
      assert a[j].day == Anchors(a)[j] == Anchors(b)[j] == b[j].day;
      assert Tally(a[j].n, a[j].hits) == Tally(b[j].n, b[j].hits);
    }
  }

  lemma {:induction false} WindowConcat(a: seq<DayRow>, b: seq<DayRow>, lo: int, hi: int)
    ensures Window(a + b, lo, hi) == Window(a, lo, hi).Add(Window(b, lo, hi))
    decreases |b|
  {
    if b == [] {
      assert a + b == a;
    } else {
      var k := |b| - 1;
      WindowConcat(a, b[..k], lo, hi);
      assert a + b == (a + b[..k]) + [b[k]];
      WindowSnoc(a + b[..k], b[k], lo, hi);
    }
  }

  lemma {:induction false} WindowRemove(rows: seq<DayRow>, k: nat, lo: int, hi: int)
    requires k < |rows|
    ensures var r := rows[k];
            Window(rows, lo, hi) ==
            Window(rows[..k] + rows[k + 1..], lo, hi).Add(if lo <= r.day < hi then Tally(r.n, r.hits) else ZERO)
  {
    assert rows == (rows[..k] + [rows[k]]) + rows[k + 1..];
    WindowConcat(rows[..k] + [rows[k]], rows[k + 1..], lo, hi);
    WindowSnoc(rows[..k], rows[k], lo, hi);
    WindowConcat(rows[..k], rows[k + 1..], lo, hi);
  }

  lemma MultisetRemove<T>(s: seq<T>, i: nat)
    requires i < |s|
    ensures multiset(s[..i] + s[i + 1..]) == multiset(s) - multiset{s[i]}
  {
    assert s == s[..i] + [s[i]] + s[i + 1..];
  }

  lemma {:induction false} WindowIgnoresOrder(rows: seq<DayRow>, rows': seq<DayRow>, lo: int, hi: int)
    requires multiset(rows) == multiset(rows')
    ensures Window(rows, lo, hi) == Window(rows', lo, hi)
    decreases |rows|
  {
    assert |rows| == |multiset(rows)| == |multiset(rows')| == |rows'|;
    if rows != [] {
      var k := |rows| - 1;
      assert rows[k] in multiset(rows');
      var i :| 0 <= i < |rows'| && rows'[i] == rows[k];
      var rest, rest' := rows[..k], rows'[..i] + rows'[i + 1..];
      assert multiset(rest) == multiset(rest') by {
        MultisetRemove(rows, k);
        MultisetRemove(rows', i);
        assert rows[..k] + rows[k + 1..] == rest;
      }
      WindowIgnoresOrder(rest, rest', lo, hi);
      WindowRemove(rows', i, lo, hi);
    }
  }

  lemma DaysIgnoreOrder(rows: seq<DayRow>, rows': seq<DayRow>)
    requires multiset(rows) == multiset(rows')
    ensures Days(rows) == Days(rows')
  {
    forall r | r in rows || r in rows' ensures r in rows && r in rows' {
      assert r in multiset(rows) <==> r in rows;
      assert r in multiset(rows') <==> r in rows';
    }
  }

  /** The fold does not depend on the order in which the rows arrive. */
  lemma {:induction false} FoldIgnoresOrder(rows: seq<DayRow>, rows': seq<DayRow>, hd: int, a: seq<DayRow>,
          b: seq<DayRow>)
    requires hd >= 1 && multiset(rows) == multiset(rows')
    requires IsFold(rows, hd, a) && IsFold(rows', hd, b)
    ensures a == b
  {
    DaysIgnoreOrder(rows, rows');
    AnchoringIsUnique(Anchors(a), Anchors(b), hd, Days(rows));
    assert |a| == |Anchors(a)| == |Anchors(b)| == |b|;
    forall j | 0 <= j < |a| ensures a[j] == b[j] {
      assert a[j].day == Anchors(a)[j] == Anchors(b)[j] == b[j].day;
      WindowIgnoresOrder(rows, rows', a[j].day, a[j].day + hd);
      assert Tally(a[j].n, a[j].hits) == Tally(b[j].n, b[j].hits);
    }
  }

  // ---------------------------------------------------------------------------
  // Conservation
  // ---------------------------------------------------------------------------

  /** What the windows opened at the first k starts hold together. */
  function WindowsTotal(rows: seq<DayRow>, starts: seq<int>, hd: int, k: nat): Tally
    requires k <= |starts|
  {
    if k == 0 then ZERO
    else WindowsTotal(rows, starts, hd, k - 1).Add(Window(rows, starts[k - 1], starts[k - 1] + hd))
  }

  /** A row outside the first k windows changes nothing. */
  lemma {:induction false} RowOutside(rows: seq<DayRow>, row: DayRow, starts: seq<int>, hd: int, k: nat)
    requires k <= |starts| && forall j :: 0 <= j < k ==> !InWindow(starts[j], hd, row.day)
    ensures WindowsTotal(rows + [row], starts, hd, k) == WindowsTotal(rows, starts, hd, k)
    decreases k
  {
    if k > 0 {
      RowOutside(rows, row, starts, hd, k - 1);
      WindowSnoc(rows, row, starts[k - 1], starts[k - 1] + hd);
      assert !InWindow(starts[k - 1], hd, row.day);
    }
  }

  /** A row inside exactly one of the first k windows is counted exactly once. */
  lemma {:induction false} RowInside(rows: seq<DayRow>, row: DayRow, starts: seq<int>, hd: int, k: nat, j: nat)
    requires j < k <= |starts| && InWindow(starts[j], hd, row.day)
    requires forall i :: 0 <= i < k && i != j ==> !InWindow(starts[i], hd, row.day)
    ensures WindowsTotal(rows + [row], starts, hd, k) == WindowsTotal(rows, starts, hd, k).Add(Tally(row.n, row.hits))
    decreases k
  {
    WindowSnoc(rows, row, starts[k - 1], starts[k - 1] + hd);
    if j == k - 1 {
      RowOutside(rows, row, starts, hd, k - 1);
    } else {
      RowInside(rows, row, starts, hd, k - 1, j);
      assert !InWindow(starts[k - 1], hd, row.day);
    }
  }

  lemma {:induction false} NoRows(starts: seq<int>, hd: int, k: nat)
    requires k <= |starts|
    ensures WindowsTotal([], starts, hd, k) == ZERO
    decreases k
  {
    if k > 0 {
      NoRows(starts, hd, k - 1);
    }
  }

  lemma OneWindow(starts: seq<int>, hd: int, j: nat, day: int)
    requires Spaced(starts, hd) && j < |starts| && InWindow(starts[j], hd, day)
    ensures forall i :: 0 <= i < |starts| && i != j ==> !InWindow(starts[i], hd, day)
  {
  }

  lemma {:induction false} WindowsHoldEverything(rows: seq<DayRow>, starts: seq<int>, hd: int)
    requires Spaced(starts, hd) && Covers(starts, hd, Days(rows))
    ensures WindowsTotal(rows, starts, hd, |starts|) == Total(rows)
    decreases |rows|
  {
    if rows == [] {
      NoRows(starts, hd, |starts|);
    } else {
      var k := |rows| - 1;
      var front, row := rows[..k], rows[k];
      assert rows == front + [row];
      DaysSnoc(front, row);
      WindowsHoldEverything(front, starts, hd);
      assert row.day in Days(rows);
      var j :| 0 <= j < |starts| && InWindow(starts[j], hd, row.day);
      OneWindow(starts, hd, j, row.day);
      RowInside(front, row, starts, hd, |starts|, j);
    }
  }

  lemma {:induction false} BlocksAreWindows(rows: seq<DayRow>, hd: int, blocks: seq<DayRow>, k: nat)
    requires k <= |blocks|
    requires forall j :: 0 <= j < |blocks| ==>
                           Tally(blocks[j].n, blocks[j].hits) == Window(rows, blocks[j].day, blocks[j].day + hd)
    ensures Total(blocks[..k]) == WindowsTotal(rows, Anchors(blocks), hd, k)
    decreases k
  {
    if k > 0 {
      BlocksAreWindows(rows, hd, blocks, k - 1);
      assert blocks[..k][..k - 1] == blocks[..k - 1];
    }
  }

  /** No observation and no hit is lost or counted twice, and every call day lies in exactly
      one block's window. */
  lemma {:induction false} FoldConserves(rows: seq<DayRow>, hd: int, blocks: seq<DayRow>)
    requires hd >= 1 && IsFold(rows, hd, blocks)
    ensures Total(blocks) == Total(rows)
    ensures forall d :: d in Days(rows) ==>
                          exists j :: 0 <= j < |blocks| && InWindow(Anchors(blocks)[j], hd, d)
    ensures forall d, i, j | 0 <= i < |blocks| && 0 <= j < |blocks| ::
              InWindow(Anchors(blocks)[i], hd, d) && InWindow(Anchors(blocks)[j], hd, d) ==> i == j
  {
    BlocksAreWindows(rows, hd, blocks, |blocks|);
    assert blocks[..|blocks|] == blocks;
    WindowsHoldEverything(rows, Anchors(blocks), hd);
  }

  // ---------------------------------------------------------------------------
  // Horizon one, and the span of the sample
  // ---------------------------------------------------------------------------

  /** At horizon 1 the fold is the per-day aggregate itself. */
  lemma HorizonOneIsIdentity(rows: seq<DayRow>, blocks: seq<DayRow>)
    requires IsFold(rows, 1, blocks)
    ensures SetOf(Anchors(blocks)) == Days(rows) && |blocks| == |Days(rows)|
    ensures forall j :: 0 <= j < |blocks| ==>
                          Tally(blocks[j].n, blocks[j].hits) == Window(rows, blocks[j].day, blocks[j].day + 1)
  {
    FoldIsOptimal(rows, 1, blocks);
    forall d | d in Days(rows) ensures d in SetOf(Anchors(blocks)) {
      var j :| 0 <= j < |Anchors(blocks)| && InWindow(Anchors(blocks)[j], 1, d);
      assert Anchors(blocks)[j] == d;
    }
  }

  /** How many block-widths the sample stretches across, 0 without blocks. */
  function BlockSpan(blocks: seq<DayRow>, hd: int): int
    requires hd >= 1
  {
    if blocks == [] then 0 else (blocks[|blocks| - 1].day - blocks[0].day + hd) / hd
  }

  lemma {:induction false} AnchorsAdvance(starts: seq<int>, hd: int, k: nat)
    requires Spaced(starts, hd) && k < |starts|
    ensures starts[k] - starts[0] >= k * hd
    decreases k
  {
    if k > 0 {
      AnchorsAdvance(starts, hd, k - 1);
      assert starts[k - 1] + hd <= starts[k];
      assert k * hd == (k - 1) * hd + hd;
    }
  }

  /** A sample never holds more blocks than the block-widths it stretches across. */
  lemma SpanBoundsBlocks(rows: seq<DayRow>, hd: int, blocks: seq<DayRow>)
    requires hd >= 1 && IsFold(rows, hd, blocks)
    ensures BlockSpan(blocks, hd) >= |blocks|
  {
    if blocks != [] {
      AnchorsAdvance(Anchors(blocks), hd, |blocks| - 1);
      var span := blocks[|blocks| - 1].day - blocks[0].day + hd;
      assert span >= |blocks| * hd;
      QuotientAtLeast(span, |blocks|, hd);
    }
  }

  lemma QuotientAtLeast(x: int, q: int, d: int)
    requires d >= 1 && x >= q * d
    ensures x / d >= q
  {
    var r := x / d;
    assert x == d * r + x % d;
    assert d * (q - r) == q * d - d * r;
    AtLeastOneFactor(d, q - r, d * (q - r));
  }

  lemma AtLeastOneFactor(d: int, gap: int, product: int)
    requires d >= 1 && product == d * gap
    ensures gap >= 1 ==> product >= d
  {
    if gap >= 1 {
      assert d * gap == d + d * (gap - 1);
    }
  }
}
