/** The gate on hand-typed accuracy figures, one document at a time (tools/docs_gate.py,
    check_no_hardcoded_live_accuracy). Line numbers count from 1, as the source's do. */
module RegionScanner {
  import opened Anchoring

  const LIVE := "live_accuracy"

  datatype Region = Region(first: nat, last: nat)

  /** The open region, if any. A live-accuracy region always carries its fixed name. */
  datatype Current = Closed | Open(live: bool, name: string, at: nat)

  datatype Finding =
    | NotAnchored(line: nat, why: Anchor)
    | Mismatched(line: nat, closedAt: nat)
    | Nested(line: nat, openedAt: nat)
    | Unterminated(line: nat)
    | Hardcoded(line: nat)

  datatype State = State(current: Current, regions: seq<Region>, found: seq<Finding>)

  // ---------------------------------------------------------------------------
  // The first pass, line by line
  // ---------------------------------------------------------------------------

  function KindAt(repo: Repo, doc: seq<string>, i: nat): Kind {
    if 1 <= i <= |doc| then repo.classify(doc[i - 1]) else Plain
  }

  predicate IsBegin(kind: Kind) {
    kind.GenBegin? || kind.LiveBegin?
  }

  /** The lines strictly between the markers. */
  function Between(doc: seq<string>, first: nat, last: nat): seq<string>
    requires 1 <= first < last <= |doc|
  {
    doc[first..last - 1]
  }

  /** What closing the open region with its own END marker on line i leaves behind. */
  function Close(repo: Repo, doc: seq<string>, i: nat, st: State): State
    requires st.current.Open? && 1 <= st.current.at < i <= |doc|
  {
    var at := st.current.at;
    var anchor := AnchorOf(repo, st.current.name, Between(doc, at, i));
    if anchor == Earned then State(Closed, st.regions + [Region(at, i)], st.found)
    else State(Closed, st.regions, st.found + [NotAnchored(at, anchor)])
  }

  function Step(repo: Repo, doc: seq<string>, i: nat, st: State): State
    requires 1 <= i <= |doc| && (st.current.Open? ==> 1 <= st.current.at < i)
  {
    var kind := KindAt(repo, doc, i);
    match st.current
    case Closed =>
      (match kind
       case GenBegin(name) => st.(current := Open(false, name, i))
       case LiveBegin => st.(current := Open(true, LIVE, i))
       case _ => st)
    case Open(live, name, at) =>
      if !live && kind.GenEnd? then
        if kind.name == name then Close(repo, doc, i, st)
        else State(Closed, st.regions, st.found + [Mismatched(at, i)])
      else if live && kind.LiveEnd? then Close(repo, doc, i, st)
      else if IsBegin(kind) then State(Closed, st.regions, st.found + [Nested(i, at)])
      else st
  }

  /** The state after the first k lines. */
  function Scan(repo: Repo, doc: seq<string>, k: nat): (st: State)
    requires k <= |doc|
    ensures st.current.Open? ==> 1 <= st.current.at <= k
  {
    if k == 0 then State(Closed, [], []) else Step(repo, doc, k, Scan(repo, doc, k - 1))
  }

  function Structural(repo: Repo, doc: seq<string>): seq<Finding> {
    var st := Scan(repo, doc, |doc|);
    if st.current.Open? then st.found + [Unterminated(st.current.at)] else st.found
  }

  function ExemptRegions(repo: Repo, doc: seq<string>): seq<Region> {
    Scan(repo, doc, |doc|).regions
  }

  // ---------------------------------------------------------------------------
  // The second pass
  // ---------------------------------------------------------------------------

  predicate Inside(regions: seq<Region>, i: nat) {
    exists r :: 0 <= r < |regions| && regions[r].first <= i <= regions[r].last
  }

  /** One finding for every flagged line among the first k that no exempt region covers. */
  function HardcodedUpTo(doc: seq<string>, flagged: string -> bool, regions: seq<Region>, k: nat): seq<Finding>
    requires k <= |doc|
  {
    if k == 0 then []
    else HardcodedUpTo(doc, flagged, regions, k - 1)
         + if !Inside(regions, k) && flagged(doc[k - 1]) then [Hardcoded(k)] else []
  }

  function AllFindings(repo: Repo, doc: seq<string>, flagged: string -> bool): seq<Finding> {
    Structural(repo, doc) + HardcodedUpTo(doc, flagged, ExemptRegions(repo, doc), |doc|)
  }

  /** Both passes, as the gate runs them. */
  method CheckDocument(repo: Repo, doc: seq<string>, flagged: string -> bool)
    returns (violations: seq<Finding>, wellformed: seq<Region>)
    ensures wellformed == ExemptRegions(repo, doc)
    ensures violations == AllFindings(repo, doc, flagged)
  {
    violations, wellformed := [], [];
    var current := Closed;
    for i := 1 to |doc| + 1
      invariant Scan(repo, doc, i - 1) == State(current, wellformed, violations)
    {
      var kind := KindAt(repo, doc, i);
      if current == Closed {
        if kind.GenBegin? {
          current := Open(false, kind.name, i);
        } else if kind.LiveBegin? {
          current := Open(true, LIVE, i);
        }
      } else if (!current.live && kind.GenEnd? && kind.name == current.name) || (current.live && kind.LiveEnd?) {
        var anchor := AnchorOf(repo, current.name, Between(doc, current.at, i));
        if anchor == Earned {
          wellformed := wellformed + [Region(current.at, i)];
        } else {
          violations := violations + [NotAnchored(current.at, anchor)];
        }
        current := Closed;
      } else if !current.live && kind.GenEnd? {
        violations := violations + [Mismatched(current.at, i)];
        current := Closed;
      } else if IsBegin(kind) {
        violations := violations + [Nested(i, current.at)];
        current := Closed;
      }
    }
    if current.Open? {
      violations := violations + [Unterminated(current.at)];
    }
    ghost var structural := violations;
    for i := 1 to |doc| + 1
      invariant violations == structural + HardcodedUpTo(doc, flagged, wellformed, i - 1)
    {
      var inGenerated := InAnyRegion(wellformed, i);
      if !inGenerated && flagged(doc[i - 1]) {
        violations := violations + [Hardcoded(i)];
      }
    }
  }

  method InAnyRegion(regions: seq<Region>, i: nat) returns (inGenerated: bool)
    ensures inGenerated == Inside(regions, i)
  {
    for r := 0 to |regions|
      invariant forall q :: 0 <= q < r ==> !(regions[q].first <= i <= regions[q].last)
    {
      if regions[r].first <= i <= regions[r].last {
        return true;
      }
    }
    return false;
  }

  // ---------------------------------------------------------------------------
  // Every exempt region is sound
  // ---------------------------------------------------------------------------

  function NameOf(begin: Kind): string {
    if begin.GenBegin? then begin.name else LIVE
  }

  /** An END marker of the same kind. */
  predicate EndOf(begin: Kind, kind: Kind) {
    (begin.GenBegin? && kind.GenEnd?) || (begin.LiveBegin? && kind.LiveEnd?)
  }

  predicate EndsNamed(begin: Kind, kind: Kind) {
    EndOf(begin, kind) && (begin.GenBegin? ==> kind.name == begin.name)
  }

  /** Between the first line and the k-th no marker opens a region and none of this kind closes
      one. */
  ghost predicate Undisturbed(repo: Repo, doc: seq<string>, first: nat, k: nat) {
    forall j :: first < j <= k ==>
      !IsBegin(KindAt(repo, doc, j)) && !EndOf(KindAt(repo, doc, first), KindAt(repo, doc, j))
  }

  /** BEGIN and END of one kind and name, no BEGIN and no END of that kind in between, and
      contents that match a declared partial. */
  ghost predicate Proper(repo: Repo, doc: seq<string>, r: Region) {
    && 1 <= r.first < r.last <= |doc|
    && IsBegin(KindAt(repo, doc, r.first)) && EndsNamed(KindAt(repo, doc, r.first), KindAt(repo, doc, r.last))
    && Undisturbed(repo, doc, r.first, r.last - 1)
    && AnchorOf(repo, NameOf(KindAt(repo, doc, r.first)), Between(doc, r.first, r.last)) == Earned
  }

  ghost predicate OpenFits(repo: Repo, doc: seq<string>, k: nat, current: Current) {
    current.Open? ==>
      && 1 <= current.at <= k <= |doc|
      && KindAt(repo, doc, current.at) == (if current.live then LiveBegin else GenBegin(current.name))
      && (current.live ==> current.name == LIVE)
      && Undisturbed(repo, doc, current.at, k)
  }

  /** Regions lie one after the other, and before the given line. */
  ghost predicate InOrder(regions: seq<Region>, before: nat) {
    && (forall q, r :: 0 <= q < r < |regions| ==> regions[q].last < regions[r].first)
    && (forall r :: 0 <= r < |regions| ==> regions[r].first < regions[r].last < before)
  }

  ghost predicate AllProper(repo: Repo, doc: seq<string>, regions: seq<Region>) {
    forall r :: 0 <= r < |regions| ==> Proper(repo, doc, regions[r])
  }

  function FirstFree(k: nat, current: Current): nat {
    if current.Open? then current.at else k + 1
  }

  lemma OpenKept(repo: Repo, doc: seq<string>, k: nat, st: State)
    requires 0 < k <= |doc| && OpenFits(repo, doc, k - 1, st.current)
    ensures OpenFits(repo, doc, k, Step(repo, doc, k, st).current)
  {
  }

  lemma RegionsKept(repo: Repo, doc: seq<string>, k: nat, st: State)
    requires 0 < k <= |doc| && OpenFits(repo, doc, k - 1, st.current) && AllProper(repo, doc, st.regions)
    ensures AllProper(repo, doc, Step(repo, doc, k, st).regions)
  {
  }

  lemma OrderSnoc(regions: seq<Region>, r: Region, before: nat)
    requires InOrder(regions, r.first) && r.first < r.last < before
    ensures InOrder(regions + [r], before)
  {
  }

  lemma OrderLater(regions: seq<Region>, before: nat, later: nat)
    requires InOrder(regions, before) && before <= later
    ensures InOrder(regions, later)
  {
  }

  lemma OrderKept(repo: Repo, doc: seq<string>, k: nat, st: State)
    requires 0 < k <= |doc| && OpenFits(repo, doc, k - 1, st.current)
    requires InOrder(st.regions, FirstFree(k - 1, st.current))
    ensures InOrder(Step(repo, doc, k, st).regions, FirstFree(k, Step(repo, doc, k, st).current))
  {
    var next := Step(repo, doc, k, st);
    if next.regions == st.regions {
      OrderLater(st.regions, FirstFree(k - 1, st.current), FirstFree(k, next.current));
    } else {
      OrderSnoc(st.regions, Region(st.current.at, k), k + 1);
    }
  }

  /** The open region fits, and the regions closed so far are proper and in order before it. */
  ghost predicate Sound(repo: Repo, doc: seq<string>, k: nat, st: State) {
    && OpenFits(repo, doc, k, st.current) && AllProper(repo, doc, st.regions)
    && InOrder(st.regions, FirstFree(k, st.current))
  }

  lemma SoundKept(repo: Repo, doc: seq<string>, k: nat, st: State)
    requires 0 < k <= |doc| && Sound(repo, doc, k - 1, st)
    ensures Sound(repo, doc, k, Step(repo, doc, k, st))
  {
    OpenKept(repo, doc, k, st);
    RegionsKept(repo, doc, k, st);
    OrderKept(repo, doc, k, st);
  }

  lemma {:induction false} ScanSound(repo: Repo, doc: seq<string>, k: nat)
    requires k <= |doc|
    ensures Sound(repo, doc, k, Scan(repo, doc, k))
    decreases k
  {
    if k > 0 {
      ScanSound(repo, doc, k - 1);
      SoundKept(repo, doc, k, Scan(repo, doc, k - 1));
    }
  }

  /** Main result: on every document the exempt regions are disjoint and increasing, and each of
      them has matching markers, no BEGIN and no END of its kind in between, and the contents of a
      declared partial. */
  lemma ExemptRegionsAreSound(repo: Repo, doc: seq<string>)
    ensures AllProper(repo, doc, ExemptRegions(repo, doc))
    ensures InOrder(ExemptRegions(repo, doc), |doc| + 1)
  {
    ScanSound(repo, doc, |doc|);
  }

  // ---------------------------------------------------------------------------
  // No BEGIN marker goes unaccounted for
  // ---------------------------------------------------------------------------

  function Begins(repo: Repo, doc: seq<string>, k: nat): nat {
    if k == 0 then 0 else Begins(repo, doc, k - 1) + if IsBegin(KindAt(repo, doc, k)) then 1 else 0
  }

  /** How many BEGIN markers a finding disposes of: a nested one takes the outer one with it. */
  function Weight(f: Finding): nat {
    match f
    case Nested(_, _) => 2
    case Hardcoded(_) => 0
    case _ => 1
  }

  function Weights(found: seq<Finding>): nat {
    if found == [] then 0 else Weights(found[..|found| - 1]) + Weight(found[|found| - 1])
  }

  lemma WeightsSnoc(found: seq<Finding>, f: Finding)
    ensures Weights(found + [f]) == Weights(found) + Weight(f)
  {
    assert (found + [f])[..|found|] == found;
  }

  function Tally(st: State): nat {
    |st.regions| + Weights(st.found) + if st.current.Open? then 1 else 0
  }

  /** A step closes, opens or keeps a region, and adds at most one finding. */
  lemma TallyWhenClosed(repo: Repo, doc: seq<string>, k: nat, st: State)
    requires k < |doc| && st.current.Closed?
    ensures Tally(Step(repo, doc, k + 1, st)) == Tally(st) + if IsBegin(KindAt(repo, doc, k + 1)) then 1 else 0
  {
  }

  /** What one line does to an open region: nothing, close it, or replace it by a finding. */
  ghost predicate OpenFollows(st: State, next: State, begin: bool)
    requires st.current.Open?
  {
    || (next == st && !begin)
    || (|next.regions| == |st.regions| + 1 && next.found == st.found && next.current == Closed && !begin)
    || (next.regions == st.regions && next.current == Closed
        && exists f :: next.found == st.found + [f] && Weight(f) == if begin then 2 else 1)
  }

  lemma OpenStep(repo: Repo, doc: seq<string>, k: nat, st: State)
    requires k < |doc| && st.current.Open? && 1 <= st.current.at <= k
    ensures OpenFollows(st, Step(repo, doc, k + 1, st), IsBegin(KindAt(repo, doc, k + 1)))
  {
    var next := Step(repo, doc, k + 1, st);
    if |next.found| > |st.found| {
      assert next.found == st.found + [next.found[|st.found|]];
    }
  }

  lemma TallyFollows(st: State, next: State, begin: bool)
    requires st.current.Open? && OpenFollows(st, next, begin)
    ensures Tally(next) == Tally(st) + if begin then 1 else 0
  {
    if f :| next.found == st.found + [f] && Weight(f) == if begin then 2 else 1 {
      WeightsSnoc(st.found, f);
    }
  }

  lemma TallyWhenOpen(repo: Repo, doc: seq<string>, k: nat, st: State)
    requires k < |doc| && st.current.Open? && 1 <= st.current.at <= k
    ensures Tally(Step(repo, doc, k + 1, st)) == Tally(st) + if IsBegin(KindAt(repo, doc, k + 1)) then 1 else 0
  {
    OpenStep(repo, doc, k, st);
    TallyFollows(st, Step(repo, doc, k + 1, st), IsBegin(KindAt(repo, doc, k + 1)));
  }

  lemma TallyStep(repo: Repo, doc: seq<string>, k: nat, st: State)
    requires k < |doc| && OpenFits(repo, doc, k, st.current)
    ensures Tally(Step(repo, doc, k + 1, st)) == Tally(st) + if IsBegin(KindAt(repo, doc, k + 1)) then 1 else 0
  {
    if st.current.Open? {
      TallyWhenOpen(repo, doc, k, st);
    } else {
      TallyWhenClosed(repo, doc, k, st);
    }
  }

  lemma {:induction false} ScanTally(repo: Repo, doc: seq<string>, k: nat)
    requires k <= |doc|
    ensures Tally(Scan(repo, doc, k)) == Begins(repo, doc, k)
    decreases k
  {
    if k > 0 {
      ScanTally(repo, doc, k - 1);
      ScanSound(repo, doc, k - 1);
      TallyStep(repo, doc, k - 1, Scan(repo, doc, k - 1));
    }
  }

  /** Main result: every BEGIN marker either opens an exempt region or is paid for by a
      finding; two of them by a nesting. */
  lemma BeginsAreConserved(repo: Repo, doc: seq<string>)
    ensures Begins(repo, doc, |doc|) == |ExemptRegions(repo, doc)| + Weights(Structural(repo, doc))
  {
    ScanTally(repo, doc, |doc|);
    var st := Scan(repo, doc, |doc|);
    if st.current.Open? {
      WeightsSnoc(st.found, Unterminated(st.current.at));
    }
  }

  // ---------------------------------------------------------------------------
  // Clean documents
  // ---------------------------------------------------------------------------

  /** Every BEGIN marker among the first k lines starts a proper region. */
  ghost predicate AllBeginsProper(repo: Repo, doc: seq<string>, k: nat) {
    forall i :: 1 <= i <= k && IsBegin(KindAt(repo, doc, i)) ==> exists last :: Proper(repo, doc, Region(i, last))
  }

  /** A region that nothing has disturbed yet has its END marker still to come. */
  lemma EndStillToCome(repo: Repo, doc: seq<string>, at: nat, k: nat, last: nat)
    requires Proper(repo, doc, Region(at, last)) && Undisturbed(repo, doc, at, k)
    ensures last > k
  {
    assert EndOf(KindAt(repo, doc, at), KindAt(repo, doc, last));
  }

  lemma OpenCannotOutlast(repo: Repo, doc: seq<string>, current: Current)
    requires AllBeginsProper(repo, doc, |doc|)
    ensures !(current.Open? && OpenFits(repo, doc, |doc|, current))
  {
    forall at: nat, last: nat | Proper(repo, doc, Region(at, last)) ensures !Undisturbed(repo, doc, at, |doc|) {
      assert EndOf(KindAt(repo, doc, at), KindAt(repo, doc, last));
    }
  }

  /** Inside a proper region the scanner passes every line before the END and closes on it. */
  lemma InsideProper(repo: Repo, doc: seq<string>, k: nat, at: nat, last: nat)
    requires Proper(repo, doc, Region(at, last)) && at <= k < last
    ensures k + 1 < last ==>
              !IsBegin(KindAt(repo, doc, k + 1)) && !EndOf(KindAt(repo, doc, at), KindAt(repo, doc, k + 1))
  {
  }

  lemma ProperStepOpen(repo: Repo, doc: seq<string>, k: nat, st: State, last: nat)
    requires k < |doc| && st.current.Open? && OpenFits(repo, doc, k, st.current)
    requires Proper(repo, doc, Region(st.current.at, last)) && k < last
    ensures Step(repo, doc, k + 1, st).found == st.found
  {
    InsideProper(repo, doc, k, st.current.at, last);
  }

  lemma ProperStep(repo: Repo, doc: seq<string>, k: nat, st: State)
    requires k < |doc| && OpenFits(repo, doc, k, st.current) && AllBeginsProper(repo, doc, |doc|)
    ensures Step(repo, doc, k + 1, st).found == st.found
  {
    if st.current.Open? {
      var at := st.current.at;
      assert IsBegin(KindAt(repo, doc, at));
      var last: nat :| Proper(repo, doc, Region(at, last));
      EndStillToCome(repo, doc, at, k, last);
      ProperStepOpen(repo, doc, k, st, last);
    }
  }

  lemma {:induction false} ProperDocumentsScanClean(repo: Repo, doc: seq<string>, k: nat)
    requires k <= |doc| && AllBeginsProper(repo, doc, |doc|)
    ensures Scan(repo, doc, k).found == []
    decreases k
  {
    if k > 0 {
      ProperDocumentsScanClean(repo, doc, k - 1);
      ScanSound(repo, doc, k - 1);
      ProperStep(repo, doc, k - 1, Scan(repo, doc, k - 1));
    }
  }

  /** Every BEGIN marker read so far is the first line of an exempt region or the open one. */
  ghost predicate AllClaimed(repo: Repo, doc: seq<string>, k: nat, st: State) {
    forall i :: 1 <= i <= k && IsBegin(KindAt(repo, doc, i)) ==>
      (exists r :: 0 <= r < |st.regions| && st.regions[r].first == i) || (st.current.Open? && st.current.at == i)
  }

  lemma ClaimStep(repo: Repo, doc: seq<string>, k: nat, st: State)
    requires k < |doc| && OpenFits(repo, doc, k, st.current) && AllClaimed(repo, doc, k, st)
    requires Step(repo, doc, k + 1, st).found == st.found
    ensures AllClaimed(repo, doc, k + 1, Step(repo, doc, k + 1, st))
  {
    var next := Step(repo, doc, k + 1, st);
    forall i | 1 <= i <= k + 1 && IsBegin(KindAt(repo, doc, i))
      ensures (exists r :: 0 <= r < |next.regions| && next.regions[r].first == i)
              || (next.current.Open? && next.current.at == i)
    {
      if r :| 0 <= r < |st.regions| && st.regions[r].first == i {
        assert next.regions[r].first == i;
      } else if st.current.Open? && st.current.at == i && next.current.Closed? {
        assert next.regions[|st.regions|].first == i;
      }
    }
  }

  lemma FoundGrows(repo: Repo, doc: seq<string>, k: nat, st: State)
    requires k < |doc| && OpenFits(repo, doc, k, st.current)
    ensures |Step(repo, doc, k + 1, st).found| >= |st.found|
  {
  }

  lemma CleanBefore(repo: Repo, doc: seq<string>, k: nat)
    requires 0 < k <= |doc| && Scan(repo, doc, k).found == []
    ensures Scan(repo, doc, k - 1).found == []
    ensures OpenFits(repo, doc, k - 1, Scan(repo, doc, k - 1).current)
  {
    ScanSound(repo, doc, k - 1);
    FoundGrows(repo, doc, k - 1, Scan(repo, doc, k - 1));
  }

  lemma CleanStepClaims(repo: Repo, doc: seq<string>, k: nat)
    requires 0 < k <= |doc| && Scan(repo, doc, k).found == []
    requires AllClaimed(repo, doc, k - 1, Scan(repo, doc, k - 1))
    ensures AllClaimed(repo, doc, k, Scan(repo, doc, k))
  {
    CleanBefore(repo, doc, k);
    ClaimStep(repo, doc, k - 1, Scan(repo, doc, k - 1));
  }

  lemma {:induction false} CleanScansClaim(repo: Repo, doc: seq<string>, k: nat)
    requires k <= |doc| && Scan(repo, doc, k).found == []
    ensures AllClaimed(repo, doc, k, Scan(repo, doc, k))
    decreases k
  {
    if k > 0 {
      CleanBefore(repo, doc, k);
      CleanScansClaim(repo, doc, k - 1);
      CleanStepClaims(repo, doc, k);
    }
  }

  /** Main result: the gate finds nothing wrong with a document's markers exactly when every
      BEGIN marker in it starts a proper region. */
  lemma MarkersPassExactlyWhen(repo: Repo, doc: seq<string>)
    ensures Structural(repo, doc) == [] <==> AllBeginsProper(repo, doc, |doc|)
  {
    var st := Scan(repo, doc, |doc|);
    ScanSound(repo, doc, |doc|);
    if AllBeginsProper(repo, doc, |doc|) {
      ProperDocumentsScanClean(repo, doc, |doc|);
      OpenCannotOutlast(repo, doc, st.current);
    }
    if Structural(repo, doc) == [] {
      CleanScansClaim(repo, doc, |doc|);
      forall i | 1 <= i <= |doc| && IsBegin(KindAt(repo, doc, i))
        ensures exists last :: Proper(repo, doc, Region(i, last))
      {
        var r :| 0 <= r < |st.regions| && st.regions[r].first == i;
        assert Proper(repo, doc, Region(i, st.regions[r].last));
      }
    }
  }

  // ---------------------------------------------------------------------------
  // Failing closed
  // ---------------------------------------------------------------------------

  function Reports(found: seq<Finding>, i: nat): nat {
    if found == [] then 0
    else Reports(found[..|found| - 1], i) + if found[|found| - 1] == Hardcoded(i) then 1 else 0
  }

  lemma {:induction false} ReportsConcat(a: seq<Finding>, b: seq<Finding>, i: nat)
    ensures Reports(a + b, i) == Reports(a, i) + Reports(b, i)
    decreases |b|
  {
    if b == [] {
      assert a + b == a;
    } else {
      ReportsConcat(a, b[..|b| - 1], i);
      assert (a + b)[..|a + b| - 1] == a + b[..|b| - 1];
    }
  }

  lemma ReportsSnoc(found: seq<Finding>, f: Finding, i: nat)
    ensures Reports(found + [f], i) == Reports(found, i) + if f == Hardcoded(i) then 1 else 0
  {
    assert (found + [f])[..|found|] == found;
  }

  lemma {:induction false} SecondPassReports(doc: seq<string>, flagged: string -> bool, regions: seq<Region>,
          k: nat, i: nat)
    requires k <= |doc|
    ensures Reports(HardcodedUpTo(doc, flagged, regions, k), i)
            == if 1 <= i <= k && !Inside(regions, i) && flagged(doc[i - 1]) then 1 else 0
    decreases k
  {
    if k > 0 {
      SecondPassReports(doc, flagged, regions, k - 1, i);
      var front := HardcodedUpTo(doc, flagged, regions, k - 1);
      ReportsSnoc(front, Hardcoded(k), i);
      assert front + [] == front;
    }
  }

  lemma {:induction false} FirstPassReportsNone(repo: Repo, doc: seq<string>, k: nat, i: nat)
    requires k <= |doc|
    ensures Reports(Scan(repo, doc, k).found, i) == 0
    decreases k
  {
    if k > 0 {
      FirstPassReportsNone(repo, doc, k - 1, i);
      var st, next := Scan(repo, doc, k - 1), Scan(repo, doc, k);
      if next.found != st.found {
        assert next.found[..|next.found| - 1] == st.found;
      }
    }
  }

  /** Main result: a flagged line outside the exempt regions, whatever broken, forged or nested
      markers surround it, is reported exactly once; no other line is reported at all. */
  lemma ReportedExactlyOnce(repo: Repo, doc: seq<string>, flagged: string -> bool, i: nat)
    requires 1 <= i <= |doc|
    ensures Reports(AllFindings(repo, doc, flagged), i)
            == if flagged(doc[i - 1]) && !Inside(ExemptRegions(repo, doc), i) then 1 else 0
  {
    var st := Scan(repo, doc, |doc|);
    FirstPassReportsNone(repo, doc, |doc|, i);
    if st.current.Open? {
      ReportsConcat(st.found, [Unterminated(st.current.at)], i);
    }
    ReportsConcat(Structural(repo, doc), HardcodedUpTo(doc, flagged, st.regions, |doc|), i);
    SecondPassReports(doc, flagged, st.regions, |doc|, i);
  }

  ghost predicate PublishedSomewhere(repo: Repo, line: string) {
    exists name :: name in AnchorableNames(repo.registry) && Published(repo, name, line)
  }

  lemma EarnedLineIsPublished(repo: Repo, name: string, body: seq<string>, i: nat, line: string)
    requires AnchorOf(repo, name, body) == Earned && i < |body| && body[i] == line && RStrip(line) != ""
    ensures PublishedSomewhere(repo, line)
  {
    EarnedMeansPublished(repo, name, body, i);
  }

  lemma ExemptLineIsPublished(repo: Repo, doc: seq<string>, r: Region, i: nat)
    requires Proper(repo, doc, r) && r.first < i < r.last && RStrip(doc[i - 1]) != ""
    ensures PublishedSomewhere(repo, doc[i - 1])
  {
    EarnedLineIsPublished(repo, NameOf(KindAt(repo, doc, r.first)), Between(doc, r.first, r.last), i - 1 - r.first,
                          doc[i - 1]);
  }

  lemma MarkersAreNotPlain(repo: Repo, doc: seq<string>, r: Region)
    requires Proper(repo, doc, r)
    ensures KindAt(repo, doc, r.first) != Plain && KindAt(repo, doc, r.last) != Plain
  {
  }

  lemma ProperLine(repo: Repo, doc: seq<string>, r: Region, i: nat)
    requires Proper(repo, doc, r) && r.first <= i <= r.last && RStrip(doc[i - 1]) != ""
    ensures KindAt(repo, doc, i) != Plain || PublishedSomewhere(repo, doc[i - 1])
  {
    MarkersAreNotPlain(repo, doc, r);
    if r.first < i < r.last {
      ExemptLineIsPublished(repo, doc, r, i);
    }
  }

  lemma CoveringRegion(repo: Repo, doc: seq<string>, i: nat) returns (r: Region)
    requires Inside(ExemptRegions(repo, doc), i)
    ensures Proper(repo, doc, r) && r.first <= i <= r.last
  {
    ExemptRegionsAreSound(repo, doc);
    var regions := ExemptRegions(repo, doc);
    var k :| 0 <= k < |regions| && regions[k].first <= i <= regions[k].last;
    r := regions[k];
  }

  /** Main result: the gate fails closed. A line with an accuracy figure goes unreported only as
      a marker line itself or as a line that some declared partial publishes. */
  lemma UnreportedMeansPublished(repo: Repo, doc: seq<string>, flagged: string -> bool, i: nat)
    requires 1 <= i <= |doc| && flagged(doc[i - 1]) && RStrip(doc[i - 1]) != ""
    requires Reports(AllFindings(repo, doc, flagged), i) == 0
    ensures KindAt(repo, doc, i) != Plain || PublishedSomewhere(repo, doc[i - 1])
  {
    ReportedExactlyOnce(repo, doc, flagged, i);
    var r := CoveringRegion(repo, doc, i);
    ProperLine(repo, doc, r, i);
  }
}
