/** What the gate on hand-typed accuracy figures exempts, in terms of the document and the
    partials alone (tools/docs_gate.py, check_no_hardcoded_live_accuracy). */
module RegionLaws {
  import opened Anchoring
  import opened AnchorLaws
  import opened RegionScanner

  /** BEGIN and END of one kind and name, no BEGIN and no END of that kind in between. */
  ghost predicate Framed(repo: Repo, doc: seq<string>, r: Region) {
    && 1 <= r.first < r.last <= |doc|
    && IsBegin(KindAt(repo, doc, r.first)) && EndsNamed(KindAt(repo, doc, r.first), KindAt(repo, doc, r.last))
    && Undisturbed(repo, doc, r.first, r.last - 1)
  }

  /** Between the markers stands the declared partial of their name, line for line. */
  ghost predicate Faithful(repo: Repo, doc: seq<string>, r: Region)
    requires 1 <= r.first < r.last <= |doc|
  {
    Earns(repo, NameOf(KindAt(repo, doc, r.first)), doc[r.first..r.last - 1])
  }

  ghost predicate Genuine(repo: Repo, doc: seq<string>, r: Region) {
    Framed(repo, doc, r) && Faithful(repo, doc, r)
  }

  /** What the gate asks of the lines between the markers. */
  predicate Anchored(repo: Repo, doc: seq<string>, r: Region)
    requires 1 <= r.first < r.last <= |doc|
  {
    AnchorOf(repo, NameOf(KindAt(repo, doc, r.first)), Between(doc, r.first, r.last)) == Earned
  }

  lemma AnchoredIsFaithful(repo: Repo, doc: seq<string>, r: Region)
    requires 1 <= r.first < r.last <= |doc|
    ensures Anchored(repo, doc, r) <==> Faithful(repo, doc, r)
  {
    AnchoredBody(repo, doc, r, NameOf(KindAt(repo, doc, r.first)), doc[r.first..r.last - 1]);
  }

  lemma AnchoredBody(repo: Repo, doc: seq<string>, r: Region, name: string, body: seq<string>)
    requires 1 <= r.first < r.last <= |doc|
    requires name == NameOf(KindAt(repo, doc, r.first)) && body == doc[r.first..r.last - 1]
    ensures Anchored(repo, doc, r) ==> Faithful(repo, doc, r)
    ensures Faithful(repo, doc, r) ==> Anchored(repo, doc, r)
  {
    EarnedExactlyWhen(repo, name, body);
  }

  lemma ProperIsFramed(repo: Repo, doc: seq<string>, r: Region)
    ensures Proper(repo, doc, r) <==> Framed(repo, doc, r) && Anchored(repo, doc, r)
  {
  }

  lemma ProperIsGenuine(repo: Repo, doc: seq<string>, r: Region)
    ensures Proper(repo, doc, r) <==> Genuine(repo, doc, r)
  {
    ProperIsFramed(repo, doc, r);
    if Framed(repo, doc, r) {
      AnchoredIsFaithful(repo, doc, r);
    }
  }

  /** Main result: every exempt region is genuine, and they lie one after the other. */
  lemma ExemptRegionsAreGenuine(repo: Repo, doc: seq<string>)
    ensures forall k :: 0 <= k < |ExemptRegions(repo, doc)| ==> Genuine(repo, doc, ExemptRegions(repo, doc)[k])
    ensures InOrder(ExemptRegions(repo, doc), |doc| + 1)
  {
    ExemptRegionsAreSound(repo, doc);
    forall k | 0 <= k < |ExemptRegions(repo, doc)| ensures Genuine(repo, doc, ExemptRegions(repo, doc)[k]) {
      ProperIsGenuine(repo, doc, ExemptRegions(repo, doc)[k]);
    }
  }

  ghost predicate StartsGenuine(repo: Repo, doc: seq<string>, i: nat) {
    exists last: nat :: Genuine(repo, doc, Region(i, last))
  }

  lemma StartsProper(repo: Repo, doc: seq<string>, i: nat)
    ensures StartsGenuine(repo, doc, i) <==> exists last: nat :: Proper(repo, doc, Region(i, last))
  {
    forall last: nat ensures Proper(repo, doc, Region(i, last)) <==> Genuine(repo, doc, Region(i, last)) {
      ProperIsGenuine(repo, doc, Region(i, last));
    }
  }

  /** Main result: the gate has nothing to say about a document's markers exactly when every BEGIN
      in it starts a genuine region. */
  lemma MarkersPassWhenGenuine(repo: Repo, doc: seq<string>)
    ensures Structural(repo, doc) == [] <==>
            forall i :: 1 <= i <= |doc| && IsBegin(KindAt(repo, doc, i)) ==> StartsGenuine(repo, doc, i)
  {
    MarkersPassExactlyWhen(repo, doc);
    forall i: nat ensures StartsGenuine(repo, doc, i) <==> exists last: nat :: Proper(repo, doc, Region(i, last)) {
      StartsProper(repo, doc, i);
    }
  }

  /** And then every one of those regions is exempt. */
  lemma GenuineIsExempt(repo: Repo, doc: seq<string>, i: nat)
    requires Structural(repo, doc) == [] && 1 <= i <= |doc| && IsBegin(KindAt(repo, doc, i))
    ensures exists k :: 0 <= k < |ExemptRegions(repo, doc)| && ExemptRegions(repo, doc)[k].first == i
  {
    var st := Scan(repo, doc, |doc|);
    CleanScansClaim(repo, doc, |doc|);
    var k :| 0 <= k < |st.regions| && st.regions[k].first == i;
    assert ExemptRegions(repo, doc)[k].first == i;
  }

  /** A freshly injected partial between its markers is a genuine region. */
  lemma InjectedIsGenuine(repo: Repo, doc: seq<string>, r: Region, a: nat, b: nat)
    requires Framed(repo, doc, r)
    requires var name := NameOf(KindAt(repo, doc, r.first));
             && Declared(repo.registry, name) && (name in repo.files || name + MD in repo.files)
             && var partial := repo.files[if name in repo.files then name else name + MD];
                CutTo(partial, a, b, Marker(repo)) && SameLines(partial[a..b], doc[r.first..r.last - 1])
    ensures Genuine(repo, doc, r)
  {
    var name := NameOf(KindAt(repo, doc, r.first));
    InjectedIsEarned(repo, name, a, b, doc[r.first..r.last - 1]);
    EarnedExactlyWhen(repo, name, doc[r.first..r.last - 1]);
  }
}
