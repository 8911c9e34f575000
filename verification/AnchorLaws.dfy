/** When a marked region has earned its exemption, stated on the lines themselves
    (tools/docs_gate.py, _region_is_anchored). */
module AnchorLaws {
  import opened Anchoring

  // ---------------------------------------------------------------------------
  // What is left after dropping lines at both ends
  // ---------------------------------------------------------------------------

  /** Dropping from both ends leaves ls[lo..hi]: everything outside is dropped, and what is left
      neither begins nor ends with something to drop. */
  ghost predicate CutTo(ls: seq<string>, lo: nat, hi: nat, drop: string -> bool) {
    && lo <= hi <= |ls|
    && (forall i :: 0 <= i < lo ==> drop(ls[i])) && (forall i :: hi <= i < |ls| ==> drop(ls[i]))
    && (lo < hi ==> !drop(ls[lo]) && !drop(ls[hi - 1]))
  }

  /** There is only one such rest. */
  lemma CutIsUnique(ls: seq<string>, lo: nat, hi: nat, lo': nat, hi': nat, drop: string -> bool)
    requires CutTo(ls, lo, hi, drop) && CutTo(ls, lo', hi', drop)
    ensures ls[lo..hi] == ls[lo'..hi']
  {
    if lo < hi || lo' < hi' {
      assert lo == lo' && hi == hi';
    }
  }

  function Marker(repo: Repo): string -> bool {
    (line: string) => IsMarker(repo, line)
  }

  /** Nothing but blanks. */
  predicate AllSpace(line: string) {
    forall i :: 0 <= i < |line| ==> IsSpace(line[i])
  }

  function Blank(): string -> bool {
    (line: string) => AllSpace(line)
  }

  // ---------------------------------------------------------------------------
  // The functions drop exactly that
  // ---------------------------------------------------------------------------

  /** RStrip leaves everything up to the last character that is not a blank. */
  lemma {:induction false} RStripSplits(s: string)
    ensures |RStrip(s)| <= |s| && RStrip(s) == s[..|RStrip(s)|] && AllSpace(s[|RStrip(s)|..])
    ensures RStrip(s) != "" ==> !IsSpace(s[|RStrip(s)| - 1])
    decreases |s|
  {
    if s != "" && IsSpace(s[|s| - 1]) {
      var front := s[..|s| - 1];
      RStripSplits(front);
      var k := |RStrip(s)|;
      assert front[..k] == s[..k];
      forall i | 0 <= i < |s[k..]| ensures IsSpace(s[k..][i]) {
        if k + i < |s| - 1 {
          assert front[k..][i] == s[k..][i];
        }
      }
    }
  }

  lemma BlankExactlyWhen(line: string)
    ensures RStrip(line) == "" <==> AllSpace(line)
  {
    RStripSplits(line);
    if RStrip(line) == "" {
      assert line[0..] == line;
    }
  }

  lemma {:induction false} LeadingDropped(repo: Repo, body: seq<string>) returns (a: nat)
    ensures a <= |body| && DropLeading(repo, body) == body[a..]
    ensures forall i :: 0 <= i < a ==> IsMarker(repo, body[i])
    ensures a < |body| ==> !IsMarker(repo, body[a])
    decreases |body|
  {
    if body != [] && IsMarker(repo, body[0]) {
      var rest := LeadingDropped(repo, body[1..]);
      a := rest + 1;
    } else {
      a := 0;
    }
  }

  lemma {:induction false} TrailingDropped(repo: Repo, body: seq<string>) returns (b: nat)
    ensures b <= |body| && DropTrailing(repo, body) == body[..b]
    ensures forall i :: b <= i < |body| ==> IsMarker(repo, body[i])
    ensures b > 0 ==> !IsMarker(repo, body[b - 1])
    decreases |body|
  {
    if body != [] && IsMarker(repo, body[|body| - 1]) {
      b := TrailingDropped(repo, body[..|body| - 1]);
    } else {
      b := |body|;
    }
  }

  lemma MarkersDropped(repo: Repo, lines: seq<string>) returns (a: nat, b: nat)
    ensures CutTo(lines, a, b, Marker(repo))
    ensures DropTrailing(repo, DropLeading(repo, lines)) == lines[a..b]
  {
    a := LeadingDropped(repo, lines);
    var kept := TrailingDropped(repo, lines[a..]);
    b := a + kept;
    forall i | b <= i < |lines| ensures Marker(repo)(lines[i]) {
      assert lines[a..][i - a] == lines[i];
    }
  }

  lemma {:induction false} FrontTrimmed(ls: seq<string>) returns (c: nat)
    ensures c <= |ls| && TrimFront(ls) == ls[c..] && (forall i :: 0 <= i < c ==> ls[i] == "")
    ensures c < |ls| ==> ls[c] != ""
    decreases |ls|
  {
    if ls != [] && ls[0] == "" {
      var rest := FrontTrimmed(ls[1..]);
      c := rest + 1;
    } else {
      c := 0;
    }
  }

  lemma {:induction false} BackTrimmed(ls: seq<string>) returns (d: nat)
    ensures d <= |ls| && TrimBack(ls) == ls[..d] && (forall i :: d <= i < |ls| ==> ls[i] == "")
    ensures d > 0 ==> ls[d - 1] != ""
    decreases |ls|
  {
    if ls != [] && ls[|ls| - 1] == "" {
      d := BackTrimmed(ls[..|ls| - 1]);
    } else {
      d := |ls|;
    }
  }

  function Empty(): string -> bool {
    (line: string) => line == ""
  }

  lemma EmptyDropped(ls: seq<string>) returns (c: nat, d: nat)
    ensures CutTo(ls, c, d, Empty()) && TrimBack(TrimFront(ls)) == ls[c..d]
  {
    c := FrontTrimmed(ls);
    var kept := BackTrimmed(ls[c..]);
    d := c + kept;
    forall i | d <= i < |ls| ensures Empty()(ls[i]) {
      assert ls[c..][i - c] == ls[i];
    }
  }

  /** Lines that are dropped in step are cut alike. */
  lemma CutAlike(xs: seq<string>, ys: seq<string>, c: nat, d: nat, p: string -> bool, q: string -> bool)
    requires |xs| == |ys| && forall i :: 0 <= i < |xs| ==> (p(xs[i]) <==> q(ys[i]))
    requires CutTo(xs, c, d, p)
    ensures CutTo(ys, c, d, q)
  {
  }

  lemma BlanksDropped(ls: seq<string>) returns (c: nat, d: nat)
    ensures CutTo(ls, c, d, Blank()) && Norm(ls) == RStripAll(ls[c..d])
  {
    c, d := EmptyDropped(RStripAll(ls));
    StrippedBlanks(ls);
    CutAlike(RStripAll(ls), ls, c, d, Empty(), Blank());
    assert RStripAll(ls)[c..d] == RStripAll(ls[c..d]);
  }

  lemma StrippedBlanks(ls: seq<string>)
    ensures |RStripAll(ls)| == |ls| && forall i :: 0 <= i < |ls| ==> (Empty()(RStripAll(ls)[i]) <==> Blank()(ls[i]))
  {
    forall i | 0 <= i < |ls| ensures Empty()(RStripAll(ls)[i]) <==> Blank()(ls[i]) {
      BlankExactlyWhen(ls[i]);
    }
  }

  // ---------------------------------------------------------------------------
  // Line for line
  // ---------------------------------------------------------------------------

  /** The same number of lines, equal one by one up to blanks at their ends. */
  ghost predicate SameLines(xs: seq<string>, ys: seq<string>) {
    |xs| == |ys| && forall i :: 0 <= i < |xs| ==> RStrip(xs[i]) == RStrip(ys[i])
  }

  /** partial[a..b] is the partial without the marker lines at its ends; without the blank lines
      at their ends, it and the region are the same lines. */
  ghost predicate Aligned(repo: Repo, partial: seq<string>, a: nat, b: nat, c: nat, d: nat,
          body: seq<string>, e: nat, f: nat) {
    && CutTo(partial, a, b, Marker(repo)) && CutTo(partial[a..b], c, d, Blank()) && CutTo(body, e, f, Blank())
    && SameLines(partial[a..b][c..d], body[e..f])
  }

  ghost predicate LineForLine(repo: Repo, partial: seq<string>, body: seq<string>) {
    exists a: nat, b: nat, c: nat, d: nat, e: nat, f: nat :: Aligned(repo, partial, a, b, c, d, body, e, f)
  }

  lemma SameLinesExactlyWhen(xs: seq<string>, ys: seq<string>)
    ensures SameLines(xs, ys) <==> RStripAll(xs) == RStripAll(ys)
  {
    if RStripAll(xs) == RStripAll(ys) {
      assert |xs| == |RStripAll(xs)| == |ys|;
      forall i | 0 <= i < |xs| ensures RStrip(xs[i]) == RStrip(ys[i]) {
        assert RStripAll(xs)[i] == RStripAll(ys)[i];
      }
    }
  }

  lemma NormsExactlyWhen(repo: Repo, partial: seq<string>, body: seq<string>)
    ensures Norm(body) == Norm(DropTrailing(repo, DropLeading(repo, partial))) <==> LineForLine(repo, partial, body)
  {
    var a, b := MarkersDropped(repo, partial);
    var c, d := BlanksDropped(partial[a..b]);
    var e, f := BlanksDropped(body);
    SameLinesExactlyWhen(partial[a..b][c..d], body[e..f]);
    if Norm(body) == Norm(partial[a..b]) {
      assert Aligned(repo, partial, a, b, c, d, body, e, f);
    }
    forall a': nat, b': nat, c': nat, d': nat, e': nat, f': nat | Aligned(repo, partial, a', b', c', d', body, e', f')
      ensures SameLines(partial[a..b][c..d], body[e..f])
    {
      CutIsUnique(partial, a, b, a', b', Marker(repo));
      CutIsUnique(partial[a..b], c, d, c', d', Blank());
      CutIsUnique(body, e, f, e', f', Blank());
    }
  }

  /** A declared name, with or without its suffix. */
  ghost predicate Declared(r: Registry, name: string) {
    || name in r.partials + r.external
    || name + MD in r.partials + r.external
    || (EndsWith(name, MD) && !EndsWith(Stem(name), MD) && Stem(name) in r.partials + r.external)
  }

  /** The region stands, line for line, in the partial of its name, which is declared; the file of
      that very name comes before the one with the suffix. */
  ghost predicate Earns(repo: Repo, name: string, body: seq<string>) {
    && Declared(repo.registry, name)
    && (name in repo.files || name + MD in repo.files)
    && LineForLine(repo, repo.files[if name in repo.files then name else name + MD], body)
  }

  /** Main result: a region is exempt exactly when it is its partial, line for line. */
  lemma EarnedExactlyWhen(repo: Repo, name: string, body: seq<string>)
    ensures AnchorOf(repo, name, body) == Earned <==> Earns(repo, name, body)
  {
    AnchorableExactlyWhen(repo.registry, name);
    if name in repo.files {
      NormsExactlyWhen(repo, repo.files[name], body);
    } else if name + MD in repo.files {
      NormsExactlyWhen(repo, repo.files[name + MD], body);
    }
  }

  /** The refusals: an undeclared name, a name without a file, and anything that has drifted. */
  lemma RefusedExactlyWhen(repo: Repo, name: string, body: seq<string>)
    ensures AnchorOf(repo, name, body) == Undeclared <==> !Declared(repo.registry, name)
    ensures AnchorOf(repo, name, body) == NoPartial <==>
            Declared(repo.registry, name) && name !in repo.files && name + MD !in repo.files
  {
    AnchorableExactlyWhen(repo.registry, name);
  }

  /** A freshly injected partial is always exempt: its own lines, without the markers at its ends
      and with any trailing blanks. */
  lemma InjectedIsEarned(repo: Repo, name: string, a: nat, b: nat, body: seq<string>)
    requires Declared(repo.registry, name) && (name in repo.files || name + MD in repo.files)
    requires var partial := repo.files[if name in repo.files then name else name + MD];
             CutTo(partial, a, b, Marker(repo)) && SameLines(partial[a..b], body)
    ensures AnchorOf(repo, name, body) == Earned
  {
    var partial := repo.files[if name in repo.files then name else name + MD];
    var lines := partial[a..b];
    var c, d := BlanksDropped(lines);
    forall i | 0 <= i < |lines| ensures Blank()(lines[i]) <==> Blank()(body[i]) {
      BlankExactlyWhen(lines[i]);
      BlankExactlyWhen(body[i]);
    }
    CutAlike(lines, body, c, d, Blank(), Blank());
    assert Aligned(repo, partial, a, b, c, d, body, c, d);
    EarnedExactlyWhen(repo, name, body);
  }
}
