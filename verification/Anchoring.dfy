/** Has a marked region earned its exemption? (tools/docs_gate.py, _anchorable_names,
    _partial_body and _region_is_anchored) */
module Anchoring {
  import opened Options

  /** What one line is to the marker patterns. */
  datatype Kind = GenBegin(name: string) | GenEnd(name: string) | LiveBegin | LiveEnd | Plain

  datatype Registry = Registry(partials: set<string>, external: set<string>)

  /** The repository as the gate sees it: the marker patterns, the registry, and the lines of
      every file under partials/. */
  datatype Repo = Repo(classify: string -> Kind, registry: Registry, files: map<string, seq<string>>)

  const MD := ".md"

  predicate EndsWith(s: string, suffix: string) {
    |s| >= |suffix| && s[|s| - |suffix|..] == suffix
  }

  function Stem(name: string): string
    requires EndsWith(name, MD)
  {
    name[..|name| - 3]
  }

  // ---------------------------------------------------------------------------
  // Names
  // ---------------------------------------------------------------------------

  function AnchorableNames(r: Registry): set<string> {
    var names := r.partials + r.external;
    names
    + (set n | n in names && EndsWith(n, MD) :: Stem(n))
    + (set n | n in names && !EndsWith(n, MD) :: n + MD)
  }

  /** A name may be claimed exactly when it is declared, with or without its suffix. */
  lemma AnchorableExactlyWhen(r: Registry, name: string)
    ensures name in AnchorableNames(r) <==>
              || name in r.partials + r.external
              || name + MD in r.partials + r.external
              || (EndsWith(name, MD) && !EndsWith(Stem(name), MD) && Stem(name) in r.partials + r.external)
  {
    var names := r.partials + r.external;
    assert Stem(name + MD) == name;
    if EndsWith(name, MD) {
      assert Stem(name) + MD == name;
    }
    forall n | n in names && EndsWith(n, MD) && Stem(n) == name ensures n == name + MD {
      assert n == n[..|n| - 3] + n[|n| - 3..];
    }
    forall n | n in names && !EndsWith(n, MD) && n + MD == name ensures EndsWith(name, MD) && Stem(name) == n {
    }
  }

  // ---------------------------------------------------------------------------
  // Bodies
  // ---------------------------------------------------------------------------

  predicate IsMarker(repo: Repo, line: string) {
    repo.classify(line) != Plain
  }

  function DropLeading(repo: Repo, body: seq<string>): seq<string> {
    if body != [] && IsMarker(repo, body[0]) then DropLeading(repo, body[1..]) else body
  }

  function DropTrailing(repo: Repo, body: seq<string>): seq<string> {
    if body != [] && IsMarker(repo, body[|body| - 1]) then DropTrailing(repo, body[..|body| - 1]) else body
  }

  function PartialBody(repo: Repo, name: string): Option<seq<string>> {
    if name in repo.files then Some(DropTrailing(repo, DropLeading(repo, repo.files[name])))
    else if name + MD in repo.files then Some(DropTrailing(repo, DropLeading(repo, repo.files[name + MD])))
    else None
  }

  // ---------------------------------------------------------------------------
  // Comparison up to trailing blanks
  // ---------------------------------------------------------------------------

  /** The characters that str.rstrip() removes. */
  predicate IsSpace(c: char) {
    var u := c as int;
    || 9 <= u <= 13 || 28 <= u <= 32 || u == 0x85 || u == 0xA0 || u == 0x1680 || 0x2000 <= u <= 0x200A
    || u == 0x2028 || u == 0x2029 || u == 0x202F || u == 0x205F || u == 0x3000
  }

  function RStrip(s: string): string {
    if s != "" && IsSpace(s[|s| - 1]) then RStrip(s[..|s| - 1]) else s
  }

  function RStripAll(ls: seq<string>): seq<string> {
    seq(|ls|, i requires 0 <= i < |ls| => RStrip(ls[i]))
  }

  function TrimFront(ls: seq<string>): seq<string> {
    if ls != [] && ls[0] == "" then TrimFront(ls[1..]) else ls
  }

  function TrimBack(ls: seq<string>): seq<string> {
    if ls != [] && ls[|ls| - 1] == "" then TrimBack(ls[..|ls| - 1]) else ls
  }

  function Norm(ls: seq<string>): seq<string> {
    TrimBack(TrimFront(RStripAll(ls)))
  }

  lemma {:induction false} TrimFrontKeeps(ls: seq<string>, x: string)
    ensures x in TrimFront(ls) ==> x in ls
    ensures x in ls && x != "" ==> x in TrimFront(ls)
    decreases |ls|
  {
    if ls != [] && ls[0] == "" {
      TrimFrontKeeps(ls[1..], x);
      assert ls == [ls[0]] + ls[1..];
    }
  }

  lemma {:induction false} TrimBackKeeps(ls: seq<string>, x: string)
    ensures x in TrimBack(ls) ==> x in ls
    ensures x in ls && x != "" ==> x in TrimBack(ls)
    decreases |ls|
  {
    if ls != [] && ls[|ls| - 1] == "" {
      TrimBackKeeps(ls[..|ls| - 1], x);
      assert ls == ls[..|ls| - 1] + [ls[|ls| - 1]];
    }
  }

  /** A line with anything on it survives normalisation, and nothing else appears. */
  lemma NormKeeps(ls: seq<string>, x: string)
    ensures x in Norm(ls) ==> exists i :: 0 <= i < |ls| && RStrip(ls[i]) == x
    ensures x != "" && (exists i :: 0 <= i < |ls| && RStrip(ls[i]) == x) ==> x in Norm(ls)
  {
    var stripped := RStripAll(ls);
    TrimFrontKeeps(stripped, x);
    TrimBackKeeps(TrimFront(stripped), x);
    if x in stripped {
      var i :| 0 <= i < |stripped| && stripped[i] == x;
      assert RStrip(ls[i]) == x;
    }
    if i :| 0 <= i < |ls| && RStrip(ls[i]) == x {
      assert stripped[i] == x;
    }
  }

  lemma {:induction false} DropsKeepLines(repo: Repo, body: seq<string>, x: string)
    ensures x in DropLeading(repo, body) ==> x in body
    decreases |body|
  {
    if body != [] && IsMarker(repo, body[0]) {
      DropsKeepLines(repo, body[1..], x);
    }
  }

  lemma {:induction false} TrailingDropsKeepLines(repo: Repo, body: seq<string>, x: string)
    ensures x in DropTrailing(repo, body) ==> x in body
    decreases |body|
  {
    if body != [] && IsMarker(repo, body[|body| - 1]) {
      TrailingDropsKeepLines(repo, body[..|body| - 1], x);
    }
  }

  // ---------------------------------------------------------------------------
  // The verdict
  // ---------------------------------------------------------------------------

  datatype Anchor = Earned | Undeclared | NoPartial | Drifted

  function AnchorOf(repo: Repo, name: string, body: seq<string>): Anchor {
    if name !in AnchorableNames(repo.registry) then Undeclared
    else match PartialBody(repo, name)
      case None => NoPartial
      case Some(expected) => if Norm(body) != Norm(expected) then Drifted else Earned
  }

  /** Some file of a declared partial carries this line, trailing blanks aside. */
  ghost predicate Published(repo: Repo, name: string, line: string) {
    && name in AnchorableNames(repo.registry)
    && exists file, i: nat :: file in {name, name + MD} && file in repo.files && i < |repo.files[file]|
                         && RStrip(repo.files[file][i]) == RStrip(line)
  }

  /** Main result: an exempt region cannot smuggle a line in. Every line of it with anything on
      it stands in the partial that the region names. */
  lemma EarnedMeansPublished(repo: Repo, name: string, body: seq<string>, k: nat)
    requires AnchorOf(repo, name, body) == Earned && k < |body| && RStrip(body[k]) != ""
    ensures Published(repo, name, body[k])
  {
    var x := RStrip(body[k]);
    var file := if name in repo.files then name else name + MD;
    var front := DropLeading(repo, repo.files[file]);
    var expected := DropTrailing(repo, front);
    assert PartialBody(repo, name) == Some(expected);
    NormKeeps(body, x);
    NormKeeps(expected, x);
    var i :| 0 <= i < |expected| && RStrip(expected[i]) == x;
    TrailingDropsKeepLines(repo, front, expected[i]);
    DropsKeepLines(repo, repo.files[file], expected[i]);
    var j :| 0 <= j < |repo.files[file]| && repo.files[file][j] == expected[i];
  }
}
