/** Splicing the generated block into a document, and the check that it is there
    (tools/live_accuracy.py, find_block, inject and block_matches). */
module Splice {
  import opened Options

  const BEGIN := "<!-- BEGIN GENERATED live_accuracy -->"
  const END := "<!-- END GENERATED live_accuracy -->"

  // ---------------------------------------------------------------------------
  // Searching
  // ---------------------------------------------------------------------------

  /** pat stands at position i of the text. */
  predicate At(text: string, pat: string, i: nat) {
    i + |pat| <= |text| && text[i..i + |pat|] == pat
  }

  /** str.find(pat, from): the first position from there on. */
  function Find(text: string, pat: string, from: nat): (r: Option<nat>)
    ensures r.Some? ==> from <= r.value && At(text, pat, r.value)
    ensures r.Some? ==> forall j :: from <= j < r.value ==> !At(text, pat, j)
    ensures r.None? ==> forall j :: from <= j ==> !At(text, pat, j)
    decreases |text| - from
  {
    if from + |pat| > |text| then None
    else if text[from..from + |pat|] == pat then Some(from)
    else Find(text, pat, from + 1)
  }

  datatype Span = Span(start: nat, end: nat)

  /** The first begin marker, and the first end marker from there on. */
  function FindPair(text: string, begin: string, end: string): (r: Option<Span>)
    ensures r.Some? ==> r.value.start <= r.value.end <= |text|
  {
    match Find(text, begin, 0)
    case None => None
    case Some(b) =>
      match Find(text, end, b)
      case None => None
      case Some(e) => Some(Span(b, e + |end|))
  }

  /** The first marker pair of a document. */
  function FindBlock(text: string): (r: Option<Span>)
    ensures r.Some? ==> r.value.start <= r.value.end <= |text|
  {
    FindPair(text, BEGIN, END)
  }

  /** The block without the newlines at its end. */
  function RStripNewlines(block: string): string {
    if block != "" && block[|block| - 1] == '\n' then RStripNewlines(block[..|block| - 1]) else block
  }

  /** Only newlines go, and all of them at the end. */
  lemma {:induction false} RStripNewlinesSplits(block: string)
    ensures |RStripNewlines(block)| <= |block| && RStripNewlines(block) == block[..|RStripNewlines(block)|]
    ensures forall i :: |RStripNewlines(block)| <= i < |block| ==> block[i] == '\n'
    ensures RStripNewlines(block) != "" ==> RStripNewlines(block)[|RStripNewlines(block)| - 1] != '\n'
    decreases |block|
  {
    if block != "" && block[|block| - 1] == '\n' {
      RStripNewlinesSplits(block[..|block| - 1]);
    }
  }

  function Spliced(text: string, span: Span, b: string): string
    requires span.start <= span.end <= |text|
  {
    text[..span.start] + b + text[span.end..]
  }

  /** What inject leaves in the file. */
  function Injected(text: string, block: string): string {
    match FindBlock(text)
    case None => text
    case Some(span) => Spliced(text, span, RStripNewlines(block))
  }

  predicate Matches(text: string, block: string) {
    match FindBlock(text)
    case None => false
    case Some(span) => text[span.start..span.end] == RStripNewlines(block)
  }

  // ---------------------------------------------------------------------------
  // The document
  // ---------------------------------------------------------------------------

  class Document {
    var text: string

    constructor (content: string)
      ensures text == content
    {
      text := content;
    }

    /** Replaces what the marker pair spans; without a pair nothing is written. */
    method Inject(block: string) returns (ok: bool)
      modifies this
      ensures ok == FindBlock(old(text)).Some?
      ensures text == Injected(old(text), block)
    {
      var span := FindBlock(text);
      if span.None? {
        return false;
      }
      text := text[..span.value.start] + RStripNewlines(block) + text[span.value.end..];
      return true;
    }

    method BlockMatches(block: string) returns (ok: bool)
      ensures ok == Matches(text, block)
    {
      var span := FindBlock(text);
      if span.None? {
        return false;
      }
      ok := text[span.value.start..span.value.end] == RStripNewlines(block);
    }
  }

  // ---------------------------------------------------------------------------
  // Positions in related texts
  // ---------------------------------------------------------------------------

  lemma FindIs(text: string, pat: string, from: nat, i: nat)
    requires from <= i && At(text, pat, i) && forall j :: from <= j < i ==> !At(text, pat, j)
    ensures Find(text, pat, from) == Some(i)
  {
  }

  ghost predicate NoneBetween(text: string, pat: string, lo: nat, hi: nat) {
    forall j :: lo <= j < hi ==> !At(text, pat, j)
  }

  /** The first match from a position on stands at i. */
  ghost predicate FirstAt(text: string, pat: string, from: nat, i: nat) {
    from <= i && At(text, pat, i) && NoneBetween(text, pat, from, i)
  }

  lemma FindsTheFirst(text: string, pat: string, from: nat, i: nat)
    ensures Find(text, pat, from) == Some(i) <==> FirstAt(text, pat, from, i)
  {
    if FirstAt(text, pat, from, i) {
      FindIs(text, pat, from, i);
    }
  }

  /** Two texts that share their first n characters show the same matches there. */
  lemma SamePrefix(a: string, b: string, n: nat, pat: string, i: nat)
    requires n <= |a| && n <= |b| && a[..n] == b[..n] && i + |pat| <= n
    ensures At(a, pat, i) <==> At(b, pat, i)
  {
    assert a[i..i + |pat|] == a[..n][i..i + |pat|];
    assert b[i..i + |pat|] == b[..n][i..i + |pat|];
  }

  lemma SliceOfSlice(s: string, lo: nat, hi: nat, i: nat, j: nat)
    requires lo <= hi <= |s| && i <= j <= hi - lo
    ensures s[lo..hi][i..j] == s[lo + i..lo + j]
  {
    forall k | 0 <= k < j - i ensures s[lo..hi][i..j][k] == s[lo + i..lo + j][k] {
    }
  }

  /** A match inside a slice is a match in the text. */
  lemma InSlice(text: string, lo: nat, hi: nat, pat: string, i: nat)
    requires lo <= hi <= |text| && i + |pat| <= hi - lo
    ensures At(text[lo..hi], pat, i) <==> At(text, pat, lo + i)
  {
    SliceOfSlice(text, lo, hi, i, i + |pat|);
  }

  /** An END marker can only start where a '<' stands, and BEGIN has one only at its head. */
  lemma OneAngle()
    ensures forall i: nat :: 0 < i < |BEGIN| ==> BEGIN[i] != '<'
    ensures BEGIN[5] != END[5] && END[0] == '<' && |BEGIN| == 38 && |END| == 36
  {
  }

  lemma AtChar(text: string, pat: string, i: nat, k: nat)
    requires k < |pat|
    ensures At(text, pat, i) ==> i + k < |text| && text[i + k] == pat[k]
  {
    if At(text, pat, i) {
      assert text[i..i + |pat|][k] == text[i + k];
    }
  }

  /** One marker does not occur inside the other. */
  ghost predicate Apart(begin: string, end: string) {
    forall i: nat :: i + |end| <= |begin| ==> !At(begin, end, i)
  }

  /** END does not occur inside BEGIN. */
  lemma MarkersApart()
    ensures Apart(BEGIN, END)
  {
    OneAngle();
    forall i: nat | i + |END| <= |BEGIN| ensures !At(BEGIN, END, i) {
      AtChar(BEGIN, END, i, 0);
      AtChar(BEGIN, END, i, 5);
    }
  }

  lemma EndInside(text: string, begin: string, end: string, s: nat, e: nat)
    requires At(text, begin, s) && At(text, end, e) && s <= e
    ensures e + |end| <= s + |begin| ==> At(begin, end, e - s)
  {
    if e + |end| <= s + |begin| {
      SliceOfSlice(text, s, s + |begin|, e - s, e - s + |end|);
    }
  }

  lemma EndBehindBegin(text: string, begin: string, end: string, s: nat, e: nat)
    requires Apart(begin, end) && At(text, begin, s) && At(text, end, e) && s <= e
    ensures e + |end| >= s + |begin|
  {
    EndInside(text, begin, end, s, e);
  }

  // ---------------------------------------------------------------------------
  // Which blocks the check accepts
  // ---------------------------------------------------------------------------

  /** Starts with the begin marker, and its first end marker is its last characters. */
  ghost predicate WellFormedPair(b: string, begin: string, end: string) {
    At(b, begin, 0) && |b| >= |end| && FirstAt(b, end, 0, |b| - |end|)
  }

  ghost predicate WellFormed(b: string) {
    WellFormedPair(b, BEGIN, END)
  }

  /** The marker pair of a document is a well-formed block. */
  lemma PairIsWellFormed(text: string, begin: string, end: string)
    requires Apart(begin, end) && FindPair(text, begin, end).Some?
    ensures var span := FindPair(text, begin, end).value; WellFormedPair(text[span.start..span.end], begin, end)
  {
    var span := FindPair(text, begin, end).value;
    var s, e := span.start, span.end;
    var b := text[s..e];
    EndBehindBegin(text, begin, end, s, e - |end|);
    InSlice(text, s, e, begin, 0);
    InSlice(text, s, e, end, |b| - |end|);
    forall j | 0 <= j < |b| - |end| ensures !At(b, end, j) {
      InSlice(text, s, e, end, j);
    }
  }

  lemma SamePrefixGrows(a: string, b: string, s: nat, n: nat)
    requires s <= n <= |a| && n <= |b| && a[..s] == b[..s] && a[s..n] == b[s..n]
    ensures a[..n] == b[..n]
  {
    assert a[..n] == a[..s] + a[s..n];
    assert b[..n] == b[..s] + b[s..n];
  }

  lemma BeginStays(text: string, now: string, begin: string, s: nat, b: string)
    requires Find(text, begin, 0) == Some(s) && At(b, begin, 0)
    requires s + |b| <= |now| && now[..s] == text[..s] && now[s..s + |b|] == b
    ensures Find(now, begin, 0) == Some(s)
  {
    var n := s + |begin|;
    SliceOfSlice(now, s, s + |b|, 0, |begin|);
    SamePrefixGrows(text, now, s, n);
    forall j | 0 <= j < s ensures !At(now, begin, j) {
      SamePrefix(text, now, n, begin, j);
    }
    FindIs(now, begin, 0, s);
  }

  lemma Shifted(now: string, s: nat, b: string, pat: string, i: nat)
    requires s + |b| <= |now| && now[s..s + |b|] == b && i + |pat| <= |b|
    ensures At(b, pat, i) <==> At(now, pat, s + i)
  {
    InSlice(now, s, s + |b|, pat, i);
  }

  lemma NotBefore(now: string, end: string, s: nat, b: string, j: nat)
    requires s + |b| <= |now| && now[s..s + |b|] == b && |b| >= |end|
    requires s <= j < s + |b| - |end| && !At(b, end, j - s)
    ensures !At(now, end, j)
  {
    Shifted(now, s, b, end, j - s);
  }

  lemma NoEarlierEnd(now: string, end: string, s: nat, b: string)
    requires s + |b| <= |now| && now[s..s + |b|] == b && |b| >= |end| && NoneBetween(b, end, 0, |b| - |end|)
    ensures NoneBetween(now, end, s, s + |b| - |end|)
  {
    forall j | s <= j < s + |b| - |end| ensures !At(now, end, j) {
      NotBefore(now, end, s, b, j);
    }
  }

  lemma EndArrives(now: string, end: string, s: nat, b: string)
    requires s + |b| <= |now| && now[s..s + |b|] == b && |b| >= |end| && FirstAt(b, end, 0, |b| - |end|)
    ensures FirstAt(now, end, s, s + |b| - |end|)
  {
    Shifted(now, s, b, end, |b| - |end|);
    NoEarlierEnd(now, end, s, b);
  }

  lemma EndIsFound(now: string, end: string, s: nat, b: string, e: nat)
    requires s + |b| <= |now| && now[s..s + |b|] == b && |b| >= |end| && FirstAt(b, end, 0, |b| - |end|)
    requires e == s + |b| - |end|
    ensures Find(now, end, s) == Some(e)
  {
    EndArrives(now, end, s, b);
    FindsTheFirst(now, end, s, e);
  }

  /** A well-formed block in the place of the old pair is the new pair. */
  lemma PairMoves(text: string, now: string, begin: string, end: string, b: string, s: nat)
    requires FindPair(text, begin, end).Some? && FindPair(text, begin, end).value.start == s
    requires WellFormedPair(b, begin, end)
    requires s + |b| <= |now| && now[..s] == text[..s] && now[s..s + |b|] == b
    ensures FindPair(now, begin, end) == Some(Span(s, s + |b|))
  {
    BeginStays(text, now, begin, s, b);
    EndIsFound(now, end, s, b, s + |b| - |end|);
  }

  lemma SplicedShape(text: string, span: Span, b: string)
    requires span.start <= span.end <= |text|
    ensures var s, now := span.start, Spliced(text, span, b);
            s + |b| <= |now| && now[..s] == text[..s] && now[s..s + |b|] == b
  {
  }

  lemma SplicedPair(text: string, begin: string, end: string, span: Span, b: string)
    requires FindPair(text, begin, end) == Some(span) && WellFormedPair(b, begin, end)
    ensures FindPair(Spliced(text, span, b), begin, end) == Some(Span(span.start, span.start + |b|))
  {
    SplicedShape(text, span, b);
    PairMoves(text, Spliced(text, span, b), begin, end, b, span.start);
  }

  /** Main result: after a splice the check passes exactly when the block starts with BEGIN and
      its first END is at its end. */
  lemma InjectedMatchesExactlyWhen(text: string, block: string)
    requires FindBlock(text).Some?
    ensures Matches(Injected(text, block), block) <==> WellFormed(RStripNewlines(block))
  {
    var b := RStripNewlines(block);
    var now := Injected(text, block);
    if WellFormed(b) {
      SplicedPair(text, BEGIN, END, FindBlock(text).value, b);
      SplicedShape(text, FindBlock(text).value, b);
    }
    if Matches(now, block) {
      MarkersApart();
      PairIsWellFormed(now, BEGIN, END);
    }
  }

  /** Main result: the check passes exactly when there is a pair and injecting would change
      nothing. */
  lemma InjectingMatchesIsNoChange(text: string, block: string)
    ensures Matches(text, block) <==> FindBlock(text).Some? && Injected(text, block) == text
  {
    if FindBlock(text).Some? {
      var span := FindBlock(text).value;
      var b := RStripNewlines(block);
      assert text == text[..span.start] + text[span.start..span.end] + text[span.end..];
      if Injected(text, block) == text {
        var now := Injected(text, block);
        assert |now| == span.start + |b| + |text| - span.end;
        assert now[span.start..span.start + |b|] == b;
      }
    }
  }

  /** On one text: a second splice changes nothing exactly when there was no pair, or the splice
      left none, or the block is well-formed. */
  lemma SpliceSettlesExactlyWhen(text: string, block: string)
    ensures Injected(Injected(text, block), block) == Injected(text, block) <==>
              || FindBlock(text).None?
              || FindBlock(Injected(text, block)).None?
              || WellFormed(RStripNewlines(block))
  {
    if FindBlock(text).Some? {
      InjectedMatchesExactlyWhen(text, block);
      InjectingMatchesIsNoChange(Injected(text, block), block);
    }
  }

  /** Main result: text outside the old pair is kept character for character. */
  lemma OutsideIsKept(text: string, block: string)
    requires FindBlock(text).Some?
    ensures var span, now := FindBlock(text).value, Injected(text, block);
            var tail := |text| - span.end;
            && |now| == span.start + |RStripNewlines(block)| + tail
            && now[..span.start] == text[..span.start]
            && now[|now| - tail..] == text[span.end..]
  {
  }

  /** The first END of a pair with nothing in between, whatever follows it. */
  lemma EmptyPair(rest: string)
    ensures FindBlock(BEGIN + END + rest) == Some(Span(0, |BEGIN| + |END|))
  {
    var text := BEGIN + END + rest;
    OneAngle();
    assert text[0..|BEGIN|] == BEGIN;
    assert text[|BEGIN|..|BEGIN| + |END|] == END;
    forall j: nat | j < |BEGIN| ensures !At(text, END, j) {
      assert text[j] == BEGIN[j] && text[5] == BEGIN[5];
      AtChar(text, END, j, 0);
      AtChar(text, END, j, 5);
    }
    FindIs(text, BEGIN, 0, 0);
    FindIs(text, END, 0, |BEGIN|);
  }

  lemma SplicedAtFront(pair: string, before: string, b: string)
    ensures Spliced(pair + before, Span(0, |pair|), b) == b + before
  {
    assert (pair + before)[|pair|..] == before;
    assert (pair + before)[..0] == "";
  }

  lemma InjectedAtFront(pair: string, before: string, block: string)
    requires FindBlock(pair + before) == Some(Span(0, |pair|)) && RStripNewlines(block) == block
    ensures Injected(pair + before, block) == block + before
  {
    SplicedAtFront(pair, before, block);
  }

  lemma ShortPair(text: string, n: nat, block: string)
    requires n <= |text| && FindBlock(text) == Some(Span(0, n)) && RStripNewlines(block) == block && n < |block|
    ensures !Matches(text, block)
  {
    assert |text[0..n]| < |block|;
  }

  /** A splice into the first of two pairs leaves a pair in any case. */
  lemma SecondPairStays(block: string)
    ensures var pair := BEGIN + END;
            FindBlock(pair + pair).Some? && FindBlock(Injected(pair + pair, block)).Some?
  {
    var pair, b := BEGIN + END, RStripNewlines(block);
    EmptyPair(pair);
    SplicedAtFront(pair, pair, b);
    PairBehind(b);
  }

  lemma PairBehind(b: string)
    ensures FindBlock(b + (BEGIN + END)).Some?
  {
    var now := b + (BEGIN + END);
    var s, e := |b|, |b| + |BEGIN|;
    assert now[s..s + |BEGIN|] == BEGIN;
    assert now[e..e + |END|] == END;
    assert At(now, BEGIN, s) && At(now, END, e);
  }

  ghost predicate Idempotent(block: string) {
    forall text :: Injected(Injected(text, block), block) == Injected(text, block)
  }

  lemma SettledMeansWellFormed(text: string, block: string)
    requires Idempotent(block) && FindBlock(text).Some? && FindBlock(Injected(text, block)).Some?
    ensures WellFormed(RStripNewlines(block))
  {
    SpliceSettlesExactlyWhen(text, block);
  }

  lemma IdempotentMeansWellFormed(block: string)
    requires Idempotent(block)
    ensures WellFormed(RStripNewlines(block))
  {
    SecondPairStays(block);
    SettledMeansWellFormed((BEGIN + END) + (BEGIN + END), block);
  }

  /** Main result: splicing a block is idempotent, over all texts, exactly when the block starts
      with BEGIN and its first END is at its end. */
  lemma SplicingIsIdempotentExactlyWhen(block: string)
    ensures Idempotent(block) <==> WellFormed(RStripNewlines(block))
  {
    if WellFormed(RStripNewlines(block)) {
      forall text ensures Injected(Injected(text, block), block) == Injected(text, block) {
        SpliceSettlesExactlyWhen(text, block);
      }
    }
    if Idempotent(block) {
      IdempotentMeansWellFormed(block);
    }
  }

  /** A block whose END is followed by more text never settles: every splice leaves another copy
      of what follows, and the check does not pass. */
  lemma SplicingCanDiverge(tail: string, before: string)
    requires tail != "" && tail[|tail| - 1] != '\n'
    ensures var pair := BEGIN + END;
            && Injected(pair + before, pair + tail) == pair + (tail + before)
            && !Matches(pair + (tail + before), pair + tail)
  {
    EmptyPair(before);
    EmptyPair(tail + before);
    var pair := BEGIN + END;
    assert RStripNewlines(pair + tail) == pair + tail;
    InjectedAtFront(pair, before, pair + tail);
    assert (pair + tail) + before == pair + (tail + before);
    ShortPair(pair + (tail + before), |pair|, pair + tail);
  }
}
