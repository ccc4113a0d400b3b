/**
 * Sentence segmentation of the assistant's streamed reply: the abbreviation
 * list, the `SENTENCE_END` boundary pattern and `splitIntoSentences` of the
 * orchestrator.
 *
 * A boundary is one of `.`, `!`, `?` followed by one or more whitespace
 * characters. The text is trimmed first, and each piece is trimmed when it is
 * cut off. A `.` boundary is ignored when the last word of the piece before it,
 * lower-cased and without one trailing terminal character, is a known
 * abbreviation. Whatever follows the last accepted boundary is the final
 * piece.
 */
module Segmenter {
  import opened Wrappers
  import opened Text

  /** Words after which a `.` does not end a sentence. */
  const Abbreviations: set<string> :=
    {"mr", "mrs", "ms", "dr", "prof", "sr", "jr", "st", "vs", "etc", "inc", "ltd"}

  /** The characters `[.!?]` of the boundary pattern. */
  predicate IsTerminal(c: char) {
    c == '.' || c == '!' || c == '?'
  }

  /** The pattern `/([.!?])\s+/` matches at position `p` of `r`. */
  predicate BoundaryAt(r: string, p: nat) {
    p + 1 < |r| && IsTerminal(r[p]) && IsWhitespace(r[p + 1])
  }

  /** One match of the boundary pattern: the terminal character sits at `index`, the match ends at `end`. */
  datatype Match = Match(index: nat, end: nat)

  /** The end of the run of whitespace that starts at `i`: what the greedy `\s+` consumes. */
  function WhitespaceRunEnd(r: string, i: nat): (j: nat)
    requires i <= |r|
    ensures i <= j <= |r|
    decreases |r| - i
  {
    if i < |r| && IsWhitespace(r[i]) then WhitespaceRunEnd(r, i + 1) else i
  }

  /** The run `[i, WhitespaceRunEnd(r, i))` is all whitespace and cannot be extended. */
  lemma {:induction false} WhitespaceRunEndSpec(r: string, i: nat)
    requires i <= |r|
    ensures forall k :: i <= k < WhitespaceRunEnd(r, i) ==> IsWhitespace(r[k])
    ensures WhitespaceRunEnd(r, i) < |r| ==> !IsWhitespace(r[WhitespaceRunEnd(r, i)])
    decreases |r| - i
  {
    if i < |r| && IsWhitespace(r[i]) {
      WhitespaceRunEndSpec(r, i + 1);
    }
  }

  /** `SENTENCE_END.exec(r)` when the pattern's `lastIndex` is `from`. */
  function NextBoundary(r: string, from: nat): (m: Option<Match>)
    requires from <= |r|
    ensures m.Some? ==> from <= m.value.index < m.value.end <= |r|
    decreases |r| - from
  {
    if from + 1 >= |r| then None
    else if BoundaryAt(r, from) then Some(Match(from, WhitespaceRunEnd(r, from + 1)))
    else NextBoundary(r, from + 1)
  }

  /**
   * `NextBoundary` is the leftmost match at or after `from`, and its
   * whitespace run is taken whole; when there is none, no position from
   * `from` on is a boundary.
   */
  lemma {:induction false} NextBoundarySpec(r: string, from: nat)
    requires from <= |r|
    ensures NextBoundary(r, from).None? ==> forall p :: from <= p < |r| ==> !BoundaryAt(r, p)
    ensures NextBoundary(r, from).Some? ==>
      var m := NextBoundary(r, from).value;
      && BoundaryAt(r, m.index)
      && m.end == WhitespaceRunEnd(r, m.index + 1)
      && forall p :: from <= p < m.index ==> !BoundaryAt(r, p)
    decreases |r| - from
  {
    if from + 1 < |r| && !BoundaryAt(r, from) {
      NextBoundarySpec(r, from + 1);
    }
  }

  /** `w.replace(/[.!?]$/, "")`: at most one trailing terminal character removed. */
  function StripTerminal(w: string): string {
    if w != [] && IsTerminal(w[|w| - 1]) then w[..|w| - 1] else w
  }

  /** The word looked up in `Abbreviations`: the last word of the piece, without one trailing terminal, lower-cased. */
  function AbbreviationWord(candidate: string): string {
    ToLower(StripTerminal(LastWord(candidate)))
  }

  /** A piece ending in a dot right after a known abbreviation, as "Mr." does. */
  predicate EndsInAbbreviation(s: string) {
    s != [] && s[|s| - 1] == '.' && AbbreviationWord(s) in Abbreviations
  }

  /** What every returned piece is: non-empty, with no whitespace at either end. */
  predicate IsSentence(s: string) {
    s != [] && IsTrimmed(s)
  }

  /** A piece cut off at an accepted boundary: it ends in `[.!?]`, and not in an abbreviation's dot. */
  predicate EndsAtBoundary(s: string) {
    s != [] && IsTerminal(s[|s| - 1]) && !EndsInAbbreviation(s)
  }

  /**
   * The scanning loop of `splitIntoSentences` over the trimmed text `r`:
   * `from` is the pattern's `lastIndex`, `last` the start of the current
   * piece, `acc` the pieces pushed so far.
   */
  function Scan(r: string, from: nat, last: nat, acc: seq<string>): seq<string>
    requires last <= from <= |r|
    decreases |r| - from
  {
    match NextBoundary(r, from)
    case None => Pushed(acc, Trim(r[last..]))
    case Some(m) =>
      if SkipsBoundary(r, last, m) then Scan(r, m.end, last, acc)
      else Scan(r, m.end, m.end, Pushed(acc, Trim(r[last..m.index + 1])))
  }

  /** `sentences.push(piece)` guarded by `if (piece)`: an empty piece is dropped. */
  function Pushed(acc: seq<string>, piece: string): seq<string> {
    if piece != [] then acc + [piece] else acc
  }

  /** The sentences `splitIntoSentences(text)` returns. */
  function Sentences(text: string): seq<string> {
    if Trim(text) == [] then [] else Scan(Trim(text), 0, 0, [])
  }

  /** `splitIntoSentences`: the regular-expression loop, with the pattern's cursor and the start of the pending piece. */
  method SplitIntoSentences(text: string) returns (result: seq<string>)
    ensures result == Sentences(text)
  {
    if Trim(text) == [] {
      return [];
    }
    result := [];
    var remaining := Trim(text);
    var lastIndex: nat := 0;
    var patternIndex: nat := 0;
    var found := NextBoundary(remaining, patternIndex);
    while found.Some?
      invariant lastIndex <= patternIndex <= |remaining|
      invariant found == NextBoundary(remaining, patternIndex)
      invariant Scan(remaining, patternIndex, lastIndex, result) == Sentences(text)
      decreases |remaining| - patternIndex
    {
      var m := found.value;
      patternIndex := m.end;
      var candidate := Trim(remaining[lastIndex..m.index + 1]);
      if !(remaining[m.index] == '.' && AbbreviationWord(candidate) in Abbreviations) {
        if candidate != [] {
          result := result + [candidate];
        }
        lastIndex := m.end;
      }
      found := NextBoundary(remaining, patternIndex);
    }
    var tail := Trim(remaining[lastIndex..]);
    if tail != [] {
      result := result + [tail];
    }
  }

  // ---------------------------------------------------------------------------
  // Shape of the result

  /** Whether the scan passes over the boundary `m` because the piece before it ends in an abbreviation's dot. */
  predicate SkipsBoundary(r: string, last: nat, m: Match)
    requires last <= m.index < |r|
  {
    PassedOver(r, last, m.index)
  }

  /** Whether the character at `q` is a `.` ending, with the piece started at `last`, a known abbreviation. */
  predicate PassedOver(r: string, last: nat, q: nat)
    requires last <= q < |r|
  {
    r[q] == '.' && AbbreviationWord(Trim(r[last..q + 1])) in Abbreviations
  }

  /**
   * One step of the scan at the boundary `m`: a `.` after an abbreviation is
   * passed over with the piece start kept; any other boundary pushes the
   * trimmed candidate and starts the next piece after the whitespace.
   */
  lemma ScanStep(r: string, from: nat, last: nat, acc: seq<string>, m: Match)
    requires last <= from <= |r| && NextBoundary(r, from) == Some(m)
    ensures last <= m.index < |r| && m.end <= |r|
    ensures Scan(r, from, last, acc) ==
      if SkipsBoundary(r, last, m) then Scan(r, m.end, last, acc)
      else Scan(r, m.end, m.end, Pushed(acc, Trim(r[last..m.index + 1])))
  {
  }

  /** A piece ending at a boundary `q` that the scan did not pass over ends at an accepted boundary. */
  lemma NotPassedOver(r: string, last: nat, q: nat, s: string)
    requires last <= q < |r| && s == Trim(r[last..q + 1])
    requires s != [] && s[|s| - 1] == r[q] && IsTerminal(r[q])
    requires !PassedOver(r, last, q)
    ensures EndsAtBoundary(s)
  {
  }

  /** A piece cut off at a boundary the scan accepts is a sentence ending at that boundary. */
  lemma AcceptedPiece(r: string, from: nat, last: nat, m: Match)
    requires last <= from <= |r| && NextBoundary(r, from) == Some(m)
    requires !SkipsBoundary(r, last, m)
    ensures IsSentence(Trim(r[last..m.index + 1])) && EndsAtBoundary(Trim(r[last..m.index + 1]))
  {
    var piece := r[last..m.index + 1];
    assert last <= m.index && IsTerminal(r[m.index]) by { NextBoundarySpec(r, from); }
    assert piece[|piece| - 1] == r[m.index];
    TrimKeepsLast(piece);
    assert IsTrimmed(Trim(piece)) by { TrimSpec(piece); }
    NotPassedOver(r, last, m.index, Trim(piece));
  }

  lemma {:induction false} ScanShape(r: string, from: nat, last: nat, acc: seq<string>)
    requires last <= from <= |r|
    requires forall i :: 0 <= i < |acc| ==> IsSentence(acc[i]) && EndsAtBoundary(acc[i])
    ensures var result := Scan(r, from, last, acc);
      forall i :: 0 <= i < |result| ==>
        IsSentence(result[i]) && (i < |result| - 1 ==> EndsAtBoundary(result[i]))
    decreases |r| - from
  {
    match NextBoundary(r, from)
    case None =>
      TrimSpec(r[last..]);
    case Some(m) =>
      ScanStep(r, from, last, acc, m);
      if SkipsBoundary(r, last, m) {
        ScanShape(r, m.end, last, acc);
      } else {
        var candidate := Trim(r[last..m.index + 1]);
        AcceptedPiece(r, from, last, m);
        var acc' := acc + [candidate];
        assert forall i :: 0 <= i < |acc'| ==> acc'[i] == if i < |acc| then acc[i] else candidate;
        ScanShape(r, m.end, m.end, acc');
      }
  }

  /**
   * Every sentence is non-empty and has no whitespace at either end; every
   * sentence but the last ends in `.`, `!` or `?`, and never in the dot of a
   * known abbreviation.
   */
  lemma SentencesShape(text: string)
    ensures forall i :: 0 <= i < |Sentences(text)| ==> IsSentence(Sentences(text)[i])
    ensures forall i :: 0 <= i < |Sentences(text)| - 1 ==> EndsAtBoundary(Sentences(text)[i])
  {
    if Trim(text) != [] {
      ScanShape(Trim(text), 0, 0, []);
      assert Sentences(text) == Scan(Trim(text), 0, 0, []);
    }
  }

  /**
   * Every boundary inside `s` is the dot of a known abbreviation: the only
   * boundaries the scan passes over without cutting.
   */
  predicate OnlyAbbreviationBoundaries(s: string) {
    forall p: nat :: p < |s| && BoundaryAt(s, p) ==> s[p] == '.' && AbbreviationWord(s[..p + 1]) in Abbreviations
  }

  /** Every boundary the scan met from the piece start `last` up to `from` was passed over as an abbreviation's dot. */
  predicate SkippedSince(r: string, last: nat, from: nat)
    requires last <= from <= |r|
  {
    forall q: nat :: last <= q < from && BoundaryAt(r, q) ==> PassedOver(r, last, q)
  }

  /** A boundary at `p` in the trimmed piece `r[last..e]` is the boundary `q` of `r`, and the piece up to it is `r[last..q + 1]` trimmed. */
  lemma PieceBoundaryAt(r: string, last: nat, e: nat, p: nat, q: nat)
    requires last <= e <= |r| && p < |Trim(r[last..e])| && BoundaryAt(Trim(r[last..e]), p)
    requires q == last + TrimOffset(r[last..e]) + p
    ensures q + 1 < e && BoundaryAt(r, q) && r[q] == Trim(r[last..e])[p]
    ensures Trim(r[last..q + 1]) == Trim(r[last..e])[..p + 1]
  {
    var s := r[last..e];
    var off := TrimOffset(s);
    TrimSpec(s);
    assert Trim(s)[p] == s[off + p] == r[q] && Trim(s)[p + 1] == s[off + p + 1] == r[q + 1];
    assert s[..off + p + 1] == r[last..q + 1];
    TrimOfPrefix(s, off + p + 1);
  }

  /** A piece `r[last..e]` whose inner boundaries were all passed over trims to a piece whose only boundaries are abbreviation dots. */
  lemma PieceBoundaries(r: string, last: nat, e: nat)
    requires last <= e <= |r|
    requires forall q: nat :: last <= q && q + 1 < e && BoundaryAt(r, q) ==> PassedOver(r, last, q)
    ensures OnlyAbbreviationBoundaries(Trim(r[last..e]))
  {
    var piece := Trim(r[last..e]);
    forall p: nat | p < |piece| && BoundaryAt(piece, p)
      ensures piece[p] == '.' && AbbreviationWord(piece[..p + 1]) in Abbreviations
    {
      var q := last + TrimOffset(r[last..e]) + p;
      PieceBoundaryAt(r, last, e, p, q);
    }
  }

  /** Between `from` and the end of the boundary `m`'s whitespace run, `m.index` is the only boundary. */
  lemma OnlyBoundaryBeforeRunEnd(r: string, from: nat, m: Match)
    requires from <= |r| && NextBoundary(r, from) == Some(m)
    ensures forall q: nat :: from <= q < m.end && BoundaryAt(r, q) ==> q == m.index
  {
    NextBoundarySpec(r, from);
    WhitespaceRunEndSpec(r, m.index + 1);
  }

  /** Passing over the boundary `m`, the only one before the end of its whitespace run, keeps every boundary since `last` passed over. */
  lemma SkipExtends(r: string, from: nat, last: nat, m: Match)
    requires last <= from <= m.index < m.end <= |r|
    requires forall q: nat :: from <= q < m.end && BoundaryAt(r, q) ==> q == m.index
    requires SkippedSince(r, last, from) && PassedOver(r, last, m.index)
    ensures SkippedSince(r, last, m.end)
  {
  }

  /** The piece cut at the boundary `m` holds no boundary but abbreviation dots. */
  lemma AcceptedPieceBoundaries(r: string, from: nat, last: nat, m: Match)
    requires last <= from <= |r| && NextBoundary(r, from) == Some(m)
    requires SkippedSince(r, last, from)
    ensures OnlyAbbreviationBoundaries(Trim(r[last..m.index + 1]))
  {
    NextBoundarySpec(r, from);
    PieceBoundaries(r, last, m.index + 1);
  }

  /** The tail after the last boundary holds no boundary but abbreviation dots. */
  lemma TailBoundaries(r: string, from: nat, last: nat)
    requires last <= from <= |r| && NextBoundary(r, from) == None
    requires SkippedSince(r, last, from)
    ensures OnlyAbbreviationBoundaries(Trim(r[last..]))
  {
    NextBoundarySpec(r, from);
    PieceBoundaries(r, last, |r|);
    assert r[last..|r|] == r[last..];
  }

  lemma {:induction false} ScanCutsAtEveryBoundary(r: string, from: nat, last: nat, acc: seq<string>)
    requires last <= from <= |r|
    requires SkippedSince(r, last, from)
    requires forall i :: 0 <= i < |acc| ==> OnlyAbbreviationBoundaries(acc[i])
    ensures forall i :: 0 <= i < |Scan(r, from, last, acc)| ==> OnlyAbbreviationBoundaries(Scan(r, from, last, acc)[i])
    decreases |r| - from
  {
    match NextBoundary(r, from)
    case None =>
      TailBoundaries(r, from, last);
    case Some(m) =>
      ScanStep(r, from, last, acc, m);
      if SkipsBoundary(r, last, m) {
        OnlyBoundaryBeforeRunEnd(r, from, m);
        SkipExtends(r, from, last, m);
        ScanCutsAtEveryBoundary(r, m.end, last, acc);
      } else {
        AcceptedPieceBoundaries(r, from, last, m);
        var acc' := Pushed(acc, Trim(r[last..m.index + 1]));
        ScanCutsAtEveryBoundary(r, m.end, m.end, acc');
      }
  }

  /**
   * Inside a sentence, every `.`, `!` or `?` followed by whitespace is the dot
   * of a known abbreviation, the word looked up being the one the sentence
   * ends with at that dot: every other boundary cuts the text.
   */
  lemma SentencesCutAtEveryBoundary(text: string)
    ensures forall i :: 0 <= i < |Sentences(text)| ==> OnlyAbbreviationBoundaries(Sentences(text)[i])
  {
    if Trim(text) != [] {
      ScanCutsAtEveryBoundary(Trim(text), 0, 0, []);
    }
  }

  // ---------------------------------------------------------------------------
  // The sentences are slices of the text

  /** The pieces `acc`, each followed by its gap from `gaps`. */
  function Rebuilt(acc: seq<string>, gaps: seq<string>): string
    requires |gaps| == |acc|
  {
    if acc == [] then [] else Rebuilt(acc[..|acc| - 1], gaps[..|gaps| - 1]) + acc[|acc| - 1] + gaps[|gaps| - 1]
  }

  /** The pieces with a gap between each two: `pieces[0] + gaps[0] + pieces[1] + … + pieces[n - 1]`. */
  function Interleave(pieces: seq<string>, gaps: seq<string>): string
    requires |gaps| + 1 == |pieces|
  {
    Rebuilt(pieces[..|gaps|], gaps) + pieces[|gaps|]
  }

  /** Every gap is a non-empty run of whitespace. */
  predicate WhitespaceGaps(gaps: seq<string>) {
    forall j :: 0 <= j < |gaps| ==> gaps[j] != [] && IsBlank(gaps[j])
  }

  lemma RebuiltSnoc(acc: seq<string>, gaps: seq<string>, p: string, g: string)
    requires |gaps| == |acc|
    ensures Rebuilt(acc + [p], gaps + [g]) == Rebuilt(acc, gaps) + p + g
  {
    assert (acc + [p])[..|acc|] == acc;
    assert (gaps + [g])[..|gaps|] == gaps;
  }

  /** A slice from a non-whitespace character to a non-whitespace character is its own trim. */
  lemma TrimOfCore(r: string, i: nat, j: nat)
    requires i < j <= |r| && !IsWhitespace(r[i]) && !IsWhitespace(r[j - 1])
    ensures Trim(r[i..j]) == r[i..j]
  {
    var u := r[i..j];
    assert u[0] == r[i] && u[|u| - 1] == r[j - 1];
    TrimOfTrimmed(u);
  }

  /**
   * In text that does not end in whitespace, the boundary `m` is followed by
   * a non-empty run of whitespace that stops before the end, at a
   * non-whitespace character.
   */
  lemma RunAfterBoundary(r: string, from: nat, m: Match)
    requires r != [] && !IsWhitespace(r[|r| - 1]) && from <= |r| && NextBoundary(r, from) == Some(m)
    ensures !IsWhitespace(r[m.index]) && m.index + 1 < m.end < |r| && !IsWhitespace(r[m.end])
    ensures r[m.index + 1..m.end] != [] && IsBlank(r[m.index + 1..m.end])
  {
    NextBoundarySpec(r, from);
    WhitespaceRunEndSpec(r, m.index + 1);
    assert IsWhitespace(r[m.end - 1]);
    var gap := r[m.index + 1..m.end];
    forall x | 0 <= x < |gap| ensures IsWhitespace(gap[x]) {
      assert gap[x] == r[m.index + 1 + x];
    }
  }

  /**
   * At an accepted boundary `m` of the trimmed text `r`, with the piece
   * starting at a non-whitespace character: the piece is its own slice, the
   * gap after it is a non-empty run of whitespace, and the next piece starts
   * at a non-whitespace character.
   */
  lemma AcceptedSlice(r: string, from: nat, last: nat, m: Match)
    requires r != [] && IsTrimmed(r) && last <= from <= |r| && last < |r| && !IsWhitespace(r[last])
    requires NextBoundary(r, from) == Some(m)
    ensures m.index + 1 < m.end < |r| && !IsWhitespace(r[m.end])
    ensures Trim(r[last..m.index + 1]) == r[last..m.index + 1] != []
    ensures r[m.index + 1..m.end] != [] && IsBlank(r[m.index + 1..m.end])
  {
    RunAfterBoundary(r, from, m);
    TrimOfCore(r, last, m.index + 1);
  }

  /** With no boundary left, the trimmed tail completes the rebuilt text. */
  lemma TailSlice(r: string, from: nat, last: nat, acc: seq<string>, gaps: seq<string>)
    requires r != [] && IsTrimmed(r) && last <= from <= |r| && last < |r| && !IsWhitespace(r[last])
    requires |gaps| == |acc| && Rebuilt(acc, gaps) == r[..last]
    requires NextBoundary(r, from).None?
    ensures |gaps| + 1 == |Scan(r, from, last, acc)| && Interleave(Scan(r, from, last, acc), gaps) == r
  {
    TrimOfCore(r, last, |r|);
    assert r[last..|r|] == r[last..];
    var result := acc + [r[last..]];
    assert Scan(r, from, last, acc) == result;
    assert result[..|gaps|] == acc;
    assert r[..last] + r[last..] == r;
  }

  lemma GapsSnoc(gaps: seq<string>, g: string)
    requires WhitespaceGaps(gaps) && g != [] && IsBlank(g)
    ensures WhitespaceGaps(gaps + [g])
  {
    forall j | 0 <= j < |gaps + [g]| ensures (gaps + [g])[j] != [] && IsBlank((gaps + [g])[j]) {
      if j < |gaps| {
        assert (gaps + [g])[j] == gaps[j];
      }
    }
  }

  lemma PrefixJoin(r: string, i: nat, j: nat, k: nat)
    requires i <= j <= k <= |r|
    ensures r[..i] + r[i..j] + r[j..k] == r[..k]
  {
  }

  /** Pushing the piece `r[last..i]` with the whitespace gap `r[i..e]` extends the rebuilt prefix from `last` to `e`. */
  lemma RebuildStep(r: string, last: nat, i: nat, e: nat, acc: seq<string>, gaps: seq<string>)
    requires last <= i <= e <= |r| && r[i..e] != [] && IsBlank(r[i..e])
    requires |gaps| == |acc| && WhitespaceGaps(gaps) && Rebuilt(acc, gaps) == r[..last]
    ensures WhitespaceGaps(gaps + [r[i..e]])
    ensures Rebuilt(acc + [r[last..i]], gaps + [r[i..e]]) == r[..e]
  {
    GapsSnoc(gaps, r[i..e]);
    RebuiltSnoc(acc, gaps, r[last..i], r[i..e]);
    PrefixJoin(r, last, i, e);
  }

  /**
   * The pieces pushed so far, each followed by its gap, rebuild the trimmed
   * text `r` up to the piece start `last`; the scan then rebuilds all of `r`
   * with non-empty whitespace gaps between its pieces.
   */
  lemma {:induction false} ScanSlices(r: string, from: nat, last: nat, acc: seq<string>, gaps: seq<string>)
    returns (gaps': seq<string>)
    requires r != [] && IsTrimmed(r) && last <= from <= |r| && last < |r| && !IsWhitespace(r[last])
    requires |gaps| == |acc| && WhitespaceGaps(gaps) && Rebuilt(acc, gaps) == r[..last]
    ensures |gaps'| + 1 == |Scan(r, from, last, acc)| && WhitespaceGaps(gaps')
    ensures Interleave(Scan(r, from, last, acc), gaps') == r
    decreases |r| - from
  {
    match NextBoundary(r, from)
    case None =>
      TailSlice(r, from, last, acc, gaps);
      gaps' := gaps;
    case Some(m) =>
      ScanStep(r, from, last, acc, m);
      if SkipsBoundary(r, last, m) {
        gaps' := ScanSlices(r, m.end, last, acc, gaps);
      } else {
        AcceptedSlice(r, from, last, m);
        assert Pushed(acc, Trim(r[last..m.index + 1])) == acc + [r[last..m.index + 1]];
        RebuildStep(r, last, m.index + 1, m.end, acc, gaps);
        gaps' := ScanSlices(r, m.end, m.end, acc + [r[last..m.index + 1]], gaps + [r[m.index + 1..m.end]]);
      }
  }

  /**
   * The sentences of a non-blank text are its own slices: joined with the
   * non-empty runs of whitespace between them, they give back the trimmed
   * text character for character. With `SentencesShape` and
   * `SentencesCutAtEveryBoundary`, every gap follows a terminal that is not
   * an abbreviation's dot, and no other boundary lies inside a sentence.
   */
  lemma SentencesAreSlices(text: string)
    ensures !IsBlank(text) ==>
      exists gaps: seq<string> :: |gaps| + 1 == |Sentences(text)| && WhitespaceGaps(gaps) &&
        Interleave(Sentences(text), gaps) == Trim(text)
  {
    if !IsBlank(text) {
      TrimEmptyIffBlank(text);
      TrimSpec(text);
      var r := Trim(text);
      assert Rebuilt([], []) == r[..0];
      var gaps := ScanSlices(r, 0, 0, [], []);
      assert Sentences(text) == Scan(r, 0, 0, []);
      assert |gaps| + 1 == |Sentences(text)| && WhitespaceGaps(gaps) && Interleave(Sentences(text), gaps) == Trim(text);
    }
  }

  /** The trim of a non-blank string is a sentence. */
  lemma TrimIsSentence(s: string)
    requires Trim(s) != []
    ensures IsSentence(Trim(s))
  {
    TrimSpec(s);
  }

  // ---------------------------------------------------------------------------
  // No non-whitespace character is lost or reordered

  lemma NonWhitespaceOfSlices(r: string, i: nat, j: nat)
    requires i <= j <= |r|
    ensures NonWhitespace(r[..j]) == NonWhitespace(r[..i]) + NonWhitespace(r[i..j])
  {
    assert r[..j] == r[..i] + r[i..j];
    NonWhitespaceAppend(r[..i], r[i..j]);
  }

  lemma ConcatSnoc(acc: seq<string>, x: string)
    ensures Concat(acc + [x]) == Concat(acc) + x
  {
    assert (acc + [x])[..|acc|] == acc;
  }

  /** The whitespace run a boundary match consumes holds no other character. */
  lemma MatchRunIsBlank(r: string, from: nat, m: Match)
    requires from <= |r| && NextBoundary(r, from) == Some(m)
    ensures from <= m.index < m.index + 1 <= m.end <= |r|
    ensures IsBlank(r[m.index + 1..m.end])
  {
    NextBoundarySpec(r, from);
    WhitespaceRunEndSpec(r, m.index + 1);
    var run := r[m.index + 1..m.end];
    forall i | 0 <= i < |run| ensures IsWhitespace(run[i]) {
      assert run[i] == r[m.index + 1 + i];
    }
  }

  /** Appending the trimmed piece `r[last..end]` (when non-empty) extends the kept text up to `end`. */
  lemma PushKeepsText(r: string, last: nat, end: nat, acc: seq<string>)
    requires last <= end <= |r|
    requires NonWhitespace(Concat(acc)) == NonWhitespace(r[..last])
    ensures NonWhitespace(Concat(Pushed(acc, Trim(r[last..end])))) == NonWhitespace(r[..end])
  {
    var piece := r[last..end];
    var candidate := Trim(piece);
    NonWhitespaceOfSlices(r, last, end);
    NonWhitespaceOfTrim(piece);
    if candidate != [] {
      ConcatSnoc(acc, candidate);
      NonWhitespaceAppend(Concat(acc), candidate);
    } else {
      TrimEmptyIffBlank(piece);
      NonWhitespaceOfBlank(piece);
    }
  }

  /** Pushing the piece `r[last..j]` and passing over the blank run `r[j..k]` keeps the text up to `k`. */
  lemma PushThroughRun(r: string, last: nat, j: nat, k: nat, acc: seq<string>)
    requires last <= j <= k <= |r|
    requires NonWhitespace(Concat(acc)) == NonWhitespace(r[..last])
    requires IsBlank(r[j..k])
    ensures NonWhitespace(Concat(Pushed(acc, Trim(r[last..j])))) == NonWhitespace(r[..k])
  {
    NonWhitespaceOfBlank(r[j..k]);
    PushKeepsText(r, last, j, acc);
    NonWhitespaceOfSlices(r, j, k);
    assert NonWhitespace(r[..j]) + [] == NonWhitespace(r[..j]);
  }

  /** Pushing the piece cut at the boundary `m` keeps the text up to the end of the boundary's whitespace. */
  lemma AcceptKeepsText(r: string, from: nat, last: nat, acc: seq<string>, m: Match)
    requires last <= from <= |r| && NextBoundary(r, from) == Some(m)
    requires NonWhitespace(Concat(acc)) == NonWhitespace(r[..last])
    ensures NonWhitespace(Concat(Pushed(acc, Trim(r[last..m.index + 1])))) == NonWhitespace(r[..m.end])
  {
    var j, k := m.index + 1, m.end;
    MatchRunIsBlank(r, from, m);
    PushThroughRun(r, last, j, k, acc);
  }

  lemma {:induction false} ScanKeepsText(r: string, from: nat, last: nat, acc: seq<string>)
    requires last <= from <= |r|
    requires NonWhitespace(Concat(acc)) == NonWhitespace(r[..last])
    ensures NonWhitespace(Concat(Scan(r, from, last, acc))) == NonWhitespace(r)
    decreases |r| - from
  {
    match NextBoundary(r, from)
    case None =>
      PushKeepsText(r, last, |r|, acc);
      assert r[..|r|] == r;
    case Some(m) =>
      ScanStep(r, from, last, acc, m);
      if SkipsBoundary(r, last, m) {
        ScanKeepsText(r, m.end, last, acc);
      } else {
        AcceptKeepsText(r, from, last, acc, m);
        ScanKeepsText(r, m.end, m.end, Pushed(acc, Trim(r[last..m.index + 1])));
      }
  }

  /** Joined in order, the sentences hold exactly the non-whitespace characters of the text, in the same order. */
  lemma SentencesKeepText(text: string)
    ensures NonWhitespace(Concat(Sentences(text))) == NonWhitespace(text)
  {
    NonWhitespaceOfTrim(text);
    if Trim(text) == [] {
      assert NonWhitespace([]) == [];
    } else {
      ScanKeepsText(Trim(text), 0, 0, []);
    }
  }

  /** The result is empty exactly when the text is empty or whitespace only. */
  lemma SentencesEmptyIffBlank(text: string)
    ensures Sentences(text) == [] <==> IsBlank(text)
  {
    TrimEmptyIffBlank(text);
    SentencesKeepText(text);
    NonWhitespaceOfBlank(text);
    if Sentences(text) == [] {
      assert Concat([]) == [];
    }
  }

  /** Text with no terminal character followed by whitespace is one sentence: the trimmed text, or none if it is blank. */
  lemma SentencesWithoutBoundary(text: string)
    requires forall p :: 0 <= p < |text| ==> !BoundaryAt(text, p)
    ensures Sentences(text) == if IsBlank(text) then [] else [Trim(text)]
  {
    TrimEmptyIffBlank(text);
    TrimSpec(text);
    var r := Trim(text);
    if r != [] {
      var k := TrimOffset(text);
      forall p | 0 <= p < |r| ensures !BoundaryAt(r, p) {
        if BoundaryAt(r, p) {
          assert r[p] == text[k + p] && r[p + 1] == text[k + p + 1];
          assert BoundaryAt(text, k + p);
        }
      }
      NextBoundarySpec(r, 0);
      assert r[0..] == r;
      TrimOfTrimmed(r);
    }
  }
}
