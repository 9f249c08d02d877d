/**
 The tokenizer of assignment5/WordCount.java: lower-casing, `split("\\P{Alpha}+")` and the loop
 that emits a pair for every non-empty token. Letters are the ASCII ones.
 */
module Tokenizer {
  import opened Streams

  predicate IsAlpha(c: char) {
    'a' <= c <= 'z' || 'A' <= c <= 'Z'
  }

  function Lower(c: char): char {
    if 'A' <= c <= 'Z' then ((c as int) + 32) as char else c
  }

  function LowerLine(line: string): string {
    seq(|line|, i requires 0 <= i < |line| => Lower(line[i]))
  }

  /** The end of the run of (non-)letters that starts at `from`. */
  function RunEnd(s: string, from: nat, letters: bool): (end: nat)
    requires from <= |s|
    ensures from <= end <= |s|
    ensures forall k :: from <= k < end ==> IsAlpha(s[k]) == letters
    ensures end < |s| ==> IsAlpha(s[end]) != letters
    decreases |s| - from
  {
    if from < |s| && IsAlpha(s[from]) == letters then RunEnd(s, from + 1, letters) else from
  }

  // -------------------------------------------------------------------------------------------
  // The words of a text
  // -------------------------------------------------------------------------------------------

  /** The spans of the words of s from position `from` on, found in one scan. */
  function Spans(s: string, from: nat): seq<(nat, nat)>
    requires from <= |s|
    decreases |s| - from
  {
    if from == |s| then []
    else if !IsAlpha(s[from]) then Spans(s, from + 1)
    else
      var end := RunEnd(s, from, true);
      assert end > from;
      [(from, end)] + Spans(s, end)
  }

  function Slices(s: string, spans: seq<(nat, nat)>): seq<string>
    requires forall span :: span in spans ==> span.0 <= span.1 <= |s|
  {
    seq(|spans|, i requires 0 <= i < |spans| => s[spans[i].0..spans[i].1])
  }

  /** s[i..j] is a run of letters that cannot be made longer on either side. */
  predicate IsMaximalRun(s: string, i: nat, j: nat) {
    && i < j <= |s|
    && (forall k :: i <= k < j ==> IsAlpha(s[k]))
    && (i > 0 ==> !IsAlpha(s[i - 1]))
    && (j < |s| ==> !IsAlpha(s[j]))
  }

  predicate Ascending(spans: seq<(nat, nat)>) {
    forall a, b :: 0 <= a < b < |spans| ==> spans[a].1 < spans[b].0
  }

  /** The scan stands at the start of the text, after a run, or after a non-letter. */
  predicate AtBoundary(s: string, from: nat) {
    from <= |s| && (0 < from < |s| && IsAlpha(s[from]) ==> !IsAlpha(s[from - 1]))
  }

  // A maximal run that starts inside the run found at `from` is that run.
  lemma FirstRun(s: string, from: nat, i: nat, j: nat)
    requires AtBoundary(s, from) && from < |s| && IsAlpha(s[from])
    requires from <= i < RunEnd(s, from, true)
    ensures IsMaximalRun(s, i, j) <==> (i, j) == (from, RunEnd(s, from, true))
  {
  }

  lemma {:induction false} SpansFromAreMaximal(s: string, from: nat, i: nat, j: nat)
    requires AtBoundary(s, from)
    ensures (i, j) in Spans(s, from) <==> from <= i && IsMaximalRun(s, i, j)
    decreases |s| - from
  {
    if from < |s| {
      if IsAlpha(s[from]) {
        var end := RunEnd(s, from, true);
        SpansFromAreMaximal(s, end, i, j);
        if from <= i < end {
          FirstRun(s, from, i, j);
        }
      } else {
        SpansFromAreMaximal(s, from + 1, i, j);
      }
    }
  }

  lemma {:induction false} SpansAscend(s: string, from: nat)
    requires from <= |s|
    ensures Ascending(Spans(s, from))
    ensures forall span :: span in Spans(s, from) ==> from <= span.0
    ensures from < |s| && !IsAlpha(s[from]) ==> forall span :: span in Spans(s, from) ==> from < span.0
    decreases |s| - from
  {
    if from < |s| {
      SpansAscend(s, if IsAlpha(s[from]) then RunEnd(s, from, true) else from + 1);
    }
  }

  /** The scan finds exactly the maximal runs of letters, each once and from left to right. */
  lemma SpansAreMaximalRuns(s: string)
    ensures Ascending(Spans(s, 0))
    ensures forall i: nat, j: nat :: (i, j) in Spans(s, 0) <==> IsMaximalRun(s, i, j)
  {
    SpansAscend(s, 0);
    forall i: nat, j: nat
      ensures (i, j) in Spans(s, 0) <==> IsMaximalRun(s, i, j)
    {
      SpansFromAreMaximal(s, 0, i, j);
    }
  }

  /** The words of s from position `from` on. */
  function WordsFrom(s: string, from: nat): seq<string>
    requires from <= |s|
    decreases |s| - from
  {
    if from == |s| then []
    else if !IsAlpha(s[from]) then WordsFrom(s, from + 1)
    else
      var end := RunEnd(s, from, true);
      assert end > from;
      [s[from..end]] + WordsFrom(s, end)
  }

  function Words(s: string): seq<string> {
    WordsFrom(s, 0)
  }

  lemma {:induction false} WordsFromAreSlices(s: string, from: nat)
    requires from <= |s|
    ensures forall span :: span in Spans(s, from) ==> span.0 <= span.1 <= |s|
    ensures WordsFrom(s, from) == Slices(s, Spans(s, from))
    decreases |s| - from
  {
    if from < |s| {
      if IsAlpha(s[from]) {
        var end := RunEnd(s, from, true);
        WordsFromAreSlices(s, end);
        assert Spans(s, from) == [(from, end)] + Spans(s, end);
      } else {
        WordsFromAreSlices(s, from + 1);
      }
    }
  }

  /** The words are the maximal runs of letters, left to right. */
  lemma WordsAreMaximalRuns(s: string) returns (spans: seq<(nat, nat)>)
    ensures Ascending(spans)
    ensures forall i: nat, j: nat :: (i, j) in spans <==> IsMaximalRun(s, i, j)
    ensures forall span :: span in spans ==> span.0 <= span.1 <= |s|
    ensures Words(s) == Slices(s, spans)
  {
    spans := Spans(s, 0);
    SpansAreMaximalRuns(s);
    WordsFromAreSlices(s, 0);
  }

  // -------------------------------------------------------------------------------------------
  // Where a text is cut into lines
  // -------------------------------------------------------------------------------------------

  lemma {:induction false} RunEndShift(p: string, s: string, from: nat, letters: bool)
    requires from <= |s|
    ensures RunEnd(p + s, |p| + from, letters) == |p| + RunEnd(s, from, letters)
    decreases |s| - from
  {
    if from < |s| && IsAlpha(s[from]) == letters {
      RunEndShift(p, s, from + 1, letters);
    }
  }

  // What stands before the starting position does not matter.
  lemma {:induction false} WordsFromShift(p: string, s: string, from: nat)
    requires from <= |s|
    ensures WordsFrom(p + s, |p| + from) == WordsFrom(s, from)
    decreases |s| - from
  {
    if from < |s| {
      if IsAlpha(s[from]) {
        var end := RunEnd(s, from, true);
        RunEndShift(p, s, from, true);
        assert (p + s)[|p| + from..|p| + end] == s[from..end];
        WordsFromShift(p, s, end);
      } else {
        WordsFromShift(p, s, from + 1);
      }
    }
  }

  lemma {:induction false} RunEndBefore(a: string, b: string, from: nat)
    requires from <= |a| && (b == "" || !IsAlpha(b[0]))
    ensures RunEnd(a + b, from, true) == RunEnd(a, from, true)
    decreases |a| - from
  {
    if from < |a| && IsAlpha(a[from]) {
      RunEndBefore(a, b, from + 1);
    }
  }

  lemma {:induction false} WordsFromSplit(a: string, b: string, from: nat)
    requires from <= |a| && (b == "" || !IsAlpha(b[0]))
    ensures WordsFrom(a + b, from) == WordsFrom(a, from) + Words(b)
    decreases |a| - from
  {
    if from == |a| {
      WordsFromShift(a, b, 0);
    } else if IsAlpha(a[from]) {
      var end := RunEnd(a, from, true);
      RunEndBefore(a, b, from);
      assert (a + b)[from..end] == a[from..end];
      WordsFromSplit(a, b, end);
    } else {
      WordsFromSplit(a, b, from + 1);
    }
  }

  /** Two texts joined by a character that is no letter have the words of both. */
  lemma WordsOfJoined(a: string, sep: char, b: string)
    requires !IsAlpha(sep)
    ensures Words(a + [sep] + b) == Words(a) + Words(b)
  {
    var rest := [sep] + b;
    assert a + [sep] + b == a + rest;
    WordsFromSplit(a, rest, 0);
    WordsFromShift([sep], b, 0);
    assert Words(rest) == WordsFrom(rest, 1);
  }

  /** What `flatMap` emits for a line. */
  function Tokens(line: string): seq<string> {
    Words(LowerLine(line))
  }

  // -------------------------------------------------------------------------------------------
  // Lower-casing
  // -------------------------------------------------------------------------------------------

  /** line[i..j] is a run of letters of the alphabet, in either case, that cannot be made longer. */
  predicate IsLetterRun(line: string, i: nat, j: nat) {
    && i < j <= |line|
    && (forall k :: i <= k < j ==> 'a' <= line[k] <= 'z' || 'A' <= line[k] <= 'Z')
    && (i > 0 ==> !('a' <= line[i - 1] <= 'z' || 'A' <= line[i - 1] <= 'Z'))
    && (j < |line| ==> !('a' <= line[j] <= 'z' || 'A' <= line[j] <= 'Z'))
  }

  /** c is the small letter for d: d itself, or the one with the same place in the alphabet. */
  predicate IsSmallFor(c: char, d: char) {
    'a' <= c <= 'z' && (c == d || ('A' <= d <= 'Z' && c as int - 'a' as int == d as int - 'A' as int))
  }

  /**
   The tokens of a line, one for each maximal run of letters of the line and in their order, are these
   runs in small letters.
   */
  lemma TokensAreSmallLetters(line: string) returns (spans: seq<(nat, nat)>)
    ensures Ascending(spans)
    ensures forall i: nat, j: nat :: (i, j) in spans <==> IsLetterRun(line, i, j)
    ensures |Tokens(line)| == |spans|
    ensures forall k :: 0 <= k < |spans| ==>
              var (i, j) := spans[k];
              && i < j <= |line| && |Tokens(line)[k]| == j - i
              && forall m :: 0 <= m < j - i ==> IsSmallFor(Tokens(line)[k][m], line[i + m])
  {
    var s := LowerLine(line);
    spans := WordsAreMaximalRuns(s);
    forall i: nat, j: nat
      ensures IsMaximalRun(s, i, j) <==> IsLetterRun(line, i, j)
    {
      assert forall k :: 0 <= k < |line| ==> s[k] == Lower(line[k]);
    }
    forall k | 0 <= k < |spans|
      ensures var (i, j) := spans[k];
              && i < j <= |line| && |Tokens(line)[k]| == j - i
              && forall m :: 0 <= m < j - i ==> IsSmallFor(Tokens(line)[k][m], line[i + m])
    {
      var (i, j) := spans[k];
      assert spans[k] in spans && (i, j) in spans && IsLetterRun(line, i, j);
      assert Tokens(line)[k] == s[i..j];
    }
  }

  /** The letters are the same but for their case, and everything else is the same. */
  predicate SameButForCase(a: string, b: string) {
    && |a| == |b|
    && forall k :: 0 <= k < |a| ==>
         || a[k] == b[k]
         || ('a' <= a[k] <= 'z' && 'A' <= b[k] <= 'Z' && a[k] as int - 'a' as int == b[k] as int - 'A' as int)
         || ('A' <= a[k] <= 'Z' && 'a' <= b[k] <= 'z' && a[k] as int - 'A' as int == b[k] as int - 'a' as int)
  }

  /** So case makes no difference to the tokens of a line, nor to anything that is counted. */
  lemma CaseDoesNotMatter(a: string, b: string)
    requires SameButForCase(a, b)
    ensures Tokens(a) == Tokens(b)
  {
    assert LowerLine(a) == LowerLine(b);
  }

  lemma {:induction false} CaseDoesNotMatterInLines(a: seq<string>, b: seq<string>)
    requires |a| == |b| && forall k :: 0 <= k < |a| ==> SameButForCase(a[k], b[k])
    ensures TokensOf(a) == TokensOf(b)
  {
    if a != [] {
      CaseDoesNotMatter(a[0], b[0]);
      CaseDoesNotMatterInLines(a[1..], b[1..]);
    }
  }

  function TokensOf(lines: seq<string>): seq<string> {
    if lines == [] then [] else Tokens(lines[0]) + TokensOf(lines[1..])
  }

  /** The lines written one after the other, with the given characters between them. */
  function JoinLines(lines: seq<string>, seps: string): string
    requires |lines| == |seps| + 1
  {
    if seps == [] then lines[0] else lines[0] + [seps[0]] + JoinLines(lines[1..], seps[1..])
  }

  /** The tokens do not depend on how a text is cut into lines at characters that are no letters. */
  lemma {:induction false} CutsDoNotMatter(lines: seq<string>, seps: string)
    requires |lines| == |seps| + 1 && forall k :: 0 <= k < |seps| ==> !IsAlpha(seps[k])
    ensures Tokens(JoinLines(lines, seps)) == TokensOf(lines)
    decreases |seps|
  {
    if seps == [] {
      assert TokensOf(lines) == Tokens(lines[0]) + TokensOf(lines[1..]);
      assert lines[1..] == [];
    } else {
      var rest := JoinLines(lines[1..], seps[1..]);
      CutsDoNotMatter(lines[1..], seps[1..]);
      assert LowerLine(lines[0] + [seps[0]] + rest) == LowerLine(lines[0]) + [Lower(seps[0])] + LowerLine(rest);
      WordsOfJoined(LowerLine(lines[0]), Lower(seps[0]), LowerLine(rest));
    }
  }

  // -------------------------------------------------------------------------------------------
  // The code: split, then emit the non-empty pieces
  // -------------------------------------------------------------------------------------------

  /** The pieces between the runs of non-letters, from the end of one such run on. */
  function Pieces(s: string, from: nat): seq<string>
    requires from <= |s|
    decreases |s| - from
  {
    var end := RunEnd(s, from, true);
    if end == |s| then [s[from..]]
    else
      assert RunEnd(s, end, false) > end;
      [s[from..end]] + Pieces(s, RunEnd(s, end, false))
  }

  function DropTrailingEmpty(pieces: seq<string>): seq<string> {
    if pieces != [] && pieces[|pieces| - 1] == "" then DropTrailingEmpty(pieces[..|pieces| - 1]) else pieces
  }

  /** Java's `s.split("\\P{Alpha}+")`: without a match the text itself, else no trailing empty pieces. */
  function Split(s: string): seq<string> {
    if RunEnd(s, 0, true) == |s| then [s] else DropTrailingEmpty(Pieces(s, 0))
  }

  function NonEmpty(pieces: seq<string>): seq<string> {
    if pieces == [] then []
    else NonEmpty(pieces[..|pieces| - 1]) +
         if |pieces[|pieces| - 1]| > 0 then [pieces[|pieces| - 1]] else []
  }

  lemma {:induction false} NonEmptyConcat(a: seq<string>, b: seq<string>)
    ensures NonEmpty(a + b) == NonEmpty(a) + NonEmpty(b)
  {
    if b == [] {
      assert a + b == a;
    } else {
      assert (a + b)[..|a + b| - 1] == a + b[..|b| - 1];
      NonEmptyConcat(a, b[..|b| - 1]);
    }
  }

  lemma {:induction false} NonEmptyOfTrimmed(pieces: seq<string>)
    ensures NonEmpty(DropTrailingEmpty(pieces)) == NonEmpty(pieces)
  {
    if pieces != [] && pieces[|pieces| - 1] == "" {
      NonEmptyOfTrimmed(pieces[..|pieces| - 1]);
    }
  }

  lemma {:induction false} WordsAfterGap(s: string, from: nat)
    requires from <= |s|
    ensures WordsFrom(s, from) == WordsFrom(s, RunEnd(s, from, false))
    decreases |s| - from
  {
    if from < |s| && !IsAlpha(s[from]) {
      WordsAfterGap(s, from + 1);
    }
  }

  lemma {:induction false} NonEmptyPiecesAreWords(s: string, from: nat)
    requires from <= |s|
    ensures NonEmpty(Pieces(s, from)) == WordsFrom(s, from)
    decreases |s| - from
  {
    var end := RunEnd(s, from, true);
    var piece := s[from..end];
    assert NonEmpty([piece]) == if from < end then [piece] else [] by {
      assert [piece][..0] == [];
    }
    if end == |s| {
      assert s[from..] == piece;
    } else {
      var next := RunEnd(s, end, false);
      NonEmptyPiecesAreWords(s, next);
      NonEmptyConcat([piece], Pieces(s, next));
      WordsAfterGap(s, end);
    }
  }

  /** The non-empty pieces of the split are the words. */
  lemma NonEmptySplitIsWords(s: string)
    ensures NonEmpty(Split(s)) == Words(s)
  {
    NonEmptyPiecesAreWords(s, 0);
    NonEmptyOfTrimmed(Pieces(s, 0));
    assert RunEnd(s, 0, true) == |s| ==> Pieces(s, 0) == [s];
  }

  function Ones(tokens: seq<string>): seq<Entry> {
    seq(|tokens|, i requires 0 <= i < |tokens| => Entry(tokens[i], 1))
  }

  /** What the source promises of each call, in terms of the line itself. */
  ghost predicate EmitsRunsOf(line: string, emitted: seq<Entry>) {
    exists spans: seq<(nat, nat)> ::
      && Ascending(spans) && |spans| == |emitted|
      && (forall i: nat, j: nat :: (i, j) in spans <==> IsLetterRun(line, i, j))
      && (forall k :: 0 <= k < |spans| ==> IsEntryFor(line, spans[k], emitted[k]))
  }

  predicate IsEntryFor(line: string, span: (nat, nat), e: Entry) {
    && e.count == 1
    && span.0 < span.1 <= |line| && |e.word| == span.1 - span.0
    && forall m :: 0 <= m < |e.word| ==> IsSmallFor(e.word[m], line[span.0 + m])
  }

  lemma TokensAreEmitted(line: string)
    ensures EmitsRunsOf(line, Ones(Tokens(line)))
  {
    var spans := TokensAreSmallLetters(line);
    assert forall k :: 0 <= k < |spans| ==> IsEntryFor(line, spans[k], Ones(Tokens(line))[k]);
  }

  method FlatMap(value: string, out: Collector<Entry>)
    modifies out
    ensures out.collected == old(out.collected) + Ones(Tokens(value))
    ensures EmitsRunsOf(value, out.collected[|old(out.collected)|..])
  {
    var tokens := Split(LowerLine(value));
    for i := 0 to |tokens|
      invariant out.collected == old(out.collected) + Ones(NonEmpty(tokens[..i]))
    {
      assert tokens[..i + 1][..i] == tokens[..i];
      if |tokens[i]| > 0 {
        out.Collect(Entry(tokens[i], 1));
      }
    }
    assert tokens[..|tokens|] == tokens;
    NonEmptySplitIsWords(LowerLine(value));
    TokensAreEmitted(value);
    assert out.collected[|old(out.collected)|..] == Ones(Tokens(value));
  }
}
