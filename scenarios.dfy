/**
 * Short runs of the buffer worked out from the definitions. They show what
 * the code does where a reader might expect something else: a final result
 * re-wraps the interim words it follows, and earlier final words reappear
 * in later final lines.
 */
module Scenarios {
  import opened Strings
  import opened Types
  import opened Wrapper
  import opened Transcript

  /** A window of at most ten words becomes exactly one line. */
  lemma WrapShort(words: seq<string>, isInterim: bool, now: int)
    requires 1 <= |words| <= 10
    ensures Wrap(words, isInterim, now) == [TranscriptLine(LineId(isInterim, now, 0), Join(words, " "), isInterim, now)]
  {
    WrapLines(words, isInterim, now);
    ChunksPartition(words);
    assert words[0..Min(10, |words|)] == words;
  }

  /**
   * When the old final lines and the new wrapped lines fit the display,
   * nothing is evicted: the lines are exactly those, and the window keeps
   * every word.
   */
  lemma StepFits(b: Buffer, text: string, isInterim: bool, words: seq<string>, now: int)
    requires Trim(text) != []
    requires |NonInterim(b.lines)| + |Wrap(NextWindow(b.currentLineWords, isInterim, words), isInterim, now)| <= b.maxLines
    ensures var r := AddLine(b, text, isInterim, words, now);
      var window := NextWindow(b.currentLineWords, isInterim, words);
      r.lines == NonInterim(b.lines) + Wrap(window, isInterim, now) && r.currentLineWords == window
  {
    AddLineEffect(b, text, isInterim, words, now);
    var window := NextWindow(b.currentLineWords, isInterim, words);
    var merged := NonInterim(b.lines) + Wrap(window, isInterim, now);
    assert merged[..0] == [];
    assert merged[0..] == merged && window[0..] == window;
  }

  /** The single line a window of at most ten words is shown as. */
  function OneLine(window: seq<string>, isInterim: bool, now: int): TranscriptLine {
    TranscriptLine(LineId(isInterim, now, 0), Join(window, " "), isInterim, now)
  }

  /**
   * A non-blank result whose window fits on one line, added below `kept`
   * final lines with room to spare, is shown as that one line and keeps its
   * whole window.
   */
  lemma StepOneLine(b: Buffer, text: string, isInterim: bool, words: seq<string>, now: int,
                    kept: seq<TranscriptLine>)
    requires Trim(text) != [] && NonInterim(b.lines) == kept && |kept| < b.maxLines
    requires 1 <= |NextWindow(b.currentLineWords, isInterim, words)| <= 10
    ensures var r := AddLine(b, text, isInterim, words, now);
      var window := NextWindow(b.currentLineWords, isInterim, words);
      r.lines == kept + [OneLine(window, isInterim, now)] && r.currentLineWords == window
  {
    WrapShort(NextWindow(b.currentLineWords, isInterim, words), isInterim, now);
    StepFits(b, text, isInterim, words, now);
  }

  /** The first result after `clear()`, of at most ten words, fills one line. */
  lemma FirstResult(b: Buffer, text: string, isInterim: bool, words: seq<string>, now: int)
    requires Trim(text) != [] && 1 <= |words| <= 10
    ensures var r := AddLine(Clear(b), text, isInterim, words, now);
      r.lines == [OneLine(words, isInterim, now)] && r.currentLineWords == words
  {
    assert NextWindow([], isInterim, words) == words;
    StepOneLine(Clear(b), text, isInterim, words, now, []);
  }

  /**
   * Below a single final line, with room for two, a result whose window
   * fits on one line becomes the second line.
   */
  lemma BelowFinal(b: Buffer, text: string, isInterim: bool, words: seq<string>, now: int,
                   l: TranscriptLine)
    requires Trim(text) != [] && b.maxLines >= 2 && b.lines == [l] && !l.isInterim
    requires 1 <= |NextWindow(b.currentLineWords, isInterim, words)| <= 10
    ensures var r := AddLine(b, text, isInterim, words, now);
      var window := NextWindow(b.currentLineWords, isInterim, words);
      r.lines == [l, OneLine(window, isInterim, now)] && r.currentLineWords == window
  {
    NonInterimOfUniform([l]);
    StepOneLine(b, text, isInterim, words, now, [l]);
  }

  /**
   * Below a final line and an interim line, a result whose window fits on
   * one line takes the interim line's place.
   */
  lemma ReplacesInterim(b: Buffer, text: string, isInterim: bool, words: seq<string>, now: int,
                        l: TranscriptLine, g: TranscriptLine)
    requires Trim(text) != [] && b.maxLines >= 2 && b.lines == [l, g] && !l.isInterim && g.isInterim
    requires 1 <= |NextWindow(b.currentLineWords, isInterim, words)| <= 10
    ensures var r := AddLine(b, text, isInterim, words, now);
      var window := NextWindow(b.currentLineWords, isInterim, words);
      r.lines == [l, OneLine(window, isInterim, now)] && r.currentLineWords == window
  {
    assert NonInterim([l, g]) == [l] by {
      NonInterimAppend([l], [g]);
      NonInterimOfUniform([l]);
      NonInterimOfUniform([g]);
    }
    StepOneLine(b, text, isInterim, words, now, [l]);
  }

  /**
   * With room for two lines: a final result of up to ten words, then an
   * interim guess `x`, then the final result `y` that settles it. The
   * interim words stay in the window, so the second final line shows `x`
   * followed by `y`.
   */
  lemma InterimThenFinal(b: Buffer, t1: string, w: seq<string>, t2: string, x: seq<string>,
                         t3: string, y: seq<string>, b1: Buffer, b2: Buffer, b3: Buffer)
    requires b.maxLines >= 2
    requires Trim(t1) != [] && Trim(t2) != [] && Trim(t3) != []
    requires 1 <= |w| <= 10 && 1 <= |x| && |x| + |y| <= 10
    requires b1 == AddLine(Clear(b), t1, false, w, 1)
    requires b2 == AddLine(b1, t2, true, x, 2)
    requires b3 == AddLine(b2, t3, false, y, 3)
    ensures b2.lines == [OneLine(w, false, 1), OneLine(x, true, 2)]
    ensures b3.lines == [OneLine(w, false, 1), OneLine(x + y, false, 3)]
    ensures b3.currentLineWords == x + y
  {
    FirstResult(b, t1, false, w, 1);
    BelowFinal(b1, t2, true, x, 2, OneLine(w, false, 1));
    ReplacesInterim(b2, t3, false, y, 3, OneLine(w, false, 1), OneLine(x, true, 2));
  }

  /**
   * Two final results in a row, with room for both lines: the second
   * re-wraps the whole window, so the first result's words show twice,
   * and the lines hold more words than the window.
   */
  lemma FinalRewrapsWindow(b: Buffer, t1: string, x: seq<string>, t2: string, y: seq<string>,
                           b1: Buffer, b2: Buffer)
    requires b.maxLines >= 2
    requires Trim(t1) != [] && Trim(t2) != []
    requires 1 <= |x| && 1 <= |y| && |x| + |y| <= 10 && AllWords(x + y)
    requires b1 == AddLine(Clear(b), t1, false, x, 1)
    requires b2 == AddLine(b1, t2, false, y, 2)
    ensures b2.lines == [OneLine(x, false, 1), OneLine(x + y, false, 2)]
    ensures b2.currentLineWords == x + y
    ensures WordsOf(b2.lines) == |x| + |x + y| > |b2.currentLineWords|
  {
    FirstResult(b, t1, false, x, 1);
    BelowFinal(b1, t2, false, y, 2, OneLine(x, false, 1));
    WordsOfTwo(x, y);
  }

  /** The lines `x` and `x + y` hold |x| + |x + y| words by split count. */
  lemma WordsOfTwo(x: seq<string>, y: seq<string>)
    requires 1 <= |x| && AllWords(x + y)
    ensures WordsOf([OneLine(x, false, 1), OneLine(x + y, false, 2)]) == |x| + |x + y|
  {
    var l1, l2 := OneLine(x, false, 1), OneLine(x + y, false, 2);
    assert AllWords(x) by {
      forall i | 0 <= i < |x| ensures IsWord(x[i]) { assert x[i] == (x + y)[i]; }
    }
    SplitCountJoin(x);
    SplitCountJoin(x + y);
    assert [l1, l2][1..] == [l2];
    assert WordsOf([l2]) == SplitCount(l2.text) + WordsOf([]);
  }
}
