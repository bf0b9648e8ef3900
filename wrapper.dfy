/**
 * Re-wrapping of the word window into display lines of at most ten words
 * (the chunking loop of `TranscriptManager.addLine`).
 */
module Wrapper {
  import opened Strings
  import opened Types

  const WordsPerLine := 10

  /** The consecutive groups of ten words (the last may be shorter) from index `i` on. */
  function ChunksFrom(words: seq<string>, i: nat): seq<seq<string>>
    decreases |words| - i
  {
    if i >= |words| then []
    else [words[i..Min(i + WordsPerLine, |words|)]] + ChunksFrom(words, i + WordsPerLine)
  }

  function Chunks(words: seq<string>): seq<seq<string>> {
    ChunksFrom(words, 0)
  }

  /** Concatenation of groups. */
  function Flatten(groups: seq<seq<string>>): seq<string> {
    if groups == [] then [] else groups[0] + Flatten(groups[1..])
  }

  /** The display line built from the group that starts at word `i`. */
  function LineAt(words: seq<string>, i: nat, isInterim: bool, now: int): TranscriptLine
    requires i < |words|
  {
    TranscriptLine(LineId(isInterim, now, i), Join(words[i..Min(i + WordsPerLine, |words|)], " "), isInterim, now)
  }

  /** The lines the loop pushes once it has reached index `i`. */
  function WrapFrom(words: seq<string>, i: nat, isInterim: bool, now: int): seq<TranscriptLine>
    decreases |words| - i
  {
    if i >= |words| then []
    else [LineAt(words, i, isInterim, now)] + WrapFrom(words, i + WordsPerLine, isInterim, now)
  }

  /** The fresh lines for the whole word window. */
  function Wrap(words: seq<string>, isInterim: bool, now: int): seq<TranscriptLine> {
    WrapFrom(words, 0, isInterim, now)
  }

  /** The chunking loop: pushes one line per group of ten words. */
  method BuildLines(words: seq<string>, isInterim: bool, now: int) returns (newLines: seq<TranscriptLine>)
    ensures newLines == Wrap(words, isInterim, now)
  {
    newLines := [];
    var i: nat := 0;
    while i < |words|
      invariant newLines + WrapFrom(words, i, isInterim, now) == Wrap(words, isInterim, now)
      decreases |words| - i
    {
      var lineWords := words[i..Min(i + WordsPerLine, |words|)];
      var lineText := Join(lineWords, " ");
      newLines := newLines + [TranscriptLine(LineId(isInterim, now, i), lineText, isInterim, now)];
      i := i + WordsPerLine;
    }
  }

  lemma {:induction false} ChunksFromPartition(words: seq<string>, i: nat)
    requires i <= |words|
    ensures var cs := ChunksFrom(words, i);
      |cs| == (|words| - i + 9) / 10
      && Flatten(cs) == words[i..]
      && forall k :: 0 <= k < |cs| ==> cs[k] == words[i + 10 * k..Min(i + 10 * k + 10, |words|)]
    decreases |words| - i
  {
    var cs := ChunksFrom(words, i);
    if i < |words| {
      if i + 10 <= |words| {
        ChunksFromPartition(words, i + 10);
        assert words[i..] == words[i..i + 10] + words[i + 10..];
      } else {
        assert ChunksFrom(words, i + 10) == [];
      }
      forall k | 0 <= k < |cs| ensures cs[k] == words[i + 10 * k..Min(i + 10 * k + 10, |words|)] {
        if k > 0 {
          assert cs[k] == ChunksFrom(words, i + 10)[k - 1];
        }
      }
    }
  }

  /**
   * Chunking a window of n words gives ceil(n/10) groups of 1 to 10 words,
   * only the last shorter than 10, whose concatenation is the window.
   */
  lemma ChunksPartition(words: seq<string>)
    ensures var cs := Chunks(words);
      |cs| == (|words| + 9) / 10
      && Flatten(cs) == words
      && (forall k :: 0 <= k < |cs| ==> cs[k] == words[10 * k..Min(10 * k + 10, |words|)])
      && (forall k :: 0 <= k < |cs| ==> 1 <= |cs[k]| <= 10 && (k < |cs| - 1 ==> |cs[k]| == 10))
  {
    ChunksFromPartition(words, 0);
  }

  lemma {:induction false} WrapFromLines(words: seq<string>, i: nat, isInterim: bool, now: int)
    ensures var ls := WrapFrom(words, i, isInterim, now); var cs := ChunksFrom(words, i);
      |ls| == |cs|
      && forall k :: 0 <= k < |ls| ==>
           ls[k] == TranscriptLine(LineId(isInterim, now, i + 10 * k), Join(cs[k], " "), isInterim, now)
    decreases |words| - i
  {
    if i < |words| {
      WrapFromLines(words, i + 10, isInterim, now);
    }
  }

  /**
   * Line k of the fresh lines holds group k joined by single spaces, carries
   * the call's kind and time, and its id starts at word 10 * k.
   */
  lemma WrapLines(words: seq<string>, isInterim: bool, now: int)
    ensures var ls := Wrap(words, isInterim, now); var cs := Chunks(words);
      |ls| == |cs| == (|words| + 9) / 10
      && forall k :: 0 <= k < |ls| ==>
           ls[k] == TranscriptLine(LineId(isInterim, now, 10 * k), Join(cs[k], " "), isInterim, now)
  {
    WrapFromLines(words, 0, isInterim, now);
    ChunksPartition(words);
  }

  /**
   * When the words are the producer's tokens, `text.split(/\s+/).length` of
   * each fresh line is the size of its group.
   */
  lemma WrapWordCounts(words: seq<string>, isInterim: bool, now: int)
    requires AllWords(words)
    ensures var ls := Wrap(words, isInterim, now); var cs := Chunks(words);
      |ls| == |cs| && forall k :: 0 <= k < |ls| ==> SplitCount(ls[k].text) == |cs[k]|
  {
    WrapLines(words, isInterim, now);
    ChunksPartition(words);
    var cs := Chunks(words);
    forall k | 0 <= k < |cs| ensures SplitCount(Join(cs[k], " ")) == |cs[k]| {
      assert AllWords(cs[k]) by {
        forall j | 0 <= j < |cs[k]| ensures IsWord(cs[k][j]) {
          assert cs[k][j] == words[10 * k + j];
        }
      }
      SplitCountJoin(cs[k]);
    }
  }
}
