/**
 * `TranscriptManager`: the caption buffer object, whose methods update its
 * five fields in place. Each method is proved to leave the object in the
 * state the matching function of module Transcript describes.
 */
module Manager {
  import opened Strings
  import opened Types
  import opened Wrapper
  import opened Transcript

  class TranscriptManager {
    var lines: seq<TranscriptLine>
    var maxLines: LineLimit
    var currentLineWords: seq<string>
    var lastInterimUpdate: int
    var storedLines: seq<StoredTranscriptLine>

    /** The object's fields as a value. */
    function State(): Buffer
      reads this
    {
      Buffer(lines, maxLines, currentLineWords, lastInterimUpdate, storedLines)
    }

    ghost predicate Valid()
      reads this
    {
      DisplayInv(State())
    }

    constructor ()
      ensures Valid() && State() == Initial()
    {
      lines := [];
      maxLines := 1;
      currentLineWords := [];
      lastInterimUpdate := 0;
      storedLines := [];
    }

    /** `addLine(text, isInterim, words)`; `now` stands for `Date.now()`. */
    method AddLine(text: string, isInterim: bool, words: seq<string>, now: int)
      requires Valid()
      modifies this
      ensures Valid()
      ensures State() == Transcript.AddLine(old(State()), text, isInterim, words, now)
    {
      ghost var before := State();
      AddLineKeepsDisplay(before, text, isInterim, words, now);
      var trimmedText := Trim(text);
      if trimmedText == [] {
        return;
      }

      if !isInterim {
        storedLines := storedLines + [StoredTranscriptLine(trimmedText, now)];
      }

      if isInterim {
        currentLineWords := words;
      } else {
        currentLineWords := currentLineWords + words;
      }

      var newLines := BuildLines(currentLineWords, isInterim, now);

      // Both branches of the source compute the same list: the final rows, then the new rows.
      lines := NonInterim(lines) + newLines;

      assert currentLineWords == NextWindow(before.currentLineWords, isInterim, words);
      assert lines == NonInterim(before.lines) + Wrap(currentLineWords, isInterim, now);
      EnforceLineLimit();
      lastInterimUpdate := now;
    }

    /**
     * The eviction loop of `addLine`: shift out the oldest line while there
     * are too many, and splice its word count off the front of the window.
     */
    method EnforceLineLimit()
      modifies this`lines, this`currentLineWords
      ensures Evicted(lines, currentLineWords) == Evict(old(lines), old(currentLineWords), maxLines)
    {
      ghost var merged, window := lines, currentLineWords;
      while |lines| > maxLines
        invariant Evict(lines, currentLineWords, maxLines) == Evict(merged, window, maxLines)
        decreases |lines|
      {
        var oldestLine := lines[0];
        lines := lines[1..];
        var wordCount := SplitCount(oldestLine.text);
        currentLineWords := currentLineWords[Min(wordCount, |currentLineWords|)..];
      }
    }

    /** `setMaxLines(count)`: clamp to [1, 12], then shift out the oldest lines. */
    method SetMaxLines(count: int)
      requires Valid()
      modifies this
      ensures Valid()
      ensures State() == Transcript.SetMaxLines(old(State()), count)
    {
      maxLines := Max(1, Min(12, count));
      ghost var shown := lines;
      while |lines| > maxLines
        invariant KeepNewest(lines, maxLines) == KeepNewest(shown, maxLines)
        modifies this`lines
        decreases |lines|
      {
        lines := lines[1..];
      }
    }

    /** `getVisibleLines()`: a copy of the display window, oldest first. */
    method GetVisibleLines() returns (visible: seq<TranscriptLine>)
      requires Valid()
      ensures visible == lines && |visible| <= maxLines
    {
      visible := lines;
    }

    /** `getFullTranscript()`: the recorded texts joined by newlines. */
    method GetFullTranscript() returns (transcript: string)
      ensures transcript == FullTranscript(State())
    {
      var texts := StoredTexts(storedLines);
      transcript := Join(texts, "\n");
    }

    /** `clear()`: everything but the display limit goes back to empty. */
    method Clear()
      requires Valid()
      modifies this
      ensures Valid()
      ensures State() == Transcript.Clear(old(State()))
    {
      lines := [];
      currentLineWords := [];
      storedLines := [];
      lastInterimUpdate := 0;
    }
  }
}
