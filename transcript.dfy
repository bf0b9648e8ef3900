/**
 * The transcript buffer as a value: the five fields of `TranscriptManager`
 * and one function per state-changing operation. The class in module
 * Manager is specified by these functions; the lemmas here state what the
 * operations promise.
 */
module Transcript {
  import opened Strings
  import opened Types
  import opened Wrapper

  /** The state of a `TranscriptManager`. */
  datatype Buffer = Buffer(
    lines: seq<TranscriptLine>,
    maxLines: LineLimit,
    currentLineWords: seq<string>,
    lastInterimUpdate: int,
    storedLines: seq<StoredTranscriptLine>)

  /** A freshly constructed manager. */
  function Initial(): Buffer {
    Buffer([], 1, [], 0, [])
  }

  /** All interim lines come after all final lines. */
  ghost predicate InterimSuffix(lines: seq<TranscriptLine>) {
    forall i, j :: 0 <= i < j < |lines| && lines[i].isInterim ==> lines[j].isInterim
  }

  ghost predicate AllFinal(lines: seq<TranscriptLine>) {
    forall i :: 0 <= i < |lines| ==> !lines[i].isInterim
  }

  ghost predicate AllInterim(lines: seq<TranscriptLine>) {
    forall i :: 0 <= i < |lines| ==> lines[i].isInterim
  }

  /** What every reachable state shows: at most `maxLines` rows, interim rows last. */
  ghost predicate DisplayInv(b: Buffer) {
    |b.lines| <= b.maxLines && InterimSuffix(b.lines)
  }

  /** The display invariant, and a window made of the producer's words. */
  ghost predicate Inv(b: Buffer) {
    DisplayInv(b) && AllWords(b.currentLineWords)
  }

  /** `lines.filter(line => !line.isInterim)`. */
  function NonInterim(lines: seq<TranscriptLine>): (r: seq<TranscriptLine>)
    ensures |r| <= |lines| && AllFinal(r)
  {
    if lines == [] then []
    else (if lines[0].isInterim then [] else [lines[0]]) + NonInterim(lines[1..])
  }

  lemma {:induction false} NonInterimAppend(a: seq<TranscriptLine>, b: seq<TranscriptLine>)
    ensures NonInterim(a + b) == NonInterim(a) + NonInterim(b)
  {
    if a == [] {
      assert a + b == b;
    } else {
      assert (a + b)[1..] == a[1..] + b;
      NonInterimAppend(a[1..], b);
    }
  }

  /** The filter keeps exactly the final lines: every one of them, and nothing else. */
  lemma {:induction false} NonInterimMembers(lines: seq<TranscriptLine>)
    ensures forall l :: l in NonInterim(lines) <==> l in lines && !l.isInterim
  {
    if lines != [] {
      NonInterimMembers(lines[1..]);
      assert lines == [lines[0]] + lines[1..];
    }
  }

  /** The filter keeps a final-only list whole and drops an interim-only list. */
  lemma {:induction false} NonInterimOfUniform(lines: seq<TranscriptLine>)
    ensures AllFinal(lines) ==> NonInterim(lines) == lines
    ensures AllInterim(lines) ==> NonInterim(lines) == []
  {
    if lines != [] {
      NonInterimOfUniform(lines[1..]);
    }
  }

  /** The newest `maxLines` lines: what `setMaxLines` leaves after shifting. */
  function KeepNewest(lines: seq<TranscriptLine>, maxLines: nat): seq<TranscriptLine> {
    if |lines| <= maxLines then lines else lines[|lines| - maxLines..]
  }

  /** Lines and word window after the eviction loop of `addLine`. */
  datatype Evicted = Evicted(lines: seq<TranscriptLine>, words: seq<string>)

  /**
   * The eviction loop: while there are more than `maxLines` lines, drop the
   * oldest and remove as many words as `text.split(/\s+/).length` counts in
   * it from the front of the window (`splice` past the end empties it).
   */
  function Evict(lines: seq<TranscriptLine>, words: seq<string>, maxLines: nat): Evicted
    decreases |lines|
  {
    if |lines| <= maxLines then Evicted(lines, words)
    else
      var wordCount := SplitCount(lines[0].text);
      Evict(lines[1..], words[Min(wordCount, |words|)..], maxLines)
  }

  /**
   * Eviction keeps the newest `maxLines` lines and a suffix of the word
   * window.
   */
  lemma EvictKeepsNewest(lines: seq<TranscriptLine>, words: seq<string>, maxLines: nat)
    ensures var r := Evict(lines, words, maxLines);
      r.lines == KeepNewest(lines, maxLines) && |r.lines| == Min(|lines|, maxLines)
      && |r.words| <= |words| && r.words == words[|words| - |r.words|..]
  {
    EvictLines(lines, words, maxLines);
    EvictWordsSuffix(lines, words, maxLines);
  }

  lemma {:induction false} EvictLines(lines: seq<TranscriptLine>, words: seq<string>, maxLines: nat)
    ensures Evict(lines, words, maxLines).lines == KeepNewest(lines, maxLines)
    decreases |lines|
  {
    if |lines| > maxLines {
      var rest := words[Min(SplitCount(lines[0].text), |words|)..];
      EvictLines(lines[1..], rest, maxLines);
      assert lines[1..][|lines| - 1 - maxLines..] == lines[|lines| - maxLines..];
    }
  }

  lemma {:induction false} EvictWordsSuffix(lines: seq<TranscriptLine>, words: seq<string>, maxLines: nat)
    ensures var r := Evict(lines, words, maxLines);
      |r.words| <= |words| && r.words == words[|words| - |r.words|..]
    decreases |lines|
  {
    if |lines| > maxLines {
      var m := Min(SplitCount(lines[0].text), |words|);
      var rest := words[m..];
      EvictWordsSuffix(lines[1..], rest, maxLines);
      var w := Evict(lines[1..], rest, maxLines).words;
      assert rest[|rest| - |w|..] == words[|words| - |w|..];
    } else {
      assert words[0..] == words;
    }
  }


  /** Sum of `text.split(/\s+/).length` over the lines. */
  function WordsOf(lines: seq<TranscriptLine>): nat {
    if lines == [] then 0 else SplitCount(lines[0].text) + WordsOf(lines[1..])
  }

  /**
   * Eviction removes from the front of the window the word counts of all the
   * evicted lines together, capped at the window's length, whether or not
   * those lines were built from the window.
   */
  lemma {:induction false} EvictWords(lines: seq<TranscriptLine>, words: seq<string>, maxLines: nat)
    ensures var k := |lines| - Min(|lines|, maxLines);
      Evict(lines, words, maxLines).words == words[Min(WordsOf(lines[..k]), |words|)..]
    decreases |lines|
  {
    if |lines| <= maxLines {
      assert lines[..0] == [];
      assert words[0..] == words;
    } else {
      var c := SplitCount(lines[0].text);
      var rest := words[Min(c, |words|)..];
      EvictWords(lines[1..], rest, maxLines);
      var k := |lines| - maxLines;
      WordsOfFront(lines, k);
      DropTwice(words, c, WordsOf(lines[1..][..k - 1]));
    }
  }

  /** Dropping c and then d words from the front is dropping c + d, capped at the length. */
  lemma DropTwice(words: seq<string>, c: nat, d: nat)
    ensures var rest := words[Min(c, |words|)..];
      rest[Min(d, |rest|)..] == words[Min(c + d, |words|)..]
  {
    var m := Min(c, |words|);
    var x := Min(d, |words| - m);
    assert m + x == Min(c + d, |words|);
    assert words[m..][x..] == words[m + x..];
  }

  lemma WordsOfFront(lines: seq<TranscriptLine>, k: nat)
    requires 1 <= k <= |lines|
    ensures WordsOf(lines[..k]) == SplitCount(lines[0].text) + WordsOf(lines[1..][..k - 1])
  {
    assert lines[..k][1..] == lines[1..][..k - 1];
  }

  /** The word window the new lines are wrapped from. */
  function NextWindow(current: seq<string>, isInterim: bool, words: seq<string>): seq<string> {
    if isInterim then words else current + words
  }

  /**
   * `addLine(text, isInterim, words)` with `Date.now()` passed in as `now`.
   */
  function AddLine(b: Buffer, text: string, isInterim: bool, words: seq<string>, now: int): (r: Buffer)
    ensures r.maxLines == b.maxLines
  {
    var trimmedText := Trim(text);
    if trimmedText == [] then b
    else
      var storedLines :=
        if isInterim then b.storedLines else b.storedLines + [StoredTranscriptLine(trimmedText, now)];
      var window := NextWindow(b.currentLineWords, isInterim, words);
      var newLines := Wrap(window, isInterim, now);
      var merged := NonInterim(b.lines) + newLines;
      var e := Evict(merged, window, b.maxLines);
      Buffer(e.lines, b.maxLines, e.words, now, storedLines)
  }

  /**
   * A blank text changes nothing; otherwise a final result appends exactly
   * one record with the trimmed text, an interim one leaves the record
   * alone, and the update time becomes `now`.
   */
  lemma AddLineRecord(b: Buffer, text: string, isInterim: bool, words: seq<string>, now: int)
    ensures var r := AddLine(b, text, isInterim, words, now);
      (Trim(text) == [] ==> r == b)
      && (Trim(text) != [] ==> r.lastInterimUpdate == now)
      && (Trim(text) != [] && !isInterim ==>
            r.storedLines == b.storedLines + [StoredTranscriptLine(Trim(text), now)])
      && (isInterim ==> r.storedLines == b.storedLines)
  {
  }

  /**
   * The lines after a call are the newest `maxLines` of the old final lines
   * followed by the freshly wrapped window; the window is the interim words
   * alone, or the old window followed by the final words, shortened from the
   * front by the word counts of the evicted lines.
   */
  lemma AddLineEffect(b: Buffer, text: string, isInterim: bool, words: seq<string>, now: int)
    requires Trim(text) != []
    ensures var r := AddLine(b, text, isInterim, words, now);
      var window := NextWindow(b.currentLineWords, isInterim, words);
      var merged := NonInterim(b.lines) + Wrap(window, isInterim, now);
      var k := |merged| - |r.lines|;
      r.lines == KeepNewest(merged, b.maxLines)
      && |r.lines| == Min(|merged|, b.maxLines)
      && r.lines == merged[k..]
      && r.currentLineWords == window[Min(WordsOf(merged[..k]), |window|)..]
  {
    var window := NextWindow(b.currentLineWords, isInterim, words);
    var merged := NonInterim(b.lines) + Wrap(window, isInterim, now);
    var e := Evict(merged, window, b.maxLines);
    assert AddLine(b, text, isInterim, words, now)
        == Buffer(e.lines, b.maxLines, e.words, now,
                  if isInterim then b.storedLines else b.storedLines + [StoredTranscriptLine(Trim(text), now)]);
    EvictEffect(merged, window, b.maxLines);
  }

  /** Eviction in one statement: the newest rows stay, and their words' count goes. */
  lemma EvictEffect(merged: seq<TranscriptLine>, window: seq<string>, maxLines: nat)
    ensures var e := Evict(merged, window, maxLines); var k := |merged| - |e.lines|;
      e.lines == KeepNewest(merged, maxLines)
      && |e.lines| == Min(|merged|, maxLines)
      && e.lines == merged[k..]
      && e.words == window[Min(WordsOf(merged[..k]), |window|)..]
  {
    EvictKeepsNewest(merged, window, maxLines);
    EvictWords(merged, window, maxLines);
  }

  /** An interim result does not depend on the old window at all. */
  lemma InterimReplacesWindow(b: Buffer, old1: seq<string>, old2: seq<string>, text: string, words: seq<string>, now: int)
    requires Trim(text) != []
    ensures AddLine(b.(currentLineWords := old1), text, true, words, now)
         == AddLine(b.(currentLineWords := old2), text, true, words, now)
  {
    assert NextWindow(old1, true, words) == NextWindow(old2, true, words);
  }

  /** Keeping the newest rows keeps the interim rows after the final ones. */
  lemma KeepNewestSuffix(lines: seq<TranscriptLine>, maxLines: nat)
    requires InterimSuffix(lines)
    ensures InterimSuffix(KeepNewest(lines, maxLines))
  {
    var r := KeepNewest(lines, maxLines);
    var k := |lines| - |r|;
    forall i, j | 0 <= i < j < |r| && r[i].isInterim ensures r[j].isInterim {
      assert r[i] == lines[k + i] && r[j] == lines[k + j];
    }
  }

  /** Final rows followed by rows of one kind have their interim rows last. */
  lemma MergeSuffix(kept: seq<TranscriptLine>, added: seq<TranscriptLine>)
    requires AllFinal(kept) && (AllFinal(added) || AllInterim(added))
    ensures InterimSuffix(kept + added)
  {
    var m := kept + added;
    forall i, j | 0 <= i < j < |m| && m[i].isInterim ensures m[j].isInterim {
      assert m[i] == added[i - |kept|] && m[j] == added[j - |kept|];
    }
  }

  /** Every wrapped row carries the call's kind. */
  lemma WrapKind(window: seq<string>, isInterim: bool, now: int)
    ensures isInterim ==> AllInterim(Wrap(window, isInterim, now))
    ensures !isInterim ==> AllFinal(Wrap(window, isInterim, now))
  {
    WrapLines(window, isInterim, now);
  }

  /** The next window is made of producer words when the old one is. */
  lemma NextWindowWords(current: seq<string>, isInterim: bool, words: seq<string>)
    requires AllWords(current) && AllWords(words)
    ensures AllWords(NextWindow(current, isInterim, words))
  {
    var w := NextWindow(current, isInterim, words);
    forall i | 0 <= i < |w| ensures IsWord(w[i]) {
      if !isInterim && i < |current| {
        assert w[i] == current[i];
      } else if !isInterim {
        assert w[i] == words[i - |current|];
      }
    }
  }

  lemma AllWordsSuffix(ws: seq<string>, d: nat)
    requires AllWords(ws) && d <= |ws|
    ensures AllWords(ws[d..])
  {
    forall i | 0 <= i < |ws| - d ensures IsWord(ws[d..][i]) {
      assert ws[d..][i] == ws[d + i];
    }
  }

  /** Any call, whatever its words, keeps the display invariant. */
  lemma AddLineKeepsDisplay(b: Buffer, text: string, isInterim: bool, words: seq<string>, now: int)
    requires DisplayInv(b)
    ensures DisplayInv(AddLine(b, text, isInterim, words, now))
  {
    if Trim(text) != [] {
      var window := NextWindow(b.currentLineWords, isInterim, words);
      var merged := NonInterim(b.lines) + Wrap(window, isInterim, now);
      AddLineEffect(b, text, isInterim, words, now);
      WrapKind(window, isInterim, now);
      MergeSuffix(NonInterim(b.lines), Wrap(window, isInterim, now));
      KeepNewestSuffix(merged, b.maxLines);
    }
  }

  /** Given the producer's whitespace-free words, a call also keeps the window made of words. */
  lemma AddLineKeepsInv(b: Buffer, text: string, isInterim: bool, words: seq<string>, now: int)
    requires Inv(b)
    requires Trim(text) != [] ==> AllWords(words)
    ensures Inv(AddLine(b, text, isInterim, words, now))
  {
    AddLineKeepsDisplay(b, text, isInterim, words, now);
    if Trim(text) != [] {
      var window := NextWindow(b.currentLineWords, isInterim, words);
      var merged := NonInterim(b.lines) + Wrap(window, isInterim, now);
      var e := Evict(merged, window, b.maxLines);
      assert AddLine(b, text, isInterim, words, now).currentLineWords == e.words;
      EvictWordsSuffix(merged, window, b.maxLines);
      NextWindowWords(b.currentLineWords, isInterim, words);
      AllWordsSuffix(window, |window| - |e.words|);
    }
  }

  lemma {:induction false} WordsOfAppend(a: seq<TranscriptLine>, c: seq<TranscriptLine>)
    ensures WordsOf(a + c) == WordsOf(a) + WordsOf(c)
  {
    if a == [] {
      assert a + c == c;
    } else {
      assert (a + c)[1..] == a[1..] + c;
      WordsOfAppend(a[1..], c);
    }
  }

  lemma {:induction false} WordsOfFull(ls: seq<TranscriptLine>)
    requires forall i :: 0 <= i < |ls| ==> SplitCount(ls[i].text) == WordsPerLine
    ensures WordsOf(ls) == WordsPerLine * |ls|
  {
    if ls != [] {
      WordsOfFull(ls[1..]);
    }
  }

  /** Wrapping whitespace-free words: every row but the last holds ten of them. */
  lemma WrapFull(window: seq<string>, isInterim: bool, now: int)
    requires AllWords(window)
    ensures var w := Wrap(window, isInterim, now);
      |window| <= WordsPerLine * |w|
      && forall i :: 0 <= i < |w| - 1 ==> SplitCount(w[i].text) == WordsPerLine
  {
    WrapWordCounts(window, isInterim, now);
    ChunksPartition(window);
  }

  /**
   * Eviction down to `maxLines` rows, when the rows after the first `|kept|`
   * are full groups of ten (but the last) wrapped from the window, leaves at
   * most ten words per remaining row in the window.
   */
  lemma EvictBound(kept: seq<TranscriptLine>, w: seq<TranscriptLine>, window: seq<string>, maxLines: nat)
    requires 1 <= maxLines && |window| <= WordsPerLine * |w|
    requires forall i :: 0 <= i < |w| - 1 ==> SplitCount(w[i].text) == WordsPerLine
    ensures |Evict(kept + w, window, maxLines).words| <= WordsPerLine * maxLines
  {
    var merged := kept + w;
    var e := Evict(merged, window, maxLines);
    var k := |merged| - |e.lines|;
    EvictEffect(merged, window, maxLines);
    if k > |kept| {
      var d := k - |kept|;
      assert merged[..k] == kept + w[..d];
      WordsOfAppend(kept, w[..d]);
      forall i | 0 <= i < d ensures SplitCount(w[..d][i].text) == WordsPerLine {
        assert w[..d][i] == w[i];
      }
      WordsOfFull(w[..d]);
    }
  }

  /**
   * With the producer's words, a non-blank call leaves at most ten words per
   * row of the limit in the window: evicting a wrapped row, a full group of
   * ten unless it is the last, removes its ten words from the window.
   */
  lemma WindowBound(b: Buffer, text: string, isInterim: bool, words: seq<string>, now: int)
    requires AllWords(b.currentLineWords)
    requires Trim(text) != [] ==> AllWords(words)
    ensures Trim(text) != [] ==>
      |AddLine(b, text, isInterim, words, now).currentLineWords| <= WordsPerLine * b.maxLines
  {
    if Trim(text) != [] {
      var window := NextWindow(b.currentLineWords, isInterim, words);
      var w := Wrap(window, isInterim, now);
      var e := Evict(NonInterim(b.lines) + w, window, b.maxLines);
      assert AddLine(b, text, isInterim, words, now).currentLineWords == e.words;
      NextWindowWords(b.currentLineWords, isInterim, words);
      WrapFull(window, isInterim, now);
      EvictBound(NonInterim(b.lines), w, window, b.maxLines);
    }
  }

  /** Line-by-line equality of text and kind, ignoring ids and timestamps. */
  ghost predicate SameContent(a: seq<TranscriptLine>, c: seq<TranscriptLine>) {
    |a| == |c| && forall i :: 0 <= i < |a| ==> a[i].text == c[i].text && a[i].isInterim == c[i].isInterim
  }

  /**
   * Re-merging after eviction, when some old final lines survived: they are
   * kept, and a second interim list of the same length replaces the first.
   */
  lemma KeepNewestKeepsFinal(n: seq<TranscriptLine>, f1: seq<TranscriptLine>, f2: seq<TranscriptLine>, m: nat)
    requires AllFinal(n) && AllInterim(f1) && |f1| == |f2|
    requires |n| + |f1| - |KeepNewest(n + f1, m)| <= |n|
    ensures var l1 := KeepNewest(n + f1, m); var c := |n| + |f1| - |l1|;
      l1 == n[c..] + f1 && KeepNewest(NonInterim(l1) + f2, m) == n[c..] + f2
  {
    var l1 := KeepNewest(n + f1, m);
    var c := |n| + |f1| - |l1|;
    assert l1 == n[c..] + f1 by {
      assert l1 == (n + f1)[c..];
    }
    assert NonInterim(l1) == n[c..] by {
      NonInterimAppend(n[c..], f1);
      NonInterimOfUniform(n[c..]);
      NonInterimOfUniform(f1);
    }
    assert |n[c..] + f2| == |l1| <= m;
  }

  /**
   * Re-merging after eviction, when every old final line was evicted: a
   * second interim list of the same length is cut at the same place.
   */
  lemma KeepNewestCutsInterim(n: seq<TranscriptLine>, f1: seq<TranscriptLine>, f2: seq<TranscriptLine>, m: nat)
    requires AllFinal(n) && AllInterim(f1) && |f1| == |f2|
    requires |n| + |f1| - |KeepNewest(n + f1, m)| > |n|
    ensures var l1 := KeepNewest(n + f1, m); var c := |n| + |f1| - |l1|;
      l1 == f1[c - |n|..] && KeepNewest(NonInterim(l1) + f2, m) == f2[c - |n|..]
  {
    var l1 := KeepNewest(n + f1, m);
    var c := |n| + |f1| - |l1|;
    assert |l1| == m && |f2| > m;
    assert l1 == f1[c - |n|..] by {
      assert l1 == (n + f1)[c..];
    }
    assert NonInterim(l1) == [] by {
      NonInterimOfUniform(f1[c - |n|..]);
    }
    assert NonInterim(l1) + f2 == f2;
  }

  /** Wrapping the same words at two different times gives the same texts. */
  lemma WrapSameContent(words: seq<string>, isInterim: bool, now1: int, now2: int, j: nat, prefix: seq<TranscriptLine>)
    requires j <= |Wrap(words, isInterim, now1)|
    ensures |Wrap(words, isInterim, now2)| == |Wrap(words, isInterim, now1)|
    ensures SameContent(prefix + Wrap(words, isInterim, now2)[j..], prefix + Wrap(words, isInterim, now1)[j..])
  {
    WrapLines(words, isInterim, now1);
    WrapLines(words, isInterim, now2);
  }

  /**
   * Repeating an identical interim result shows the same line texts, in the
   * same number, as the first one did.
   */
  lemma RepeatedInterim(b: Buffer, text: string, words: seq<string>, now1: int, now2: int)
    ensures var r1 := AddLine(b, text, true, words, now1);
      SameContent(AddLine(r1, text, true, words, now2).lines, r1.lines)
  {
    var r1 := AddLine(b, text, true, words, now1);
    if Trim(text) != [] {
      var r2 := AddLine(r1, text, true, words, now2);
      var n0 := NonInterim(b.lines);
      assert r1.lines == KeepNewest(n0 + Wrap(words, true, now1), b.maxLines) by {
        AddLineEffect(b, text, true, words, now1);
      }
      assert r2.lines == KeepNewest(NonInterim(r1.lines) + Wrap(words, true, now2), b.maxLines) by {
        AddLineEffect(r1, text, true, words, now2);
      }
      RemergeSameContent(n0, words, now1, now2, b.maxLines);
    }
  }

  /**
   * Merging final lines with an interim wrap, then re-merging what survived
   * with the same words wrapped again, shows the same texts.
   */
  lemma RemergeSameContent(n0: seq<TranscriptLine>, words: seq<string>, now1: int, now2: int, m: nat)
    requires AllFinal(n0)
    ensures var l1 := KeepNewest(n0 + Wrap(words, true, now1), m);
      SameContent(KeepNewest(NonInterim(l1) + Wrap(words, true, now2), m), l1)
  {
    var f1 := Wrap(words, true, now1);
    var f2 := Wrap(words, true, now2);
    assert AllInterim(f1) && |f1| == |f2| by {
      WrapLines(words, true, now1);
      WrapLines(words, true, now2);
    }
    var l1 := KeepNewest(n0 + f1, m);
    var c := |n0| + |f1| - |l1|;
    if c <= |n0| {
      KeepNewestKeepsFinal(n0, f1, f2, m);
      WrapSameContent(words, true, now1, now2, 0, n0[c..]);
      assert f1[0..] == f1 && f2[0..] == f2;
    } else {
      KeepNewestCutsInterim(n0, f1, f2, m);
      WrapSameContent(words, true, now1, now2, c - |n0|, []);
      assert [] + f1[c - |n0|..] == f1[c - |n0|..];
      assert [] + f2[c - |n0|..] == f2[c - |n0|..];
    }
  }


  /** `setMaxLines(count)`: clamp to [1, 12], then shift the oldest lines out. */
  function SetMaxLines(b: Buffer, count: int): (r: Buffer)
    ensures 1 <= count <= 12 ==> r.maxLines == count
    ensures count < 1 ==> r.maxLines == 1
    ensures count > 12 ==> r.maxLines == 12
    ensures |r.lines| == Min(|b.lines|, r.maxLines) && r.lines == b.lines[|b.lines| - |r.lines|..]
    ensures r.currentLineWords == b.currentLineWords && r.storedLines == b.storedLines
    ensures r.lastInterimUpdate == b.lastInterimUpdate
    ensures DisplayInv(b) ==> DisplayInv(r)
    ensures Inv(b) ==> Inv(r)
  {
    var maxLines: LineLimit := Max(1, Min(12, count));
    b.(maxLines := maxLines, lines := KeepNewest(b.lines, maxLines))
  }

  /** `clear()`: empty lines, window and record; the display limit stays. */
  function Clear(b: Buffer): (r: Buffer)
    ensures r.maxLines == b.maxLines && Inv(r)
    ensures r.lines == [] && r.currentLineWords == [] && r.storedLines == [] && r.lastInterimUpdate == 0
  {
    Buffer([], b.maxLines, [], 0, [])
  }

  lemma ClearIdempotent(b: Buffer)
    ensures Clear(Clear(b)) == Clear(b)
  {
  }

  function StoredTexts(stored: seq<StoredTranscriptLine>): seq<string> {
    seq(|stored|, i requires 0 <= i < |stored| => stored[i].text)
  }

  /** `getFullTranscript()`: the recorded texts joined by newlines. */
  function FullTranscript(b: Buffer): string {
    Join(StoredTexts(b.storedLines), "\n")
  }

  /**
   * A final result adds its trimmed text as a new last line of the
   * transcript; anything else leaves the transcript as it was.
   */
  lemma AddLineTranscript(b: Buffer, text: string, isInterim: bool, words: seq<string>, now: int)
    ensures var r := AddLine(b, text, isInterim, words, now); var t := Trim(text);
      FullTranscript(r) ==
        if t == [] || isInterim then FullTranscript(b)
        else if b.storedLines == [] then t
        else FullTranscript(b) + "\n" + t
  {
    var t := Trim(text);
    if t != [] && !isInterim {
      var s := b.storedLines + [StoredTranscriptLine(t, now)];
      assert StoredTexts(s) == StoredTexts(b.storedLines) + [t];
      JoinAppend(StoredTexts(b.storedLines), t, "\n");
    }
  }

  /** One result from the speech producer. */
  datatype Event = Event(text: string, isInterim: bool, words: seq<string>, now: int)

  /** Feeds the events to `addLine` in order. */
  function Run(b: Buffer, events: seq<Event>): (r: Buffer)
    ensures r.maxLines == b.maxLines
    decreases |events|
  {
    if events == [] then b
    else
      var e := events[0];
      Run(AddLine(b, e.text, e.isInterim, e.words, e.now), events[1..])
  }

  /** The record one result adds: its trimmed text and time, if it is a non-blank final one. */
  function Recorded(e: Event): seq<StoredTranscriptLine> {
    var t := Trim(e.text);
    if !e.isInterim && t != [] then [StoredTranscriptLine(t, e.now)] else []
  }

  /** The records the non-blank final events add, in arrival order. */
  function FinalRecords(events: seq<Event>): seq<StoredTranscriptLine> {
    if events == [] then [] else Recorded(events[0]) + FinalRecords(events[1..])
  }

  /** The trimmed texts of the non-blank final events, in order. */
  function FinalTexts(events: seq<Event>): seq<string> {
    if events == [] then []
    else
      var t := Trim(events[0].text);
      (if !events[0].isInterim && t != [] then [t] else []) + FinalTexts(events[1..])
  }

  lemma {:induction false} FinalRecordTexts(events: seq<Event>)
    ensures StoredTexts(FinalRecords(events)) == FinalTexts(events)
  {
    if events != [] {
      FinalRecordTexts(events[1..]);
      var head := Recorded(events[0]);
      assert StoredTexts(head + FinalRecords(events[1..]))
          == StoredTexts(head) + StoredTexts(FinalRecords(events[1..]));
    }
  }

  /** Each event's words are the producer's whitespace-free tokens. */
  ghost predicate ProducerEvents(events: seq<Event>) {
    forall i :: 0 <= i < |events| ==> Trim(events[i].text) != [] ==> AllWords(events[i].words)
  }

  /**
   * The record only grows, by exactly one record per non-blank final
   * result, in the order the results arrived.
   */
  lemma {:induction false} RunRecords(b: Buffer, events: seq<Event>)
    ensures Run(b, events).storedLines == b.storedLines + FinalRecords(events)
    decreases |events|
  {
    if events == [] {
      assert b.storedLines + [] == b.storedLines;
    } else {
      var e := events[0];
      var b1 := AddLine(b, e.text, e.isInterim, e.words, e.now);
      var tail := FinalRecords(events[1..]);
      calc {
        Run(b, events).storedLines;
        Run(b1, events[1..]).storedLines;
        { RunRecords(b1, events[1..]); }
        b1.storedLines + tail;
        { StepRecords(b, e); }
        (b.storedLines + Recorded(e)) + tail;
        b.storedLines + (Recorded(e) + tail);
      }
    }
  }

  /** One result adds to the record exactly what `Recorded` gives for it. */
  lemma StepRecords(b: Buffer, e: Event)
    ensures AddLine(b, e.text, e.isInterim, e.words, e.now).storedLines == b.storedLines + Recorded(e)
  {
    AddLineRecord(b, e.text, e.isInterim, e.words, e.now);
    if e.isInterim || Trim(e.text) == [] {
      assert b.storedLines + [] == b.storedLines;
    }
  }

  /**
   * After `clear()`, the exported transcript is the trimmed final texts
   * joined by newlines, whatever the display limit and interim results.
   */
  lemma RunTranscript(b: Buffer, events: seq<Event>)
    ensures FullTranscript(Run(Clear(b), events)) == Join(FinalTexts(events), "\n")
  {
    RunRecords(Clear(b), events);
    FinalRecordTexts(events);
    assert [] + FinalRecords(events) == FinalRecords(events);
  }

  /** Every state reached from a valid one, by any results at all, keeps the display invariant. */
  lemma {:induction false} RunKeepsDisplay(b: Buffer, events: seq<Event>)
    requires DisplayInv(b)
    ensures DisplayInv(Run(b, events)) && |Run(b, events).lines| <= b.maxLines
    decreases |events|
  {
    if events != [] {
      var e := events[0];
      AddLineKeepsDisplay(b, e.text, e.isInterim, e.words, e.now);
      RunKeepsDisplay(AddLine(b, e.text, e.isInterim, e.words, e.now), events[1..]);
    }
  }

  /** With the producer's results, the window also stays made of words. */
  lemma {:induction false} RunKeepsInv(b: Buffer, events: seq<Event>)
    requires Inv(b) && ProducerEvents(events)
    ensures Inv(Run(b, events))
    decreases |events|
  {
    if events != [] {
      var e := events[0];
      AddLineKeepsInv(b, e.text, e.isInterim, e.words, e.now);
      RunKeepsInv(AddLine(b, e.text, e.isInterim, e.words, e.now), events[1..]);
    }
  }

  /**
   * With the producer's results, a window of at most ten words per row stays
   * so over any run of results.
   */
  lemma {:induction false} RunWindowBound(b: Buffer, events: seq<Event>)
    requires Inv(b) && ProducerEvents(events)
    requires |b.currentLineWords| <= WordsPerLine * b.maxLines
    ensures |Run(b, events).currentLineWords| <= WordsPerLine * b.maxLines
    decreases |events|
  {
    if events != [] {
      var e := events[0];
      var b1 := AddLine(b, e.text, e.isInterim, e.words, e.now);
      AddLineKeepsInv(b, e.text, e.isInterim, e.words, e.now);
      AddLineRecord(b, e.text, e.isInterim, e.words, e.now);
      WindowBound(b, e.text, e.isInterim, e.words, e.now);
      RunWindowBound(b1, events[1..]);
    }
  }

}
