# Caption transcript buffer

This project models `TranscriptManager`, the object behind the live caption
overlay of a speech-to-text captioning app. It keeps five fields:

- `lines`: the display window, at most `maxLines` rows of at most ten words.
- `maxLines`: the display limit, clamped to 1..12.
- `currentLineWords`: the word window the rows are wrapped from.
- `lastInterimUpdate`: the time of the last accepted result.
- `storedLines`: the record of finalized results, which the app exports as
  the full transcript.

Speech results arrive as interim guesses or final texts. Each comes with the
recognizer's words.

- An interim result replaces the word window.
- A final result appends its words to the window and is recorded.
- Either kind rewraps the whole window into ten-word rows. These rows replace
  every interim row shown, and come after the final rows already shown.
- Rows are then evicted from the top until at most `maxLines` remain. Each
  evicted row removes its word count from the front of the word window.

The project has six modules, one per concern:

- `Strings` models the three JavaScript builtins the buffer depends on:
  `trim()`, `split(/\s+/).length` and `join`. `IsSpace` is the ECMAScript
  WhiteSpace and LineTerminator set; `trim` and `\s` share it.
- `Types` holds the two records of `src/types.ts`, the clamped limit type
  `LineLimit`, and the integer helpers `Min` and `Max` (JavaScript's
  `Math.min` and `Math.max`), which `Transcript` and `Manager` share.
- `Wrapper` has the ten-word chunking loop of `addLine`. It is a method
  (`BuildLines`) proved equal to a function (`Wrap`), with lemmas describing
  the chunks.
- `Transcript` is the buffer as a value (`Buffer`). It has one function per
  state-changing operation (`AddLine`, `SetMaxLines`, `Clear`), `Run` for a
  sequence of results, and the lemmas stating what the operations promise.
- `Manager` is the class `TranscriptManager` with the source's fields as
  `seq` fields. Its methods update them in place, with the source's loops.
  Each method is proved to produce `Transcript`'s function of the old state.
- `Scenarios` works out short runs that show how the code behaves.

`Date.now()` is the parameter `now`. A line id, which the source formats as
the string `kind-now-start`, is the datatype `LineId(isInterim, created, start)`.

Some behaviour of the code differs from what one might expect of a caption
buffer. The model follows the code in each case:

- A final result that follows an interim one does not replace the interim
  words. The window still holds them, so they appear again before the final
  words (`Scenarios.InterimThenFinal`). For example: interim "then ran", then
  final "then ran away fast", shows "then ran then ran away fast".
- A final result rewraps the whole window while the earlier final rows stay
  on screen, so earlier final words appear twice. As a result, the word window
  does not hold exactly the words of the rows shown
  (`Scenarios.FinalRewrapsWindow`).
- Eviction subtracts the evicted row's word count from the window even when
  that row was not built from the current window (`Transcript.EvictWords`).
  It still keeps the window within ten words per allowed row
  (`Transcript.WindowBound`).
- `setMaxLines` shifts out rows but leaves the word window alone
  (`Transcript.SetMaxLines`). After the limit is lowered, the window can hold
  more than ten words per allowed row until the next non-blank `addLine`.

## Model

| member | source | states |
|---|---|---|
| Strings.Trim | src/utils/TranscriptManager.ts:12 | `text.trim()`; its meaning is stated by Strings.TrimSlice, Strings.TrimEmptyIff and Strings.TrimIdempotent |
| Strings.TrimEmptyIff | src/utils/TranscriptManager.ts:12-16 | a text is ignored exactly when it consists of whitespace only |
| Strings.TrimSlice | src/utils/TranscriptManager.ts:12 | the trimmed text is a contiguous slice of the text; only whitespace is removed, and it has no whitespace at either end |
| Strings.TrimIdempotent | src/utils/TranscriptManager.ts:12 | trimming an already trimmed text changes nothing |
| Strings.SplitCount | src/utils/TranscriptManager.ts:65 | `split(/\s+/)` yields at least one piece, even for the empty string |
| Strings.SplitCountJoin | src/utils/TranscriptManager.ts:65 | splitting a row joined from whitespace-free words gives back the number of words |
| Strings.Join | src/utils/TranscriptManager.ts:40 | `join(sep)`, used with a space for row texts and with a newline for the export (line 88); its meaning is stated by Strings.JoinAppend and Strings.SplitCountJoin |
| Strings.JoinAppend | src/utils/TranscriptManager.ts:85-89 | joining one more part adds exactly the separator and that part, except after an empty list |
| Wrapper.Chunks | src/utils/TranscriptManager.ts:38-39 | the `slice(i, i + 10)` pieces of the window; stated by Wrapper.ChunksPartition |
| Wrapper.Wrap | src/utils/TranscriptManager.ts:38-48 | the rows the chunking loop builds; stated by Wrapper.BuildLines and Wrapper.WrapLines |
| Wrapper.BuildLines | src/utils/TranscriptManager.ts:34-48 | the chunking loop produces exactly the wrapped rows `Wrap` of the window |
| Wrapper.ChunksPartition | src/utils/TranscriptManager.ts:38-39 | a window of n words splits into ceil(n/10) chunks; chunk k is words 10k up to 10k+10; each has 1 to 10 words, and only the last may have fewer than 10; concatenated they give back the window |
| Wrapper.WrapLines | src/utils/TranscriptManager.ts:38-48 | one row per chunk; row k has the text of chunk k joined by spaces, the call's kind and time, and id start 10k |
| Wrapper.WrapWordCounts | src/utils/TranscriptManager.ts:40 | for whitespace-free words, each row's split count equals its chunk's length |
| Transcript.NonInterim | src/utils/TranscriptManager.ts:53 | the filter keeps no interim row and never lengthens the list |
| Transcript.NonInterimMembers | src/utils/TranscriptManager.ts:53 | the filter keeps exactly the final rows |
| Transcript.NonInterimAppend | src/utils/TranscriptManager.ts:57 | filtering distributes over concatenation, so order is preserved |
| Transcript.NonInterimOfUniform | src/utils/TranscriptManager.ts:53 | an all-final list is kept whole; an all-interim list is dropped entirely |
| Transcript.KeepNewest | src/utils/TranscriptManager.ts:76-78 | the rows left by shifting until at most the limit remain; stated by Transcript.SetMaxLines, Transcript.KeepNewestSuffix and Transcript.EvictKeepsNewest |
| Transcript.Evict | src/utils/TranscriptManager.ts:61-68 | the eviction loop of `addLine` on rows and window; stated by Transcript.EvictKeepsNewest, Transcript.EvictWords and Transcript.EvictEffect |
| Transcript.EvictKeepsNewest | src/utils/TranscriptManager.ts:61-68 | the eviction loop leaves the newest min(n, maxLines) rows and a suffix of the word window |
| Transcript.EvictEffect | src/utils/TranscriptManager.ts:61-68 | the rows left are the list with its first k rows removed, and the window loses the summed split counts of those k rows, capped at its length |
| Transcript.EvictWords | src/utils/TranscriptManager.ts:61-68 | the window loses, from the front, the summed split counts of the evicted rows, capped at its length |
| Transcript.NextWindow | src/utils/TranscriptManager.ts:27-32 | the window an interim result replaces and a final result extends; stated by Transcript.InterimReplacesWindow, Scenarios.StepFits and Transcript.AddLineEffect |
| Transcript.AddLine | src/utils/TranscriptManager.ts:10-71 | `addLine` as a function of the old state; it never changes the limit, and its effect is stated by Transcript.AddLineRecord, Transcript.AddLineEffect, Transcript.AddLineKeepsDisplay and Transcript.AddLineKeepsInv |
| Transcript.AddLineRecord | src/utils/TranscriptManager.ts:12-24 | a blank text changes no field; a final result appends exactly one record with the trimmed text and `now`; an interim result leaves the record alone; the update time becomes `now` |
| Transcript.AddLineEffect | src/utils/TranscriptManager.ts:26-68 | the rows become the newest `maxLines` of (old final rows ++ wrapped window); the window becomes the new window minus the words of the evicted rows |
| Transcript.InterimReplacesWindow | src/utils/TranscriptManager.ts:27-28 | after an interim result the old window has no influence on the new state |
| Transcript.KeepNewestSuffix | src/utils/TranscriptManager.ts:51-58 | keeping the newest rows keeps the interim rows after the final ones |
| Transcript.AddLineKeepsDisplay | src/utils/TranscriptManager.ts:10-71 | whatever its arguments, `addLine` keeps at most `maxLines` rows and keeps the interim rows a contiguous suffix |
| Transcript.AddLineKeepsInv | src/utils/TranscriptManager.ts:10-71 | given words without whitespace, `addLine` also keeps the window made of whitespace-free words |
| Transcript.RepeatedInterim | src/utils/TranscriptManager.ts:51-58 | repeating an identical interim result shows the same row texts, in the same number |
| Transcript.RemergeSameContent | src/utils/TranscriptManager.ts:51-68 | re-merging the surviving final rows with the same words wrapped at another time, then evicting, shows the same row texts and kinds |
| Transcript.SetMaxLines | src/utils/TranscriptManager.ts:73-79 | the limit is `count` clamped to 1..12; the rows become their newest min(n, limit); the window, record and update time are unchanged; the display invariant, and the window invariant with it, are kept |
| Transcript.Clear | src/utils/TranscriptManager.ts:91-96 | rows, window and record become empty and the update time 0; the limit stays |
| Transcript.ClearIdempotent | src/utils/TranscriptManager.ts:91-96 | clearing twice is clearing once |
| Transcript.AddLineTranscript | src/utils/TranscriptManager.ts:19-24 | a non-blank final result adds its trimmed text as a new last line of the exported transcript; anything else leaves it unchanged |
| Transcript.RunRecords | src/utils/TranscriptManager.ts:19-24 | over any run of results the record only grows, by one record per non-blank final result, in arrival order |
| Transcript.StepRecords | src/utils/TranscriptManager.ts:18-24 | one result appends to the record exactly its own record: one entry for a non-blank final result, none otherwise |
| Transcript.RunTranscript | src/utils/TranscriptManager.ts:85-89 | after `clear`, the export is the trimmed final texts joined by newlines; the display limit and interim results have no effect on it |
| Transcript.FullTranscript | src/utils/TranscriptManager.ts:85-89 | the export: the recorded texts joined by newlines; stated by Transcript.AddLineTranscript and Transcript.RunTranscript |
| Transcript.RunKeepsDisplay | src/utils/TranscriptManager.ts:60-68 | after any run of results, at most `maxLines` rows are shown and the interim rows are last |
| Transcript.WrapFull | src/utils/TranscriptManager.ts:38-48 | wrapping whitespace-free words gives at least one row per ten words, and every row but the last splits into ten words |
| Transcript.EvictBound | src/utils/TranscriptManager.ts:60-68 | when the rows after the kept final ones are full ten-word rows (but the last) wrapped from the window, eviction leaves at most ten words per allowed row in the window |
| Transcript.WindowBound | src/utils/TranscriptManager.ts:26-68 | with whitespace-free words, a non-blank `addLine` leaves the window at most 10 × `maxLines` words, so it does not grow without bound |
| Transcript.RunWindowBound | src/utils/TranscriptManager.ts:26-68 | over any run of producer results, a window of at most 10 × `maxLines` words stays so |
| Transcript.RunKeepsInv | src/utils/TranscriptManager.ts:26-32 | after a run of results whose words contain no whitespace, the window still holds only whitespace-free words |
| Scenarios.WrapShort | src/utils/TranscriptManager.ts:38-48 | a window of 1 to 10 words becomes exactly one row |
| Scenarios.StepFits | src/utils/TranscriptManager.ts:26-68 | when the rows fit, nothing is evicted and the window keeps every word: the interim words, or the old window followed by the final words |
| Scenarios.StepOneLine | src/utils/TranscriptManager.ts:50-68 | a short window added below final rows with room to spare becomes one new last row |
| Scenarios.FirstResult | src/utils/TranscriptManager.ts:26-68 | after `clear`, a result of 1 to 10 words is shown as one row and becomes the whole window |
| Scenarios.BelowFinal | src/utils/TranscriptManager.ts:50-68 | below one final row, with room for two, a short window becomes the second row |
| Scenarios.ReplacesInterim | src/utils/TranscriptManager.ts:50-68 | below a final row and an interim row, a short window takes the interim row's place |
| Scenarios.InterimThenFinal | src/utils/TranscriptManager.ts:26-58 | final, interim x, final y with two rows shown: the interim row reads x, then the second row reads x followed by y, and the window is x followed by y |
| Scenarios.FinalRewrapsWindow | src/utils/TranscriptManager.ts:29-57 | two final results x and y: the rows read x and x followed by y, so the rows hold more words than the window |
| Manager.TranscriptManager.constructor | src/utils/TranscriptManager.ts:4-8 | a new manager has no rows, an empty window and record, limit 1 and time 0 |
| Manager.TranscriptManager.AddLine | src/utils/TranscriptManager.ts:10-71 | for any arguments, the fields become `Transcript.AddLine` of the old fields, and the display invariant is kept |
| Manager.TranscriptManager.EnforceLineLimit | src/utils/TranscriptManager.ts:60-68 | the shift-and-splice loop leaves the rows and window that `Transcript.Evict` describes and changes nothing else |
| Manager.TranscriptManager.SetMaxLines | src/utils/TranscriptManager.ts:73-79 | the fields become `Transcript.SetMaxLines` of the old fields |
| Manager.TranscriptManager.GetVisibleLines | src/utils/TranscriptManager.ts:81-83 | returns the rows shown, at most `maxLines` of them |
| Manager.TranscriptManager.GetFullTranscript | src/utils/TranscriptManager.ts:85-89 | returns the recorded texts joined by newlines |
| Manager.TranscriptManager.Clear | src/utils/TranscriptManager.ts:91-96 | the fields become `Transcript.Clear` of the old fields |

## Left out

- `Date.now()` is not read; the time is the parameter `now`.
- A line id is a `LineId` value rather than the formatted string `kind-now-start`.
- In the source, an interim result makes the manager hold the caller's `words` array itself, and a later `splice` then changes the caller's array. The model keeps the window as its own `seq`, so this sharing is not modelled.
- `setMaxLines` with `NaN` or a fractional count is not modelled; `count` is an integer. The clamp makes the limit at least 1, so the source's loops always end, and the model's limit type states this.
- Transcript.AddLineKeepsInv, Transcript.RunKeepsInv, Transcript.WindowBound and Transcript.RunWindowBound: require that a non-blank text comes with whitespace-free words. The window facts they prove are about those words, and the app's producer (src/hooks/useWebSpeech.ts:93-94) guarantees it, because it splits an already trimmed text on `/\s+/`. The display invariant (Transcript.AddLineKeepsDisplay, Transcript.RunKeepsDisplay) and Manager.TranscriptManager.AddLine need no such requirement.
- The producer loop that combines speech results, the app's React wiring, export through a download link, the overlay rendering and the settings form are not part of this model.
- Unicode characters outside the ECMAScript whitespace list are treated as ordinary characters; no normalisation is modelled.
