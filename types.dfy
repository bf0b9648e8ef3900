/**
 * The records the transcript buffer stores: a display line and a recorded
 * (finalized) utterance.
 */
module Types {

  /**
   * Identity of a display line. The source formats it as the string
   * `kind-now-start`, where kind is "interim" or "final" and start is the
   * index of the line's first word in the word window.
   */
  datatype LineId = LineId(isInterim: bool, created: int, start: nat)

  /** One row of the display window. */
  datatype TranscriptLine = TranscriptLine(id: LineId, text: string, isInterim: bool, timestamp: int)

  /** One finalized result kept for export. */
  datatype StoredTranscriptLine = StoredTranscriptLine(text: string, timestamp: int)

  /** The display limit after clamping: the source keeps it between 1 and 12. */
  type LineLimit = n: int | 1 <= n <= 12 witness 1

  function Min(a: int, b: int): int { if a <= b then a else b }

  function Max(a: int, b: int): int { if a >= b then a else b }
}
