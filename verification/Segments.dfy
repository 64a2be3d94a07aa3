/** The records of linux/backend/moss_worker/types.py that the parser, the speaker
    remapper and the merger share. */
module Segments {
  import opened Wrappers
  import opened Sorting

  datatype ParseStatus = Valid | Repaired | Invalid

  datatype MergeStatus = Primary | Conflict | Duplicate

  datatype Segment = Segment(
    segmentId: string, windowId: string, startMs: int, endMs: int,
    localSpeaker: string, globalSpeaker: Option<string>, text: string, confidence: Option<real>,
    parseStatus: ParseStatus, mergeStatus: MergeStatus, alternate: Option<Segment>, manifestSha: string)

  /** Python truth of an optional label: neither None nor empty. */
  predicate Labelled(s: Segment) { s.globalSpeaker.Some? && s.globalSpeaker.value != "" }

  type Unit = r: real | 0.0 <= r <= 1.0

  /** Text comparison is a parameter: NFKC normalisation without space and punctuation,
      and difflib's similarity ratio of two normalised texts. */
  datatype TextModel = TextModel(normalize: string -> string, similarity: (string, string) -> Unit)

  function MinInt(a: int, b: int): int { if a <= b then a else b }

  function MaxInt(a: int, b: int): int { if a >= b then a else b }

  /** The utterances share a stretch of time. */
  predicate Overlap(a: Segment, b: Segment) { MinInt(a.endMs, b.endMs) > MaxInt(a.startMs, b.startMs) }

  /** Order by (start_ms, end_ms, segment_id). */
  predicate TimeLe(a: Segment, b: Segment) {
    a.startMs < b.startMs
    || (a.startMs == b.startMs && (a.endMs < b.endMs || (a.endMs == b.endMs && TextLe(a.segmentId, b.segmentId))))
  }

  lemma TimeLeOrder(a: Segment, b: Segment, c: Segment)
    ensures TimeLe(a, b) || TimeLe(b, a)
    ensures TimeLe(a, b) && TimeLe(b, c) ==> TimeLe(a, c)
  {
    TextLeTotal(a.segmentId, b.segmentId);
    if TextLe(a.segmentId, b.segmentId) && TextLe(b.segmentId, c.segmentId) {
      TextLeTransitive(a.segmentId, b.segmentId, c.segmentId);
    }
  }
}
