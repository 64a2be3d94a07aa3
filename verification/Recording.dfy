/** The end of a job, `_merge` of linux/backend/moss_worker/supervisor.py: window by window
    the speakers are carried on from the window before, and the segments are merged into the
    recording's transcript. */
module Recording {
  import opened Wrappers
  import opened Windowing
  import opened RetriedPlans
  import opened Segments
  import opened SpeakerRemap
  import opened SpeakerHistory
  import opened Merger

  /** The transcript of the parts, each merged into what the ones before it gave. */
  function Transcript(parts: seq<Part>, tm: TextModel): seq<Segment> {
    if parts == [] then []
    else
      var n := |parts| - 1;
      Merge(Transcript(parts[..n], tm), parts[n].segments, WindowBefore(parts, n), parts[n].window, tm)
  }

  /** What the last merge of the parts decided. */
  function LastDecisions(parts: seq<Part>, tm: TextModel): seq<Decision>
    requires parts != []
  {
    var n := |parts| - 1;
    MergeDecisions(Transcript(parts[..n], tm), parts[n].segments, WindowBefore(parts, n), parts[n].window, tm)
  }

  function Spoken(parts: seq<Part>): seq<Segment> {
    if parts == [] then [] else Spoken(parts[..|parts| - 1]) + parts[|parts| - 1].segments
  }

  /** Utterances that some merge dropped as duplicates, or lost as alternates. */
  function DroppedSpeech(parts: seq<Part>, tm: TextModel, x: Segment): nat {
    if parts == [] then 0
    else DroppedSpeech(parts[..|parts| - 1], tm, x) + AllDropped(LastDecisions(parts, tm), tm, x)
  }

  function LostSpeech(parts: seq<Part>, tm: TextModel, x: Segment): nat {
    if parts == [] then 0
    else LostSpeech(parts[..|parts| - 1], tm, x) + AllLost(LastDecisions(parts, tm), tm, x)
  }

  /** Over the whole recording every utterance of every window is in the transcript, as a
      segment or an alternate, or was dropped as a duplicate, or was lost as an alternate: exactly
      one of these for each of its occurrences. */
  lemma {:induction false} RecordingConserved(parts: seq<Part>, tm: TextModel, x: Segment)
    ensures AllSpeech(Spoken(parts), x)
            == AllSpeech(Transcript(parts, tm), x) + DroppedSpeech(parts, tm, x) + LostSpeech(parts, tm, x)
  {
    hide AllSpeech, Merge, MergeDecisions, AllDropped, AllLost;
    if parts != [] {
      var n := |parts| - 1;
      RecordingConserved(parts[..n], tm, x);
      SpeechConcat(Spoken(parts[..n]), parts[n].segments, x);
      SpeechConcat(Transcript(parts[..n], tm), parts[n].segments, x);
      SpeechConserved(Transcript(parts[..n], tm), parts[n].segments, WindowBefore(parts, n), parts[n].window, tm, x);
    }
  }

  /** No merge of the recording decides a conflict for an utterance that carries an alternate. */
  predicate NeverLoses(parts: seq<Part>, tm: TextModel) {
    parts == [] || (NeverLoses(parts[..|parts| - 1], tm) && NoneLoses(LastDecisions(parts, tm), tm))
  }

  lemma {:induction false} NeverLost(parts: seq<Part>, tm: TextModel, x: Segment)
    requires NeverLoses(parts, tm)
    ensures LostSpeech(parts, tm, x) == 0
  {
    if parts != [] {
      NeverLost(parts[..|parts| - 1], tm, x);
      NothingLost(LastDecisions(parts, tm), tm, x);
    }
  }

  lemma {:induction false} SomethingLost(parts: seq<Part>, tm: TextModel) returns (x: Segment)
    requires !NeverLoses(parts, tm)
    ensures LostSpeech(parts, tm, x) > 0
  {
    var n := |parts| - 1;
    if NoneLoses(LastDecisions(parts, tm), tm) {
      x := SomethingLost(parts[..n], tm);
    } else {
      var ds := LastDecisions(parts, tm);
      var k :| 0 <= k < |ds| && LosesAlternate(ds[k], tm);
      x := Core(LostAlternate(ds[k], tm).value);
      LostBy(ds, tm, k);
    }
  }

  /** Only duplicates are missing from the transcript. */
  ghost predicate OnlyDuplicatesMissing(parts: seq<Part>, tm: TextModel) {
    forall x :: AllSpeech(Spoken(parts), x) == AllSpeech(Transcript(parts, tm), x) + DroppedSpeech(parts, tm, x)
  }

  lemma MissingAt(parts: seq<Part>, tm: TextModel, x: Segment)
    requires OnlyDuplicatesMissing(parts, tm)
    ensures AllSpeech(Spoken(parts), x) == AllSpeech(Transcript(parts, tm), x) + DroppedSpeech(parts, tm, x)
  {
  }

  /** Nothing but duplicates is missing from a recording's transcript if and only if no merge
      along the way loses an alternate, by a second conflict or together with a duplicate. */
  lemma TranscriptCompleteIff(parts: seq<Part>, tm: TextModel)
    ensures OnlyDuplicatesMissing(parts, tm) <==> NeverLoses(parts, tm)
  {
    hide NeverLoses, Transcript, Spoken, DroppedSpeech, LostSpeech;
    if NeverLoses(parts, tm) {
      forall x
        ensures AllSpeech(Spoken(parts), x) == AllSpeech(Transcript(parts, tm), x) + DroppedSpeech(parts, tm, x)
      {
        RecordingConserved(parts, tm, x);
        NeverLost(parts, tm, x);
      }
    } else {
      var x := SomethingLost(parts, tm);
      RecordingConserved(parts, tm, x);
      if OnlyDuplicatesMissing(parts, tm) {
        MissingAt(parts, tm, x);
        assert false;
      }
    }
  }

  /** Each dropped utterance was said by a segment of the transcript at that time. */
  lemma {:induction false} DroppedWasSaid(parts: seq<Part>, tm: TextModel, x: Segment) returns (n: nat, kept: Segment)
    requires DroppedSpeech(parts, tm, x) > 0
    ensures n <= |parts| && kept in Transcript(parts[..n], tm) && SaysTheSame(kept, x, tm)
  {
    hide Merge, MergeDecisions, AllDropped, SaysTheSame;
    var last := |parts| - 1;
    if AllDropped(LastDecisions(parts, tm), tm, x) > 0 {
      DroppedIsSaid(Transcript(parts[..last], tm), parts[last].segments, WindowBefore(parts, last), parts[last].window,
                    tm, x);
      kept :| kept in Transcript(parts, tm) && SaysTheSame(kept, x, tm);
      n := |parts|;
      assert parts[..n] == parts;
    } else {
      n, kept := DroppedWasSaid(parts[..last], tm, x);
      assert parts[..last][..n] == parts[..n];
    }
  }

  // ----- when nothing is lost -----

  predicate InWindow(s: Segment, w: WindowSpec) { w.startMs <= s.startMs <= s.endMs <= w.endMs }

  /** What the parser gives: segments inside their window, without alternates. */
  predicate Parsed(parts: seq<Part>) {
    forall k, i :: 0 <= k < |parts| && 0 <= i < |parts[k].segments| ==>
                     InWindow(parts[k].segments[i], parts[k].window) && parts[k].segments[i].alternate.None?
  }

  /** No three windows share an instant: each ends before the one after the next begins. */
  predicate NoThirdWindow(parts: seq<Part>) {
    forall i, k :: 0 <= i < k - 1 < |parts| - 1 ==> parts[i].window.endMs < parts[k].window.startMs
  }

  predicate HeardIn(s: Segment, parts: seq<Part>, i: int) { 0 <= i < |parts| && InWindow(s, parts[i].window) }

  /** A segment comes from window `i`, and its alternate, if it has one, from another window, `j`. */
  predicate PlacedAt(s: Segment, parts: seq<Part>, i: int, j: int) {
    HeardIn(s, parts, i)
      && (s.alternate.Some? ==> HeardIn(s.alternate.value, parts, j) && j != i && Same(s, s.alternate.value))
  }

  ghost predicate Placed(s: Segment, parts: seq<Part>) { exists i, j :: PlacedAt(s, parts, i, j) }

  lemma PlacedLater(s: Segment, parts: seq<Part>, n: nat)
    requires n <= |parts| && Placed(s, parts[..n])
    ensures Placed(s, parts)
  {
    var i, j :| PlacedAt(s, parts[..n], i, j);
    assert PlacedAt(s, parts, i, j);
  }

  /** An utterance that was matched already is not matched with the next window: half of it
      would have to lie in the window before its own, and half in the one after. */
  lemma MatchedOnce(a: Segment, b: Segment, parts: seq<Part>)
    requires parts != [] && NoThirdWindow(parts) && Placed(a, parts[..|parts| - 1]) && a.alternate.Some?
    requires InWindow(b, parts[|parts| - 1].window)
    ensures !Same(a, b) && !Same(b, a)
  {
    var n := |parts| - 1;
    var i, j :| PlacedAt(a, parts[..n], i, j);
    assert InWindow(a, parts[i].window) && InWindow(a.alternate.value, parts[j].window);
    if i < n - 1 {
      assert parts[i].window.endMs < parts[n].window.startMs;
    } else {
      assert parts[j].window.endMs < parts[n].window.startMs;
    }
  }

  lemma NewSegment(parts: seq<Part>, b: Segment)
    requires parts != [] && Parsed(parts) && b in parts[|parts| - 1].segments
    ensures InWindow(b, parts[|parts| - 1].window) && b.alternate.None? && Placed(b, parts)
  {
    var n := |parts| - 1;
    var i :| 0 <= i < |parts[n].segments| && parts[n].segments[i] == b;
    assert PlacedAt(b, parts, n, 0);
  }

  ghost predicate AllPlaced(segments: seq<Segment>, parts: seq<Part>) {
    forall i :: 0 <= i < |segments| ==> Placed(segments[i], parts)
  }

  lemma PlacedMember(segments: seq<Segment>, parts: seq<Part>, s: Segment)
    requires AllPlaced(segments, parts) && s in segments
    ensures Placed(s, parts)
  {
  }

  /** A pair of an earlier utterance and a new one, neither with an alternate. */
  lemma PairPlaced(a: Segment, b: Segment, parts: seq<Part>)
    requires parts != [] && Placed(a, parts[..|parts| - 1]) && a.alternate.None?
    requires InWindow(b, parts[|parts| - 1].window) && b.alternate.None? && Same(a, b) && Same(b, a)
    ensures Placed(a, parts) && Placed(a.(mergeStatus := Conflict, alternate := Some(b)), parts)
    ensures Placed(b, parts) && Placed(b.(mergeStatus := Conflict, alternate := Some(a)), parts)
  {
    var n := |parts| - 1;
    var i, j :| PlacedAt(a, parts[..n], i, j);
    assert PlacedAt(a, parts, i, j) && PlacedAt(b, parts, n, i);
    assert PlacedAt(a.(mergeStatus := Conflict, alternate := Some(b)), parts, i, n);
    assert PlacedAt(b.(mergeStatus := Conflict, alternate := Some(a)), parts, n, i);
  }

  /** One decision of the last merge keeps everything, and what it keeps is placed. */
  lemma DecisionKeeps(parts: seq<Part>, tm: TextModel, k: nat)
    requires parts != [] && Parsed(parts) && NoThirdWindow(parts) && k < |LastDecisions(parts, tm)|
    requires AllPlaced(Transcript(parts[..|parts| - 1], tm), parts[..|parts| - 1])
    ensures !LosesAlternate(LastDecisions(parts, tm)[k], tm) && Placed(Resolve(LastDecisions(parts, tm)[k], tm), parts)
  {
    hide Merge, MergeDecisions, Same, Placed, AllPlaced, InWindow, Disagree, NoThirdWindow, Parsed;
    var n := |parts| - 1;
    var before := Transcript(parts[..n], tm);
    var d := LastDecisions(parts, tm)[k];
    DuplicatesAgree(before, parts[n].segments, WindowBefore(parts, n), parts[n].window, tm, k);
    SameSymmetric(d.primary, d.other);
    var first := d.primary in before && d.other in parts[n].segments;
    var a, b := if first then d.primary else d.other, if first then d.other else d.primary;
    assert a in before && b in parts[n].segments;
    NewSegment(parts, b);
    PlacedMember(before, parts[..n], a);
    OnceOnly(a, b, parts);
    PairPlaced(a, b, parts);
  }

  lemma OnceOnly(a: Segment, b: Segment, parts: seq<Part>)
    requires parts != [] && NoThirdWindow(parts) && Placed(a, parts[..|parts| - 1])
             && InWindow(b, parts[|parts| - 1].window)
    requires Same(a, b)
    ensures a.alternate.None?
  {
    hide Placed, NoThirdWindow, Same, InWindow;
    if a.alternate.Some? {
      MatchedOnce(a, b, parts);
      assert false;
    }
  }

  lemma SameSymmetric(a: Segment, b: Segment)
    ensures Same(a, b) == Same(b, a)
  {
  }

  /** Where no three windows share an instant, nothing is lost: every utterance is in the
      transcript, as a segment or an alternate, unless it is a duplicate. */
  lemma {:induction false} NoThirdWindowKeepsAll(parts: seq<Part>, tm: TextModel)
    requires Parsed(parts) && NoThirdWindow(parts)
    ensures NeverLoses(parts, tm)
    ensures AllPlaced(Transcript(parts, tm), parts)
  {
    hide Merge, MergeDecisions, Placed, LosesAlternate, InWindow;
    if parts != [] {
      var n := |parts| - 1;
      NoThirdWindowKeepsAll(parts[..n], tm);
      forall k | 0 <= k < |LastDecisions(parts, tm)|
        ensures !LosesAlternate(LastDecisions(parts, tm)[k], tm)
                && Placed(Resolve(LastDecisions(parts, tm)[k], tm), parts)
      {
        DecisionKeeps(parts, tm, k);
      }
      forall i | 0 <= i < |Transcript(parts, tm)|
        ensures Placed(Transcript(parts, tm)[i], parts)
      {
        var s := Transcript(parts, tm)[i];
        MergeMember(Transcript(parts[..n], tm), parts[n].segments, WindowBefore(parts, n), parts[n].window, tm, s);
        if s in Transcript(parts[..n], tm) {
          PlacedMember(Transcript(parts[..n], tm), parts[..n], s);
          PlacedLater(s, parts, n);
        } else if s in parts[n].segments {
          NewSegment(parts, s);
        } else {
          var k :| 0 <= k < |LastDecisions(parts, tm)| && s == Resolve(LastDecisions(parts, tm)[k], tm);
        }
      }
    }
  }

  predicate OnWindows(parts: seq<Part>, ws: seq<WindowSpec>) {
    |parts| == |ws| && forall i :: 0 <= i < |parts| ==> parts[i].window == ws[i]
  }

  /** Neighbouring windows alone share audio, unless a window inside the recording is as short
      as its two overlaps: the windows of a plan, retried or not, lose nothing then. */
  lemma LongWindowsKeepAll(parts: seq<Part>, ws: seq<WindowSpec>, tm: TextModel)
    requires Chain(ws) && OnWindows(parts, ws) && Parsed(parts) && LongInside(ws)
    ensures NeverLoses(parts, tm)
  {
    hide Chain, Parsed, NeverLoses, LongInside;
    MeetIff(ws);
    forall i, k | 0 <= i < k - 1 < |parts| - 1
      ensures parts[i].window.endMs < parts[k].window.startMs
    {
      assert !Meet(ws, i, k);
    }
    NoThirdWindowKeepsAll(parts, tm);
  }

  /** Mapping speakers changes labels and confidences and nothing else. */
  predicate OnlyRelabelled(before: seq<Segment>, after: seq<Segment>) {
    && |after| == |before|
    && forall i :: 0 <= i < |before| ==>
         after[i] == before[i].(globalSpeaker := after[i].globalSpeaker, confidence := after[i].confidence)
           && after[i].globalSpeaker.Some?
  }

  lemma ReadBackRelabels(before: seq<Segment>, after: seq<Segment>, t: Table)
    requires ReadBack(before, after, t)
    ensures OnlyRelabelled(before, after)
  {
  }

  lemma TranscriptOneMore(parts: seq<Part>, part: Part, tm: TextModel)
    ensures Transcript(parts + [part], tm)
            == Merge(Transcript(parts, tm), part.segments, WindowBefore(parts, |parts|), part.window, tm)
  {
    hide Merge;
    assert (parts + [part])[..|parts|] == parts;
  }

  /** Speakers of one window, carried on from the window before. */
  method Relabel(remapper: SpeakerRemapper, previous: seq<Segment>, current: seq<Segment>, before: Option<WindowSpec>,
                 window: WindowSpec, tm: TextModel) returns (r: Result<seq<Segment>, RemapError>)
    requires remapper.Valid()
    modifies remapper
    ensures remapper.Valid()
    ensures r.Failure? <==> Refused(previous, current, before, window, tm, old(remapper.windows))
    ensures r.Success? ==> OnlyRelabelled(current, r.value)
    ensures r.Success? ==> Mapped(previous, current, r.value, before, window, tm,
                                  Memory(old(remapper.windows), old(remapper.nextGlobalId)),
                                    Memory(remapper.windows, remapper.nextGlobalId))
  {
    hide ReadBack, LabelsOk, AllKnown, MatrixOf, TooMany, OnlyRelabelled, Remapped;
    ghost var trail;
    r, trail := remapper.MapAdjacent(previous, current, before, window, tm);
    if r.Success? {
      ReadBackRelabels(current, r.value, remapper.windows);
    }
  }

  /** The labelled parts change labels and confidences of the first results. */
  predicate PartsOf(parts: seq<Part>, results: seq<Part>) {
    && |parts| <= |results|
    && forall k :: 0 <= k < |parts| ==>
         parts[k].id == results[k].id && parts[k].window == results[k].window
           && OnlyRelabelled(results[k].segments, parts[k].segments)
  }

  /** The loop over finished windows: each one's speakers are mapped after the labelled window
      before it, and the transcript is the merge of the labelled windows. It fails exactly when
      the mapping of some window is refused. */
  method MergeRecording(remapper: SpeakerRemapper, results: seq<Part>, tm: TextModel)
    returns (r: Result<seq<Segment>, RemapError>, ghost parts: seq<Part>, ghost memories: seq<Memory>)
    requires remapper.Valid()
    modifies remapper
    ensures remapper.Valid()
    ensures History(results, parts, memories, tm) && PartsOf(parts, results)
    ensures memories[0] == Memory(old(remapper.windows), old(remapper.nextGlobalId))
    ensures r.Success? ==> |parts| == |results| && r.value == Transcript(parts, tm)
                           && memories[|parts|] == Memory(remapper.windows, remapper.nextGlobalId)
    ensures r.Failure? ==> var n := |parts|;
                           n < |results|
                             && Refused(SegmentsBefore(parts, n), results[n].segments, WindowBefore(parts, n),
                                                    results[n].window, tm, memories[n].table)
  {
    hide Merge, OnlyRelabelled, Transcript, Refused, Mapped, MappedAt;
    var merged: seq<Segment> := [];
    var previous: seq<Segment> := [];
    var previousWindow: Option<WindowSpec> := None;
    parts := [];
    memories := [Memory(remapper.windows, remapper.nextGlobalId)];
    NothingSaid(tm);
    var n := 0;
    while n < |results|
      invariant n <= |results| && |parts| == n
      invariant remapper.Valid()
      invariant History(results, parts, memories, tm) && PartsOf(parts, results)
      invariant memories[0] == Memory(old(remapper.windows), old(remapper.nextGlobalId))
      invariant memories[n] == Memory(remapper.windows, remapper.nextGlobalId)
      invariant previous == SegmentsBefore(parts, n) && previousWindow == WindowBefore(parts, n)
      invariant merged == Transcript(parts, tm)
    {
      var mapped := Relabel(remapper, previous, results[n].segments, previousWindow, results[n].window, tm);
      if mapped.Failure? {
        return Failure(mapped.error), parts, memories;
      }
      var current := mapped.value;
      merged := MergeAdjacent(merged, current, previousWindow, results[n].window, tm);
      ghost var part := Part(results[n].id, current, results[n].window);
      ghost var memory := Memory(remapper.windows, remapper.nextGlobalId);
      TranscriptOneMore(parts, part, tm);
      HistoryOneMore(results, parts, memories, tm, part, memory);
      parts, memories := parts + [part], memories + [memory];
      previous, previousWindow := current, Some(results[n].window);
      n := n + 1;
    }
    return Success(merged), parts, memories;
  }

  /** A merge repeated from the speaker state that a complete one saved gives the same
      transcript; that it is not refused is RepetitionIsAccepted. */
  lemma RepeatedMergeAgrees(results: seq<Part>, parts: seq<Part>, memories: seq<Memory>, again: seq<Part>,
                            memories': seq<Memory>,
                            tm: TextModel)
    requires StoredParts(results) && History(results, parts, memories, tm) && |parts| == |results|
    requires History(results, again, memories', tm) && |again| == |results| && memories'[0] == memories[|parts|]
    ensures Transcript(again, tm) == Transcript(parts, tm)
  {
    hide Transcript, StoredParts, MappedAt;
    RemappingTheRecording(results, parts, memories, tm, again, memories', tm);
    assert parts[..|again|] == parts;
  }

  lemma NothingSaid(tm: TextModel)
    ensures Transcript([], tm) == []
  {
  }
}
