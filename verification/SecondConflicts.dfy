/** What the transcript of a recording can lose: `_merge` of
    linux/backend/moss_worker/supervisor.py, over windows as they are planned and retried and
    results as they are parsed, loses an alternate only to a second conflict. */
module SecondConflicts {
  import opened Wrappers
  import opened Windowing
  import opened RetriedPlans
  import opened Labels
  import opened Segments
  import opened Matching
  import opened SpeakerRemap
  import opened SpeakerHistory
  import opened Merger
  import opened Recording

  /** The utterances of one window do not overlap. */
  predicate InOrder(segments: seq<Segment>) {
    forall i, j :: 0 <= i < j < |segments| ==> segments[i].endMs <= segments[j].startMs
  }

  ghost predicate ParsedInOrder(parts: seq<Part>) {
    Parsed(parts) && forall k :: 0 <= k < |parts| ==> InOrder(parts[k].segments)
  }

  /** A run over parsed results of the windows of a plan, from a speaker state that does not
      know them yet. */
  ghost predicate FreshRun(results: seq<Part>, parts: seq<Part>, memories: seq<Memory>, tm: TextModel,
                           ws: seq<WindowSpec>) {
    && StoredParts(results) && History(results, parts, memories, tm) && AllNew(memories[0].table, results)
    && Chain(ws) && OnWindows(results, ws) && ParsedInOrder(results)
  }

  lemma RunPrefix(results: seq<Part>, parts: seq<Part>, memories: seq<Memory>, tm: TextModel, ws: seq<WindowSpec>,
                  n: nat)
    requires FreshRun(results, parts, memories, tm, ws) && n <= |parts|
    ensures FreshRun(results, parts[..n], memories[..n + 1], tm, ws)
  {
    hide Mapped, Chain, Parsed, StoredParts, AllNew, OnWindows, ParsedInOrder;
    var front, between := parts[..n], memories[..n + 1];
    forall k | 0 <= k < n
      ensures MappedAt(results, front, between, tm, k)
    {
      assert MappedAt(results, parts, memories, tm, k);
    }
  }

  /** Every labelled segment is the parsed one, in its window, with a label. */
  lemma PartFacts(results: seq<Part>, parts: seq<Part>, memories: seq<Memory>, tm: TextModel, ws: seq<WindowSpec>,
                  n: nat)
    requires FreshRun(results, parts, memories, tm, ws) && n < |parts|
    ensures n < |ws| && parts[n].window == ws[n] && |parts[n].segments| == |results[n].segments|
    ensures InOrder(parts[n].segments)
    ensures forall i :: 0 <= i < |parts[n].segments| ==> Published(parts[n].segments[i], results[n].segments[i], ws[n])
  {
    hide Remapped, MatrixOf, Chain;
    assert MappedAt(results, parts, memories, tm, n);
    assert InOrder(results[n].segments);
  }

  predicate Published(s: Segment, parsed: Segment, w: WindowSpec) {
    && InWindow(s, w) && s.alternate.None? && Labelled(s) && IsLabel(s.globalSpeaker.value)
    && s.startMs == parsed.startMs && s.endMs == parsed.endMs && s.localSpeaker == parsed.localSpeaker
  }

  // ----- where the segments of the transcript come from -----

  predicate Comes(s: Segment, parts: seq<Part>, i: int, p: int) {
    0 <= i < |parts| && 0 <= p < |parts[i].segments| && Core(s) == Core(parts[i].segments[p])
  }

  /** The segment and its alternate come from different windows and agree but for their text. */
  predicate CarriesAt(s: Segment, parts: seq<Part>, i: int, p: int, j: int, q: int) {
    && Comes(s, parts, i, p)
    && (s.alternate.Some? ==>
          && Comes(s.alternate.value, parts, j, q) && i != j
          && Same(s, s.alternate.value) && s.globalSpeaker == s.alternate.value.globalSpeaker)
  }

  ghost predicate Carries(s: Segment, parts: seq<Part>) { exists i, p, j, q :: CarriesAt(s, parts, i, p, j, q) }

  ghost predicate AllCarry(segments: seq<Segment>, parts: seq<Part>) {
    forall k :: 0 <= k < |segments| ==> Carries(segments[k], parts)
  }

  lemma CarriesLater(s: Segment, parts: seq<Part>, n: nat)
    requires n <= |parts| && Carries(s, parts[..n])
    ensures Carries(s, parts)
  {
    var i, p, j, q :| CarriesAt(s, parts[..n], i, p, j, q);
    assert CarriesAt(s, parts, i, p, j, q);
  }

  /** A pair of an earlier utterance and a new one, of one speaker, as a conflict. */
  lemma PairCarries(a: Segment, b: Segment, parts: seq<Part>)
    requires parts != [] && Carries(a, parts[..|parts| - 1]) && b in parts[|parts| - 1].segments && b.alternate.None?
    requires Same(a, b) && Same(b, a) && a.globalSpeaker == b.globalSpeaker
    ensures Carries(a, parts) && Carries(b, parts)
    ensures Carries(a.(mergeStatus := Conflict, alternate := Some(b)), parts)
    ensures Carries(b.(mergeStatus := Conflict, alternate := Some(a)), parts)
  {
    var n := |parts| - 1;
    var i, p, j, q :| CarriesAt(a, parts[..n], i, p, j, q);
    var r :| 0 <= r < |parts[n].segments| && parts[n].segments[r] == b;
    assert CarriesAt(a, parts, i, p, j, q) && CarriesAt(b, parts, n, r, 0, 0);
    assert CarriesAt(a.(mergeStatus := Conflict, alternate := Some(b)), parts, i, p, n, r);
    assert CarriesAt(b.(mergeStatus := Conflict, alternate := Some(a)), parts, n, r, i, p);
  }

  // ----- an utterance between two others -----

  /** An utterance that shares half of itself with one that ends before `border` and half with
      one that starts there is cut in half by it; kept under one that starts at the edge of its
      window, it must touch an edge itself. */
  lemma FillsWindow(a: Segment, before: Segment, after: Segment, w: WindowSpec, next: WindowSpec, last: int)
    requires InWindow(a, w) && InWindow(after, next) && before.endMs <= last <= next.startMs
    requires Same(a, before) && Same(a, after) && Overlap(a, after)
    requires w.startMs == last - OVERLAP_MS && next.startMs == w.endMs - OVERLAP_MS
    requires EdgeDistance(after, next) >= EdgeDistance(a, w)
    ensures a.startMs == w.startMs && a.endMs == w.endMs && last == next.startMs
  {
    var half := a.endMs - a.startMs;
    assert 2 * (last - a.startMs) >= half;
    assert 2 * (a.endMs - after.startMs) >= half;
    assert last == next.startMs == after.startMs;
  }

  /** Two utterances of which one fills its window and the other ends in the middle of it are
      not alike, and nobody else speaks in that window. */
  lemma NobodyAlike(x: Segment, y: Segment, segments: seq<Segment>, j: nat, p: nat, w: WindowSpec, next: WindowSpec,
                    tm: TextModel)
    requires InWindow(x, w) && InOrder(segments) && j < |segments| && p < |segments|
    requires Published(segments[j], y, next) && Length(next) == 2 * OVERLAP_MS && w.endMs <= next.startMs + OVERLAP_MS
    requires segments[p].startMs == next.startMs && segments[p].endMs == next.endMs
    ensures !Alike(x, y, tm)
  {
    hide IsLabel, Labelled;
  }

  /** Who alone fills a window as short as its two overlaps has a new label there. */
  lemma LabelIsNew(results: seq<Part>, parts: seq<Part>, memories: seq<Memory>, tm: TextModel, ws: seq<WindowSpec>,
                   n: nat, p: nat)
    requires FreshRun(results, parts, memories, tm, ws) && 0 < n < |parts| && p < |parts[n].segments|
    requires parts[n].segments[p].startMs == ws[n].startMs && parts[n].segments[p].endMs == ws[n].endMs
    requires Length(ws[n]) == 2 * OVERLAP_MS && ws[n - 1].endMs <= ws[n].startMs + OVERLAP_MS
    ensures Labelled(parts[n].segments[p]) && IsLabel(parts[n].segments[p].globalSpeaker.value)
            && LabelNumber(parts[n].segments[p].globalSpeaker.value) >= memories[n].next
  {
    hide FreshRun, Mapped, Alike, IsLabel, LabelNumber, InOrder;
    RunFacts(results, parts, memories, tm, ws);
    FirstMappingAt(results, parts, memories, tm, n);
    PartFacts(results, parts, memories, tm, ws, n);
    var s := parts[n].segments[p];
    var previous, current := parts[n - 1].segments, results[n].segments;
    assert Origin(previous, current, s, tm, memories[n].next, memories[n + 1].next);
    if Evidence(previous, current, tm, s.localSpeaker, s.globalSpeaker.value) {
      var i, j :| 0 <= i < |previous| && 0 <= j < |current| && Labelled(previous[i])
                  && previous[i].globalSpeaker.value == s.globalSpeaker.value
                  && current[j].localSpeaker == s.localSpeaker && Alike(previous[i], current[j], tm);
      PartFacts(results, parts, memories, tm, ws, n - 1);
      NobodyAlike(previous[i], current[j], parts[n].segments, j, p, ws[n - 1], ws[n], tm);
      assert false;
    }
  }

  lemma RunFacts(results: seq<Part>, parts: seq<Part>, memories: seq<Memory>, tm: TextModel, ws: seq<WindowSpec>)
    requires FreshRun(results, parts, memories, tm, ws)
    ensures StoredParts(results) && History(results, parts, memories, tm) && AllNew(memories[0].table, results)
    ensures |memories| == |parts| + 1 && |parts| <= |results| == |ws| && Chain(ws)
  {
    hide MappedAt, StoredParts, AllNew, Chain, ParsedInOrder, Sound;
  }

  // ----- no duplicate carries an alternate -----

  /** An utterance that carries an alternate is never dropped for one of the next window: it
      would fill a window as short as its two overlaps, and have a new label there. */
  lemma CarrierStays(results: seq<Part>, parts: seq<Part>, memories: seq<Memory>, tm: TextModel, ws: seq<WindowSpec>,
                     a: Segment, r: nat)
    requires FreshRun(results, parts, memories, tm, ws) && |parts| > 1
    requires Carries(a, parts[..|parts| - 1]) && a.alternate.Some? && r < |parts[|parts| - 1].segments|
    requires var b := parts[|parts| - 1].segments[r]; Same(a, b) && Overlap(a, b)
    ensures EdgeDistance(parts[|parts| - 1].segments[r], ws[|parts| - 1]) < EdgeDistance(a, ws[|parts| - 2])
  {
    hide FreshRun, Same, Chain, IsLabel, LabelNumber, History, StoredParts, AllNew;
    RunFacts(results, parts, memories, tm, ws);
    var n := |parts| - 1;
    var b := parts[n].segments[r];
    if EdgeDistance(b, ws[n]) >= EdgeDistance(a, ws[n - 1]) {
      var i, p, j, q :| CarriesAt(a, parts[..n], i, p, j, q);
      var x := a.alternate.value;
      PartFacts(results, parts, memories, tm, ws, n);
      PartFacts(results, parts, memories, tm, ws, i);
      PartFacts(results, parts, memories, tm, ws, j);
      if i < n - 1 {
        NeighboursOnly(ws, i, n);
        assert false;
      } else {
        EndsAscend(ws, j, n - 2);
        NeighboursOnly(ws, n - 2, n);
        NeighboursAt(ws, n);
        FillsWindow(a, x, b, ws[n - 1], ws[n], ws[n - 2].endMs);
        LabelIsNew(results, parts, memories, tm, ws, n - 1, p);
        HeardEarlier(results, parts, memories, tm, n, j, q, a.globalSpeaker.value);
        assert false;
      }
    }
  }

  lemma NeighboursAt(ws: seq<WindowSpec>, n: nat)
    requires Chain(ws) && 1 < n < |ws|
    ensures ws[n].startMs == ws[n - 1].endMs - OVERLAP_MS && ws[n - 1].startMs == ws[n - 2].endMs - OVERLAP_MS
  {
    assert ChainAt(ws, n) && ChainAt(ws, n - 1);
  }

  /** A label of a window before the last but one was numbered before that one was mapped. */
  lemma HeardEarlier(results: seq<Part>, parts: seq<Part>, memories: seq<Memory>, tm: TextModel, n: nat, j: nat, q: nat,
                    g: string)
    requires StoredParts(results) && History(results, parts, memories, tm) && |memories| == |parts| + 1
    requires j + 1 < n < |parts| && q < |parts[j].segments|
    requires Labelled(parts[j].segments[q]) && parts[j].segments[q].globalSpeaker == Some(g)
    ensures IsLabel(g) && LabelNumber(g) < memories[n - 1].next
  {
    hide History, StoredParts, IsLabel, LabelNumber;
    assert Heard(parts, j, g);
    HeardIsNumbered(results, parts, memories, tm, j, g);
    NextGrows(results, parts, memories, tm, j + 1, n - 1);
  }

  /** One decision of the last merge. */
  lemma DecisionCarries(results: seq<Part>, parts: seq<Part>, memories: seq<Memory>, tm: TextModel,
                        ws: seq<WindowSpec>, k: nat)
    requires FreshRun(results, parts, memories, tm, ws) && parts != [] && k < |LastDecisions(parts, tm)|
    requires AllCarry(Transcript(parts[..|parts| - 1], tm), parts[..|parts| - 1])
    ensures var d := LastDecisions(parts, tm)[k];
            && Carries(Resolve(d, tm), parts)
            && (Disagree(d.primary, d.other, tm) || d.other.alternate.None?)
  {
    hide FreshRun, Same, Disagree, MergeDecisions, Transcript, Carries, Overlap, Conflicts;
    var n := |parts| - 1;
    var before := Transcript(parts[..n], tm);
    var d := LastDecisions(parts, tm)[k];
    var m := DecidedPair(before, parts[n].segments, WindowBefore(parts, n), parts[n].window, tm, k);
    var a, b := before[m.left], parts[n].segments[m.right];
    assert Carries(a, parts[..n]);
    RunFacts(results, parts, memories, tm, ws);
    PartFacts(results, parts, memories, tm, ws, n);
    PartFacts(results, parts, memories, tm, ws, n - 1);
    CarrierLabelled(results, parts, memories, tm, ws, a);
    SameSymmetric(a, b);
    PairCarries(a, b, parts);
    if d.other.alternate.Some? && !Disagree(d.primary, d.other, tm) {
      CarrierStays(results, parts, memories, tm, ws, a, m.right);
      assert false;
    }
  }

  lemma CarrierLabelled(results: seq<Part>, parts: seq<Part>, memories: seq<Memory>, tm: TextModel,
                        ws: seq<WindowSpec>, a: Segment)
    requires FreshRun(results, parts, memories, tm, ws) && parts != [] && Carries(a, parts[..|parts| - 1])
    ensures Labelled(a)
  {
    hide FreshRun, Same, IsLabel;
    var i, p, j, q :| CarriesAt(a, parts[..|parts| - 1], i, p, j, q);
    PartFacts(results, parts, memories, tm, ws, i);
  }

  /** No merge decides a conflict for an utterance that carries an alternate already. */
  ghost predicate NoSecondConflict(parts: seq<Part>, tm: TextModel) {
    parts == []
    || (NoSecondConflict(parts[..|parts| - 1], tm)
        && forall k :: 0 <= k < |LastDecisions(parts, tm)| ==> !SecondConflict(LastDecisions(parts, tm)[k], tm))
  }

  predicate SecondConflict(d: Decision, tm: TextModel) {
    Disagree(d.primary, d.other, tm) && d.primary.alternate.Some?
  }

  /** In a run over a recording that was not mapped before, an alternate is lost if and only if
      a second conflict overwrites it: no duplicate that is dropped carries one. */
  lemma {:induction false} OnlySecondConflictsLose(results: seq<Part>, parts: seq<Part>, memories: seq<Memory>,
                                                   tm: TextModel, ws: seq<WindowSpec>)
    requires FreshRun(results, parts, memories, tm, ws)
    ensures NeverLoses(parts, tm) <==> NoSecondConflict(parts, tm)
    ensures AllCarry(Transcript(parts, tm), parts)
    decreases |parts|
  {
    hide FreshRun, Transcript, LastDecisions, Disagree, Resolve, Carries;
    if parts != [] {
      var n := |parts| - 1;
      RunFacts(results, parts, memories, tm, ws);
      RunPrefix(results, parts, memories, tm, ws, n);
      OnlySecondConflictsLose(results, parts[..n], memories[..n + 1], tm, ws);
      forall k | 0 <= k < |LastDecisions(parts, tm)|
        ensures Carries(Resolve(LastDecisions(parts, tm)[k], tm), parts)
        ensures LosesAlternate(LastDecisions(parts, tm)[k], tm) == SecondConflict(LastDecisions(parts, tm)[k], tm)
      {
        DecisionCarries(results, parts, memories, tm, ws, k);
      }
      TranscriptCarries(results, parts, memories, tm, ws);
    } else {
      NothingSaid(tm);
    }
  }

  lemma TranscriptCarries(results: seq<Part>, parts: seq<Part>, memories: seq<Memory>, tm: TextModel,
                          ws: seq<WindowSpec>)
    requires FreshRun(results, parts, memories, tm, ws) && parts != []
    requires AllCarry(Transcript(parts[..|parts| - 1], tm), parts[..|parts| - 1])
    requires forall k :: 0 <= k < |LastDecisions(parts, tm)| ==>
               Carries(Resolve(LastDecisions(parts, tm)[k], tm), parts)
    ensures AllCarry(Transcript(parts, tm), parts)
  {
    hide FreshRun, Merge, MergeDecisions, Carries, Resolve;
    var n := |parts| - 1;
    PartFacts(results, parts, memories, tm, ws, n);
    forall i | 0 <= i < |Transcript(parts, tm)|
      ensures Carries(Transcript(parts, tm)[i], parts)
    {
      var s := Transcript(parts, tm)[i];
      MergeMember(Transcript(parts[..n], tm), parts[n].segments, WindowBefore(parts, n), parts[n].window, tm, s);
      if s in Transcript(parts[..n], tm) {
        CarriesLater(s, parts, n);
      } else if s in parts[n].segments {
        NewCarries(parts, s);
      } else {
        var k :| 0 <= k < |LastDecisions(parts, tm)| && s == Resolve(LastDecisions(parts, tm)[k], tm);
      }
    }
  }

  lemma NewCarries(parts: seq<Part>, s: Segment)
    requires parts != [] && s in parts[|parts| - 1].segments && s.alternate.None?
    ensures Carries(s, parts)
  {
    var n := |parts| - 1;
    var r :| 0 <= r < |parts[n].segments| && parts[n].segments[r] == s;
    assert CarriesAt(s, parts, n, r, 0, 0);
  }

  /** The exact condition for the transcript of a recording: nothing but duplicates is missing
      if and only if no second conflict is decided along the way. */
  lemma RecordingCompleteIff(results: seq<Part>, parts: seq<Part>, memories: seq<Memory>, tm: TextModel,
                             ws: seq<WindowSpec>)
    requires FreshRun(results, parts, memories, tm, ws)
    ensures OnlyDuplicatesMissing(parts, tm) <==> NoSecondConflict(parts, tm)
  {
    hide FreshRun, OnlyDuplicatesMissing, NoSecondConflict, NeverLoses;
    TranscriptCompleteIff(parts, tm);
    OnlySecondConflictsLose(results, parts, memories, tm, ws);
  }
}
