/** Speakers over a whole recording: what the calls of map_adjacent, window after window in
    `_merge` of linux/backend/moss_worker/supervisor.py, add up to. */
module SpeakerHistory {
  import opened Wrappers
  import opened Windowing
  import opened Segments
  import opened Sorting
  import Matching
  import opened SpeakerRemap
  import Assignment
  import opened Labels

  /** One finished window and its segments. */
  datatype Part = Part(id: string, segments: seq<Segment>, window: WindowSpec)

  /** What the store accepts as results: segments of their own window, one result a window. */
  predicate StoredParts(results: seq<Part>) {
    && (forall k, i :: 0 <= k < |results| && 0 <= i < |results[k].segments| ==>
        results[k].segments[i].windowId == results[k].id)
    && (forall k, n :: 0 <= k < n < |results| ==> results[k].id != results[n].id)
  }

  /** The state of the remapper between two calls. */
  datatype Memory = Memory(table: Table, next: nat)

  ghost predicate Sound(m: Memory) { TableBelow(m.table, m.next) }

  /** A call on segments that all have entries. */
  predicate Recalled(t: Table, current: seq<Segment>) { current != [] && AllKnown(t, current) }

  /** One successful call: from memory `m` to `m'`, labelling `current` as `output`. */
  ghost predicate Mapped(previous: seq<Segment>, current: seq<Segment>, output: seq<Segment>,
                         before: Option<WindowSpec>, window: WindowSpec, tm: TextModel, m: Memory, m': Memory)
  {
    && LabelsOk(previous) && LabelsOk(current)
    && Sound(m') && m.next <= m'.next
    && ReadBack(current, output, m'.table)
    && (Recalled(m.table, current) ==> m' == m)
    && (!Recalled(m.table, current) ==>
          exists d: Trail ::
              Remapped(d, previous, current, MatrixOf(previous, current, before, window, tm), m.table, m.next,
                       m'.table, m'.next))
  }

  function WindowBefore(parts: seq<Part>, n: nat): Option<WindowSpec>
    requires n <= |parts|
  {
    if n == 0 then None else Some(parts[n - 1].window)
  }

  function SegmentsBefore(parts: seq<Part>, n: nat): seq<Segment>
    requires n <= |parts|
  {
    if n == 0 then [] else parts[n - 1].segments
  }

  /** The n-th window was mapped after the labelled window before it. */
  ghost predicate MappedAt(results: seq<Part>, parts: seq<Part>, memories: seq<Memory>, tm: TextModel, n: nat)
    requires n < |parts| <= |results| && |memories| == |parts| + 1
  {
    && parts[n].id == results[n].id && parts[n].window == results[n].window
    && Mapped(SegmentsBefore(parts, n), results[n].segments, parts[n].segments, WindowBefore(parts, n),
              results[n].window, tm,
              memories[n], memories[n + 1])
  }

  /** A run of calls over the first |parts| results, and the memories between them. */
  ghost predicate History(results: seq<Part>, parts: seq<Part>, memories: seq<Memory>, tm: TextModel) {
    && |parts| <= |results| && |memories| == |parts| + 1
    && Sound(memories[0])
    && forall n :: 0 <= n < |parts| ==> MappedAt(results, parts, memories, tm, n)
  }

  lemma HistoryOneMore(results: seq<Part>, parts: seq<Part>, memories: seq<Memory>, tm: TextModel, part: Part,
                       m: Memory)
    requires History(results, parts, memories, tm) && |parts| < |results|
    requires part.id == results[|parts|].id && part.window == results[|parts|].window
    requires Mapped(SegmentsBefore(parts, |parts|), results[|parts|].segments, part.segments,
                    WindowBefore(parts, |parts|),
                    part.window, tm, memories[|parts|], m)
    ensures History(results, parts + [part], memories + [m], tm)
  {
    hide Mapped, Sound;
    forall n | 0 <= n < |parts|
      ensures MappedAt(results, parts + [part], memories + [m], tm, n)
    {
      assert MappedAt(results, parts, memories, tm, n);
    }
  }

  // ----- entries are permanent -----

  /** Every entry of `t` is an entry of `t'`. */
  ghost predicate Remembers(t: Table, t': Table) {
    forall w, l :: HasCell(t, w, l) ==> HasCell(t', w, l) && t'[w][l] == t[w][l]
  }

  predicate OfWindow(current: seq<Segment>, w: string) {
    forall i :: 0 <= i < |current| ==> current[i].windowId == w
  }

  lemma ExistingInWindow(t: Table, current: seq<Segment>, w: string, l: string)
    requires OfWindow(current, w)
    requires Occurs(current, w, l) && HasCell(t, w, l)
    ensures l in Existing(t, current) && Existing(t, current)[l] == t[w][l]
  {
    var n := |current| - 1;
    var i :| 0 <= i < |current| && current[i].windowId == w && current[i].localSpeaker == l;
    if current[n].localSpeaker != l {
      assert current[..n][i] == current[i];
      ExistingInWindow(t, current[..n], w, l);
    }
  }

  lemma MappedRemembers(previous: seq<Segment>, current: seq<Segment>, output: seq<Segment>,
                        before: Option<WindowSpec>, window: WindowSpec, tm: TextModel, m: Memory, m': Memory, w: string)
    requires OfWindow(current, w)
    requires Mapped(previous, current, output, before, window, tm, m, m')
    ensures Remembers(m.table, m'.table)
  {
    hide Existing, Stored, MatrixOf, Optimal, Locals, ReadBack, Pool, AllKnown;
    if !Recalled(m.table, current) {
      var d: Trail :| Remapped(d, previous, current, MatrixOf(previous, current, before, window, tm), m.table, m.next,
                               m'.table, m'.next);
      forall v, l | HasCell(m.table, v, l)
        ensures HasCell(m'.table, v, l) && m'.table[v][l] == m.table[v][l]
      {
        StoredCell(m.table, current, d.mapping, v, l);
        if Occurs(current, v, l) {
          ExistingInWindow(m.table, current, v, l);
        }
      }
    }
  }

  lemma {:induction false} MemoriesGrow(results: seq<Part>, parts: seq<Part>, memories: seq<Memory>, tm: TextModel,
                                        i: nat, j: nat)
    requires StoredParts(results) && History(results, parts, memories, tm) && i <= j <= |parts|
    ensures Sound(memories[j]) && memories[i].next <= memories[j].next
    ensures Remembers(memories[i].table, memories[j].table)
    decreases j
  {
    hide Sound, ReadBack, Remapped, MatrixOf, AllKnown;
    if j > 0 {
      assert MappedAt(results, parts, memories, tm, j - 1);
      if i < j {
        MemoriesGrow(results, parts, memories, tm, i, j - 1);
        MappedRemembers(SegmentsBefore(parts, j - 1), results[j - 1].segments, parts[j - 1].segments,
                        WindowBefore(parts, j - 1),
                        results[j - 1].window, tm, memories[j - 1], memories[j], results[j - 1].id);
      }
    }
  }

  /** What segment `i` of part `n` carries is its entry at the end of the run. */
  lemma LabelsAreFinal(results: seq<Part>, parts: seq<Part>, memories: seq<Memory>, tm: TextModel, n: nat, i: nat)
    requires StoredParts(results) && History(results, parts, memories, tm)
    requires n < |parts| && i < |results[n].segments|
    ensures |parts[n].segments| == |results[n].segments|
    ensures var s := results[n].segments[i];
            && HasCell(memories[|parts|].table, results[n].id, s.localSpeaker)
            && parts[n].segments[i] == LabelledBy(s, memories[|parts|].table[results[n].id][s.localSpeaker])
  {
    hide Remapped, MatrixOf, Sound;
    assert MappedAt(results, parts, memories, tm, n);
    MemoriesGrow(results, parts, memories, tm, n + 1, |parts|);
    var s := results[n].segments[i];
    assert Known(memories[n + 1].table, s);
    assert HasCell(memories[n + 1].table, results[n].id, s.localSpeaker);
  }

  /** Mapping the same results again from the memory a run left gives the same labels:
      a merge interrupted after the speaker state was saved can be repeated. */
  lemma RemappingTheRecording(results: seq<Part>, parts: seq<Part>, memories: seq<Memory>, tm: TextModel,
                              again: seq<Part>, memories': seq<Memory>, tm': TextModel)
    requires StoredParts(results) && History(results, parts, memories, tm) && |parts| == |results|
    requires History(results, again, memories', tm') && memories'[0].table == memories[|parts|].table
    ensures again == parts[..|again|]
  {
    hide MappedAt, StoredParts;
    forall n | 0 <= n < |again|
      ensures again[n] == parts[n]
    {
      SamePart(results, parts, memories, tm, again, memories', tm', n);
    }
  }

  /** Why a call of map_adjacent is refused. */
  predicate Refused(previous: seq<Segment>, current: seq<Segment>, before: Option<WindowSpec>, window: WindowSpec,
                    tm: TextModel, t: Table) {
    || !LabelsOk(previous) || !LabelsOk(current)
    || (!Recalled(t, current) && TooMany(MatrixOf(previous, current, before, window, tm), t, current))
  }

  /** Such a repetition is never refused. */
  lemma RepetitionIsAccepted(results: seq<Part>, parts: seq<Part>, memories: seq<Memory>, tm: TextModel,
                             again: seq<Part>, memories': seq<Memory>, tm': TextModel)
    requires StoredParts(results) && History(results, parts, memories, tm) && |parts| == |results|
    requires History(results, again, memories', tm') && memories'[0].table == memories[|parts|].table
    requires |again| < |results|
    ensures !Refused(SegmentsBefore(again, |again|), results[|again|].segments, WindowBefore(again, |again|),
                     results[|again|].window,
                     tm', memories'[|again|].table)
  {
    hide Remapped, MatrixOf, ReadBack, LabelsOk, TooMany, Sound;
    var n := |again|;
    var current := results[n].segments;
    RemappingTheRecording(results, parts, memories, tm, again, memories', tm');
    assert MappedAt(results, parts, memories, tm, n);
    assert SegmentsBefore(again, n) == SegmentsBefore(parts, n);
    if current == [] {
      NobodyNew(MatrixOf(SegmentsBefore(again, n), current, WindowBefore(again, n), results[n].window, tm'),
                memories'[n].table);
    } else {
      MemoriesGrow(results, again, memories', tm', 0, n);
      forall i | 0 <= i < |current|
        ensures Known(memories'[n].table, current[i])
      {
        LabelsAreFinal(results, parts, memories, tm, n, i);
        assert HasCell(memories'[n].table, results[n].id, current[i].localSpeaker);
      }
    }
  }

  lemma SamePart(results: seq<Part>, parts: seq<Part>, memories: seq<Memory>, tm: TextModel,
                 again: seq<Part>, memories': seq<Memory>, tm': TextModel, n: nat)
    requires StoredParts(results) && History(results, parts, memories, tm) && |parts| == |results|
    requires History(results, again, memories', tm') && memories'[0].table == memories[|parts|].table
    requires n < |again|
    ensures again[n] == parts[n]
  {
    hide Mapped, StoredParts, Sound;
    assert MappedAt(results, parts, memories, tm, n) && MappedAt(results, again, memories', tm', n);
    MappedLength(results, parts, memories, tm, n);
    MappedLength(results, again, memories', tm', n);
    MemoriesGrow(results, again, memories', tm', 0, |again|);
    forall i | 0 <= i < |results[n].segments|
      ensures again[n].segments[i] == parts[n].segments[i]
    {
      LabelsAreFinal(results, parts, memories, tm, n, i);
      LabelsAreFinal(results, again, memories', tm', n, i);
    }
    assert again[n].segments == parts[n].segments;
  }

  lemma MappedLength(results: seq<Part>, parts: seq<Part>, memories: seq<Memory>, tm: TextModel, n: nat)
    requires History(results, parts, memories, tm) && n < |parts|
    ensures |parts[n].segments| == |results[n].segments|
  {
    hide Remapped, MatrixOf, Sound;
    assert MappedAt(results, parts, memories, tm, n);
  }

  // ----- where labels come from -----

  /** No window of the results has been mapped before. */
  ghost predicate AllNew(t: Table, results: seq<Part>) {
    forall k, l :: 0 <= k < |results| ==> !HasCell(t, results[k].id, l)
  }

  lemma KeptFrom(t: Table, current: seq<Segment>, w: string, l: string)
    requires OfWindow(current, w) && l in Existing(t, current)
    ensures HasCell(t, w, l)
  {
    ExistingStored(t, current, l);
    var i :| 0 <= i < |current| && current[i].localSpeaker == l && Known(t, current[i]);
    assert current[i].windowId == w;
  }

  lemma NothingKept(t: Table, current: seq<Segment>, w: string)
    requires OfWindow(current, w) && forall l :: !HasCell(t, w, l)
    ensures Existing(t, current) == map[] && !Recalled(t, current)
  {
    forall l
      ensures l !in Existing(t, current)
    {
      if l in Existing(t, current) {
        KeptFrom(t, current, w, l);
        assert false;
      }
    }
    if current != [] {
      assert !HasCell(t, w, current[0].localSpeaker);
      assert !Known(t, current[0]);
    }
  }

  /** A call adds entries of its own window only. */
  lemma MappedElsewhere(previous: seq<Segment>, current: seq<Segment>, output: seq<Segment>,
                        before: Option<WindowSpec>, window: WindowSpec, tm: TextModel, m: Memory, m': Memory,
                        w: string, v: string, l: string)
    requires OfWindow(current, w) && v != w
    requires Mapped(previous, current, output, before, window, tm, m, m')
    ensures HasCell(m'.table, v, l) ==> HasCell(m.table, v, l)
  {
    hide Existing, Stored, MatrixOf, Optimal, Locals, ReadBack, Pool, AllKnown;
    if !Recalled(m.table, current) {
      var d: Trail :| Remapped(d, previous, current, MatrixOf(previous, current, before, window, tm), m.table, m.next,
                               m'.table, m'.next);
      StoredCell(m.table, current, d.mapping, v, l);
    }
  }

  lemma {:induction false} NotMappedYet(results: seq<Part>, parts: seq<Part>, memories: seq<Memory>, tm: TextModel,
                                        n: nat, k: nat, l: string)
    requires StoredParts(results) && History(results, parts, memories, tm) && AllNew(memories[0].table, results)
    requires n <= |parts| && n <= k < |results|
    ensures !HasCell(memories[n].table, results[k].id, l)
    decreases n
  {
    hide Mapped, Sound;
    if n > 0 {
      NotMappedYet(results, parts, memories, tm, n - 1, k, l);
      assert MappedAt(results, parts, memories, tm, n - 1);
      MappedElsewhere(SegmentsBefore(parts, n - 1), results[n - 1].segments, parts[n - 1].segments,
                      WindowBefore(parts, n - 1),
                      results[n - 1].window, tm, memories[n - 1], memories[n], results[n - 1].id, results[k].id, l);
    }
  }

  /** A segment's label has evidence in the window before, or its number was allocated by the call. */
  ghost predicate Origin(previous: seq<Segment>, current: seq<Segment>, s: Segment, tm: TextModel, before: nat,
                         after: nat) {
    && s.globalSpeaker.Some?
    && (Evidence(previous, current, tm, s.localSpeaker, s.globalSpeaker.value)
        || (IsLabel(s.globalSpeaker.value) && before <= LabelNumber(s.globalSpeaker.value) < after))
  }

  /** In a window mapped for the first time each local speaker has one label of its own,
      carried on from an utterance that agrees or numbered anew. */
  lemma FirstMapping(previous: seq<Segment>, current: seq<Segment>, output: seq<Segment>,
                     before: Option<WindowSpec>, window: WindowSpec, tm: TextModel, m: Memory, m': Memory, w: string)
    requires Sound(m) && OfWindow(current, w) && (forall l :: !HasCell(m.table, w, l))
    requires Mapped(previous, current, output, before, window, tm, m, m')
    ensures |output| == |current|
    ensures forall i, j :: 0 <= i < |current| && 0 <= j < |current| ==>
                             (output[i].globalSpeaker == output[j].globalSpeaker <==>
                              current[i].localSpeaker == current[j].localSpeaker)
    ensures forall i :: 0 <= i < |current| ==> Origin(previous, current, output[i], tm, m.next, m'.next)
  {
    hide Existing, Stored, MatrixOf, Optimal, Pool, Remapped, NewLocals, Evidence;
    NothingKept(m.table, current, w);
    var matrix := MatrixOf(previous, current, before, window, tm);
    var d: Trail :| Remapped(d, previous, current, matrix, m.table, m.next, m'.table, m'.next);
    SpeakersStayDistinct(d, previous, current, matrix, m.table, m.next, m'.table, m'.next);
    forall i | 0 <= i < |current|
      ensures current[i].localSpeaker in d.mapping
              && output[i] == LabelledBy(current[i], d.mapping[current[i].localSpeaker])
      ensures Origin(previous, current, output[i], tm, m.next, m'.next)
    {
      FirstEntry(previous, current, before, window, tm, m, m', d, w, i);
    }
  }

  lemma FirstEntry(previous: seq<Segment>, current: seq<Segment>, before: Option<WindowSpec>, window: WindowSpec,
                   tm: TextModel,
                   m: Memory, m': Memory, d: Trail, w: string, i: nat)
    requires Existing(m.table, current) == map[] && OfWindow(current, w) && i < |current|
    requires Remapped(d, previous, current, MatrixOf(previous, current, before, window, tm), m.table, m.next, m'.table,
                      m'.next)
    ensures var l := current[i].localSpeaker;
            && l in d.mapping && HasCell(m'.table, w, l) && m'.table[w][l] == d.mapping[l]
            && Origin(previous, current, LabelledBy(current[i], d.mapping[l]), tm, m.next, m'.next)
  {
    hide Stored, Optimal, MatrixOf, Evidence;
    var l := current[i].localSpeaker;
    assert l in Locals(current);
    StoredCell(m.table, current, d.mapping, w, l);
    assert Occurs(current, w, l);
    assert l in Assignment.Elements(d.locals);
    var matrix := MatrixOf(previous, current, before, window, tm);
    assert DecidedBy(d.mapping[l], l, d.best, matrix, d.next, m'.next);
    if d.mapping[l].confidence >= 0.85 {
      CarriedOnEvidence(d, previous, current, before, window, tm, m.table, m.next, m'.table, m'.next, l);
    }
  }

  /** One speaker in a new window, before it one label, and a vote that reaches the threshold. */
  lemma OneCandidate(d: Trail, previous: seq<Segment>, current: seq<Segment>, matrix: Assignment.Matrix, t: Table,
                     before: nat, t': Table, after: nat, l: string, g: string)
    requires Remapped(d, previous, current, matrix, t, before, t', after) && Existing(t, current) == map[]
    requires Locals(current) == {l} && l in matrix && matrix[l].Keys == {g} && Assignment.Cell(matrix, l, g) >= 0.85
    ensures l in d.locals && l in d.mapping && d.mapping[l].speaker == g
  {
    hide Stored, Decision, NoDuplicates;
    assert NewLocals(t, current) == {l};
    OnlyElement(d.locals, l);
    assert Pool(matrix, t, current) == {g};
    OnlyElement(d.globals, g);
    var a: Assignment.Mapping := map[l := g];
    assert Assignment.Injective(a) && Assignment.Within(a, d.locals, d.globals);
    assert [l][1..] == [];
    assert Assignment.Score([l], a, matrix) == Assignment.Cell(matrix, l, g);
    assert Assignment.Score([l], d.best, matrix) >= 0.85;
    assert l in d.best && d.best[l] == g;
    DecidedAt(d, current, matrix, t, after, l);
  }

  lemma DecidedAt(d: Trail, current: seq<Segment>, matrix: Assignment.Matrix, t: Table, after: nat, l: string)
    requires Decision(d.mapping, Existing(t, current), d.locals, d.best, matrix, d.next, after) && l in d.locals
    ensures l in d.mapping && DecidedBy(d.mapping[l], l, d.best, matrix, d.next, after)
  {
  }

  lemma OnlyElement(s: seq<string>, x: string)
    requires NoDuplicates(s) && Assignment.Elements(s) == {x}
    ensures s == [x]
  {
    Assignment.ElementsSize(s);
    assert s[0] in Assignment.Elements(s);
  }

  /** The only speaker of a new window takes the only label of the window before. */
  lemma OneSpeakerStays(previous: seq<Segment>, current: seq<Segment>, output: seq<Segment>,
                        before: Option<WindowSpec>, window: WindowSpec, tm: TextModel, m: Memory, m': Memory,
                        w: string, l: string, g: string)
    requires OfWindow(current, w) && (forall k :: !HasCell(m.table, w, k))
    requires Mapped(previous, current, output, before, window, tm, m, m')
    requires Locals(current) == {l} && PriorLabels(previous) == {g}
    requires Assignment.Cell(MatrixOf(previous, current, before, window, tm), l, g) >= 0.85
    ensures |output| == |current| && forall i :: 0 <= i < |current| ==> output[i].globalSpeaker == Some(g)
  {
    hide Existing, Stored, Optimal, Pool, Remapped, NewLocals, Votes, Matching.Pairs, Mean;
    NothingKept(m.table, current, w);
    var matrix := MatrixOf(previous, current, before, window, tm);
    var d: Trail :| Remapped(d, previous, current, matrix, m.table, m.next, m'.table, m'.next);
    OneCandidate(d, previous, current, matrix, m.table, m.next, m'.table, m'.next, l, g);
    forall i | 0 <= i < |current|
      ensures output[i].globalSpeaker == Some(g)
    {
      FirstEntry(previous, current, before, window, tm, m, m', d, w, i);
      assert current[i].localSpeaker in Locals(current);
    }
  }

  /** The same in the n-th window of a fresh recording. */
  lemma OneSpeakerStaysAt(results: seq<Part>, parts: seq<Part>, memories: seq<Memory>, tm: TextModel, n: nat,
                          l: string, g: string)
    requires StoredParts(results) && History(results, parts, memories, tm) && AllNew(memories[0].table, results)
    requires n < |parts| && Locals(results[n].segments) == {l} && PriorLabels(SegmentsBefore(parts, n)) == {g}
    requires Assignment.Cell(MatrixOf(SegmentsBefore(parts, n), results[n].segments, WindowBefore(parts, n),
                                      results[n].window, tm), l, g) >= 0.85
    ensures |parts[n].segments| == |results[n].segments|
    ensures forall i :: 0 <= i < |parts[n].segments| ==> parts[n].segments[i].globalSpeaker == Some(g)
  {
    hide Mapped, Sound, MatrixOf, PriorLabels, Locals;
    assert MappedAt(results, parts, memories, tm, n);
    forall k
      ensures !HasCell(memories[n].table, results[n].id, k)
    {
      NotMappedYet(results, parts, memories, tm, n, n, k);
    }
    OneSpeakerStays(SegmentsBefore(parts, n), results[n].segments, parts[n].segments, WindowBefore(parts, n),
                    results[n].window, tm, memories[n], memories[n + 1], results[n].id, l, g);
  }

  /** The n-th window of a fresh recording, mapped for the first time. */
  lemma FirstMappingAt(results: seq<Part>, parts: seq<Part>, memories: seq<Memory>, tm: TextModel, n: nat)
    requires StoredParts(results) && History(results, parts, memories, tm) && AllNew(memories[0].table, results)
    requires n < |parts|
    ensures |parts[n].segments| == |results[n].segments|
    ensures forall i, j :: 0 <= i < |parts[n].segments| && 0 <= j < |parts[n].segments| ==>
                             (parts[n].segments[i].globalSpeaker == parts[n].segments[j].globalSpeaker
                              <==> results[n].segments[i].localSpeaker == results[n].segments[j].localSpeaker)
    ensures forall i :: 0 <= i < |parts[n].segments| ==>
                          Origin(SegmentsBefore(parts, n), results[n].segments, parts[n].segments[i], tm,
                                 memories[n].next, memories[n + 1].next)
  {
    hide Mapped, Sound, Origin;
    assert MappedAt(results, parts, memories, tm, n);
    MemoriesGrow(results, parts, memories, tm, 0, n);
    forall l
      ensures !HasCell(memories[n].table, results[n].id, l)
    {
      NotMappedYet(results, parts, memories, tm, n, n, l);
    }
    FirstMapping(SegmentsBefore(parts, n), results[n].segments, parts[n].segments, WindowBefore(parts, n),
                 results[n].window, tm,
                 memories[n], memories[n + 1], results[n].id);
  }

  /** The label is heard in the n-th window. */
  predicate Heard(parts: seq<Part>, n: nat, g: string)
    requires n < |parts|
  {
    g in PriorLabels(parts[n].segments)
  }

  /** A label heard in a window has a number below that of the next label after it. */
  lemma HeardIsNumbered(results: seq<Part>, parts: seq<Part>, memories: seq<Memory>, tm: TextModel, n: nat, g: string)
    requires StoredParts(results) && History(results, parts, memories, tm)
    requires n < |parts| && Heard(parts, n, g)
    ensures IsLabel(g) && LabelNumber(g) < memories[n + 1].next
  {
    hide Remapped, MatrixOf;
    assert MappedAt(results, parts, memories, tm, n);
    var i :| 0 <= i < |parts[n].segments| && parts[n].segments[i].globalSpeaker == Some(g);
    var s := results[n].segments[i];
    assert Known(memories[n + 1].table, s);
    assert HasCell(memories[n + 1].table, s.windowId, s.localSpeaker);
  }

  /** A label is carried from window to window without a gap: one that is heard in two
      windows is heard in every window between them. A speaker who is silent for a whole
      window gets a new label. */
  lemma {:induction false} LabelsHaveNoGaps(results: seq<Part>, parts: seq<Part>, memories: seq<Memory>, tm: TextModel,
                                            k: nat, m: nat, n: nat, g: string)
    requires StoredParts(results) && History(results, parts, memories, tm) && AllNew(memories[0].table, results)
    requires k <= m <= n < |parts| && Heard(parts, k, g) && Heard(parts, n, g)
    ensures Heard(parts, m, g)
    decreases n
  {
    hide History, StoredParts, AllNew, Heard;
    if m < n {
      HeardBefore(results, parts, memories, tm, k, n, g);
      LabelsHaveNoGaps(results, parts, memories, tm, k, m, n - 1, g);
    }
  }

  lemma HistoryShape(results: seq<Part>, parts: seq<Part>, memories: seq<Memory>, tm: TextModel)
    requires History(results, parts, memories, tm)
    ensures |memories| == |parts| + 1 && |parts| <= |results|
  {
    hide MappedAt, Sound;
  }

  /** A label of an earlier window is carried on from the window just before. */
  lemma HeardBefore(results: seq<Part>, parts: seq<Part>, memories: seq<Memory>, tm: TextModel, k: nat, n: nat,
                    g: string)
    requires StoredParts(results) && History(results, parts, memories, tm) && AllNew(memories[0].table, results)
    requires k < n < |parts| && Heard(parts, k, g) && Heard(parts, n, g)
    ensures Heard(parts, n - 1, g)
  {
    hide History, StoredParts, AllNew, IsLabel, LabelNumber;
    HistoryShape(results, parts, memories, tm);
    HeardIsNumbered(results, parts, memories, tm, k, g);
    NextGrows(results, parts, memories, tm, k + 1, n);
    FirstMappingAt(results, parts, memories, tm, n);
    var i :| 0 <= i < |parts[n].segments| && parts[n].segments[i].globalSpeaker == Some(g);
    assert Origin(SegmentsBefore(parts, n), results[n].segments, parts[n].segments[i], tm, memories[n].next,
                  memories[n + 1].next);
  }

  lemma NextGrows(results: seq<Part>, parts: seq<Part>, memories: seq<Memory>, tm: TextModel, i: nat, j: nat)
    requires StoredParts(results) && History(results, parts, memories, tm) && i <= j <= |parts|
    ensures memories[i].next <= memories[j].next
  {
    MemoriesGrow(results, parts, memories, tm, i, j);
  }
}
