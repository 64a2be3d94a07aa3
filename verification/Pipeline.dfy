/** The scheduler and the merge of a recording together: what `_merge` of
    linux/backend/moss_worker/supervisor.py does with the files of a job. */
module Pipeline {
  import opened Wrappers
  import opened Windowing
  import opened RetriedPlans
  import opened Spool
  import opened Segments
  import opened SpeakerRemap
  import opened SpeakerHistory
  import opened Recording
  import opened SecondConflicts
  import opened Supervisor
  import opened Labels
  import Parser

  /** How the files stand for values: the speaker state, the results of the finished windows
      and the merged segments. */
  datatype Codec = Codec(
    readMemory: string -> Memory,
    writeMemory: Memory -> string,
    readParts: map<WindowId, WindowResult> -> seq<Part>,
    writeTranscript: seq<Segment> -> string)
  {
    /** Stored states are sound, and results are as the store accepts them. */
    ghost predicate Valid() {
      && (forall state :: Sound(readMemory(state)))
      && (forall results :: StoredParts(readParts(results)))
    }

    /** A speaker state is read back from its file as it was. */
    predicate Survives(m: Memory) { readMemory(writeMemory(m)) == m }
  }

  /** The files that a run over all results leaves. */
  ghost predicate Merges(codec: Codec, tm: TextModel, state: string, results: map<WindowId, WindowResult>,
                         parts: seq<Part>, memories: seq<Memory>, files: (string, string))
  {
    && History(codec.readParts(results), parts, memories, tm) && |parts| == |codec.readParts(results)|
    && PartsOf(parts, codec.readParts(results))
    && memories[0] == codec.readMemory(state)
    && files == (codec.writeMemory(memories[|parts|]), codec.writeTranscript(Transcript(parts, tm)))
  }

  /** A run that stops at a window whose mapping is refused. */
  ghost predicate Stops(codec: Codec, tm: TextModel, state: string, results: map<WindowId, WindowResult>,
                        parts: seq<Part>, memories: seq<Memory>)
  {
    var all := codec.readParts(results);
    && History(all, parts, memories, tm) && |parts| < |all| && memories[0] == codec.readMemory(state)
    && Refused(SegmentsBefore(parts, |parts|), all[|parts|].segments, WindowBefore(parts, |parts|), all[|parts|].window,
               tm, memories[|parts|].table)
  }

  ghost predicate Outcome(codec: Codec, tm: TextModel, state: string, results: map<WindowId, WindowResult>,
                          r: Option<(string, string)>)
  {
    match r
    case Some(files) => exists parts, memories :: Merges(codec, tm, state, results, parts, memories, files)
    case None => exists parts, memories :: Stops(codec, tm, state, results, parts, memories)
  }

  /** A supervisor's merging is that of the merge pipeline. */
  ghost predicate IsPipeline(merging: Merging, codec: Codec, tm: TextModel) {
    forall state, results :: Outcome(codec, tm, state, results, merging(state, results))
  }

  /** The segments of one parsed generation. */
  function SegmentsOf(valid: seq<Parser.Parsed>): seq<Segment> {
    seq(|valid|, i requires 0 <= i < |valid| => valid[i].segment)
  }

  /** Each result holds what the parser gives for the generated text of its window under the
      window's own identity. */
  ghost predicate Transcribes(results: seq<Part>, texts: seq<string>, sha: string) {
    && |texts| == |results|
    && (forall k, n :: 0 <= k < n < |results| ==> results[k].id != results[n].id)
    && forall k :: 0 <= k < |results| ==> TranscribesAt(results[k], texts[k], sha)
  }

  ghost predicate TranscribesAt(part: Part, text: string, sha: string) {
    && Parser.ValidWindow(part.window)
    && part.segments == SegmentsOf(Parser.Outcome(text, part.window, part.id, sha,
                                   Parser.Scan(text, 0, 0.0, Parser.Duration(part.window))).valid)
  }

  /** Whatever the model generates, parsed results are what the remapper and the merge demand:
      local speakers without labels, in their window, in order, without alternates. */
  lemma ParsedResultsFit(results: seq<Part>, texts: seq<string>, sha: string)
    requires Transcribes(results, texts, sha)
    ensures StoredParts(results) && ParsedInOrder(results)
    ensures forall k :: 0 <= k < |results| ==> LabelsOk(results[k].segments)
  {
    hide TranscribesAt, InOrder, InWindow, LabelsOk;
    forall k | 0 <= k < |results|
      ensures InOrder(results[k].segments) && LabelsOk(results[k].segments)
      ensures forall i :: 0 <= i < |results[k].segments| ==>
                var s := results[k].segments[i];
                s.windowId == results[k].id && InWindow(s, results[k].window) && s.alternate.None?
    {
      ParsedPartFits(results[k], texts[k], sha);
    }
  }

  lemma ParsedPartFits(part: Part, text: string, sha: string)
    requires TranscribesAt(part, text, sha)
    ensures InOrder(part.segments) && LabelsOk(part.segments)
    ensures forall i :: 0 <= i < |part.segments| ==>
              var s := part.segments[i];
              s.windowId == part.id && InWindow(s, part.window) && s.alternate.None?
  {
    hide Parser.Scan, Decimal, Parser.Grammar;
    var r := Parser.Scan(text, 0, 0.0, Parser.Duration(part.window));
    Parser.OutcomeIsFaithful(text, part.window, part.id, sha);
    forall i | 0 <= i < |part.segments|
      ensures var s := part.segments[i];
              && s.windowId == part.id && InWindow(s, part.window) && s.alternate.None?
              && IsLocalSpeaker(s.localSpeaker) && !Labelled(s)
    {
      Parser.SegmentInWindow(text, part.window, part.id, sha, i);
      Parser.SaidIsLocal(Parser.Publish(r.accepted[i], part.window, part.id, sha), text, part.window, part.id, sha);
    }
    forall i, j | 0 <= i < j < |part.segments|
      ensures part.segments[i].endMs <= part.segments[j].startMs
    {
      Parser.SegmentsOrdered(text, part.window, part.id, sha, i, j);
    }
  }

  /** _merge: the remapper resumes from the stored state, and both files come from one run. */
  method MergeFiles(codec: Codec, tm: TextModel, state: string, results: map<WindowId, WindowResult>)
    returns (r: Option<(string, string)>)
    requires codec.Valid()
    ensures Outcome(codec, tm, state, results, r)
  {
    hide History, Refused, Transcript, PartsOf;
    var memory := codec.readMemory(state);
    var remapper := new SpeakerRemapper.Load(memory.table, memory.next);
    ghost var parts, memories;
    var merged;
    merged, parts, memories := MergeRecording(remapper, codec.readParts(results), tm);
    if merged.Failure? {
      assert Stops(codec, tm, state, results, parts, memories);
      return None;
    }
    var files := (codec.writeMemory(Memory(remapper.windows, remapper.nextGlobalId)),
                  codec.writeTranscript(merged.value));
    assert Merges(codec, tm, state, results, parts, memories, files);
    return Some(files);
  }

  /** What a finished merge of a job left in its files is the transcript of its results, with
      labels; it lacks nothing but duplicates if and only if no merge lost an alternate. */
  lemma MergedFileIsTranscript(merging: Merging, codec: Codec, tm: TextModel, f: Files, g: Files)
    returns (parts: seq<Part>, memories: seq<Memory>)
    requires IsPipeline(merging, codec, tm)
    requires merging(f.speakerState, f.checkpoints) == Some((g.speakerState, g.merged))
    ensures Merges(codec, tm, f.speakerState, f.checkpoints, parts, memories, (g.speakerState, g.merged))
    ensures OnlyDuplicatesMissing(parts, tm) <==> NeverLoses(parts, tm)
  {
    hide OnlyDuplicatesMissing, NeverLoses, History, Transcript, PartsOf;
    assert Outcome(codec, tm, f.speakerState, f.checkpoints, merging(f.speakerState, f.checkpoints));
    parts, memories :| Merges(codec, tm, f.speakerState, f.checkpoints, parts, memories, (g.speakerState, g.merged));
    TranscriptCompleteIff(parts, tm);
  }

  /** On the windows of a plan, whatever was retried, that are longer than their two overlaps,
      the merged file of a job holds all that the stored results say, except duplicates. */
  lemma MergedFileKeepsAll(merging: Merging, codec: Codec, tm: TextModel, f: Files, g: Files,
                           plans: seq<seq<WindowSpec>>, durationMs: int, counter: Counter)
    returns (parts: seq<Part>, memories: seq<Memory>)
    requires IsPipeline(merging, codec, tm)
    requires merging(f.speakerState, f.checkpoints) == Some((g.speakerState, g.merged))
    requires PlanHistory(plans, durationMs, counter) && LongInside(plans[|plans| - 1])
    requires OnWindows(codec.readParts(f.checkpoints), plans[|plans| - 1]) && Parsed(codec.readParts(f.checkpoints))
    ensures Merges(codec, tm, f.speakerState, f.checkpoints, parts, memories, (g.speakerState, g.merged))
    ensures OnlyDuplicatesMissing(parts, tm)
  {
    hide OnlyDuplicatesMissing, NeverLoses, History, Transcript, Chain, IsPipeline, Parsed, OnWindows, PartsOf,
      PlanStep, IsPlan, LongInside;
    var ws := plans[|plans| - 1];
    PlansAreChains(plans, durationMs, counter, |plans| - 1);
    parts, memories := MergedFileIsTranscript(merging, codec, tm, f, g);
    LabelsKeepShape(parts, codec.readParts(f.checkpoints), ws);
    LongWindowsKeepAll(parts, ws, tm);
  }

  /** On the windows of any plan, the merged file of a job whose speakers were not mapped before
      lacks nothing but duplicates if and only if no second conflict was decided on the way. */
  lemma MergedFileCompleteIff(merging: Merging, codec: Codec, tm: TextModel, f: Files, g: Files,
                              plans: seq<seq<WindowSpec>>, durationMs: int, counter: Counter)
    returns (parts: seq<Part>, memories: seq<Memory>)
    requires IsPipeline(merging, codec, tm) && codec.Valid()
    requires merging(f.speakerState, f.checkpoints) == Some((g.speakerState, g.merged))
    requires AllNew(codec.readMemory(f.speakerState).table, codec.readParts(f.checkpoints))
    requires PlanHistory(plans, durationMs, counter) && OnWindows(codec.readParts(f.checkpoints), plans[|plans| - 1])
    requires ParsedInOrder(codec.readParts(f.checkpoints))
    ensures Merges(codec, tm, f.speakerState, f.checkpoints, parts, memories, (g.speakerState, g.merged))
    ensures OnlyDuplicatesMissing(parts, tm) <==> NoSecondConflict(parts, tm)
  {
    hide OnlyDuplicatesMissing, NoSecondConflict, NeverLoses, History, Transcript, Chain, IsPipeline, ParsedInOrder,
      OnWindows, PartsOf, PlanStep, IsPlan, AllNew, StoredParts;
    PlansAreChains(plans, durationMs, counter, |plans| - 1);
    parts, memories := MergedFileIsTranscript(merging, codec, tm, f, g);
    RecordingCompleteIff(codec.readParts(f.checkpoints), parts, memories, tm, plans[|plans| - 1]);
  }

  lemma LabelsKeepShape(parts: seq<Part>, results: seq<Part>, ws: seq<WindowSpec>)
    requires PartsOf(parts, results) && |parts| == |results| && OnWindows(results, ws) && Parsed(results)
    ensures OnWindows(parts, ws) && Parsed(parts)
  {
  }

  /** A merge that is interrupted after it saved the speaker state can be repeated from that
      state, if its file reads back: it is not refused and writes the same merged segments. */
  lemma InterruptedMergeRepeats(merging: Merging, codec: Codec, tm: TextModel, state: string,
                                results: map<WindowId, WindowResult>, parts: seq<Part>, memories: seq<Memory>)
    requires IsPipeline(merging, codec, tm) && codec.Valid()
    requires merging(state, results).Some?
    requires Merges(codec, tm, state, results, parts, memories, merging(state, results).value)
    requires codec.Survives(memories[|parts|])
    ensures var saved := merging(state, results).value;
            merging(saved.0, results).Some? && merging(saved.0, results).value.1 == saved.1
  {
    hide History, Transcript, StoredParts, Refused, PartsOf;
    var saved := merging(state, results).value;
    assert Outcome(codec, tm, saved.0, results, merging(saved.0, results));
    Repeats(codec, tm, state, results, parts, memories, saved, merging(saved.0, results));
  }

  lemma Repeats(codec: Codec, tm: TextModel, state: string, results: map<WindowId, WindowResult>,
                parts: seq<Part>, memories: seq<Memory>, saved: (string, string), again: Option<(string, string)>)
    requires codec.Valid() && Merges(codec, tm, state, results, parts, memories, saved)
    requires codec.Survives(memories[|parts|]) && Outcome(codec, tm, saved.0, results, again)
    ensures again.Some? && again.value.1 == saved.1
  {
    hide Transcript, StoredParts, Refused, MappedAt, PartsOf;
    var all := codec.readParts(results);
    if again.None? {
      var parts', memories' :| Stops(codec, tm, saved.0, results, parts', memories');
      RepetitionIsAccepted(all, parts, memories, tm, parts', memories', tm);
      assert false;
    } else {
      var parts', memories' :| Merges(codec, tm, saved.0, results, parts', memories', again.value);
      RepeatedMergeAgrees(all, parts, memories, parts', memories', tm);
    }
  }
}
