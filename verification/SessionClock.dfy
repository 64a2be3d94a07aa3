/** The positions of a streaming session in milliseconds, without its audio: the state machine
    behind linux/backend/speech_worker/session.py, and when what it sends on is misplaced. */
module SessionClock {
  import opened Wrappers

  /** A segment reported by the voice activity detector; -1 marks an open side. */
  datatype VadSegment = VadSegment(start: int, end: int)

  function Min(a: int, b: int): int { if a <= b then a else b }

  function Max(a: int, b: int): int { if a >= b then a else b }

  /** An open utterance: its reported start, and from when its audio was captured. */
  datatype Utterance = Utterance(startMs: int, captureMs: int)

  /** Positions only: the end of the stream, where the audio held now starts, where the
      session believes that the pre-roll starts, and the open utterance. */
  datatype Clock = Clock(offset: int, held: int, preRoll: int, utterance: Option<Utterance>)

  /** An event without its audio. */
  datatype Cue =
    | Opened(startMs: int, capturedFrom: Option<int>)
    | Said(startMs: int, endMs: int, fromMs: int, toMs: int, forced: bool)
    | Unheard(startMs: int, endMs: int, forced: bool)

  datatype Turn = Turn(clock: Clock, cues: seq<Cue>)

  /** More audio; an idle session keeps no more than the last `keep` milliseconds. */
  function Hear(c: Clock, ms: nat, keep: nat): Clock {
    var offset := c.offset + ms;
    if c.utterance.Some? then c.(offset := offset)
    else
      var held := Max(c.held, offset - keep);
      Clock(offset, held, held, None)
  }

  /** An utterance opens, with the audio held since its start. */
  function Open(c: Clock, ms: int): Turn {
    var start := Min(ms, c.offset);
    var capture := Max(start, c.preRoll);
    Turn(Clock(c.offset, Max(capture, c.held), c.offset, Some(Utterance(start, capture))),
         [Opened(start, if capture == start then None else Some(capture))])
  }

  /** The open utterance closes: dropped if it ends before it starts, else its audio is
      sent on and the last `keep` milliseconds after it are held. */
  function Close(c: Clock, ms: int, forced: bool, keep: nat): Turn
    requires c.utterance.Some?
  {
    var u := c.utterance.value;
    var end := Min(ms, c.offset);
    if end <= u.startMs then Turn(Clock(c.offset, c.offset, c.preRoll, None), [])
    else
      var cut := if end <= u.captureMs then c.held else Min(c.offset, end + c.held - u.captureMs);
      var held := Max(cut, c.offset - keep);
      Turn(Clock(c.offset, held, held, None),
           [if c.held < cut then Said(u.startMs, end, c.held, cut, forced) else Unheard(u.startMs, end, forced)])
  }

  /** One segment of the detector: its start opens an utterance unless one is open, and its
      end closes the open one. */
  function Detect(c: Clock, segment: VadSegment, keep: nat): Turn {
    var start := if segment.start >= 0 && c.utterance.None? then Open(c, segment.start) else Turn(c, []);
    if segment.end >= 0 && start.clock.utterance.Some? then
      var closed := Close(start.clock, segment.end, false, keep);
      Turn(closed.clock, start.cues + closed.cues)
    else start
  }

  /** A detector reports times from its own beginning. */
  function Shift(segment: VadSegment, base: int): VadSegment {
    VadSegment(if segment.start >= 0 then segment.start + base else -1,
               if segment.end >= 0 then segment.end + base else -1)
  }

  function DetectAll(c: Clock, segments: seq<VadSegment>, base: int, keep: nat): Turn {
    if segments == [] then Turn(c, [])
    else
      var n := |segments| - 1;
      var before := DetectAll(c, segments[..n], base, keep);
      var last := Detect(before.clock, Shift(segments[n], base), keep);
      Turn(last.clock, before.cues + last.cues)
  }

  /** The last segments of the detector; an utterance that is still open closes at the end. */
  function EndOfStream(c: Clock, segments: seq<VadSegment>, base: int, keep: nat): Turn {
    var seen := DetectAll(c, segments, base, keep);
    if seen.clock.utterance.None? then seen
    else
      var last := Close(seen.clock, seen.clock.offset, true, keep);
      Turn(last.clock, seen.cues + last.cues)
  }

  predicate Possible(segment: VadSegment) { segment.start >= -1 && segment.end >= -1 }

  /** The segments before the first impossible one. */
  function PossiblePrefix(segments: seq<VadSegment>): (n: nat)
    ensures n <= |segments| && (forall k :: 0 <= k < n ==> Possible(segments[k]))
            && (n < |segments| ==> !Possible(segments[n]))
  {
    if segments == [] then 0
    else
      var n := PossiblePrefix(segments[..|segments| - 1]);
      if n == |segments| - 1 && Possible(segments[n]) then n + 1 else n
  }

  lemma DetectOneMore(c: Clock, segments: seq<VadSegment>, i: nat, base: int, keep: nat)
    requires i < |segments|
    ensures var before := DetectAll(c, segments[..i], base, keep);
            var last := Detect(before.clock, Shift(segments[i], base), keep);
            DetectAll(c, segments[..i + 1], base, keep) == Turn(last.clock, before.cues + last.cues)
  {
    assert segments[..i + 1][..i] == segments[..i];
  }

  function HearAll(c: Clock, chunks: seq<nat>, keep: nat): Clock {
    if chunks == [] then c else Hear(HearAll(c, chunks[..|chunks| - 1], keep), chunks[|chunks| - 1], keep)
  }

  function Total(chunks: seq<nat>): nat {
    if chunks == [] then 0 else Total(chunks[..|chunks| - 1]) + chunks[|chunks| - 1]
  }

  /** How the audio is cut into chunks does not matter. */
  lemma {:induction false} ChunksDoNotMatter(c: Clock, chunks: seq<nat>, keep: nat)
    requires chunks != []
    ensures HearAll(c, chunks, keep) == Hear(c, Total(chunks), keep)
  {
    var n := |chunks| - 1;
    if n > 0 {
      ChunksDoNotMatter(c, chunks[..n], keep);
    } else {
      assert chunks[..0] == [];
    }
  }

  /** A session without an utterance whose positions agree. */
  predicate Aligned(c: Clock) { c.utterance.None? && c.preRoll == c.held <= c.offset }

  /** A start reported late is made up for: however the audio arrives, an utterance is sent on
      whole if its start is not further back than the pre-roll and not before the end of the one
      before it; otherwise what is missing is exactly what lies before those two bounds. */
  lemma DelayedStart(c: Clock, chunks: seq<nat>, start: int, more: seq<nat>, end: int, keep: nat)
    requires Aligned(c) && chunks != [] && more != []
    requires start <= c.offset + Total(chunks) && start < end <= c.offset + Total(chunks) + Total(more)
    ensures var heard := HearAll(c, chunks, keep);
            var later := HearAll(Open(heard, start).clock, more, keep);
            var from := Max(start, Max(c.held, c.offset + Total(chunks) - keep));
            && later.utterance.Some?
            && Close(later, end, false, keep).cues
              == [if from < end then Said(start, end, from, end, false) else Unheard(start, end, false)]
            && Aligned(Close(later, end, false, keep).clock)
  {
    ChunksDoNotMatter(c, chunks, keep);
    ChunksDoNotMatter(Open(HearAll(c, chunks, keep), start).clock, more, keep);
  }

  // ----- a whole session -----

  /** One call: audio and then the segments that the detector reports (up to an impossible
      one), or the last segments at the end of the stream. */
  datatype Input = Pushed(ms: nat, segments: seq<VadSegment>) | Ended(segments: seq<VadSegment>)

  function Call(c: Clock, input: Input, base: int, keep: nat): Turn {
    match input
    case Pushed(ms, segments) => DetectAll(if ms > 0 then Hear(c, ms, keep) else c, segments, base, keep)
    case Ended(segments) => EndOfStream(c, segments, base, keep)
  }

  /** All calls of a session whose stream starts at `base`. */
  function Session(inputs: seq<Input>, base: int, keep: nat): Turn {
    if inputs == [] then Turn(Clock(base, base, base, None), [])
    else
      var n := |inputs| - 1;
      var before := Session(inputs[..n], base, keep);
      var last := Call(before.clock, inputs[n], base, keep);
      Turn(last.clock, before.cues + last.cues)
  }

  lemma SessionOneMore(inputs: seq<Input>, input: Input, base: int, keep: nat)
    ensures var before := Session(inputs, base, keep);
            var last := Call(before.clock, input, base, keep);
            Session(inputs + [input], base, keep) == Turn(last.clock, before.cues + last.cues)
  {
    assert (inputs + [input])[..|inputs|] == inputs;
  }

  // ----- what a listener may expect of the cues -----

  /** What the cues so far announced: no utterance, or one with its start and with the time
      from which its audio was captured. A start that follows another one means that the
      earlier utterance was dropped. Misplaced: some utterance did not carry exactly the
      stream from the announced capture start to its end. */
  datatype Story = Idle | Speaking(startMs: int, captureMs: int) | Misplaced

  function Hears(story: Story, cue: Cue): Story {
    if story.Misplaced? then Misplaced
    else match cue
      case Opened(start, capturedFrom) => Speaking(start, if capturedFrom.Some? then capturedFrom.value else start)
      case Said(start, end, from, to, _) =>
        if story.Speaking? && story.startMs == start && story.captureMs == from < to == end then Idle else Misplaced
      case Unheard(start, end, _) =>
        if story.Speaking? && story.startMs == start < end <= story.captureMs then Idle else Misplaced
  }

  function Follow(story: Story, cues: seq<Cue>): Story {
    if cues == [] then story else Hears(Follow(story, cues[..|cues| - 1]), cues[|cues| - 1])
  }

  lemma {:induction false} FollowAppend(story: Story, a: seq<Cue>, b: seq<Cue>)
    ensures Follow(story, a + b) == Follow(Follow(story, a), b)
  {
    if b == [] {
      assert a + b == a;
    } else {
      FollowAppend(story, a, b[..|b| - 1]);
      assert (a + b)[..|a + b| - 1] == a + b[..|b| - 1];
    }
  }

  lemma FollowOne(story: Story, cue: Cue)
    ensures Follow(story, [cue]) == Hears(story, cue) && Follow(story, []) == story
  {
    assert [cue][..0] == [];
  }

  // ----- when an utterance is misplaced -----

  /** What to watch in the detector's reports, with nothing but the length of the stream at
      each of them. Fallen: an utterance, opened when the stream was `openedAt` long, was
      dropped because its end is not after its start, and nothing happened since. Underway
      with `lostUpTo`: it was opened just after such a fall, with a start before the end of
      the stream, and the stream had grown before the fall; it is misplaced if it ends after
      that time. */
  datatype Watch = Calm | Underway(openedAt: int, startMs: int, lostUpTo: Option<int>) | Fallen(openedAt: int) | Alarm

  function WatchAudio(w: Watch): Watch { if w.Fallen? then Calm else w }

  function WatchStart(w: Watch, ms: int, offset: int): Watch {
    var start := Min(ms, offset);
    match w
    case Calm => Underway(offset, start, None)
    case Fallen(at) => Underway(offset, start, if at < offset && start < offset then Some(Max(start, at)) else None)
    case _ => w
  }

  function WatchEnd(w: Watch, ms: int, offset: int): Watch {
    var end := Min(ms, offset);
    match w
    case Underway(at, start, lost) => if end <= start then Fallen(at)
         else if lost.Some? && end > lost.value then Alarm else Calm
    case _ => w
  }

  function WatchSegment(w: Watch, segment: VadSegment, offset: int): Watch {
    var start := if segment.start >= 0 then WatchStart(w, segment.start, offset) else w;
    if segment.end >= 0 then WatchEnd(start, segment.end, offset) else start
  }

  function WatchAll(w: Watch, segments: seq<VadSegment>, base: int, offset: int): Watch {
    if segments == [] then w
    else WatchSegment(WatchAll(w, segments[..|segments| - 1], base, offset), Shift(segments[|segments| - 1], base),
                      offset)
  }

  datatype Watched = Watched(watch: Watch, offset: int)

  function WatchCall(x: Watched, input: Input, base: int): Watched {
    match input
    case Pushed(ms, segments) =>
      var offset := x.offset + ms;
      Watched(WatchAll(if ms > 0 then WatchAudio(x.watch) else x.watch, segments, base, offset), offset)
    case Ended(segments) => Watched(WatchEnd(WatchAll(x.watch, segments, base, x.offset), x.offset, x.offset), x.offset)
  }

  function WatchSession(inputs: seq<Input>, base: int): Watched {
    if inputs == [] then Watched(Calm, base)
    else WatchCall(WatchSession(inputs[..|inputs| - 1], base), inputs[|inputs| - 1], base)
  }

  /** What the watch knows of the positions and of the cues. */
  predicate Agrees(w: Watch, c: Clock, story: Story) {
    && c.preRoll <= c.offset && c.held <= c.offset
    && (w.Alarm? <==> story.Misplaced?)
    && match w
       case Alarm => true
       case Calm => Aligned(c)
       case Fallen(at) => c.utterance.None? && c.held == c.offset && c.preRoll == at
       case Underway(at, start, lost) =>
         && c.utterance.Some? && c.preRoll == at
         && c.utterance.value.startMs == start <= c.utterance.value.captureMs <= at
         && story == Speaking(start, c.utterance.value.captureMs)
         && (if lost.Some? then c.utterance.value.captureMs == lost.value < c.held == at
             else c.held == c.utterance.value.captureMs)
  }

  lemma AgreesHear(w: Watch, c: Clock, story: Story, ms: nat, keep: nat)
    requires Agrees(w, c, story) && ms > 0
    ensures Agrees(WatchAudio(w), Hear(c, ms, keep), story)
  {
  }

  lemma AgreesOpen(w: Watch, c: Clock, story: Story, ms: int)
    requires Agrees(w, c, story) && c.utterance.None?
    ensures Agrees(WatchStart(w, ms, c.offset), Open(c, ms).clock, Follow(story, Open(c, ms).cues))
  {
    FollowOne(story, Open(c, ms).cues[0]);
  }

  lemma AgreesClose(w: Watch, c: Clock, story: Story, ms: int, forced: bool, keep: nat)
    requires Agrees(w, c, story) && c.utterance.Some?
    ensures Agrees(WatchEnd(w, ms, c.offset), Close(c, ms, forced, keep).clock,
                   Follow(story, Close(c, ms, forced, keep).cues))
  {
    var cues := Close(c, ms, forced, keep).cues;
    if cues != [] {
      FollowOne(story, cues[0]);
    }
  }

  lemma AgreesDetect(w: Watch, c: Clock, story: Story, segment: VadSegment, keep: nat)
    requires Agrees(w, c, story)
    ensures var t := Detect(c, segment, keep); Agrees(WatchSegment(w, segment, c.offset), t.clock,
                                                      Follow(story, t.cues)) && t.clock.offset == c.offset
  {
    hide Agrees, Close;
    FollowOne(story, Opened(0, None));
    UnderwayIff(w, c, story);
    var start := if segment.start >= 0 && c.utterance.None? then Open(c, segment.start) else Turn(c, []);
    var v := if segment.start >= 0 then WatchStart(w, segment.start, c.offset) else w;
    if segment.start >= 0 && c.utterance.None? {
      AgreesOpen(w, c, story, segment.start);
    }
    UnderwayIff(v, start.clock, Follow(story, start.cues));
    if segment.end >= 0 && start.clock.utterance.Some? {
      AgreesClose(v, start.clock, Follow(story, start.cues), segment.end, false, keep);
      FollowAppend(story, start.cues, Close(start.clock, segment.end, false, keep).cues);
      CloseOffset(start.clock, segment.end, false, keep);
    }
  }

  /** Unless an utterance was misplaced, the watch knows whether one is open. */
  lemma UnderwayIff(w: Watch, c: Clock, story: Story)
    requires Agrees(w, c, story)
    ensures !w.Alarm? ==> (w.Underway? <==> c.utterance.Some?)
  {
  }

  lemma CloseOffset(c: Clock, ms: int, forced: bool, keep: nat)
    requires c.utterance.Some?
    ensures Close(c, ms, forced, keep).clock.offset == c.offset
  {
  }

  lemma {:induction false} AgreesDetectAll(w: Watch, c: Clock, story: Story, segments: seq<VadSegment>, base: int,
                                           keep: nat)
    requires Agrees(w, c, story)
    ensures var t := DetectAll(c, segments, base, keep);
            Agrees(WatchAll(w, segments, base, c.offset), t.clock, Follow(story, t.cues)) && t.clock.offset == c.offset
  {
    hide Agrees, Detect, WatchSegment;
    if segments == [] {
      assert Follow(story, []) == story;
    } else {
      var n := |segments| - 1;
      AgreesDetectAll(w, c, story, segments[..n], base, keep);
      var before := DetectAll(c, segments[..n], base, keep);
      var last := Detect(before.clock, Shift(segments[n], base), keep);
      AgreesDetect(WatchAll(w, segments[..n], base, c.offset), before.clock, Follow(story, before.cues),
                   Shift(segments[n], base), keep);
      FollowAppend(story, before.cues, last.cues);
    }
  }

  lemma AgreesCall(x: Watched, c: Clock, story: Story, input: Input, base: int, keep: nat)
    requires Agrees(x.watch, c, story) && x.offset == c.offset
    ensures var t := Call(c, input, base, keep);
            Agrees(WatchCall(x, input, base).watch, t.clock, Follow(story, t.cues))
              && t.clock.offset == WatchCall(x, input, base).offset
  {
    hide Agrees, DetectAll, WatchAll, Close;
    match input
    case Pushed(ms, segments) =>
      if ms > 0 {
        AgreesHear(x.watch, c, story, ms, keep);
      }
      AgreesDetectAll(if ms > 0 then WatchAudio(x.watch) else x.watch, if ms > 0 then Hear(c, ms, keep) else c, story,
                      segments, base, keep);
    case Ended(segments) =>
      AgreesDetectAll(x.watch, c, story, segments, base, keep);
      var seen := DetectAll(c, segments, base, keep);
      UnderwayIff(WatchAll(x.watch, segments, base, c.offset), seen.clock, Follow(story, seen.cues));
      if seen.clock.utterance.Some? {
        AgreesClose(WatchAll(x.watch, segments, base, c.offset), seen.clock, Follow(story, seen.cues),
                    seen.clock.offset, true, keep);
        FollowAppend(story, seen.cues, Close(seen.clock, seen.clock.offset, true, keep).cues);
        CloseOffset(seen.clock, seen.clock.offset, true, keep);
      }
  }

  lemma {:induction false} AgreesSession(inputs: seq<Input>, base: int, keep: nat)
    ensures var t := Session(inputs, base, keep);
            Agrees(WatchSession(inputs, base).watch, t.clock, Follow(Idle, t.cues))
              && t.clock.offset == WatchSession(inputs, base).offset
  {
    hide Call, WatchCall;
    if inputs == [] {
      assert Follow(Idle, []) == Idle;
    } else {
      hide Agrees;
      var n := |inputs| - 1;
      AgreesSession(inputs[..n], base, keep);
      var before := Session(inputs[..n], base, keep);
      var last := Call(before.clock, inputs[n], base, keep);
      AgreesCall(WatchSession(inputs[..n], base), before.clock, Follow(Idle, before.cues), inputs[n], base, keep);
      FollowAppend(Idle, before.cues, last.cues);
    }
  }

  /** Over a whole session every utterance carries exactly the stream from the announced capture
      start to its end, if and only if the watch on the detector's reports never alarms. */
  lemma MisplacedIff(inputs: seq<Input>, base: int, keep: nat)
    ensures Follow(Idle, Session(inputs, base, keep).cues) == Misplaced <==> WatchSession(inputs, base).watch == Alarm
  {
    AgreesSession(inputs, base, keep);
  }

  /** It happens: an utterance opens, more audio arrives, its end is reported before its start,
      and the next one starts in the same report before the end of the stream. */
  lemma AlarmReachable(keep: nat)
    ensures var inputs := [Pushed(100, [VadSegment(100, -1)]), Pushed(100, [VadSegment(-1, 50), VadSegment(120, -1)]),
                           Pushed(200, [VadSegment(-1, 300)])];
            && WatchSession(inputs, 0).watch == Alarm && Follow(Idle, Session(inputs, 0, keep).cues) == Misplaced
  {
    var a, b, c := Pushed(100, [VadSegment(100, -1)]), Pushed(100, [VadSegment(-1, 50), VadSegment(120, -1)]),
                   Pushed(200, [VadSegment(-1, 300)]);
    var inputs := [a, b, c];
    assert inputs[..2] == [a, b] && [a, b][..1] == [a] && [a][..0] == [];
    assert b.segments[..1] == [VadSegment(-1, 50)] && b.segments[..1][..0] == [];
    assert a.segments[..0] == [] && c.segments[..0] == [];
    assert WatchSession([a], 0) == Watched(Underway(100, 100, None), 100);
    assert WatchAll(Underway(100, 100, None), [VadSegment(-1, 50)], 0, 200) == Fallen(100);
    assert WatchSession([a, b], 0) == Watched(Underway(200, 120, Some(120)), 200);
    MisplacedIff(inputs, 0, keep);
  }

  // ----- sessions without a fall -----

  predicate EndsAfterStart(w: Watch, segment: VadSegment, offset: int) {
    var start := if segment.start >= 0 then WatchStart(w, segment.start, offset) else w;
    segment.end >= 0 && start.Underway? ==> Min(segment.end, offset) > start.startMs
  }

  /** Each end that closes an utterance is after its start, as far as the stream reaches. */
  predicate AllEndAfterStart(w: Watch, segments: seq<VadSegment>, base: int, offset: int) {
    segments == []
    || (AllEndAfterStart(w, segments[..|segments| - 1], base, offset)
        && EndsAfterStart(WatchAll(w, segments[..|segments| - 1], base, offset), Shift(segments[|segments| - 1], base),
                          offset))
  }

  predicate NeverFalls(inputs: seq<Input>, base: int) {
    inputs == []
    || (NeverFalls(inputs[..|inputs| - 1], base)
        && var x := WatchSession(inputs[..|inputs| - 1], base);
        match inputs[|inputs| - 1]
        case Pushed(ms, segments) => AllEndAfterStart(if ms > 0 then WatchAudio(x.watch) else x.watch, segments, base,
                                                      x.offset + ms)
        case Ended(segments) => AllEndAfterStart(x.watch, segments, base, x.offset))
  }

  /** Calm, or underway without a loss. */
  predicate Safe(w: Watch) { w.Calm? || (w.Underway? && w.lostUpTo.None?) }

  lemma {:induction false} AllSafe(w: Watch, segments: seq<VadSegment>, base: int, offset: int)
    requires Safe(w) && AllEndAfterStart(w, segments, base, offset)
    ensures Safe(WatchAll(w, segments, base, offset))
  {
    if segments != [] {
      AllSafe(w, segments[..|segments| - 1], base, offset);
    }
  }

  /** When no utterance ends before it starts, nothing is misplaced. */
  lemma {:induction false} NeverFallsIsExact(inputs: seq<Input>, base: int, keep: nat)
    requires NeverFalls(inputs, base) && forall k :: 0 <= k < |inputs| - 1 ==> inputs[k].Pushed?
    ensures inputs == [] || inputs[|inputs| - 1].Pushed? ==> Safe(WatchSession(inputs, base).watch)
    ensures Follow(Idle, Session(inputs, base, keep).cues) != Misplaced
  {
    hide Follow, Session;
    MisplacedIff(inputs, base, keep);
    if inputs != [] {
      var n := |inputs| - 1;
      assert forall k :: 0 <= k < n ==> inputs[..n][k] == inputs[k];
      NeverFallsIsExact(inputs[..n], base, keep);
      var x := WatchSession(inputs[..n], base);
      if inputs[n].Pushed? {
        AllSafe(if inputs[n].ms > 0 then WatchAudio(x.watch) else x.watch, inputs[n].segments, base,
                x.offset + inputs[n].ms);
      } else {
        AllSafe(x.watch, inputs[n].segments, base, x.offset);
      }
    }
  }

  // ----- where the detector begins -----

  /** The same segments, all reported later. */
  function Later(segments: seq<VadSegment>, delay: nat): seq<VadSegment> {
    seq(|segments|, k requires 0 <= k < |segments| =>
          VadSegment(if segments[k].start >= 0 then segments[k].start + delay else segments[k].start,
                     if segments[k].end >= 0 then segments[k].end + delay else segments[k].end))
  }

  /** A detector that begins later by some time is one that reports everything later by it. */
  lemma {:induction false} BaseIsOffset(c: Clock, segments: seq<VadSegment>, base: int, delay: nat, keep: nat)
    ensures DetectAll(c, Later(segments, delay), base, keep) == DetectAll(c, segments, base + delay, keep)
  {
    hide Detect;
    if segments != [] {
      var n := |segments| - 1;
      BaseIsOffset(c, segments[..n], base, delay, keep);
      assert Later(segments, delay)[..n] == Later(segments[..n], delay);
    }
  }

  // ----- bounds -----

  predicate CueWithin(cue: Cue, offset: int) { cue.Said? ==> cue.fromMs < cue.toMs <= offset }

  predicate CuesWithin(cues: seq<Cue>, offset: int) { forall k :: 0 <= k < |cues| ==> CueWithin(cues[k], offset) }

  /** Nothing is sent on that was not received yet. */
  lemma {:induction false} DetectAllWithin(c: Clock, segments: seq<VadSegment>, base: int, keep: nat)
    ensures var t := DetectAll(c, segments, base, keep); CuesWithin(t.cues, c.offset) && t.clock.offset == c.offset
  {
    if segments != [] {
      DetectAllWithin(c, segments[..|segments| - 1], base, keep);
    }
  }

  lemma CallWithin(c: Clock, input: Input, base: int, keep: nat)
    ensures var t := Call(c, input, base, keep); CuesWithin(t.cues, t.clock.offset)
  {
    hide DetectAll;
    match input
    case Pushed(ms, segments) => DetectAllWithin(if ms > 0 then Hear(c, ms, keep) else c, segments, base, keep);
    case Ended(segments) => DetectAllWithin(c, segments, base, keep);
  }
}
