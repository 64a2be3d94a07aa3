/** The PCM slicing of linux/backend/speech_worker/session.py. The sample rate is a multiple
    of 1000, so that a millisecond is a whole number of bytes, and chunks are whole
    milliseconds. Recognition is left out: what is sent on is the utterance's audio. */
module SpeechSession {
  import opened Wrappers
  import opened Arithmetic
  import opened SessionClock

  datatype Event =
    | VadStart(startMs: int, capturedFrom: Option<int>)
    | Final(startMs: int, endMs: int, pcm: seq<bv8>, forced: bool)
    | VadEnd(startMs: int, endMs: int, forced: bool)

  /** Audio that was sent on: bytes `from` to `to` of the received stream. */
  datatype Slice = Slice(from: nat, to: nat)

  /** `p` is the last part of the stream `r`. */
  predicate IsSuffix(p: seq<bv8>, r: seq<bv8>) { |p| <= |r| && p == r[|r| - |p|..] }

  lemma SuffixLength(p: seq<bv8>, r: seq<bv8>)
    requires IsSuffix(p, r)
    ensures |p| <= |r|
  {
  }

  lemma SuffixGrows(p: seq<bv8>, r: seq<bv8>, more: seq<bv8>)
    requires IsSuffix(p, r)
    ensures IsSuffix(p + more, r + more)
  {
  }

  lemma SuffixShrinks(p: seq<bv8>, r: seq<bv8>, n: nat)
    requires IsSuffix(p, r) && n <= |p|
    ensures IsSuffix(p[n..], r) && |p[n..]| == |p| - n && p[..n] == r[|r| - |p|..|r| - |p| + n]
  {
  }

  /** `_ms_to_bytes`, for `bpm` bytes in a millisecond. */
  function MsToBytes(ms: int, bpm: nat): nat { if ms <= 0 then 0 else ms * bpm }

  function BytesToMs(size: nat, bpm: nat): nat
    requires bpm > 0
  {
    size / bpm
  }

  lemma MsToBytesAdd(a: nat, b: nat, bpm: nat)
    ensures MsToBytes(a + b, bpm) == MsToBytes(a, bpm) + MsToBytes(b, bpm)
  {
    assert (a + b) * bpm == a * bpm + b * bpm;
  }

  lemma MsToBytesMonotone(a: int, b: int, bpm: nat)
    requires a <= b
    ensures MsToBytes(a, bpm) <= MsToBytes(b, bpm)
  {
    if 0 < a {
      MsToBytesAdd(a, b - a, bpm);
    }
  }

  lemma BytesRoundTrip(ms: nat, bpm: nat)
    requires bpm > 0
    ensures BytesToMs(MsToBytes(ms, bpm), bpm) == ms
  {
    DivideExact(ms, bpm);
  }

  lemma MsToBytesOrder(a: nat, b: nat, bpm: nat)
    requires bpm > 0
    ensures MsToBytes(a, bpm) < MsToBytes(b, bpm) <==> a < b
  {
    if b <= a {
      MsToBytesMonotone(b, a, bpm);
    } else {
      MsToBytesAdd(a, b - a, bpm);
      MulGap(0, b - a, bpm);
    }
  }

  /** The slices do not overlap, stand in stream order, and end before byte `limit`. */
  ghost predicate InOrder(slices: seq<Slice>, limit: nat) {
    && (forall k :: 0 <= k < |slices| ==> slices[k].from <= slices[k].to <= limit)
    && (forall i, j :: 0 <= i < j < |slices| ==> slices[i].to <= slices[j].from)
  }

  /** The event of a cue, with its audio cut from the stream. */
  function EventOf(cue: Cue, r: seq<bv8>, base: int, bpm: nat): Event {
    match cue
    case Opened(start, from) => VadStart(start, from)
    case Unheard(start, end, forced) => VadEnd(start, end, forced)
    case Said(start, end, from, to, forced) =>
      var a, b := MsToBytes(from - base, bpm), MsToBytes(to - base, bpm);
      Final(start, end, if a <= b <= |r| then r[a..b] else [], forced)
  }

  function EventsOf(cues: seq<Cue>, r: seq<bv8>, base: int, bpm: nat): seq<Event> {
    seq(|cues|, k requires 0 <= k < |cues| => EventOf(cues[k], r, base, bpm))
  }

  lemma EventsOfAppend(a: seq<Cue>, b: seq<Cue>, r: seq<bv8>, base: int, bpm: nat)
    ensures EventsOf(a + b, r, base, bpm) == EventsOf(a, r, base, bpm) + EventsOf(b, r, base, bpm)
  {
  }

  /** What an event means to a listener who has received the stream `r` too: a final utterance
      must carry exactly the stream from the announced capture start to its end. */
  function Listens(story: Story, event: Event, r: seq<bv8>, base: int, bpm: nat): Story {
    if story.Misplaced? then Misplaced
    else match event
      case VadStart(start, capturedFrom) => Speaking(start, if capturedFrom.Some? then capturedFrom.value else start)
      case Final(start, end, pcm, _) =>
        if story.Speaking? && story.startMs == start && story.captureMs < end
          && IsCut(pcm, r, story.captureMs, end, base, bpm)
        then Idle else Misplaced
      case VadEnd(start, end, _) =>
        if story.Speaking? && story.startMs == start < end <= story.captureMs then Idle else Misplaced
  }

  /** `pcm` is the part of the stream between two times. */
  predicate IsCut(pcm: seq<bv8>, r: seq<bv8>, fromMs: int, toMs: int, base: int, bpm: nat) {
    var from, to := MsToBytes(fromMs - base, bpm), MsToBytes(toMs - base, bpm);
    from <= to <= |r| && pcm == r[from..to]
  }

  function Listen(story: Story, events: seq<Event>, r: seq<bv8>, base: int, bpm: nat): Story {
    if events == [] then story
    else Listens(Listen(story, events[..|events| - 1], r, base, bpm), events[|events| - 1], r, base, bpm)
  }

  lemma CueIsHeard(story: Story, cue: Cue, r: seq<bv8>, base: int, bpm: nat, offset: int)
    requires CueWithin(cue, offset) && MsToBytes(offset - base, bpm) <= |r|
    requires Hears(story, cue) != Misplaced
    ensures Listens(story, EventOf(cue, r, base, bpm), r, base, bpm) == Hears(story, cue)
  {
    hide MsToBytes;
    if cue.Said? {
      MsToBytesMonotone(cue.fromMs - base, cue.toMs - base, bpm);
      MsToBytesMonotone(cue.toMs - base, offset - base, bpm);
    }
  }

  /** Cues that are in place are heard as such in the events that they become. */
  lemma {:induction false} InPlaceIsHeard(story: Story, cues: seq<Cue>, r: seq<bv8>, base: int, bpm: nat, offset: int)
    requires CuesWithin(cues, offset) && MsToBytes(offset - base, bpm) <= |r|
    requires Follow(story, cues) != Misplaced
    ensures Listen(story, EventsOf(cues, r, base, bpm), r, base, bpm) == Follow(story, cues)
  {
    hide MsToBytes, Listens, EventOf;
    if cues != [] {
      var n := |cues| - 1;
      var events := EventsOf(cues, r, base, bpm);
      assert events[..n] == EventsOf(cues[..n], r, base, bpm) && events[n] == EventOf(cues[n], r, base, bpm);
      InPlaceIsHeard(story, cues[..n], r, base, bpm, offset);
      CueIsHeard(Follow(story, cues[..n]), cues[n], r, base, bpm, offset);
    }
  }

  datatype SessionError = AlreadyFinalized | IncompleteSample | NegativeBoundary

  class SpeechSession {
    const bpm: nat
    const preRollMs: nat
    const baseOffsetMs: nat
    var preRollPcm: seq<bv8>
    var currentUtterancePcm: seq<bv8>
    var utteranceStartMs: Option<int>
    var captureStartMs: int
    var streamSamples: nat
    var streamOffsetMs: int
    var preRollStartMs: int
    var finalized: bool
    /** Everything received, and where the audio sent on so far lies in it. */
    ghost var received: seq<bv8>
    ghost var sent: seq<Slice>
    /** Where the audio held now, pre-roll or open utterance, really starts. */
    ghost var heldFromMs: int
    /** Every call so far. */
    ghost var past: seq<Input>

    /** The byte of the received stream at a time. */
    ghost function At(ms: int): nat
      reads this
    {
      MsToBytes(ms - baseOffsetMs, bpm)
    }

    ghost function Held(): seq<bv8>
      reads this
    {
      if utteranceStartMs.None? then preRollPcm else currentUtterancePcm
    }

    ghost predicate Valid()
      reads this
    {
      && bpm > 0 && 2 * streamSamples == MsToBytes(streamOffsetMs, bpm)
      && baseOffsetMs <= preRollStartMs <= streamOffsetMs
      && baseOffsetMs <= heldFromMs <= streamOffsetMs
      && |received| == At(streamOffsetMs)
      && |Held()| == MsToBytes(streamOffsetMs - heldFromMs, bpm) && IsSuffix(Held(), received)
      && InOrder(sent, |received| - |Held()|)
      && (utteranceStartMs.None? ==>
            && |preRollPcm| <= MsToBytes(preRollMs, bpm)
            && preRollStartMs <= heldFromMs
            && (preRollStartMs == heldFromMs || preRollPcm == []))
      && (utteranceStartMs.Some? ==>
            && preRollPcm == []
            && baseOffsetMs <= utteranceStartMs.value <= captureStartMs <= heldFromMs)
    }

    /** The positions of the session. */
    ghost function Now(): Clock
      reads this
    {
      Clock(streamOffsetMs, heldFromMs, preRollStartMs,
            if utteranceStartMs.None? then None else Some(Utterance(utteranceStartMs.value, captureStartMs)))
    }

    ghost function Told(cues: seq<Cue>): seq<Event>
      reads this
    {
      EventsOf(cues, received, baseOffsetMs, bpm)
    }

    /** The session is where its calls have taken it. */
    ghost predicate InSession()
      reads this
    {
      Valid() && Now() == Session(past, baseOffsetMs, preRollMs).clock
    }

    /** What the cues of all calls so far announced. */
    ghost function Announced(): Story
      reads this
    {
      Follow(Idle, Session(past, baseOffsetMs, preRollMs).cues)
    }

    /** How far the audio held for the open utterance starts after its reported capture start. */
    ghost function Skew(): int
      reads this
    {
      heldFromMs - captureStartMs
    }

    constructor (bytesPerMs: nat, preRoll: nat, baseOffset: nat, baseSample: nat)
      requires bytesPerMs > 0 && 2 * baseSample == MsToBytes(baseOffset, bytesPerMs)
      ensures InSession() && past == [] && bpm == bytesPerMs && preRollMs == preRoll && baseOffsetMs == baseOffset
      ensures received == [] && sent == [] && utteranceStartMs.None? && !finalized && streamOffsetMs == baseOffset
    {
      bpm, preRollMs, baseOffsetMs := bytesPerMs, preRoll, baseOffset;
      preRollPcm, currentUtterancePcm, utteranceStartMs := [], [], None;
      captureStartMs, streamOffsetMs, preRollStartMs, finalized := baseOffset, baseOffset, baseOffset, false;
      streamSamples := baseSample;
      received, sent, heldFromMs, past := [], [], baseOffset, [];
    }

    /** While idle, the retained audio is a suffix of the stream of at most `pre_roll_ms`. */
    method AppendPreRoll(pcm: seq<bv8>, endMs: int, ghost ms: nat)
      requires bpm > 0 && |pcm| == MsToBytes(ms, bpm)
      requires 0 <= baseOffsetMs <= heldFromMs <= endMs - ms
      requires |preRollPcm| == MsToBytes(endMs - ms - heldFromMs, bpm)
      requires |preRollPcm| <= MsToBytes(preRollMs, bpm) && IsSuffix(preRollPcm, received)
      modifies this`preRollPcm, this`preRollStartMs, this`heldFromMs
      ensures |preRollPcm| <= MsToBytes(preRollMs, bpm) && IsSuffix(preRollPcm, received + pcm)
      ensures |preRollPcm| <= |old(preRollPcm) + pcm|
      ensures preRollStartMs == heldFromMs == Max(old(heldFromMs), endMs - preRollMs)
      ensures |preRollPcm| == MsToBytes(endMs - heldFromMs, bpm)
    {
      hide MsToBytes, BytesToMs, IsSuffix;
      var maxBytes := MsToBytes(preRollMs, bpm);
      MsToBytesAdd(endMs - ms - heldFromMs, ms, bpm);
      MsToBytesZero(bpm);
      SuffixGrows(preRollPcm, received, pcm);
      SuffixShrinks(preRollPcm + pcm, received + pcm, |preRollPcm + pcm|);
      assert (preRollPcm + pcm)[|preRollPcm + pcm|..] == [];
      if maxBytes <= 0 {
        ZeroBytes(preRollMs, bpm);
        preRollPcm := [];
        preRollStartMs := endMs;
        heldFromMs := endMs;
        return;
      }
      var combined := preRollPcm + pcm;
      MsToBytesOrder(preRollMs, endMs - heldFromMs, bpm);
      if |combined| > maxBytes {
        SuffixShrinks(combined, received + pcm, |combined| - maxBytes);
        combined := combined[|combined| - maxBytes..];
        heldFromMs := endMs - preRollMs;
      }
      preRollPcm := combined;
      BytesRoundTrip(endMs - heldFromMs, bpm);
      var retainedMs := BytesToMs(|combined|, bpm);
      preRollStartMs := Max(0, endMs - retainedMs);
    }

    /** Audio arrives: it extends the open utterance, or the pre-roll. */
    method Receive(chunk: seq<bv8>, ghost ms: nat)
      requires Valid() && ms > 0 && |chunk| == MsToBytes(ms, bpm) && |chunk| % 2 == 0
      modifies this
      ensures Valid() && received == old(received) + chunk && sent == old(sent)
      ensures streamOffsetMs == old(streamOffsetMs) + ms
      ensures utteranceStartMs == old(utteranceStartMs) && captureStartMs == old(captureStartMs)
      ensures finalized == old(finalized) && past == old(past)
      ensures utteranceStartMs.Some? ==> heldFromMs == old(heldFromMs) && preRollStartMs == old(preRollStartMs)
      ensures Now() == Hear(old(Now()), ms, preRollMs)
    {
      hide MsToBytes, InOrder, IsSuffix;
      StreamGrows(streamOffsetMs, ms, baseOffsetMs, bpm);
      MsToBytesAdd(streamOffsetMs - heldFromMs, ms, bpm);
      streamSamples := streamSamples + |chunk| / 2;
      BytesRoundTrip(streamOffsetMs + ms, bpm);
      var chunkEndMs := BytesToMs(2 * streamSamples, bpm);
      streamOffsetMs := chunkEndMs;
      if utteranceStartMs.None? {
        AppendPreRoll(chunk, chunkEndMs, ms);
        SuffixLength(old(preRollPcm), received);
        OrderWider(sent, |received| - |old(preRollPcm)|, |received + chunk| - |preRollPcm|);
      } else {
        SuffixGrows(currentUtterancePcm, received, chunk);
        currentUtterancePcm := currentUtterancePcm + chunk;
      }
      received := received + chunk;
    }

    /** A start later than the audio received is clamped. The utterance holds the stream from
        its reported capture start, or from where the retained audio begins, if that is later. */
    method StartUtterance(vadStartMs: int) returns (event: Event)
      requires Valid() && utteranceStartMs.None? && baseOffsetMs <= vadStartMs
      modifies this
      ensures Valid() && received == old(received) && sent == old(sent)
      ensures streamOffsetMs == old(streamOffsetMs) && finalized == old(finalized) && past == old(past)
      ensures utteranceStartMs == Some(Min(vadStartMs, streamOffsetMs))
      ensures captureStartMs == Max(utteranceStartMs.value, old(preRollStartMs))
      ensures heldFromMs == Max(captureStartMs, old(heldFromMs)) && preRollStartMs == streamOffsetMs
      ensures event
              == VadStart(utteranceStartMs.value,
                          if captureStartMs == utteranceStartMs.value then None else Some(captureStartMs))
      ensures var turn := Open(old(Now()), vadStartMs); Now() == turn.clock && [event] == Told(turn.cues)
    {
      hide MsToBytes, InOrder, IsSuffix;
      var startMs := Min(vadStartMs, streamOffsetMs);
      HoldFrom(startMs);
      event := VadStart(startMs, if captureStartMs != startMs then Some(captureStartMs) else None);
    }

    /** The retained audio from the start of the utterance becomes the utterance's. */
    method HoldFrom(startMs: int)
      requires Valid() && utteranceStartMs.None? && baseOffsetMs <= startMs <= streamOffsetMs
      modifies this
      ensures Valid() && received == old(received) && sent == old(sent)
      ensures streamOffsetMs == old(streamOffsetMs) && finalized == old(finalized) && past == old(past)
      ensures utteranceStartMs == Some(startMs) && captureStartMs == Max(startMs, old(preRollStartMs))
      ensures heldFromMs == Max(captureStartMs, old(heldFromMs)) && preRollStartMs == streamOffsetMs
    {
      hide MsToBytes, InOrder, IsSuffix;
      captureStartMs := Max(startMs, preRollStartMs);
      var offsetMs := Max(0, captureStartMs - preRollStartMs);
      var offsetBytes := Min(|preRollPcm|, MsToBytes(offsetMs, bpm));
      ghost var was := heldFromMs;
      HeldCut(was, captureStartMs, streamOffsetMs, bpm);
      SuffixLength(preRollPcm, received);
      SuffixShrinks(preRollPcm, received, offsetBytes);
      currentUtterancePcm := preRollPcm[offsetBytes..];
      OrderWider(sent, |received| - |preRollPcm|, |received| - |currentUtterancePcm|);
      utteranceStartMs := Some(startMs);
      preRollPcm := [];
      preRollStartMs := streamOffsetMs;
      heldFromMs := Max(captureStartMs, was);
    }

    /** The last `pre_roll_ms` of what follows a finished utterance become the new pre-roll. */
    method SetPreRollAfterBoundary(pcm: seq<bv8>, boundaryMs: int, ghost cutMs: int)
      requires bpm > 0 && baseOffsetMs <= boundaryMs <= cutMs <= streamOffsetMs
      requires IsSuffix(pcm, received) && |pcm| == MsToBytes(streamOffsetMs - cutMs, bpm)
      modifies this`preRollPcm, this`preRollStartMs, this`heldFromMs
      ensures |preRollPcm| <= MsToBytes(preRollMs, bpm) && |preRollPcm| <= |pcm| && IsSuffix(preRollPcm, received)
      ensures preRollStartMs == heldFromMs == Max(cutMs, streamOffsetMs - preRollMs)
      ensures |preRollPcm| == MsToBytes(streamOffsetMs - heldFromMs, bpm)
    {
      hide MsToBytes, IsSuffix;
      var maxBytes := MsToBytes(preRollMs, bpm);
      MsToBytesZero(bpm);
      SuffixLength(pcm, received);
      SuffixShrinks(pcm, received, |pcm|);
      assert pcm[|pcm|..] == [];
      if maxBytes <= 0 || pcm == [] {
        ZeroBytes(if maxBytes <= 0 then preRollMs else streamOffsetMs - cutMs, bpm);
        preRollPcm := [];
        preRollStartMs := streamOffsetMs;
        heldFromMs := streamOffsetMs;
        return;
      }
      var kept := pcm;
      heldFromMs := cutMs;
      MsToBytesOrder(preRollMs, streamOffsetMs - cutMs, bpm);
      if |pcm| > maxBytes {
        SuffixShrinks(pcm, received, |pcm| - maxBytes);
        kept := pcm[|pcm| - maxBytes..];
        heldFromMs := streamOffsetMs - preRollMs;
      }
      BytesRoundTrip(streamOffsetMs - heldFromMs, bpm);
      var keptMs := BytesToMs(|kept|, bpm);
      preRollPcm := kept;
      preRollStartMs := Max(boundaryMs, streamOffsetMs - keptMs);
    }

    /** Where the audio sent on for an end at `endMs` really ends. */
    ghost function CutMs(endMs: int): int
      reads this
    {
      if endMs <= captureStartMs then heldFromMs else Min(streamOffsetMs, endMs + Skew())
    }

    /** A collapsed utterance is dropped, and the audio it held with it. */
    method Collapse()
      requires Valid() && utteranceStartMs.Some?
      modifies this
      ensures Valid() && received == old(received) && sent == old(sent)
      ensures streamOffsetMs == old(streamOffsetMs) && finalized == old(finalized) && past == old(past)
      ensures utteranceStartMs.None? && heldFromMs == streamOffsetMs && preRollStartMs == old(preRollStartMs)
    {
      hide MsToBytes, InOrder, IsSuffix;
      SuffixLength(currentUtterancePcm, received);
      SuffixShrinks(currentUtterancePcm, received, |currentUtterancePcm|);
      assert currentUtterancePcm[|currentUtterancePcm|..] == [];
      MsToBytesZero(bpm);
      OrderWider(sent, |received| - |currentUtterancePcm|, |received|);
      currentUtterancePcm := [];
      utteranceStartMs := None;
      heldFromMs := streamOffsetMs;
    }

    /** The audio sent on is a slice of the stream from where the utterance holds it; the
        rest becomes pre-roll. An end not after the start drops the utterance. */
    method FinishUtterance(vadEndMs: int, forced: bool) returns (events: seq<Event>)
      requires Valid() && utteranceStartMs.Some? && baseOffsetMs <= vadEndMs
      modifies this
      ensures Valid() && received == old(received) && utteranceStartMs.None?
      ensures streamOffsetMs == old(streamOffsetMs) && finalized == old(finalized) && past == old(past)
      ensures Min(vadEndMs, streamOffsetMs) <= old(utteranceStartMs.value) ==>
                events == [] && sent == old(sent) && heldFromMs == streamOffsetMs
                  && preRollStartMs == old(preRollStartMs)
      ensures Min(vadEndMs, streamOffsetMs) > old(utteranceStartMs.value) ==>
                var endMs := Min(vadEndMs, streamOffsetMs);
                var from, to := old(At(heldFromMs)), old(At(CutMs(endMs)));
                && from <= to <= |received| && preRollStartMs == heldFromMs
                && (from == to ==> sent == old(sent) && events == [VadEnd(old(utteranceStartMs.value), endMs, forced)])
                && (from < to ==> sent == old(sent) + [Slice(from, to)]
                                  && events == [Final(old(utteranceStartMs.value), endMs, received[from..to], forced)])
      ensures Now() == Close(old(Now()), vadEndMs, forced, preRollMs).clock
    {
      hide MsToBytes, InOrder, IsSuffix;
      var startMs := utteranceStartMs.value;
      var endMs := Min(vadEndMs, streamOffsetMs);
      if endMs <= startMs {
        Collapse();
        return [];
      }
      ghost var cut := CutMs(endMs);
      ghost var from;
      var utterancePcm;
      utterancePcm, from := TakeUntil(endMs);
      if utterancePcm == [] {
        return [VadEnd(startMs, endMs, forced)];
      }
      OrderAppend(sent, Slice(from, from + |utterancePcm|), from, |received| - |preRollPcm|);
      sent := sent + [Slice(from, from + |utterancePcm|)];
      return [Final(startMs, endMs, utterancePcm, forced)];
    }

    /** The audio of the utterance up to its end; the rest becomes the pre-roll. */
    method TakeUntil(endMs: int) returns (utterancePcm: seq<bv8>, ghost from: nat)
      requires Valid() && utteranceStartMs.Some? && utteranceStartMs.value < endMs <= streamOffsetMs
      modifies this
      ensures Valid() && received == old(received) && sent == old(sent) && utteranceStartMs.None?
      ensures streamOffsetMs == old(streamOffsetMs) && finalized == old(finalized) && past == old(past)
      ensures from == old(At(heldFromMs)) && from + |utterancePcm| == old(At(CutMs(endMs))) <= |received| - |preRollPcm|
      ensures utterancePcm == received[from..from + |utterancePcm|] && InOrder(sent, from)
      ensures heldFromMs == preRollStartMs == Max(old(CutMs(endMs)), streamOffsetMs - preRollMs)
    {
      hide MsToBytes, InOrder, IsSuffix;
      ghost var cut := CutMs(endMs);
      SuffixLength(currentUtterancePcm, received);
      from := |received| - |currentUtterancePcm|;
      var capturedDurationMs := Max(0, endMs - captureStartMs);
      var utteranceBytes := Min(|currentUtterancePcm|, MsToBytes(capturedDurationMs, bpm));
      CutBytes(heldFromMs, captureStartMs, endMs, streamOffsetMs, baseOffsetMs, bpm);
      SuffixShrinks(currentUtterancePcm, received, utteranceBytes);
      utterancePcm := currentUtterancePcm[..utteranceBytes];
      var trailingPcm := currentUtterancePcm[utteranceBytes..];
      currentUtterancePcm := [];
      utteranceStartMs := None;
      SetPreRollAfterBoundary(trailingPcm, endMs, cut);
      OrderWider(sent, from, |received| - |preRollPcm|);
    }

    /** The same with what a caller needs: the events are those slices of the stream. */
    method Finish(endMs: int, forced: bool) returns (events: seq<Event>)
      requires Valid() && utteranceStartMs.Some? && baseOffsetMs <= endMs
      modifies this
      ensures Valid() && received == old(received) && utteranceStartMs.None?
      ensures streamOffsetMs == old(streamOffsetMs) && finalized == old(finalized) && past == old(past)
      ensures var turn := Close(old(Now()), endMs, forced, preRollMs); Now() == turn.clock && events == Told(turn.cues)
      ensures old(sent) <= sent && Finals(events) == Cuts(sent[|old(sent)|..], received)
    {
      hide MsToBytes, InOrder, IsSuffix, Held;
      ghost var end := Min(endMs, streamOffsetMs);
      ghost var from, to, before := At(heldFromMs), At(CutMs(end)), sent;
      if end > utteranceStartMs.value {
        MsToBytesOrder(heldFromMs - baseOffsetMs, CutMs(end) - baseOffsetMs, bpm);
      }
      events := FinishUtterance(endMs, forced);
      assert sent[|before|..] == if sent == before then [] else [Slice(from, to)];
    }

    /** One segment of the detector: its start opens an utterance unless one is open, its end
        closes the open one. */
    method ConsumeSegment(startMs: int, endMs: int) returns (events: seq<Event>)
      requires Valid() && (startMs == -1 || baseOffsetMs <= startMs) && (endMs == -1 || baseOffsetMs <= endMs)
      modifies this
      ensures Valid() && received == old(received)
      ensures streamOffsetMs == old(streamOffsetMs) && finalized == old(finalized) && past == old(past)
      ensures old(sent) <= sent && Finals(events) == Cuts(sent[|old(sent)|..], received)
      ensures var turn := Detect(old(Now()), VadSegment(startMs, endMs), preRollMs);
              Now() == turn.clock && events == Told(turn.cues)
    {
      hide MsToBytes, InOrder, IsSuffix, Held, At, Open, Close, EventsOf;
      events := [];
      ghost var cues: seq<Cue> := [];
      NothingTold(received, baseOffsetMs, bpm);
      assert sent[|sent|..] == [];
      if startMs >= 0 && utteranceStartMs.None? {
        var event := StartUtterance(startMs);
        events := [event];
        cues := Open(old(Now()), startMs).cues;
        NoFinals(event);
      }
      if endMs >= 0 && utteranceStartMs.Some? {
        ghost var turn := Close(Now(), endMs, false, preRollMs);
        EventsOfAppend(cues, turn.cues, received, baseOffsetMs, bpm);
        var more := Finish(endMs, false);
        FinalsAppend(events, more);
        events := events + more;
      }
    }

    /** The detector's segments, in order; an impossible boundary stops with an error. */
    method ConsumeVadEvents(segments: seq<VadSegment>) returns (events: seq<Event>, ok: bool)
      requires Valid()
      modifies this
      ensures Valid() && received == old(received)
      ensures streamOffsetMs == old(streamOffsetMs) && finalized == old(finalized) && past == old(past)
      ensures old(sent) <= sent && Finals(events) == Cuts(sent[|old(sent)|..], received)
      ensures ok <==> forall k :: 0 <= k < |segments| ==> Possible(segments[k])
      ensures ok <==> forall k :: 0 <= k < |segments| ==> segments[k].start >= -1 && segments[k].end >= -1
      ensures var turn := DetectAll(old(Now()), segments[..PossiblePrefix(segments)], baseOffsetMs, preRollMs);
              Now() == turn.clock && events == Told(turn.cues)
    {
      hide MsToBytes, InOrder, IsSuffix, Held, At, Detect, EventsOf;
      events, ok := [], true;
      ghost var turn := Turn(Now(), []);
      NothingTold(received, baseOffsetMs, bpm);
      assert sent[|sent|..] == [];
      var i := 0;
      while i < |segments|
        invariant i <= |segments| && Valid() && received == old(received)
        invariant streamOffsetMs == old(streamOffsetMs) && finalized == old(finalized) && past == old(past)
        invariant forall k :: 0 <= k < i ==> Possible(segments[k])
        invariant turn == DetectAll(old(Now()), segments[..i], baseOffsetMs, preRollMs)
        invariant Now() == turn.clock && events == Told(turn.cues)
        invariant old(sent) <= sent && Finals(events) == Cuts(sent[|old(sent)|..], received)
      {
        var startMs := if segments[i].start >= 0 then segments[i].start + baseOffsetMs else segments[i].start;
        var endMs := if segments[i].end >= 0 then segments[i].end + baseOffsetMs else segments[i].end;
        if startMs < -1 || endMs < -1 {
          return events, false;
        }
        ghost var before := sent;
        ghost var next := Detect(turn.clock, VadSegment(startMs, endMs), preRollMs);
        DetectOneMore(old(Now()), segments, i, baseOffsetMs, preRollMs);
        EventsOfAppend(turn.cues, next.cues, received, baseOffsetMs, bpm);
        turn := Turn(next.clock, turn.cues + next.cues);
        var more := ConsumeSegment(startMs, endMs);
        FinalsAppend(events, more);
        CutsAppend(old(sent), before, sent, received);
        events := events + more;
        i := i + 1;
      }
    }

    /** The call is one more input of the session. Refused after the end or for half samples;
        otherwise the events are those of the call, and unless an utterance was misplaced they
        are heard in place, whatever was announced before. */
    method PushPcm(pcm: seq<bv8>, ghost ms: nat, segments: seq<VadSegment>)
      returns (r: Result<seq<Event>, SessionError>)
      requires InSession()
      requires |pcm| % 2 == 0 ==> |pcm| == MsToBytes(ms, bpm)
      modifies this
      ensures InSession() && old(sent) <= sent && finalized == old(finalized)
      ensures old(finalized) || |pcm| % 2 != 0 ==> r.Failure? && received == old(received) && past == old(past)
      ensures !old(finalized) && |pcm| % 2 == 0 ==>
                && received == old(received) + pcm
                && (r.Success? <==> pcm == [] || PossiblePrefix(segments) == |segments|)
                && past == if pcm == [] then old(past)
                  else old(past) + [Pushed(ms, segments[..PossiblePrefix(segments)])]
      ensures r.Success? && pcm == [] ==> r.value == []
      ensures r.Success? && pcm != [] ==>
                r.value == Told(Call(old(Now()), Pushed(ms, segments), baseOffsetMs, preRollMs).cues)
      ensures r.Success? ==> Finals(r.value) == Cuts(sent[|old(sent)|..], received)
      ensures r.Success? && WatchSession(past, baseOffsetMs).watch != Alarm ==>
                Listen(old(Announced()), r.value, received, baseOffsetMs, bpm) == Announced() != Misplaced
    {
      hide MsToBytes, InOrder, IsSuffix, DetectAll, Hear, Follow, Listen, EventsOf, Finals, Cuts, WatchCall, Valid;
      assert sent[|sent|..] == [];
      NothingFinal(received);
      NothingHeard(Announced(), received, baseOffsetMs, bpm);
      MisplacedIff(past, baseOffsetMs, preRollMs);
      if finalized {
        return Failure(AlreadyFinalized);
      }
      if |pcm| % 2 != 0 {
        return Failure(IncompleteSample);
      }
      if pcm == [] {
        assert received == received + pcm;
        return Success([]);
      }
      var events, ok := PushAudio(pcm, ms, segments);
      return if ok then Success(events) else Failure(NegativeBoundary);
    }

    /** The part of push_pcm after its checks: audio, then the detector's segments. */
    method PushAudio(pcm: seq<bv8>, ghost ms: nat, segments: seq<VadSegment>) returns (events: seq<Event>, ok: bool)
      requires InSession() && !finalized && pcm != [] && |pcm| % 2 == 0 && |pcm| == MsToBytes(ms, bpm)
      modifies this
      ensures InSession() && old(sent) <= sent && !finalized && received == old(received) + pcm
      ensures ok <==> PossiblePrefix(segments) == |segments|
      ensures past == old(past) + [Pushed(ms, segments[..PossiblePrefix(segments)])]
      ensures ok ==> events == Told(Call(old(Now()), Pushed(ms, segments), baseOffsetMs, preRollMs).cues)
      ensures ok ==> Finals(events) == Cuts(sent[|old(sent)|..], received)
      ensures ok && WatchSession(past, baseOffsetMs).watch != Alarm ==>
                Listen(old(Announced()), events, received, baseOffsetMs, bpm) == Announced() != Misplaced
    {
      hide InOrder, IsSuffix, DetectAll, Hear, Follow, Listen, EventsOf, WatchCall;
      ghost var input := Pushed(ms, segments[..PossiblePrefix(segments)]);
      Receive(pcm, ms);
      events, ok := ConsumeVadEvents(segments);
      assert ok ==> segments[..PossiblePrefix(segments)] == segments;
      SessionOneMore(past, input, baseOffsetMs, preRollMs);
      past := past + [input];
      HeardInPlace(old(past), input);
    }

    /** The cues of the last call, as the events that carry them are heard. */
    lemma HeardInPlace(before: seq<Input>, input: Input)
      requires InSession() && past == before + [input]
      ensures var old' := Session(before, baseOffsetMs, preRollMs);
              WatchSession(past, baseOffsetMs).watch != Alarm ==>
                Listen(Follow(Idle, old'.cues), Told(Call(old'.clock, input, baseOffsetMs, preRollMs).cues), received,
                       baseOffsetMs, bpm)
                == Announced() != Misplaced
    {
      hide InOrder, IsSuffix, Call, Held, Follow, Listen, EventsOf, WatchCall;
      var before' := Session(before, baseOffsetMs, preRollMs);
      var last := Call(before'.clock, input, baseOffsetMs, preRollMs);
      SessionOneMore(before, input, baseOffsetMs, preRollMs);
      FollowAppend(Idle, before'.cues, last.cues);
      MisplacedIff(past, baseOffsetMs, preRollMs);
      CallWithin(before'.clock, input, baseOffsetMs, preRollMs);
      if Follow(Follow(Idle, before'.cues), last.cues) != Misplaced {
        InPlaceIsHeard(Follow(Idle, before'.cues), last.cues, received, baseOffsetMs, bpm, streamOffsetMs);
      }
    }

    /** The detector's last segments, and the end of an utterance that is still open. */
    method ConsumeEnd(segments: seq<VadSegment>) returns (events: seq<Event>, ok: bool)
      requires Valid()
      modifies this
      ensures Valid() && received == old(received) && streamOffsetMs == old(streamOffsetMs)
      ensures finalized == old(finalized) && past == old(past)
      ensures old(sent) <= sent && Finals(events) == Cuts(sent[|old(sent)|..], received)
      ensures ok <==> PossiblePrefix(segments) == |segments|
      ensures ok ==> var turn := EndOfStream(old(Now()), segments, baseOffsetMs, preRollMs);
                     utteranceStartMs.None? && Now() == turn.clock && events == Told(turn.cues)
      ensures !ok ==>
                Now() == DetectAll(old(Now()), segments[..PossiblePrefix(segments)], baseOffsetMs, preRollMs).clock
    {
      hide MsToBytes, InOrder, IsSuffix, DetectAll, Close, EventsOf, Finals, Cuts;
      ghost var before := sent;
      events, ok := ConsumeVadEvents(segments);
      assert ok ==> segments[..PossiblePrefix(segments)] == segments;
      if ok && utteranceStartMs.Some? {
        ghost var middle := sent;
        EventsOfAppend(DetectAll(old(Now()), segments, baseOffsetMs, preRollMs).cues,
                       Close(Now(), streamOffsetMs, true, preRollMs).cues, received, baseOffsetMs, bpm);
        var more := Finish(streamOffsetMs, true);
        FinalsAppend(events, more);
        CutsAppend(before, middle, sent, received);
        events := events + more;
      }
    }

    /** The end of the stream closes an open utterance at the last received millisecond. */
    method Finalize(segments: seq<VadSegment>) returns (r: Result<seq<Event>, SessionError>)
      requires InSession()
      modifies this
      ensures InSession() && received == old(received) && old(sent) <= sent
      ensures r.Success? ==> finalized && (!old(finalized) ==> utteranceStartMs.None?)
      ensures old(finalized) ==> r == Success([]) && past == old(past)
      ensures !old(finalized) ==>
                && (r.Success? <==> PossiblePrefix(segments) == |segments|)
                && past == old(past)
                  + [if r.Success? then Ended(segments) else Pushed(0, segments[..PossiblePrefix(segments)])]
      ensures r.Success? && !old(finalized) ==>
                r.value == Told(Call(old(Now()), Ended(segments), baseOffsetMs, preRollMs).cues)
      ensures r.Success? ==> Finals(r.value) == Cuts(sent[|old(sent)|..], received)
      ensures r.Success? && WatchSession(past, baseOffsetMs).watch != Alarm ==>
                Listen(old(Announced()), r.value, received, baseOffsetMs, bpm) == Announced() != Misplaced
    {
      hide MsToBytes, InOrder, IsSuffix, DetectAll, EndOfStream, EventsOf, Finals, Cuts, Follow, Listen, WatchCall;
      assert sent[|sent|..] == [];
      NothingFinal(received);
      NothingHeard(Announced(), received, baseOffsetMs, bpm);
      MisplacedIff(past, baseOffsetMs, preRollMs);
      if finalized {
        return Success([]);
      }
      var events, ok := ConsumeEnd(segments);
      ghost var input := if ok then Ended(segments) else Pushed(0, segments[..PossiblePrefix(segments)]);
      SessionOneMore(past, input, baseOffsetMs, preRollMs);
      past := past + [input];
      if !ok {
        return Failure(NegativeBoundary);
      }
      finalized := true;
      HeardInPlace(old(past), input);
      return Success(events);
    }
  }

  lemma NoFinals(event: Event)
    requires !event.Final?
    ensures Finals([event]) == []
  {
    assert [event][..0] == [];
  }

  lemma NothingFinal(r: seq<bv8>)
    ensures Finals([]) == Cuts([], r)
  {
  }

  lemma NothingTold(r: seq<bv8>, base: int, bpm: nat)
    ensures EventsOf([], r, base, bpm) == []
  {
  }

  lemma NothingHeard(story: Story, r: seq<bv8>, base: int, bpm: nat)
    ensures Listen(story, [], r, base, bpm) == story
  {
  }

  /** An utterance that is dropped: the session holds nothing and believes in its old pre-roll. */
  method AfterCollapse(a: seq<bv8>, b: seq<bv8>) returns (session: SpeechSession)
    requires |a| == 200 && |b| == 200
    ensures fresh(session) && session.Valid() && session.received == a + b && session.utteranceStartMs.None?
    ensures session.bpm == 2 && session.baseOffsetMs == 0 && session.preRollMs == 1000
    ensures session.streamOffsetMs == 200 && session.heldFromMs == 200 && session.preRollStartMs == 100
  {
    hide InOrder, IsSuffix, Open, Close, Hear, EventsOf;
    session := new SpeechSession(2, 1000, 0, 0);
    session.Receive(a, 100);
    var started := session.StartUtterance(100);
    session.Receive(b, 100);
    var none := session.FinishUtterance(50, false);
  }

  /** Positions do disagree: an utterance collapses after more audio arrived, and the next
      one starts before any audio arrives again. It is reported from 120 to 300 milliseconds
      and carries the stream from 200 to 380. */
  method CollapseMovesTheNext(a: seq<bv8>, b: seq<bv8>, c: seq<bv8>) returns (event: Event)
    requires |a| == 200 && |b| == 200 && |c| == 400
    ensures event == Final(120, 300, (a + b + c)[400..760], false)
  {
    hide InOrder, IsSuffix, Open, Close, Hear, EventsOf;
    var session := AfterCollapse(a, b);
    var started := session.StartUtterance(120);
    session.Receive(c, 200);
    assert session.At(session.heldFromMs) == 400 && session.At(session.CutMs(300)) == 760;
    var events := session.FinishUtterance(300, false);
    assert session.received == a + b + c;
    event := events[0];
  }

  /** The audio of the final utterances among the events. */
  function Finals(events: seq<Event>): seq<seq<bv8>> {
    if events == [] then []
    else
      var last := events[|events| - 1];
      Finals(events[..|events| - 1]) + if last.Final? then [last.pcm] else []
  }

  function Cuts(slices: seq<Slice>, r: seq<bv8>): seq<seq<bv8>> {
    seq(|slices|, k requires 0 <= k < |slices| =>
          if slices[k].from <= slices[k].to <= |r| then r[slices[k].from..slices[k].to] else [])
  }

  lemma {:induction false} FinalsAppend(a: seq<Event>, b: seq<Event>)
    ensures Finals(a + b) == Finals(a) + Finals(b)
  {
    if b == [] {
      assert a + b == a;
    } else {
      FinalsAppend(a, b[..|b| - 1]);
      assert (a + b)[..|a + b| - 1] == a + b[..|b| - 1];
    }
  }

  lemma CutsAppend(a: seq<Slice>, b: seq<Slice>, c: seq<Slice>, r: seq<bv8>)
    requires a <= b <= c
    ensures a <= c && Cuts(c[|a|..], r) == Cuts(b[|a|..], r) + Cuts(c[|b|..], r)
  {
  }

  lemma OrderWider(slices: seq<Slice>, limit: nat, wider: nat)
    requires InOrder(slices, limit) && limit <= wider
    ensures InOrder(slices, wider)
  {
  }

  lemma OrderAppend(slices: seq<Slice>, x: Slice, limit: nat, wider: nat)
    requires InOrder(slices, limit) && limit <= x.from <= x.to <= wider
    ensures InOrder(slices + [x], wider)
  {
  }

  lemma ZeroBytes(ms: int, bpm: nat)
    requires bpm > 0 && MsToBytes(ms, bpm) == 0
    ensures ms <= 0
  {
    if ms > 0 {
      MsToBytesOrder(0, ms, bpm);
    }
  }

  /** Cutting the front off audio held from `held` to `offset`, as if it started at `capture`
      or earlier: consistent positions, or nothing held at all. */
  lemma HeldCut(held: int, capture: int, offset: int, bpm: nat)
    requires bpm > 0 && held <= offset && capture <= offset
    ensures held <= capture ==>
              MsToBytes(offset - held, bpm) == MsToBytes(capture - held, bpm) + MsToBytes(offset - capture, bpm)
    ensures MsToBytes(offset - held, bpm) == 0 ==> held == offset
    ensures MsToBytes(0, bpm) == 0
  {
    if held <= capture {
      MsToBytesAdd(capture - held, offset - capture, bpm);
    }
    if MsToBytes(offset - held, bpm) == 0 {
      ZeroBytes(offset - held, bpm);
    }
  }

  lemma CutBytes(held: int, capture: int, end: int, offset: int, base: int, bpm: nat)
    requires bpm > 0 && base <= capture <= held <= offset && end <= offset
    ensures var cut := if end <= capture then held else Min(offset, end + held - capture);
            && held <= cut <= offset && end <= cut
            && MsToBytes(cut - base, bpm) == MsToBytes(offset - base, bpm) - MsToBytes(offset - held, bpm)
                                             + Min(MsToBytes(offset - held, bpm), MsToBytes(Max(0, end - capture), bpm))
            && MsToBytes(offset - cut, bpm) == MsToBytes(offset - held, bpm)
                                               - Min(MsToBytes(offset - held, bpm),
                                                     MsToBytes(Max(0, end - capture), bpm))
            && MsToBytes(held - base, bpm) == MsToBytes(offset - base, bpm) - MsToBytes(offset - held, bpm)
  {
    hide MsToBytes;
    MsToBytesZero(bpm);
    var cut := if end <= capture then held else Min(offset, end + held - capture);
    MsToBytesAdd(held - base, offset - held, bpm);
    MsToBytesAdd(held - base, cut - held, bpm);
    MsToBytesAdd(cut - held, offset - cut, bpm);
    MsToBytesMonotone(offset - held, Max(offset - held, end - capture), bpm);
  }

  lemma MsToBytesZero(bpm: nat)
    ensures MsToBytes(0, bpm) == 0
  {
  }

  lemma StreamGrows(offset: int, ms: nat, base: int, bpm: nat)
    requires 0 <= base <= offset
    ensures MsToBytes(offset + ms, bpm) == MsToBytes(offset, bpm) + MsToBytes(ms, bpm)
    ensures MsToBytes(offset + ms - base, bpm) == MsToBytes(offset - base, bpm) + MsToBytes(ms, bpm)
  {
    MsToBytesAdd(offset, ms, bpm);
    MsToBytesAdd(offset - base, ms, bpm);
  }
}
