/** linux/backend/moss_worker/parser.py: window-local generated text becomes timed
    segments; the first fragment that does not parse ends the accepted prefix. */
module Parser {
  import opened Wrappers
  import opened Windowing
  import opened Labels
  import opened Scanner
  import opened Segments

  const END_CLAMP_TOLERANCE: real := 0.010

  datatype Reason = ExpectedStart | StartOutside | ExpectedSpeaker | MissingEnd | EndOutside

  datatype Repair = EndClamped | EndRepairedFromNextStart

  /** One parsed segment with its audit fields. */
  datatype Parsed = Parsed(segment: Segment, repair: Option<Repair>, originalEndMs: Option<int>)

  datatype InvalidFragment = InvalidFragment(raw: string, reason: Reason)

  datatype Generation = Generation(valid: seq<Parsed>, invalid: seq<InvalidFragment>, raw: string,
                                   droppedTail: Option<string>)

  /** Half-up rounding to whole milliseconds. */
  function AbsoluteMs(seconds: real, offset: int): (ms: int)
    ensures (ms - offset) as real - 0.5 <= seconds * 1000.0 < (ms - offset) as real + 0.5
  {
    offset + (seconds * 1000.0 + 0.5).Floor
  }

  lemma AbsoluteMsMonotone(a: real, b: real, offset: int)
    requires a <= b
    ensures AbsoluteMs(a, offset) <= AbsoluteMs(b, offset)
  {
  }

  lemma AbsoluteMsExact(n: int, offset: int)
    ensures AbsoluteMs(n as real / 1000.0, offset) == offset + n
  {
    assert n as real / 1000.0 * 1000.0 == n as real;
  }

  // ----- reading one fragment -----

  /** An utterance read at the front of a text: `bodyEnd` is where its end timestamp
      starts, `stampedEnd` where that timestamp stops. */
  datatype Utterance = Utterance(start: real, speaker: string, text: string, stamped: real,
                                 bodyEnd: nat, stampedEnd: nat, shared: bool)
  {
    /** A shared end timestamp is left in place: it starts the next utterance. */
    function Length(): nat { if shared then bodyEnd else stampedEnd }

    function End(duration: real): real { if stamped > duration then duration else stamped }
  }

  datatype Fragment = Accept(u: Utterance) | Dangling | Reject(reason: Reason)

  function ReadAfterStart(t: string, start: Stamp, previousEnd: real, duration: real): (r: Result<Utterance, Reason>)
    requires start.length <= |t|
    ensures r.Success? ==> start.length < r.value.bodyEnd < r.value.stampedEnd <= |t|
    ensures r.Success? ==> previousEnd <= r.value.start <= r.value.End(duration) <= duration
  {
    if !(previousEnd <= start.seconds <= duration) then Failure(StartOutside)
    else match Speaker(t[start.length..])
      case None => Failure(ExpectedSpeaker)
      case Some(tag) =>
        var spoken := t[start.length + tag.length..];
        var n := FindOpen(spoken, 0);
        match Timestamp(spoken[n..])
        case None => Failure(MissingEnd)
        case Some(end) =>
          if Strip(spoken[..n]) == "" || ']' in spoken[..n] then Failure(MissingEnd)
          else if !(start.seconds <= end.seconds <= duration + END_CLAMP_TOLERANCE) then Failure(EndOutside)
          else
            var bodyEnd := start.length + tag.length + n;
            var shared := Speaker(spoken[n + end.length..]).Some?;
            Success(Utterance(start.seconds, tag.speaker, Strip(spoken[..n]), end.seconds, bodyEnd,
                              bodyEnd + end.length, shared))
  }

  function Read(t: string, previousEnd: real, duration: real): (f: Fragment)
    ensures f.Accept? ==> 0 < f.u.bodyEnd < f.u.stampedEnd <= |t|
    ensures f.Accept? ==> previousEnd <= f.u.start <= f.u.End(duration) <= duration
  {
    match Timestamp(t)
    case None => Reject(ExpectedStart)
    case Some(start) =>
      match ReadAfterStart(t, start, previousEnd, duration)
      case Success(u) => Accept(u)
      case Failure(reason) => if Strip(t[start.length..]) == "" then Dangling else Reject(reason)
  }

  function Bracketed(s: string): string { "[" + s + "]" }

  lemma Concatenated(t: string, a: string, b: string, c: string, d: string)
    ensures a + b + c + d <= t <==>
            a <= t && b <= t[|a|..] && c <= t[|a| + |b|..] && d <= t[|a| + |b|..][|c|..]
  {
    if a + b + c + d <= t {
      var u := t[|a + b + c + d|..];
      assert t == a + b + c + d + u;
      assert t[|a|..] == b + (c + d + u);
      assert t[|a| + |b|..] == c + (d + u);
      assert t[|a| + |b|..][|c|..] == d + u;
    }
    if a <= t && b <= t[|a|..] && c <= t[|a| + |b|..] && d <= t[|a| + |b|..][|c|..] {
      assert t[|a|..][|b|..] == t[|a| + |b|..];
      assert t == a + (b + (c + (d + t[|a| + |b|..][|c|..][|d|..])));
    }
  }

  /** A text that starts with a number in brackets. */
  predicate Starts(t: string, first: string) { IsNumber(first) && Bracketed(first) <= t }

  /** A text that starts with a number and a speaker. */
  predicate Speaks(t: string, first: string, speaker: string) {
    IsNumber(first) && IsSpeaker(speaker) && Bracketed(first) + Bracketed(speaker) <= t
  }

  /** A text that starts with a number, a speaker, words and a second number. */
  predicate Closes(t: string, first: string, speaker: string, body: string, last: string) {
    && IsNumber(first) && IsSpeaker(speaker) && IsNumber(last)
    && Bracketed(first) + Bracketed(speaker) + body + Bracketed(last) <= t
    && !Blank(body) && '[' !in body && ']' !in body
  }

  predicate StartsInside(first: string, previousEnd: real, duration: real)
    requires IsNumber(first)
  {
    previousEnd <= NumberValue(first) <= duration
  }

  predicate EndsInside(first: string, last: string, duration: real)
    requires IsNumber(first) && IsNumber(last)
  {
    NumberValue(first) <= NumberValue(last) <= duration + END_CLAMP_TOLERANCE
  }

  /** The reference grammar of an acceptable utterance at the front of `t`. */
  ghost predicate Grammar(t: string, previousEnd: real, duration: real, first: string, speaker: string, body: string,
                          last: string) {
    && Closes(t, first, speaker, body, last)
    && StartsInside(first, previousEnd, duration) && EndsInside(first, last, duration)
  }

  /** The four matches that the checks make one after the other. */
  predicate Matched(t: string, start: Stamp, tag: Tag, end: Stamp) {
    && Timestamp(t) == Some(start) && start.length <= |t| && Speaker(t[start.length..]) == Some(tag)
    && start.length + tag.length <= |t|
    && var spoken := t[start.length + tag.length..];
       var n := FindOpen(spoken, 0);
       n <= |spoken| && Timestamp(spoken[n..]) == Some(end) && Strip(spoken[..n]) != "" && ']' !in spoken[..n]
  }

  function Body(t: string, start: Stamp, tag: Tag): string
    requires start.length + tag.length <= |t|
  {
    var spoken := t[start.length + tag.length..];
    spoken[..FindOpen(spoken, 0)]
  }

  /** Where the parts of an accepted utterance lie. */
  lemma AcceptedParts(t: string, previousEnd: real, duration: real) returns (start: Stamp, tag: Tag, end: Stamp)
    requires Read(t, previousEnd, duration).Accept?
    ensures Matched(t, start, tag, end)
    ensures previousEnd <= start.seconds <= duration
    ensures start.seconds <= end.seconds <= duration + END_CLAMP_TOLERANCE
    ensures var u := Read(t, previousEnd, duration).u;
            && u.start == start.seconds && u.speaker == tag.speaker && u.text == Strip(Body(t, start, tag))
            && u.stamped == end.seconds && u.bodyEnd == start.length + tag.length + |Body(t, start, tag)|
            && u.stampedEnd == u.bodyEnd + end.length && u.shared == Speaker(t[u.stampedEnd..]).Some?
  {
    hide Timestamp, Speaker, FindOpen, Strip;
    start := Timestamp(t).value;
    tag := Speaker(t[start.length..]).value;
    var spoken := t[start.length + tag.length..];
    var n := FindOpen(spoken, 0);
    end := Timestamp(spoken[n..]).value;
    assert t[start.length + tag.length + n + end.length..] == spoken[n + end.length..];
  }

  /** The number that a timestamp was read from, and the other way round. */
  lemma StampReads(t: string) returns (first: string)
    requires Timestamp(t).Some?
    ensures Starts(t, first) && |Bracketed(first)| == |first| + 2
    ensures Timestamp(t).value == Stamp(|first| + 2, NumberValue(first))
  {
    hide Timestamp, IsNumber, NumberValue;
    first := t[1..Timestamp(t).value.length - 1];
    TimestampIff(t, first);
  }

  lemma StampFound(t: string, first: string)
    requires Starts(t, first)
    ensures Timestamp(t) == Some(Stamp(|first| + 2, NumberValue(first))) && |Bracketed(first)| == |first| + 2
  {
    hide Timestamp, IsNumber, NumberValue;
    TimestampIff(t, first);
  }

  lemma TagReads(t: string) returns (speaker: string)
    requires Speaker(t).Some?
    ensures IsSpeaker(speaker) && Bracketed(speaker) <= t && |Bracketed(speaker)| == |speaker| + 2
    ensures Speaker(t).value == Tag(|speaker| + 2, speaker)
  {
    hide Speaker, IsSpeaker;
    speaker := Speaker(t).value.speaker;
    SpeakerIff(t, speaker);
  }

  lemma TagFound(t: string, speaker: string)
    requires IsSpeaker(speaker) && Bracketed(speaker) <= t
    ensures Speaker(t) == Some(Tag(|speaker| + 2, speaker)) && |Bracketed(speaker)| == |speaker| + 2
  {
    hide Speaker, IsSpeaker;
    SpeakerIff(t, speaker);
  }

  /** What is matched has the form of an utterance, and the values of its parts. */
  lemma MatchedCloses(t: string, start: Stamp, tag: Tag, end: Stamp)
    returns (first: string, speaker: string, body: string, last: string)
    requires Matched(t, start, tag, end)
    ensures Closes(t, first, speaker, body, last)
    ensures start == Stamp(|first| + 2, NumberValue(first)) && tag == Tag(|speaker| + 2, speaker)
    ensures end == Stamp(|last| + 2, NumberValue(last)) && body == Body(t, start, tag)
  {
    hide Timestamp, Speaker, FindOpen, IsNumber, IsSpeaker, NumberValue, Strip, Blank, Bracketed;
    var spoken := t[start.length + tag.length..];
    var n := FindOpen(spoken, 0);
    body := spoken[..n];
    first := StampReads(t);
    speaker := TagReads(t[start.length..]);
    last := StampReads(spoken[n..]);
    StripEmpty(body);
    Concatenated(t, Bracketed(first), Bracketed(speaker), body, Bracketed(last));
  }

  /** What has the form of an utterance is matched so. */
  lemma ClosesMatched(t: string, first: string, speaker: string, body: string, last: string)
    requires Closes(t, first, speaker, body, last)
    ensures var start, tag := Stamp(|first| + 2, NumberValue(first)), Tag(|speaker| + 2, speaker);
            Matched(t, start, tag, Stamp(|last| + 2, NumberValue(last))) && Body(t, start, tag) == body
  {
    hide Timestamp, Speaker, FindOpen, IsNumber, IsSpeaker, NumberValue, Strip, Blank, Bracketed;
    var a, b, c := Bracketed(first), Bracketed(speaker), Bracketed(last);
    Concatenated(t, a, b, body, c);
    StampFound(t, first);
    TagFound(t[|a|..], speaker);
    var spoken := t[|a| + |b|..];
    StampFound(spoken[|body|..], last);
    OpensAfter(spoken, body, last);
    StripEmpty(body);
  }

  /** The words end where the next bracket opens. */
  lemma OpensAfter(spoken: string, body: string, last: string)
    requires body <= spoken && '[' !in body && Starts(spoken[|body|..], last)
    ensures FindOpen(spoken, 0) == |body| && spoken[..|body|] == body
  {
    hide FindOpen, IsNumber;
    assert forall k :: 0 <= k < |body| ==> spoken[k] == body[k];
    assert spoken[|body|] == spoken[|body|..][0] == Bracketed(last)[0] == '[';
  }

  /** An accepted utterance is in the grammar, and carries what the grammar reads there. Its end
      is shared exactly if a speaker follows. */
  lemma AcceptedInGrammar(t: string, previousEnd: real, duration: real)
    returns (first: string, speaker: string, body: string, last: string)
    requires Read(t, previousEnd, duration).Accept?
    ensures Grammar(t, previousEnd, duration, first, speaker, body, last)
    ensures var u := Read(t, previousEnd, duration).u;
            && u.start == NumberValue(first) && u.speaker == speaker && u.text == Strip(body)
              && u.stamped == NumberValue(last)
            && u.stampedEnd == |first| + |speaker| + |body| + |last| + 6
            && u.bodyEnd == u.stampedEnd - |last| - 2
            && (u.shared <==> exists next :: IsSpeaker(next) && Bracketed(next) <= t[u.stampedEnd..])
  {
    hide Timestamp, Speaker, FindOpen, IsNumber, IsSpeaker, NumberValue, Strip, Closes;
    var start, tag, end := AcceptedParts(t, previousEnd, duration);
    first, speaker, body, last := MatchedCloses(t, start, tag, end);
    FollowedBySpeaker(t[Read(t, previousEnd, duration).u.stampedEnd..]);
  }

  lemma FollowedBySpeaker(t: string)
    ensures Speaker(t).Some? <==> exists next :: IsSpeaker(next) && Bracketed(next) <= t
  {
    hide Speaker, IsSpeaker;
    if Speaker(t).Some? {
      SpeakerIff(t, Speaker(t).value.speaker);
    }
    if next :| IsSpeaker(next) && Bracketed(next) <= t {
      SpeakerIff(t, next);
    }
  }

  /** Whatever the grammar allows at the front of a text is accepted. */
  lemma GrammarAccepted(t: string, previousEnd: real, duration: real, first: string, speaker: string, body: string,
                        last: string)
    requires Grammar(t, previousEnd, duration, first, speaker, body, last)
    ensures Read(t, previousEnd, duration).Accept?
  {
    hide Timestamp, Speaker, FindOpen, IsNumber, IsSpeaker, NumberValue, Strip, Closes;
    ClosesMatched(t, first, speaker, body, last);
  }

  /** What a refused text looks like, reason by reason: each names the first thing that is
      missing or out of place, and what stands before it is there. */
  ghost predicate Because(t: string, previousEnd: real, duration: real, reason: Reason) {
    match reason
    case ExpectedStart => !exists first :: Starts(t, first)
    case StartOutside => exists first :: Starts(t, first) && !StartsInside(first, previousEnd, duration)
    case ExpectedSpeaker =>
      && (exists first :: Starts(t, first) && StartsInside(first, previousEnd, duration))
      && !exists first, speaker :: Speaks(t, first, speaker)
    case MissingEnd =>
      && (exists first, speaker :: Speaks(t, first, speaker) && StartsInside(first, previousEnd, duration))
      && !exists first, speaker, body, last :: Closes(t, first, speaker, body, last)
    case EndOutside =>
      exists first, speaker, body, last ::
        && Closes(t, first, speaker, body, last)
        && StartsInside(first, previousEnd, duration) && !EndsInside(first, last, duration)
  }

  lemma StartsIff(t: string)
    ensures Timestamp(t).Some? <==> exists first :: Starts(t, first)
    ensures forall first :: Starts(t, first) ==>
              Timestamp(t).Some? && Timestamp(t).value == Stamp(|first| + 2, NumberValue(first))
  {
    hide Timestamp, IsNumber, NumberValue;
    if Timestamp(t).Some? {
      var first := StampReads(t);
    }
    forall first | Starts(t, first)
      ensures IsNumber(first) && Timestamp(t) == Some(Stamp(|first| + 2, NumberValue(first)))
    {
      StampFound(t, first);
    }
  }

  lemma SpeaksIff(t: string)
    ensures (exists first, speaker :: Speaks(t, first, speaker)) <==>
              Timestamp(t).Some? && Speaker(t[Timestamp(t).value.length..]).Some?
    ensures forall first, speaker :: Speaks(t, first, speaker) ==> Starts(t, first)
  {
    hide Timestamp, Speaker, IsNumber, IsSpeaker, NumberValue, Bracketed;
    forall first, speaker | Speaks(t, first, speaker)
      ensures Starts(t, first) && Timestamp(t).Some? && Speaker(t[Timestamp(t).value.length..]).Some?
    {
      OneAfterTheOther(t, Bracketed(first), Bracketed(speaker));
      StampFound(t, first);
      TagFound(t[|first| + 2..], speaker);
    }
    if Timestamp(t).Some? && Speaker(t[Timestamp(t).value.length..]).Some? {
      var first := StampReads(t);
      var speaker := TagReads(t[|first| + 2..]);
      OneAfterTheOther(t, Bracketed(first), Bracketed(speaker));
      assert Speaks(t, first, speaker);
    }
  }

  lemma OneAfterTheOther(t: string, a: string, b: string)
    ensures a + b <= t <==> a <= t && b <= t[|a|..]
  {
    if a <= t && b <= t[|a|..] {
      assert t == a + (b + t[|a|..][|b|..]);
    }
  }

  /** A text is dropped as a dangling timestamp exactly if it is a number in brackets and
      nothing visible after it. */
  lemma DanglingIff(t: string, previousEnd: real, duration: real)
    ensures Read(t, previousEnd, duration).Dangling? <==>
              exists first :: Starts(t, first) && Blank(t[|first| + 2..])
  {
    hide Timestamp, Speaker, FindOpen, IsNumber, NumberValue, Strip, Blank;
    StartsIff(t);
    if Timestamp(t).Some? {
      var rest := t[Timestamp(t).value.length..];
      StripEmpty(rest);
      BlankSpeaksNot(rest);
      if Read(t, previousEnd, duration).Dangling? {
        var first :| Starts(t, first);
        assert Blank(t[|first| + 2..]);
      }
    }
  }

  lemma BlankSpeaksNot(t: string)
    ensures Blank(t) ==> Speaker(t).None?
  {
  }

  lemma RejectedBecause(t: string, previousEnd: real, duration: real)
    requires Read(t, previousEnd, duration).Reject?
    ensures Because(t, previousEnd, duration, Read(t, previousEnd, duration).reason)
  {
    hide Timestamp, Speaker, FindOpen, IsNumber, IsSpeaker, NumberValue, Strip, Blank, Speaks, Closes, Matched;
    var reason := Read(t, previousEnd, duration).reason;
    StartsIff(t);
    SpeaksIff(t);
    if reason.MissingEnd? || reason.EndOutside? {
      RejectedEnd(t, previousEnd, duration);
    } else if reason.ExpectedSpeaker? || reason.StartOutside? {
      var first :| Starts(t, first);
      assert Timestamp(t).value.seconds == NumberValue(first);
    }
  }

  lemma RejectedEnd(t: string, previousEnd: real, duration: real)
    requires var f := Read(t, previousEnd, duration); f.Reject? && (f.reason.MissingEnd? || f.reason.EndOutside?)
    ensures Because(t, previousEnd, duration, Read(t, previousEnd, duration).reason)
  {
    hide Timestamp, Speaker, FindOpen, IsNumber, IsSpeaker, NumberValue, Strip, Blank, Starts, Speaks, Closes;
    StartsIff(t);
    SpeaksIff(t);
    if Read(t, previousEnd, duration).reason.MissingEnd? {
      var first, speaker :| Speaks(t, first, speaker);
      assert Starts(t, first);
      forall first, speaker, body, last
        ensures !Closes(t, first, speaker, body, last)
      {
        if Closes(t, first, speaker, body, last) {
          ClosesMatched(t, first, speaker, body, last);
          assert false;
        }
      }
    } else {
      var start := Timestamp(t).value;
      var tag := Speaker(t[start.length..]).value;
      var spoken := t[start.length + tag.length..];
      var end := Timestamp(spoken[FindOpen(spoken, 0)..]).value;
      var first, speaker, body, last := MatchedCloses(t, start, tag, end);
    }
  }

  // ----- reading the whole text -----

  /** An accepted utterance and the stretch of the text it uses up. */
  datatype Accepted = Accepted(from: nat, to: nat, u: Utterance)

  datatype Ending = Complete | DanglingAt(at: nat) | InvalidAt(at: nat, reason: Reason)

  datatype Reading = Reading(accepted: seq<Accepted>, ending: Ending)

  function Scan(raw: string, position: nat, previousEnd: real, duration: real): Reading
    requires position <= |raw|
    decreases |raw| - position
  {
    if position == |raw| then Reading([], Complete)
    else if IsSpace(raw[position]) then Scan(raw, position + 1, previousEnd, duration)
    else match Read(raw[position..], previousEnd, duration)
      case Dangling => Reading([], DanglingAt(position))
      case Reject(reason) => Reading([], InvalidAt(position, reason))
      case Accept(u) =>
        var rest := Scan(raw, position + u.Length(), u.End(duration), duration);
        Reading([Accepted(position, position + u.Length(), u)] + rest.accepted, rest.ending)
  }

  lemma ScanEnd(raw: string, previousEnd: real, duration: real)
    ensures Scan(raw, |raw|, previousEnd, duration) == Reading([], Complete)
  {
  }

  /** One unfolding of `Scan`. */
  lemma ScanStep(raw: string, position: nat, previousEnd: real, duration: real, f: Fragment)
    requires position < |raw|
    requires IsSpace(raw[position]) || f == Read(raw[position..], previousEnd, duration)
    ensures IsSpace(raw[position]) ==>
              Scan(raw, position, previousEnd, duration) == Scan(raw, position + 1, previousEnd, duration)
    ensures !IsSpace(raw[position]) && f.Dangling? ==>
              Scan(raw, position, previousEnd, duration) == Reading([], DanglingAt(position))
    ensures !IsSpace(raw[position]) && f.Reject? ==>
              Scan(raw, position, previousEnd, duration) == Reading([], InvalidAt(position, f.reason))
    ensures !IsSpace(raw[position]) && f.Accept? ==>
              && 0 < f.u.Length() <= |raw| - position
              && previousEnd <= f.u.start <= f.u.End(duration) <= duration
              && var rest := Scan(raw, position + f.u.Length(), f.u.End(duration), duration);
                 Scan(raw, position, previousEnd, duration) ==
                 Reading([Accepted(position, position + f.u.Length(), f.u)] + rest.accepted, rest.ending)
  {
    hide Read, IsSpace;
  }

  function Stop(raw: string, ending: Ending): int { if ending.Complete? then |raw| else ending.at }

  /** `accepted` cuts raw[position..stop] into its own stretches and white space. */
  ghost predicate Tiles(raw: string, position: int, accepted: seq<Accepted>, stop: int)
    decreases |accepted|
  {
    if accepted == [] then 0 <= position <= stop <= |raw| && Blank(raw[position..stop])
    else
      && 0 <= position <= accepted[0].from < accepted[0].to <= |raw|
      && Blank(raw[position..accepted[0].from])
      && Tiles(raw, accepted[0].to, accepted[1..], stop)
  }

  lemma TilesNothing(raw: string, stop: nat)
    requires stop <= |raw|
    ensures Tiles(raw, stop, [], stop)
  {
    assert raw[stop..stop] == [];
  }

  lemma TilesSpace(raw: string, position: nat, accepted: seq<Accepted>, stop: int)
    requires position < |raw| && IsSpace(raw[position]) && Tiles(raw, position + 1, accepted, stop)
    ensures Tiles(raw, position, accepted, stop)
  {
    var next := if accepted == [] then stop else accepted[0].from;
    BlankJoin([raw[position]], raw[position + 1..next]);
    assert raw[position..next] == [raw[position]] + raw[position + 1..next];
  }

  lemma TilesAccepted(raw: string, x: Accepted, accepted: seq<Accepted>, stop: int)
    requires 0 <= x.from < x.to <= |raw| && Tiles(raw, x.to, accepted, stop)
    ensures Tiles(raw, x.from, [x] + accepted, stop)
  {
    assert ([x] + accepted)[1..] == accepted;
    assert raw[x.from..x.from] == [];
  }

  /** The text is white space, accepted stretches, and at most one trailing fragment, which
      starts at a visible character. */
  lemma {:induction false} ScanTiles(raw: string, position: nat, previousEnd: real, duration: real)
    requires position <= |raw|
    ensures var r := Scan(raw, position, previousEnd, duration);
            && Tiles(raw, position, r.accepted, Stop(raw, r.ending))
            && (!r.ending.Complete? ==> r.ending.at < |raw| && !IsSpace(raw[r.ending.at]))
    decreases |raw| - position
  {
    hide Read, IsSpace, Scan, Tiles;
    if position == |raw| {
      ScanEnd(raw, previousEnd, duration);
      TilesNothing(raw, position);
    } else {
      var f := Read(raw[position..], previousEnd, duration);
      ScanStep(raw, position, previousEnd, duration, f);
      if IsSpace(raw[position]) {
        ScanTiles(raw, position + 1, previousEnd, duration);
        var rest := Scan(raw, position + 1, previousEnd, duration);
        TilesSpace(raw, position, rest.accepted, Stop(raw, rest.ending));
      } else if f.Accept? {
        var x := Accepted(position, position + f.u.Length(), f.u);
        var rest := Scan(raw, x.to, f.u.End(duration), duration);
        ScanTiles(raw, x.to, f.u.End(duration), duration);
        TilesAccepted(raw, x, rest.accepted, Stop(raw, rest.ending));
      } else {
        TilesNothing(raw, position);
      }
    }
  }

  /** Accepted utterances stand in order, do not overlap in the text or in time, and stay
      inside the window. */
  ghost predicate Ordered(accepted: seq<Accepted>, position: int, previousEnd: real, duration: real) {
    && (forall k :: 0 <= k < |accepted| ==> position <= accepted[k].from < accepted[k].to)
    && (forall k :: 0 <= k < |accepted| ==>
        previousEnd <= accepted[k].u.start <= accepted[k].u.End(duration) <= duration)
    && (forall i, j :: 0 <= i < j < |accepted| ==> accepted[i].to <= accepted[j].from)
    && (forall i, j :: 0 <= i < j < |accepted| ==> accepted[i].u.End(duration) <= accepted[j].u.start)
  }

  lemma OrderedAccepted(x: Accepted, rest: seq<Accepted>, previousEnd: real, duration: real)
    requires x.from < x.to && previousEnd <= x.u.start <= x.u.End(duration) <= duration
    requires Ordered(rest, x.to, x.u.End(duration), duration)
    ensures Ordered([x] + rest, x.from, previousEnd, duration)
  {
  }

  lemma {:induction false} ScanOrdered(raw: string, position: nat, previousEnd: real, duration: real)
    requires position <= |raw|
    ensures Ordered(Scan(raw, position, previousEnd, duration).accepted, position, previousEnd, duration)
    decreases |raw| - position
  {
    hide Read, IsSpace, Scan;
    if position == |raw| {
      ScanEnd(raw, previousEnd, duration);
    } else {
      var f := Read(raw[position..], previousEnd, duration);
      ScanStep(raw, position, previousEnd, duration, f);
      if IsSpace(raw[position]) {
        ScanOrdered(raw, position + 1, previousEnd, duration);
      } else if f.Accept? {
        var x := Accepted(position, position + f.u.Length(), f.u);
        ScanOrdered(raw, x.to, f.u.End(duration), duration);
        OrderedAccepted(x, Scan(raw, x.to, f.u.End(duration), duration).accepted, previousEnd, duration);
      }
    }
  }

  /** The end of the last of the first `n` accepted utterances. */
  function EndAfter(accepted: seq<Accepted>, n: nat, first: real, duration: real): real
    requires n <= |accepted|
  {
    if n == 0 then first else accepted[n - 1].u.End(duration)
  }

  /** Each accepted stretch is what `Read` finds there, given the utterance before it. */
  ghost predicate ReadsAs(raw: string, accepted: seq<Accepted>, previousEnd: real, duration: real) {
    forall k :: 0 <= k < |accepted| ==>
      && accepted[k].from < |raw|
      && accepted[k].to == accepted[k].from + accepted[k].u.Length()
      && Read(raw[accepted[k].from..], EndAfter(accepted, k, previousEnd, duration), duration) == Accept(accepted[k].u)
  }

  lemma ReadsNothing(raw: string, previousEnd: real, duration: real)
    ensures ReadsAs(raw, [], previousEnd, duration)
  {
  }

  lemma EndAfterOneMore(x: Accepted, rest: seq<Accepted>, k: nat, previousEnd: real, duration: real)
    requires k <= |rest|
    ensures EndAfter([x] + rest, k + 1, previousEnd, duration) == EndAfter(rest, k, x.u.End(duration), duration)
  {
  }

  lemma ReadsAsAccepted(raw: string, x: Accepted, rest: seq<Accepted>, previousEnd: real, duration: real)
    requires x.from < |raw| && x.to == x.from + x.u.Length()
             && Read(raw[x.from..], previousEnd, duration) == Accept(x.u)
    requires ReadsAs(raw, rest, x.u.End(duration), duration)
    ensures ReadsAs(raw, [x] + rest, previousEnd, duration)
  {
    hide Read;
    var all := [x] + rest;
    forall k | 0 <= k < |all|
      ensures all[k].from < |raw|
      ensures all[k].to == all[k].from + all[k].u.Length()
      ensures Read(raw[all[k].from..], EndAfter(all, k, previousEnd, duration), duration) == Accept(all[k].u)
    {
      if k > 0 {
        EndAfterOneMore(x, rest, k - 1, previousEnd, duration);
      }
    }
  }

  /** Reading stops only where `Read` finds no utterance. */
  ghost predicate StopsAs(raw: string, ending: Ending, previousEnd: real, duration: real) {
    !ending.Complete? ==>
      && ending.at < |raw|
      && Read(raw[ending.at..], previousEnd, duration) == if ending.DanglingAt? then Dangling else Reject(ending.reason)
  }

  lemma {:induction false} ScanReads(raw: string, position: nat, previousEnd: real, duration: real)
    requires position <= |raw|
    ensures var r := Scan(raw, position, previousEnd, duration);
            && ReadsAs(raw, r.accepted, previousEnd, duration)
            && StopsAs(raw, r.ending, EndAfter(r.accepted, |r.accepted|, previousEnd, duration), duration)
    decreases |raw| - position
  {
    hide Read, IsSpace, Scan, ReadsAs;
    ReadsNothing(raw, previousEnd, duration);
    if position == |raw| {
      ScanEnd(raw, previousEnd, duration);
    } else {
      var f := Read(raw[position..], previousEnd, duration);
      ScanStep(raw, position, previousEnd, duration, f);
      if IsSpace(raw[position]) {
        ScanReads(raw, position + 1, previousEnd, duration);
      } else if f.Accept? {
        var x := Accepted(position, position + f.u.Length(), f.u);
        ScanReads(raw, x.to, f.u.End(duration), duration);
        var rest := Scan(raw, x.to, f.u.End(duration), duration).accepted;
        ReadsAsAccepted(raw, x, rest, previousEnd, duration);
        EndAfterOneMore(x, rest, |rest|, previousEnd, duration);
      }
    }
  }

  // ----- the published result -----

  function Signed(n: int): string { if n < 0 then "-" + Decimal(-n) else Decimal(n) }

  function Identity(window: WindowSpec, windowId: Option<string>): string {
    if windowId.Some? then windowId.value
    else
      Signed(window.logicalChunkIndex) + ":" + Signed(window.startMs) + ":" + Signed(window.endMs) + ":"
      + Signed(window.windowMinutes)
  }

  function Duration(window: WindowSpec): real { (window.endMs - window.startMs) as real / 1000.0 }

  predicate ValidWindow(window: WindowSpec) { 0 <= window.startMs <= window.endMs }

  function Publish(a: Accepted, window: WindowSpec, identity: string, sha: string): Parsed {
    var duration := Duration(window);
    var over := if a.u.stamped > duration then Some(AbsoluteMs(a.u.stamped, window.startMs)) else None;
    Parsed(
      Segment(identity + ":" + Decimal(a.from), identity, AbsoluteMs(a.u.start, window.startMs),
              AbsoluteMs(a.u.End(duration), window.startMs), a.u.speaker, None, a.u.text, None,
              if a.u.shared || over.Some? then Repaired else Valid, Primary, None, sha),
      if over.Some? then Some(EndClamped) else if a.u.shared then Some(EndRepairedFromNextStart) else None,
      over)
  }

  function PublishAll(accepted: seq<Accepted>, window: WindowSpec, identity: string, sha: string): seq<Parsed> {
    seq(|accepted|, k requires 0 <= k < |accepted| => Publish(accepted[k], window, identity, sha))
  }

  function Outcome(raw: string, window: WindowSpec, identity: string, sha: string, r: Reading): Generation {
    Generation(
      PublishAll(r.accepted, window, identity, sha),
      if r.ending.InvalidAt? && r.ending.at <= |raw| then [InvalidFragment(raw[r.ending.at..], r.ending.reason)]
        else [],
      raw,
      if r.ending.DanglingAt? && r.ending.at <= |raw| then Some(raw[r.ending.at..]) else None)
  }

  lemma StampWithinTolerance(t: string, previousEnd: real, duration: real)
    requires Read(t, previousEnd, duration).Accept?
    ensures var u := Read(t, previousEnd, duration).u; u.start <= u.stamped <= duration + END_CLAMP_TOLERANCE
  {
    hide Read, Bracketed, IsNumber, IsSpeaker, NumberValue, Blank;
    var first, speaker, body, last := AcceptedInGrammar(t, previousEnd, duration);
  }

  /** No repair goes unrecorded: a segment is Valid exactly when its end is its own stamp, used
      by nobody else and inside the window. A clamped end keeps its original value, at most ten
      milliseconds past the end of the window, where the segment then ends. */
  lemma RepairsAreRecorded(raw: string, window: WindowSpec, identity: string, sha: string, k: nat)
    requires ValidWindow(window) && k < |Scan(raw, 0, 0.0, Duration(window)).accepted|
    ensures var u := Scan(raw, 0, 0.0, Duration(window)).accepted[k].u;
            var p := Publish(Scan(raw, 0, 0.0, Duration(window)).accepted[k], window, identity, sha);
            var inside := u.stamped <= Duration(window);
            && (p.segment.parseStatus == Valid <==> !u.shared && inside)
            && (p.segment.parseStatus == Repaired <==> p.repair.Some?)
            && (p.repair == Some(EndClamped) <==> !inside) && (p.originalEndMs.Some? <==> !inside)
            && (inside ==> p.segment.endMs == AbsoluteMs(u.stamped, window.startMs))
            && (!inside ==> p.segment.endMs == window.endMs <= p.originalEndMs.value <= window.endMs + 10)
  {
    hide Read, Scan;
    var duration := Duration(window);
    ScanReads(raw, 0, 0.0, duration);
    var accepted := Scan(raw, 0, 0.0, duration).accepted;
    var u := accepted[k].u;
    StampWithinTolerance(raw[accepted[k].from..], EndAfter(accepted, k, 0.0, duration), duration);
    AbsoluteMsExact(window.endMs - window.startMs, window.startMs);
    if u.stamped > duration {
      AbsoluteMsMonotone(duration, u.stamped, window.startMs);
      AbsoluteMsMonotone(u.stamped, duration + END_CLAMP_TOLERANCE, window.startMs);
      AbsoluteMsExact(window.endMs - window.startMs + 10, window.startMs);
      assert duration + END_CLAMP_TOLERANCE == (window.endMs - window.startMs + 10) as real / 1000.0;
    }
  }

  // ----- what a published segment says -----

  function EarlierOf(a: real, b: real): real { if a <= b then a else b }

  /** The segment says what stands at `from`: who speaks, the words without the white space
      around them, and the two times, counted from the start of the window; nothing else is
      known of it yet. */
  ghost predicate Says(p: Parsed, raw: string, from: nat, previousEnd: real, window: WindowSpec, identity: string,
                       sha: string, first: string, speaker: string, body: string, last: string)
  {
    && from < |raw| && Grammar(raw[from..], previousEnd, Duration(window), first, speaker, body, last)
    && var next := raw[from + |first| + |speaker| + |body| + |last| + 6..];
       var s := p.segment;
       && s.localSpeaker == speaker && s.text == Strip(body)
       && s.startMs == AbsoluteMs(NumberValue(first), window.startMs)
       && s.endMs == AbsoluteMs(EarlierOf(NumberValue(last), Duration(window)), window.startMs)
       && s.segmentId == identity + ":" + Decimal(from) && s.windowId == identity && s.manifestSha == sha
       && s.globalSpeaker == None && s.confidence == None && s.alternate == None && s.mergeStatus == Primary
       && (s.parseStatus == Valid || s.parseStatus == Repaired)
       && (s.parseStatus == Repaired <==>
           NumberValue(last) > Duration(window) || exists tag :: IsSpeaker(tag) && Bracketed(tag) <= next)
  }

  /** Some utterance of the text is what the segment says. */
  ghost predicate Said(p: Parsed, raw: string, window: WindowSpec, identity: string, sha: string) {
    exists from: nat, previousEnd, first, speaker, body, last ::
      previousEnd >= 0.0 && Says(p, raw, from, previousEnd, window, identity, sha, first, speaker, body, last)
  }

  /** Published utterance `k` says what the grammar reads at its place, after the end of the
      one before it. */
  lemma PublishedSays(raw: string, window: WindowSpec, identity: string, sha: string, k: nat)
    returns (first: string, speaker: string, body: string, last: string)
    requires k < |Scan(raw, 0, 0.0, Duration(window)).accepted|
    ensures var accepted := Scan(raw, 0, 0.0, Duration(window)).accepted;
            Says(Publish(accepted[k], window, identity, sha), raw, accepted[k].from,
                 EndAfter(accepted, k, 0.0, Duration(window)), window, identity, sha, first, speaker, body, last)
  {
    hide Read, Scan, Grammar, Strip, NumberValue, IsNumber, IsSpeaker, Decimal, AbsoluteMs, Bracketed;
    var duration := Duration(window);
    ScanReads(raw, 0, 0.0, duration);
    var a := Scan(raw, 0, 0.0, duration).accepted[k];
    var previousEnd := EndAfter(Scan(raw, 0, 0.0, duration).accepted, k, 0.0, duration);
    first, speaker, body, last := AcceptedInGrammar(raw[a.from..], previousEnd, duration);
    assert raw[a.from..][a.u.stampedEnd..] == raw[a.from + a.u.stampedEnd..];
  }

  /** What is left unread is the rest of the text, word for word: nothing, one invalid fragment
      with the first reason why it is no utterance, or a dropped timestamp that nothing visible
      follows. */
  ghost predicate RestIsVerbatim(g: Generation, raw: string, window: WindowSpec, at: nat, previousEnd: real) {
    && at <= |raw|
    && (g.invalid == [] || g.droppedTail.None?)
    && (g.invalid == [] && g.droppedTail.None? ==> at == |raw|)
    && (g.invalid != [] ==>
          |g.invalid| == 1 && g.invalid[0].raw == raw[at..]
          && Because(raw[at..], previousEnd, Duration(window), g.invalid[0].reason))
    && (g.droppedTail.Some? ==>
          var tail := g.droppedTail.value;
          tail == raw[at..] && exists first :: Starts(tail, first) && Blank(tail[|first| + 2..]))
  }

  lemma OutcomeRest(raw: string, window: WindowSpec, identity: string, sha: string)
    ensures var r := Scan(raw, 0, 0.0, Duration(window));
            && Tiles(raw, 0, r.accepted, Stop(raw, r.ending)) && Stop(raw, r.ending) >= 0
            && RestIsVerbatim(Outcome(raw, window, identity, sha, r), raw, window, Stop(raw, r.ending),
                              EndAfter(r.accepted, |r.accepted|, 0.0, Duration(window)))
  {
    hide Read, Scan, Because, Starts, Blank, Tiles, PublishAll, EndAfter;
    var duration := Duration(window);
    ScanReads(raw, 0, 0.0, duration);
    ScanTiles(raw, 0, 0.0, duration);
    var r := Scan(raw, 0, 0.0, duration);
    if !r.ending.Complete? {
      var previousEnd := EndAfter(r.accepted, |r.accepted|, 0.0, duration);
      var rest := raw[r.ending.at..];
      DanglingIff(rest, previousEnd, duration);
      if r.ending.InvalidAt? {
        RejectedBecause(rest, previousEnd, duration);
      }
    }
  }

  /** A parsed segment is ready for the speaker remapper: its speaker is a local label, and it
      has no global one yet. */
  lemma SaidIsLocal(p: Parsed, raw: string, window: WindowSpec, identity: string, sha: string)
    requires Said(p, raw, window, identity, sha)
    ensures IsLocalSpeaker(p.segment.localSpeaker) && !Labelled(p.segment)
  {
    hide Strip, NumberValue, IsNumber, Decimal, AbsoluteMs, Bracketed;
  }

  /** Every published segment says what stands in the text, and the rest is kept word for word. */
  ghost predicate Faithful(g: Generation, raw: string, window: WindowSpec, identity: string, sha: string) {
    && g.raw == raw && (forall p :: p in g.valid ==> Said(p, raw, window, identity, sha))
    && exists at, previousEnd :: RestIsVerbatim(g, raw, window, at, previousEnd)
  }

  lemma OutcomeIsFaithful(raw: string, window: WindowSpec, identity: string, sha: string)
    ensures Faithful(Outcome(raw, window, identity, sha, Scan(raw, 0, 0.0, Duration(window))), raw, window, identity,
                     sha)
  {
    hide Scan, Says, RestIsVerbatim, Publish, Ordered;
    OutcomeRest(raw, window, identity, sha);
    var accepted := Scan(raw, 0, 0.0, Duration(window)).accepted;
    forall k | 0 <= k < |accepted|
      ensures Said(Publish(accepted[k], window, identity, sha), raw, window, identity, sha)
    {
      EndNotNegative(raw, Duration(window), k);
      var first, speaker, body, last := PublishedSays(raw, window, identity, sha, k);
    }
  }

  lemma EndNotNegative(raw: string, duration: real, k: nat)
    requires k < |Scan(raw, 0, 0.0, duration).accepted|
    ensures EndAfter(Scan(raw, 0, 0.0, duration).accepted, k, 0.0, duration) >= 0.0
  {
    hide Scan;
    ScanOrdered(raw, 0, 0.0, duration);
  }

  /** The nested checks on one fragment. */
  method ReadFragment(t: string, previousEnd: real, duration: real) returns (f: Fragment)
    ensures f == Read(t, previousEnd, duration)
  {
    hide Timestamp, Speaker, Strip, FindOpen;
    var startToken := Timestamp(t);
    var reason := ExpectedStart;
    if startToken.Some? {
      var start := startToken.value;
      var speaker := Speaker(t[start.length..]);
      reason := StartOutside;
      if previousEnd <= start.seconds <= duration {
        reason := ExpectedSpeaker;
        if speaker.Some? {
          var spoken := t[start.length + speaker.value.length..];
          var textEnd := FindOpen(spoken, 0);
          var text := if textEnd < |spoken| then spoken[..textEnd] else "";
          var endToken := if textEnd < |spoken| then Timestamp(spoken[textEnd..]) else None;
          reason := MissingEnd;
          if endToken.Some? && Strip(text) != "" && ']' !in text {
            var end := endToken.value;
            reason := EndOutside;
            if start.seconds <= end.seconds <= duration + END_CLAMP_TOLERANCE {
              var shared := Speaker(spoken[textEnd + end.length..]).Some?;
              var bodyEnd := start.length + speaker.value.length + textEnd;
              return Accept(Utterance(start.seconds, speaker.value.speaker, Strip(text), end.seconds, bodyEnd,
                                      bodyEnd + end.length, shared));
            }
          }
        }
      }
      if Strip(t[start.length..]) == "" {
        return Dangling;
      }
    }
    return Reject(reason);
  }

  /** What the loop has read so far, and what is still to be read. */
  function Resumed(before: seq<Accepted>, rest: Reading): Reading { Reading(before + rest.accepted, rest.ending) }

  lemma PublishAppend(before: seq<Accepted>, x: Accepted, window: WindowSpec, identity: string, sha: string)
    ensures PublishAll(before + [x], window, identity, sha)
            == PublishAll(before, window, identity, sha) + [Publish(x, window, identity, sha)]
  {
    hide Publish;
  }

  datatype InvalidWindow = InvalidWindow

  /** The result is the published form of the reading that starts at the front of the text
      with no time spent; only a window with unordered bounds is refused. */
  method ParseGeneration(raw: string, window: WindowSpec, windowId: Option<string>, sha: string)
    returns (r: Result<Generation, InvalidWindow>)
    ensures r.Success? <==> ValidWindow(window)
    ensures r.Success? ==>
              r.value == Outcome(raw, window, Identity(window, windowId), sha, Scan(raw, 0, 0.0, Duration(window)))
    ensures r.Success? ==> Faithful(r.value, raw, window, Identity(window, windowId), sha)
  {
    hide Read, Scan, IsSpace, Publish, PublishAll, Faithful;
    OutcomeIsFaithful(raw, window, Identity(window, windowId), sha);
    if window.startMs < 0 || window.endMs < window.startMs {
      return Failure(InvalidWindow);
    }
    var identity := Identity(window, windowId);
    var duration := Duration(window);
    var segments: seq<Parsed> := [];
    var position := 0;
    var previousEnd := 0.0;
    ghost var before: seq<Accepted> := [];
    PublishNothing(window, identity, sha);
    while position < |raw|
      invariant position <= |raw|
      invariant Scan(raw, 0, 0.0, duration) == Resumed(before, Scan(raw, position, previousEnd, duration))
      invariant segments == PublishAll(before, window, identity, sha)
    {
      if IsSpace(raw[position]) {
        ScanStep(raw, position, previousEnd, duration, Dangling);
        position := position + 1;
        continue;
      }
      var f := ReadFragment(raw[position..], previousEnd, duration);
      ScanStep(raw, position, previousEnd, duration, f);
      match f {
        case Accept(u) =>
          ghost var rest := Scan(raw, position + u.Length(), u.End(duration), duration);
          var a := Accepted(position, position + u.Length(), u);
          assert before + ([a] + rest.accepted) == before + [a] + rest.accepted;
          PublishAppend(before, a, window, identity, sha);
          segments := segments + [Publish(a, window, identity, sha)];
          before := before + [a];
          previousEnd := u.End(duration);
          position := position + u.Length();
        case Dangling =>
          assert before + [] == before;
          return Success(Generation(segments, [], raw, Some(raw[position..])));
        case Reject(reason) =>
          assert before + [] == before;
          return Success(Generation(segments, [InvalidFragment(raw[position..], reason)], raw, None));
      }
    }
    ScanEnd(raw, previousEnd, duration);
    assert before + [] == before;
    return Success(Generation(segments, [], raw, None));
  }

  lemma PublishNothing(window: WindowSpec, identity: string, sha: string)
    ensures PublishAll([], window, identity, sha) == []
  {
  }

  // ----- what the caller may rely on -----

  lemma IdentifiersDiffer(identity: string, i: nat, j: nat)
    requires identity + ":" + Decimal(i) == identity + ":" + Decimal(j)
    ensures i == j
  {
    DecimalRoundTrip(i);
    DecimalRoundTrip(j);
    var a, b := identity + ":" + Decimal(i), identity + ":" + Decimal(j);
    assert a[|identity| + 1..] == Decimal(i) && b[|identity| + 1..] == Decimal(j);
  }

  /** Published segments have distinct identifiers and, after rounding, are ordered and do
      not overlap. */
  lemma SegmentsOrdered(raw: string, window: WindowSpec, identity: string, sha: string, i: nat, j: nat)
    requires i < j < |Scan(raw, 0, 0.0, Duration(window)).accepted|
    ensures var s := PublishAll(Scan(raw, 0, 0.0, Duration(window)).accepted, window, identity, sha);
            s[i].segment.segmentId != s[j].segment.segmentId && s[i].segment.endMs <= s[j].segment.startMs
  {
    hide Scan, Decimal;
    var duration := Duration(window);
    var a := Scan(raw, 0, 0.0, duration).accepted;
    ScanOrdered(raw, 0, 0.0, duration);
    AbsoluteMsMonotone(a[i].u.End(duration), a[j].u.start, window.startMs);
    if identity + ":" + Decimal(a[i].from) == identity + ":" + Decimal(a[j].from) {
      IdentifiersDiffer(identity, a[i].from, a[j].from);
    }
  }

  /** Every published segment, clamped or not, stays inside the window after rounding. */
  lemma SegmentInWindow(raw: string, window: WindowSpec, identity: string, sha: string, k: nat)
    requires ValidWindow(window)
    requires k < |Scan(raw, 0, 0.0, Duration(window)).accepted|
    ensures var s := PublishAll(Scan(raw, 0, 0.0, Duration(window)).accepted, window, identity, sha);
            window.startMs <= s[k].segment.startMs <= s[k].segment.endMs <= window.endMs
  {
    hide Scan, Decimal;
    ScanOrdered(raw, 0, 0.0, Duration(window));
    InsideWindow(Scan(raw, 0, 0.0, Duration(window)).accepted[k].u, window);
  }

  lemma InsideWindow(u: Utterance, window: WindowSpec)
    requires ValidWindow(window) && 0.0 <= u.start <= u.End(Duration(window)) <= Duration(window)
    ensures window.startMs <= AbsoluteMs(u.start, window.startMs)
            <= AbsoluteMs(u.End(Duration(window)), window.startMs) <= window.endMs
  {
    AbsoluteMsMonotone(0.0, u.start, window.startMs);
    AbsoluteMsMonotone(u.start, u.End(Duration(window)), window.startMs);
    AbsoluteMsMonotone(u.End(Duration(window)), Duration(window), window.startMs);
    AbsoluteMsExact(window.endMs - window.startMs, window.startMs);
    AbsoluteMsExact(0, window.startMs);
  }
}
