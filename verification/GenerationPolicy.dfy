/** linux/backend/moss_worker/generation_policy.py: whether a generation is complete. It
    reads the same language as the parser with a scanner of its own; here the two agree. */
module GenerationPolicy {
  import opened Wrappers
  import opened Windowing
  import opened Scanner
  import opened Parser

  /** One bracketed speaker, text without brackets, and an end timestamp: `spoken` is the
      text as written, `length` all that is read. */
  datatype Turn = Turn(spoken: string, end: real, length: nat)

  function TurnAt(t: string): (r: Option<Turn>)
    ensures r.Some? ==> 0 < r.value.length <= |t|
  {
    match Speaker(t)
    case None => None
    case Some(tag) =>
      var n := PlainRun(t, tag.length);
      match Timestamp(t[n..])
      case None => None
      case Some(end) => if n > tag.length then Some(Turn(t[tag.length..n], end.seconds, n + end.length)) else None
  }

  /** The reference grammar of a turn at the front of `t`. */
  ghost predicate Written(t: string, speaker: string, body: string, last: string) {
    && IsSpeaker(speaker) && IsNumber(last)
    && body != "" && '[' !in body && ']' !in body
    && Bracketed(speaker) + body + Bracketed(last) <= t
  }

  lemma {:induction false} PlainRunIs(t: string, i: nat, n: nat)
    requires i <= n < |t| && t[n] == '[' && forall k :: i <= k < n ==> t[k] != '[' && t[k] != ']'
    ensures PlainRun(t, i) == n
    decreases n - i
  {
    if i < n {
      PlainRunIs(t, i + 1, n);
    }
  }

  lemma ThreeParts(t: string, a: string, b: string, c: string)
    ensures a + b + c <= t <==> a <= t && |a| + |b| <= |t| && t[|a|..|a| + |b|] == b && c <= t[|a| + |b|..]
  {
    if a + b + c <= t {
      var u := t[|a + b + c|..];
      assert t == a + b + c + u;
      assert t[|a| + |b|..] == c + u;
    }
    if a <= t && |a| + |b| <= |t| && t[|a|..|a| + |b|] == b && c <= t[|a| + |b|..] {
      assert t == a + b + (c + t[|a| + |b|..][|c|..]);
    }
  }

  /** Whatever is written as a turn is read as that turn. */
  lemma WrittenIsRead(t: string, speaker: string, body: string, last: string)
    requires Written(t, speaker, body, last)
    ensures TurnAt(t) == Some(Turn(body, NumberValue(last), |speaker| + |body| + |last| + 4))
  {
    hide Timestamp, Speaker, IsNumber, IsSpeaker, NumberValue;
    var a, c := Bracketed(speaker), Bracketed(last);
    ThreeParts(t, a, body, c);
    SpeakerIff(t, speaker);
    var n := |a| + |body|;
    assert t[n] == t[n..][0] == c[0] == '[';
    assert forall k :: |a| <= k < n ==> t[k] == t[|a|..n][k - |a|];
    PlainRunIs(t, |a|, n);
    TimestampIff(t[n..], last);
  }

  /** And whatever is read as a turn was written as one. */
  lemma ReadIsWritten(t: string) returns (speaker: string, body: string, last: string)
    requires TurnAt(t).Some?
    ensures Written(t, speaker, body, last) && TurnAt(t).value.spoken == body
            && TurnAt(t).value.end == NumberValue(last)
  {
    hide Timestamp, Speaker, IsNumber, IsSpeaker, NumberValue;
    var tag := Speaker(t).value;
    var n := PlainRun(t, tag.length);
    speaker, body, last := tag.speaker, t[tag.length..n], t[n..][1..Timestamp(t[n..]).value.length - 1];
    SpeakerIff(t, speaker);
    TimestampIff(t[n..], last);
    assert forall k :: 0 <= k < |body| ==> !IsBracket(body[k]);
    ThreeParts(t, Bracketed(speaker), body, Bracketed(last));
  }

  /** What the classifier recognises in one pass of its loop. */
  datatype Spoken = Spoken(start: real, text: string, end: real)

  /** The turns in the rest `t` of the text, or None when the loop refuses it. */
  function Turns(t: string, previousEnd: real, first: bool): (r: Option<seq<Spoken>>)
    decreases |t|
  {
    if t == [] then Some([])
    else
      var explicitStart := if first then None else Timestamp(t);
      var start := if explicitStart.Some? then explicitStart.value.seconds else previousEnd;
      var rest := if explicitStart.Some? then t[explicitStart.value.length..] else t;
      match TurnAt(rest)
      case None => None
      case Some(turn) =>
        if start < previousEnd || Strip(turn.spoken) == "" || turn.end < start then None
        else match Turns(rest[turn.length..], turn.end, false)
          case None => None
          case Some(more) => Some([Spoken(start, Strip(turn.spoken), turn.end)] + more)
  }

  /** The turns of a whole generation. */
  function Recognised(text: string): Option<seq<Spoken>> {
    match Timestamp(text)
    case None => None
    case Some(initial) => Turns(text[initial.length..], initial.seconds, true)
  }

  /** A token count within the output reserve, a normal end, and at least one turn. */
  predicate Complete(text: string, tokenCount: Option<int>, normalTermination: bool) {
    && tokenCount.Some? && 0 <= tokenCount.value < OUTPUT_RESERVE && normalTermination
    && Recognised(Strip(text)).Some? && |Recognised(Strip(text)).value| > 0
  }

  // ----- what a whole generation looks like -----

  /** One turn as it is written; without a start of its own it starts where the one before ended. */
  datatype Line = Line(lead: Option<string>, speaker: string, body: string, last: string) {
    predicate Valid() { IsSpeaker(speaker) && IsNumber(last) && (lead.Some? ==> IsNumber(lead.value)) }

    function Start(previousEnd: real): real
      requires Valid()
    {
      if lead.Some? then NumberValue(lead.value) else previousEnd
    }

    function Turn(): string { Bracketed(speaker) + body + Bracketed(last) }

    function Text(): string { (if lead.Some? then Bracketed(lead.value) else "") + Turn() }
  }

  function Lines(lines: seq<Line>): string {
    if lines == [] then "" else lines[0].Text() + Lines(lines[1..])
  }

  /** Something visible is said, the times do not go back, and the first turn starts at the
      front of the text. */
  predicate GoodLine(line: Line, previousEnd: real, first: bool) {
    && line.Valid() && (first ==> line.lead.None?)
    && '[' !in line.body && ']' !in line.body && Strip(line.body) != ""
    && previousEnd <= line.Start(previousEnd) <= NumberValue(line.last)
  }

  predicate WellFormed(lines: seq<Line>, previousEnd: real, first: bool) {
    lines == []
    || (GoodLine(lines[0], previousEnd, first) && WellFormed(lines[1..], NumberValue(lines[0].last), false))
  }

  function SpokenLines(lines: seq<Line>, previousEnd: real, first: bool): seq<Spoken>
    requires WellFormed(lines, previousEnd, first)
  {
    if lines == [] then []
    else
      var end := NumberValue(lines[0].last);
      [Spoken(lines[0].Start(previousEnd), Strip(lines[0].body), end)] + SpokenLines(lines[1..], end, false)
  }

  /** What the loop reads of one written line. */
  lemma LineIsRead(t: string, line: Line, rest: string)
    requires line.Valid() && t == line.Text() + rest
    requires '[' !in line.body && ']' !in line.body && Strip(line.body) != ""
    ensures line.lead.Some? ==>
              Timestamp(t) == Some(Stamp(|line.lead.value| + 2, NumberValue(line.lead.value)))
    ensures line.lead.None? ==> Timestamp(t).None?
    ensures var turn := if line.lead.Some? then t[|line.lead.value| + 2..] else t;
            && TurnAt(turn) == Some(Turn(line.body, NumberValue(line.last), |line.Turn()|))
            && turn[|line.Turn()|..] == rest
  {
    hide Timestamp, IsNumber, NumberValue, Strip, TurnAt;
    var turn := line.Turn() + rest;
    assert turn[|line.Turn()|..] == rest;
    if line.body == "" {
      StripEmpty(line.body);
    }
    WrittenIsRead(turn, line.speaker, line.body, line.last);
    if line.lead.Some? {
      var lead := Bracketed(line.lead.value);
      assert t == lead + turn;
      StampFound(t, line.lead.value);
    } else {
      assert t == turn;
      StartsWithBracket(t);
    }
  }

  /** Every well-formed text of lines is recognised, line by line. */
  lemma {:induction false} LinesAreRecognised(lines: seq<Line>, previousEnd: real, first: bool)
    requires WellFormed(lines, previousEnd, first)
    ensures Turns(Lines(lines), previousEnd, first) == Some(SpokenLines(lines, previousEnd, first))
  {
    hide Timestamp, TurnAt, Strip, NumberValue, IsNumber, IsSpeaker;
    if lines != [] {
      var t := Lines(lines);
      LineIsRead(t, lines[0], Lines(lines[1..]));
      LinesAreRecognised(lines[1..], NumberValue(lines[0].last), false);
    }
  }

  lemma LineBefore(line: Line, more: seq<Line>, previousEnd: real, first: bool)
    requires GoodLine(line, previousEnd, first) && WellFormed(more, NumberValue(line.last), false)
    ensures WellFormed([line] + more, previousEnd, first) && Lines([line] + more) == line.Text() + Lines(more)
  {
    hide Strip, NumberValue, IsNumber, IsSpeaker, Bracketed;
    assert ([line] + more)[1..] == more;
  }

  /** The line that the first pass of the loop reads. */
  lemma FirstLine(t: string, previousEnd: real, first: bool) returns (line: Line, rest: string)
    requires t != [] && Turns(t, previousEnd, first).Some?
    ensures line.Valid() && GoodLine(line, previousEnd, first) && t == line.Text() + rest && |rest| < |t|
    ensures Turns(rest, NumberValue(line.last), false).Some?
  {
    hide Timestamp, TurnAt, Strip, NumberValue, IsNumber, IsSpeaker, Bracketed;
    var lead, turn := None, t;
    if !first && Timestamp(t).Some? {
      var number := StampReads(t);
      lead, turn := Some(number), t[|Bracketed(number)|..];
      assert t == Bracketed(number) + turn;
    }
    var speaker, body, last := ReadIsWritten(turn);
    WrittenIsRead(turn, speaker, body, last);
    line := Line(lead, speaker, body, last);
    rest := turn[TurnAt(turn).value.length..];
    WrittenLength(turn, speaker, body, last);
    assert turn == line.Turn() + rest;
    assert lead.Some? ==> t == Bracketed(lead.value) + line.Turn() + rest;
  }

  lemma WrittenLength(t: string, speaker: string, body: string, last: string)
    requires Written(t, speaker, body, last)
    ensures |Bracketed(speaker) + body + Bracketed(last)| == |speaker| + |body| + |last| + 4
    ensures t == Bracketed(speaker) + body + Bracketed(last) + t[|speaker| + |body| + |last| + 4..]
  {
  }

  /** And whatever is recognised is such a text. */
  lemma {:induction false} RecognisedAreLines(t: string, previousEnd: real, first: bool) returns (lines: seq<Line>)
    requires Turns(t, previousEnd, first).Some?
    ensures WellFormed(lines, previousEnd, first) && t == Lines(lines)
    decreases |t|
  {
    hide GoodLine, Turns, NumberValue, Bracketed;
    lines := [];
    if t != [] {
      var line, rest := FirstLine(t, previousEnd, first);
      var more := RecognisedAreLines(rest, NumberValue(line.last), false);
      LineBefore(line, more, previousEnd, first);
      lines := [line] + more;
    }
  }

  /** A generation with a start time and one or more lines. */
  ghost predicate IsGeneration(text: string, initial: string, lines: seq<Line>) {
    && IsNumber(initial) && text == Bracketed(initial) + Lines(lines) && lines != []
    && WellFormed(lines, NumberValue(initial), true)
  }

  lemma GenerationRecognised(text: string, initial: string, lines: seq<Line>)
    requires IsGeneration(text, initial, lines)
    ensures Recognised(text) == Some(SpokenLines(lines, NumberValue(initial), true))
    ensures |Recognised(text).value| > 0
  {
    hide Timestamp, Strip, NumberValue, IsNumber, WellFormed, Turns, Bracketed;
    StampFound(text, initial);
    assert text[|Bracketed(initial)|..] == Lines(lines);
    LinesAreRecognised(lines, NumberValue(initial), true);
  }

  lemma RecognisedGeneration(text: string) returns (initial: string, lines: seq<Line>)
    requires Recognised(text).Some? && |Recognised(text).value| > 0
    ensures IsGeneration(text, initial, lines)
  {
    hide Timestamp, Strip, NumberValue, IsNumber, WellFormed, Turns, Bracketed, SpokenLines;
    initial := StampReads(text);
    var rest := text[|Bracketed(initial)|..];
    lines := RecognisedAreLines(rest, NumberValue(initial), true);
    assert text == Bracketed(initial) + rest;
    if lines == [] {
      NothingRecognised(NumberValue(initial));
    }
  }

  lemma NothingRecognised(previousEnd: real)
    ensures Turns("", previousEnd, true) == Some([]) && Lines([]) == ""
  {
  }

  /** A generation is complete exactly if it ended normally within the reserve and its text is a
      start time and well-formed lines. */
  lemma CompleteIff(raw: string, tokenCount: Option<int>, normalTermination: bool)
    ensures Complete(raw, tokenCount, normalTermination) <==>
            && normalTermination && tokenCount.Some? && 0 <= tokenCount.value < OUTPUT_RESERVE
            && exists initial, lines :: IsGeneration(Strip(raw), initial, lines)
  {
    hide Strip, Recognised, IsGeneration;
    var text := Strip(raw);
    if Recognised(text).Some? && |Recognised(text).value| > 0 {
      var initial, lines := RecognisedGeneration(text);
    }
    if initial, lines :| IsGeneration(text, initial, lines) {
      GenerationRecognised(text, initial, lines);
    }
  }

  /** `tokenCount` is None for metadata that is missing or not an integer. The error code
      is None exactly for a complete generation. */
  method ClassifyGeneration(raw: string, tokenCount: Option<int>, normalTermination: bool)
    returns (error: Option<string>)
    ensures error.None? <==>
            && normalTermination && tokenCount.Some? && 0 <= tokenCount.value < OUTPUT_RESERVE
            && Recognised(Strip(raw)).Some? && |Recognised(Strip(raw)).value| > 0
    ensures error.None? <==> Complete(raw, tokenCount, normalTermination)
    ensures error.Some? ==> error.value == "GENERATION_LIMIT_REACHED"
  {
    hide Timestamp, TurnAt, Strip;
    var failed := Some("GENERATION_LIMIT_REACHED");
    if tokenCount.None? || tokenCount.value < 0 || tokenCount.value >= OUTPUT_RESERVE || !normalTermination {
      return failed;
    }
    var text := Strip(raw);
    var initial := Timestamp(text);
    if initial.None? {
      return failed;
    }
    var position := initial.value.length;
    var previousEnd := initial.value.seconds;
    var segments := 0;
    while position < |text|
      invariant position <= |text|
      invariant Recognised(text).Some? <==> Turns(text[position..], previousEnd, segments == 0).Some?
      invariant Recognised(text).Some? ==>
                  |Recognised(text).value| == segments + |Turns(text[position..], previousEnd, segments == 0).value|
    {
      ghost var before, was := text[position..], previousEnd;
      var explicitStart := if segments > 0 then Timestamp(text[position..]) else None;
      if explicitStart.Some? {
        if explicitStart.value.seconds < previousEnd {
          return failed;
        }
        previousEnd := explicitStart.value.seconds;
        position := position + explicitStart.value.length;
        assert text[position..] == before[explicitStart.value.length..];
      }
      var turn := TurnAt(text[position..]);
      if turn.None? || Strip(turn.value.spoken) == "" {
        return failed;
      }
      if turn.value.end < previousEnd {
        return failed;
      }
      assert text[position..][turn.value.length..] == text[position + turn.value.length..];
      previousEnd := turn.value.end;
      position := position + turn.value.length;
      segments := segments + 1;
    }
    return if segments > 0 then None else failed;
  }

  // ----- the parser reads what the classifier recognised -----

  lemma TimestampInside(raw: string, p: nat, end: nat)
    requires p <= end <= |raw| && Timestamp(raw[p..end]).Some?
    ensures Timestamp(raw[p..]) == Timestamp(raw[p..end])
  {
    TimestampStable(raw[p..end], raw[end..]);
    assert raw[p..] == raw[p..end] + raw[end..];
  }

  lemma SpeakerInside(raw: string, p: nat, end: nat)
    requires p <= end <= |raw| && Speaker(raw[p..end]).Some?
    ensures Speaker(raw[p..]) == Speaker(raw[p..end])
  {
    SpeakerStable(raw[p..end], raw[end..]);
    assert raw[p..] == raw[p..end] + raw[end..];
  }

  /** The tokens of a turn, found again in the whole text with the parser's matchers:
      `body` is where the spoken text starts and `close` where its end timestamp does. */
  lemma TurnTokens(raw: string, p: nat, end: nat) returns (speaker: string, body: nat, close: nat)
    requires p <= end <= |raw| && TurnAt(raw[p..end]).Some?
    ensures p < body < close < end && Speaker(raw[p..]) == Some(Tag(body - p, speaker))
    ensures FindOpen(raw[body..], 0) == close - body && ']' !in raw[body..close]
    ensures var turn := TurnAt(raw[p..end]).value;
            && turn.spoken == raw[body..close] && close < p + turn.length <= end
            && Timestamp(raw[close..]) == Some(Stamp(p + turn.length - close, turn.end))
  {
    hide Timestamp, Speaker;
    var t := raw[p..end];
    var tag := Speaker(t).value;
    var n := PlainRun(t, tag.length);
    SpeakerInside(raw, p, end);
    speaker, body, close := tag.speaker, p + tag.length, p + n;
    assert t[n..] == raw[close..end];
    TimestampInside(raw, close, end);
    StartsWithBracket(t[n..]);
    assert forall k :: tag.length <= k <= n ==> raw[body..][k - tag.length] == t[k];
    assert FindOpen(raw[body..], 0) == close - body by {
      assert raw[body..][close - body] == t[n] == t[n..][0];
      assert forall k :: 0 <= k < close - body ==> raw[body..][k] == t[k + tag.length];
    }
    assert t[tag.length..n] == raw[body..close];
    assert forall k :: 0 <= k < close - body ==> raw[body..close][k] == t[k + tag.length];
  }

  lemma ReadTokens(t: string, start: Stamp, tag: Tag, n: nat, stamp: Stamp, previousEnd: real, duration: real)
    returns (u: Utterance)
    requires Timestamp(t) == Some(start) && Speaker(t[start.length..]) == Some(tag)
    requires start.length + tag.length + n <= |t| && FindOpen(t[start.length + tag.length..], 0) == n
    requires Timestamp(t[start.length + tag.length..][n..]) == Some(stamp)
    requires Strip(t[start.length + tag.length..][..n]) != "" && ']' !in t[start.length + tag.length..][..n]
    requires previousEnd <= start.seconds <= stamp.seconds
    ensures Read(t, previousEnd, duration).Accept?
            == (start.seconds <= duration && stamp.seconds <= duration + END_CLAMP_TOLERANCE)
    ensures Read(t, previousEnd, duration).Accept? ==> Read(t, previousEnd, duration).u == u
    ensures u == Utterance(start.seconds, tag.speaker, Strip(t[start.length + tag.length..][..n]), stamp.seconds,
                           start.length + tag.length + n, start.length + tag.length + n + stamp.length,
                           Speaker(t[start.length + tag.length..][n + stamp.length..]).Some?)
  {
    hide Timestamp, Speaker, Strip, FindOpen;
    u := Utterance(start.seconds, tag.speaker, Strip(t[start.length + tag.length..][..n]), stamp.seconds,
                   start.length + tag.length + n, start.length + tag.length + n + stamp.length,
                   Speaker(t[start.length + tag.length..][n + stamp.length..]).Some?);
  }

  /** A turn that follows a start timestamp at `q` is an utterance of the parser, unless it
      starts after the window or ends beyond the clamping tolerance. */
  lemma TurnReads(raw: string, q: nat, p: nat, end: nat, previousEnd: real, start: real, duration: real)
    returns (u: Utterance)
    requires q < p <= end <= |raw|
    requires Timestamp(raw[q..]) == Some(Stamp(p - q, start)) && previousEnd <= start
    requires TurnAt(raw[p..end]).Some?
    requires Strip(TurnAt(raw[p..end]).value.spoken) != "" && start <= TurnAt(raw[p..end]).value.end
    ensures var turn := TurnAt(raw[p..end]).value;
            && Read(raw[q..], previousEnd, duration).Accept?
              == (start <= duration && turn.end <= duration + END_CLAMP_TOLERANCE)
            && (Read(raw[q..], previousEnd, duration).Accept? ==> Read(raw[q..], previousEnd, duration).u == u)
            && u.start == start && u.text == Strip(turn.spoken) && u.stamped == turn.end
            && q + u.stampedEnd == p + turn.length && u.bodyEnd < u.stampedEnd
            && u.shared == Speaker(raw[p + turn.length..]).Some?
            && Timestamp(raw[q + u.bodyEnd..]) == Some(Stamp(u.stampedEnd - u.bodyEnd, turn.end))
  {
    hide Timestamp, Speaker, Strip, Read, TurnAt, FindOpen;
    var speaker, body, close := TurnTokens(raw, p, end);
    var turn := TurnAt(raw[p..end]).value;
    var front := raw[q..];
    assert front[p - q..] == raw[p..];
    assert front[body - q..] == raw[body..];
    assert raw[body..][close - body..] == raw[close..];
    assert raw[body..][..close - body] == raw[body..close];
    assert raw[body..][p + turn.length - body..] == raw[p + turn.length..];
    u := ReadTokens(front, Stamp(p - q, start), Tag(body - p, speaker), close - body,
                    Stamp(p + turn.length - close, turn.end), previousEnd, duration);
  }

  lemma StartsWithBracket(t: string)
    ensures Timestamp(t).Some? ==> |t| > 1 && t[0] == '[' && t[1] != 'S'
  {
    if Timestamp(t).Some? {
      var number := t[1..Timestamp(t).value.length - 1];
      TimestampIff(t, number);
      assert number[0] == t[1];
    }
  }

  lemma {:induction false} ScanBlank(raw: string, position: nat, stop: nat, previousEnd: real, duration: real)
    requires position <= stop <= |raw| && forall k :: position <= k < stop ==> IsSpace(raw[k])
    ensures Scan(raw, position, previousEnd, duration) == Scan(raw, stop, previousEnd, duration)
    decreases stop - position
  {
    hide Read, IsSpace, Scan;
    if position < stop {
      ScanStep(raw, position, previousEnd, duration, Dangling);
      ScanBlank(raw, position + 1, stop, previousEnd, duration);
    }
  }

  lemma NoSpeakerInSpace(raw: string, end: nat)
    requires end <= |raw| && Blank(raw[end..])
    ensures Speaker(raw[end..]).None?
  {
    if end < |raw| {
      assert IsSpace(raw[end..][0]);
    }
  }

  predicate SameSpeech(accepted: seq<Accepted>, turns: seq<Spoken>) {
    && |accepted| == |turns|
    && forall k :: 0 <= k < |turns| ==>
         accepted[k].u.start == turns[k].start && accepted[k].u.text == turns[k].text
           && accepted[k].u.stamped == turns[k].end
  }

  /** Every turn starts inside a window of this length and ends at most one raster step after it. */
  predicate WithinWindow(turns: seq<Spoken>, duration: real) {
    forall k :: 0 <= k < |turns| ==> turns[k].start <= duration && turns[k].end <= duration + END_CLAMP_TOLERANCE
  }

  /** The parser's reading agrees with the turns: complete and the same speech when the
      turns are within the window, and fewer segments when they are not. */
  predicate Agrees(r: Reading, turns: seq<Spoken>, duration: real) {
    if WithinWindow(turns, duration) then r.ending.Complete? && SameSpeech(r.accepted, turns)
      else |r.accepted| < |turns|
  }

  lemma AgreesCons(x: Accepted, rest: Reading, turn: Spoken, more: seq<Spoken>, duration: real)
    requires turn.start <= duration && turn.end <= duration + END_CLAMP_TOLERANCE
    requires x.u.start == turn.start && x.u.text == turn.text && x.u.stamped == turn.end
    requires Agrees(rest, more, duration)
    ensures Agrees(Reading([x] + rest.accepted, rest.ending), [turn] + more, duration)
  {
    var all := [turn] + more;
    assert forall k :: 0 <= k < |more| ==> all[k + 1] == more[k];
    assert WithinWindow(all, duration) <==> WithinWindow(more, duration);
  }

  /** One pass of the classifier's loop from `raw[p..end]`, with `start` already read. */
  lemma TurnsStep(raw: string, p: nat, end: nat, start: real)
    requires p < end <= |raw| && Turns(raw[p..end], start, true).Some?
    ensures TurnAt(raw[p..end]).Some?
    ensures var turn := TurnAt(raw[p..end]).value;
            && Strip(turn.spoken) != "" && start <= turn.end && p + turn.length <= end
            && Turns(raw[p + turn.length..end], turn.end, false).Some?
            && Turns(raw[p..end], start, true).value
               == [Spoken(start, Strip(turn.spoken), turn.end)]
                 + Turns(raw[p + turn.length..end], turn.end, false).value
  {
    hide Timestamp, TurnAt, Strip;
    var turn := TurnAt(raw[p..end]).value;
    assert raw[p..end][turn.length..] == raw[p + turn.length..end];
  }

  /** The next pass may read an explicit start. */
  lemma TurnsExplicit(raw: string, p: nat, end: nat, previousEnd: real)
    requires p < end <= |raw| && Turns(raw[p..end], previousEnd, false).Some? && Timestamp(raw[p..end]).Some?
    ensures var stamp := Timestamp(raw[p..end]).value;
            && p + stamp.length < end && previousEnd <= stamp.seconds
            && Timestamp(raw[p..]) == Some(stamp) && Speaker(raw[p..]).None?
            && Turns(raw[p..end], previousEnd, false) == Turns(raw[p + stamp.length..end], stamp.seconds, true)
  {
    hide Timestamp, Strip, TurnAt;
    var stamp := Timestamp(raw[p..end]).value;
    TimestampInside(raw, p, end);
    StartsWithBracket(raw[p..]);
    assert raw[p..end][stamp.length..] == raw[p + stamp.length..end];
  }

  /** Otherwise it shares the end just read, and a speaker follows. */
  lemma TurnsShared(raw: string, p: nat, end: nat, previousEnd: real)
    requires p < end <= |raw| && Turns(raw[p..end], previousEnd, false).Some? && Timestamp(raw[p..end]).None?
    ensures Speaker(raw[p..]).Some? && Turns(raw[p..end], previousEnd, false) == Turns(raw[p..end], previousEnd, true)
  {
    hide Timestamp, Strip, Speaker;
    SpeakerInside(raw, p, end);
  }

  lemma {:induction false} TurnsAgree(raw: string, q: nat, p: nat, end: nat, previousEnd: real, start: real,
                                      duration: real)
    requires q < p < end <= |raw| && Blank(raw[end..]) && !IsSpace(raw[q])
    requires Timestamp(raw[q..]) == Some(Stamp(p - q, start)) && previousEnd <= start
    requires Turns(raw[p..end], start, true).Some?
    ensures Agrees(Scan(raw, q, previousEnd, duration), Turns(raw[p..end], start, true).value, duration)
    decreases end - p
  {
    hide Timestamp, Speaker, TurnAt, Turns, Strip, Scan, Read, IsSpace, Agrees;
    TurnsStep(raw, p, end, start);
    var turn := TurnAt(raw[p..end]).value;
    var next := p + turn.length;
    var u := TurnReads(raw, q, p, end, previousEnd, start, duration);
    var more := Turns(raw[next..end], turn.end, false).value;
    var f := Read(raw[q..], previousEnd, duration);
    ScanStep(raw, q, previousEnd, duration, f);
    if !f.Accept? {
      TooLate(Scan(raw, q, previousEnd, duration), Spoken(start, Strip(turn.spoken), turn.end), more, duration);
    } else {
      var x := Accepted(q, q + u.Length(), u);
      var rest := Scan(raw, x.to, u.End(duration), duration);
      if next == end {
        NoSpeakerInSpace(raw, end);
        TurnsEnd(raw, end, turn.end);
        assert forall k :: end <= k < |raw| ==> raw[k] == raw[end..][k - end];
        ScanBlank(raw, end, |raw|, u.End(duration), duration);
        ScanEnd(raw, u.End(duration), duration);
        NothingAgrees(duration);
      } else {
        if Timestamp(raw[next..end]).Some? {
          TurnsExplicit(raw, next, end, turn.end);
          var stamp := Timestamp(raw[next..end]).value;
          VisibleStart(raw, next);
          TurnsAgree(raw, next, next + stamp.length, end, u.End(duration), stamp.seconds, duration);
        } else {
          TurnsShared(raw, next, end, turn.end);
          VisibleStart(raw, x.to);
          TurnsAgree(raw, x.to, next, end, u.End(duration), turn.end, duration);
        }
      }
      AgreesCons(x, rest, Spoken(start, Strip(turn.spoken), turn.end), more, duration);
    }
  }

  lemma TooLate(r: Reading, turn: Spoken, more: seq<Spoken>, duration: real)
    requires r.accepted == [] && !(turn.start <= duration && turn.end <= duration + END_CLAMP_TOLERANCE)
    ensures Agrees(r, [turn] + more, duration)
  {
    assert ([turn] + more)[0] == turn;
  }

  lemma NothingAgrees(duration: real)
    ensures Agrees(Reading([], Ending.Complete), [], duration)
  {
  }

  lemma TurnsEnd(raw: string, end: nat, previousEnd: real)
    requires end <= |raw|
    ensures Turns(raw[end..end], previousEnd, false) == Some([])
  {
  }

  lemma VisibleStart(raw: string, q: nat)
    requires q <= |raw| && Timestamp(raw[q..]).Some?
    ensures q < |raw| && !IsSpace(raw[q])
  {
    StartsWithBracket(raw[q..]);
    assert raw[q..][0] == raw[q];
  }

  /** The two scanners agree. For a generation the classifier takes for complete, the
      parser reports no invalid or dangling fragment and exactly the turns that the
      classifier counted, with their times and text, if and only if every turn starts
      inside the window and ends no more than the clamping tolerance after it. */
  lemma ClassifierAndParserAgree(raw: string, tokenCount: Option<int>, normalTermination: bool, duration: real)
    requires Complete(raw, tokenCount, normalTermination)
    ensures var turns := Recognised(Strip(raw)).value;
            var r := Scan(raw, 0, 0.0, duration);
            && (r.ending.Complete? && SameSpeech(r.accepted, turns) <==> WithinWindow(turns, duration))
            && (|r.accepted| == |turns| <==> WithinWindow(turns, duration))
  {
    hide Timestamp, Turns, Scan, IsSpace;
    var q, end := StripFrom(raw), StripTo(raw);
    StripParts(raw);
    assert forall k :: 0 <= k < q ==> raw[k] == raw[..q][k];
    ScanBlank(raw, 0, q, 0.0, duration);
    var initial := Timestamp(raw[q..end]).value;
    TimestampInside(raw, q, end);
    VisibleStart(raw, q);
    var p := q + initial.length;
    var rest := raw[p..end];
    assert raw[q..end][initial.length..] == rest;
    NoTurns(initial.seconds);
    assert rest != [];
    TurnsAgree(raw, q, p, end, 0.0, initial.seconds, duration);
  }

  lemma NoTurns(previousEnd: real)
    ensures Turns([], previousEnd, true) == Some([])
  {
  }
}
