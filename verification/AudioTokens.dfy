/** The token arithmetic shared by planning and execution: linux/backend/moss_worker's
    embedding_builder.py and audio_frontend.py, and the duration that supervisor.py plans. */
module AudioTokens {
  import opened Wrappers
  import opened Windowing
  import opened Labels
  import opened Arithmetic

  // ----- the audio span -----

  /** The tokenizer's ids and the marker settings. */
  datatype Markers = Markers(audioId: int, digitId: char -> int, perSecond: real, cadence: int, enabled: bool)

  function PerMarker(c: Markers): int { (c.perSecond * c.cadence as real).Floor }

  predicate HasMarkers(c: Markers, n: int) { c.enabled && n != 0 && c.cadence > 0 && PerMarker(c) > 0 }

  function Repeat(id: int, n: nat): seq<int> { seq(n, i => id) }

  function DigitIds(c: Markers, text: string): seq<int> {
    seq(|text|, i requires 0 <= i < |text| => c.digitId(text[i]))
  }

  /** How many markers a span of `n` audio tokens has: one every `cadence` seconds. */
  function MarkerCount(c: Markers, n: nat): nat
    requires HasMarkers(c, n)
  {
    PositiveRate(c);
    NonNegativeSeconds(c, n);
    (n as real / c.perSecond).Floor / c.cadence
  }

  lemma PositiveRate(c: Markers)
    requires c.cadence > 0 && PerMarker(c) > 0
    ensures c.perSecond > 0.0
  {
    if c.perSecond <= 0.0 {
      ScaleLe(c.perSecond, 0.0, c.cadence as real);
    }
  }

  lemma NonNegativeSeconds(c: Markers, n: nat)
    requires c.perSecond > 0.0
    ensures (n as real / c.perSecond).Floor >= 0
  {
    assert n as real / c.perSecond >= 0.0;
  }

  /** The first `k` stretches: each is `PerMarker` audio tokens and the digits of its second. */
  function Marked(c: Markers, k: nat): seq<int> {
    if k == 0 then []
    else
      Marked(c, k - 1) + Repeat(c.audioId, if PerMarker(c) > 0 then PerMarker(c) else 0)
      + DigitIds(c, Decimal(Second(c, k)))
  }

  function Second(c: Markers, k: nat): nat { if c.cadence > 0 then k * c.cadence else 0 }

  function Span(c: Markers, n: nat): seq<int> {
    if !HasMarkers(c, n) then Repeat(c.audioId, n)
    else
      MarkersFit(c, n);
      Marked(c, MarkerCount(c, n)) + Repeat(c.audioId, n - MarkerCount(c, n) * PerMarker(c))
  }

  /** The markers never need more audio tokens than there are. */
  lemma MarkersFit(c: Markers, n: nat)
    requires HasMarkers(c, n)
    ensures MarkerCount(c, n) * PerMarker(c) <= n
  {
    PositiveRate(c);
    var seconds := n as real / c.perSecond;
    var k := MarkerCount(c, n);
    QuotientScale(seconds.Floor, c.cadence, k);
    RatesAgree(k, c.cadence, c.perSecond, seconds);
    assert seconds * c.perSecond == n as real;
    ScaleLe(PerMarker(c) as real, c.perSecond * c.cadence as real, k as real);
    IntProduct(k, PerMarker(c));
  }

  lemma QuotientScale(x: nat, m: int, k: nat)
    requires m > 0 && k == x / m
    ensures k * m <= x
  {
  }

  lemma IntProduct(a: int, b: int)
    ensures (a * b) as real == a as real * b as real
  {
  }

  lemma Reorder(a: real, b: real, c: real)
    ensures a * b * c == (c * b) * a
  {
  }

  lemma RatesAgree(k: nat, cadence: int, rate: real, seconds: real)
    requires rate > 0.0 && (k * cadence) as real <= seconds
    ensures (rate * cadence as real) * k as real <= seconds * rate
  {
    ScaleLe((k * cadence) as real, seconds, rate);
    IntProduct(k, cadence);
    Reorder(k as real, cadence as real, rate);
  }

  lemma ScaleLe(a: real, b: real, factor: real)
    requires a <= b && factor >= 0.0
    ensures a * factor <= b * factor
  {
    assert (b - a) * factor >= 0.0;
  }

  datatype SpanError = NegativeCount | PlaceholderCount

  /** Only a count that is an integer of at least zero is accepted. */
  method BuildAudioSpanIds(c: Markers, nAudio: int) returns (r: Result<seq<int>, SpanError>)
    ensures r.Success? <==> nAudio >= 0
    ensures r.Failure? ==> r.error == NegativeCount
    ensures r.Success? ==> r.value == Span(c, nAudio)
  {
    if nAudio < 0 {
      return Failure(NegativeCount);
    }
    var perMarker := PerMarker(c);
    if !c.enabled || nAudio == 0 || c.cadence <= 0 || perMarker <= 0 {
      return Success(Repeat(c.audioId, nAudio));
    }
    PositiveRate(c);
    NonNegativeSeconds(c, nAudio);
    var output: seq<int>, consumed := [], 0;
    var last := (nAudio as real / c.perSecond).Floor;
    var sec := c.cadence;
    ghost var k := 0;
    SecondNext(c, 0);
    while sec < last + 1
      invariant k <= MarkerCount(c, nAudio) && sec == Second(c, k + 1)
      invariant consumed == k * perMarker && output == Marked(c, k)
      decreases last - sec
    {
      SecondQuotient(c, k + 1);
      SecondWithin(c, k + 1, last);
      var position := (sec / c.cadence) * perMarker;
      MulNext(k, perMarker);
      output := output + Repeat(c.audioId, position - consumed);
      consumed := position;
      output := output + DigitIds(c, Decimal(sec));
      SecondNext(c, k + 1);
      sec := sec + c.cadence;
      k := k + 1;
    }
    SecondWithin(c, k + 1, last);
    MarkersFit(c, nAudio);
    return Success(output + Repeat(c.audioId, nAudio - consumed));
  }

  lemma SecondNext(c: Markers, k: nat)
    requires c.cadence > 0
    ensures Second(c, k + 1) == Second(c, k) + c.cadence && Second(c, 0) == 0
  {
    MulNext(k, c.cadence);
  }

  lemma SecondQuotient(c: Markers, k: nat)
    requires c.cadence > 0
    ensures Second(c, k) / c.cadence == k
  {
    DivideExact(k, c.cadence);
  }

  lemma SecondWithin(c: Markers, k: nat, last: nat)
    requires c.cadence > 0
    ensures Second(c, k) <= last <==> k <= last / c.cadence
  {
    var q := last / c.cadence;
    if k <= q {
      if k < q { MulGap(k, q, c.cadence); }
    } else {
      MulGap(q, k, c.cadence);
    }
  }

  // ----- what the span holds -----

  function CountOf(ids: seq<int>, id: int): nat {
    if ids == [] then 0 else CountOf(ids[..|ids| - 1], id) + if ids[|ids| - 1] == id then 1 else 0
  }

  lemma {:induction false} CountConcat(a: seq<int>, b: seq<int>, id: int)
    ensures CountOf(a + b, id) == CountOf(a, id) + CountOf(b, id)
  {
    if b == [] {
      assert a + b == a;
    } else {
      CountConcat(a, b[..|b| - 1], id);
      assert (a + b)[..|a + b| - 1] == a + b[..|b| - 1];
    }
  }

  lemma {:induction false} CountRepeat(id: int, n: nat)
    ensures CountOf(Repeat(id, n), id) == n
  {
    if n > 0 {
      CountRepeat(id, n - 1);
      assert Repeat(id, n)[..n - 1] == Repeat(id, n - 1);
    }
  }

  lemma {:induction false} CountAbsent(ids: seq<int>, id: int)
    ensures CountOf(ids, id) == 0 <==> id !in ids
  {
    if ids != [] {
      CountAbsent(ids[..|ids| - 1], id);
      assert ids == ids[..|ids| - 1] + [ids[|ids| - 1]];
    }
  }

  /** The audio placeholder is not a digit's token. */
  ghost predicate Distinct(c: Markers) { forall d: char :: IsDigit(d) ==> c.digitId(d) != c.audioId }

  lemma DigitsAreNotAudio(c: Markers, n: nat)
    requires Distinct(c)
    ensures CountOf(DigitIds(c, Decimal(n)), c.audioId) == 0
  {
    DecimalRoundTrip(n);
    CountAbsent(DigitIds(c, Decimal(n)), c.audioId);
  }

  lemma {:induction false} MarkedCount(c: Markers, k: nat)
    requires Distinct(c) && PerMarker(c) > 0
    ensures CountOf(Marked(c, k), c.audioId) == k * PerMarker(c)
  {
    hide CountOf, Repeat, DigitIds, PerMarker, Decimal;
    if k == 0 {
      CountNone(c.audioId);
    } else {
      var stretch, digits := Repeat(c.audioId, PerMarker(c)), DigitIds(c, Decimal(Second(c, k)));
      MarkedCount(c, k - 1);
      CountRepeat(c.audioId, PerMarker(c));
      DigitsAreNotAudio(c, Second(c, k));
      CountConcat(Marked(c, k - 1) + stretch, digits, c.audioId);
      CountConcat(Marked(c, k - 1), stretch, c.audioId);
      MulNext(k - 1, PerMarker(c));
    }
  }

  lemma CountNone(id: int)
    ensures CountOf([], id) == 0
  {
  }

  /** A span for `n` audio tokens holds exactly `n` of them, however many markers stand between. */
  lemma SpanCount(c: Markers, n: nat)
    requires Distinct(c)
    ensures CountOf(Span(c, n), c.audioId) == n
  {
    hide CountOf, Repeat, Marked, PerMarker;
    CountRepeat(c.audioId, n);
    if HasMarkers(c, n) {
      MarkersFit(c, n);
      var k := MarkerCount(c, n);
      var rest := n - k * PerMarker(c);
      MarkedCount(c, k);
      CountRepeat(c.audioId, rest);
      CountConcat(Marked(c, k), Repeat(c.audioId, rest), c.audioId);
    }
  }

  /** The marker of second k*cadence follows exactly k*PerMarker audio tokens. */
  lemma MarkerPosition(c: Markers, n: nat, k: nat)
    requires Distinct(c) && HasMarkers(c, n) && 0 < k <= MarkerCount(c, n)
    ensures exists before, after :: Span(c, n) == before + DigitIds(c, Decimal(k * c.cadence)) + after
                                    && CountOf(before, c.audioId) == k * PerMarker(c)
  {
    hide CountOf, PerMarker, DigitIds, Decimal;
    var m := MarkerCount(c, n);
    var stretch := Repeat(c.audioId, PerMarker(c));
    var before := Marked(c, k - 1) + stretch;
    MarkedCount(c, k - 1);
    CountRepeat(c.audioId, PerMarker(c));
    CountConcat(Marked(c, k - 1), stretch, c.audioId);
    MulNext(k - 1, PerMarker(c));
    MarkedPrefix(c, k, m);
    MarkersFit(c, n);
    var after := Marked(c, m)[|Marked(c, k)|..] + Repeat(c.audioId, n - m * PerMarker(c));
    var digits := DigitIds(c, Decimal(k * c.cadence));
    assert Marked(c, k) == before + digits;
    assert Span(c, n) == before + digits + after;
  }

  lemma {:induction false} MarkedPrefix(c: Markers, k: nat, m: nat)
    requires k <= m
    ensures Marked(c, k) <= Marked(c, m)
    decreases m
  {
    if k < m {
      MarkedPrefix(c, k, m - 1);
    }
  }

  // ----- planning and execution count the same -----

  /** The rendered prompt, split at the audio placeholder; anything but two pieces is refused. */
  method ExpandInputIds(c: Markers, pieces: seq<string>, encode: string -> seq<int>, nAudio: int)
    returns (r: Result<seq<int>, SpanError>)
    ensures r.Success? <==> |pieces| == 2 && nAudio >= 0
    ensures r == Failure(PlaceholderCount) <==> |pieces| != 2
    ensures r.Success? ==> r.value == Expanded(c, pieces, encode, nAudio)
  {
    if |pieces| != 2 {
      return Failure(PlaceholderCount);
    }
    var span := BuildAudioSpanIds(c, nAudio);
    if span.Failure? {
      return Failure(span.error);
    }
    return Success(encode(pieces[0]) + span.value + encode(pieces[1]));
  }

  function Expanded(c: Markers, pieces: seq<string>, encode: string -> seq<int>, nAudio: nat): seq<int>
    requires |pieces| == 2
  {
    encode(pieces[0]) + Span(c, nAudio) + encode(pieces[1])
  }

  /** The feature extractor's chunk length and its samples per token. */
  datatype Chunking = Chunking(chunkSamples: nat, stride: nat)

  predicate ValidChunking(f: Chunking) { f.chunkSamples > 0 && f.stride > 0 }

  function Product(a: nat, b: nat): nat { a * b }

  /** The counter's arithmetic for a number of samples. */
  function AudioTokenCount(f: Chunking, samples: nat): nat
    requires ValidChunking(f)
  {
    Product(samples / f.chunkSamples, (f.chunkSamples - 1) / f.stride + 1)
    + if samples % f.chunkSamples != 0 then (samples % f.chunkSamples - 1) / f.stride + 1 else 0
  }

  /** The encoder's rows for one chunk. */
  function ValidTokens(f: Chunking, length: nat): nat
    requires ValidChunking(f)
  {
    (length + f.stride - 1) / f.stride
  }

  lemma CeilingForms(x: nat, stride: nat)
    requires stride > 0 && x > 0
    ensures (x + stride - 1) / stride == (x - 1) / stride + 1
  {
    var q := (x - 1) / stride;
    var r := (x - 1) % stride;
    assert x + stride - 1 == (q + 1) * stride + r by {
      MulNext(q, stride);
    }
    QuotientIs(x + stride - 1, stride, q + 1, r);
  }

  /** The rows of all chunks, cut one after the other from the front. */
  function EncoderRows(f: Chunking, samples: nat): nat
    requires ValidChunking(f)
  {
    if samples == 0 then 0
    else if samples <= f.chunkSamples then ValidTokens(f, samples)
    else ValidTokens(f, f.chunkSamples) + EncoderRows(f, samples - f.chunkSamples)
  }

  lemma OneChunkLess(samples: nat, m: nat)
    requires m > 0 && samples >= m
    ensures samples / m == (samples - m) / m + 1 && samples % m == (samples - m) % m
  {
    MulNext((samples - m) / m, m);
    QuotientIs(samples, m, (samples - m) / m + 1, (samples - m) % m);
  }

  /** The counter that admits a window and the encoder that runs it agree on the number of
      audio tokens, for every number of samples. */
  lemma {:induction false} CounterMatchesEncoder(f: Chunking, samples: nat)
    requires ValidChunking(f)
    ensures EncoderRows(f, samples) == AudioTokenCount(f, samples)
  {
    var m := f.chunkSamples;
    CeilingForms(m, f.stride);
    if samples == 0 {
      QuotientIs(0, m, 0, 0);
    } else if samples < m {
      QuotientIs(samples, m, 0, samples);
      CeilingForms(samples, f.stride);
    } else if samples == m {
      QuotientIs(m, m, 1, 0);
    } else {
      CounterMatchesEncoder(f, samples - m);
      OneChunkLess(samples, m);
      MulNext((samples - m) / m, (m - 1) / f.stride + 1);
    }
  }

  /** The chunks of a window, with their encoder rows. */
  method Chunks(f: Chunking, samples: nat) returns (rows: seq<nat>)
    requires ValidChunking(f)
    ensures Total(rows) == EncoderRows(f, samples)
    ensures forall k :: 0 <= k < |rows| ==> 1 <= rows[k] <= ValidTokens(f, f.chunkSamples)
  {
    rows := [];
    var start := 0;
    while start < samples
      invariant start <= samples
      invariant Total(rows) + EncoderRows(f, samples - start) == EncoderRows(f, samples)
      invariant forall k :: 0 <= k < |rows| ==> 1 <= rows[k] <= ValidTokens(f, f.chunkSamples)
    {
      var length := if start + f.chunkSamples < samples then f.chunkSamples else samples - start;
      TokensMonotone(f, length);
      TotalAppend(rows, ValidTokens(f, length));
      rows := rows + [ValidTokens(f, length)];
      start := start + length;
    }
  }

  lemma TokensMonotone(f: Chunking, length: nat)
    requires ValidChunking(f) && 0 < length <= f.chunkSamples
    ensures 1 <= ValidTokens(f, length) <= ValidTokens(f, f.chunkSamples)
  {
    CeilingForms(length, f.stride);
    CeilingForms(f.chunkSamples, f.stride);
    QuotientOrder(length - 1, f.chunkSamples - 1, f.stride);
  }

  lemma QuotientOrder(a: nat, b: nat, m: nat)
    requires m > 0 && a <= b
    ensures a / m <= b / m
  {
    if b / m < a / m {
      MulGap(b / m, a / m, m);
    }
  }

  function Total(rows: seq<nat>): nat { if rows == [] then 0 else Total(rows[..|rows| - 1]) + rows[|rows| - 1] }

  lemma TotalAppend(rows: seq<nat>, x: nat)
    ensures Total(rows + [x]) == Total(rows) + x
  {
    assert (rows + [x])[..|rows|] == rows;
  }

  datatype BuildError = ContextExceeded | AudioMismatch

  /** Building the decoder's input: the budget first, then one audio row for every placeholder. */
  method Build(c: Markers, pieces: seq<string>, encode: string -> seq<int>, rows: nat)
    returns (r: Result<seq<int>, BuildError>)
    requires |pieces| == 2 && Distinct(c)
    ensures r.Success? ==> r.value == Expanded(c, pieces, encode, rows)
    ensures r == Failure(ContextExceeded) <==> !Fits(|Expanded(c, pieces, encode, rows)|)
    ensures r.Success? <==>
            Fits(|Expanded(c, pieces, encode, rows)|) && c.audioId !in encode(pieces[0])
              && c.audioId !in encode(pieces[1])
  {
    hide CountOf, Span;
    var ids := Expanded(c, pieces, encode, rows);
    if !Fits(|ids|) {
      return Failure(ContextExceeded);
    }
    ExpandedCount(c, pieces, encode, rows);
    var positions := CountOf(ids, c.audioId);
    if positions != rows {
      return Failure(AudioMismatch);
    }
    return Success(ids);
  }

  lemma ExpandedCount(c: Markers, pieces: seq<string>, encode: string -> seq<int>, n: nat)
    requires |pieces| == 2 && Distinct(c)
    ensures CountOf(Expanded(c, pieces, encode, n), c.audioId) == n <==>
            c.audioId !in encode(pieces[0]) && c.audioId !in encode(pieces[1])
  {
    hide CountOf, Span;
    var before, after := encode(pieces[0]), encode(pieces[1]);
    SpanCount(c, n);
    CountConcat(before + Span(c, n), after, c.audioId);
    CountConcat(before, Span(c, n), c.audioId);
    CountAbsent(before, c.audioId);
    CountAbsent(after, c.audioId);
  }

  // ----- windows and frames of the recording -----

  datatype InvalidAudioWindow = InvalidAudioWindow

  /** The frames of a 16 kHz recording that a window reads. */
  method ReadSamples(frames: nat, window: WindowSpec) returns (r: Result<(nat, nat), InvalidAudioWindow>)
    ensures r.Success? <==> ReadableWindow(frames, window.startMs, window.endMs)
    ensures r.Success? ==>
              r.value == (window.startMs * 16, Windowing.Min(window.endMs * 16, frames))
                && r.value.0 < r.value.1 <= frames
    ensures r.Success? ==> r.value.1 - r.value.0 == SampleCount(frames, window.startMs, window.endMs)
  {
    if window.startMs < 0 || window.endMs <= window.startMs || window.endMs > (frames + 15) / 16 {
      return Failure(InvalidAudioWindow);
    }
    var start := window.startMs * 16;
    var end := Windowing.Min(window.endMs * 16, frames);
    if start >= end {
      return Failure(InvalidAudioWindow);
    }
    return Success((start, end));
  }

  predicate ReadableWindow(frames: nat, startMs: int, endMs: int) { 0 <= startMs < endMs <= (frames + 15) / 16 }

  /** The samples of an interval; intervals outside the recording have none. */
  function SampleCount(frames: nat, startMs: int, endMs: int): nat {
    if ReadableWindow(frames, startMs, endMs) then Windowing.Min(endMs * 16, frames) - startMs * 16 else 0
  }

  /** The duration that `submit` plans, and the one that `read_samples` accepts. */
  function DurationMs(frames: nat): nat { (frames * 1000 + 15999) / 16000 }

  lemma DurationForms(frames: nat)
    ensures DurationMs(frames) == (frames + 15) / 16
  {
  }

  /** The counter that planning uses for a recording. */
  function ActualCounter(c: Markers, pieces: seq<string>, encode: string -> seq<int>, f: Chunking, frames: nat): Counter
    requires |pieces| == 2 && ValidChunking(f)
  {
    (startMs: int, endMs: int) => |Expanded(c, pieces, encode, AudioTokenCount(f, SampleCount(frames, startMs, endMs)))|
  }

  /** Planning agrees with execution: every planned window is readable, and the input built
      from what its chunks encode to has exactly the length that admitted it, and fits. */
  lemma PlannedWindowRuns(c: Markers, pieces: seq<string>, encode: string -> seq<int>, f: Chunking, frames: nat,
                          ws: seq<WindowSpec>, i: nat)
    requires |pieces| == 2 && ValidChunking(f) && i < |ws|
    requires Ladder(ws, DurationMs(frames), ActualCounter(c, pieces, encode, f, frames))
    ensures ReadableWindow(frames, ws[i].startMs, ws[i].endMs)
    ensures var rows := EncoderRows(f, SampleCount(frames, ws[i].startMs, ws[i].endMs));
            && |Expanded(c, pieces, encode, rows)|
              == ActualCounter(c, pieces, encode, f, frames)(ws[i].startMs, ws[i].endMs)
            && Fits(|Expanded(c, pieces, encode, rows)|)
  {
    hide Expanded, AudioTokenCount, EncoderRows;
    DurationForms(frames);
    PlanShape(ws, DurationMs(frames), ActualCounter(c, pieces, encode, f, frames), i);
    CounterMatchesEncoder(f, SampleCount(frames, ws[i].startMs, ws[i].endMs));
  }

  predicate Reads(w: WindowSpec, frame: nat, frames: nat) {
    ReadableWindow(frames, w.startMs, w.endMs) && w.startMs * 16 <= frame < Windowing.Min(w.endMs * 16, frames)
  }

  /** Every frame of the recording is read by some planned window. */
  lemma EveryFrameIsRead(frames: nat, ws: seq<WindowSpec>, counter: Counter, frame: nat)
    requires IsPlan(ws, DurationMs(frames), counter) && frame < frames
    ensures exists i :: 0 <= i < |ws| && Reads(ws[i], frame, frames)
  {
    DurationForms(frames);
    var t := frame / 16;
    PlanCovers(ws, DurationMs(frames), counter, |ws|, t);
    var i :| 0 <= i < |ws| && Within(ws[i], t);
    PlanShape(ws, DurationMs(frames), counter, i);
    assert Reads(ws[i], frame, frames);
  }
}
