/** `Pcm16Resampler` and `float32ToPcm16` of webapp/src/audio/browserVoiceprintCapture.ts:
    linear interpolation of a stream that arrives in chunks. Samples are real numbers. */
module Resampler {
  import opened Wrappers

  // ----- one sample -----

  function Clamp(x: real): (r: real)
    ensures -1.0 <= r <= 1.0
  {
    if x > 1.0 then 1.0 else if x < -1.0 then -1.0 else x
  }

  /** `Math.round`: halves go up. */
  function Round(x: real): (n: int)
    ensures n as real - 0.5 <= x < n as real + 0.5
  {
    (x + 0.5).Floor
  }

  function Pcm16(x: real): int {
    var sample := Clamp(x);
    if sample < 0.0 then Round(sample * 32768.0) else Round(sample * 32767.0)
  }

  /** The code always fits 16 bits, and a larger sample never has a smaller code. */
  lemma Pcm16Monotone(x: real, y: real)
    requires x <= y
    ensures -32768 <= Pcm16(x) <= Pcm16(y) <= 32767
  {
    var a, b := Clamp(x), Clamp(y);
    assert -1.0 <= a <= b <= 1.0;
    if 0.0 <= a {
      RoundMonotone(a * 32767.0, b * 32767.0);
    } else if b < 0.0 {
      RoundMonotone(a * 32768.0, b * 32768.0);
    } else {
      RoundMonotone(a * 32768.0, 0.0);
      RoundMonotone(0.0, b * 32767.0);
    }
    RoundMonotone(-32768.0, if a < 0.0 then a * 32768.0 else 0.0);
    RoundMonotone(if b < 0.0 then 0.0 else b * 32767.0, 32767.0);
  }

  lemma RoundMonotone(x: real, y: real)
    requires x <= y
    ensures Round(x) <= Round(y)
  {
  }

  /** The sample that a code stands for. */
  function Decoded(code: int): real { if code < 0 then code as real / 32768.0 else code as real / 32767.0 }

  /** Every code of 16 bits is the code of the sample that it stands for, and a sample in
      range is at most half a code away from what its code stands for. */
  lemma CodesRoundTrip(code: int, x: real)
    requires -32768 <= code <= 32767 && -1.0 <= x <= 1.0
    ensures -1.0 <= Decoded(code) <= 1.0 && Pcm16(Decoded(code)) == code
    ensures -0.5 <= 32767.0 * (Decoded(Pcm16(x)) - x) <= 0.5
  {
  }

  function Encoded(samples: seq<real>): seq<int> { seq(|samples|, k requires 0 <= k < |samples| => Pcm16(samples[k])) }

  method Float32ToPcm16(input: seq<real>) returns (output: array<int>)
    ensures fresh(output) && output[..] == Encoded(input)
  {
    output := new int[|input|];
    var index := 0;
    while index < |input|
      invariant index <= |input|
      invariant forall k :: 0 <= k < index ==> output[k] == Pcm16(input[k])
    {
      var sample := Clamp(input[index]);
      output[index] := if sample < 0.0 then Round(sample * 32768.0) else Round(sample * 32767.0);
      index := index + 1;
    }
  }

  // ----- the one-shot form -----

  /** Position `x` lies on or between two samples of the stream. */
  predicate Within(stream: seq<real>, x: real) { 0.0 <= x <= (|stream| - 1) as real }

  /** The linear interpolation of the stream at position `x`. */
  function Interpolate(stream: seq<real>, x: real): real
    requires Within(stream, x)
  {
    var lower := x.Floor;
    var fraction := x - lower as real;
    if fraction == 0.0 then stream[lower] else stream[lower] + (stream[lower + 1] - stream[lower]) * fraction
  }

  function Min(a: real, b: real): real { if a <= b then a else b }

  function Max(a: real, b: real): real { if a <= b then b else a }

  lemma ProductSign(x: real, y: real)
    requires x >= 0.0 && y >= 0.0
    ensures x * y >= 0.0
  {
  }

  lemma MixBetween(a: real, b: real, fraction: real)
    requires 0.0 < fraction < 1.0
    ensures Min(a, b) <= a + (b - a) * fraction <= Max(a, b)
  {
    var rest := 1.0 - fraction;
    assert b - (a + (b - a) * fraction) == (b - a) * rest;
    if b >= a {
      ProductSign(b - a, fraction);
      ProductSign(b - a, rest);
    } else {
      ProductSign(a - b, fraction);
      ProductSign(a - b, rest);
      assert (b - a) * fraction == -((a - b) * fraction) && (b - a) * rest == -((a - b) * rest);
    }
  }

  /** An output never leaves the range of the two samples it lies between. */
  lemma InterpolateBetween(stream: seq<real>, x: real)
    requires Within(stream, x)
    ensures var a, b := stream[x.Floor], stream[if x == x.Floor as real then x.Floor else x.Floor + 1];
            Min(a, b) <= Interpolate(stream, x) <= Max(a, b)
  {
    var lower := x.Floor;
    if x != lower as real {
      MixBetween(stream[lower], stream[lower + 1], x - lower as real);
    }
  }

  /** The point at `fraction` of the way from sample `i` to the next one. */
  function Mix(stream: seq<real>, i: nat, fraction: real): real
    requires i + 1 < |stream|
  {
    (1.0 - fraction) * stream[i] + fraction * stream[i + 1]
  }

  /** Between two neighbours, ends included, the output is their mix in proportion of how near
      they are. */
  lemma InterpolateMixes(stream: seq<real>, i: nat, fraction: real)
    requires i + 1 < |stream| && 0.0 <= fraction <= 1.0
    ensures Within(stream, i as real + fraction)
    ensures Interpolate(stream, i as real + fraction) == Mix(stream, i, fraction)
  {
    if fraction < 1.0 {
      assert (i as real + fraction).Floor == i;
    } else {
      assert i as real + fraction == (i + 1) as real;
    }
  }

  function Line(a: real, b: real, x: real): real { a + b * x }

  /** The samples lie on a line. */
  predicate OnLine(stream: seq<real>, a: real, b: real) {
    forall i :: 0 <= i < |stream| ==> stream[i] == Line(a, b, i as real)
  }

  /** Interpolating samples of a line gives the line. */
  lemma InterpolateLine(stream: seq<real>, a: real, b: real, x: real)
    requires Within(stream, x) && OnLine(stream, a, b)
    ensures Interpolate(stream, x) == Line(a, b, x)
  {
    var lower := x.Floor;
    if x != lower as real {
      var fraction := x - lower as real;
      InterpolateMixes(stream, lower, fraction);
      assert stream[lower] == Line(a, b, lower as real) && stream[lower + 1] == Line(a, b, (lower + 1) as real);
      LineMix(a, b, lower, fraction);
    }
  }

  lemma LineMix(a: real, b: real, i: int, fraction: real)
    ensures (1.0 - fraction) * (a + b * i as real) + fraction * (a + b * (i + 1) as real)
            == a + b * (i as real + fraction)
  {
    var u := b * i as real;
    assert b * (i + 1) as real == u + b;
    assert b * (i as real + fraction) == u + b * fraction;
    assert (1.0 - fraction) * (a + u) + fraction * (a + u + b) == a + u + fraction * b;
  }

  lemma InterpolateGrows(stream: seq<real>, more: seq<real>, x: real)
    requires Within(stream, x)
    ensures Within(stream + more, x) && Interpolate(stream + more, x) == Interpolate(stream, x)
  {
  }

  /** How many output positions 0, step, 2*step, ... lie within a stream of `n` samples. */
  function Available(n: nat, step: real): nat
    requires step > 0.0
  {
    if n == 0 then 0
    else
      var last := ((n - 1) as real / step).Floor;
      NonNegativeQuotient(n - 1, step);
      last + 1
  }

  lemma NonNegativeQuotient(n: nat, step: real)
    requires step > 0.0
    ensures (n as real / step).Floor >= 0
  {
    assert n as real / step >= 0.0;
  }

  lemma AvailableIff(n: nat, step: real, k: nat)
    requires step > 0.0
    ensures k < Available(n, step) <==> k as real * step <= (n - 1) as real
  {
    if n == 0 {
      assert k as real * step >= 0.0;
    } else {
      var q := (n - 1) as real / step;
      assert q * step == (n - 1) as real;
      assert k as real <= q ==> k as real * step <= q * step;
      assert k as real > q ==> k as real * step > q * step;
    }
  }

  function Position(k: nat, step: real): real { k as real * step }

  /** The loop stops exactly at the first position that is not available yet. */
  lemma ReadyIff(n: nat, step: real, k: nat)
    requires step > 0.0
    ensures k < Available(n, step) <==> Position(k, step) <= (n - 1) as real
    ensures k < Available(n, step)
            <==> Position(k, step) < n as real
                 && !(Position(k, step) - Position(k, step).Floor as real > 0.0 && Position(k, step).Floor + 1 >= n)
  {
    AvailableIff(n, step, k);
  }

  lemma OutputWithin(stream: seq<real>, step: real, k: nat)
    requires step > 0.0 && k < Available(|stream|, step)
    ensures Within(stream, Position(k, step))
  {
    AvailableIff(|stream|, step, k);
  }

  function OutputAt(stream: seq<real>, step: real, k: nat): int
    requires step > 0.0 && k < Available(|stream|, step)
  {
    OutputWithin(stream, step, k);
    Pcm16(Interpolate(stream, Position(k, step)))
  }

  /** Resampling the whole stream at once: output k is the interpolation at k*step. */
  function OneShot(stream: seq<real>, step: real): seq<int>
    requires step > 0.0
  {
    seq(Available(|stream|, step), k requires 0 <= k < Available(|stream|, step) => OutputAt(stream, step, k))
  }

  lemma AvailableGrows(n: nat, m: nat, step: real)
    requires step > 0.0 && n <= m
    ensures Available(n, step) <= Available(m, step)
  {
    hide Available;
    var k := Available(m, step);
    AvailableIff(n, step, k);
    AvailableIff(m, step, k);
  }

  /** More input adds outputs at the end and changes none. */
  lemma OneShotGrows(stream: seq<real>, more: seq<real>, step: real)
    requires step > 0.0
    ensures OneShot(stream, step) <= OneShot(stream + more, step)
  {
    hide Available, Interpolate, Pcm16, Within;
    var n := Available(|stream|, step);
    AvailableGrows(|stream|, |stream + more|, step);
    forall k | 0 <= k < n
      ensures OneShot(stream, step)[k] == OneShot(stream + more, step)[k]
    {
      OutputWithin(stream, step, k);
      InterpolateGrows(stream, more, Position(k, step));
    }
  }

  /** At equal rates nothing is interpolated. */
  lemma SameRateIsIdentity(stream: seq<real>)
    ensures OneShot(stream, 1.0) == Encoded(stream)
  {
    assert Available(|stream|, 1.0) == |stream|;
    forall k | 0 <= k < |stream|
      ensures OneShot(stream, 1.0)[k] == Encoded(stream)[k]
    {
      assert Position(k, 1.0) == k as real;
      OutputWithin(stream, 1.0, k);
    }
  }

  // ----- the chunked form -----

  datatype RateError = InputRate | OutputRate

  class Pcm16Resampler {
    const step: real
    var inputOffset: nat
    var nextOutputPosition: real
    var previousSample: Option<real>
    /** Everything consumed, and everything returned, so far. */
    ghost var stream: seq<real>
    ghost var emitted: seq<int>

    ghost predicate Valid()
      reads this
    {
      && step > 0.0
      && inputOffset == |stream|
      && emitted == OneShot(stream, step)
      && nextOutputPosition == Position(|emitted|, step)
      && previousSample == if stream == [] then None else Some(stream[|stream| - 1])
    }

    constructor (inputSampleRate: real, outputSampleRate: real)
      requires inputSampleRate > 0.0 && outputSampleRate > 0.0
      ensures Valid() && step == inputSampleRate / outputSampleRate && stream == [] && emitted == []
    {
      step := inputSampleRate / outputSampleRate;
      inputOffset := 0;
      nextOutputPosition := 0.0;
      previousSample := None;
      stream := [];
      emitted := [];
      new;
      assert 0 as real * step == 0.0;
    }

    /** Rates that are not positive are refused. */
    static method Create(inputSampleRate: real, outputSampleRate: real) returns (r: Result<Pcm16Resampler, RateError>)
      ensures r.Success? <==> inputSampleRate > 0.0 && outputSampleRate > 0.0
      ensures r == Failure(InputRate) <==> inputSampleRate <= 0.0
      ensures r.Success? ==>
                fresh(r.value) && r.value.Valid() && r.value.stream == []
                  && r.value.step == inputSampleRate / outputSampleRate
    {
      if inputSampleRate <= 0.0 { return Failure(InputRate); }
      if outputSampleRate <= 0.0 { return Failure(OutputRate); }
      var resampler := new Pcm16Resampler(inputSampleRate, outputSampleRate);
      return Success(resampler);
    }

    /** The sample at the pending position: its neighbours are in this chunk, except that
        the lower one may be the last sample of the previous chunk. */
    method Sample(input: seq<real>, position: real) returns (sample: real)
      requires |input| > 0
      requires Within(stream + input, position)
      requires stream != [] ==> position > (|stream| - 1) as real
      requires inputOffset == |stream| && previousSample == if stream == [] then None else Some(stream[|stream| - 1])
      ensures sample == Interpolate(stream + input, position)
    {
      var lowerIndex := position.Floor;
      var fraction := position - lowerIndex as real;
      var lower: real;
      if lowerIndex < inputOffset {
        assert lowerIndex == inputOffset - 1 && previousSample.Some?;
        lower := previousSample.value;
      } else {
        lower := input[lowerIndex - inputOffset];
      }
      assert lower == (stream + input)[lowerIndex];
      sample := lower;
      if fraction > 0.0 {
        var upper := input[lowerIndex + 1 - inputOffset];
        assert upper == (stream + input)[lowerIndex + 1];
        sample := lower + (upper - lower) * fraction;
      }
    }

    /** The loop over the output positions that this chunk completes. */
    method Resample(input: seq<real>) returns (resampled: seq<real>)
      requires Valid() && |input| > 0
      modifies this`nextOutputPosition
      ensures |emitted| + |resampled| == Available(|stream + input|, step)
      ensures Tail(stream + input, step, |emitted|, resampled)
      ensures nextOutputPosition == Position(|emitted| + |resampled|, step)
    {
      hide Available, Interpolate, Pcm16, OneShot, OutputAt, Encoded, Tail, Position;
      ghost var whole := stream + input;
      ghost var first := |emitted|;
      var chunkEnd := inputOffset + |input|;
      resampled := [];
      OneShotLength(stream, step);
      AvailableGrows(inputOffset, chunkEnd, step);
      TailNone(whole, step, first);
      while nextOutputPosition < chunkEnd as real
        invariant first + |resampled| <= Available(chunkEnd, step)
        invariant nextOutputPosition == Position(first + |resampled|, step)
        invariant Tail(whole, step, first, resampled)
        decreases Available(chunkEnd, step) - first - |resampled|
      {
        ghost var k := first + |resampled|;
        ReadyIff(chunkEnd, step, k);
        ReadyIff(inputOffset, step, k);
        PositionNext(k, step);
        var lowerIndex := nextOutputPosition.Floor;
        if nextOutputPosition - lowerIndex as real > 0.0 && lowerIndex + 1 >= chunkEnd {
          break;
        }
        var sample := Sample(input, nextOutputPosition);
        TailNext(whole, step, first, resampled, sample);
        resampled := resampled + [sample];
        nextOutputPosition := nextOutputPosition + step;
      }
      ReadyIff(chunkEnd, step, first + |resampled|);
    }

    /** Whatever was returned before, followed by this output, is the one-shot resampling of
        everything consumed. */
    method Process(input: seq<real>) returns (output: array<int>)
      requires Valid()
      modifies this
      ensures Valid() && fresh(output)
      ensures stream == old(stream) + input
      ensures emitted == old(emitted) + output[..]
    {
      hide Available, Interpolate, Pcm16, OneShot, OutputAt, Encoded, Tail, Position;
      if |input| == 0 {
        assert stream == stream + input;
        output := new int[0];
        assert emitted == emitted + output[..];
        return;
      }
      var resampled := Resample(input);
      inputOffset := inputOffset + |input|;
      previousSample := Some(input[|input| - 1]);
      TailIsRest(stream, input, step, resampled);
      output := Float32ToPcm16(resampled);
      OneShotLength(stream + input, step);
      stream := stream + input;
      emitted := emitted + output[..];
    }
  }

  /** `samples` are the outputs from number `first` on, before encoding. */
  ghost predicate Tail(whole: seq<real>, step: real, first: nat, samples: seq<real>)
    requires step > 0.0
  {
    && first + |samples| <= Available(|whole|, step)
    && forall k :: 0 <= k < |samples| ==> Pcm16(samples[k]) == OutputAt(whole, step, first + k)
  }

  lemma TailNone(whole: seq<real>, step: real, first: nat)
    requires step > 0.0 && first <= Available(|whole|, step)
    ensures Tail(whole, step, first, [])
  {
  }

  lemma TailNext(whole: seq<real>, step: real, first: nat, samples: seq<real>, sample: real)
    requires step > 0.0 && Tail(whole, step, first, samples)
    requires first + |samples| < Available(|whole|, step)
    requires Within(whole, Position(first + |samples|, step))
             && sample == Interpolate(whole, Position(first + |samples|, step))
    ensures Tail(whole, step, first, samples + [sample])
  {
    hide Available, Interpolate, Pcm16, Within;
  }

  lemma TailIsRest(stream: seq<real>, input: seq<real>, step: real, samples: seq<real>)
    requires step > 0.0 && Tail(stream + input, step, |OneShot(stream, step)|, samples)
    requires |OneShot(stream, step)| + |samples| == Available(|stream + input|, step)
    ensures OneShot(stream + input, step) == OneShot(stream, step) + Encoded(samples)
  {
    hide Available, Interpolate, Pcm16, Within, OutputAt;
    OneShotGrows(stream, input, step);
  }

  lemma OneShotLength(stream: seq<real>, step: real)
    requires step > 0.0
    ensures |OneShot(stream, step)| == Available(|stream|, step)
  {
  }

  lemma PositionNext(k: nat, step: real)
    ensures Position(k + 1, step) == Position(k, step) + step && (step > 0.0 ==> Position(k, step) >= 0.0)
  {
  }

  /** The position is `fraction` of the way from sample `i` to the next one. */
  predicate Lies(position: real, i: nat, fraction: real) {
    0.0 <= fraction <= 1.0 && position == i as real + fraction
  }

  /** Each output encodes the mix of the two samples it lies between; where all samples lie on
      a line, the outputs are points of that line. */
  ghost predicate Interpolates(output: seq<int>, stream: seq<real>, step: real) {
    && (forall k: nat, i: nat, fraction ::
          k < |output| && i + 1 < |stream| && Lies(Position(k, step), i, fraction) ==>
            output[k] == Pcm16(Mix(stream, i, fraction)))
    && forall a, b :: OnLine(stream, a, b) ==> forall k :: 0 <= k < |output| ==>
                                                  output[k] == Pcm16(Line(a, b, Position(k, step)))
  }

  lemma OneShotInterpolates(stream: seq<real>, step: real)
    requires step > 0.0
    ensures Interpolates(OneShot(stream, step), stream, step)
  {
    hide Available, Interpolate, Pcm16, Within, Position, Mix, OnLine, Line;
    var output := OneShot(stream, step);
    forall k: nat, i: nat, fraction | k < |output| && i + 1 < |stream| && Lies(Position(k, step), i, fraction)
      ensures output[k] == Pcm16(Mix(stream, i, fraction))
    {
      OutputWithin(stream, step, k);
      InterpolateMixes(stream, i, fraction);
    }
    forall a, b, k | OnLine(stream, a, b) && 0 <= k < |output|
      ensures output[k] == Pcm16(Line(a, b, Position(k, step)))
    {
      OutputWithin(stream, step, k);
      InterpolateLine(stream, a, b, Position(k, step));
      assert output[k] == OutputAt(stream, step, k);
    }
  }

  function Joined(chunks: seq<seq<real>>): seq<real> {
    if chunks == [] then [] else Joined(chunks[..|chunks| - 1]) + chunks[|chunks| - 1]
  }

  /** Chunk invariance: however a signal is split, the concatenated outputs are those of one
      call on the whole signal. */
  method ResampleChunks(chunks: seq<seq<real>>, inputSampleRate: real, outputSampleRate: real)
    returns (output: seq<int>)
    requires inputSampleRate > 0.0 && outputSampleRate > 0.0
    ensures output == OneShot(Joined(chunks), inputSampleRate / outputSampleRate)
    ensures Interpolates(output, Joined(chunks), inputSampleRate / outputSampleRate)
  {
    hide Interpolates;
    var resampler := new Pcm16Resampler(inputSampleRate, outputSampleRate);
    output := [];
    var i := 0;
    while i < |chunks|
      invariant i <= |chunks|
      invariant resampler.Valid() && fresh(resampler)
      invariant resampler.step == inputSampleRate / outputSampleRate
      invariant resampler.stream == Joined(chunks[..i]) && resampler.emitted == output
    {
      assert chunks[..i + 1][..i] == chunks[..i];
      var part := resampler.Process(chunks[i]);
      output := output + part[..];
      i := i + 1;
    }
    assert chunks[..|chunks|] == chunks;
    OneShotInterpolates(Joined(chunks), inputSampleRate / outputSampleRate);
  }
}
