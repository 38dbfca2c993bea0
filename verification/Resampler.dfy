// Linear resampling with a rational position accumulator
// (crates/obs-rs-audio/src/resampler.rs). Interpolation is over exact reals.
module Resampler {
  import opened Numbers
  import opened Results
  import opened AudioTypes
  import opened AudioBuffers
  import opened ChannelMapping

  const MICRO := 1_000_000

  // The output length, rounded to the nearest frame.
  function OutputFrames(frames: nat, input: pos, output: pos): nat {
    Quotient(frames * output + input / 2, input)
  }

  // The closed form that the loop's additions replace.
  function Position(k: nat, input: pos, output: pos): nat {
    Quotient(k * (input * MICRO), output)
  }

  function Remainder(k: nat, input: pos, output: pos): nat {
    k * (input * MICRO) % output
  }

  lemma PositionStep(k: nat, input: pos, output: pos)
    ensures var (whole, part) := ((input * MICRO) / output, (input * MICRO) % output);
      var carried := Remainder(k, input, output) + part;
      && Position(k + 1, input, output) == Position(k, input, output) + whole + (if carried >= output then 1 else 0)
      && Remainder(k + 1, input, output) == (if carried >= output then carried - output else carried)
  {
    assert (k + 1) * (input * MICRO) == k * (input * MICRO) + input * MICRO;
    DivAdd(k * (input * MICRO), input * MICRO, output);
  }

  // Every output frame starts inside the input, so the clamp on the base frame never fires.
  lemma BaseInsideInput(k: nat, frames: nat, input: pos, output: pos)
    requires k < OutputFrames(frames, input, output)
    ensures Position(k, input, output) < frames * MICRO
    ensures Position(k, input, output) / MICRO < frames
  {
    DivAtLeast(frames * output + input / 2, input, k + 1);
    assert (k + 1) * input == k * input + input;
    assert k * input < frames * output;
    assert k * (input * MICRO) == (k * input) * MICRO < (frames * output) * MICRO == (frames * MICRO) * output;
    DivBelow(k * (input * MICRO), output, frames * MICRO);
    DivBelow(Position(k, input, output), MICRO, frames);
  }

  function FrameSamples(b: AudioBuffer, frame: nat): (samples: seq<Sample>)
    requires frame < b.Frames()
    ensures |samples| == b.format.channels
  {
    FrameBounds(b, frame);
    b.samples[frame * b.format.channels..frame * b.format.channels + b.format.channels]
  }

  lemma FrameBounds(b: AudioBuffer, frame: nat)
    requires frame < b.Frames()
    ensures 0 <= frame * b.format.channels <= frame * b.format.channels + b.format.channels <= |b.samples|
  {
    WholeFrames(b);
    MulMonotone(frame + 1, b.Frames(), b.format.channels);
    assert (frame + 1) * b.format.channels == frame * b.format.channels + b.format.channels;
  }

  // One output sample between two neighbouring input frames.
  function Interpolated(b: AudioBuffer, output: AudioFormat, base: nat, micro: nat, channel: nat): Sample
    requires base < b.Frames() && channel < output.channels
  {
    var first := MappedChannel(FrameSamples(b, base), b.format.layout, output.layout, channel);
    var second := MappedChannel(FrameSamples(b, Min(base + 1, b.Frames() - 1)), b.format.layout, output.layout, channel);
    first + (second - first) * (micro as real / 1_000_000.0)
  }

  // Output sample (k, channel), straight from the closed form.
  function Resampled(b: AudioBuffer, output: AudioFormat, k: nat, channel: nat): Sample
    requires k < OutputFrames(b.Frames(), b.format.sampleRate, output.sampleRate) && channel < output.channels
  {
    BaseInsideInput(k, b.Frames(), b.format.sampleRate, output.sampleRate);
    var position := Position(k, b.format.sampleRate, output.sampleRate);
    Interpolated(b, output, position / MICRO, position % MICRO, channel)
  }

  // The flat index of a sample.
  function Slot(k: nat, c: nat, channels: pos): nat {
    k * channels + c
  }

  lemma SlotsDoNotOverlap(k: nat, c: nat, l: nat, d: nat, channels: pos)
    requires c < channels && d < channels
    requires Slot(k, c, channels) == Slot(l, d, channels)
    ensures k == l && c == d
  {
    DivUnique(k * channels + c, channels, k) by { assert (k + 1) * channels == k * channels + channels; }
    DivUnique(l * channels + d, channels, l) by { assert (l + 1) * channels == l * channels + channels; }
  }

  lemma SlotInside(k: nat, c: nat, frames: nat, channels: pos)
    requires k < frames && c < channels
    ensures Slot(k, c, channels) < frames * channels
  {
    MulMonotone(k + 1, frames, channels);
    assert (k + 1) * channels == k * channels + channels;
  }

  // The first `k` output frames hold their closed-form samples.
  ghost predicate FilledTo(b: AudioBuffer, output: AudioFormat, k: nat, samples: seq<Sample>)
    requires k <= OutputFrames(b.Frames(), b.format.sampleRate, output.sampleRate)
  {
    forall l: nat, c: nat :: l < k && c < output.channels ==>
      Slot(l, c, output.channels) < |samples| && samples[Slot(l, c, output.channels)] == Resampled(b, output, l, c)
  }

  method Process(input: AudioFormat, output: AudioFormat, b: AudioBuffer) returns (r: Result<AudioBuffer, AudioError>)
    ensures b.format != input ==> r == Err(FormatMismatch(input, b.format))
    ensures b.format == input && b.Frames() == 0 ==> r == Ok(AudioBuffer(output, b.timestamp, []))
    ensures b.format == input && b.Frames() > 0 ==>
      var frames := OutputFrames(b.Frames(), input.sampleRate, output.sampleRate);
      if frames > MAX_AUDIO_FRAMES then r == Err(BufferTooLarge(USIZE_MAX))
      else
        && r.Ok? && r.value.format == output && r.value.timestamp == b.timestamp
        && |r.value.samples| == frames * output.channels
        && FilledTo(b, output, frames, r.value.samples)
  {
    hide OutputFrames, FilledTo;
    if b.format != input {
      return Err(FormatMismatch(input, b.format));
    }
    if b.Frames() == 0 {
      return Ok(AudioBuffer(output, b.timestamp, []));
    }
    var frames := OutputFrames(b.Frames(), input.sampleRate, output.sampleRate);
    if frames > MAX_AUDIO_FRAMES {
      return Err(BufferTooLarge(USIZE_MAX));
    }
    var samples := FillFrames(b, output, frames);
    WholeOutput(frames, output.channels);
    return Ok(AudioBuffer(output, b.timestamp, samples[..]));
  }

  // The output loop. Positions live in 64-bit registers.
  method FillFrames(b: AudioBuffer, output: AudioFormat, frames: nat) returns (samples: array<Sample>)
    requires frames == OutputFrames(b.Frames(), b.format.sampleRate, output.sampleRate)
    ensures samples.Length == frames * output.channels
    ensures FilledTo(b, output, frames, samples[..])
  {
    hide Position, Remainder, OutputFrames, Interpolated;
    var inputRate, channels := b.format.sampleRate, output.channels;
    WholeOutput(frames, channels);
    samples := new Sample[frames * channels](_ => 0.0);
    var denominator: u64 := output.sampleRate;
    var step: u64 := inputRate * MICRO;
    var wholeStep, remainderStep := step / denominator, step % denominator;
    var position: u64, remainder: u64 := 0, 0;
    StartOfRun(inputRate, output.sampleRate);
    for k := 0 to frames
      invariant position == Position(k, inputRate, output.sampleRate)
      invariant remainder == Remainder(k, inputRate, output.sampleRate)
      invariant FilledTo(b, output, k, samples[..])
    {
      BaseInsideInput(k, b.Frames(), inputRate, output.sampleRate);
      WriteFrame(samples, b, output, frames, k, position / MICRO, position % MICRO);
      position, remainder := AdvancePosition(k, inputRate, denominator, wholeStep, remainderStep, position, remainder);
    }
  }

  // One step of the accumulator: the types prove that no 64-bit addition overflows.
  method AdvancePosition(ghost k: nat, ghost inputRate: u32, denominator: u64, wholeStep: u64, remainderStep: u64,
                         position: u64, remainder: u64)
    returns (nextPosition: u64, nextRemainder: u64)
    requires 0 < inputRate && 0 < denominator <= U32_MAX
    requires wholeStep == inputRate * MICRO / denominator && remainderStep == inputRate * MICRO % denominator
    requires position == Position(k, inputRate, denominator) < MAX_AUDIO_FRAMES * MICRO
    requires remainder == Remainder(k, inputRate, denominator)
    ensures nextPosition == Position(k + 1, inputRate, denominator)
    ensures nextRemainder == Remainder(k + 1, inputRate, denominator)
  {
    PositionStep(k, inputRate, denominator);
    DivAtMost(inputRate * MICRO, denominator);
    DivAtMost(k * (inputRate * MICRO), denominator);
    hide Position, Remainder;
    nextPosition := position + wholeStep;
    nextRemainder := remainder + remainderStep;
    if nextRemainder >= denominator {
      nextRemainder := nextRemainder - denominator;
      nextPosition := nextPosition + 1;
    }
  }

  lemma StartOfRun(input: pos, output: pos)
    ensures Position(0, input, output) == 0 && Remainder(0, input, output) == 0
  {
    DivUnique(0, output, 0);
  }

  lemma DivAtMost(a: nat, b: pos)
    ensures 0 <= a / b <= a && 0 <= a % b < b
  {
    DivBounds(a, b);
    MulMonotone(1, b, a / b);
    DivAtLeast(a, b, 0);
  }

  lemma WholeOutput(frames: nat, channels: pos)
    ensures 0 <= frames * channels && frames * channels % channels == 0 && frames * channels / channels == frames
  {
    DivUnique(frames * channels, channels, frames) by { assert (frames + 1) * channels == frames * channels + channels; }
  }

  // The channel loop of one output frame.
  method WriteFrame(samples: array<Sample>, b: AudioBuffer, output: AudioFormat, frames: nat, k: nat, base: nat, micro: nat)
    requires k < frames == OutputFrames(b.Frames(), b.format.sampleRate, output.sampleRate)
    requires samples.Length == frames * output.channels
    requires base == Position(k, b.format.sampleRate, output.sampleRate) / MICRO < b.Frames()
    requires micro == Position(k, b.format.sampleRate, output.sampleRate) % MICRO
    requires FilledTo(b, output, k, samples[..])
    modifies samples
    ensures FilledTo(b, output, k + 1, samples[..])
  {
    hide Interpolated, Position, OutputFrames, Slot;
    var channels := output.channels;
    forall l: nat, d: nat | l < frames && d < channels ensures Slot(l, d, channels) < samples.Length {
      SlotInside(l, d, frames, channels);
    }
    for c := 0 to channels
      invariant forall d: nat :: d < c ==> samples[Slot(k, d, channels)] == Resampled(b, output, k, d)
      invariant forall l: nat, d: nat :: l < k && d < channels ==> samples[Slot(l, d, channels)] == Resampled(b, output, l, d)
    {
      forall l: nat, d: nat | l < frames && d < channels && Slot(l, d, channels) == Slot(k, c, channels)
        ensures l == k && d == c
      {
        SlotsDoNotOverlap(l, d, k, c, channels);
      }
      samples[Slot(k, c, channels)] := Interpolated(b, output, base, micro, c);
    }
  }

  // ---- Properties of the closed form ----------------------------------------

  lemma SameRatePosition(k: nat, rate: pos)
    ensures OutputFrames(k, rate, rate) == k
    ensures Position(k, rate, rate) == k * MICRO
  {
    assert (k + 1) * rate == k * rate + rate;
    DivUnique(k * rate + rate / 2, rate, k);
    assert k * (rate * MICRO) == (k * MICRO) * rate;
    assert (k * MICRO + 1) * rate == (k * MICRO) * rate + rate;
    DivUnique(k * (rate * MICRO), rate, k * MICRO);
  }

  // Equal formats are the identity: same length, same samples.
  lemma SameFormatIsIdentity(b: AudioBuffer, k: nat, channel: nat)
    requires k < b.Frames() && channel < b.format.channels
    ensures OutputFrames(b.Frames(), b.format.sampleRate, b.format.sampleRate) == b.Frames()
    ensures Resampled(b, b.format, k, channel) == FrameSamples(b, k)[channel]
  {
    hide MappedChannel, Position, OutputFrames;
    SameRatePosition(b.Frames(), b.format.sampleRate);
    SameRatePosition(k, b.format.sampleRate);
    assert k * MICRO / MICRO == k && k * MICRO % MICRO == 0;
    SameLayoutIsIdentity(FrameSamples(b, k), b.format.layout, channel);
  }

  // The length keeps the duration, to the nearest output frame.
  lemma LengthIsNearest(frames: nat, input: pos, output: pos)
    ensures 2 * frames * output - input <= 2 * OutputFrames(frames, input, output) * input <= 2 * frames * output + input
  {
    DivBounds(frames * output + input / 2, input);
  }

  // Output frame `k` stands at `k * input / output` input frames, floored to a millionth.
  lemma PositionIsExactFloor(k: nat, input: pos, output: pos)
    ensures Position(k, input, output) * output <= k * input * 1_000_000 < (Position(k, input, output) + 1) * output
  {
    DivBounds(k * (input * MICRO), output);
    assert k * (input * MICRO) == k * input * 1_000_000;
  }

  // What one input frame contributes to an output channel.
  function Mapped(b: AudioBuffer, output: AudioFormat, frame: nat, channel: nat): Sample
    requires frame < b.Frames() && channel < output.channels
  {
    MappedChannel(FrameSamples(b, frame), b.format.layout, output.layout, channel)
  }

  // Over a signal that rises evenly, resampling is exact: an output sample is the line's value at
  // its position. The last input frame holds for the positions behind it.
  lemma EvenSlopesAreReproduced(b: AudioBuffer, output: AudioFormat, k: nat, channel: nat, offset: real, slope: real)
    requires k < OutputFrames(b.Frames(), b.format.sampleRate, output.sampleRate) && channel < output.channels
    requires forall f :: 0 <= f < b.Frames() ==> Mapped(b, output, f, channel) == offset + slope * f as real
    ensures b.Frames() > 0
    ensures var position := Position(k, b.format.sampleRate, output.sampleRate);
      Resampled(b, output, k, channel) ==
        if position < (b.Frames() - 1) * 1_000_000 then offset + slope * (position as real / 1_000_000.0)
        else Mapped(b, output, b.Frames() - 1, channel)
  {
    hide MappedChannel, Position, OutputFrames, FrameSamples;
    BaseInsideInput(k, b.Frames(), b.format.sampleRate, output.sampleRate);
    var position := Position(k, b.format.sampleRate, output.sampleRate);
    var base, micro := position / MICRO, position % MICRO;
    var first := Mapped(b, output, base, channel);
    if position < (b.Frames() - 1) * MICRO {
      var second := Mapped(b, output, base + 1, channel);
      assert second - first == slope by {
        assert slope * (base + 1) as real == slope * base as real + slope;
      }
      OnTheLine(offset, slope, base, micro);
      assert position == base * MICRO + micro;
    } else {
      assert base == b.Frames() - 1;
      assert (first - first) * (micro as real / 1_000_000.0) == 0.0;
    }
  }

  lemma OnTheLine(offset: real, slope: real, base: nat, micro: nat)
    ensures offset + slope * base as real + slope * (micro as real / 1_000_000.0)
         == offset + slope * ((base * MICRO + micro) as real / 1_000_000.0)
  {
    assert (base * MICRO + micro) as real / 1_000_000.0 == base as real + micro as real / 1_000_000.0;
  }

  // Between any two neighbours the output moves from the one to the other in proportion.
  lemma InterpolationIsProportional(b: AudioBuffer, output: AudioFormat, base: nat, micro: nat, channel: nat)
    requires base + 1 < b.Frames() && channel < output.channels && micro <= MICRO
    ensures 1_000_000.0 * Interpolated(b, output, base, micro, channel)
         == (1_000_000 - micro) as real * Mapped(b, output, base, channel) + micro as real * Mapped(b, output, base + 1, channel)
  {
    hide MappedChannel, FrameSamples;
    Weights(Mapped(b, output, base, channel), Mapped(b, output, base + 1, channel), micro);
  }

  lemma Weights(p: real, q: real, micro: nat)
    ensures 1_000_000.0 * (p + (q - p) * (micro as real / 1_000_000.0)) == (1_000_000 - micro) as real * p + micro as real * q
  {
    var t := micro as real / 1_000_000.0;
    assert t * 1_000_000.0 == micro as real;
    assert (q - p) * t == q * t - p * t;
    assert 1_000_000.0 * (q * t) == q * micro as real && 1_000_000.0 * (p * t) == p * micro as real;
  }

  // Interpolation and mapping never exceed the input's peak.
  lemma ResamplingNeverAmplifies(b: AudioBuffer, output: AudioFormat, k: nat, channel: nat, peak: real)
    requires k < OutputFrames(b.Frames(), b.format.sampleRate, output.sampleRate) && channel < output.channels
    requires AllWithin(b.samples, peak)
    ensures Within(Resampled(b, output, k, channel), peak)
  {
    hide MappedChannel, Position, OutputFrames;
    BaseInsideInput(k, b.Frames(), b.format.sampleRate, output.sampleRate);
    var position := Position(k, b.format.sampleRate, output.sampleRate);
    InterpolationWithin(b, output, position / MICRO, position % MICRO, channel, peak);
  }

  lemma InterpolationWithin(b: AudioBuffer, output: AudioFormat, base: nat, micro: nat, channel: nat, peak: real)
    requires base < b.Frames() && channel < output.channels && micro < MICRO
    requires AllWithin(b.samples, peak)
    ensures Within(Interpolated(b, output, base, micro, channel), peak)
  {
    hide MappedChannel, FrameSamples;
    var next := Min(base + 1, b.Frames() - 1);
    FrameWithin(b, base, peak);
    FrameWithin(b, next, peak);
    var f, s := FrameSamples(b, base), FrameSamples(b, next);
    MappedWithinPeak(f, b.format.layout, output.layout, channel, peak);
    MappedWithinPeak(s, b.format.layout, output.layout, channel, peak);
    var first := MappedChannel(f, b.format.layout, output.layout, channel);
    var second := MappedChannel(s, b.format.layout, output.layout, channel);
    StepWithin(first, second - first, micro as real / 1_000_000.0, peak);
  }

  lemma FrameWithin(b: AudioBuffer, frame: nat, peak: real)
    requires frame < b.Frames() && AllWithin(b.samples, peak)
    ensures AllWithin(FrameSamples(b, frame), peak)
  {
    FrameBounds(b, frame);
    assert forall s :: s in FrameSamples(b, frame) ==> s in b.samples;
  }

  lemma ProductSign(x: real, y: real)
    requires x >= 0.0 && y >= 0.0
    ensures x * y >= 0.0
  {
  }

  lemma Negates(d: real, t: real)
    ensures (0.0 - d) * t == 0.0 - d * t
  {
  }

  // A step of `t` along `d` stays between its two ends.
  lemma StepWithin(a: real, d: real, t: real, peak: real)
    requires Within(a, peak) && Within(a + d, peak) && 0.0 <= t <= 1.0
    ensures Within(a + d * t, peak)
  {
    assert d * (1.0 - t) == d - d * t;
    if d >= 0.0 {
      ProductSign(d, 1.0 - t);
      ProductSign(d, t);
    } else {
      ProductSign(0.0 - d, 1.0 - t);
      ProductSign(0.0 - d, t);
      Negates(d, 1.0 - t);
      Negates(d, t);
    }
  }
}
