// The sample-quantised delay line (crates/obs-rs-audio/src/delay.rs).
module DelayLine {
  import opened Numbers
  import opened Results
  import opened AudioTypes
  import opened AudioBuffers

  function DelayFrames(milliseconds: nat, rate: pos): nat {
    milliseconds * rate / 1_000
  }

  // One block through the queue: what comes out, and what stays queued.
  function Delay(queue: seq<Sample>, block: seq<Sample>): (seq<Sample>, seq<Sample>) {
    var all := queue + block;
    (all[..|block|], all[|block|..])
  }

  function DelayAll(queue: seq<Sample>, blocks: seq<seq<Sample>>): (seq<seq<Sample>>, seq<Sample>)
    decreases blocks
  {
    if blocks == [] then ([], queue)
    else
      var (out, next) := Delay(queue, blocks[0]);
      var (rest, last) := DelayAll(next, blocks[1..]);
      ([out] + rest, last)
  }

  function Flatten(blocks: seq<seq<Sample>>): seq<Sample> {
    if blocks == [] then [] else blocks[0] + Flatten(blocks[1..])
  }

  lemma OneBlock(queue: seq<Sample>, block: seq<Sample>)
    ensures var (out, next) := Delay(queue, block);
      out + next == queue + block && |out| == |block| && |next| == |queue|
  {
  }

  // Whatever the block sizes: the output followed by the queue is the old queue followed by
  // the input, block lengths are kept, and the queue never grows.
  lemma {:induction false} NothingLostOrReordered(queue: seq<Sample>, blocks: seq<seq<Sample>>)
    ensures var (outputs, last) := DelayAll(queue, blocks);
      && Flatten(outputs) + last == queue + Flatten(blocks)
      && |last| == |queue|
      && |outputs| == |blocks|
      && forall i :: 0 <= i < |blocks| ==> |outputs[i]| == |blocks[i]|
    decreases blocks
  {
    if blocks != [] {
      hide Delay;
      var (out, next) := Delay(queue, blocks[0]);
      OneBlock(queue, blocks[0]);
      NothingLostOrReordered(next, blocks[1..]);
      var (rest, last) := DelayAll(next, blocks[1..]);
      FlattenCons(out, rest);
      Regroup(out, Flatten(rest), last, next, queue, blocks[0], Flatten(blocks[1..]));
    }
  }

  lemma FlattenCons(first: seq<Sample>, rest: seq<seq<Sample>>)
    ensures Flatten([first] + rest) == first + Flatten(rest)
  {
    assert ([first] + rest)[1..] == rest;
  }

  // Two exchanges, end to end: `a` and then `b` leave, `x` and then `rest` enter.
  lemma Regroup<T>(a: seq<T>, b: seq<T>, last: seq<T>, next: seq<T>, queue: seq<T>, x: seq<T>, rest: seq<T>)
    requires a + next == queue + x && b + last == next + rest
    ensures a + b + last == queue + (x + rest)
  {
    assert a + b + last == a + (b + last);
    assert a + (next + rest) == a + next + rest;
    assert queue + x + rest == queue + (x + rest);
  }

  // The emitted stream is the configured silence followed by the input, cut to length.
  lemma DelayedStream(delay: nat, blocks: seq<seq<Sample>>)
    ensures var (outputs, _) := DelayAll(Zeros(delay), blocks);
      && |Flatten(outputs)| == |Flatten(blocks)|
      && Flatten(outputs) == (Zeros(delay) + Flatten(blocks))[..|Flatten(blocks)|]
  {
    NothingLostOrReordered(Zeros(delay), blocks);
    var (outputs, last) := DelayAll(Zeros(delay), blocks);
    assert |Flatten(outputs) + last| == |Zeros(delay) + Flatten(blocks)|;
    assert (Flatten(outputs) + last)[..|Flatten(outputs)|] == Flatten(outputs);
  }

  // The delay is the whole frames within the milliseconds.
  lemma DelayIsWholeFrames(milliseconds: nat, rate: pos)
    ensures DelayFrames(milliseconds, rate) * 1_000 <= milliseconds * rate < (DelayFrames(milliseconds, rate) + 1) * 1_000
  {
    DivBounds(milliseconds * rate, 1_000);
  }

  // Heard sample by sample: the line is silent for its delay, and then repeats its input that many
  // samples later, however both were cut into blocks.
  lemma EverySampleIsLateByTheDelay(delay: nat, blocks: seq<seq<Sample>>, i: nat)
    requires i < |Flatten(blocks)|
    ensures var (outputs, _) := DelayAll(Zeros(delay), blocks);
      |Flatten(outputs)| == |Flatten(blocks)| && Flatten(outputs)[i] == if i < delay then 0.0 else Flatten(blocks)[i - delay]
  {
    DelayedStream(delay, blocks);
    hide DelayAll, Flatten;
  }

  class AudioDelayLine {
    const format: AudioFormat
    var delayFrames: nat
    var blockFrames: nat
    var samples: seq<Sample>

    ghost predicate Valid()
      reads this
    {
      |samples| == Product(delayFrames, format.channels)
    }

    // The state behind `with_block_frames`, once its checks have passed.
    constructor (format: AudioFormat, milliseconds: nat, blockFrames: nat)
      ensures Valid() && this.format == format && this.blockFrames == blockFrames
      ensures delayFrames == DelayFrames(milliseconds, format.sampleRate)
      ensures samples == Zeros(Product(delayFrames, format.channels))
    {
      var frames := DelayFrames(milliseconds, format.sampleRate);
      this.format, delayFrames, this.blockFrames := format, frames, blockFrames;
      samples := Zeros(Product(frames, format.channels));
    }

    // Builds a replacement with the same reserved block and takes it over whole.
    method SetDelayMilliseconds(milliseconds: nat) returns (r: Result<(), AudioError>)
      requires Valid()
      modifies this
      ensures Valid() && blockFrames == old(blockFrames)
      ensures r == match DelayProblem(format, milliseconds, blockFrames) case Some(error) => Err(error) case None => Ok(())
      ensures r.Err? ==> samples == old(samples) && delayFrames == old(delayFrames)
      ensures r.Ok? ==> delayFrames == DelayFrames(milliseconds, format.sampleRate)
      ensures r.Ok? ==> samples == Zeros(Product(delayFrames, format.channels))
    {
      var replacement := WithBlockFrames(format, milliseconds, blockFrames);
      if replacement.Err? {
        return Err(replacement.error);
      }
      delayFrames, samples := replacement.value.delayFrames, replacement.value.samples;
      return Ok(());
    }

    method Process(input: AudioBuffer) returns (r: Result<AudioBuffer, AudioError>)
      requires Valid()
      modifies this`samples
      ensures Valid()
      ensures input.format != format ==> r == Err(FormatMismatch(format, input.format)) && samples == old(samples)
      ensures input.format == format ==>
        var (out, queue) := Delay(old(samples), input.samples);
        r == Ok(AudioBuffer(format, input.timestamp, out)) && samples == queue
    {
      if input.format != format {
        return Err(FormatMismatch(format, input.format));
      }
      if delayFrames == 0 {
        assert samples + input.samples == input.samples;
        assert input.samples[..|input.samples|] == input.samples;
        return Ok(input);
      }
      var payload := input.samples;
      samples := samples + payload;
      ghost var all := samples;
      for i := 0 to |payload|
        invariant |payload| == |input.samples|
        invariant payload[..i] == all[..i] && samples == all[i..]
      {
        // `pop_front().unwrap_or(0.0)`: the queue is never empty here.
        payload := payload[i := if samples == [] then 0.0 else samples[0]];
        samples := samples[1..];
      }
      assert payload == all[..|payload|];
      return Ok(AudioBuffer(format, input.timestamp, payload));
    }

    method Reset()
      requires Valid()
      modifies this`samples
      ensures Valid() && samples == Zeros(Product(delayFrames, format.channels))
    {
      samples := Zeros(Product(delayFrames, format.channels));
    }
  }

  // Delay and reserved block must both be representable; the bound on the delay comes first.
  function DelayProblem(format: AudioFormat, milliseconds: nat, blockFrames: nat): Option<AudioError> {
    if milliseconds > MAX_AUDIO_SYNC_OFFSET_MILLISECONDS then Some(InvalidSyncOffset(milliseconds))
    else if Product(DelayFrames(milliseconds, format.sampleRate) + blockFrames, format.channels) > USIZE_MAX then Some(ScheduleOverflow)
    else None
  }

  // `AudioDelayLine::with_block_frames`, with its checked products and sum.
  method WithBlockFrames(format: AudioFormat, milliseconds: nat, blockFrames: nat) returns (r: Result<AudioDelayLine, AudioError>)
    ensures match DelayProblem(format, milliseconds, blockFrames)
      case Some(error) => r == Err(error)
      case None =>
        && r.Ok? && fresh(r.value) && r.value.Valid() && r.value.format == format && r.value.blockFrames == blockFrames
        && r.value.delayFrames == DelayFrames(milliseconds, format.sampleRate)
        && r.value.samples == Zeros(Product(DelayFrames(milliseconds, format.sampleRate), format.channels))
  {
    if milliseconds > MAX_AUDIO_SYNC_OFFSET_MILLISECONDS {
      return Err(InvalidSyncOffset(milliseconds));
    }
    var delayFrames := DelayFrames(milliseconds, format.sampleRate);
    ProductSplits(delayFrames, blockFrames, format.channels);
    var delaySamples, blockSamples := Product(delayFrames, format.channels), Product(blockFrames, format.channels);
    if delayFrames > USIZE_MAX || delaySamples > USIZE_MAX || blockSamples > USIZE_MAX || delaySamples + blockSamples > USIZE_MAX {
      return Err(ScheduleOverflow);
    }
    var line := new AudioDelayLine(format, milliseconds, blockFrames);
    return Ok(line);
  }

  lemma ProductSplits(a: nat, b: nat, c: pos)
    ensures Product(a + b, c) == Product(a, c) + Product(b, c) && a <= Product(a, c)
  {
    assert (a + b) * c == a * c + b * c;
    assert a * 1 <= a * c;
  }

  function Product(a: nat, b: nat): nat { a * b }
}
