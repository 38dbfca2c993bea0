// Owned interleaved audio buffers and their value-returning edits
// (crates/obs-rs-audio/src/buffer.rs). Samples are exact reals.
module AudioBuffers {
  import opened Numbers
  import opened Results
  import opened AudioTypes
  import opened SampleClock

  type Sample = real

  datatype RawAudioBuffer = AudioBuffer(format: AudioFormat, timestamp: u64, samples: seq<Sample>)
  {
    function Frames(): nat { |samples| / format.channels }
  }

  // What `AudioBuffer::new` accepts: whole frames, and not too many of them.
  type AudioBuffer = b: RawAudioBuffer |
      |b.samples| % b.format.channels == 0 && b.Frames() <= MAX_AUDIO_FRAMES
    witness AudioBuffer(AudioFormat(1, 1, Mono), 0, [])

  function Zeros(count: nat): (s: seq<Sample>)
    ensures |s| == count
  {
    seq(count, _ => 0.0)
  }

  lemma WholeFrames(b: AudioBuffer)
    ensures |b.samples| == b.Frames() * b.format.channels
  {
  }

  // Samples of the last `Frames() - frames` frames.
  lemma DroppedFrames(b: AudioBuffer, frames: nat)
    requires frames < b.Frames()
    ensures 0 <= frames * b.format.channels < |b.samples|
    ensures |b.samples[frames * b.format.channels..]| == (b.Frames() - frames) * b.format.channels
    ensures |b.samples[frames * b.format.channels..]| / b.format.channels == b.Frames() - frames
    ensures |b.samples[frames * b.format.channels..]| % b.format.channels == 0
  {
    WholeFrames(b);
    var c := b.format.channels;
    assert (frames + 1) * c == frames * c + c;
    MulMonotone(frames + 1, b.Frames(), c);
    assert (b.Frames() - frames) * c == b.Frames() * c - frames * c;
    DivUnique((b.Frames() - frames) * c, c, b.Frames() - frames);
  }

  // `audio_duration_nanos`, with the 64-bit check of its callers.
  function AudioDurationNanos(frames: nat, rate: pos): Result<u64, AudioError> {
    var duration := DurationNanos(frames, rate);
    if duration > U64_MAX then Err(ScheduleOverflow) else Ok(duration)
  }

  function CheckedAdd(timestamp: u64, nanos: u64): Option<u64> {
    if timestamp + nanos > U64_MAX then None else Some(timestamp + nanos)
  }

  // Ok(None) when every frame would be removed.
  function TrimFront(b: AudioBuffer, frames: nat): Result<Option<AudioBuffer>, AudioError> {
    if frames >= b.Frames() then Ok(None)
    else match AudioDurationNanos(frames, b.format.sampleRate)
      case Err(error) => Err(error)
      case Ok(duration) =>
        match CheckedAdd(b.timestamp, duration)
        case None => Err(ScheduleOverflow)
        case Some(timestamp) =>
          DroppedFrames(b, frames);
          Ok(Some(AudioBuffer(b.format, timestamp, b.samples[frames * b.format.channels..])))
  }

  lemma PrependedFrames(b: AudioBuffer, frames: nat)
    ensures frames * b.format.channels >= 0
    ensures (frames * b.format.channels + |b.samples|) / b.format.channels == frames + b.Frames()
    ensures (frames * b.format.channels + |b.samples|) % b.format.channels == 0
  {
    WholeFrames(b);
    DivShift(|b.samples|, frames, b.format.channels);
  }

  function PrependSilence(b: AudioBuffer, frames: nat, timestamp: u64): Result<AudioBuffer, AudioError> {
    if frames + b.Frames() > MAX_AUDIO_FRAMES then Err(BufferTooLarge(frames))
    else
      PrependedFrames(b, frames);
      Ok(AudioBuffer(b.format, timestamp, Zeros(frames * b.format.channels) + b.samples))
  }

  // What `resize` followed by `copy_within(..old_len, silence)` leaves behind: the payload
  // is moved, but the head is whatever was there before.
  function ShiftWithoutClearing(samples: seq<Sample>, silence: nat): (shifted: seq<Sample>)
    ensures |shifted| == silence + |samples|
  {
    (samples + Zeros(silence))[..silence] + samples
  }

  // The uncleared head is silence exactly when the old samples it keeps were silent.
  lemma ClearedExactlyWhenSilent(samples: seq<Sample>, silence: nat)
    ensures ShiftWithoutClearing(samples, silence) == Zeros(silence) + samples
      <==> forall i :: 0 <= i < |samples| && i < silence ==> samples[i] == 0.0
  {
    var shifted := ShiftWithoutClearing(samples, silence);
    assert forall i :: 0 <= i < |samples| && i < silence ==> shifted[i] == samples[i];
    if forall i :: 0 <= i < |samples| && i < silence ==> samples[i] == 0.0 {
      assert shifted[..silence] == Zeros(silence);
    } else {
      var i :| 0 <= i < |samples| && i < silence && samples[i] != 0.0;
      assert shifted[i] != (Zeros(silence) + samples)[i];
    }
  }
}
