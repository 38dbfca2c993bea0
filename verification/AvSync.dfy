// A/V reconciliation: trimming early audio, padding late audio
// (crates/obs-rs-audio/src/sync.rs, crates/obs-rs-audio/src/buffer.rs).
module AvSync {
  import opened Numbers
  import opened Results
  import opened AudioTypes
  import opened SampleClock
  import opened AudioBuffers

  datatype SyncState = InSync | AudioBehind | AudioAhead

  datatype AudioCorrection =
    | Keep
    | TrimLeading(frames: nat)
    | InsertSilence(frames: nat)

  datatype Observation = Observation(deltaNanos: int, state: SyncState)

  // The delta is saturated to i64; the classification uses the exact difference.
  function Observe(tolerance: u64, video: u64, audio: u64): Observation {
    var delta := audio - video;
    Observation(
      if delta < I64_MIN then I64_MIN else if delta > I64_MAX then I64_MAX else delta,
      if delta + tolerance < 0 then AudioBehind else if delta > tolerance then AudioAhead else InSync)
  }

  function FramesForNanos(nanos: nat, rate: pos): nat {
    Quotient(nanos * rate + 999_999_999, NANOS_PER_SECOND)
  }

  function CorrectionFor(observation: Observation, rate: pos): Result<AudioCorrection, AudioError> {
    var magnitude := if observation.deltaNanos < 0 then -observation.deltaNanos else observation.deltaNanos;
    var frames := FramesForNanos(magnitude, rate);
    if frames > USIZE_MAX then Err(ScheduleOverflow)
    else match observation.state
      case InSync => Ok(Keep)
      case AudioBehind => Ok(TrimLeading(frames))
      case AudioAhead => Ok(InsertSilence(frames))
  }

  // The allocating form. Ok(None) means that trimming consumed the whole buffer.
  function Reconcile(tolerance: u64, video: u64, b: AudioBuffer): Result<Option<AudioBuffer>, AudioError> {
    match CorrectionFor(Observe(tolerance, video, b.timestamp), b.format.sampleRate)
    case Err(error) => Err(error)
    case Ok(Keep) => Ok(Some(b))
    case Ok(TrimLeading(frames)) => TrimFront(b, frames)
    case Ok(InsertSilence(frames)) =>
      match PrependSilence(b, frames, video)
      case Err(error) => Err(error)
      case Ok(padded) => Ok(Some(padded))
  }

  // ---- Rounding -----------------------------------------------------------

  // The frame count covers the gap and overshoots it by less than one frame.
  lemma FramesCoverGap(nanos: nat, rate: pos)
    ensures 0 <= FramesForNanos(nanos, rate) * NANOS_PER_SECOND - nanos * rate < NANOS_PER_SECOND
  {
    DivBounds(nanos * rate + 999_999_999, NANOS_PER_SECOND);
  }

  // A gap beyond the i64 range needs more frames than any buffer holds.
  lemma SaturatedGapExceedsBuffers(nanos: nat, rate: pos)
    requires nanos >= I64_MAX
    ensures FramesForNanos(nanos, rate) > MAX_AUDIO_FRAMES
  {
    assert nanos * rate >= nanos;
    DivAtLeast(nanos * rate + 999_999_999, NANOS_PER_SECOND, MAX_AUDIO_FRAMES + 1);
  }

  // Advancing by the covering frame count lands at or after the gap, by less than one period.
  lemma AdvanceOvershootsByLessThanAPeriod(gap: nat, rate: pos)
    ensures gap <= DurationNanos(FramesForNanos(gap, rate), rate)
    ensures 0 <= (DurationNanos(FramesForNanos(gap, rate), rate) - gap) * rate < NANOS_PER_SECOND
  {
    var frames := FramesForNanos(gap, rate);
    FramesCoverGap(gap, rate);
    var advance := DurationNanos(frames, rate);
    DivAtLeast(frames * NANOS_PER_SECOND, rate, gap);
    DivBounds(frames * NANOS_PER_SECOND, rate);
    assert (advance - gap) * rate == advance * rate - gap * rate;
    MulMonotone(gap, advance, rate);
  }

  // ---- What a reconciled buffer means --------------------------------------

  // For every input: a buffer that survives trimming starts at or after video, by strictly
  // less than one sample period, and holds exactly the samples from the trim point on.
  lemma TrimLandsOnVideo(tolerance: u64, video: u64, b: AudioBuffer, trimmed: AudioBuffer)
    requires Observe(tolerance, video, b.timestamp).state == AudioBehind
    requires Reconcile(tolerance, video, b) == Ok(Some(trimmed))
    ensures 0 <= trimmed.timestamp - video
    ensures (trimmed.timestamp - video) * b.format.sampleRate < NANOS_PER_SECOND
    ensures var cut := FramesForNanos(video - b.timestamp, b.format.sampleRate) * b.format.channels;
      cut <= |b.samples| && trimmed.samples == b.samples[cut..] && trimmed.format == b.format
  {
    var gap, rate := video - b.timestamp, b.format.sampleRate;
    if gap > I64_MAX {
      SaturatedGapExceedsBuffers(-I64_MIN, rate);
      SaturatedGapExceedsBuffers(gap, rate);
      assert false;
    } else {
      AdvanceOvershootsByLessThanAPeriod(gap, rate);
      DroppedFrames(b, FramesForNanos(gap, rate));
    }
  }

  // Inserted silence starts at video and delays the payload by less than one sample period.
  lemma SilenceDelaysPayloadByLessThanAPeriod(tolerance: u64, video: u64, b: AudioBuffer, padded: AudioBuffer)
    requires Observe(tolerance, video, b.timestamp).state == AudioAhead
    requires Reconcile(tolerance, video, b) == Ok(Some(padded))
    ensures padded.timestamp == video
    ensures var frames := FramesForNanos(b.timestamp - video, b.format.sampleRate);
      && padded.samples == Zeros(frames * b.format.channels) + b.samples
      && 0 <= frames * NANOS_PER_SECOND - (b.timestamp - video) * b.format.sampleRate < NANOS_PER_SECOND
  {
    var gap, rate := b.timestamp - video, b.format.sampleRate;
    if gap > I64_MAX {
      SaturatedGapExceedsBuffers(I64_MAX, rate);
      assert false;
    } else {
      FramesCoverGap(gap, rate);
    }
  }

  // ---- Which answer, for every input ----------------------------------------

  // The frame count of a gap exceeds a bound exactly when the gap does, in time.
  lemma FramesExceed(gap: nat, rate: pos, bound: nat)
    ensures FramesForNanos(gap, rate) > bound <==> gap * rate > bound * NANOS_PER_SECOND
  {
    DivAtLeast(gap * rate + 999_999_999, NANOS_PER_SECOND, bound + 1);
  }

  lemma SaturatedExceeds(gap: nat, rate: u32)
    requires gap >= I64_MAX && rate > 0
    ensures gap * rate > MAX_AUDIO_FRAMES * NANOS_PER_SECOND
  {
    assert gap * rate >= gap;
  }

  // The gap as the correction sees it: saturated to 64 signed bits.
  function Magnitude(video: u64, audio: u64): nat {
    if video >= audio then Min(video - audio, -I64_MIN) else Min(audio - video, I64_MAX)
  }

  // Reconciliation gives the buffer up exactly when it is early beyond the tolerance and the gap
  // reaches beyond the start of its last frame. This is decided in time, not in frames.
  lemma GivenUpExactly(tolerance: u64, video: u64, b: AudioBuffer)
    requires Reconcile(tolerance, video, b).Ok?
    ensures Reconcile(tolerance, video, b) == Ok(None) <==>
      video - b.timestamp > tolerance && (video - b.timestamp) * b.format.sampleRate > (b.Frames() - 1) * NANOS_PER_SECOND
  {
    var gap, rate := video - b.timestamp, b.format.sampleRate;
    if gap > tolerance {
      if gap > -I64_MIN {
        SaturatedGapExceedsBuffers(-I64_MIN, rate);
        SaturatedExceeds(gap, rate);
        MulMonotone(b.Frames() - 1, MAX_AUDIO_FRAMES, NANOS_PER_SECOND);
      } else if b.Frames() > 0 {
        FramesExceed(gap, rate, b.Frames() - 1);
      }
    }
    hide FramesForNanos;
  }

  // A buffer is handed back untouched exactly when it is within tolerance.
  lemma KeptExactly(tolerance: u64, video: u64, b: AudioBuffer)
    requires Magnitude(video, b.timestamp) * b.format.sampleRate <= USIZE_MAX * NANOS_PER_SECOND
    ensures Reconcile(tolerance, video, b) == Ok(Some(b)) <==> b.timestamp - tolerance <= video <= b.timestamp + tolerance
  {
    FramesExceed(Magnitude(video, b.timestamp), b.format.sampleRate, USIZE_MAX);
    if video - b.timestamp > tolerance && Reconcile(tolerance, video, b) == Ok(Some(b)) {
      TrimLandsOnVideo(tolerance, video, b, b);
      assert false;
    }
    if b.timestamp - video > tolerance {
      LateBufferIsRestamped(tolerance, video, b);
    }
    hide FramesForNanos;
  }

  // No start of a frame of `b` at or after video has a representable time.
  ghost predicate NoFrameToStartAt(video: u64, b: AudioBuffer) {
    forall k: nat :: k * NANOS_PER_SECOND >= (video - b.timestamp) * b.format.sampleRate ==>
      b.timestamp + DurationNanos(k, b.format.sampleRate) > U64_MAX
  }

  lemma FirstFrameDecides(video: u64, b: AudioBuffer)
    requires b.timestamp <= video
    ensures NoFrameToStartAt(video, b) <==>
      b.timestamp + DurationNanos(FramesForNanos(video - b.timestamp, b.format.sampleRate), b.format.sampleRate) > U64_MAX
  {
    var gap, rate := video - b.timestamp, b.format.sampleRate;
    var first := FramesForNanos(gap, rate);
    FramesCoverGap(gap, rate);
    forall k: nat | k * NANOS_PER_SECOND >= gap * rate ensures DurationNanos(k, rate) >= DurationNanos(first, rate) {
      assert k >= first;
      MulMonotone(first, k, NANOS_PER_SECOND);
      DivMonotone(first * NANOS_PER_SECOND, k * NANOS_PER_SECOND, rate);
    }
    hide FramesForNanos;
  }

  // The three ways to fail, and no other: a gap of more frames than the machine counts, an early
  // buffer none of whose remaining frames starts at a representable time, and a late buffer
  // with no room for the silence before it.
  lemma FailsExactly(tolerance: u64, video: u64, b: AudioBuffer)
    ensures var (gap, rate) := (video - b.timestamp, b.format.sampleRate);
      Reconcile(tolerance, video, b).Err? <==>
        || Magnitude(video, b.timestamp) * rate > USIZE_MAX * NANOS_PER_SECOND
        || (gap > tolerance && gap * rate <= (b.Frames() - 1) * NANOS_PER_SECOND && NoFrameToStartAt(video, b))
        || (-gap > tolerance && -gap * rate > (MAX_AUDIO_FRAMES - b.Frames()) * NANOS_PER_SECOND)
  {
    var gap, rate := video - b.timestamp, b.format.sampleRate;
    var magnitude := Magnitude(video, b.timestamp);
    FramesExceed(magnitude, rate, USIZE_MAX);
    if FramesForNanos(magnitude, rate) <= USIZE_MAX {
      if gap > tolerance {
        EarlyFailsExactly(video, b);
        if gap > magnitude {
          SaturatedGapExceedsBuffers(magnitude, rate);
          SaturatedExceeds(gap, rate);
          MulMonotone(b.Frames() - 1, MAX_AUDIO_FRAMES, NANOS_PER_SECOND);
        }
      } else if -gap > tolerance {
        FramesExceed(magnitude, rate, MAX_AUDIO_FRAMES - b.Frames());
        if -gap > magnitude {
          SaturatedExceeds(magnitude, rate);
          SaturatedExceeds(-gap, rate);
          MulMonotone(MAX_AUDIO_FRAMES - b.Frames(), MAX_AUDIO_FRAMES, NANOS_PER_SECOND);
        }
      }
    }
    hide FramesForNanos, TrimFront, NoFrameToStartAt;
  }

  lemma EarlyFailsExactly(video: u64, b: AudioBuffer)
    requires b.timestamp <= video
    ensures var (gap, rate) := (video - b.timestamp, b.format.sampleRate);
      TrimFront(b, FramesForNanos(gap, rate)).Err? <==>
        gap * rate <= (b.Frames() - 1) * NANOS_PER_SECOND && NoFrameToStartAt(video, b)
  {
    var gap, rate := video - b.timestamp, b.format.sampleRate;
    var frames := FramesForNanos(gap, rate);
    FirstFrameDecides(video, b);
    if b.Frames() > 0 {
      FramesExceed(gap, rate, b.Frames() - 1);
    } else {
      assert gap * rate >= 0;
    }
    hide FramesForNanos, NoFrameToStartAt;
  }

  lemma SmallGapFits(gap: nat, rate: u32)
    requires rate > 0 && gap * rate < NANOS_PER_SECOND
    ensures gap <= I64_MAX && FramesForNanos(gap, rate) <= USIZE_MAX
  {
    assert gap <= gap * rate;
    DivBelow(gap * rate + 999_999_999, NANOS_PER_SECOND, 2);
  }

  // By how much trimming overshoots a gap: a trim removes whole frames.
  function Overshoot(gap: nat, rate: pos): int {
    DurationNanos(FramesForNanos(gap, rate), rate) - gap
  }

  // A trimmed buffer is late by the overshoot of its gap, for every input.
  lemma TrimIsLateByTheOvershoot(tolerance: u64, video: u64, b: AudioBuffer, trimmed: AudioBuffer)
    requires Observe(tolerance, video, b.timestamp).state == AudioBehind
    requires Reconcile(tolerance, video, b) == Ok(Some(trimmed))
    ensures trimmed.timestamp - video == Overshoot(video - b.timestamp, b.format.sampleRate)
  {
    var gap, rate := video - b.timestamp, b.format.sampleRate;
    if gap > I64_MAX {
      SaturatedGapExceedsBuffers(-I64_MIN, rate);
      SaturatedGapExceedsBuffers(gap, rate);
      assert false;
    } else {
      DroppedFrames(b, FramesForNanos(gap, rate));
    }
  }

  // A buffer that is late beyond the tolerance never stays as it is: padding restamps it.
  lemma LateBufferIsRestamped(tolerance: u64, video: u64, b: AudioBuffer)
    requires b.timestamp - video > tolerance
    ensures Reconcile(tolerance, video, b) != Ok(Some(b))
  {
    hide FramesForNanos;
  }

  // Exactly when a trim settles: reconciling again keeps the buffer if and only if the
  // overshoot of the gap is within tolerance. Otherwise the next call pads what was trimmed.
  lemma TrimSettlesExactlyWithinTolerance(tolerance: u64, video: u64, b: AudioBuffer, trimmed: AudioBuffer)
    requires Observe(tolerance, video, b.timestamp).state == AudioBehind
    requires Reconcile(tolerance, video, b) == Ok(Some(trimmed))
    ensures Reconcile(tolerance, video, trimmed) == Ok(Some(trimmed))
       <==> Overshoot(video - b.timestamp, b.format.sampleRate) <= tolerance
    ensures Overshoot(video - b.timestamp, b.format.sampleRate) > tolerance ==>
      Observe(tolerance, video, trimmed.timestamp).state == AudioAhead
  {
    TrimLandsOnVideo(tolerance, video, b, trimmed);
    TrimIsLateByTheOvershoot(tolerance, video, b, trimmed);
    hide Overshoot;
    var late := trimmed.timestamp - video;
    if late > tolerance {
      LateBufferIsRestamped(tolerance, video, trimmed);
    } else {
      SmallGapFits(late, b.format.sampleRate);
    }
  }

  // Padding always settles.
  lemma PaddingSettles(tolerance: u64, video: u64, b: AudioBuffer, padded: AudioBuffer)
    requires Observe(tolerance, video, b.timestamp).state == AudioAhead
    requires Reconcile(tolerance, video, b) == Ok(Some(padded))
    ensures Reconcile(tolerance, video, padded) == Ok(Some(padded))
  {
    SilenceDelaysPayloadByLessThanAPeriod(tolerance, video, b, padded);
    SmallGapFits(0, padded.format.sampleRate);
  }

  // The settling condition for every buffer that reconciliation returns.
  lemma ReconcileSettlesExactly(tolerance: u64, video: u64, b: AudioBuffer, fixed: AudioBuffer)
    requires Reconcile(tolerance, video, b) == Ok(Some(fixed))
    ensures Reconcile(tolerance, video, fixed) == Ok(Some(fixed))
       <==> (video - b.timestamp > tolerance ==> Overshoot(video - b.timestamp, b.format.sampleRate) <= tolerance)
  {
    match Observe(tolerance, video, b.timestamp).state
    case InSync =>
    case AudioAhead => PaddingSettles(tolerance, video, b, fixed);
    case AudioBehind => TrimSettlesExactlyWithinTolerance(tolerance, video, b, fixed);
  }

  // Hence a tolerance that covers every overshoot of the rate settles every buffer.
  lemma CoveringToleranceSettles(tolerance: u64, video: u64, b: AudioBuffer, fixed: AudioBuffer)
    requires Reconcile(tolerance, video, b) == Ok(Some(fixed))
    requires (tolerance + 1) * b.format.sampleRate >= NANOS_PER_SECOND
    ensures Reconcile(tolerance, video, fixed) == Ok(Some(fixed))
  {
    ReconcileSettlesExactly(tolerance, video, b, fixed);
    var gap, rate := video - b.timestamp, b.format.sampleRate;
    if gap > tolerance {
      AdvanceOvershootsByLessThanAPeriod(gap, rate);
      if Overshoot(gap, rate) > tolerance {
        MulMonotone(tolerance + 1, Overshoot(gap, rate), rate);
        assert false;
      }
    }
  }

  // The oscillation in numbers: one early buffer is trimmed, then padded again.
  lemma FineToleranceOscillates()
    ensures var b := AudioBuffer(AudioFormat(44_100, 1, Mono), 0, [0.5, 0.25, 0.125]);
      && Reconcile(0, 1, b) == Ok(Some(AudioBuffer(b.format, 22_675, [0.25, 0.125])))
      && Reconcile(0, 1, AudioBuffer(b.format, 22_675, [0.25, 0.125])) == Ok(Some(AudioBuffer(b.format, 1, [0.0, 0.25, 0.125])))
  {
    var format: AudioFormat := AudioFormat(44_100, 1, Mono);
    var b: AudioBuffer := AudioBuffer(format, 0, [0.5, 0.25, 0.125]);
    assert b.samples[1..] == [0.25, 0.125];
    assert Zeros(1) + [0.25, 0.125] == [0.0, 0.25, 0.125];
    assert FramesForNanos(1, 44_100) == 1 && FramesForNanos(22_674, 44_100) == 1;
    assert DurationNanos(1, 44_100) == 22_675;
  }

  // ---- The in-place form ---------------------------------------------------

  // A mutable buffer. `View` is the value that the allocating form would see.
  class SharedBuffer {
    const format: AudioFormat
    var timestamp: u64
    var samples: seq<Sample>

    ghost predicate Valid()
      reads this
    {
      |samples| % format.channels == 0 && |samples| / format.channels <= MAX_AUDIO_FRAMES
    }

    ghost function View(): AudioBuffer
      requires Valid()
      reads this
    {
      AudioBuffer(format, timestamp, samples)
    }

    constructor (b: AudioBuffer)
      ensures Valid() && View() == b
    {
      format, timestamp, samples := b.format, b.timestamp, b.samples;
    }

    // Agrees with the allocating trim on every input.
    method TrimFrontInPlace(frames: nat) returns (r: Result<bool, AudioError>)
      requires Valid()
      modifies this
      ensures Valid()
      ensures match TrimFront(old(View()), frames)
        case Err(error) => r == Err(error) && View() == old(View())
        case Ok(None) => r == Ok(false) && View() == old(View())
        case Ok(Some(trimmed)) => r == Ok(true) && View() == trimmed
    {
      if frames >= |samples| / format.channels {
        return Ok(false);
      }
      var duration := AudioDurationNanos(frames, format.sampleRate);
      if duration.Err? {
        return Err(duration.error);
      }
      var advanced := CheckedAdd(timestamp, duration.value);
      if advanced.None? {
        return Err(ScheduleOverflow);
      }
      DroppedFrames(View(), frames);
      var start := frames * format.channels;
      samples := samples[start..];
      timestamp := advanced.value;
      return Ok(true);
    }

    // Moves the payload and leaves the head as it was.
    method PrependSilenceInPlace(frames: nat, video: u64) returns (r: Result<(), AudioError>)
      requires Valid()
      modifies this
      ensures Valid()
      ensures r == (if frames + old(View()).Frames() > MAX_AUDIO_FRAMES then Err(BufferTooLarge(frames)) else Ok(()))
      ensures r.Err? ==> View() == old(View())
      ensures 0 <= frames * format.channels
      ensures r.Ok? ==> View() == AudioBuffer(format, video, ShiftWithoutClearing(old(samples), frames * format.channels))
    {
      if frames + |samples| / format.channels > MAX_AUDIO_FRAMES {
        return Err(BufferTooLarge(frames));
      }
      PrependedFrames(View(), frames);
      var silence := frames * format.channels;
      var oldLength := |samples|;
      var grown := samples + Zeros(silence);
      // `copy_within(..old_len, silence)`: only the destination range is written.
      samples := grown[..silence] + grown[..oldLength];
      timestamp := video;
      return Ok(());
    }

    // The padding that the documentation describes: the payload is moved and the head cleared.
    // It agrees with the allocating form on every input.
    method PrependClearedSilenceInPlace(frames: nat, video: u64) returns (r: Result<(), AudioError>)
      requires Valid()
      modifies this
      ensures Valid()
      ensures match PrependSilence(old(View()), frames, video)
        case Err(error) => r == Err(error) && View() == old(View())
        case Ok(padded) => r == Ok(()) && View() == padded
    {
      hide ShiftWithoutClearing;
      ghost var b := View();
      r := PrependSilenceInPlace(frames, video);
      if r.Ok? {
        PrependedFrames(b, frames);
        ShiftedPayload(b.samples, frames * format.channels);
        samples := Zeros(frames * format.channels) + samples[frames * format.channels..];
      }
    }

    // Reconciliation with that padding keeps the documented equivalence unconditionally.
    method ReconcileClearedInPlace(tolerance: u64, video: u64) returns (r: Result<bool, AudioError>)
      requires Valid()
      modifies this
      ensures Valid()
      ensures (r, View()) == Promised(tolerance, video, old(View()))
    {
      hide FramesForNanos, Observe, PrependSilence, TrimFront;
      var correction := CorrectionFor(Observe(tolerance, video, timestamp), format.sampleRate);
      match correction {
        case Err(error) =>
          return Err(error);
        case Ok(Keep) =>
          return Ok(true);
        case Ok(TrimLeading(frames)) =>
          r := TrimFrontInPlace(frames);
        case Ok(InsertSilence(frames)) =>
          var padded := PrependClearedSilenceInPlace(frames, video);
          if padded.Err? {
            return Err(padded.error);
          }
          return Ok(true);
      }
    }

    method ReconcileInPlace(tolerance: u64, video: u64) returns (r: Result<bool, AudioError>)
      requires Valid()
      modifies this
      ensures Valid()
      ensures (r, View()) == ReconciledInPlace(tolerance, video, old(View()))
    {
      var correction := CorrectionFor(Observe(tolerance, video, timestamp), format.sampleRate);
      match correction {
        case Err(error) =>
          return Err(error);
        case Ok(Keep) =>
          return Ok(true);
        case Ok(TrimLeading(frames)) =>
          r := TrimFrontInPlace(frames);
        case Ok(InsertSilence(frames)) =>
          var padded := PrependSilenceInPlace(frames, video);
          if padded.Err? {
            return Err(padded.error);
          }
          return Ok(true);
      }
    }
  }

  function PrependWithoutClearing(b: AudioBuffer, frames: nat, video: u64): Result<AudioBuffer, AudioError> {
    if frames + b.Frames() > MAX_AUDIO_FRAMES then Err(BufferTooLarge(frames))
    else
      PrependedFrames(b, frames);
      Ok(AudioBuffer(b.format, video, ShiftWithoutClearing(b.samples, frames * b.format.channels)))
  }

  // The answer and the final buffer of the in-place form.
  function ReconciledInPlace(tolerance: u64, video: u64, b: AudioBuffer): (Result<bool, AudioError>, AudioBuffer) {
    match CorrectionFor(Observe(tolerance, video, b.timestamp), b.format.sampleRate)
    case Err(error) => (Err(error), b)
    case Ok(Keep) => (Ok(true), b)
    case Ok(TrimLeading(frames)) =>
      (match TrimFront(b, frames)
       case Err(error) => (Err(error), b)
       case Ok(None) => (Ok(false), b)
       case Ok(Some(trimmed)) => (Ok(true), trimmed))
    case Ok(InsertSilence(frames)) =>
      match PrependWithoutClearing(b, frames, video)
      case Err(error) => (Err(error), b)
      case Ok(padded) => (Ok(true), padded)
  }

  // What the in-place form promises: the same buffer as the allocating form, or an
  // untouched one where the allocating form yields none.
  function Promised(tolerance: u64, video: u64, b: AudioBuffer): (Result<bool, AudioError>, AudioBuffer) {
    match Reconcile(tolerance, video, b)
    case Err(error) => (Err(error), b)
    case Ok(None) => (Ok(false), b)
    case Ok(Some(fixed)) => (Ok(true), fixed)
  }

  // The leading samples that in-place padding fails to clear.
  function UnclearedSamples(tolerance: u64, video: u64, b: AudioBuffer): nat {
    match CorrectionFor(Observe(tolerance, video, b.timestamp), b.format.sampleRate)
    case Ok(InsertSilence(frames)) =>
      if frames + b.Frames() > MAX_AUDIO_FRAMES then 0
      else
        PrependedFrames(b, frames);
        Min(|b.samples|, frames * b.format.channels)
    case _ => 0
  }

  // The two forms agree exactly when those samples already were silence; in particular
  // they agree on every trim, on every kept buffer and on every error.
  lemma InPlaceAgreesExactlyWhenHeadIsSilent(tolerance: u64, video: u64, b: AudioBuffer)
    ensures UnclearedSamples(tolerance, video, b) <= |b.samples|
    ensures ReconciledInPlace(tolerance, video, b) == Promised(tolerance, video, b)
      <==> forall i :: 0 <= i < UnclearedSamples(tolerance, video, b) ==> b.samples[i] == 0.0
  {
    match CorrectionFor(Observe(tolerance, video, b.timestamp), b.format.sampleRate)
    case Ok(InsertSilence(frames)) =>
      PrependedFrames(b, frames);
      ClearedExactlyWhenSilent(b.samples, frames * b.format.channels);
    case _ =>
  }

  // Both paddings put the old samples behind the head.
  lemma ShiftedPayload(samples: seq<Sample>, silence: nat)
    ensures ShiftWithoutClearing(samples, silence)[silence..] == samples
    ensures (Zeros(silence) + samples)[silence..] == samples
  {
  }

  lemma PaddingAgreesOnPayload(b: AudioBuffer, frames: nat, video: u64)
    requires PrependSilence(b, frames, video).Ok?
    ensures frames * b.format.channels >= 0 && PrependWithoutClearing(b, frames, video).Ok?
    ensures var (actual, promised) := (PrependWithoutClearing(b, frames, video).value, PrependSilence(b, frames, video).value);
      && actual.timestamp == promised.timestamp
      && |actual.samples| == |promised.samples| == frames * b.format.channels + |b.samples|
      && actual.samples[frames * b.format.channels..] == promised.samples[frames * b.format.channels..]
  {
    hide ShiftWithoutClearing, Zeros;
    PrependedFrames(b, frames);
    ShiftedPayload(b.samples, frames * b.format.channels);
  }

  // Whatever the head holds, the result, the timestamp, the length and the moved payload agree.
  lemma InPlaceAgreesOnPayload(tolerance: u64, video: u64, b: AudioBuffer)
    ensures var (actual, promised) := (ReconciledInPlace(tolerance, video, b), Promised(tolerance, video, b));
      var silence := |promised.1.samples| - |b.samples|;
      && actual.0 == promised.0
      && actual.1.timestamp == promised.1.timestamp && |actual.1.samples| == |promised.1.samples|
      && (silence >= 0 ==> actual.1.samples[silence..] == promised.1.samples[silence..])
      && (silence < 0 ==> actual.1 == promised.1)
  {
    hide ShiftWithoutClearing, Zeros, FramesForNanos, Observe, CorrectionFor, TrimFront;
    match CorrectionFor(Observe(tolerance, video, b.timestamp), b.format.sampleRate)
    case Ok(InsertSilence(frames)) =>
      SamePaddingErrors(b, frames, video);
      if PrependSilence(b, frames, video).Ok? {
        PaddingAgreesOnPayload(b, frames, video);
      }
      hide PrependSilence, PrependWithoutClearing;
    case _ =>
  }

  lemma SamePaddingErrors(b: AudioBuffer, frames: nat, video: u64)
    ensures PrependSilence(b, frames, video).Err? <==> PrependWithoutClearing(b, frames, video).Err?
    ensures PrependSilence(b, frames, video).Err? ==>
      PrependSilence(b, frames, video).error == PrependWithoutClearing(b, frames, video).error
  {
  }

  // A concrete buffer for which the in-place form plays an old sample as silence.
  lemma StaleHeadExample()
    ensures var b := AudioBuffer(AudioFormat(1, 1, Mono), NANOS_PER_SECOND, [0.5]);
      && Promised(0, 0, b).1.samples == [0.0, 0.5]
      && ReconciledInPlace(0, 0, b).1.samples == [0.5, 0.5]
  {
    assert FramesForNanos(NANOS_PER_SECOND, 1) == 1;
    assert Zeros(1) + [0.5] == [0.0, 0.5];
    assert ShiftWithoutClearing([0.5], 1) == [0.5, 0.5];
  }
}
