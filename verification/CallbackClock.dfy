// The device-callback clock and its running rational numerator
// (crates/obs-rs-audio/src/callback_clock.rs).
module CallbackClock {
  import opened Numbers
  import opened Results
  import opened AudioTypes

  datatype CallbackObservation =
    CallbackObservation(timestamp: u64, expectedTimestamp: u64, frames: nat, driftNanos: int)

  // `i128::checked_mul` and `i128::saturating_mul` on non-negative operands.
  function CheckedMul128(a: nat, b: nat): Option<nat> {
    if a * b > I128_MAX then None else Some(a * b)
  }

  function SaturatingMul128(a: nat, b: nat): nat {
    Min(a * b, I128_MAX)
  }

  function ClampToI64(x: int): int {
    if x < I64_MIN then I64_MIN else if x > I64_MAX then I64_MAX else x
  }

  type Correction = c: int | -MAX_CALLBACK_CORRECTION_PPM <= c <= MAX_CALLBACK_CORRECTION_PPM

  function ScaleFor(correction: Correction): pos {
    1_000_000 + correction
  }

  function FrameNumerator(frames: u64, correction: Correction): Result<nat, AudioError> {
    match CheckedMul128(frames, NANOS_PER_SECOND)
    case None => Err(ScheduleOverflow)
    case Some(duration) =>
      match CheckedMul128(duration, ScaleFor(correction))
      case None => Err(ScheduleOverflow)
      case Some(numerator) => Ok(numerator)
  }

  function ScaleElapsedNanos(numerator: nat, rate: pos): Result<u64, AudioError> {
    var corrected := numerator / 1_000_000 / rate;
    if corrected > U64_MAX then Err(ScheduleOverflow) else Ok(corrected)
  }

  // What the clock means: no numerator, only the delivered total.
  datatype ClockState = ClockState(origin: Option<u64>, last: u64, delivered: u64, correction: Correction)

  // `frames * 1e9 * (1e6 + ppm)`: corrected time before any division.
  function Numerator(frames: nat, correction: Correction): nat {
    frames * NANOS_PER_SECOND * ScaleFor(correction)
  }

  // Corrected elapsed time of `delivered` frames, in one division from the origin.
  function ElapsedNanos(delivered: u64, correction: Correction, rate: pos): nat {
    Quotient(Numerator(delivered, correction), MicroRate(rate))
  }

  function MicroRate(rate: pos): pos {
    1_000_000 * rate
  }

  // The closed form of one callback. A rejected callback returns the state untouched.
  function Observe(s: ClockState, rate: pos, timestamp: u64, frames: u64): (Result<CallbackObservation, AudioError>, ClockState)
  {
    if frames == 0 then (Err(ZeroBlock), s)
    else if s.origin.Some? && timestamp < s.last then (Err(CallbackTimestampRegression(s.last, timestamp)), s)
    else
      var origin := if s.origin.Some? then s.origin.value else timestamp;
      var expected := origin + ElapsedNanos(s.delivered, s.correction, rate);
      if expected > U64_MAX || s.delivered + frames > U64_MAX then (Err(ScheduleOverflow), s)
      else
        (Ok(CallbackObservation(timestamp, expected, frames, ClampToI64(timestamp - expected))),
         ClockState(Some(origin), timestamp, s.delivered + frames, s.correction))
  }

  // The 128-bit products stay in range for every reachable frame total, so the
  // checked operations never fail and the saturating ones never saturate.
  lemma NumeratorFits(frames: u64, correction: Correction)
    ensures FrameNumerator(frames, correction) == Ok(Numerator(frames, correction))
    ensures SaturatingMul128(SaturatingMul128(frames, NANOS_PER_SECOND), ScaleFor(correction))
         == Numerator(frames, correction) <= I128_MAX
  {
    var duration := frames * NANOS_PER_SECOND;
    assert duration <= U64_MAX * NANOS_PER_SECOND;
    assert duration * ScaleFor(correction) <= (U64_MAX * NANOS_PER_SECOND) * 1_010_000 by {
      assert duration * ScaleFor(correction) <= duration * 1_010_000;
    }
  }

  lemma ElapsedIsOneDivision(delivered: u64, correction: Correction, rate: pos)
    ensures Numerator(delivered, correction) / 1_000_000 / rate == ElapsedNanos(delivered, correction, rate)
  {
    DivDiv(Numerator(delivered, correction), 1_000_000, rate);
  }

  lemma NumeratorAdds(a: nat, b: nat, correction: Correction)
    ensures Numerator(a + b, correction) == Numerator(a, correction) + Numerator(b, correction)
  {
    var scale := NANOS_PER_SECOND * ScaleFor(correction);
    assert forall f: nat :: Numerator(f, correction) == f * scale;
  }

  lemma NothingDeliveredYet(correction: Correction, rate: pos)
    ensures ElapsedNanos(0, correction, rate) == 0
  {
    DivUnique(0, MicroRate(rate), 0);
  }

  class AudioCallbackClock {
    const format: AudioFormat
    var origin: Option<u64>
    var lastTimestamp: u64
    var deliveredFrames: u64
    var correctionPpm: Correction
    var elapsedNumerator: nat

    ghost predicate Valid()
      reads this
    {
      && elapsedNumerator == Numerator(deliveredFrames, correctionPpm)
      && (origin.None? ==> deliveredFrames == 0)
    }

    ghost function State(): ClockState
      reads this
    {
      ClockState(origin, lastTimestamp, deliveredFrames, correctionPpm)
    }

    constructor (format: AudioFormat)
      ensures Valid() && this.format == format
      ensures State() == ClockState(None, 0, 0, 0)
    {
      this.format := format;
      origin, lastTimestamp, deliveredFrames, correctionPpm, elapsedNumerator := None, 0, 0, 0, 0;
    }

    method ObserveCallback(timestamp: u64, frames: u64) returns (r: Result<CallbackObservation, AudioError>)
      requires Valid()
      modifies this
      ensures Valid()
      ensures (r, State()) == Observe(old(State()), format.sampleRate, timestamp, frames)
    {
      if frames == 0 {
        return Err(ZeroBlock);
      }
      if timestamp < lastTimestamp && origin.Some? {
        return Err(CallbackTimestampRegression(lastTimestamp, timestamp));
      }
      ElapsedIsOneDivision(deliveredFrames, correctionPpm, format.sampleRate);
      NumeratorFits(frames, correctionPpm);
      if origin.None? {
        NothingDeliveredYet(correctionPpm, format.sampleRate);
        // Written before the fallible steps: none of them can fail on the first callback.
        origin := Some(timestamp);
      }
      var elapsed := ScaleElapsedNanos(elapsedNumerator, format.sampleRate);
      if elapsed.Err? {
        return Err(elapsed.error);
      }
      var expected := origin.value + elapsed.value;
      if expected > U64_MAX {
        return Err(ScheduleOverflow);
      }
      var drift := timestamp - expected;
      if deliveredFrames + frames > U64_MAX {
        return Err(ScheduleOverflow);
      }
      NumeratorFits(deliveredFrames + frames, correctionPpm);
      NumeratorAdds(deliveredFrames, frames, correctionPpm);
      deliveredFrames := deliveredFrames + frames;
      var contribution := FrameNumerator(frames, correctionPpm);
      if contribution.Err? || elapsedNumerator + contribution.value > I128_MAX {
        assert false;
      }
      elapsedNumerator := elapsedNumerator + contribution.value;
      lastTimestamp := timestamp;
      return Ok(CallbackObservation(timestamp, expected, frames, ClampToI64(drift)));
    }

    method SetCorrectionPpm(ppm: int) returns (r: Result<(), AudioError>)
      requires Valid()
      modifies this
      ensures Valid()
      ensures r.Ok? <==> -MAX_CALLBACK_CORRECTION_PPM <= ppm <= MAX_CALLBACK_CORRECTION_PPM
      ensures r.Err? ==> r.error == CallbackCorrectionOutOfRange(ppm)
      ensures State() == if r.Ok? then old(State()).(correction := ppm) else old(State())
    {
      if ppm < -MAX_CALLBACK_CORRECTION_PPM || ppm > MAX_CALLBACK_CORRECTION_PPM {
        return Err(CallbackCorrectionOutOfRange(ppm));
      }
      correctionPpm := ppm;
      NumeratorFits(deliveredFrames, correctionPpm);
      elapsedNumerator := SaturatingMul128(SaturatingMul128(deliveredFrames, NANOS_PER_SECOND), ScaleFor(ppm));
      return Ok(());
    }
  }

  datatype Event = Callback(timestamp: u64, frames: u64) | Correct(correction: Correction)

  function RunEvents(s: ClockState, rate: pos, events: seq<Event>): (seq<CallbackObservation>, ClockState)
    decreases events
  {
    if events == [] then ([], s)
    else match events[0]
      case Correct(correction) => RunEvents(s.(correction := correction), rate, events[1..])
      case Callback(timestamp, frames) =>
        var (result, next) := Observe(s, rate, timestamp, frames);
        var (rest, last) := RunEvents(next, rate, events[1..]);
        (if result.Ok? then [result.value] + rest else rest, last)
  }

  // Frames carried by the callbacks that were accepted.
  function Frames(observations: seq<CallbackObservation>): nat {
    if observations == [] then 0 else observations[0].frames + Frames(observations[1..])
  }

  // Over any interleaving of callbacks and correction changes: no frame is lost or
  // counted twice, and accepted device timestamps never go backwards.
  lemma {:induction false} RunConservesFrames(s: ClockState, rate: pos, events: seq<Event>)
    requires s.origin.None? ==> s.delivered == 0
    ensures var (observations, last) := RunEvents(s, rate, events);
      && last.delivered == s.delivered + Frames(observations)
      && (s.origin.Some? ==> last.origin == s.origin && last.last >= s.last)
      && (last.origin.None? ==> observations == [])
      && (forall i :: 0 <= i < |observations| ==>
            last.origin.Some? && (s.origin.Some? ==> s.last <= observations[i].timestamp) && observations[i].timestamp <= last.last)
      && (forall i, j :: 0 <= i < j < |observations| ==> observations[i].timestamp <= observations[j].timestamp)
    decreases events
  {
    if events != [] {
      match events[0]
      case Correct(correction) =>
        RunConservesFrames(s.(correction := correction), rate, events[1..]);
      case Callback(timestamp, frames) =>
        var (result, next) := Observe(s, rate, timestamp, frames);
        RunConservesFrames(next, rate, events[1..]);
    }
  }

  // The expected time is the exact floor of the frames delivered so far.
  lemma ExpectedIsExactFloor(s: ClockState, rate: pos, timestamp: u64, frames: u64)
    requires Observe(s, rate, timestamp, frames).0.Ok?
    requires s.origin.Some?
    ensures var elapsed := Observe(s, rate, timestamp, frames).0.value.expectedTimestamp - s.origin.value;
      elapsed * MicroRate(rate) <= Numerator(s.delivered, s.correction) < (elapsed + 1) * MicroRate(rate)
  {
    DivBounds(Numerator(s.delivered, s.correction), MicroRate(rate));
  }

  // A callback is accepted exactly if it carries frames, does not go back in time, its frames fit
  // the total, and the time it is due at can be represented. The first one is never early or late.
  lemma AcceptedExactly(s: ClockState, rate: pos, timestamp: u64, frames: u64)
    requires s.origin.None? ==> s.delivered == 0
    ensures 1_000_000 * rate > 0
    ensures Observe(s, rate, timestamp, frames).0.Ok? <==>
      && frames > 0 && (s.origin.Some? ==> timestamp >= s.last) && s.delivered + frames <= U64_MAX
      && (s.origin.Some? ==>
            s.delivered * 1_000_000_000 * (1_000_000 + s.correction) < (U64_MAX - s.origin.value + 1) * (1_000_000 * rate))
    ensures Observe(s, rate, timestamp, frames).0.Ok? && s.origin.None? ==>
      Observe(s, rate, timestamp, frames).0.value == CallbackObservation(timestamp, timestamp, frames, 0)
  {
    if s.origin.None? {
      NothingDeliveredYet(s.correction, rate);
    } else {
      DivBelow(Numerator(s.delivered, s.correction), MicroRate(rate), U64_MAX - s.origin.value + 1);
    }
    hide ElapsedNanos;
  }

  // Comparing with a floor is comparing with what was floored.
  lemma FloorDecides(elapsed: int, floor: nat, due: nat, m: pos)
    requires floor * m <= due < (floor + 1) * m
    ensures elapsed > floor <==> elapsed * m > due
    ensures elapsed >= floor <==> (elapsed + 1) * m > due
  {
    if elapsed > floor {
      MulMonotone(floor + 1, elapsed, m);
    } else {
      MulMonotone(elapsed, floor, m);
      if elapsed < floor {
        MulMonotone(elapsed + 1, floor, m);
      } else {
        assert (elapsed + 1) * m == (floor + 1) * m;
      }
    }
  }

  lemma DriftIsDifference(s: ClockState, rate: pos, timestamp: u64, frames: u64)
    requires Observe(s, rate, timestamp, frames).0.Ok? && s.origin.Some?
    ensures var observation := Observe(s, rate, timestamp, frames).0.value;
      observation.expectedTimestamp >= s.origin.value && observation.driftNanos == ClampToI64(timestamp - observation.expectedTimestamp)
  {
    hide Quotient, Numerator;
  }

  // The drift is positive exactly for a callback that comes late: after the time that the frames
  // delivered before it take at the corrected rate. It is that lateness, kept to 64 signed bits.
  lemma DriftIsLateness(s: ClockState, rate: pos, timestamp: u64, frames: u64)
    requires Observe(s, rate, timestamp, frames).0.Ok? && s.origin.Some?
    ensures var drift := Observe(s, rate, timestamp, frames).0.value.driftNanos;
      var (elapsed, due) := (timestamp - s.origin.value, s.delivered * 1_000_000_000 * (1_000_000 + s.correction));
      && (drift > 0 <==> elapsed * (1_000_000 * rate) > due)
      && (drift >= 0 <==> (elapsed + 1) * (1_000_000 * rate) > due)
      && (I64_MIN < drift < I64_MAX ==> (elapsed - drift) * (1_000_000 * rate) <= due < (elapsed - drift + 1) * (1_000_000 * rate))
  {
    ExpectedIsExactFloor(s, rate, timestamp, frames);
    DriftIsDifference(s, rate, timestamp, frames);
    hide Observe;
    var floor := Observe(s, rate, timestamp, frames).0.value.expectedTimestamp - s.origin.value;
    var due := s.delivered * 1_000_000_000 * (1_000_000 + s.correction);
    assert due == Numerator(s.delivered, s.correction) && MicroRate(rate) == 1_000_000 * rate;
    hide Numerator, MicroRate;
    FloorDecides(timestamp - s.origin.value, floor, due, 1_000_000 * rate);
  }

  // A larger correction expects the same frames later, so it reads the same callback as earlier.
  lemma CorrectionDelaysExpectation(s: ClockState, rate: pos, more: Correction, timestamp: u64, frames: u64)
    requires s.correction <= more
    requires Observe(s, rate, timestamp, frames).0.Ok? && Observe(s.(correction := more), rate, timestamp, frames).0.Ok?
    ensures var (before, after) := (Observe(s, rate, timestamp, frames).0.value, Observe(s.(correction := more), rate, timestamp, frames).0.value);
      before.expectedTimestamp <= after.expectedTimestamp && before.driftNanos >= after.driftNanos
  {
    var duration := s.delivered * NANOS_PER_SECOND;
    MulMonotone(ScaleFor(s.correction), ScaleFor(more), duration);
    DivMonotone(Numerator(s.delivered, s.correction), Numerator(s.delivered, more), MicroRate(rate));
    hide Numerator;
  }
}
