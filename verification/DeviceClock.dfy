// Independently drifting device clocks over one reference timeline
// (crates/obs-rs-clock/src/rate.rs), paced by the sample clock
// (crates/obs-rs-audio/src/pacing.rs).
module DeviceClock {
  import opened Numbers
  import opened Results
  import opened AudioTypes
  import opened SampleClock

  const CLOCK_PPM_SCALE: pos := 1_000_000
  const MAX_CLOCK_DRIFT_PPM := 500_000

  // `ClockRate`: the validated drift together with its precomputed scale.
  datatype RawClockRate = ClockRate(driftPpm: int, scalePpm: int)
  type ClockRate = r: RawClockRate |
      -MAX_CLOCK_DRIFT_PPM <= r.driftPpm <= MAX_CLOCK_DRIFT_PPM && r.scalePpm == 1_000_000 + r.driftPpm
    witness ClockRate(0, 1_000_000)

  function NewClockRate(driftPpm: int): (r: Option<ClockRate>)
    ensures r.Some? <==> -MAX_CLOCK_DRIFT_PPM <= driftPpm <= MAX_CLOCK_DRIFT_PPM
    ensures r.Some? ==> r.value.driftPpm == driftPpm && 500_000 <= r.value.scalePpm <= 1_500_000
  {
    if driftPpm < -MAX_CLOCK_DRIFT_PPM || driftPpm > MAX_CLOCK_DRIFT_PPM then None
    else
      var magnitude := if driftPpm < 0 then -driftPpm else driftPpm;
      Some(ClockRate(driftPpm, if driftPpm < 0 then 1_000_000 - magnitude else 1_000_000 + magnitude))
  }

  // The device reading at a reference time.
  function ObservedAt(rate: ClockRate, reference: u64): u64 {
    var nanos := Quotient(reference * rate.scalePpm, CLOCK_PPM_SCALE);
    if nanos > U64_MAX then U64_MAX else nanos
  }

  // The least reference time that shows `deadline`, before saturation.
  function ExactReference(rate: ClockRate, deadline: u64): nat {
    DivCeil(deadline * CLOCK_PPM_SCALE, rate.scalePpm)
  }

  function ReferenceFor(rate: ClockRate, deadline: u64): u64 {
    var reference := ExactReference(rate, deadline);
    if reference > U64_MAX then U64_MAX else reference
  }

  predicate Representable(rate: ClockRate, deadline: u64) {
    ExactReference(rate, deadline) <= U64_MAX
  }

  lemma ReadingMeetsDeadline(rate: ClockRate, reference: u64, deadline: u64)
    ensures ObservedAt(rate, reference) >= deadline <==> reference >= ExactReference(rate, deadline)
  {
    DivAtLeast(reference * rate.scalePpm, CLOCK_PPM_SCALE, deadline);
    CeilAtMost(deadline * CLOCK_PPM_SCALE, rate.scalePpm, reference);
  }

  // A reading is the reference time at the drifted rate, rounded down and kept to 64 bits.
  lemma ReadingIsExactFloor(rate: ClockRate, reference: u64)
    ensures var reading := ObservedAt(rate, reference);
      && reading * 1_000_000 <= reference * (1_000_000 + rate.driftPpm)
      && (reading < U64_MAX ==> reference * (1_000_000 + rate.driftPpm) < (reading + 1) * 1_000_000)
  {
    DivBounds(reference * rate.scalePpm, CLOCK_PPM_SCALE);
  }

  // Reading and waiting form a Galois connection, exactly when the wait is representable.
  lemma GaloisConnection(rate: ClockRate, deadline: u64)
    ensures Representable(rate, deadline) <==>
      forall reference: u64 :: ObservedAt(rate, reference) >= deadline <==> reference >= ReferenceFor(rate, deadline)
  {
    forall reference: u64
      ensures ObservedAt(rate, reference) >= deadline <==> reference >= ExactReference(rate, deadline)
    {
      ReadingMeetsDeadline(rate, reference, deadline);
    }
    if !Representable(rate, deadline) {
      assert ReferenceFor(rate, deadline) == U64_MAX;
      assert ObservedAt(rate, U64_MAX) < deadline;
    }
  }

  // Only a slow clock can have an unreachable deadline.
  lemma SlowClocksOnlySaturate(rate: ClockRate, deadline: u64)
    ensures rate.driftPpm >= 0 ==> Representable(rate, deadline)
    ensures Representable(rate, U64_MAX) <==> rate.driftPpm >= 0
  {
    CeilAtMost(deadline * CLOCK_PPM_SCALE, rate.scalePpm, U64_MAX);
    CeilAtMost(U64_MAX * CLOCK_PPM_SCALE, rate.scalePpm, U64_MAX);
    if rate.driftPpm >= 0 {
      assert deadline * CLOCK_PPM_SCALE <= U64_MAX * CLOCK_PPM_SCALE <= U64_MAX * rate.scalePpm;
    } else {
      assert U64_MAX * CLOCK_PPM_SCALE > U64_MAX * rate.scalePpm;
    }
  }

  lemma FasterClockReadsLater(fast: ClockRate, slow: ClockRate, reference: u64)
    requires fast.driftPpm >= slow.driftPpm
    ensures ObservedAt(fast, reference) >= ObservedAt(slow, reference)
  {
    MulMonotone(slow.scalePpm, fast.scalePpm, reference);
    DivMonotone(slow.scalePpm * reference, fast.scalePpm * reference, CLOCK_PPM_SCALE);
  }

  lemma LaterReferenceReadsLater(rate: ClockRate, earlier: u64, later: u64)
    requires earlier <= later
    ensures ObservedAt(rate, earlier) <= ObservedAt(rate, later)
  {
    MulMonotone(earlier, later, rate.scalePpm);
    DivMonotone(earlier * rate.scalePpm, later * rate.scalePpm, CLOCK_PPM_SCALE);
  }

  datatype Domain = Audio | Video

  datatype Wait = Wait(domain: Domain, deadline: u64)

  // The clock pair: the state is one reference time, advanced by either domain.
  class IndependentMediaClock {
    const audioRate: ClockRate
    const videoRate: ClockRate
    var referenceNanos: u64

    constructor (audioRate: ClockRate, videoRate: ClockRate)
      ensures this.audioRate == audioRate && this.videoRate == videoRate && referenceNanos == 0
    {
      this.audioRate, this.videoRate, referenceNanos := audioRate, videoRate, 0;
    }

    function Rate(domain: Domain): ClockRate {
      if domain == Audio then audioRate else videoRate
    }

    function Now(domain: Domain): u64
      reads this
    {
      ObservedAt(Rate(domain), referenceNanos)
    }

    method SleepUntil(domain: Domain, deadline: u64)
      modifies this`referenceNanos
      ensures referenceNanos == Advance(old(referenceNanos), Rate(domain), deadline)
    {
      var required := ReferenceFor(Rate(domain), deadline);
      referenceNanos := Max(referenceNanos, required);
    }

    // Any interleaving of audio and video waits.
    method SleepAll(waits: seq<Wait>)
      modifies this`referenceNanos
      ensures referenceNanos == AdvanceAll(old(referenceNanos), audioRate, videoRate, waits)
    {
      for i := 0 to |waits|
        invariant AdvanceAll(referenceNanos, audioRate, videoRate, waits[i..])
               == AdvanceAll(old(referenceNanos), audioRate, videoRate, waits)
      {
        SleepUntil(waits[i].domain, waits[i].deadline);
      }
    }
  }

  function Advance(reference: u64, rate: ClockRate, deadline: u64): u64 {
    Max(reference, ReferenceFor(rate, deadline))
  }

  function AdvanceAll(reference: u64, audio: ClockRate, video: ClockRate, waits: seq<Wait>): u64
    decreases waits
  {
    if waits == [] then reference
    else
      var rate := if waits[0].domain == Audio then audio else video;
      AdvanceAll(Advance(reference, rate, waits[0].deadline), audio, video, waits[1..])
  }

  ghost predicate AllMet(reference: u64, audio: ClockRate, video: ClockRate, waits: seq<Wait>) {
    forall w :: w in waits ==> ObservedAt(if w.domain == Audio then audio else video, reference) >= w.deadline
  }

  // Time is monotone and least-sufficient over a whole run: a reference time at or after
  // the start satisfies every wait exactly when it is at or after the run's final reference.
  lemma {:induction false} RunIsLeastSufficient(start: u64, audio: ClockRate, video: ClockRate, waits: seq<Wait>, reference: u64)
    requires forall w :: w in waits ==> Representable(if w.domain == Audio then audio else video, w.deadline)
    ensures AdvanceAll(start, audio, video, waits) >= start
    ensures reference >= AdvanceAll(start, audio, video, waits)
      <==> reference >= start && AllMet(reference, audio, video, waits)
    decreases waits
  {
    if waits != [] {
      var w := waits[0];
      var rate := if w.domain == Audio then audio else video;
      assert w in waits;
      ReadingMeetsDeadline(rate, reference, w.deadline);
      RunIsLeastSufficient(Advance(start, rate, w.deadline), audio, video, waits[1..], reference);
      assert waits == [w] + waits[1..];
    }
  }

  // Audio is not behind video in the state that a run reaches.
  predicate AudioLeads(audio: ClockRate, video: ClockRate, waits: seq<Wait>) {
    var reference := AdvanceAll(0, audio, video, waits);
    ObservedAt(audio, reference) >= ObservedAt(video, reference)
  }

  // One video wait for its own reading of a million reference nanoseconds shows a slower audio
  // clock behind.
  lemma SlowerAudioFallsBehind(audio: ClockRate, video: ClockRate)
    requires audio.driftPpm < video.driftPpm
    ensures !AudioLeads(audio, video, [Wait(Video, video.scalePpm)])
  {
    var waits := [Wait(Video, video.scalePpm)];
    DivUnique(video.scalePpm * CLOCK_PPM_SCALE + video.scalePpm - 1, video.scalePpm, CLOCK_PPM_SCALE);
    assert ExactReference(video, video.scalePpm) == CLOCK_PPM_SCALE;
    assert waits[1..] == [];
    assert AdvanceAll(0, audio, video, waits) == CLOCK_PPM_SCALE;
    DivUnique(CLOCK_PPM_SCALE * audio.scalePpm, CLOCK_PPM_SCALE, audio.scalePpm);
    DivUnique(CLOCK_PPM_SCALE * video.scalePpm, CLOCK_PPM_SCALE, video.scalePpm);
  }

  // Audio leads in every reachable state exactly when its clock is not the slower one.
  lemma AudioLeadsExactlyWhenNotSlower(audio: ClockRate, video: ClockRate)
    ensures (forall waits :: AudioLeads(audio, video, waits)) <==> audio.driftPpm >= video.driftPpm
  {
    if audio.driftPpm >= video.driftPpm {
      forall waits ensures AudioLeads(audio, video, waits) {
        FasterClockReadsLater(audio, video, AdvanceAll(0, audio, video, waits));
      }
    } else {
      SlowerAudioFallsBehind(audio, video);
    }
  }

  datatype PacingResult =
    PacingResult(deadline: AudioDeadline, frames: nat, requestedAt: u64, observedAt: u64, waitedNanos: nat)

  // `AudioPacer::next` over this clock: the block starts at or after its deadline exactly
  // when the device clock can reach that deadline at all.
  method NextPaced(scheduler: AudioScheduler, clock: IndependentMediaClock, frames: nat)
    returns (r: Result<PacingResult, AudioError>)
    modifies scheduler`nextIndex, clock`referenceNanos
    ensures r.Err? ==> scheduler.nextIndex == old(scheduler.nextIndex) && clock.referenceNanos == old(clock.referenceNanos)
    ensures ScheduleBlock(old(scheduler.nextIndex), frames, scheduler.format.sampleRate).1 == scheduler.nextIndex
    ensures match ScheduleBlock(old(scheduler.nextIndex), frames, scheduler.format.sampleRate).0
      case Err(error) => r == Err(error)
      case Ok(deadline) =>
        && r.Ok? && r.value.deadline == deadline && r.value.frames == frames
        && clock.referenceNanos == Advance(old(clock.referenceNanos), clock.audioRate, deadline.timestamp)
        && r.value.observedAt == clock.Now(Audio)
        && r.value.requestedAt == old(clock.Now(Audio))
        && r.value.requestedAt + r.value.waitedNanos == r.value.observedAt
        && (r.value.observedAt >= deadline.timestamp <==> Representable(clock.audioRate, deadline.timestamp))
  {
    var deadline := scheduler.NextBlockDeadline(frames);
    if deadline.Err? {
      return Err(deadline.error);
    }
    var requestedAt := clock.Now(Audio);
    ghost var before := clock.referenceNanos;
    clock.SleepUntil(Audio, deadline.value.timestamp);
    var observedAt := clock.Now(Audio);
    ReadingMeetsDeadline(clock.audioRate, clock.referenceNanos, deadline.value.timestamp);
    LaterReferenceReadsLater(clock.audioRate, before, clock.referenceNanos);
    return Ok(PacingResult(deadline.value, frames, requestedAt, observedAt, SaturatingSub(observedAt, requestedAt)));
  }
}
