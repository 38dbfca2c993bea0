// The rational sample clock: block deadlines without floating point drift
// (crates/obs-rs-audio/src/pacing.rs).
module SampleClock {
  import opened Numbers
  import opened Results
  import opened AudioTypes

  datatype AudioDeadline = AudioDeadline(index: u64, timestamp: u64)

  // The time of a sample frame, computed from the origin in one division.
  function AudioTimestampFor(index: u64, rate: pos): Result<u64, AudioError> {
    var nanoseconds := index * NANOS_PER_SECOND / rate;
    if nanoseconds > U64_MAX then Err(ScheduleOverflow) else Ok(nanoseconds)
  }

  // One call of the block scheduler on the frame index: its answer and the new index.
  function ScheduleBlock(index: u64, frames: nat, rate: pos): (Result<AudioDeadline, AudioError>, u64) {
    if frames == 0 then (Err(ZeroBlock), index)
    else match AudioTimestampFor(index, rate)
      case Err(error) => (Err(error), index)
      case Ok(timestamp) =>
        if index + frames > U64_MAX then (Err(ScheduleOverflow), index)
        else (Ok(AudioDeadline(index, timestamp)), index + frames)
  }

  class AudioScheduler {
    const format: AudioFormat
    var nextIndex: u64

    constructor (format: AudioFormat)
      ensures this.format == format && nextIndex == 0
    {
      this.format := format;
      nextIndex := 0;
    }

    method NextBlockDeadline(frames: nat) returns (r: Result<AudioDeadline, AudioError>)
      modifies this`nextIndex
      ensures (r, nextIndex) == ScheduleBlock(old(nextIndex), frames, format.sampleRate)
    {
      if frames == 0 {
        return Err(ZeroBlock);
      }
      var timestamp := AudioTimestampFor(nextIndex, format.sampleRate);
      if timestamp.Err? {
        return Err(timestamp.error);
      }
      var deadline := AudioDeadline(nextIndex, timestamp.value);
      if nextIndex + frames > U64_MAX {
        return Err(ScheduleOverflow);
      }
      nextIndex := nextIndex + frames;
      return Ok(deadline);
    }

    method Reset()
      modifies this`nextIndex
      ensures nextIndex == 0
    {
      nextIndex := 0;
    }
  }

  // Every deadline granted while scheduling `blocks` one after another.
  function ScheduleAll(index: u64, blocks: seq<nat>, rate: pos): (seq<AudioDeadline>, u64)
    decreases blocks
  {
    if blocks == [] then ([], index)
    else
      var (result, next) := ScheduleBlock(index, blocks[0], rate);
      var (rest, last) := ScheduleAll(next, blocks[1..], rate);
      (if result.Ok? then [result.value] + rest else rest, last)
  }

  function Sum(blocks: seq<nat>): nat {
    if blocks == [] then 0 else blocks[0] + Sum(blocks[1..])
  }

  // What a timeline must satisfy: no empty block, an index that fits, and a last block whose
  // start has a representable time. Its end need not have one.
  predicate Schedulable(index: u64, blocks: seq<nat>, rate: pos) {
    blocks != [] ==>
      && (forall i :: 0 <= i < |blocks| ==> blocks[i] > 0)
      && index + Sum(blocks) <= U64_MAX
      && Quotient((index + Sum(blocks[..|blocks| - 1])) * NANOS_PER_SECOND, rate) <= U64_MAX
  }

  lemma SumOfFront(blocks: seq<nat>)
    requires |blocks| > 1
    ensures Sum(blocks[..|blocks| - 1]) == blocks[0] + Sum(blocks[1..][..|blocks| - 2])
  {
    assert blocks[..|blocks| - 1][1..] == blocks[1..][..|blocks| - 2];
  }

  lemma LaterStartIsLater(index: nat, more: nat, rate: pos)
    ensures Quotient(index * NANOS_PER_SECOND, rate) <= Quotient((index + more) * NANOS_PER_SECOND, rate)
  {
    DivMonotone(index * NANOS_PER_SECOND, (index + more) * NANOS_PER_SECOND, rate);
  }

  // The first block and the rest: either the first is refused, or the rest decides.
  lemma SchedulableStep(index: u64, blocks: seq<nat>, rate: pos)
    requires blocks != []
    ensures var (result, next) := ScheduleBlock(index, blocks[0], rate);
      && (result.Err? ==> next == index && !Schedulable(index, blocks, rate))
      && (result.Ok? ==>
            && next == index + blocks[0]
            && result.value == AudioDeadline(index, Quotient(index * NANOS_PER_SECOND, rate))
            && (Schedulable(index, blocks, rate) <==> Schedulable(next, blocks[1..], rate)))
  {
    var rest := blocks[1..];
    LaterStartIsLater(index, Sum(blocks[..|blocks| - 1]), rate);
    if |blocks| == 1 {
      assert blocks[..0] == [] && Sum(rest) == 0;
    } else {
      SumOfFront(blocks);
      assert (forall i :: 0 <= i < |blocks| ==> blocks[i] > 0)
        <==> blocks[0] > 0 && (forall i :: 0 <= i < |rest| ==> rest[i] > 0) by {
        if blocks[0] > 0 && (forall i :: 0 <= i < |rest| ==> rest[i] > 0) {
          forall i | 0 <= i < |blocks| ensures blocks[i] > 0 {
            assert i > 0 ==> blocks[i] == rest[i - 1];
          }
        }
        if forall i :: 0 <= i < |blocks| ==> blocks[i] > 0 {
          forall i | 0 <= i < |rest| ensures rest[i] > 0 {
            assert rest[i] == blocks[i + 1];
          }
        }
      }
      hide Quotient;
    }
  }

  // Every block is granted exactly when the timeline is representable.
  lemma {:induction false} GrantedExactlyWhenSchedulable(index: u64, blocks: seq<nat>, rate: pos)
    ensures |ScheduleAll(index, blocks, rate).0| <= |blocks|
    ensures |ScheduleAll(index, blocks, rate).0| == |blocks| <==> Schedulable(index, blocks, rate)
    decreases blocks
  {
    if blocks != [] {
      SchedulableStep(index, blocks, rate);
      hide Schedulable, ScheduleBlock, Quotient;
      GrantedExactlyWhenSchedulable(ScheduleBlock(index, blocks[0], rate).1, blocks[1..], rate);
    }
  }

  // No drift: however the frames are cut into blocks, the k-th deadline is the exact floor
  // of all preceding frames.
  lemma {:induction false} DeadlinesNeverDrift(index: u64, blocks: seq<nat>, rate: pos, k: nat)
    requires Schedulable(index, blocks, rate) && k < |blocks|
    ensures |ScheduleAll(index, blocks, rate).0| == |blocks|
    ensures ScheduleAll(index, blocks, rate).1 == index + Sum(blocks)
    ensures ScheduleAll(index, blocks, rate).0[k].index == index + Sum(blocks[..k])
    ensures ScheduleAll(index, blocks, rate).0[k].timestamp == Quotient((index + Sum(blocks[..k])) * NANOS_PER_SECOND, rate)
    decreases blocks
  {
    SchedulableStep(index, blocks, rate);
    hide Schedulable, ScheduleBlock, Quotient;
    var next := ScheduleBlock(index, blocks[0], rate).1;
    GrantedExactlyWhenSchedulable(index, blocks, rate);
    if |blocks| == 1 {
      assert blocks[1..] == [] && blocks[..k] == [];
    } else {
      DeadlinesNeverDrift(next, blocks[1..], rate, if k == 0 then 0 else k - 1);
      if k == 0 {
        assert blocks[..k] == [];
      } else {
        assert blocks[..k][1..] == blocks[1..][..k - 1];
      }
    }
  }

  // `AudioBuffer::duration_nanos` for a block of `frames`.
  function DurationNanos(frames: nat, rate: pos): nat {
    frames * NANOS_PER_SECOND / rate
  }

  // The end of a block and the start of the next one disagree by at most one nanosecond,
  // and the next block never starts before the previous one ends.
  lemma BlockEndMeetsNextDeadline(index: nat, frames: nat, rate: pos)
    ensures 0 <= (index + frames) * NANOS_PER_SECOND / rate
                 - (index * NANOS_PER_SECOND / rate + DurationNanos(frames, rate)) <= 1
  {
    var a, b := index * NANOS_PER_SECOND, frames * NANOS_PER_SECOND;
    DivBounds(a, rate);
    DivBounds(b, rate);
    var q := a / rate + b / rate;
    assert q * rate == (a / rate) * rate + (b / rate) * rate;
    DivAtLeast(a + b, rate, q);
    assert (q + 2) * rate == q * rate + rate + rate;
    DivBelow(a + b, rate, q + 2);
  }
}
