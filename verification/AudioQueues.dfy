// The bounded queue of complete buffers (crates/obs-rs-audio/src/queue.rs).
module AudioQueues {
  import opened Numbers
  import opened Results
  import opened AudioTypes

  // A complete buffer as the queue sees it: the payload is carried along unread.
  datatype QueuedBuffer = QueuedBuffer(format: AudioFormat, timestamp: u64, frames: nat, samples: seq<real>)

  datatype DropPolicy = DropOldest | DropNewest

  datatype PushOutcome =
    | Enqueued
    | DroppedOldest(frames: nat)
    | DroppedNewest(frames: nat)

  // The frames held by a run of buffers: the scan that `queued_frames` replaces.
  function TotalFrames(buffers: seq<QueuedBuffer>): nat {
    if buffers == [] then 0 else buffers[0].frames + TotalFrames(buffers[1..])
  }

  lemma {:induction false} TotalFramesAppend(a: seq<QueuedBuffer>, b: seq<QueuedBuffer>)
    ensures TotalFrames(a + b) == TotalFrames(a) + TotalFrames(b)
  {
    if a == [] {
      assert a + b == b;
    } else {
      assert (a + b)[1..] == a[1..] + b;
      TotalFramesAppend(a[1..], b);
    }
  }

  lemma TotalFramesSplit(buffers: seq<QueuedBuffer>, k: nat)
    requires k <= |buffers|
    ensures TotalFrames(buffers) == TotalFrames(buffers[..k]) + TotalFrames(buffers[k..])
  {
    assert buffers == buffers[..k] + buffers[k..];
    TotalFramesAppend(buffers[..k], buffers[k..]);
  }

  lemma NothingDropped(buffers: seq<QueuedBuffer>)
    ensures buffers[0..] == buffers && TotalFrames(buffers[..0]) == 0
  {
  }

  // One step of the drop loop: the frames move from the kept to the dropped side.
  lemma DropOneMore(buffers: seq<QueuedBuffer>, dropped: nat)
    requires dropped <= |buffers|
    ensures dropped == |buffers| ==> buffers[dropped..] == [] && TotalFrames(buffers[dropped..]) == 0
    ensures dropped < |buffers| ==>
      && buffers[dropped..][0] == buffers[dropped] && buffers[dropped..][1..] == buffers[dropped + 1..]
      && TotalFrames(buffers[dropped..]) == buffers[dropped].frames + TotalFrames(buffers[dropped + 1..])
      && TotalFrames(buffers[..dropped + 1]) == TotalFrames(buffers[..dropped]) + buffers[dropped].frames
  {
    if dropped < |buffers| {
      assert buffers[dropped..][1..] == buffers[dropped + 1..];
      assert buffers[..dropped + 1] == buffers[..dropped] + [buffers[dropped]];
      TotalFramesAppend(buffers[..dropped], [buffers[dropped]]);
    }
  }

  // `dropped` is the shortest prefix whose removal makes room for `incoming` frames.
  ghost predicate ShortestSufficientPrefix(buffers: seq<QueuedBuffer>, dropped: nat, incoming: nat, capacity: nat) {
    && dropped <= |buffers|
    && TotalFrames(buffers[dropped..]) + incoming <= capacity
    && forall k :: 0 <= k < dropped ==> TotalFrames(buffers[k..]) + incoming > capacity
  }

  lemma PrefixIsUnique(buffers: seq<QueuedBuffer>, a: nat, b: nat, incoming: nat, capacity: nat)
    requires ShortestSufficientPrefix(buffers, a, incoming, capacity)
    requires ShortestSufficientPrefix(buffers, b, incoming, capacity)
    ensures a == b
  {
  }

  // Frames that a push removed from circulation.
  function Lost(outcome: PushOutcome): nat {
    if outcome.Enqueued? then 0 else outcome.frames
  }

  class AudioQueue {
    const format: AudioFormat
    const capacityFrames: nat
    const policy: DropPolicy
    var queuedFrames: nat
    var buffers: seq<QueuedBuffer>

    ghost predicate Valid()
      reads this
    {
      && queuedFrames == TotalFrames(buffers) <= capacityFrames
      && forall b :: b in buffers ==> b.format == format
    }

    constructor (format: AudioFormat, capacityFrames: pos, policy: DropPolicy)
      ensures Valid() && buffers == []
      ensures this.format == format && this.capacityFrames == capacityFrames && this.policy == policy
    {
      this.format, this.capacityFrames, this.policy := format, capacityFrames, policy;
      queuedFrames, buffers := 0, [];
    }

    // The drop loop of a push that does not fit.
    method MakeRoom(incoming: nat) returns (droppedFrames: nat, ghost dropped: nat)
      requires Valid() && incoming <= capacityFrames
      modifies this
      ensures Valid()
      ensures ShortestSufficientPrefix(old(buffers), dropped, incoming, capacityFrames)
      ensures buffers == old(buffers)[dropped..]
      ensures droppedFrames == TotalFrames(old(buffers)[..dropped])
    {
      hide TotalFrames;
      ghost var before := buffers;
      droppedFrames, dropped := 0, 0;
      NothingDropped(before);
      while incoming > SaturatingSub(capacityFrames, queuedFrames)
        invariant dropped <= |before| && buffers == before[dropped..]
        invariant Valid()
        invariant droppedFrames == TotalFrames(before[..dropped])
        invariant forall k :: 0 <= k < dropped ==> TotalFrames(before[k..]) + incoming > capacityFrames
        decreases |buffers|
      {
        DropOneMore(before, dropped);
        if buffers == [] {
          assert false;
          break;
        }
        var frames := buffers[0].frames;
        queuedFrames := queuedFrames - frames;
        droppedFrames := droppedFrames + frames;
        buffers := buffers[1..];
        dropped := dropped + 1;
      }
    }

    method Push(buffer: QueuedBuffer) returns (r: Result<PushOutcome, AudioError>)
      requires Valid()
      modifies this
      ensures Valid()
      ensures r.Err? <==> buffer.format != format || buffer.frames > capacityFrames
      ensures buffer.format != format ==> r == Err(FormatMismatch(format, buffer.format))
      ensures buffer.format == format && r.Err? ==> r == Err(BufferTooLarge(buffer.frames))
      ensures r.Err? ==> buffers == old(buffers)
      ensures r.Ok? ==>
        var fits := TotalFrames(old(buffers)) + buffer.frames <= capacityFrames;
        if fits then r.value == Enqueued && buffers == old(buffers) + [buffer]
        else if policy == DropNewest then r.value == DroppedNewest(buffer.frames) && buffers == old(buffers)
        else exists dropped: nat ::
          && ShortestSufficientPrefix(old(buffers), dropped, buffer.frames, capacityFrames)
          && r.value == DroppedOldest(TotalFrames(old(buffers)[..dropped]))
          && buffers == old(buffers)[dropped..] + [buffer]
      ensures r.Ok? ==>
        (TotalFrames(old(buffers)) + buffer.frames == TotalFrames(buffers) + Lost(r.value))
    {
      if buffer.format != format {
        return Err(FormatMismatch(format, buffer.format));
      }
      var incoming := buffer.frames;
      if incoming > capacityFrames {
        return Err(BufferTooLarge(incoming));
      }
      TotalFramesAppend(buffers, [buffer]);
      var freeFrames := SaturatingSub(capacityFrames, queuedFrames);
      if incoming <= freeFrames {
        queuedFrames := queuedFrames + incoming;
        buffers := buffers + [buffer];
        return Ok(Enqueued);
      }
      if policy == DropNewest {
        return Ok(DroppedNewest(incoming));
      }
      ghost var before := buffers;
      var droppedFrames, dropped := MakeRoom(incoming);
      TotalFramesSplit(before, dropped);
      TotalFramesAppend(buffers, [buffer]);
      queuedFrames := queuedFrames + incoming;
      buffers := buffers + [buffer];
      assert ShortestSufficientPrefix(before, dropped, incoming, capacityFrames);
      return Ok(DroppedOldest(droppedFrames));
    }

    method Pop() returns (r: Option<QueuedBuffer>)
      requires Valid()
      modifies this
      ensures Valid()
      ensures old(buffers) == [] ==> r.None? && buffers == []
      ensures old(buffers) != [] ==> r == Some(old(buffers)[0]) && buffers == old(buffers)[1..]
    {
      if buffers == [] {
        return None;
      }
      r := Some(buffers[0]);
      queuedFrames := queuedFrames - buffers[0].frames;
      buffers := buffers[1..];
    }

    method Clear()
      requires Valid()
      modifies this
      ensures Valid() && buffers == []
    {
      buffers, queuedFrames := [], 0;
    }
  }

  // `AudioQueue::new`.
  method NewAudioQueue(format: AudioFormat, capacityFrames: nat, policy: DropPolicy) returns (r: Result<AudioQueue, AudioError>)
    ensures capacityFrames == 0 ==> r == Err(ZeroCapacity)
    ensures capacityFrames > 0 ==> r.Ok? && fresh(r.value) && r.value.Valid() && r.value.buffers == []
    ensures capacityFrames > 0 ==> r.value.format == format && r.value.capacityFrames == capacityFrames && r.value.policy == policy
  {
    if capacityFrames == 0 {
      return Err(ZeroCapacity);
    }
    var queue := new AudioQueue(format, capacityFrames, policy);
    return Ok(queue);
  }
}
