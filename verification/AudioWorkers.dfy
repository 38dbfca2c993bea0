// The paced producer over the bounded queue (crates/obs-rs-audio/src/worker.rs).
// The clock, the cancellation token and the producer are an arbitrary script.
module AudioWorkers {
  import opened Numbers
  import opened Results
  import opened AudioTypes
  import opened AudioQueues
  import opened SampleClock

  datatype ProducerOutcome = NoAudio | Produced(buffer: QueuedBuffer) | ProducerFailed

  // What the world does during one loop iteration: the token read before the block,
  // the producer's answer, and the clock reading after it.
  datatype BlockScript = BlockScript(cancelled: bool, produced: ProducerOutcome, observedAt: u64)

  datatype WorkerError = Pacing(error: AudioError) | Source | Submit(error: AudioError)

  datatype WorkerReport = WorkerReport(
    requestedBlocks: u64, processedBlocks: u64, cancelled: bool, underflowBlocks: u64,
    producedFrames: u64, droppedOldestFrames: u64, droppedNewestFrames: u64,
    missedDeadlines: u64, totalLatenessNanos: u64, remainingQueueFrames: nat)

  // The buffers delivered by the first blocks of a script, in order.
  function Delivered(script: seq<BlockScript>): (buffers: seq<QueuedBuffer>)
    ensures |buffers| <= |script|
  {
    if script == [] then []
    else
      Delivered(script[..|script| - 1]) + DeliveredBy(script[|script| - 1])
  }

  function DeliveredBy(block: BlockScript): (buffers: seq<QueuedBuffer>)
    ensures |buffers| <= 1
  {
    if block.produced.Produced? then [block.produced.buffer] else []
  }

  ghost predicate InScheduleOrder(buffers: seq<QueuedBuffer>) {
    forall i, j :: 0 <= i < j < |buffers| ==> buffers[i].timestamp <= buffers[j].timestamp
  }

  ghost predicate IsSuffix(s: seq<QueuedBuffer>, whole: seq<QueuedBuffer>) {
    |s| <= |whole| && s == whole[|whole| - |s|..]
  }

  // The report after one push, with the source's saturating counters.
  function CountPush(report: WorkerReport, outcome: PushOutcome, frames: nat): (next: WorkerReport)
    ensures next.processedBlocks == report.processedBlocks && next.underflowBlocks == report.underflowBlocks
    ensures next.requestedBlocks == report.requestedBlocks && next.cancelled == report.cancelled
    ensures report.producedFrames + frames <= U64_MAX ==> next.producedFrames == report.producedFrames + frames
    ensures report.droppedOldestFrames + report.droppedNewestFrames + Lost(outcome) <= U64_MAX ==>
        && next.droppedOldestFrames == report.droppedOldestFrames + (if outcome.DroppedOldest? then Lost(outcome) else 0)
        && next.droppedNewestFrames == report.droppedNewestFrames + (if outcome.DroppedNewest? then Lost(outcome) else 0)
  {
    var next := report.(producedFrames := SaturatingAdd(report.producedFrames, frames));
    match outcome
    case Enqueued => next
    case DroppedOldest(dropped) => next.(droppedOldestFrames := SaturatingAdd(next.droppedOldestFrames, dropped))
    case DroppedNewest(dropped) => next.(droppedNewestFrames := SaturatingAdd(next.droppedNewestFrames, dropped))
  }

  // The report after one completed block.
  function CountBlock(report: WorkerReport, lateness: nat): WorkerReport {
    var next := report.(processedBlocks := SaturatingAdd(report.processedBlocks, 1));
    if lateness == 0 then next
    else next.(missedDeadlines := SaturatingAdd(next.missedDeadlines, 1),
               totalLatenessNanos := SaturatingAdd(next.totalLatenessNanos, lateness))
  }

  // When sample frame `index` is due.
  function DueAt(index: nat, rate: pos): nat {
    Quotient(index * NANOS_PER_SECOND, rate)
  }

  // The schedule has a place for a block at `index`.
  predicate OnSchedule(index: nat, blockFrames: nat, rate: pos) {
    blockFrames > 0 && index + blockFrames <= U64_MAX && DueAt(index, rate) <= U64_MAX
  }

  // A produced buffer is the one that was asked for.
  predicate AsAsked(buffer: QueuedBuffer, format: AudioFormat, capacity: nat, index: nat, blockFrames: nat) {
    && buffer.format == format && buffer.frames == blockFrames && buffer.timestamp == DueAt(index, format.sampleRate)
    && blockFrames <= capacity
  }

  predicate BlockSucceeds(block: BlockScript, format: AudioFormat, capacity: nat, index: nat, blockFrames: nat) {
    && OnSchedule(index, blockFrames, format.sampleRate)
    && !block.produced.ProducerFailed?
    && (block.produced.Produced? ==> AsAsked(block.produced.buffer, format, capacity, index, blockFrames))
  }

  // How long after its due time a block was observed.
  function LatenessOf(block: BlockScript, index: nat, rate: pos): nat {
    if block.observedAt > DueAt(index, rate) then block.observedAt - DueAt(index, rate) else 0
  }

  // The late blocks among the first ones, and how late they were altogether.
  function LateBlocks(script: seq<BlockScript>, index: nat, blockFrames: nat, rate: pos): (late: nat)
    ensures late <= |script|
  {
    if script == [] then 0
    else
      var n := |script| - 1;
      LateBlocks(script[..n], index, blockFrames, rate) + if LatenessOf(script[n], index + n * blockFrames, rate) > 0 then 1 else 0
  }

  function TotalLateness(script: seq<BlockScript>, index: nat, blockFrames: nat, rate: pos): nat {
    if script == [] then 0
    else
      var n := |script| - 1;
      TotalLateness(script[..n], index, blockFrames, rate) + LatenessOf(script[n], index + n * blockFrames, rate)
  }

  lemma LateOneMore(script: seq<BlockScript>, i: nat, index: nat, blockFrames: nat, rate: pos)
    requires i < |script|
    ensures index + i * blockFrames >= 0
    ensures LateBlocks(script[..i + 1], index, blockFrames, rate)
         == LateBlocks(script[..i], index, blockFrames, rate) + if LatenessOf(script[i], index + i * blockFrames, rate) > 0 then 1 else 0
    ensures TotalLateness(script[..i + 1], index, blockFrames, rate)
         == TotalLateness(script[..i], index, blockFrames, rate) + LatenessOf(script[i], index + i * blockFrames, rate)
  {
    assert script[..i + 1][..i] == script[..i];
  }

  // What a report says about lateness.
  ghost predicate CountsLateness(report: WorkerReport, script: seq<BlockScript>, index: nat, blockFrames: nat, rate: pos) {
    && report.missedDeadlines == LateBlocks(script, index, blockFrames, rate)
    && report.totalLatenessNanos == Min(TotalLateness(script, index, blockFrames, rate), U64_MAX)
  }

  lemma NothingLate(report: WorkerReport, script: seq<BlockScript>, index: nat, blockFrames: nat, rate: pos)
    requires report.missedDeadlines == 0 == report.totalLatenessNanos
    ensures CountsLateness(report, script[..0], index, blockFrames, rate)
  {
  }

  lemma CountsLatenessAfterBlock(report: WorkerReport, next: WorkerReport, script: seq<BlockScript>, i: nat, index: nat,
                                 blockFrames: nat, rate: pos)
    requires i < |script| <= U64_MAX && CountsLateness(report, script[..i], index, blockFrames, rate)
    requires var lateness := LatenessOf(script[i], index + i * blockFrames, rate);
      && next.missedDeadlines == SaturatingAdd(report.missedDeadlines, if lateness > 0 then 1 else 0)
      && next.totalLatenessNanos == SaturatingAdd(report.totalLatenessNanos, lateness)
    ensures CountsLateness(next, script[..i + 1], index, blockFrames, rate)
  {
    LateOneMore(script, i, index, blockFrames, rate);
    hide LatenessOf;
  }

  lemma SameLateness(report: WorkerReport, cancelled: bool, remaining: nat, script: seq<BlockScript>, index: nat, blockFrames: nat, rate: pos)
    requires CountsLateness(report, script, index, blockFrames, rate)
    ensures CountsLateness(report.(cancelled := cancelled, remainingQueueFrames := remaining), script, index, blockFrames, rate)
  {
  }

  // Every block of the script finds its place and delivers what was asked for.
  ghost predicate AllSucceed(script: seq<BlockScript>, format: AudioFormat, capacity: nat, index: nat, blockFrames: nat) {
    forall k :: 0 <= k < |script| ==>
      !script[k].cancelled && BlockSucceeds(script[k], format, capacity, index + k * blockFrames, blockFrames)
  }

  // Block `i` is the first that fails, and nothing was cancelled up to it.
  ghost predicate FailsAt(script: seq<BlockScript>, i: nat, format: AudioFormat, capacity: nat, index: nat, blockFrames: nat)
    requires i < |script|
  {
    && AllSucceed(script[..i], format, capacity, index, blockFrames) && !script[i].cancelled
    && !BlockSucceeds(script[i], format, capacity, index + i * blockFrames, blockFrames)
  }

  lemma NoBlockYet(script: seq<BlockScript>, format: AudioFormat, capacity: nat, index: nat, blockFrames: nat)
    ensures AllSucceed(script[..0], format, capacity, index, blockFrames)
  {
  }

  lemma SucceedsOneMore(script: seq<BlockScript>, i: nat, format: AudioFormat, capacity: nat, index: nat, blockFrames: nat)
    requires i < |script| && AllSucceed(script[..i], format, capacity, index, blockFrames) && !script[i].cancelled
    ensures BlockSucceeds(script[i], format, capacity, index + i * blockFrames, blockFrames) ==>
      AllSucceed(script[..i + 1], format, capacity, index, blockFrames)
    ensures !BlockSucceeds(script[i], format, capacity, index + i * blockFrames, blockFrames) ==>
      FailsAt(script, i, format, capacity, index, blockFrames)
  {
    hide BlockSucceeds;
    forall k | 0 <= k < i ensures script[..i + 1][k] == script[..i][k] {}
  }

  lemma ScheduledExactly(index: u64, blockFrames: nat, rate: pos)
    ensures var r := ScheduleBlock(index, blockFrames, rate).0;
      (r.Ok? <==> OnSchedule(index, blockFrames, rate)) && (r.Ok? ==> r.value.timestamp == DueAt(index, rate))
  {
  }

  ghost predicate AllBy(buffers: seq<QueuedBuffer>, time: nat) {
    forall b :: b in buffers ==> b.timestamp <= time
  }

  // What one accepted push did to the queue.
  ghost predicate Pushed(policy: DropPolicy, capacity: nat, outcome: PushOutcome, before: seq<QueuedBuffer>, buffer: QueuedBuffer,
                         after: seq<QueuedBuffer>) {
    match outcome
    case Enqueued => after == before + [buffer]
    case DroppedNewest(_) => policy == DropNewest && after == before
    case DroppedOldest(_) => policy == DropOldest && Slid(capacity, before, [buffer], after)
  }

  // The `k` oldest blocks left, as few as it takes, and `delivered` joined at the end.
  ghost predicate SlidBy(capacity: nat, before: seq<QueuedBuffer>, k: nat, delivered: seq<QueuedBuffer>, after: seq<QueuedBuffer>) {
    && k <= |before| && after == before[k..] + delivered
    && (k > 0 ==> TotalFrames(before[k - 1..]) + TotalFrames(delivered) > capacity)
  }

  ghost predicate Slid(capacity: nat, before: seq<QueuedBuffer>, delivered: seq<QueuedBuffer>, after: seq<QueuedBuffer>) {
    exists k: nat :: SlidBy(capacity, before, k, delivered, after)
  }

  lemma ShortestIsSlid(capacity: nat, before: seq<QueuedBuffer>, dropped: nat, buffer: QueuedBuffer, after: seq<QueuedBuffer>)
    requires ShortestSufficientPrefix(before, dropped, buffer.frames, capacity) && after == before[dropped..] + [buffer]
    ensures Slid(capacity, before, [buffer], after)
  {
    assert [buffer][1..] == [] && TotalFrames([buffer]) == buffer.frames;
    hide TotalFrames;
    assert SlidBy(capacity, before, dropped, [buffer], after);
  }

  lemma AllJoin(capacity: nat, before: seq<QueuedBuffer>, delivered: seq<QueuedBuffer>)
    ensures Slid(capacity, before, delivered, before + delivered)
  {
    assert before[0..] == before;
    assert SlidBy(capacity, before, 0, delivered, before + delivered);
  }

  // No room for another block.
  ghost predicate Full(capacity: nat, buffers: seq<QueuedBuffer>, blockFrames: nat) {
    TotalFrames(buffers) + blockFrames > capacity
  }

  // The frame accounting of one block.
  ghost predicate CountedBlock(report: WorkerReport, next: WorkerReport, before: seq<QueuedBuffer>,
                               delivered: seq<QueuedBuffer>, blockFrames: nat, after: seq<QueuedBuffer>) {
    var frames := if delivered == [] then 0 else blockFrames;
    && next.requestedBlocks == report.requestedBlocks && next.cancelled == report.cancelled
    && next.processedBlocks == report.processedBlocks + 1
    && next.underflowBlocks == report.underflowBlocks + 1 - |delivered|
    && next.producedFrames == report.producedFrames + frames
    && TotalFrames(before) + frames + report.droppedOldestFrames + report.droppedNewestFrames
         == TotalFrames(after) + next.droppedOldestFrames + next.droppedNewestFrames
  }

  // What one block did to the queued buffers.
  ghost predicate KeptBlock(policy: DropPolicy, capacity: nat, report: WorkerReport, next: WorkerReport, before: seq<QueuedBuffer>,
                            delivered: seq<QueuedBuffer>, blockFrames: nat, after: seq<QueuedBuffer>) {
    match policy
    case DropOldest =>
      next.droppedNewestFrames == report.droppedNewestFrames && Slid(capacity, before, delivered, after)
    case DropNewest =>
      && next.droppedOldestFrames == report.droppedOldestFrames
      && after == (if Full(capacity, before, blockFrames) then before else before + delivered)
  }

  // Conservation of frames over the blocks processed so far.
  ghost predicate Conserves(report: WorkerReport, start: seq<QueuedBuffer>, delivered: seq<QueuedBuffer>,
                            blockFrames: nat, now: seq<QueuedBuffer>) {
    && |delivered| == report.processedBlocks - report.underflowBlocks
    && report.producedFrames == |delivered| * blockFrames
    && TotalFrames(start) + report.producedFrames
         == TotalFrames(now) + report.droppedOldestFrames + report.droppedNewestFrames
  }

  // The most of the newest blocks that fit.
  ghost predicate LongestSuffix(capacity: nat, s: seq<QueuedBuffer>, whole: seq<QueuedBuffer>) {
    IsSuffix(s, whole) && (|s| < |whole| ==> TotalFrames(whole[|whole| - |s| - 1..]) > capacity)
  }

  // The most of the oldest blocks that fit, if all blocks have the same length.
  ghost predicate LongestPrefix(capacity: nat, blockFrames: nat, s: seq<QueuedBuffer>, whole: seq<QueuedBuffer>) {
    s <= whole && (|s| < |whole| ==> Full(capacity, s, blockFrames))
  }

  // Drop-oldest keeps as many of the newest blocks as fit, drop-newest as many of the oldest ones.
  ghost predicate KeepsByPolicy(policy: DropPolicy, capacity: nat, blockFrames: nat, report: WorkerReport, start: seq<QueuedBuffer>,
                                delivered: seq<QueuedBuffer>, now: seq<QueuedBuffer>) {
    match policy
    case DropOldest => report.droppedNewestFrames == 0 && LongestSuffix(capacity, now, start + delivered)
    case DropNewest => report.droppedOldestFrames == 0 && LongestPrefix(capacity, blockFrames, now, start + delivered)
  }

  lemma ConservesAfterBlock(report: WorkerReport, next: WorkerReport, start: seq<QueuedBuffer>, history: seq<QueuedBuffer>,
                            before: seq<QueuedBuffer>, delivered: seq<QueuedBuffer>, blockFrames: nat, after: seq<QueuedBuffer>)
    requires Conserves(report, start, history, blockFrames, before)
    requires CountedBlock(report, next, before, delivered, blockFrames, after) && |delivered| <= 1
    ensures Conserves(next, start, history + delivered, blockFrames, after)
  {
    assert (|history| + 1) * blockFrames == |history| * blockFrames + blockFrames;
  }

  lemma LongestSuffixExtends(capacity: nat, s: seq<QueuedBuffer>, whole: seq<QueuedBuffer>, k: nat, more: seq<QueuedBuffer>,
                             after: seq<QueuedBuffer>)
    requires LongestSuffix(capacity, s, whole) && SlidBy(capacity, s, k, more, after)
    ensures LongestSuffix(capacity, after, whole + more)
  {
    hide TotalFrames;
    var all, n := whole + more, |whole| - |s|;
    assert s[k..] == whole[n + k..] && all[n + k..] == whole[n + k..] + more;
    if k > 0 {
      assert s[k - 1..] == whole[n + k - 1..] && all[n + k - 1..] == s[k - 1..] + more;
      TotalFramesAppend(s[k - 1..], more);
    } else if n > 0 {
      assert all[n - 1..] == whole[n - 1..] + more;
      TotalFramesAppend(whole[n - 1..], more);
    }
  }

  // Under drop-newest a queue that once refused a block refuses every later one.
  lemma KeepsAfterBlock(policy: DropPolicy, capacity: nat, report: WorkerReport, next: WorkerReport, start: seq<QueuedBuffer>,
                        history: seq<QueuedBuffer>, before: seq<QueuedBuffer>, delivered: seq<QueuedBuffer>,
                        blockFrames: nat, after: seq<QueuedBuffer>)
    requires KeepsByPolicy(policy, capacity, blockFrames, report, start, history, before)
    requires KeptBlock(policy, capacity, report, next, before, delivered, blockFrames, after)
    ensures KeepsByPolicy(policy, capacity, blockFrames, next, start, history + delivered, after)
  {
    assert start + (history + delivered) == start + history + delivered;
    if policy == DropOldest {
      var k: nat :| SlidBy(capacity, before, k, delivered, after);
      LongestSuffixExtends(capacity, before, start + history, k, delivered, after);
      hide LongestSuffix;
    }
  }

  lemma NothingYet(policy: DropPolicy, capacity: nat, report: WorkerReport, start: seq<QueuedBuffer>, script: seq<BlockScript>, blockFrames: nat)
    requires report == WorkerReport(report.requestedBlocks, 0, false, 0, 0, 0, 0, 0, 0, 0)
    ensures Delivered(script[..0]) == [] && start + Delivered(script[..0]) == start
    ensures Conserves(report, start, Delivered(script[..0]), blockFrames, start)
    ensures KeepsByPolicy(policy, capacity, blockFrames, report, start, Delivered(script[..0]), start)
  {
  }

  lemma DeliveredOneMore(script: seq<BlockScript>, i: nat, blockFrames: nat)
    requires i < |script|
    ensures Delivered(script[..i + 1]) == Delivered(script[..i]) + DeliveredBy(script[i])
    ensures (i + 1) * blockFrames == i * blockFrames + blockFrames
  {
    assert script[..i + 1][..i] == script[..i];
  }

  lemma FinishedReport(policy: DropPolicy, capacity: nat, report: WorkerReport, cancelled: bool, remaining: nat, start: seq<QueuedBuffer>,
                       delivered: seq<QueuedBuffer>, blockFrames: nat, now: seq<QueuedBuffer>)
    requires Conserves(report, start, delivered, blockFrames, now) && KeepsByPolicy(policy, capacity, blockFrames, report, start, delivered, now)
    ensures var done := report.(cancelled := cancelled, remainingQueueFrames := remaining);
      Conserves(done, start, delivered, blockFrames, now) && KeepsByPolicy(policy, capacity, blockFrames, done, start, delivered, now)
  {
  }

  // A block that is not older than the queued ones keeps the queue in schedule order.
  lemma PushedStaysOrdered(policy: DropPolicy, capacity: nat, outcome: PushOutcome, before: seq<QueuedBuffer>, buffer: QueuedBuffer,
                           after: seq<QueuedBuffer>, clock: nat)
    requires Pushed(policy, capacity, outcome, before, buffer, after)
    requires InScheduleOrder(before) && AllBy(before, buffer.timestamp) && buffer.timestamp <= clock
    ensures InScheduleOrder(after) && AllBy(after, clock)
  {
    var k: nat :| k <= |before| && (after == before || after == before[k..] + [buffer]);
    if after != before {
      forall i | 0 <= i < |after| ensures after[i] == if i < |before| - k then before[k + i] else buffer {}
    }
  }

  class AudioWorker {
    const scheduler: AudioScheduler
    const queue: AudioQueue

    ghost predicate Valid()
      reads this, scheduler, queue
    {
      && queue.Valid()
      && scheduler.format == queue.format
      && TotalFrames(queue.buffers) <= scheduler.nextIndex
      && InScheduleOrder(queue.buffers)
      && AllBy(queue.buffers, Clock())
    }

    // The time of the next frame to be scheduled.
    ghost function Clock(): nat
      reads scheduler
    {
      Quotient(scheduler.nextIndex * NANOS_PER_SECOND, scheduler.format.sampleRate)
    }

    constructor (format: AudioFormat, capacityFrames: pos, policy: DropPolicy)
      ensures Valid() && fresh(scheduler) && fresh(queue) && queue.buffers == []
      ensures queue.format == format && queue.capacityFrames == capacityFrames && queue.policy == policy
    {
      scheduler := new AudioScheduler(format);
      queue := new AudioQueue(format, capacityFrames, policy);
    }

    // The pacing half of an iteration: the new deadline is not before any queued block.
    method Pace(blockFrames: nat) returns (r: Result<AudioDeadline, AudioError>)
      requires Valid()
      modifies scheduler`nextIndex
      ensures Valid()
      ensures r.Err? ==> scheduler.nextIndex == old(scheduler.nextIndex)
      ensures r.Ok? ==> scheduler.nextIndex == old(scheduler.nextIndex) + blockFrames
      ensures r.Ok? ==> AllBy(queue.buffers, r.value.timestamp) && r.value.timestamp <= Clock()
      ensures r.Ok? <==> OnSchedule(old(scheduler.nextIndex), blockFrames, scheduler.format.sampleRate)
      ensures r.Ok? ==> r.value.timestamp == DueAt(old(scheduler.nextIndex), scheduler.format.sampleRate)
    {
      ghost var before := scheduler.nextIndex;
      ScheduledExactly(before, blockFrames, scheduler.format.sampleRate);
      r := scheduler.NextBlockDeadline(blockFrames);
      NextIndexLater(before, scheduler.nextIndex, scheduler.format.sampleRate);
    }

    // The contract checks and the push of one produced buffer.
    method SubmitBuffer(buffer: QueuedBuffer, deadline: AudioDeadline, blockFrames: nat) returns (r: Result<PushOutcome, AudioError>)
      requires Valid() && AllBy(queue.buffers, deadline.timestamp) && deadline.timestamp <= Clock()
      requires TotalFrames(queue.buffers) + blockFrames <= scheduler.nextIndex
      modifies queue
      ensures Valid()
      ensures r.Err? ==> queue.buffers == old(queue.buffers)
      ensures r.Err? <==>
        || buffer.format != scheduler.format || buffer.frames != blockFrames || buffer.timestamp != deadline.timestamp
        || blockFrames > queue.capacityFrames
      ensures r.Ok? ==>
        && TotalFrames(old(queue.buffers)) + blockFrames == TotalFrames(queue.buffers) + Lost(r.value)
        && Pushed(queue.policy, queue.capacityFrames, r.value, old(queue.buffers), buffer, queue.buffers)
        && (r.value.Enqueued? <==> !Full(queue.capacityFrames, old(queue.buffers), blockFrames))
    {
      if buffer.format != scheduler.format {
        return Err(FormatMismatch(scheduler.format, buffer.format));
      }
      if buffer.frames != blockFrames {
        return Err(FrameCountMismatch(blockFrames, buffer.frames));
      }
      if buffer.timestamp != deadline.timestamp {
        return Err(BufferTimestampMismatch(deadline.timestamp, buffer.timestamp));
      }
      hide InScheduleOrder, AllBy, TotalFrames, Clock, ShortestSufficientPrefix, Slid;
      ghost var before := queue.buffers;
      r := queue.Push(buffer);
      if r.Ok? {
        if r.value.DroppedOldest? {
          ghost var dropped: nat :| ShortestSufficientPrefix(before, dropped, buffer.frames, queue.capacityFrames)
            && dropped <= |before| && queue.buffers == before[dropped..] + [buffer];
          ShortestIsSlid(queue.capacityFrames, before, dropped, buffer, queue.buffers);
        }
        PushedStaysOrdered(queue.policy, queue.capacityFrames, r.value, before, buffer, queue.buffers, Clock());
      }
    }

    // Every counter is bounded by the sample index, which is itself checked: none saturates.
    ghost predicate Exact(report: WorkerReport)
      reads this, scheduler, queue
    {
      && report.producedFrames <= scheduler.nextIndex
      && report.droppedOldestFrames + report.droppedNewestFrames + TotalFrames(queue.buffers) <= scheduler.nextIndex
    }

    // One iteration of the run loop after the token was read.
    method RunBlock(block: BlockScript, blockFrames: nat, report: WorkerReport) returns (r: Result<WorkerReport, WorkerError>)
      requires Valid() && Exact(report) && report.processedBlocks < U64_MAX && report.underflowBlocks < U64_MAX
      modifies scheduler`nextIndex, queue
      ensures Valid() && (r.Ok? ==> Exact(r.value))
      ensures r.Ok? <==> BlockSucceeds(block, queue.format, queue.capacityFrames, old(scheduler.nextIndex), blockFrames)
      ensures r.Err? ==>
        && (r.error.Pacing? <==> !OnSchedule(old(scheduler.nextIndex), blockFrames, queue.format.sampleRate))
        && (r.error == Source <==> !r.error.Pacing? && block.produced.ProducerFailed?)
      ensures r.Ok? ==>
        var lateness := LatenessOf(block, old(scheduler.nextIndex), queue.format.sampleRate);
        && r.value.missedDeadlines == SaturatingAdd(report.missedDeadlines, if lateness > 0 then 1 else 0)
        && r.value.totalLatenessNanos == SaturatingAdd(report.totalLatenessNanos, lateness)
      ensures r.Ok? ==>
        && !block.produced.ProducerFailed?
        && scheduler.nextIndex == old(scheduler.nextIndex) + blockFrames
        && CountedBlock(report, r.value, old(queue.buffers), DeliveredBy(block), blockFrames, queue.buffers)
        && KeptBlock(queue.policy, queue.capacityFrames, report, r.value, old(queue.buffers), DeliveredBy(block), blockFrames, queue.buffers)
    {
      hide Clock, TotalFrames, OnSchedule, DueAt, Slid;
      var pacing := Pace(blockFrames);
      if pacing.Err? {
        return Err(Pacing(pacing.error));
      }
      var deadline := pacing.value;
      var next := report;
      match block.produced {
        case ProducerFailed =>
          return Err(Source);
        case NoAudio =>
          next := next.(underflowBlocks := SaturatingAdd(next.underflowBlocks, 1));
          AllJoin(queue.capacityFrames, queue.buffers, []);
          assert queue.buffers == queue.buffers + [];
        case Produced(buffer) =>
          var pushed := SubmitBuffer(buffer, deadline, blockFrames);
          if pushed.Err? {
            return Err(WorkerError.Submit(pushed.error));
          }
          next := CountPush(next, pushed.value, blockFrames);
          AllJoin(queue.capacityFrames, old(queue.buffers), [buffer]);
      }
      next := CountBlock(next, SaturatingSub(block.observedAt, deadline.timestamp));
      return Ok(next);
    }

    method Run(blockFrames: nat, script: seq<BlockScript>, cancelledAtEnd: bool) returns (r: Result<WorkerReport, WorkerError>)
      requires Valid() && |script| <= U64_MAX
      modifies scheduler`nextIndex, queue
      ensures Valid()
      ensures r.Ok? ==>
        var report := r.value;
        && report.requestedBlocks == |script|
        && report.processedBlocks <= |script|
        && (report.processedBlocks < |script| ==> script[report.processedBlocks].cancelled)
        && (forall i :: 0 <= i < report.processedBlocks ==> !script[i].cancelled && !script[i].produced.ProducerFailed?)
        && report.cancelled == (cancelledAtEnd && report.processedBlocks < |script|)
        && report.remainingQueueFrames == TotalFrames(queue.buffers) <= queue.capacityFrames
        && scheduler.nextIndex == old(scheduler.nextIndex) + report.processedBlocks * blockFrames
        && Conserves(report, old(queue.buffers), Delivered(script[..report.processedBlocks]), blockFrames, queue.buffers)
        && KeepsByPolicy(queue.policy, queue.capacityFrames, blockFrames, report, old(queue.buffers), Delivered(script[..report.processedBlocks]), queue.buffers)
      ensures r.Ok? ==>
        var (report, start, rate) := (r.value, old(scheduler.nextIndex), queue.format.sampleRate);
        && AllSucceed(script[..report.processedBlocks], queue.format, queue.capacityFrames, start, blockFrames)
        && CountsLateness(report, script[..report.processedBlocks], start, blockFrames, rate)
      ensures r.Err? ==> exists i: nat ::
        i < |script| && FailsAt(script, i, queue.format, queue.capacityFrames, old(scheduler.nextIndex), blockFrames)
    {
      hide Clock, TotalFrames, Delivered, KeptBlock, KeepsByPolicy, Conserves, BlockSucceeds, LatenessOf, CountsLateness, AllSucceed, FailsAt;
      var report := WorkerReport(|script|, 0, false, 0, 0, 0, 0, 0, 0, 0);
      ghost var start := queue.buffers;
      ghost var first, rate := scheduler.nextIndex, queue.format.sampleRate;
      NothingYet(queue.policy, queue.capacityFrames, report, start, script, blockFrames);
      NothingLate(report, script, first, blockFrames, rate);
      NoBlockYet(script, queue.format, queue.capacityFrames, first, blockFrames);
      var i := 0;
      while i < |script|
        invariant 0 <= i <= |script| && Valid() && Exact(report)
        invariant forall k :: 0 <= k < i ==> !script[k].cancelled && !script[k].produced.ProducerFailed?
        invariant report.requestedBlocks == |script| && report.processedBlocks == i && !report.cancelled
        invariant report.underflowBlocks <= i
        invariant AllSucceed(script[..i], queue.format, queue.capacityFrames, first, blockFrames)
        invariant CountsLateness(report, script[..i], first, blockFrames, rate)
        invariant scheduler.nextIndex == old(scheduler.nextIndex) + i * blockFrames
        invariant Conserves(report, start, Delivered(script[..i]), blockFrames, queue.buffers)
        invariant KeepsByPolicy(queue.policy, queue.capacityFrames, blockFrames, report, start, Delivered(script[..i]), queue.buffers)
      {
        if script[i].cancelled {
          break;
        }
        ghost var history, before := Delivered(script[..i]), queue.buffers;
        var next := RunBlock(script[i], blockFrames, report);
        SucceedsOneMore(script, i, queue.format, queue.capacityFrames, first, blockFrames);
        if next.Err? {
          return Err(next.error);
        }
        CountsLatenessAfterBlock(report, next.value, script, i, first, blockFrames, rate);
        DeliveredOneMore(script, i, blockFrames);
        ConservesAfterBlock(report, next.value, start, history, before, DeliveredBy(script[i]), blockFrames, queue.buffers);
        KeepsAfterBlock(queue.policy, queue.capacityFrames, report, next.value, start, history, before,
                        DeliveredBy(script[i]), blockFrames, queue.buffers);
        report := next.value;
        i := i + 1;
      }
      SameLateness(report, cancelledAtEnd && report.processedBlocks < |script|, queue.queuedFrames, script[..i], first, blockFrames, rate);
      FinishedReport(queue.policy, queue.capacityFrames, report, cancelledAtEnd && report.processedBlocks < |script|, queue.queuedFrames,
                     start, Delivered(script[..i]), blockFrames, queue.buffers);
      report := report.(cancelled := cancelledAtEnd && report.processedBlocks < |script|,
                        remainingQueueFrames := queue.queuedFrames);
      return Ok(report);
    }

    method TakeNext() returns (r: Option<QueuedBuffer>)
      requires Valid()
      modifies queue
      ensures Valid()
      ensures r.Some? <==> old(queue.buffers) != []
      ensures r.Some? ==> old(queue.buffers) == [r.value] + queue.buffers
    {
      r := queue.Pop();
    }

    method Reset()
      requires Valid()
      modifies scheduler`nextIndex, queue
      ensures Valid() && queue.buffers == [] && scheduler.nextIndex == 0
    {
      scheduler.Reset();
      queue.Clear();
    }
  }

  lemma NextIndexLater(before: u64, after: u64, rate: pos)
    requires before <= after
    ensures Quotient(before * NANOS_PER_SECOND, rate) <= Quotient(after * NANOS_PER_SECOND, rate)
  {
    DivMonotone(before * NANOS_PER_SECOND, after * NANOS_PER_SECOND, rate);
  }
}
