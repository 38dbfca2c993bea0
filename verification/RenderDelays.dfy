// The bounded, timestamped history behind a Render Delay filter
// (crates/obs-rs-media/src/delay.rs).
module RenderDelays {
  import opened Numbers
  import opened Results
  import opened VideoFormats

  const MAX_RENDER_DELAY_MILLISECONDS := 500
  const MAX_HISTORY_FRAMES := 32
  const MAX_HISTORY_BYTES := 256 * 1_024 * 1_024
  const TIMESTAMP_RESET_GAP_NANOS := 1_000_000_000

  // A picture: its shape, its stamp and the identity of its shared pixels.
  datatype Picture = Picture(format: VideoFormat, timestamp: u64, pixels: nat)

  datatype DelayError =
    | DelayOutOfRange(milliseconds: nat)
    | FrameCapacity(requiredFrames: nat)
    | MemoryCapacity(requiredBytes: nat)

  datatype RawHistory = History(
    milliseconds: nat, frames: seq<Picture>, bytes: nat, format: Option<VideoFormat>, last: Option<u64>)

  function BytesOf(count: nat, format: VideoFormat): nat {
    count * format.RgbaBytes()
  }

  // One shape at a time, the running byte count is exact, and both budgets hold.
  predicate IsHistory(h: RawHistory) {
    && h.milliseconds <= MAX_RENDER_DELAY_MILLISECONDS
    && |h.frames| <= MAX_HISTORY_FRAMES && h.bytes <= MAX_HISTORY_BYTES
    && (h.frames != [] ==> h.format.Some?)
    && (forall i :: 0 <= i < |h.frames| ==> Some(h.frames[i].format) == h.format)
    && (if h.format.Some? then h.bytes == BytesOf(|h.frames|, h.format.value) else h.bytes == 0)
  }

  type History = h: RawHistory | IsHistory(h) witness History(0, [], 0, None, None)

  const NO_HISTORY: History := History(0, [], 0, None, None)

  lemma NoBytes(format: VideoFormat)
    ensures BytesOf(0, format) == 0
  {
  }

  lemma OneMoreFrame(count: nat, format: VideoFormat)
    ensures BytesOf(count + 1, format) == BytesOf(count, format) + format.RgbaBytes()
  {
  }

  function Cleared(h: History): History {
    History(h.milliseconds, [], 0, None, None)
  }

  // `set_milliseconds`: a changed delay starts an empty timeline.
  function Configured(h: History, milliseconds: nat): Result<History, DelayError> {
    if milliseconds > MAX_RENDER_DELAY_MILLISECONDS then Err(DelayOutOfRange(milliseconds))
    else if milliseconds == h.milliseconds then Ok(h)
    else Ok(History(milliseconds, [], 0, None, None))
  }

  function DelayNanos(h: History): nat {
    h.milliseconds * 1_000_000
  }

  function RequiredFrames(h: History, format: VideoFormat): pos {
    DivCeil(DelayNanos(h), PeriodNanos(format.frameRate)) + 1
  }

  // A frame of another shape starts an empty timeline.
  function Adopted(h: History, format: VideoFormat): History {
    NoBytes(format);
    if h.format == Some(format) then h else History(h.milliseconds, [], 0, Some(format), None)
  }

  // What no amount of waiting changes: the delay needs too much of this format.
  function BudgetProblem(h: History, format: VideoFormat): Option<DelayError> {
    var required := RequiredFrames(h, format);
    if required > MAX_HISTORY_FRAMES then Some(FrameCapacity(required))
    else if BytesOf(required, format) > MAX_HISTORY_BYTES then Some(MemoryCapacity(BytesOf(required, format)))
    else None
  }

  lemma SameBudget(a: History, b: History, format: VideoFormat)
    requires a.milliseconds == b.milliseconds
    ensures BudgetProblem(a, format) == BudgetProblem(b, format)
  {
  }

  // The history has no room left for one more frame.
  function RoomProblem(h: History, format: VideoFormat): Option<DelayError> {
    if |h.frames| >= MAX_HISTORY_FRAMES then Some(FrameCapacity(|h.frames| + 1))
    else if h.bytes + format.RgbaBytes() > MAX_HISTORY_BYTES then Some(MemoryCapacity(h.bytes + format.RgbaBytes()))
    else None
  }

  // Time running backwards, or a gap beyond one second, drops the retained frames.
  predicate Restarts(h: History, timestamp: u64) {
    h.last.Some? && (timestamp < h.last.value || timestamp - h.last.value > TIMESTAMP_RESET_GAP_NANOS)
  }

  // The retained frames once `frame` has joined them.
  function Joined(h: History, frame: Picture): seq<Picture> {
    (if Restarts(h, frame.timestamp) then [] else h.frames) + [frame]
  }

  lemma JoinedIsHistory(h: History, frame: Picture)
    requires h.format == Some(frame.format) && RoomProblem(h, frame.format).None?
    ensures IsHistory(h.(frames := Joined(h, frame), bytes := BytesOf(|Joined(h, frame)|, frame.format), last := Some(frame.timestamp)))
    ensures IsHistory(h.(frames := Joined(h, frame)[1..], bytes := BytesOf(|Joined(h, frame)| - 1, frame.format), last := Some(frame.timestamp)))
    ensures BytesOf(|Joined(h, frame)|, frame.format) == BytesOf(|Joined(h, frame)| - 1, frame.format) + frame.format.RgbaBytes()
    ensures BytesOf(|Joined(h, frame)| - 1, frame.format) == if Restarts(h, frame.timestamp) then 0 else h.bytes
  {
    NoBytes(frame.format);
    OneMoreFrame(|Joined(h, frame)| - 1, frame.format);
    hide BytesOf;
  }

  // A frame that is taken in: the front frame leaves once it is old enough, stamped with the
  // newest time.
  function Accept(h: History, frame: Picture): (Option<Picture>, History)
    requires h.milliseconds > 0 && h.format == Some(frame.format) && RoomProblem(h, frame.format).None?
  {
    var frames := Joined(h, frame);
    JoinedIsHistory(h, frame);
    if frame.timestamp - frames[0].timestamp >= DelayNanos(h) then
      (Some(frames[0].(timestamp := frame.timestamp)),
       h.(frames := frames[1..], bytes := BytesOf(|frames| - 1, frame.format), last := Some(frame.timestamp)))
    else
      (None, h.(frames := frames, bytes := BytesOf(|frames|, frame.format), last := Some(frame.timestamp)))
  }

  // `push`: without a delay the frame passes through, otherwise it must fit both budgets.
  function Push(h: History, frame: Picture): (Result<Option<Picture>, DelayError>, History) {
    if h.milliseconds == 0 then (Ok(Some(frame)), Cleared(h))
    else
      var adopted := Adopted(h, frame.format);
      if BudgetProblem(adopted, frame.format).Some? then (Err(BudgetProblem(adopted, frame.format).value), adopted)
      else if RoomProblem(adopted, frame.format).Some? then (Err(RoomProblem(adopted, frame.format).value), adopted)
      else
        var (ready, next) := Accept(adopted, frame);
        (Ok(ready), next)
  }

  // ---- The buffer ------------------------------------------------------------------------------

  class RenderDelayBuffer {
    var milliseconds: nat
    var frames: seq<Picture>
    var bytes: nat
    var format: Option<VideoFormat>
    var lastTimestamp: Option<u64>

    ghost predicate Valid()
      reads this
    {
      IsHistory(Raw())
    }

    ghost function Raw(): RawHistory
      reads this
    {
      History(milliseconds, frames, bytes, format, lastTimestamp)
    }

    ghost function View(): History
      requires Valid()
      reads this
    {
      Raw()
    }

    constructor ()
      ensures Valid() && View() == NO_HISTORY
    {
      milliseconds, frames, bytes, format, lastTimestamp := 0, [], 0, None, None;
    }

    method Clear()
      requires Valid()
      modifies this
      ensures Valid() && View() == Cleared(old(View()))
    {
      frames, bytes, format, lastTimestamp := [], 0, None, None;
    }

    method SetMilliseconds(requested: nat) returns (r: Result<(), DelayError>)
      requires Valid()
      modifies this
      ensures Valid()
      ensures match Configured(old(View()), requested)
        case Err(error) => r == Err(error) && View() == old(View())
        case Ok(history) => r == Ok(()) && View() == history
      ensures r.Err? <==> requested > 500
      ensures r.Ok? ==> View() == if requested == old(milliseconds) then old(View()) else History(requested, [], 0, None, None)
    {
      if requested > MAX_RENDER_DELAY_MILLISECONDS {
        return Err(DelayOutOfRange(requested));
      }
      if milliseconds != requested {
        milliseconds := requested;
        frames, bytes, format, lastTimestamp := [], 0, None, None;
      }
      return Ok(());
    }

    // The running byte count answers both budget questions without a walk.
    method PushFrame(frame: Picture) returns (r: Result<Option<Picture>, DelayError>)
      requires Valid()
      modifies this
      ensures Valid()
      ensures (r, View()) == Push(old(View()), frame)
    {
      hide BytesOf, BudgetProblem, Accept;
      var ready;
      if milliseconds == 0 {
        Clear();
        return Ok(Some(frame));
      }
      NoBytes(frame.format);
      if format != Some(frame.format) {
        frames, bytes, format, lastTimestamp := [], 0, Some(frame.format), None;
      }
      ghost var adopted := Adopted(old(View()), frame.format);
      assert View() == adopted;
      SameBudget(adopted, History(milliseconds, [], 0, None, None), frame.format);
      var problem := BudgetProblem(History(milliseconds, [], 0, None, None), frame.format);
      if problem.Some? {
        return Err(problem.value);
      }
      if |frames| >= MAX_HISTORY_FRAMES {
        return Err(FrameCapacity(|frames| + 1));
      }
      if bytes > SaturatingSub(MAX_HISTORY_BYTES, frame.format.RgbaBytes()) {
        return Err(MemoryCapacity(bytes + frame.format.RgbaBytes()));
      }
      ready := AcceptFrame(frame);
      return Ok(ready);
    }

    method AcceptFrame(frame: Picture) returns (ready: Option<Picture>)
      requires Valid() && milliseconds > 0 && format == Some(frame.format) && RoomProblem(View(), frame.format).None?
      modifies this
      ensures Valid()
      ensures (ready, View()) == Accept(old(View()), frame)
    {
      hide BytesOf, RoomProblem;
      JoinedIsHistory(View(), frame);
      if lastTimestamp.Some?
        && (frame.timestamp < lastTimestamp.value || frame.timestamp - lastTimestamp.value > TIMESTAMP_RESET_GAP_NANOS) {
        frames, bytes := [], 0;
      }
      lastTimestamp := Some(frame.timestamp);
      bytes := bytes + frame.format.RgbaBytes();
      frames := frames + [frame];
      if SaturatingSub(frame.timestamp, frames[0].timestamp) < milliseconds * 1_000_000 {
        return None;
      }
      var delayed := frames[0];
      frames := frames[1..];
      bytes := bytes - frame.format.RgbaBytes();
      return Some(delayed.(timestamp := frame.timestamp));
    }
  }

  // ---- One push --------------------------------------------------------------------------------

  // What comes out has the shape and the stamp of what went in, and its pixels are those of
  // the oldest retained frame, older by at least the delay.
  lemma DelayedFrameIsOldEnough(h: History, frame: Picture)
    requires Push(h, frame).0.Ok? && Push(h, frame).0.value.Some?
    ensures var out := Push(h, frame).0.value.value;
      && out.format == frame.format && out.timestamp == frame.timestamp
      && exists source :: source in h.frames + [frame] && source.pixels == out.pixels
           && source.timestamp + h.milliseconds * 1_000_000 <= frame.timestamp
  {
    hide BytesOf, PeriodNanos, DivCeil;
    var adopted := Adopted(h, frame.format);
    var source := if h.milliseconds == 0 then frame else Joined(adopted, frame)[0];
    assert source in h.frames + [frame];
  }

  // On a timeline that goes on, the oldest retained frame is shown exactly once it is old
  // enough, and not a push earlier; an empty or a restarted timeline shows nothing yet.
  lemma ShownExactlyWhenOldEnough(h: History, frame: Picture)
    requires h.milliseconds > 0 && h.format == Some(frame.format) && Push(h, frame).0.Ok?
    ensures var (out, goesOn) := (Push(h, frame).0.value,
        h.frames != [] && (h.last.Some? ==> h.last.value <= frame.timestamp <= h.last.value + 1_000_000_000));
      && (out.Some? <==> goesOn && h.frames[0].timestamp + h.milliseconds * 1_000_000 <= frame.timestamp)
      && (out.Some? ==> out.value == h.frames[0].(timestamp := frame.timestamp))
  {
    hide BytesOf, PeriodNanos, DivCeil, BudgetProblem, RoomProblem;
  }

  // The budget in periods: `n` is the least number of frames that spans the delay, and it has to
  // fit 32 frames and 256 MiB.
  lemma BudgetInPeriods(h: History, format: VideoFormat, n: pos)
    requires (n - 1) * PeriodNanos(format.frameRate) >= h.milliseconds * 1_000_000
    requires n == 1 || (n - 2) * PeriodNanos(format.frameRate) < h.milliseconds * 1_000_000
    ensures BudgetProblem(h, format).None? <==> n <= 32 && n * (format.width * format.height * 4) <= 268_435_456
  {
    var delay, period := h.milliseconds * 1_000_000, PeriodNanos(format.frameRate);
    CeilAtMost(delay, period, n - 1);
    if n > 1 {
      CeilAtMost(delay, period, n - 2);
    }
    assert RequiredFrames(h, format) == n;
    hide RequiredFrames, PeriodNanos, DivCeil;
  }

  // ---- Runs of pushes ----------------------------------------------------------------------------

  // The frames shown so far, and the history left.
  function PushAll(h: History, frames: seq<Picture>): (Result<seq<Picture>, DelayError>, History)
    decreases frames
  {
    if frames == [] then (Ok([]), h)
    else
      var (first, next) := Push(h, frames[0]);
      if first.Err? then (Err(first.error), next)
      else
        var (rest, last) := PushAll(next, frames[1..]);
        (if rest.Err? then rest else Ok((if first.value.Some? then [first.value.value] else []) + rest.value), last)
  }

  function Pixels(frames: seq<Picture>): (pixels: seq<nat>)
    ensures |pixels| == |frames|
  {
    if frames == [] then [] else [frames[0].pixels] + Pixels(frames[1..])
  }

  lemma {:induction false} PixelsAppend(a: seq<Picture>, b: seq<Picture>)
    ensures Pixels(a + b) == Pixels(a) + Pixels(b)
    decreases a
  {
    if a == [] {
      assert a + b == b;
    } else {
      assert (a + b)[1..] == a[1..] + b;
      PixelsAppend(a[1..], b);
    }
  }

  // A timeline without restarts: one shape, and time never goes back or jumps a second.
  predicate Steady(format: VideoFormat, last: Option<u64>, frames: seq<Picture>)
    decreases frames
  {
    frames != [] ==>
      && frames[0].format == format
      && (last.Some? ==> last.value <= frames[0].timestamp <= last.value + TIMESTAMP_RESET_GAP_NANOS)
      && Steady(format, Some(frames[0].timestamp), frames[1..])
  }

  // The frames shown, then the frames retained, are the frames retained before, then the
  // frames pushed: in order, none lost, none shown twice.
  lemma {:induction false} NothingLostOrReordered(h: History, format: VideoFormat, frames: seq<Picture>)
    requires h.milliseconds > 0 && (h.format.None? || h.format == Some(format))
    requires Steady(format, h.last, frames) && PushAll(h, frames).0.Ok?
    ensures var (shown, last) := PushAll(h, frames);
      Pixels(shown.value) + Pixels(last.frames) == Pixels(h.frames) + Pixels(frames)
    decreases frames
  {
    if frames == [] {
      assert Pixels(h.frames) + [] == [] + Pixels(h.frames);
    } else {
      var (first, next) := Push(h, frames[0]);
      SteadyPush(h, format, frames[0]);
      hide Push;
      NothingLostOrReordered(next, format, frames[1..]);
      var (rest, last) := PushAll(next, frames[1..]);
      var out := if first.value.Some? then [first.value.value] else [];
      PixelsAppend(out, rest.value);
      Exchange(Pixels(out), Pixels(rest.value), Pixels(last.frames), Pixels(next.frames), Pixels(h.frames),
               frames[0].pixels, Pixels(frames[1..]));
    }
  }

  lemma SteadyPush(h: History, format: VideoFormat, frame: Picture)
    requires h.milliseconds > 0 && (h.format.None? || h.format == Some(format)) && frame.format == format
    requires h.last.Some? ==> h.last.value <= frame.timestamp <= h.last.value + TIMESTAMP_RESET_GAP_NANOS
    requires Push(h, frame).0.Ok?
    ensures var (first, next) := Push(h, frame);
      && next.milliseconds == h.milliseconds && next.format == Some(format) && next.last == Some(frame.timestamp)
      && Pixels(if first.value.Some? then [first.value.value] else []) + Pixels(next.frames) == Pixels(h.frames) + [frame.pixels]
  {
    hide BytesOf, PeriodNanos, DivCeil;
    var (first, next) := Push(h, frame);
    var joined := h.frames + [frame];
    PixelsAppend(h.frames, [frame]);
    assert Pixels([frame]) == [frame.pixels] by { assert [frame][1..] == []; }
    assert Joined(Adopted(h, format), frame) == joined;
    if first.value.Some? {
      var out := [first.value.value];
      assert out[1..] == [] && Pixels(out) == [joined[0].pixels];
      assert joined == [joined[0]] + joined[1..];
    } else {
      assert [] + Pixels(joined) == Pixels(joined);
    }
  }

  lemma Exchange(out: seq<nat>, rest: seq<nat>, last: seq<nat>, next: seq<nat>, before: seq<nat>, pushed: nat, more: seq<nat>)
    requires out + next == before + [pushed] && rest + last == next + more
    ensures out + rest + last == before + ([pushed] + more)
  {
    assert out + rest + last == out + (rest + last);
    assert out + (next + more) == out + next + more;
    assert before + [pushed] + more == before + ([pushed] + more);
  }

  // ---- When a history fills ------------------------------------------------------------------------

  predicate Full(h: History, format: VideoFormat) {
    h.milliseconds > 0 && h.format == Some(format) && RoomProblem(h, format).Some?
  }

  // A full history never recovers by pushing: every frame of its shape is refused before its
  // time stamp is looked at, so not even a restarted timeline empties it.
  lemma FullHistoryIsStuck(h: History, frame: Picture)
    requires Full(h, frame.format)
    ensures Push(h, frame).0.Err? && Push(h, frame).1 == h
  {
    hide BytesOf, PeriodNanos, DivCeil;
  }

  // Every later frame of that shape, one by one.
  function PushEach(h: History, frames: seq<Picture>): (seq<Result<Option<Picture>, DelayError>>, History)
    decreases frames
  {
    if frames == [] then ([], h)
    else
      var (first, next) := Push(h, frames[0]);
      var (rest, last) := PushEach(next, frames[1..]);
      ([first] + rest, last)
  }

  lemma {:induction false} FullIsForEver(h: History, format: VideoFormat, frames: seq<Picture>)
    requires Full(h, format) && forall i :: 0 <= i < |frames| ==> frames[i].format == format
    ensures var (answers, last) := PushEach(h, frames);
      last == h && |answers| == |frames| && forall i :: 0 <= i < |answers| ==> answers[i].Err?
    decreases frames
  {
    if frames != [] {
      assert frames[0].format == format;
      FullHistoryIsStuck(h, frames[0]);
      hide Push, Full;
      FullIsForEver(h, format, frames[1..]);
    }
  }

  // A push within budget fails exactly when the history is full.
  lemma PushFailsExactlyWhenFull(h: History, frame: Picture)
    requires h.milliseconds > 0 && BudgetProblem(h, frame.format).None?
    ensures Push(h, frame).0.Err? <==> Full(h, frame.format)
  {
    var required := RequiredFrames(h, frame.format);
    assert BytesOf(1, frame.format) <= BytesOf(required, frame.format) by {
      MulMonotone(1, required, frame.format.RgbaBytes());
    }
    assert frame.format.RgbaBytes() == BytesOf(1, frame.format);
    hide BytesOf, PeriodNanos, DivCeil;
  }

  // Two frames of any shape fit the byte budget.
  lemma TwoFramesFit(format: VideoFormat)
    ensures 0 < format.RgbaBytes() && BytesOf(1, format) == format.RgbaBytes() && 2 * format.RgbaBytes() <= MAX_HISTORY_BYTES
  {
  }

  // Time running backwards, or a gap beyond one second, empties the history down to the new
  // frame exactly when the history is not full.
  lemma RestartResetsExactlyWhenNotFull(h: History, frame: Picture)
    requires h.milliseconds > 0 && BudgetProblem(h, frame.format).None?
    requires h.format == Some(frame.format) && Restarts(h, frame.timestamp)
    ensures Push(h, frame).1.frames == [frame] <==> !Full(h, frame.format)
  {
    TwoFramesFit(frame.format);
    PushFailsExactlyWhenFull(h, frame);
    if Full(h, frame.format) {
      FullHistoryIsStuck(h, frame);
      FullHoldsTwo(h, frame.format);
    } else {
      assert Joined(h, frame) == [frame];
    }
    hide BytesOf, BudgetProblem, RoomProblem;
  }

  lemma FullHoldsTwo(h: History, format: VideoFormat)
    requires Full(h, format)
    ensures |h.frames| >= 2
  {
    TwoFramesFit(format);
    NoBytes(format);
  }

  function Repeat(frame: Picture, count: nat): (s: seq<Picture>)
    ensures |s| == count
  {
    seq(count, i => frame)
  }

  // How many frames of a shape a history can ever hold.
  function Capacity(format: VideoFormat): nat {
    TwoFramesFit(format);
    Min(MAX_HISTORY_FRAMES, Quotient(MAX_HISTORY_BYTES, format.RgbaBytes()))
  }

  lemma RoomUpToCapacity(format: VideoFormat, count: nat)
    ensures count < Capacity(format) <==> count < MAX_HISTORY_FRAMES && BytesOf(count, format) + format.RgbaBytes() <= MAX_HISTORY_BYTES
  {
    TwoFramesFit(format);
    DivAtLeast(MAX_HISTORY_BYTES, format.RgbaBytes(), count + 1);
    OneMoreFrame(count, format);
    assert BytesOf(count + 1, format) == (count + 1) * format.RgbaBytes();
  }

  // A history that holds `count` copies of one frame, and nothing else.
  predicate Holds(h: History, frame: Picture, count: nat) {
    && h.milliseconds > 0 && h.frames == Repeat(frame, count)
    && (if count == 0 then h.format.None? else h.format == Some(frame.format) && h.last == Some(frame.timestamp))
  }

  // Frames at one instant stay below any delay, so they only pile up.
  lemma StagnantPush(h: History, frame: Picture, count: nat)
    requires Holds(h, frame, count) && BudgetProblem(h, frame.format).None? && count < Capacity(frame.format)
    ensures Push(h, frame).0 == Ok(None) && Holds(Push(h, frame).1, frame, count + 1)
    ensures Push(h, frame).1.milliseconds == h.milliseconds
  {
    RoomUpToCapacity(frame.format, count);
    TwoFramesFit(frame.format);
    NoBytes(frame.format);
    var adopted := Adopted(h, frame.format);
    SameBudget(h, adopted, frame.format);
    hide BytesOf, BudgetProblem, Capacity;
    assert adopted.frames == h.frames;
    assert Joined(adopted, frame) == Repeat(frame, count + 1);
  }

  lemma RepeatOneMore(frame: Picture, count: pos)
    ensures Repeat(frame, count)[0] == frame && Repeat(frame, count)[1..] == Repeat(frame, count - 1)
  {
  }

  lemma PushAllSilently(h: History, frames: seq<Picture>)
    requires frames != [] && Push(h, frames[0]).0 == Ok(None)
    ensures PushAll(h, frames) == PushAll(Push(h, frames[0]).1, frames[1..])
  {
    hide Push;
    var rest := PushAll(Push(h, frames[0]).1, frames[1..]).0;
    assert rest.Ok? ==> [] + rest.value == rest.value;
  }

  // A clock that stands still fills the history, whatever the shape and the delay.
  lemma {:induction false} StagnantClockFills(h: History, frame: Picture, count: nat)
    requires Holds(h, frame, count) && BudgetProblem(h, frame.format).None? && count <= Capacity(frame.format)
    ensures var (shown, last) := PushAll(h, Repeat(frame, Capacity(frame.format) - count));
      shown == Ok([]) && Full(last, frame.format) && Holds(last, frame, Capacity(frame.format))
    decreases Capacity(frame.format) - count
  {
    hide Push, Full, Holds, Capacity, BudgetProblem, Repeat;
    var left := Capacity(frame.format) - count;
    if left > 0 {
      StagnantPush(h, frame, count);
      var next := Push(h, frame).1;
      SameBudget(h, next, frame.format);
      RepeatOneMore(frame, left);
      PushAllSilently(h, Repeat(frame, left));
      StagnantClockFills(next, frame, count + 1);
    } else {
      FullAtCapacity(h, frame, count);
    }
  }

  lemma FullAtCapacity(h: History, frame: Picture, count: nat)
    requires Holds(h, frame, count) && count >= Capacity(frame.format)
    ensures Full(h, frame.format)
  {
    RoomUpToCapacity(frame.format, count);
    RoomUpToCapacity(frame.format, 0);
    TwoFramesFit(frame.format);
    NoBytes(frame.format);
    hide Capacity, BytesOf;
  }

  // The restart that does not happen: after a clock stood still, every later frame of that shape
  // is refused and leaves the history as it is, however far its time stamp has moved.
  lemma StagnantClockOutlivesRestarts(h: History, frame: Picture, later: seq<Picture>)
    requires Holds(h, frame, 0) && BudgetProblem(h, frame.format).None?
    requires forall i :: 0 <= i < |later| ==> later[i].format == frame.format
    ensures var (shown, full) := PushAll(h, Repeat(frame, Capacity(frame.format)));
      var (answers, last) := PushEach(full, later);
      && shown == Ok([]) && last == full
      && |answers| == |later| && forall i :: 0 <= i < |answers| ==> answers[i].Err?
  {
    hide Push, Full, Holds, Capacity, BudgetProblem, Repeat, PushAll, PushEach, IsHistory, RoomProblem;
    StagnantClockFills(h, frame, 0);
    var full := PushAll(h, Repeat(frame, Capacity(frame.format))).1;
    FullIsForEver(full, frame.format, later);
  }

  // In particular a frame more than a second later: it restarts the timeline, and is refused.
  lemma RestartAfterStagnationIsRefused(h: History, frame: Picture, late: Picture)
    requires Holds(h, frame, 0) && BudgetProblem(h, frame.format).None?
    requires late.format == frame.format && late.timestamp > frame.timestamp + TIMESTAMP_RESET_GAP_NANOS
    ensures var full := PushAll(h, Repeat(frame, Capacity(frame.format))).1;
      && Restarts(full, late.timestamp) && Push(full, late).0.Err? && Push(full, late).1 == full
      && full.frames == Repeat(frame, Capacity(frame.format)) && |full.frames| >= 2
  {
    hide Push, PushAll, BudgetProblem, Capacity, Repeat, BytesOf;
    StagnantClockFills(h, frame, 0);
    var full := PushAll(h, Repeat(frame, Capacity(frame.format))).1;
    FullHistoryIsStuck(full, late);
    FullHoldsTwo(full, frame.format);
  }

  // ---- Frames at the format's own pace never fill it -------------------------------------------------

  predicate Spaced(frames: seq<Picture>, period: nat) {
    forall i :: 0 <= i < |frames| - 1 ==> frames[i].timestamp + period <= frames[i + 1].timestamp
  }

  lemma {:induction false} SpacedSpan(frames: seq<Picture>, period: nat)
    requires frames != [] && Spaced(frames, period)
    ensures (|frames| - 1) * period <= frames[|frames| - 1].timestamp - frames[0].timestamp
    decreases frames
  {
    if |frames| > 1 {
      var front := frames[..|frames| - 1];
      SpacedSpan(front, period);
      assert (|frames| - 1) * period == (|front| - 1) * period + period;
    }
  }

  // Fewer frames than required are retained, a period apart, up to the last time stamp.
  predicate Paced(h: History, format: VideoFormat) {
    && h.milliseconds > 0 && BudgetProblem(h, format).None?
    && (h.frames != [] ==> h.format == Some(format) && h.last == Some(h.frames[|h.frames| - 1].timestamp))
    && Spaced(h.frames, PeriodNanos(format.frameRate))
    && |h.frames| < RequiredFrames(h, format)
  }

  predicate AtPace(format: VideoFormat, last: Option<u64>, frames: seq<Picture>)
    decreases frames
  {
    frames != [] ==>
      && frames[0].format == format
      && (last.Some? ==> last.value + PeriodNanos(format.frameRate) <= frames[0].timestamp)
      && AtPace(format, Some(frames[0].timestamp), frames[1..])
  }

  lemma PacedHasRoom(h: History, format: VideoFormat)
    requires Paced(h, format)
    ensures RoomProblem(Adopted(h, format), format).None?
  {
    var required, count := RequiredFrames(h, format), |Adopted(h, format).frames|;
    OneMoreFrame(count, format);
    MulMonotone(count + 1, required, format.RgbaBytes());
    hide PeriodNanos, DivCeil;
  }

  // A front frame that is still too young leaves at most the required history.
  lemma YoungFrontMeansFewFrames(h: History, format: VideoFormat, frames: seq<Picture>)
    requires frames != [] && Spaced(frames, PeriodNanos(format.frameRate))
    requires frames[|frames| - 1].timestamp - frames[0].timestamp < DelayNanos(h)
    ensures |frames| < RequiredFrames(h, format)
  {
    var period := PeriodNanos(format.frameRate);
    SpacedSpan(frames, period);
    CeilAtMost(DelayNanos(h), period, |frames| - 1);
    hide PeriodNanos, DivCeil;
  }

  lemma SpacedJoin(frames: seq<Picture>, frame: Picture, period: nat)
    requires Spaced(frames, period)
    requires frames != [] ==> frames[|frames| - 1].timestamp + period <= frame.timestamp
    ensures Spaced(frames + [frame], period)
  {
  }

  lemma SpacedRest(frames: seq<Picture>, period: nat)
    requires frames != [] && Spaced(frames, period)
    ensures Spaced(frames[1..], period)
  {
  }

  // Joining at the pace keeps the spacing, whether or not the timeline restarts.
  lemma PacedJoin(h: History, format: VideoFormat, frame: Picture)
    requires Paced(h, format) && frame.format == format
    requires h.last.Some? ==> h.last.value + PeriodNanos(format.frameRate) <= frame.timestamp
    ensures var joined := Joined(Adopted(h, format), frame);
      && Spaced(joined, PeriodNanos(format.frameRate)) && Spaced(joined[1..], PeriodNanos(format.frameRate))
      && joined[|joined| - 1] == frame && |joined| <= |h.frames| + 1
  {
    hide BytesOf, PeriodNanos, DivCeil, BudgetProblem, RequiredFrames;
    var adopted, period := Adopted(h, format), PeriodNanos(format.frameRate);
    var kept := if Restarts(adopted, frame.timestamp) then [] else adopted.frames;
    assert Joined(adopted, frame) == kept + [frame];
    SpacedJoin(kept, frame, period);
    SpacedRest(kept + [frame], period);
  }

  lemma PacedPush(h: History, format: VideoFormat, frame: Picture)
    requires Paced(h, format) && frame.format == format
    requires h.last.Some? ==> h.last.value + PeriodNanos(format.frameRate) <= frame.timestamp
    ensures Push(h, frame).0.Ok? && Paced(Push(h, frame).1, format) && Push(h, frame).1.last == Some(frame.timestamp)
  {
    PacedHasRoom(h, format);
    PacedJoin(h, format, frame);
    var adopted := Adopted(h, format);
    var frames := Joined(adopted, frame);
    SameBudget(h, adopted, format);
    var next := Push(h, frame).1;
    SameRequired(h, next, format);
    SameBudget(h, next, format);
    if frame.timestamp - frames[0].timestamp < DelayNanos(h) {
      YoungFrontMeansFewFrames(h, format, frames);
    } else {
      assert |frames| > 1;
      assert frames[1..][|frames| - 2] == frame;
    }
    hide BytesOf, PeriodNanos, DivCeil, Spaced, BudgetProblem, RequiredFrames, RoomProblem, Joined, Restarts;
  }

  lemma SameRequired(a: History, b: History, format: VideoFormat)
    requires a.milliseconds == b.milliseconds
    ensures RequiredFrames(a, format) == RequiredFrames(b, format)
  {
  }

  // At the pace of its format, a delay within budget is never refused.
  lemma {:induction false} PacedFramesAreNeverRefused(h: History, format: VideoFormat, frames: seq<Picture>)
    requires Paced(h, format) && AtPace(format, h.last, frames)
    ensures PushAll(h, frames).0.Ok? && Paced(PushAll(h, frames).1, format)
    decreases frames
  {
    if frames != [] {
      PacedPush(h, format, frames[0]);
      hide Push, Paced;
      PacedFramesAreNeverRefused(Push(h, frames[0]).1, format, frames[1..]);
    }
  }

  lemma EmptyHistoryIsPaced(h: History, format: VideoFormat)
    requires h.milliseconds > 0 && h.frames == [] && BudgetProblem(h, format).None?
    ensures Paced(h, format)
  {
    DivAtLeast(DelayNanos(h) + PeriodNanos(format.frameRate) - 1, PeriodNanos(format.frameRate), 1);
    hide PeriodNanos;
  }

  // So a source whose device keeps its own rate never has its delay refused.
  lemma FreshHistoryAtPaceIsNeverRefused(h: History, format: VideoFormat, frames: seq<Picture>)
    requires h.milliseconds > 0 && h.frames == [] && BudgetProblem(h, format).None? && AtPace(format, h.last, frames)
    ensures PushAll(h, frames).0.Ok?
  {
    EmptyHistoryIsPaced(h, format);
    PacedFramesAreNeverRefused(h, format, frames);
  }
}
