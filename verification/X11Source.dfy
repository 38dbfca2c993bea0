// The fallback chain of an X11 source: direct capture, a helper process, a drawn frame, and
// direct capture again (crates/obs-rs-builtins/src/x11.rs).
module X11Source {
  import opened Numbers
  import opened Results
  import opened VideoFormats

  const FALLBACK_RENDERS := 120

  datatype Settings = Settings(format: VideoFormat, display: string, selection: Option<string>)

  datatype Backend = Native | Ffmpeg | Fallback

  // The backend and the settings that it was opened with.
  datatype Device = Device(backend: Backend, openedWith: Settings)

  // What a device answers to one poll: whether its worker is lost or denied, and its frame.
  datatype Poll = Delivers(frame: Option<nat>) | Fails
  datatype Answer = Answer(stopped: bool, poll: Poll)

  datatype Reply = Done | Frame(frame: Option<nat>) | InvalidSetting | UnsupportedFormat | Unavailable

  // The source and how often it started each kind of backend that costs something.
  datatype SourceView = SourceView(settings: Settings, device: Device, fallbackFrames: u64, nativeOpens: nat, ffmpegOpens: nat)

  // `first` and `second` answer the two attempts of a render, and `drawable` says whether
  // the drawn fallback can be created.
  datatype Call =
    | Update(settings: Option<Settings>)
    | Render(format: VideoFormat, first: Answer, second: Answer, drawable: bool)

  function Created(settings: Settings): SourceView {
    SourceView(settings, Device(Native, settings), 0, 1, 0)
  }

  // A drawn device has no worker that could be lost.
  function Asked(device: Device, answer: Answer): Poll {
    if device.backend != Fallback && answer.stopped then Fails else answer.poll
  }

  function OpenNative(v: SourceView): SourceView {
    v.(device := Device(Native, v.settings), fallbackFrames := 0, nativeOpens := v.nativeOpens + 1)
  }

  // Every 120th render in the fallback tries direct capture again.
  function Promoted(v: SourceView): SourceView {
    if v.device.backend != Fallback then v
    else
      var counted := v.(fallbackFrames := SaturatingAdd(v.fallbackFrames, 1));
      if counted.fallbackFrames % FALLBACK_RENDERS == 0 then OpenNative(counted) else counted
  }

  // The next backend down the chain, if it can be had.
  function Replaced(v: SourceView, drawable: bool): Option<SourceView> {
    if v.device.backend == Native then
      Some(v.(device := Device(Ffmpeg, v.settings), ffmpegOpens := v.ffmpegOpens + 1))
    else if drawable then Some(v.(device := Device(Fallback, v.settings)))
    else None
  }

  function Apply(v: SourceView, call: Call): (Reply, SourceView) {
    match call
    case Update(settings) =>
      if settings.None? then (InvalidSetting, v)
      else if settings.value == v.settings then (Done, v)
      else (Done, OpenNative(v.(settings := settings.value)))
    case Render(format, first, second, drawable) =>
      if format != v.settings.format then (UnsupportedFormat, v)
      else
        var ready := Promoted(v);
        match Asked(ready.device, first)
        case Delivers(frame) => (Frame(frame), ready)
        case Fails =>
          match Replaced(ready, drawable)
          case None => (Unavailable, ready)
          case Some(next) =>
            match Asked(next.device, second)
            case Delivers(frame) => (Frame(frame), next)
            case Fails => (Unavailable, next)
  }

  function Run(v: SourceView, calls: seq<Call>): (seq<Reply>, SourceView)
    decreases calls
  {
    if calls == [] then ([], v)
    else
      var (reply, next) := Apply(v, calls[0]);
      var (rest, last) := Run(next, calls[1..]);
      ([reply] + rest, last)
  }

  class X11CaptureSource {
    var settings: Settings
    var device: Device
    var fallbackFrames: u64
    ghost var nativeOpens: nat
    ghost var ffmpegOpens: nat

    ghost function View(): SourceView
      reads this
    {
      SourceView(settings, device, fallbackFrames, nativeOpens, ffmpegOpens)
    }

    constructor (settings: Settings)
      ensures View() == Created(settings)
    {
      this.settings := settings;
      device := Device(Native, settings);
      fallbackFrames, nativeOpens, ffmpegOpens := 0, 1, 0;
    }

    method NativeBackend(requested: Settings) returns (backend: Device)
      modifies this`nativeOpens
      ensures backend == Device(Native, requested) && nativeOpens == old(nativeOpens) + 1
    {
      nativeOpens := nativeOpens + 1;
      return Device(Native, requested);
    }

    method FfmpegBackend() returns (backend: Device)
      modifies this`ffmpegOpens
      ensures backend == Device(Ffmpeg, settings) && ffmpegOpens == old(ffmpegOpens) + 1
    {
      ffmpegOpens := ffmpegOpens + 1;
      return Device(Ffmpeg, settings);
    }

    method Update(requested: Option<Settings>) returns (reply: Reply)
      modifies this
      ensures (reply, View()) == Apply(old(View()), Call.Update(requested))
    {
      if requested.None? {
        return InvalidSetting;
      }
      if requested.value == settings {
        return Done;
      }
      device := NativeBackend(requested.value);
      settings := requested.value;
      fallbackFrames := 0;
      return Done;
    }

    method Render(format: VideoFormat, first: Answer, second: Answer, drawable: bool) returns (reply: Reply)
      modifies this
      ensures (reply, View()) == Apply(old(View()), Call.Render(format, first, second, drawable))
    {
      if format != settings.format {
        return UnsupportedFormat;
      }
      if device.backend == Fallback {
        fallbackFrames := SaturatingAdd(fallbackFrames, 1);
        if fallbackFrames % FALLBACK_RENDERS == 0 {
          device := NativeBackend(settings);
          fallbackFrames := 0;
        }
      }
      ghost var ready := Promoted(old(View()));
      for attempt := 0 to 2
        invariant attempt == 0 ==> View() == ready
        invariant attempt == 1 ==> Asked(ready.device, first) == Fails && Replaced(ready, drawable) == Some(View())
        invariant attempt == 2 ==> false
      {
        var poll := Asked(device, if attempt == 0 then first else second);
        if poll.Delivers? {
          return Frame(poll.frame);
        }
        if attempt != 0 {
          return Unavailable;
        }
        if device.backend == Native {
          device := FfmpegBackend();
        } else {
          if !drawable {
            return Unavailable;
          }
          device := Device(Fallback, settings);
        }
      }
    }

    method Serve(calls: seq<Call>) returns (replies: seq<Reply>)
      modifies this
      ensures (replies, View()) == Run(old(View()), calls)
    {
      hide Apply;
      replies := [];
      assert calls[0..] == calls && [] + Run(View(), calls).0 == Run(View(), calls).0;
      for i := 0 to |calls|
        invariant (replies + Run(View(), calls[i..]).0, Run(View(), calls[i..]).1) == old(Run(View(), calls))
      {
        ghost var before := View();
        assert calls[i..][0] == calls[i] && calls[i..][1..] == calls[i + 1..];
        var reply;
        match calls[i] {
          case Update(requested) => reply := Update(requested);
          case Render(format, first, second, drawable) => reply := Render(format, first, second, drawable);
        }
        assert replies + ([reply] + Run(View(), calls[i + 1..]).0) == replies + [reply] + Run(View(), calls[i + 1..]).0;
        replies := replies + [reply];
      }
      assert calls[|calls|..] == [] && replies + [] == replies;
    }
  }

  // ---- One call ------------------------------------------------------------------------------

  // Errors replace the backend at most once per render, always one step down the chain.
  lemma ErrorsReplaceAtMostOnce(v: SourceView, format: VideoFormat, first: Answer, second: Answer, drawable: bool)
    requires format == v.settings.format
    ensures var (reply, next) := Apply(v, Render(format, first, second, drawable));
      var ready := Promoted(v);
      && (next == ready || Some(next) == Replaced(ready, drawable))
      && (next != ready ==> Asked(ready.device, first) == Fails)
      && (reply.Frame? ==> reply.frame == Asked(next.device, if next == ready && Asked(ready.device, first) != Fails then first else second).frame)
      && next.ffmpegOpens - v.ffmpegOpens
           == (if ready.device.backend == Native && Asked(ready.device, first) == Fails then 1 else 0)
  {
  }

  // ---- Whole runs -----------------------------------------------------------------------------

  function SettingsChanges(v: SourceView, calls: seq<Call>): nat
    decreases calls
  {
    if calls == [] then 0
    else (if calls[0].Update? && calls[0].settings.Some? && calls[0].settings.value != v.settings then 1 else 0)
         + SettingsChanges(Apply(v, calls[0]).1, calls[1..])
  }

  // Renders of the right format that begin in the fallback.
  function FallbackRenders(v: SourceView, calls: seq<Call>): nat
    decreases calls
  {
    if calls == [] then 0
    else (if calls[0].Render? && calls[0].format == v.settings.format && v.device.backend == Fallback then 1 else 0)
         + FallbackRenders(Apply(v, calls[0]).1, calls[1..])
  }

  predicate Settled(v: SourceView) {
    && v.fallbackFrames < FALLBACK_RENDERS
    && (v.device.backend != Fallback ==> v.fallbackFrames == 0)
    && v.device.openedWith == v.settings
    && v.ffmpegOpens + (if v.device.backend == Native then 1 else 0) <= v.nativeOpens
  }

  lemma RunOne(v: SourceView, call: Call)
    requires Settled(v)
    ensures var next := Apply(v, call).1;
      && Settled(next)
      && FALLBACK_RENDERS * next.nativeOpens + next.fallbackFrames
           <= FALLBACK_RENDERS * v.nativeOpens + v.fallbackFrames
              + FALLBACK_RENDERS * SettingsChanges(v, [call]) + FallbackRenders(v, [call])
  {
    assert [call][1..] == [];
  }

  lemma {:induction false} RunBounded(v: SourceView, calls: seq<Call>)
    requires Settled(v)
    ensures var last := Run(v, calls).1;
      && Settled(last)
      && FALLBACK_RENDERS * last.nativeOpens + last.fallbackFrames
           <= FALLBACK_RENDERS * v.nativeOpens + v.fallbackFrames
              + FALLBACK_RENDERS * SettingsChanges(v, calls) + FallbackRenders(v, calls)
    decreases calls
  {
    if calls != [] {
      RunOne(v, calls[0]);
      assert [calls[0]][1..] == [];
      var next := Apply(v, calls[0]).1;
      assert SettingsChanges(v, calls) == SettingsChanges(v, [calls[0]]) + SettingsChanges(next, calls[1..]);
      assert FallbackRenders(v, calls) == FallbackRenders(v, [calls[0]]) + FallbackRenders(next, calls[1..]);
      RunBounded(next, calls[1..]);
      hide Apply, Settled, SettingsChanges, FallbackRenders;
    }
  }

  // No process storm: direct capture is opened once, once per changed setting and once per 120
  // renders in the fallback; the helper process never more often than direct capture.
  lemma OpensAreRationed(settings: Settings, calls: seq<Call>)
    ensures var v := Created(settings);
      var last := Run(v, calls).1;
      && last.fallbackFrames < FALLBACK_RENDERS && last.device.openedWith == last.settings
      && last.nativeOpens <= 1 + SettingsChanges(v, calls) + FallbackRenders(v, calls) / 120
      && last.ffmpegOpens <= last.nativeOpens
  {
    RunBounded(Created(settings), calls);
  }

  // Whatever the devices answer, the fallback is left by the render that completes the count,
  // and not before.
  lemma {:induction false} FallbackIsLeftOnTime(v: SourceView, calls: seq<Call>)
    requires Settled(v) && v.device.backend == Fallback
    requires forall k :: 0 <= k < |calls| ==> calls[k].Render? && calls[k].format == v.settings.format
    requires |calls| <= 120 - v.fallbackFrames
    ensures var last := Run(v, calls).1;
      if |calls| == 120 - v.fallbackFrames then last.nativeOpens == v.nativeOpens + 1 && last.fallbackFrames == 0
      else last.nativeOpens == v.nativeOpens && last.device.backend == Fallback && last.fallbackFrames == v.fallbackFrames + |calls|
    decreases calls
  {
    if calls != [] {
      assert calls[0].Render? && calls[0].format == v.settings.format;
      RunOne(v, calls[0]);
      var next := Apply(v, calls[0]).1;
      if |calls| == 1 {
        assert calls[1..] == [];
      } else {
        FallbackIsLeftOnTime(next, calls[1..]);
      }
    }
  }

  // ---- What is shown along the chain ---------------------------------------------------------------

  // A render whose first attempt is answered by a working device.
  predicate Works(call: Call, format: VideoFormat) {
    call.Render? && call.format == format && !call.first.stopped && call.first.poll.Delivers?
  }

  // A device that works is kept, direct capture and helper alike: its frames are handed on one by
  // one, and nothing is opened or counted.
  lemma {:induction false} WorkingDeviceIsKept(v: SourceView, calls: seq<Call>)
    requires v.device.backend != Fallback && forall k :: 0 <= k < |calls| ==> Works(calls[k], v.settings.format)
    ensures var (replies, last) := Run(v, calls);
      && last == v && |replies| == |calls|
      && forall k :: 0 <= k < |calls| ==> Works(calls[k], v.settings.format) && replies[k] == Frame(calls[k].first.poll.frame)
    decreases calls
  {
    if calls != [] {
      assert Works(calls[0], v.settings.format);
      WorkingDeviceIsKept(v, calls[1..]);
    }
  }

  // A render in which no attempt is answered: by an error, or because the worker has stopped.
  predicate FailsTwice(call: Call, format: VideoFormat) {
    && call.Render? && call.format == format && call.drawable
    && call.first.poll.Fails? && call.second.poll.Fails?
  }

  // When nothing answers, each render goes one step down the chain and no further, and says that
  // nothing is available; at its end the source stays with the drawn frame.
  lemma FailuresDescendTheChain(v: SourceView, call: Call)
    requires Settled(v) && FailsTwice(call, v.settings.format)
    ensures var (reply, next) := Apply(v, call);
      && reply == Unavailable
      && (v.device.backend == Native ==> next == v.(device := Device(Ffmpeg, v.settings), ffmpegOpens := v.ffmpegOpens + 1))
      && (v.device.backend == Ffmpeg ==> next == v.(device := Device(Fallback, v.settings)))
      && (v.device.backend == Fallback && v.fallbackFrames + 1 < 120 ==> next == v.(fallbackFrames := v.fallbackFrames + 1))
      && (v.device.backend == Fallback && v.fallbackFrames + 1 == 120 ==>
            next == v.(device := Device(Ffmpeg, v.settings), fallbackFrames := 0,
                       nativeOpens := v.nativeOpens + 1, ffmpegOpens := v.ffmpegOpens + 1))
  {
  }

  // A stopped worker is not asked, even if a frame of it is still to be had.
  lemma StoppedWorkerIsReplaced(v: SourceView, format: VideoFormat, first: Answer, second: Answer, drawable: bool)
    requires v.device.backend == Native && format == v.settings.format && first.stopped
    ensures var (reply, next) := Apply(v, Render(format, first, second, drawable));
      && next.device == Device(Ffmpeg, v.settings)
      && reply == if !second.stopped && second.poll.Delivers? then Frame(second.poll.frame) else Unavailable
  {
  }
}
