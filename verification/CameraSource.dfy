// A camera source and the worker threads that it opens one after the other, as interleaved
// steps (crates/obs-rs-capture/src/threaded.rs, crates/obs-rs-capture/src/factories.rs).
module CameraSource {
  import opened Results
  import opened VideoFormats

  const CAMERA_RETRY_FRAMES := 15

  datatype Settings = Settings(format: VideoFormat, deviceId: string, mode: Option<nat>)

  // ---- One worker thread and its mailbox -------------------------------------------------

  // Where `capture_loop` stands. A thread past `Opening` holds the physical device until it
  // has exited.
  datatype Place =
    | Opening | OpenedCheck | Starting | StartedCheck | SetReady
    | LoopCheck | Pacing | Capturing
    | WriteFailure(denied: bool) | StopDevice | SetFinished | Returning | Exited

  // `failure` tells whether the recorded error is a permission denial; `joinable` is the
  // owner's join handle.
  datatype Worker = Worker(
    settings: Settings, at: Place, joinable: bool,
    ready: bool, finished: bool, stop: bool, failure: Option<bool>)

  // What the driver does, where the driver is in charge.
  datatype Event = Proceeds | Fails(denied: bool) | Panics

  function Spawned(settings: Settings, started: bool): Worker {
    if started then Worker(settings, Opening, true, false, false, false, None)
    else Worker(settings, Exited, false, false, true, false, Some(false))
  }

  function DriverCall(w: Worker, event: Event, next: Place): Worker {
    match event
    case Proceeds => w.(at := next)
    case Fails(denied) => w.(at := WriteFailure(denied))
    case Panics => w.(at := Exited)
  }

  function StopCheck(w: Worker, next: Place): Worker {
    w.(at := if w.stop then StopDevice else next)
  }

  function WorkerStep(w: Worker, event: Event): Worker {
    match w.at
    case Opening => DriverCall(w, event, OpenedCheck)
    case OpenedCheck => StopCheck(w, Starting)
    case Starting => DriverCall(w, event, StartedCheck)
    case StartedCheck => StopCheck(w, SetReady)
    case SetReady => w.(ready := true, at := LoopCheck)
    case LoopCheck => StopCheck(w, Pacing)
    case Pacing => StopCheck(w, Capturing)
    case Capturing => DriverCall(w, event, LoopCheck)
    case WriteFailure(denied) => w.(failure := Some(denied), at := SetFinished)
    case StopDevice => w.(at := if event.Panics? then Exited else SetFinished)
    case SetFinished => w.(finished := true, at := Returning)
    case Returning => w.(at := Exited)
    case Exited => w
  }

  datatype Lifecycle = StillOpening | Ready | Lost | Denied

  // `ThreadedCaptureDevice::state`.
  function StateOf(w: Worker): Lifecycle {
    if w.finished then if w.failure == Some(true) then Denied else Lost
    else if w.ready then Ready
    else StillOpening
  }

  // The order in which an owner can see one worker's states.
  predicate CanBecome(a: Lifecycle, b: Lifecycle) {
    a == b || a == StillOpening || (a == Ready && (b == Lost || b == Denied))
  }

  // Flags and places agree: nothing is written after `finished`.
  predicate Sound(w: Worker) {
    && (w.finished ==> w.at == Returning || w.at == Exited)
    && (w.ready ==> w.at !in {Opening, OpenedCheck, Starting, StartedCheck, SetReady})
    && (!w.joinable ==> w.at == Exited)
  }

  lemma StepKeepsSound(w: Worker, event: Event)
    requires Sound(w)
    ensures Sound(WorkerStep(w, event))
    ensures CanBecome(StateOf(w), StateOf(WorkerStep(w, event)))
  {
  }

  function WorkerRun(w: Worker, events: seq<Event>): Worker
    decreases events
  {
    if events == [] then w else WorkerRun(WorkerStep(w, events[0]), events[1..])
  }

  // Where the driver is in charge.
  predicate CallsDriver(w: Worker) {
    w.at == Opening || w.at == Starting || w.at == Capturing
  }

  // A recorded failure is the one the driver answered, and nothing is recorded before.
  predicate Recorded(w: Worker, refused: bool) {
    && (w.at != SetFinished && w.at != Returning && w.at != Exited ==> w.failure.None?)
    && (w.at.WriteFailure? || w.failure.Some? ==> (if w.at.WriteFailure? then w.at.denied else w.failure.value) == refused)
    && (refused ==> w.at.WriteFailure? || w.failure.Some?)
  }

  // A permission denial, or any other failure, is published as just that, whatever follows it.
  lemma {:induction false} FailureIsReported(w: Worker, denied: bool, events: seq<Event>)
    requires Sound(w) && CallsDriver(w) && Recorded(w, false)
    ensures var last := WorkerRun(WorkerStep(w, Fails(denied)), events);
      && (last.finished <==> |events| >= 2)
      && (last.finished ==> StateOf(last) == if denied then Denied else Lost)
  {
    var failed := WorkerStep(w, Fails(denied));
    if |events| >= 2 {
      assert WorkerRun(failed, events) == WorkerRun(WorkerStep(WorkerStep(failed, events[0]), events[1]), events[2..]) by {
        assert events[1..][0] == events[1] && events[1..][1..] == events[2..];
      }
      FinishedStays(WorkerStep(WorkerStep(failed, events[0]), events[1]), events[2..]);
    } else if |events| == 1 {
      assert events[1..] == [];
    }
  }

  lemma {:induction false} FinishedStays(w: Worker, events: seq<Event>)
    requires Sound(w) && w.finished
    ensures WorkerRun(w, events).finished && WorkerRun(w, events).failure == w.failure
    decreases events
  {
    if events != [] {
      StepKeepsSound(w, events[0]);
      FinishedStays(WorkerStep(w, events[0]), events[1..]);
    }
  }

  // How far a worker that was told to stop is from its exit, if the driver answers.
  function StepsToExit(at: Place): nat {
    match at
    case Opening | Starting | SetReady | Capturing => 5
    case OpenedCheck | StartedCheck | LoopCheck | Pacing | WriteFailure(_) => 4
    case StopDevice => 3
    case SetFinished => 2
    case Returning => 1
    case Exited => 0
  }

  // Told to stop, a worker gets out within five of its own steps, whatever the driver answers:
  // it makes at most one more driver call.
  lemma {:induction false} StoppedWorkerExits(w: Worker, events: seq<Event>)
    requires w.stop && |events| >= StepsToExit(w.at)
    ensures WorkerRun(w, events).at == Exited && StepsToExit(w.at) <= 5
    decreases events
  {
    if events != [] {
      var next := WorkerStep(w, events[0]);
      assert next.stop && StepsToExit(next.at) <= |events| - 1;
      StoppedWorkerExits(next, events[1..]);
    }
  }

  function Willing(count: nat): seq<Event> {
    seq(count, i => Proceeds)
  }

  // A driver that plays along brings a fresh worker to its first capture, and to `Ready`.
  lemma WillingDriverGetsReady(settings: Settings)
    ensures var last := WorkerRun(Spawned(settings, true), Willing(7));
      last.at == Capturing && StateOf(last) == Ready
  {
    var w := Spawned(settings, true);
    assert forall n: nat :: n > 0 ==> Willing(n)[1..] == Willing(n - 1);
    var capturing := w.(at := Capturing, ready := true);
    assert WorkerRun(capturing, Willing(0)) == capturing;
    assert WorkerRun(w.(at := LoopCheck, ready := true), Willing(2)) == capturing;
    assert WorkerRun(w.(at := StartedCheck), Willing(4)) == capturing;
    assert WorkerRun(w.(at := OpenedCheck), Willing(6)) == capturing;
  }

  // ---- The source ------------------------------------------------------------------------

  // What remains of the owner's call once its reopening is decided.
  datatype After = ReturnFromCall | ResumeRender

  // Where the owner's current call stands: between calls, inside `shutdown`'s grace period,
  // inside `join`, or at the match over the worker's state.
  datatype Phase = Idle | Grace(after: After) | Joining(after: After) | Matching

  // `device` indexes the held worker.
  datatype Source = Source(
    configured: Settings, workers: seq<Worker>, device: Option<nat>,
    retryCountdown: nat, shutdownBlocked: bool, phase: Phase)

  datatype Action =
    | Update(settings: Option<Settings>)
    | Render(format: VideoFormat)
    | OwnerStep(started: bool)
    | GraceExpires
    | StepWorker(i: nat, event: Event)

  // `started` says whether the operating system starts the new thread.
  function Created(settings: Settings, started: bool): Source {
    Source(settings, [Spawned(settings, started)], Some(0), CAMERA_RETRY_FRAMES, false, Idle)
  }

  function PhaseAfter(after: After): Phase {
    if after == ResumeRender then Matching else Idle
  }

  function OpenWorker(s: Source, after: After, started: bool): Source {
    s.(workers := s.workers + [Spawned(s.configured, started)], device := Some(|s.workers|),
       shutdownBlocked := false, phase := PhaseAfter(after))
  }

  predicate Holding(s: Source) {
    s.device.Some? && s.device.value < |s.workers|
  }

  function Held(s: Source): Worker
    requires Holding(s)
  {
    s.workers[s.device.value]
  }

  // `reopen`: the old worker is told to stop and is waited for before anything is opened.
  function Reopen(s: Source, after: After): Source {
    var reset := s.(retryCountdown := CAMERA_RETRY_FRAMES, phase := Joining(after));
    if !Holding(s) then reset
    else reset.(workers := s.workers[s.device.value := Held(s).(stop := true)],
                phase := if Held(s).joinable then Grace(after) else Joining(after))
  }

  // The match over the worker's state.
  function Match(s: Source): Source {
    if !Holding(s) || StateOf(Held(s)) == Lost then
      var counted := s.(retryCountdown := if s.retryCountdown == 0 then 0 else s.retryCountdown - 1);
      if counted.retryCountdown == 0 then Reopen(counted, ReturnFromCall) else counted.(phase := Idle)
    else s.(phase := Idle)
  }

  function Apply(s: Source, action: Action): Source {
    match action
    case Update(settings) =>
      if s.phase != Idle || settings.None? then s
      else if settings.value == s.configured && s.device.Some? then s
      else Reopen(s.(configured := settings.value), ReturnFromCall)
    case Render(format) =>
      if s.phase != Idle || format != s.configured.format then s
      else if s.shutdownBlocked then
        if Holding(s) && StateOf(Held(s)) == Lost then Reopen(s, ResumeRender) else s
      else Match(s)
    case OwnerStep(started) =>
      (match s.phase
       case Idle => s
       case Grace(after) =>
         if Holding(s) && (Held(s).finished || Held(s).at == Exited) then s.(phase := Joining(after)) else s
       case Joining(after) =>
         if !Holding(s) then OpenWorker(s, after, started)
         else if Held(s).at != Exited then s
         else OpenWorker(s.(workers := s.workers[s.device.value := Held(s).(joinable := false)]), after, started)
       case Matching => Match(s))
    case GraceExpires =>
      if s.phase.Grace? && Holding(s) && !Held(s).finished && Held(s).at != Exited then
        s.(shutdownBlocked := true, phase := PhaseAfter(s.phase.after))
      else s
    case StepWorker(i, event) =>
      if i < |s.workers| then s.(workers := s.workers[i := WorkerStep(s.workers[i], event)]) else s
  }

  function Run(s: Source, actions: seq<Action>): Source
    decreases actions
  {
    if actions == [] then s else Run(Apply(s, actions[0]), actions[1..])
  }

  // ---- What every interleaving keeps -------------------------------------------------------

  predicate Valid(s: Source) {
    && |s.workers| > 0
    && s.device == Some(|s.workers| - 1)
    && (forall i :: 0 <= i < |s.workers| ==> Sound(s.workers[i]))
    && (forall i :: 0 <= i < |s.workers| - 1 ==> s.workers[i].at == Exited)
    && 0 < s.retryCountdown <= CAMERA_RETRY_FRAMES
    && (s.phase.Grace? ==> Held(s).joinable && Held(s).stop)
    && (s.phase.Joining? ==> Held(s).finished || Held(s).at == Exited)
    && (s.shutdownBlocked || s.phase.Grace? || s.phase.Joining? || Held(s).settings == s.configured)
    && (s.shutdownBlocked && s.phase == Idle ==> Held(s).joinable && Held(s).stop)
    && ((s.phase.Grace? || s.phase.Joining?) && s.phase.after == ResumeRender ==> Held(s).finished)
    && (s.phase == Matching ==> !s.shutdownBlocked)
  }

  lemma CreatedIsValid(settings: Settings, started: bool)
    ensures Valid(Created(settings, started))
  {
  }

  lemma OpenKeepsValid(s: Source, after: After, started: bool)
    requires |s.workers| > 0 && 0 < s.retryCountdown <= CAMERA_RETRY_FRAMES
    requires forall i :: 0 <= i < |s.workers| ==> Sound(s.workers[i]) && s.workers[i].at == Exited
    ensures Valid(OpenWorker(s, after, started))
  {
  }

  lemma WorkerKeepsValid(s: Source, i: nat, event: Event)
    requires Valid(s)
    ensures Valid(Apply(s, StepWorker(i, event)))
  {
    if i < |s.workers| {
      StepKeepsSound(s.workers[i], event);
      StepKeepsRecord(s.workers[i], event);
    }
    hide WorkerStep, Sound;
  }

  // A worker's step leaves the owner's side of its mailbox alone.
  lemma StepKeepsRecord(w: Worker, event: Event)
    ensures var next := WorkerStep(w, event);
      && next.settings == w.settings && next.joinable == w.joinable && next.stop == w.stop
      && (w.at == Exited ==> next == w) && (w.finished ==> next.finished)
  {
  }

  lemma OwnerKeepsValid(s: Source, started: bool)
    requires Valid(s)
    ensures Valid(Apply(s, OwnerStep(started)))
  {
    if s.phase.Joining? && Held(s).at == Exited {
      var joined := s.(workers := s.workers[s.device.value := Held(s).(joinable := false)]);
      OpenKeepsValid(joined, s.phase.after, started);
      hide OpenWorker;
    }
  }

  lemma ApplyKeepsValid(s: Source, action: Action)
    requires Valid(s)
    ensures Valid(Apply(s, action))
  {
    match action
    case StepWorker(i, event) => WorkerKeepsValid(s, i, event);
    case OwnerStep(started) => OwnerKeepsValid(s, started);
    case _ => hide WorkerStep, OpenWorker;
  }

  lemma {:induction false} RunKeepsValid(s: Source, actions: seq<Action>)
    requires Valid(s)
    ensures Valid(Run(s, actions))
    decreases actions
  {
    if actions != [] {
      ApplyKeepsValid(s, actions[0]);
      RunKeepsValid(Apply(s, actions[0]), actions[1..]);
    }
  }

  // ---- The promises ------------------------------------------------------------------------

  // No interleaving ever lets two threads near the camera: all but the newest have exited.
  lemma NeverTwoWorkers(settings: Settings, started: bool, actions: seq<Action>)
    ensures var s := Run(Created(settings, started), actions);
      && (forall i :: 0 <= i < |s.workers| - 1 ==> s.workers[i].at == Exited)
      && s.device == Some(|s.workers| - 1)
  {
    CreatedIsValid(settings, started);
    RunKeepsValid(Created(settings, started), actions);
  }

  // Between calls, and unless a wedged worker blocks it, the held worker has the current settings.
  lemma HeldWorkerIsCurrent(settings: Settings, started: bool, actions: seq<Action>)
    ensures var s := Run(Created(settings, started), actions);
      Holding(s) && (s.phase == Idle && !s.shutdownBlocked ==> Held(s).settings == s.configured)
  {
    CreatedIsValid(settings, started);
    RunKeepsValid(Created(settings, started), actions);
  }

  // Over any run, each worker's observed states only advance: opening, ready, lost or denied.
  lemma {:induction false} ObservedStatesAdvance(s: Source, actions: seq<Action>, i: nat)
    requires Valid(s) && i < |s.workers|
    ensures i < |Run(s, actions).workers|
    ensures CanBecome(StateOf(s.workers[i]), StateOf(Run(s, actions).workers[i]))
    decreases actions
  {
    if actions != [] {
      var next := Apply(s, actions[0]);
      ApplyKeepsValid(s, actions[0]);
      StateAdvances(s, actions[0], i);
      hide Apply, Valid, StateOf;
      ObservedStatesAdvance(next, actions[1..], i);
    }
  }

  lemma StateAdvances(s: Source, action: Action, i: nat)
    requires Valid(s) && i < |s.workers|
    ensures i < |Apply(s, action).workers|
    ensures CanBecome(StateOf(s.workers[i]), StateOf(Apply(s, action).workers[i]))
  {
    if action.StepWorker? && action.i == i {
      StepKeepsSound(s.workers[i], action.event);
    }
    hide WorkerStep, Sound;
  }

  // ---- What the driver answered, and what is seen of it --------------------------------------

  // Some driver call of worker `i` was answered with a permission denial.
  predicate WasRefused(s: Source, actions: seq<Action>, i: nat)
    decreases actions
  {
    && actions != []
    && ((i < |s.workers| && CallsDriver(s.workers[i]) && actions[0] == StepWorker(i, Fails(true)))
        || WasRefused(Apply(s, actions[0]), actions[1..], i))
  }

  lemma StepRecords(w: Worker, event: Event, refused: bool)
    requires Recorded(w, refused)
    ensures Recorded(WorkerStep(w, event), refused || (CallsDriver(w) && event == Fails(true)))
  {
  }

  // The record of worker `i`, once it exists, is `refused`.
  predicate RecordOf(s: Source, i: nat, refused: bool) {
    if i < |s.workers| then Recorded(s.workers[i], refused) else !refused
  }

  lemma ActionRecords(s: Source, action: Action, i: nat, refused: bool)
    requires Valid(s) && RecordOf(s, i, refused)
    ensures RecordOf(Apply(s, action), i,
                     refused || (i < |s.workers| && CallsDriver(s.workers[i]) && action == StepWorker(i, Fails(true))))
  {
    if action.StepWorker? && i < |s.workers| && action.i == i {
      StepRecords(s.workers[i], action.event, refused);
    }
    hide WorkerStep, Sound;
  }

  lemma {:induction false} RunRecords(s: Source, actions: seq<Action>, i: nat, refused: bool)
    requires Valid(s) && RecordOf(s, i, refused)
    ensures RecordOf(Run(s, actions), i, refused || WasRefused(s, actions, i))
    decreases actions
  {
    if actions != [] {
      ApplyKeepsValid(s, actions[0]);
      ActionRecords(s, actions[0], i, refused);
      var now := refused || (i < |s.workers| && CallsDriver(s.workers[i]) && actions[0] == StepWorker(i, Fails(true)));
      hide Apply, Valid, RecordOf;
      RunRecords(Apply(s, actions[0]), actions[1..], i, now);
    }
  }

  // Over any interleaving, a finished worker is seen as denied exactly when the driver had refused
  // it permission, and as lost exactly when it had not; an unfinished one is neither.
  lemma DeniedExactlyWhenRefused(settings: Settings, started: bool, actions: seq<Action>, i: nat)
    requires i < |Run(Created(settings, started), actions).workers|
    ensures var (w, refused) := (Run(Created(settings, started), actions).workers[i], WasRefused(Created(settings, started), actions, i));
      && (StateOf(w) == Denied <==> w.finished && refused)
      && (StateOf(w) == Lost <==> w.finished && !refused)
  {
    var s := Created(settings, started);
    CreatedIsValid(settings, started);
    RunKeepsValid(s, actions);
    RunRecords(s, actions, i, false);
    hide Run;
  }

  // ---- What rendering alone can recover from ------------------------------------------------

  // Everything but an update that changes a setting.
  predicate KeepsSettings(s: Source, action: Action) {
    action.Update? && action.settings.Some? ==> action.settings.value == s.configured
  }

  predicate AllKeepSettings(s: Source, actions: seq<Action>) {
    forall k :: 0 <= k < |actions| ==> KeepsSettings(s, actions[k])
  }

  // One render: it leaves the direct path exactly when the worker is lost and either blocked the
  // last reopening or has used up its countdown.
  lemma RenderReopensExactlyWhenLost(s: Source, format: VideoFormat)
    requires Valid(s) && s.phase == Idle
    ensures Apply(s, Render(format)).phase != Idle
       <==> (format == s.configured.format && StateOf(Held(s)) == Lost && (s.shutdownBlocked || s.retryCountdown == 1))
  {
  }

  // Whoever is being replaced, or was replaced since `first`, was lost.
  predicate ReplacedWereLost(s: Source, first: nat) {
    && (forall i :: first <= i < |s.workers| - 1 ==> StateOf(s.workers[i]) == Lost)
    && ((s.phase.Grace? || s.phase.Joining?) && Holding(s) ==> StateOf(Held(s)) == Lost)
  }

  lemma StepReplacesOnlyLost(s: Source, action: Action, first: nat)
    requires Valid(s) && KeepsSettings(s, action) && ReplacedWereLost(s, first) && first <= |s.workers| - 1
    ensures ReplacedWereLost(Apply(s, action), first) && Apply(s, action).configured == s.configured
    ensures |s.workers| <= |Apply(s, action).workers|
  {
    match action
    case StepWorker(i, event) =>
      if i < |s.workers| {
        StepKeepsSound(s.workers[i], event);
      }
      hide WorkerStep;
    case Render(format) =>
      if s.phase == Idle {
        RenderReopensExactlyWhenLost(s, format);
      }
    case _ =>
  }

  // Over any interleaving without a settings change, every replaced worker had been seen lost:
  // a working, a denied or a panicked one is never given up.
  lemma {:induction false} OnlyLostWorkersAreReplaced(s: Source, actions: seq<Action>, first: nat)
    requires Valid(s) && AllKeepSettings(s, actions) && ReplacedWereLost(s, first) && first <= |s.workers| - 1
    ensures ReplacedWereLost(Run(s, actions), first)
    decreases actions
  {
    if actions != [] {
      var next := Apply(s, actions[0]);
      ApplyKeepsValid(s, actions[0]);
      StepReplacesOnlyLost(s, actions[0], first);
      forall k | 0 <= k < |actions[1..]| ensures KeepsSettings(next, actions[1..][k]) {
        assert KeepsSettings(s, actions[k + 1]);
      }
      hide Apply, Valid, ReplacedWereLost;
      OnlyLostWorkersAreReplaced(next, actions[1..], first);
    }
  }

  // A worker that was refused permission is never replaced without a settings change.
  lemma RefusedWorkerIsKept(settings: Settings, started: bool, actions: seq<Action>, i: nat)
    requires AllKeepSettings(Created(settings, started), actions)
    requires i < |Run(Created(settings, started), actions).workers| && WasRefused(Created(settings, started), actions, i)
    ensures i == |Run(Created(settings, started), actions).workers| - 1
  {
    CreatedIsValid(settings, started);
    DeniedExactlyWhenRefused(settings, started, actions, i);
    OnlyLostWorkersAreReplaced(Created(settings, started), actions, 0);
    hide Run, Created;
  }

  // Denied, or ended without reporting it (a panicked thread never sets `finished`).
  predicate Stuck(s: Source) {
    s.phase == Idle && Holding(s) && Held(s).at == Exited && StateOf(Held(s)) != Lost
  }

  lemma {:induction false} StuckStaysStuck(s: Source, actions: seq<Action>)
    requires Valid(s) && Stuck(s) && AllKeepSettings(s, actions)
    ensures Stuck(Run(s, actions)) && |Run(s, actions).workers| == |s.workers|
    decreases actions
  {
    if actions != [] {
      var next := Apply(s, actions[0]);
      ApplyKeepsValid(s, actions[0]);
      assert KeepsSettings(s, actions[0]);
      assert Stuck(next) && next.configured == s.configured && |next.workers| == |s.workers|;
      forall k | 0 <= k < |actions[1..]| ensures KeepsSettings(next, actions[1..][k]) {
        assert KeepsSettings(s, actions[k + 1]);
      }
      StuckStaysStuck(next, actions[1..]);
    }
  }

  // The way out: a call that changes a setting replaces an ended worker, stuck or not, by one
  // that opens with the new settings.
  lemma ChangedSettingsReplaceEndedWorker(s: Source, settings: Settings)
    requires Valid(s) && s.phase == Idle && Held(s).at == Exited && settings != s.configured
    ensures var last := Run(s, [Update(Some(settings)), OwnerStep(true), OwnerStep(true)]);
      && |last.workers| == |s.workers| + 1 && last.phase == Idle && !last.shutdownBlocked
      && last.configured == settings && Holding(last) && Held(last) == Spawned(settings, true)
  {
    var step := OwnerStep(true);
    var actions := [Update(Some(settings)), step, step];
    var one := Apply(s, actions[0]);
    var two := Apply(one, step);
    var three := Apply(two, step);
    assert actions[1..] == [step, step] && actions[1..][1..] == [step] && actions[1..][1..][1..] == [];
    assert Run(s, actions) == three by {
      assert Run(three, []) == three;
      assert Run(two, [step]) == three;
      assert Run(one, actions[1..]) == three;
    }
  }

  // A stuck camera comes back by an action sequence if and only if a setting changes in it; the
  // shortest one is the change followed by its own shutdown.
  lemma StuckRecoversExactlyByChange(s: Source, settings: Settings)
    requires Valid(s) && Stuck(s) && settings != s.configured
    ensures forall actions :: |Run(s, actions).workers| > |s.workers| ==> !AllKeepSettings(s, actions)
    ensures exists actions :: !AllKeepSettings(s, actions) && |Run(s, actions).workers| == |s.workers| + 1
  {
    forall actions | AllKeepSettings(s, actions) ensures |Run(s, actions).workers| == |s.workers| {
      StuckStaysStuck(s, actions);
    }
    ChangedSettingsReplaceEndedWorker(s, settings);
    var change := [Update(Some(settings)), OwnerStep(true), OwnerStep(true)];
    assert !KeepsSettings(s, change[0]);
  }

  function Renders(format: VideoFormat, count: nat): seq<Action> {
    seq(count, i => Render(format))
  }

  // A lost worker whose reopening is not blocked is left alone for as many renders as the countdown
  // still says, at most fifteen, and the last of them starts the replacement.
  lemma {:induction false} CountdownIsExact(s: Source, count: nat)
    requires Valid(s) && s.phase == Idle && !s.shutdownBlocked && StateOf(Held(s)) == Lost && count <= s.retryCountdown
    ensures s.retryCountdown <= 15
    ensures var last := Run(s, Renders(s.configured.format, count));
      && |last.workers| == |s.workers| && last.workers[..|s.workers| - 1] == s.workers[..|s.workers| - 1]
      && (count < s.retryCountdown ==> last == s.(retryCountdown := s.retryCountdown - count))
      && (count == s.retryCountdown ==> (last.phase.Grace? || last.phase.Joining?) && last.retryCountdown == 15)
    decreases count
  {
    var renders := Renders(s.configured.format, count);
    if count > 0 {
      assert renders[1..] == Renders(s.configured.format, count - 1);
      var next := Apply(s, renders[0]);
      if s.retryCountdown > 1 {
        assert next == s.(retryCountdown := s.retryCountdown - 1);
        CountdownIsExact(next, count - 1);
      } else {
        assert Run(next, renders[1..]) == next;
      }
    }
  }

  // Renders count a lost worker down and then replace it.
  lemma {:induction false} LostWorkerIsReplaced(s: Source) returns (actions: seq<Action>)
    requires Valid(s) && s.phase == Idle && Held(s).at == Exited && StateOf(Held(s)) == Lost
    ensures AllKeepSettings(s, actions) && |Run(s, actions).workers| == |s.workers| + 1
    decreases s.retryCountdown
  {
    var render := Render(s.configured.format);
    var next := Apply(s, render);
    ApplyKeepsValid(s, render);
    if s.shutdownBlocked || s.retryCountdown == 1 {
      actions := [render, OwnerStep(true), OwnerStep(true)];
      var two := Apply(next, OwnerStep(true));
      var three := Apply(two, OwnerStep(true));
      assert actions[1..] == [OwnerStep(true), OwnerStep(true)] && actions[1..][1..] == [OwnerStep(true)] && actions[1..][1..][1..] == [];
      assert Run(s, actions) == three by {
        assert Run(three, []) == three;
        assert Run(two, [OwnerStep(true)]) == three;
        assert Run(next, actions[1..]) == three;
      }
    } else {
      var rest := LostWorkerIsReplaced(next);
      actions := [render] + rest;
      assert actions[1..] == rest;
      forall k | 0 <= k < |actions| ensures KeepsSettings(s, actions[k]) {
        if k > 0 { assert KeepsSettings(next, rest[k - 1]); }
      }
    }
  }

  // A camera whose worker has ended comes back without a settings change exactly when the
  // worker is seen as lost. A denied one, or one that panicked, needs the change.
  lemma RenderingRecoversExactlyTheLost(s: Source)
    requires Valid(s) && s.phase == Idle && Held(s).at == Exited
    ensures (exists actions :: AllKeepSettings(s, actions) && |Run(s, actions).workers| > |s.workers|)
       <==> StateOf(Held(s)) == Lost
  {
    if StateOf(Held(s)) == Lost {
      var actions := LostWorkerIsReplaced(s);
      assert AllKeepSettings(s, actions);
    } else {
      forall actions | AllKeepSettings(s, actions) ensures |Run(s, actions).workers| == |s.workers| {
        StuckStaysStuck(s, actions);
      }
    }
  }

  // ---- How often the camera is opened -------------------------------------------------------

  function SettingsChanges(s: Source, actions: seq<Action>): nat
    decreases actions
  {
    if actions == [] then 0
    else (if s.phase == Idle && !KeepsSettings(s, actions[0]) then 1 else 0) + SettingsChanges(Apply(s, actions[0]), actions[1..])
  }

  function RendersBegun(s: Source, actions: seq<Action>): nat
    decreases actions
  {
    if actions == [] then 0
    else (if s.phase == Idle && actions[0].Render? then 1 else 0) + RendersBegun(Apply(s, actions[0]), actions[1..])
  }

  function Pending(s: Source): nat {
    if s.shutdownBlocked || s.phase.Grace? || s.phase.Joining? then 1 else 0
  }

  function Reserved(s: Source): nat {
    if s.phase == Matching || ((s.phase.Grace? || s.phase.Joining?) && s.phase.after == ResumeRender) then 1 else 0
  }

  function Effort(s: Source): int {
    CAMERA_RETRY_FRAMES * (|s.workers| + Pending(s)) + CAMERA_RETRY_FRAMES - s.retryCountdown + Reserved(s)
  }

  lemma EffortPerAction(s: Source, action: Action)
    requires Valid(s)
    ensures Effort(Apply(s, action)) <= Effort(s)
      + (if s.phase == Idle && !KeepsSettings(s, action) then CAMERA_RETRY_FRAMES else 0)
      + (if s.phase == Idle && action.Render? then 1 else 0)
  {
    hide WorkerStep, Sound;
  }

  lemma {:induction false} EffortPerRun(s: Source, actions: seq<Action>)
    requires Valid(s)
    ensures Effort(Run(s, actions)) <= Effort(s) + CAMERA_RETRY_FRAMES * SettingsChanges(s, actions) + RendersBegun(s, actions)
    decreases actions
  {
    if actions != [] {
      ApplyKeepsValid(s, actions[0]);
      EffortPerAction(s, actions[0]);
      hide Apply, Effort, Valid, KeepsSettings;
      EffortPerRun(Apply(s, actions[0]), actions[1..]);
    }
  }

  // Workers opened: the first, one for each change of settings, and one for every fifteen renders.
  lemma OpensAreRationed(settings: Settings, started: bool, actions: seq<Action>)
    ensures var s := Created(settings, started);
      |Run(s, actions).workers| <= 1 + SettingsChanges(s, actions) + RendersBegun(s, actions) / CAMERA_RETRY_FRAMES
  {
    var s := Created(settings, started);
    CreatedIsValid(settings, started);
    RunKeepsValid(s, actions);
    EffortPerRun(s, actions);
  }
}
