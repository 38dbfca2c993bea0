// A capture session that opens its device on background threads, one per attempt, as
// interleaved steps (crates/obs-rs-capture/src/lifecycle.rs).
module AsyncCapture {
  import opened Results

  datatype Lifecycle = Opening | Ready | Lost | Retrying | Denied

  // What an opener hands over: its device, or an error that may be a permission denial.
  datatype Outcome = Opened | Refused(denied: bool)

  // Where one opener thread stands.
  datatype Place =
    | OpenDevice | CheckOpened | StartDevice | CheckStarted
    | CheckBeforeSend(result: Outcome) | Send(result: Outcome) | Ended(panicked: bool)

  // One attempt: its cancellation token, its thread and its one-slot channel.
  datatype Opener = Opener(cancelled: bool, place: Place, slot: Option<Outcome>)

  datatype Event = Succeeds | Fails(denied: bool) | Panics

  const FRESH := Opener(false, OpenDevice, None)

  // The device of a session: adopted ready-made, or received from an attempt.
  datatype Origin = Adopted | From(attempt: nat)

  // `current` is the attempt that the session listens to; an adopted session has none.
  datatype Session = Session(
    state: Lifecycle, device: Option<Origin>, openers: seq<Opener>, current: Option<nat>, dropped: bool)

  datatype Action = PollFrame(answer: Event) | Retry | Drop | StepOpener(i: nat, event: Event)

  datatype Reply = Frame | NothingYet | Failed(denied: bool) | AlreadyRunning | Done | Silent

  function OpenSession(): Session {
    Session(Opening, None, [FRESH], Some(0), false)
  }

  function ReadySession(): Session {
    Session(Ready, Some(Adopted), [], None, false)
  }

  function OpenerStep(o: Opener, event: Event): Opener {
    match o.place
    case OpenDevice => DriverCall(o, event, CheckOpened)
    case CheckOpened => if o.cancelled then o.(place := CheckBeforeSend(Refused(false))) else o.(place := StartDevice)
    case StartDevice => DriverCall(o, event, CheckStarted)
    case CheckStarted => o.(place := CheckBeforeSend(if o.cancelled then Refused(false) else Opened))
    case CheckBeforeSend(result) => if o.cancelled then o.(place := Ended(false)) else o.(place := Send(result))
    case Send(result) => o.(slot := Some(result), place := Ended(false))
    case Ended(_) => o
  }

  function DriverCall(o: Opener, event: Event, next: Place): Opener {
    match event
    case Succeeds => o.(place := next)
    case Fails(denied) => o.(place := CheckBeforeSend(Refused(denied)))
    case Panics => o.(place := Ended(true))
  }

  function Fail(s: Session, denied: bool): (Reply, Session) {
    (Failed(denied), s.(device := None, state := if denied then Denied else Lost))
  }

  function PollDevice(s: Session, answer: Event): (Reply, Session) {
    match answer
    case Fails(denied) => Fail(s, denied)
    case _ => (Frame, s)
  }

  // The channel of the current attempt, read without waiting.
  function Receive(s: Session, answer: Event): (Reply, Session) {
    if s.current.None? || s.current.value >= |s.openers| then Fail(s, false)
    else
      var k := s.current.value;
      var opener := s.openers[k];
      var taken := s.(openers := s.openers[k := opener.(slot := None)]);
      match opener.slot
      case Some(Opened) => PollDevice(taken.(device := Some(From(k)), state := Ready), answer)
      case Some(Refused(denied)) => Fail(taken, denied)
      case None => if opener.place.Ended? then Fail(s, false) else (NothingYet, s)
  }

  function CancelCurrent(s: Session): Session {
    if s.current.Some? && s.current.value < |s.openers| then
      s.(openers := s.openers[s.current.value := s.openers[s.current.value].(cancelled := true)])
    else s
  }

  function Apply(s: Session, action: Action): (Reply, Session) {
    match action
    case PollFrame(answer) =>
      if s.dropped then (Silent, s)
      else
        (match s.state
         case Opening => Receive(s, answer)
         case Retrying => Receive(s, answer)
         case Ready => PollDevice(s, answer)
         case Lost => (Failed(false), s)
         case Denied => (Failed(true), s))
    case Retry =>
      if s.dropped then (Silent, s)
      else if s.state != Lost then (AlreadyRunning, s)
      else
        var c := CancelCurrent(s);
        (Done, c.(device := None, openers := c.openers + [FRESH], current := Some(|c.openers|), state := Retrying))
    case Drop => (Silent, CancelCurrent(s).(dropped := true))
    case StepOpener(i, event) =>
      (Silent, if i < |s.openers| then s.(openers := s.openers[i := OpenerStep(s.openers[i], event)]) else s)
  }

  function Run(s: Session, actions: seq<Action>): Session
    decreases actions
  {
    if actions == [] then s else Run(Apply(s, actions[0]).1, actions[1..])
  }

  // ---- What every interleaving keeps -----------------------------------------------------------

  // A thread that ended without a panic and without being cancelled has sent its result, and
  // only the session takes it.
  predicate OpenerSound(o: Opener, heard: bool) {
    && (o.slot.Some? ==> o.place == Ended(false))
    && (o.place == Ended(false) && !o.cancelled && !heard ==> o.slot.Some?)
  }

  // The session listens to the newest attempt; every older one is cancelled.
  predicate Valid(s: Session) {
    && (s.device.Some? <==> s.state == Ready)
    && (s.current == if s.openers == [] then None else Some(|s.openers| - 1))
    && (s.openers == [] ==> s.state != Opening && s.state != Retrying)
    && (forall i :: 0 <= i < |s.openers| - 1 ==> s.openers[i].cancelled)
    && (s.openers != [] && !s.dropped ==> !s.openers[|s.openers| - 1].cancelled)
    && (s.openers != [] ==> OpenerSound(s.openers[|s.openers| - 1], s.state != Opening && s.state != Retrying))
    && (s.device.Some? ==> s.device.value == if s.openers == [] then Adopted else From(|s.openers| - 1))
  }

  lemma PollKeepsValid(s: Session, answer: Event)
    requires Valid(s)
    ensures Valid(Apply(s, PollFrame(answer)).1)
  {
  }

  lemma OpenerKeepsValid(s: Session, i: nat, event: Event)
    requires Valid(s)
    ensures Valid(Apply(s, StepOpener(i, event)).1)
  {
  }

  lemma ApplyKeepsValid(s: Session, action: Action)
    requires Valid(s)
    ensures Valid(Apply(s, action).1)
  {
    match action
    case PollFrame(answer) => PollKeepsValid(s, answer);
    case StepOpener(i, event) => OpenerKeepsValid(s, i, event);
    case _ => hide OpenerStep, Receive, PollDevice;
  }

  lemma {:induction false} RunKeepsValid(s: Session, actions: seq<Action>)
    requires Valid(s)
    ensures Valid(Run(s, actions))
    decreases actions
  {
    if actions != [] {
      ApplyKeepsValid(s, actions[0]);
      hide Apply, Valid;
      RunKeepsValid(Apply(s, actions[0]).1, actions[1..]);
    }
  }

  // ---- The promises ----------------------------------------------------------------------------

  // A device is held exactly while the session is ready, and it is the newest attempt's:
  // a superseded opener is never adopted.
  lemma DeviceIsTheNewestAttempts(adopted: bool, actions: seq<Action>)
    ensures var s := Run(if adopted then ReadySession() else OpenSession(), actions);
      && (s.device.Some? <==> s.state == Ready)
      && (forall i :: s.device == Some(From(i)) ==> i == |s.openers| - 1)
      && (forall i :: 0 <= i < |s.openers| - 1 ==> s.openers[i].cancelled)
  {
    RunKeepsValid(if adopted then ReadySession() else OpenSession(), actions);
  }

  // An opener "stopped without a result" exactly when it panicked.
  lemma SilentEndMeansPanic(adopted: bool, actions: seq<Action>)
    ensures var s := Run(if adopted then ReadySession() else OpenSession(), actions);
      !s.dropped && (s.state == Opening || s.state == Retrying) ==>
        && s.current.Some? && s.current.value < |s.openers|
        && var o := s.openers[s.current.value];
           o.place.Ended? && o.slot.None? <==> o.place == Ended(true)
  {
    RunKeepsValid(if adopted then ReadySession() else OpenSession(), actions);
  }

  // What the newest attempt is about to report, once its driver has refused.
  predicate HoldsRefusal(o: Opener, denied: bool) {
    o.place == CheckBeforeSend(Refused(denied)) || o.place == Send(Refused(denied)) || o.slot == Some(Refused(denied))
  }

  predicate Waiting(s: Session) {
    !s.dropped && (s.state == Opening || s.state == Retrying) && s.openers != []
  }

  function Newest(s: Session): Opener
    requires s.openers != []
  {
    s.openers[|s.openers| - 1]
  }

  // A permission denial, or any other failure, that a driver answers to the newest attempt reaches
  // the session as just that: the opener hands it over in two steps, and the poll after them
  // ends the session as denied, or as lost.
  lemma RefusalIsReported(s: Session, denied: bool, e1: Event, e2: Event, answer: Event)
    requires Valid(s) && Waiting(s) && (Newest(s).place == OpenDevice || Newest(s).place == StartDevice)
    ensures var n := |s.openers| - 1;
      var sent := Apply(Apply(Apply(s, StepOpener(n, Fails(denied))).1, StepOpener(n, e1)).1, StepOpener(n, e2)).1;
      var (reply, last) := Apply(sent, PollFrame(answer));
      reply == Failed(denied) && last.state == (if denied then Denied else Lost) && last.device.None?
  {
    var n := |s.openers| - 1;
    var o := Newest(s);
    var one, two := o.(place := CheckBeforeSend(Refused(denied))), o.(place := Send(Refused(denied)));
    var three := o.(place := Ended(false), slot := Some(Refused(denied)));
    assert OpenerStep(o, Fails(denied)) == one && OpenerStep(one, e1) == two && OpenerStep(two, e2) == three;
    hide OpenerStep;
    assert s.openers[n := one][n := two][n := three] == s.openers[n := three];
  }

  // A device that answers a poll with a failure is given up, as denied or as lost.
  lemma FailedPollIsReported(s: Session, denied: bool)
    requires Valid(s) && !s.dropped && s.state == Ready
    ensures var (reply, next) := Apply(s, PollFrame(Fails(denied)));
      reply == Failed(denied) && next.state == (if denied then Denied else Lost) && next.device.None?
  {
  }

  // Some driver answered with a permission denial: an opener of the newest attempt, or the device.
  predicate WasRefused(s: Session, actions: seq<Action>)
    decreases actions
  {
    && actions != []
    && (IsDenial(s, actions[0]) || WasRefused(Apply(s, actions[0]).1, actions[1..]))
  }

  predicate IsDenial(s: Session, action: Action) {
    match action
    case StepOpener(i, event) =>
      i < |s.openers| && (s.openers[i].place == OpenDevice || s.openers[i].place == StartDevice) && event == Fails(true)
    case PollFrame(answer) => !s.dropped && s.state != Lost && answer == Fails(true)
    case _ => false
  }

  // No attempt holds a denial, and none was seen.
  predicate Undenied(s: Session) {
    s.state != Denied && forall i :: 0 <= i < |s.openers| ==> !HoldsRefusal(s.openers[i], true)
  }

  lemma StaysUndenied(s: Session, action: Action)
    requires Undenied(s) && !IsDenial(s, action)
    ensures Undenied(Apply(s, action).1)
  {
  }

  // Over any run from its start, a session is only seen as denied if some driver refused permission.
  lemma {:induction false} DenialHasACause(s: Session, actions: seq<Action>)
    requires Undenied(s) && !WasRefused(s, actions)
    ensures Run(s, actions).state != Denied
    decreases actions
  {
    if actions != [] {
      StaysUndenied(s, actions[0]);
      hide Apply, Undenied, IsDenial;
      DenialHasACause(Apply(s, actions[0]).1, actions[1..]);
    }
  }

  lemma SessionsStartUndenied()
    ensures Undenied(OpenSession()) && Undenied(ReadySession())
  {
  }

  // Denial is final: nothing but a new session leaves it, and no opener is started any more.
  lemma {:induction false} DenialIsFinal(s: Session, actions: seq<Action>)
    requires s.state == Denied
    ensures Run(s, actions).state == Denied && |Run(s, actions).openers| == |s.openers|
    decreases actions
  {
    if actions != [] {
      DenialIsFinal(Apply(s, actions[0]).1, actions[1..]);
    }
  }

  // One step of the two run lemmas below: a new attempt is started exactly by a retry of a lost
  // session.
  lemma AttemptsComeFromLoss(s: Session, action: Action)
    ensures |Apply(s, action).1.openers| == |s.openers| + if action.Retry? && s.state == Lost && !s.dropped then 1 else 0
    ensures s.state != Apply(s, action).1.state ==>
      match Apply(s, action).1.state
      case Opening => false
      case Retrying => s.state == Lost && action.Retry?
      case Ready => s.state == Opening || s.state == Retrying
      case Lost => s.state != Denied
      case Denied => s.state != Lost
  {
  }

  // The retries of a run that found the session lost.
  function RetriesOfLoss(s: Session, actions: seq<Action>): nat
    decreases actions
  {
    if actions == [] then 0
    else (if actions[0].Retry? && s.state == Lost && !s.dropped then 1 else 0) + RetriesOfLoss(Apply(s, actions[0]).1, actions[1..])
  }

  // The times that a run found the session failing: each loss can be retried once.
  function Losses(s: Session, actions: seq<Action>): nat
    decreases actions
  {
    if actions == [] then 0
    else
      var next := Apply(s, actions[0]).1;
      (if s.state != Lost && next.state == Lost then 1 else 0) + Losses(next, actions[1..])
  }

  // Over any run the attempts are the first one and one for each retry of a loss, and no loss
  // is retried twice.
  lemma {:induction false} AttemptsAreRetriesOfLosses(s: Session, actions: seq<Action>)
    ensures |Run(s, actions).openers| == |s.openers| + RetriesOfLoss(s, actions)
    ensures RetriesOfLoss(s, actions) + (if Run(s, actions).state == Lost then 1 else 0)
         <= Losses(s, actions) + (if s.state == Lost then 1 else 0)
    decreases actions
  {
    if actions != [] {
      AttemptsComeFromLoss(s, actions[0]);
      hide Apply;
      AttemptsAreRetriesOfLosses(Apply(s, actions[0]).1, actions[1..]);
    }
  }

  ghost predicate CanReach(s: Session, state: Lifecycle) {
    exists actions :: Run(s, actions).state == state
  }

  lemma AlreadyThere(s: Session)
    ensures CanReach(s, s.state)
  {
    assert Run(s, []) == s;
  }

  lemma OneStepFurther(s: Session, action: Action, state: Lifecycle)
    requires CanReach(Apply(s, action).1, state)
    ensures CanReach(s, state)
  {
    hide Apply;
    var rest :| Run(Apply(s, action).1, rest).state == state;
    assert ([action] + rest)[0] == action && ([action] + rest)[1..] == rest;
    assert Run(s, [action] + rest).state == state;
  }

  // The newest attempt, with its opener at a given place.
  function Attempt(s: Session, opener: Opener): Session
    requires s.openers != []
  {
    s.(openers := s.openers[|s.openers| - 1 := opener])
  }

  // An opener that succeeds at every step brings the session up.
  lemma {:induction false} OpenerBringsUp(s: Session, opener: Opener, steps: nat)
    requires Valid(s) && s.state == Retrying && !s.dropped
    requires !opener.cancelled && (opener.slot.Some? ==> steps == 0)
    requires match steps
      case 0 => opener == Opener(false, Ended(false), Some(Opened))
      case 1 => opener.place == Send(Opened)
      case 2 => opener.place == CheckBeforeSend(Opened)
      case 3 => opener.place == CheckStarted
      case 4 => opener.place == StartDevice
      case 5 => opener.place == CheckOpened
      case 6 => opener.place == OpenDevice
      case _ => false
    ensures CanReach(Attempt(s, opener), Ready)
    decreases steps
  {
    var n, at := |s.openers| - 1, Attempt(s, opener);
    if steps == 0 {
      var last := Apply(at, PollFrame(Succeeds)).1;
      assert last.state == Ready;
      AlreadyThere(last);
      hide CanReach;
      OneStepFurther(at, PollFrame(Succeeds), Ready);
    } else {
      var next := OpenerStep(opener, Succeeds);
      hide CanReach, Valid;
      OpenerBringsUp(s, next, steps - 1);
      assert s.openers[n := opener][n := next] == s.openers[n := next];
      assert Apply(at, StepOpener(n, Succeeds)).1 == Attempt(s, next);
      OneStepFurther(at, StepOpener(n, Succeeds), Ready);
    }
  }

  // A lost session can always come back: retry, let the opener finish, poll.
  lemma LostSessionsCanRecover(s: Session)
    requires Valid(s) && s.state == Lost && !s.dropped
    ensures CanReach(s, Ready)
  {
    var retried := Apply(s, Retry).1;
    ApplyKeepsValid(s, Retry);
    assert Attempt(retried, FRESH) == retried;
    hide CanReach, Valid;
    OpenerBringsUp(retried, FRESH, 6);
    OneStepFurther(s, Retry, Ready);
  }
}
