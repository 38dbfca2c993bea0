// The monitoring-output worker: many submitters and one device thread share a bounded
// channel and an atomic counter, as interleaved steps
// (crates/obs-rs-audio/src/output_worker.rs).
module OutputWorker {
  // A submitted block, by identity.
  type Block = nat

  // Where one `try_write` stands: past its cancellation check, past its increment, after a
  // failed send, and before counting the drop.
  datatype Submitter = Resting | Checked(block: Block) | Counted(block: Block) | RollingBack | CountingDrop

  datatype WorkerState = Starting | Running | Failed | Stopped

  // Where the device thread stands. `hand` is the block it has received.
  datatype Place =
    | Start | StoreEarlyStop | OpenOutput | Receive | CheckTimeout
    | Decrement(hand: Block) | CheckTaken(hand: Block) | WriteBlock(hand: Block) | StoreRunning
    | StoreFailed(stopFirst: bool) | StopFailed | StopOutput | StoreStopped
    | Drain | DrainDecrement
    | DropReceiver(unwinding: bool) | Gone(unwinding: bool)

  // What the device, the clock and the channel answer.
  datatype Event = Succeeds | Fails | Mismatches | TimesOut | HangsUp | Panics

  // `accepted`, `taken`, `written`, `stranded` and `tries` record the history; `queued` and
  // `dropped` are the shared counters.
  datatype System = System(
    capacity: nat, channel: seq<Block>, connected: bool, cancelled: bool,
    queued: int, dropped: nat, state: WorkerState,
    submitters: seq<Submitter>, place: Place,
    tries: nat, accepted: seq<Block>, taken: seq<Block>, written: seq<Block>, stranded: seq<Block>)

  datatype Action =
    | AddSubmitter
    | TryWrite(i: nat, block: Block)
    | StepSubmitter(i: nat)
    | Cancel
    | StepWorker(event: Event)

  function Spawned(capacity: nat): System
    requires capacity > 0
  {
    System(capacity, [], true, false, 0, 0, Starting, [], Start, 0, [], [], [], [])
  }

  function SubmitterStep(s: System, i: nat): System
    requires i < |s.submitters|
  {
    match s.submitters[i]
    case Resting => s
    case Checked(block) => s.(queued := s.queued + 1, submitters := s.submitters[i := Counted(block)])
    case Counted(block) =>
      if s.connected && |s.channel| < s.capacity then
        s.(channel := s.channel + [block], accepted := s.accepted + [block], submitters := s.submitters[i := Resting])
      else s.(submitters := s.submitters[i := RollingBack])
    case RollingBack => s.(queued := s.queued - 1, submitters := s.submitters[i := CountingDrop])
    case CountingDrop => s.(dropped := s.dropped + 1, submitters := s.submitters[i := Resting])
  }

  function Took(s: System): System
    requires s.channel != []
  {
    s.(channel := s.channel[1..], taken := s.taken + [s.channel[0]])
  }

  function WorkerStep(s: System, event: Event): System {
    match s.place
    case Start => s.(place := if s.cancelled then StoreEarlyStop else OpenOutput)
    case StoreEarlyStop => s.(state := Stopped, place := DropReceiver(false))
    case OpenOutput =>
      (match event
       case Succeeds => s.(place := Receive)
       case Panics => s.(place := DropReceiver(true))
       case Mismatches => s.(place := StoreFailed(true))
       case _ => s.(place := StoreFailed(false)))
    case Receive =>
      (match event
       case Succeeds => if s.channel == [] then s else Took(s).(place := Decrement(s.channel[0]))
       case HangsUp => if s.channel == [] then s.(place := StopOutput) else s
       case _ => s.(place := CheckTimeout))
    case CheckTimeout => s.(place := if s.cancelled then StopOutput else Receive)
    case Decrement(hand) => s.(queued := s.queued - 1, place := CheckTaken(hand))
    case CheckTaken(hand) => s.(place := if s.cancelled then StopOutput else WriteBlock(hand))
    case WriteBlock(hand) =>
      (match event
       case Succeeds => s.(written := s.written + [hand], place := StoreRunning)
       case Panics => s.(place := DropReceiver(true))
       case _ => s.(place := StoreFailed(false)))
    case StoreRunning => s.(state := Running, place := Receive)
    case StoreFailed(stopFirst) => s.(state := Failed, place := if stopFirst then StopFailed else Drain)
    case StopFailed => s.(place := if event.Panics? then DropReceiver(true) else Drain)
    case StopOutput => s.(place := if event.Panics? then DropReceiver(true) else StoreStopped)
    case StoreStopped => s.(state := if s.state != Failed then Stopped else s.state, place := Drain)
    case Drain => if s.channel == [] then s.(place := DropReceiver(false)) else Took(s).(place := DrainDecrement)
    case DrainDecrement => s.(queued := s.queued - 1, place := Drain)
    case DropReceiver(unwinding) =>
      s.(channel := [], stranded := s.channel, connected := false, place := Gone(unwinding))
    case Gone(_) => s
  }

  function Apply(s: System, action: Action): System {
    match action
    case AddSubmitter => s.(submitters := s.submitters + [Resting])
    case TryWrite(i, block) =>
      if i < |s.submitters| && s.submitters[i] == Resting then
        s.(tries := s.tries + 1, submitters := s.submitters[i := if s.cancelled then CountingDrop else Checked(block)])
      else s
    case StepSubmitter(i) => if i < |s.submitters| then SubmitterStep(s, i) else s
    case Cancel => s.(cancelled := true)
    case StepWorker(event) => WorkerStep(s, event)
  }

  function Run(s: System, actions: seq<Action>): System
    decreases actions
  {
    if actions == [] then s else Run(Apply(s, actions[0]), actions[1..])
  }

  // ---- Counting submitters -----------------------------------------------------------------

  function Total(weight: Submitter -> nat, list: seq<Submitter>): nat {
    if list == [] then 0 else weight(list[0]) + Total(weight, list[1..])
  }

  lemma {:induction false} TotalReplaced(weight: Submitter -> nat, list: seq<Submitter>, i: nat, x: Submitter)
    requires i < |list|
    ensures Total(weight, list[i := x]) + weight(list[i]) == Total(weight, list) + weight(x)
  {
    if i == 0 {
      assert list[i := x][1..] == list[1..];
    } else {
      assert list[i := x][1..] == list[1..][i - 1 := x];
      TotalReplaced(weight, list[1..], i - 1, x);
    }
  }

  lemma {:induction false} TotalGrown(weight: Submitter -> nat, list: seq<Submitter>, x: Submitter)
    ensures Total(weight, list + [x]) == Total(weight, list) + weight(x)
  {
    if list == [] {
      assert list + [x] == [x];
    } else {
      assert (list + [x])[1..] == list[1..] + [x];
      TotalGrown(weight, list[1..], x);
    }
  }

  // Between the increment and the send or its rollback.
  function Counting(s: Submitter): nat { if s.Counted? || s == RollingBack then 1 else 0 }

  // Inside `try_write`.
  function Busy(s: Submitter): nat { if s == Resting then 0 else 1 }

  // ---- What every interleaving keeps --------------------------------------------------------

  function InHand(place: Place): nat { if place.Decrement? || place == DrainDecrement then 1 else 0 }

  predicate CounterExact(s: System) {
    && s.queued == |s.channel| + Total(Counting, s.submitters) + InHand(s.place) + |s.stranded|
    && s.tries == |s.accepted| + s.dropped + Total(Busy, s.submitters)
  }

  predicate ChannelExact(s: System) {
    && |s.channel| <= s.capacity
    && s.accepted == s.taken + s.channel + s.stranded
    && (s.connected <==> !s.place.Gone?)
    && (s.connected ==> s.stranded == []) && (!s.connected ==> s.channel == [])
  }

  // While the loop runs, everything taken was written, up to the block in hand.
  predicate InOrder(s: System) {
    match s.place
    case Start | StoreEarlyStop | OpenOutput | Receive | CheckTimeout | StoreRunning => s.taken == s.written
    case Decrement(hand) => s.taken == s.written + [hand]
    case CheckTaken(hand) => s.taken == s.written + [hand]
    case WriteBlock(hand) => s.taken == s.written + [hand]
    case _ => s.written <= s.taken
  }

  predicate RunningMeansWritten(s: System) {
    s.state == Running || s.place == StoreRunning ==> |s.written| > 0
  }

  // The end is published before the drain, unless the thread unwinds.
  predicate EndIsPublished(s: System) {
    match s.place
    case StopFailed | Drain | DrainDecrement => s.state == Failed || s.state == Stopped
    case DropReceiver(unwinding) => unwinding || s.state == Failed || s.state == Stopped
    case Gone(unwinding) => unwinding || s.state == Failed || s.state == Stopped
    case _ => s.state == Starting || s.state == Running
  }

  predicate Valid(s: System) {
    CounterExact(s) && ChannelExact(s) && InOrder(s) && RunningMeansWritten(s) && EndIsPublished(s)
  }

  // A submitter's step moves its own weight and nothing else.
  lemma SubmitterMovesItsWeight(s: System, i: nat)
    requires i < |s.submitters|
    ensures var next := SubmitterStep(s, i);
      && |next.submitters| == |s.submitters|
      && next.submitters == s.submitters[i := next.submitters[i]]
      && next.place == s.place && next.stranded == s.stranded && next.tries == s.tries
      && next.queued - |next.channel| - Counting(next.submitters[i]) == s.queued - |s.channel| - Counting(s.submitters[i])
      && |next.accepted| + next.dropped + Busy(next.submitters[i]) == |s.accepted| + s.dropped + Busy(s.submitters[i])
  {
  }

  lemma SubmitterKeepsCounter(s: System, i: nat)
    requires CounterExact(s) && i < |s.submitters|
    ensures CounterExact(SubmitterStep(s, i))
  {
    hide SubmitterStep, Total;
    SubmitterMovesItsWeight(s, i);
    var next := SubmitterStep(s, i);
    TotalReplaced(Counting, s.submitters, i, next.submitters[i]);
    TotalReplaced(Busy, s.submitters, i, next.submitters[i]);
  }

  lemma SubmitterKeepsChannel(s: System, i: nat)
    requires ChannelExact(s) && i < |s.submitters|
    ensures ChannelExact(SubmitterStep(s, i))
  {
    if s.submitters[i].Counted? && s.connected {
      assert s.accepted + [s.submitters[i].block] == s.taken + (s.channel + [s.submitters[i].block]) + s.stranded;
    }
  }

  lemma SubmitterLeavesWorkerAlone(s: System, i: nat)
    requires i < |s.submitters|
    ensures var next := SubmitterStep(s, i);
      next.place == s.place && next.state == s.state && next.taken == s.taken && next.written == s.written
  {
  }

  lemma SubmitterKeepsValid(s: System, i: nat)
    requires Valid(s) && i < |s.submitters|
    ensures Valid(SubmitterStep(s, i))
  {
    hide CounterExact, ChannelExact, SubmitterStep;
    SubmitterKeepsCounter(s, i);
    SubmitterKeepsChannel(s, i);
    SubmitterLeavesWorkerAlone(s, i);
  }

  lemma WorkerKeepsCounter(s: System, event: Event)
    requires CounterExact(s) && ChannelExact(s)
    ensures CounterExact(WorkerStep(s, event))
  {
    hide Total;
  }

  lemma WorkerKeepsChannel(s: System, event: Event)
    requires ChannelExact(s)
    ensures ChannelExact(WorkerStep(s, event))
  {
    if s.channel != [] {
      assert s.taken + s.channel == s.taken + [s.channel[0]] + s.channel[1..];
    }
  }

  lemma WorkerKeepsOrder(s: System, event: Event)
    requires InOrder(s)
    ensures InOrder(WorkerStep(s, event))
  {
    if s.place == Receive || s.place == Drain {
      TakingKeepsOrder(s, event);
    } else {
      hide Took;
    }
  }

  lemma TakingKeepsOrder(s: System, event: Event)
    requires InOrder(s) && (s.place == Receive || s.place == Drain)
    ensures InOrder(WorkerStep(s, event))
  {
    if s.channel != [] {
      assert s.written <= s.taken ==> s.written <= s.taken + [s.channel[0]];
    }
  }

  lemma TookMovesOne(s: System)
    requires s.channel != []
    ensures var next := Took(s);
      && next.cancelled == s.cancelled && next.submitters == s.submitters && next.accepted == s.accepted
      && next.written == s.written && next.place == s.place && next.state == s.state
  {
  }

  // Where the device loop runs.
  predicate InLoop(place: Place) {
    match place
    case Receive | CheckTimeout | StoreRunning | Decrement(_) | CheckTaken(_) | WriteBlock(_) => true
    case _ => false
  }

  lemma LoopKeepsState(s: System, event: Event)
    requires RunningMeansWritten(s) && EndIsPublished(s) && InLoop(s.place)
    ensures RunningMeansWritten(WorkerStep(s, event)) && EndIsPublished(WorkerStep(s, event))
  {
    if s.channel != [] { TookMovesOne(s); }
    hide Took;
  }

  lemma DrainKeepsState(s: System, event: Event)
    requires RunningMeansWritten(s) && EndIsPublished(s) && s.place == Drain
    ensures RunningMeansWritten(WorkerStep(s, event)) && EndIsPublished(WorkerStep(s, event))
  {
    if s.channel != [] { TookMovesOne(s); }
    hide Took;
  }

  lemma RestKeepsState(s: System, event: Event)
    requires RunningMeansWritten(s) && EndIsPublished(s) && !InLoop(s.place) && s.place != Drain
    ensures RunningMeansWritten(WorkerStep(s, event)) && EndIsPublished(WorkerStep(s, event))
  {
    hide Took;
  }

  lemma WorkerKeepsValid(s: System, event: Event)
    requires Valid(s)
    ensures Valid(WorkerStep(s, event))
  {
    hide CounterExact, ChannelExact, InOrder, RunningMeansWritten, EndIsPublished, WorkerStep;
    WorkerKeepsCounter(s, event);
    WorkerKeepsChannel(s, event);
    WorkerKeepsOrder(s, event);
    if InLoop(s.place) {
      LoopKeepsState(s, event);
    } else if s.place == Drain {
      DrainKeepsState(s, event);
    } else {
      RestKeepsState(s, event);
    }
  }

  lemma NewSubmitterKeepsValid(s: System)
    requires Valid(s)
    ensures Valid(Apply(s, AddSubmitter))
  {
    TotalGrown(Counting, s.submitters, Resting);
    TotalGrown(Busy, s.submitters, Resting);
    hide Total;
  }

  lemma TryWriteKeepsValid(s: System, i: nat, block: Block)
    requires Valid(s)
    ensures Valid(Apply(s, TryWrite(i, block)))
  {
    hide Total;
    if i < |s.submitters| {
      TotalReplaced(Counting, s.submitters, i, if s.cancelled then CountingDrop else Checked(block));
      TotalReplaced(Busy, s.submitters, i, if s.cancelled then CountingDrop else Checked(block));
    }
  }

  lemma CancelKeepsValid(s: System)
    requires Valid(s)
    ensures Valid(Apply(s, Cancel))
  {
    hide Total;
  }

  lemma ApplyKeepsValid(s: System, action: Action)
    requires Valid(s)
    ensures Valid(Apply(s, action))
  {
    hide Valid, SubmitterStep, WorkerStep;
    match action
    case AddSubmitter => NewSubmitterKeepsValid(s);
    case TryWrite(i, block) => TryWriteKeepsValid(s, i, block);
    case StepSubmitter(i) => if i < |s.submitters| { SubmitterKeepsValid(s, i); }
    case Cancel => CancelKeepsValid(s);
    case StepWorker(event) => WorkerKeepsValid(s, event);
  }

  lemma {:induction false} RunKeepsValid(s: System, actions: seq<Action>)
    requires Valid(s)
    ensures Valid(Run(s, actions))
    decreases actions
  {
    if actions != [] {
      ApplyKeepsValid(s, actions[0]);
      hide Apply, Valid;
      RunKeepsValid(Apply(s, actions[0]), actions[1..]);
    }
  }

  lemma SpawnedReaches(capacity: nat, actions: seq<Action>)
    requires capacity > 0
    ensures Valid(Run(Spawned(capacity), actions))
  {
    RunKeepsValid(Spawned(capacity), actions);
  }

  // ---- The promises --------------------------------------------------------------------------

  // The counter is the channel, plus the calls between increment and send or rollback, plus
  // the block between receive and decrement, plus the stranded blocks. It never wraps.
  lemma CounterNeverWraps(capacity: nat, actions: seq<Action>)
    requires capacity > 0
    ensures var s := Run(Spawned(capacity), actions);
      && s.queued == |s.channel| + Total(Counting, s.submitters) + InHand(s.place) + |s.stranded|
      && s.queued >= 0 && |s.channel| <= s.capacity
  {
    SpawnedReaches(capacity, actions);
  }

  // No `try_write` is running.
  predicate AtRest(s: System) {
    forall i :: 0 <= i < |s.submitters| ==> s.submitters[i] == Resting
  }

  // Every finished call was either accepted or counted as dropped.
  lemma EveryTryIsAccountedFor(capacity: nat, actions: seq<Action>)
    requires capacity > 0
    ensures var s := Run(Spawned(capacity), actions);
      && s.tries == |s.accepted| + s.dropped + Total(Busy, s.submitters)
      && (AtRest(s) ==> s.tries == |s.accepted| + s.dropped)
  {
    SpawnedReaches(capacity, actions);
    var s := Run(Spawned(capacity), actions);
    if AtRest(s) {
      RestingWeighsNothing(s.submitters);
    }
  }

  lemma {:induction false} RestingWeighsNothing(list: seq<Submitter>)
    requires forall i :: 0 <= i < |list| ==> list[i] == Resting
    ensures Total(Busy, list) == 0 && Total(Counting, list) == 0
  {
    if list != [] {
      RestingWeighsNothing(list[1..]);
    }
  }

  // The device gets the accepted blocks in order, without gaps, from the first one on.
  lemma WrittenIsAPrefixOfAccepted(capacity: nat, actions: seq<Action>)
    requires capacity > 0
    ensures Run(Spawned(capacity), actions).written <= Run(Spawned(capacity), actions).accepted
  {
    SpawnedReaches(capacity, actions);
    var s := Run(Spawned(capacity), actions);
    assert s.written <= s.taken;
    assert s.accepted == s.taken + (s.channel + s.stranded);
  }

  // The thread is gone for good, what it stranded stays stranded, and nothing is accepted any more.
  lemma {:induction false} GoneIsForEver(s: System, actions: seq<Action>)
    requires Valid(s) && s.place.Gone?
    ensures var last := Run(s, actions);
      && Valid(last) && last.place == s.place && last.stranded == s.stranded
      && last.accepted == s.accepted && last.written == s.written
    decreases actions
  {
    if actions != [] {
      ApplyKeepsValid(s, actions[0]);
      GoneForOneStep(s, actions[0]);
      hide Apply, Valid;
      GoneIsForEver(Apply(s, actions[0]), actions[1..]);
    }
  }

  lemma GoneForOneStep(s: System, action: Action)
    requires s.place.Gone? && !s.connected
    ensures var next := Apply(s, action);
      next.place == s.place && next.stranded == s.stranded && next.accepted == s.accepted && next.written == s.written
  {
  }

  // With the thread gone and every call returned, the counter is the number of stranded blocks.
  lemma CounterAtRest(s: System)
    requires Valid(s) && s.place.Gone? && AtRest(s)
    ensures s.queued == |s.stranded|
  {
    RestingWeighsNothing(s.submitters);
  }

  // Whatever calls are in flight when the receiver is dropped, and whatever happens after it:
  // the channel's blocks stay counted, and once every call has returned the counter shows
  // exactly them. So it is back at zero exactly when the channel was empty at the drop.
  lemma CounterSettlesExactlyWhenNothingIsStranded(capacity: nat, actions: seq<Action>, event: Event, later: seq<Action>)
    requires capacity > 0 && Run(Spawned(capacity), actions).place.DropReceiver?
    ensures var channel := Run(Spawned(capacity), actions).channel;
      var last := Run(Apply(Run(Spawned(capacity), actions), StepWorker(event)), later);
      && last.stranded == channel && last.queued >= |channel|
      && (AtRest(last) ==> last.queued == |channel|)
      && (AtRest(last) ==> (last.queued == 0 <==> channel == []))
  {
    SpawnedReaches(capacity, actions);
    var s := Run(Spawned(capacity), actions);
    var dropped := Apply(s, StepWorker(event));
    ApplyKeepsValid(s, StepWorker(event));
    assert dropped.place.Gone? && dropped.stranded == s.channel;
    GoneIsForEver(dropped, later);
    var last := Run(dropped, later);
    assert CounterExact(last) && ChannelExact(last);
    if AtRest(last) {
      CounterAtRest(last);
    }
  }

  ghost predicate Reachable(s: System) {
    exists capacity: nat, actions :: capacity > 0 && Run(Spawned(capacity), actions) == s
  }

  lemma SpawnedIsReachable(capacity: nat)
    requires capacity > 0
    ensures Reachable(Spawned(capacity))
  {
    assert Run(Spawned(capacity), []) == Spawned(capacity);
  }

  lemma StepIsReachable(s: System, action: Action)
    requires Reachable(s)
    ensures Reachable(Apply(s, action))
  {
    hide Apply, Spawned;
    var capacity: nat, actions :| capacity > 0 && Run(Spawned(capacity), actions) == s;
    RunOneMore(Spawned(capacity), actions, action);
  }

  lemma {:induction false} RunOneMore(s: System, actions: seq<Action>, action: Action)
    ensures Run(s, actions + [action]) == Apply(Run(s, actions), action)
    decreases actions
  {
    hide Apply;
    if actions == [] {
      assert Run(s, [action]) == Run(Apply(s, action), [action][1..]);
      assert actions + [action] == [action];
    } else {
      assert (actions + [action])[0] == actions[0] && (actions + [action])[1..] == actions[1..] + [action];
      RunOneMore(Apply(s, actions[0]), actions[1..], action);
    }
  }

  // A device that fails to open takes the worker to its drain with a submitter at hand.
  lemma FailedOpenDrains() returns (s: System)
    ensures Reachable(s) && s == Spawned(1).(submitters := [Resting], state := Failed, place := Drain)
  {
    hide Reachable;
    SpawnedIsReachable(1);
    s := Spawned(1);
    StepIsReachable(s, AddSubmitter);
    assert s.submitters + [Resting] == [Resting];
    s := s.(submitters := [Resting]);
    StepIsReachable(s, StepWorker(Succeeds));
    s := s.(place := OpenOutput);
    StepIsReachable(s, StepWorker(Fails));
    s := s.(place := StoreFailed(false));
    StepIsReachable(s, StepWorker(Succeeds));
    s := s.(state := Failed, place := Drain);
  }

  // A block sent after the last drain check and before the drop of the receiver is accepted,
  // although the worker has failed, and stays counted for ever.
  lemma StrandedExample() returns (s: System)
    ensures Reachable(s) && s.place == Gone(false) && s.submitters == [Resting]
    ensures s.accepted == s.stranded == [7] && s.queued == 1
    ensures forall later :: Run(s, later).stranded == [7] && Run(s, later).queued >= 1
  {
    hide Reachable;
    s := FailedOpenDrains();
    StepIsReachable(s, TryWrite(0, 7));
    assert s.submitters[0 := Checked(7)] == [Checked(7)];
    s := s.(tries := 1, submitters := [Checked(7)]);
    StepIsReachable(s, StepSubmitter(0));
    assert s.submitters[0 := Counted(7)] == [Counted(7)];
    s := s.(queued := 1, submitters := [Counted(7)]);
    StepIsReachable(s, StepWorker(Succeeds));
    s := s.(place := DropReceiver(false));
    StepIsReachable(s, StepSubmitter(0));
    assert s.submitters[0 := Resting] == [Resting] && s.channel + [7] == [7] && s.accepted + [7] == [7];
    s := s.(channel := [7], accepted := [7], submitters := [Resting]);
    StepIsReachable(s, StepWorker(Succeeds));
    s := s.(channel := [], stranded := [7], connected := false, place := Gone(false));
    StrandedStaysCounted(s);
  }

  lemma ReachableIsValid(s: System)
    requires Reachable(s)
    ensures Valid(s)
  {
    hide Valid;
    var capacity: nat, actions :| capacity > 0 && Run(Spawned(capacity), actions) == s;
    SpawnedReaches(capacity, actions);
  }

  // Nothing that happens later takes a stranded block out of the counter.
  lemma StrandedStaysCounted(s: System)
    requires Reachable(s) && s.place.Gone?
    ensures forall later :: Run(s, later).stranded == s.stranded && Run(s, later).queued >= |s.stranded|
  {
    hide Reachable;
    ReachableIsValid(s);
    forall later ensures Run(s, later).stranded == s.stranded && Run(s, later).queued >= |s.stranded| {
      GoneIsForEver(s, later);
    }
  }

  // ---- Who is accepted, and what is delivered ---------------------------------------------------

  // A call of submitter `i` by itself: its start and the steps it can take at most.
  function Call(i: nat, block: Block): seq<Action> {
    [TryWrite(i, block), StepSubmitter(i), StepSubmitter(i), StepSubmitter(i), StepSubmitter(i)]
  }

  function Calls(list: seq<(nat, Block)>): seq<Action> {
    if list == [] then [] else Call(list[0].0, list[0].1) + Calls(list[1..])
  }

  function Blocks(list: seq<(nat, Block)>): (blocks: seq<Block>)
    ensures |blocks| == |list|
  {
    if list == [] then [] else [list[0].1] + Blocks(list[1..])
  }

  lemma {:induction false} RunTwice(s: System, first: seq<Action>, second: seq<Action>)
    ensures Run(s, first + second) == Run(Run(s, first), second)
    decreases first
  {
    hide Apply;
    if first == [] {
      assert first + second == second;
    } else {
      assert (first + second)[0] == first[0] && (first + second)[1..] == first[1..] + second;
      RunTwice(Apply(s, first[0]), first[1..], second);
    }
  }

  lemma RunFirst(s: System, action: Action, rest: seq<Action>)
    ensures Run(s, [action] + rest) == Run(Apply(s, action), rest)
  {
    hide Apply;
    assert ([action] + rest)[1..] == rest;
  }

  lemma RunOfCall(s: System, i: nat, block: Block)
    ensures var step := StepSubmitter(i);
      Run(s, Call(i, block)) == Apply(Apply(Apply(Apply(Apply(s, TryWrite(i, block)), step), step), step), step)
  {
    hide Apply, Run;
    var step := StepSubmitter(i);
    var one := Apply(s, TryWrite(i, block));
    var two := Apply(one, step);
    var three := Apply(two, step);
    var four := Apply(three, step);
    assert Call(i, block) == [TryWrite(i, block)] + ([step] + ([step] + ([step] + ([step] + []))));
    RunFirst(s, TryWrite(i, block), [step] + ([step] + ([step] + ([step] + []))));
    RunFirst(one, step, [step] + ([step] + ([step] + [])));
    RunFirst(two, step, [step] + ([step] + []));
    RunFirst(three, step, [step] + []);
    RunFirst(four, step, []);
    RunNothing(Apply(four, step));
  }

  lemma RunNothing(s: System)
    ensures Run(s, []) == s
  {
  }

  // One step of submitter `i`, from each place a call passes through.
  lemma CallStep(s: System, i: nat)
    requires i < |s.submitters|
    ensures var (next, list) := (Apply(s, StepSubmitter(i)), s.submitters);
      match list[i]
      case Resting => next == s
      case Checked(block) => next == s.(queued := s.queued + 1, submitters := list[i := Counted(block)])
      case Counted(block) =>
        next == if s.connected && |s.channel| < s.capacity
                then s.(channel := s.channel + [block], accepted := s.accepted + [block], submitters := list[i := Resting])
                else s.(submitters := list[i := RollingBack])
      case RollingBack => next == s.(queued := s.queued - 1, submitters := list[i := CountingDrop])
      case CountingDrop => next == s.(dropped := s.dropped + 1, submitters := list[i := Resting])
  {
  }

  lemma TwiceReplaced<T>(list: seq<T>, i: nat, a: T, b: T)
    requires i < |list|
    ensures list[i := a][i := b] == list[i := b]
    ensures b == list[i] ==> list[i := b] == list
  {
  }

  // Where a call stands after its first two steps and its last two.
  lemma CountedCall(s: System, i: nat, block: Block)
    requires i < |s.submitters| && s.submitters[i] == Resting && !s.cancelled
    ensures Apply(Apply(s, TryWrite(i, block)), StepSubmitter(i))
         == s.(tries := s.tries + 1, queued := s.queued + 1, submitters := s.submitters[i := Counted(block)])
  {
    var one := s.(tries := s.tries + 1, submitters := s.submitters[i := Checked(block)]);
    assert Apply(s, TryWrite(i, block)) == one;
    hide Apply;
    CallStep(one, i);
    TwiceReplaced(s.submitters, i, Checked(block), Counted(block));
  }

  lemma RolledBackCall(s: System, i: nat)
    requires i < |s.submitters| && s.submitters[i] == RollingBack
    ensures Apply(Apply(s, StepSubmitter(i)), StepSubmitter(i))
         == s.(queued := s.queued - 1, dropped := s.dropped + 1, submitters := s.submitters[i := Resting])
  {
    hide Apply;
    CallStep(s, i);
    CallStep(Apply(s, StepSubmitter(i)), i);
    TwiceReplaced(s.submitters, i, CountingDrop, Resting);
  }

  lemma RestedCall(s: System, i: nat)
    requires i < |s.submitters| && s.submitters[i] == Resting
    ensures Apply(s, StepSubmitter(i)) == s
  {
  }

  lemma CancelledCall(s: System, i: nat, block: Block)
    requires i < |s.submitters| && s.submitters[i] == Resting && s.cancelled
    ensures Apply(Apply(s, TryWrite(i, block)), StepSubmitter(i)) == s.(tries := s.tries + 1, dropped := s.dropped + 1)
  {
    var one := s.(tries := s.tries + 1, submitters := s.submitters[i := CountingDrop]);
    assert Apply(s, TryWrite(i, block)) == one;
    hide Apply;
    CallStep(one, i);
    TwiceReplaced(s.submitters, i, CountingDrop, Resting);
  }

  // One call while nobody else moves: it is accepted exactly while the worker listens, is not
  // cancelled and the channel holds fewer blocks than its capacity. Otherwise it is dropped, and
  // nothing of it stays behind.
  lemma CallAcceptedExactlyWithRoom(s: System, i: nat, block: Block)
    requires ChannelExact(s) && i < |s.submitters| && s.submitters[i] == Resting
    ensures var called := s.(tries := s.tries + 1);
      Run(s, Call(i, block)) ==
        if !s.cancelled && !s.place.Gone? && |s.channel| < s.capacity
        then called.(queued := s.queued + 1, channel := s.channel + [block], accepted := s.accepted + [block])
        else called.(dropped := s.dropped + 1)
  {
    hide Apply, Run, Call;
    RunOfCall(s, i, block);
    if s.cancelled {
      CancelledCall(s, i, block);
      RestedCall(s.(tries := s.tries + 1, dropped := s.dropped + 1), i);
    } else {
      CountedCall(s, i, block);
      var counted := Apply(Apply(s, TryWrite(i, block)), StepSubmitter(i));
      CallStep(counted, i);
      var sent := Apply(counted, StepSubmitter(i));
      if s.connected && |s.channel| < s.capacity {
        TwiceReplaced(s.submitters, i, Counted(block), Resting);
        RestedCall(sent, i);
      } else {
        TwiceReplaced(s.submitters, i, Counted(block), RollingBack);
        RolledBackCall(sent, i);
        TwiceReplaced(s.submitters, i, RollingBack, Resting);
      }
    }
  }

  // A burst of calls, from any resting submitters, fills the channel up to its capacity: the
  // first blocks are accepted in order, every later one is dropped and counted.
  lemma {:induction false} BurstFillsTheChannel(s: System, list: seq<(nat, Block)>)
    requires Valid(s) && AtRest(s) && !s.cancelled && !s.place.Gone?
    requires forall k :: 0 <= k < |list| ==> list[k].0 < |s.submitters|
    ensures |s.channel| <= s.capacity
    ensures var taken := if |list| <= s.capacity - |s.channel| then |list| else s.capacity - |s.channel|;
      Run(s, Calls(list)) == s.(
        channel := s.channel + Blocks(list)[..taken], accepted := s.accepted + Blocks(list)[..taken],
        dropped := s.dropped + (|list| - taken), queued := s.queued + taken, tries := s.tries + |list|)
    decreases list
  {
    hide Run, CounterExact, InOrder, RunningMeansWritten, EndIsPublished;
    if list == [] {
      RunNothing(s);
      assert s.channel + [] == s.channel && s.accepted + [] == s.accepted;
    } else {
      var (i, block) := list[0];
      var next := Run(s, Call(i, block));
      CallAcceptedExactlyWithRoom(s, i, block);
      RunKeepsValid(s, Call(i, block));
      RunTwice(s, Call(i, block), Calls(list[1..]));
      BurstFillsTheChannel(next, list[1..]);
      BlocksCons(list);
      hide Valid, Call, Blocks, Calls, ChannelExact;
      if |s.channel| < s.capacity {
        var rest := if |list| - 1 <= s.capacity - |next.channel| then |list| - 1 else s.capacity - |next.channel|;
        TakeOneMore(s.channel, block, Blocks(list[1..]), rest);
        TakeOneMore(s.accepted, block, Blocks(list[1..]), rest);
      } else {
        assert s.channel + [] == s.channel && s.accepted + [] == s.accepted;
      }
    }
  }

  lemma TakeOneMore<T>(before: seq<T>, x: T, rest: seq<T>, n: nat)
    requires n <= |rest|
    ensures before + [x] + rest[..n] == before + ([x] + rest)[..n + 1]
  {
    assert ([x] + rest)[..n + 1] == [x] + rest[..n];
  }

  lemma BlocksCons(list: seq<(nat, Block)>)
    requires list != []
    ensures Blocks(list) == [list[0].1] + Blocks(list[1..])
  {
  }

  function Working(count: nat): seq<Action> {
    seq(count, i => StepWorker(Succeeds))
  }

  // A device that keeps up: with five steps a block, and nobody else moving, everything that was
  // accepted is written, and the counter is back at the calls in flight.
  lemma {:induction false} WorkerWritesTheChannel(s: System)
    requires Valid(s) && !s.cancelled && s.place == Receive
    ensures var last := Run(s, Working(5 * |s.channel|));
      && last.written == last.accepted == s.accepted && last.channel == [] && last.place == Receive
      && last.queued == Total(Counting, s.submitters) && last.dropped == s.dropped
    decreases |s.channel|
  {
    if s.channel == [] {
      assert s.accepted == s.taken + [] + [];
    } else {
      var next := Run(s, Working(5));
      WritesOneBlock(s);
      RunKeepsValid(s, Working(5));
      assert Working(5 * |s.channel|) == Working(5) + Working(5 * |next.channel|);
      RunTwice(s, Working(5), Working(5 * |next.channel|));
      WorkerWritesTheChannel(next);
    }
  }

  lemma WorkingOnce(s: System, count: nat)
    ensures Run(s, Working(count + 1)) == Run(WorkerStep(s, Succeeds), Working(count))
  {
    hide WorkerStep;
    assert Working(count + 1)[1..] == Working(count);
  }

  // One successful step at each place of the delivery loop.
  lemma DeliveryStep(s: System)
    requires !s.cancelled
    ensures var next := WorkerStep(s, Succeeds);
      match s.place
      case Receive => s.channel != [] ==>
        next == s.(channel := s.channel[1..], taken := s.taken + [s.channel[0]], place := Decrement(s.channel[0]))
      case Decrement(hand) => next == s.(queued := s.queued - 1, place := CheckTaken(hand))
      case CheckTaken(hand) => next == s.(place := WriteBlock(hand))
      case WriteBlock(hand) => next == s.(written := s.written + [hand], place := StoreRunning)
      case StoreRunning => next == s.(state := Running, place := Receive)
      case _ => true
  {
  }

  lemma WritesOneBlock(s: System)
    requires s.place == Receive && s.channel != [] && !s.cancelled
    ensures Run(s, Working(5)) ==
      s.(channel := s.channel[1..], taken := s.taken + [s.channel[0]], queued := s.queued - 1,
         written := s.written + [s.channel[0]], state := Running)
  {
    hide WorkerStep, Run, Working;
    var one := WorkerStep(s, Succeeds);
    DeliveryStep(s);
    WorkingOnce(s, 4);
    var two := WorkerStep(one, Succeeds);
    DeliveryStep(one);
    WorkingOnce(one, 3);
    var three := WorkerStep(two, Succeeds);
    DeliveryStep(two);
    WorkingOnce(two, 2);
    var four := WorkerStep(three, Succeeds);
    DeliveryStep(three);
    WorkingOnce(three, 1);
    DeliveryStep(four);
    WorkingOnce(four, 0);
    WorkingNothing(WorkerStep(four, Succeeds));
  }

  lemma WorkingNothing(s: System)
    ensures Run(s, Working(0)) == s
  {
  }

  lemma LastDrainSteps(s: System)
    requires s.place == Drain && s.channel == []
    ensures Run(s, Working(2)) == s.(stranded := [], connected := false, place := Gone(false))
  {
    hide WorkerStep;
    DrainStep(s);
    var next := WorkerStep(s, Succeeds);
    DrainStep(next);
    WorkingOnce(s, 1);
    WorkingOnce(next, 0);
    WorkingNothing(WorkerStep(next, Succeeds));
  }

  lemma {:induction false} DrainTakesTheChannel(s: System)
    requires s.place == Drain
    ensures Run(s, Working(2 * |s.channel| + 2)) ==
      s.(channel := [], taken := s.taken + s.channel, queued := s.queued - |s.channel|,
         stranded := [], connected := false, place := Gone(false))
    decreases |s.channel|
  {
    hide WorkerStep, Run, Working;
    if s.channel == [] {
      LastDrainSteps(s);
      assert s.taken + [] == s.taken;
    } else {
      var next := WorkerStep(s, Succeeds);
      DrainStep(s);
      DrainStep(next);
      var drained := WorkerStep(next, Succeeds);
      WorkingOnce(s, 2 * |s.channel| + 1);
      WorkingOnce(next, 2 * |s.channel|);
      DrainTakesTheChannel(drained);
      assert s.taken + [s.channel[0]] + s.channel[1..] == s.taken + s.channel;
    }
  }

  // A worker at its drain takes everything that is still queued, writes none of it, and only then
  // goes: with nobody else moving, nothing is stranded, and the counter is back at the calls in flight.
  lemma QuietDrainStrandsNothing(s: System)
    requires Valid(s) && s.place == Drain
    ensures var last := Run(s, Working(2 * |s.channel| + 2));
      && last.place == Gone(false) && last.stranded == [] && last.channel == []
      && last.taken == s.taken + s.channel && last.written == s.written
      && last.queued == Total(Counting, s.submitters)
  {
    hide Run, Working;
    DrainTakesTheChannel(s);
    hide Total, InOrder, EndIsPublished, RunningMeansWritten;
  }

  lemma DrainStep(s: System)
    ensures var next := WorkerStep(s, Succeeds);
      match s.place
      case Drain =>
        next == if s.channel == [] then s.(place := DropReceiver(false))
                else s.(channel := s.channel[1..], taken := s.taken + [s.channel[0]], place := DrainDecrement)
      case DrainDecrement => next == s.(queued := s.queued - 1, place := Drain)
      case DropReceiver(unwinding) => next == s.(channel := [], stranded := s.channel, connected := false, place := Gone(unwinding))
      case _ => true
  {
  }

  function TimingOut(count: nat): seq<Action> {
    seq(count, i => StepWorker(TimesOut))
  }

  // Worker steps to its end, once it is cancelled and nothing more is sent.
  function StepsToEnd(s: System): nat {
    match s.place
    case Start | WriteBlock(_) | StoreRunning => 7 + 2 * |s.channel|
    case OpenOutput | Receive => 6 + 2 * |s.channel|
    case CheckTimeout | CheckTaken(_) => 5 + 2 * |s.channel|
    case Decrement(_) => 6 + 2 * |s.channel|
    case StopOutput | StoreFailed(_) => 4 + 2 * |s.channel|
    case StoreStopped | StopFailed | DrainDecrement => 3 + 2 * |s.channel|
    case Drain => 2 + 2 * |s.channel|
    case StoreEarlyStop => 2
    case DropReceiver(_) => 1
    case Gone(_) => 0
  }

  lemma TookOneLess(s: System)
    requires s.channel != []
    ensures |Took(s).channel| == |s.channel| - 1
  {
  }

  lemma OneStepCloser(s: System)
    requires s.cancelled && !s.place.Gone?
    ensures WorkerStep(s, TimesOut).cancelled && StepsToEnd(WorkerStep(s, TimesOut)) < StepsToEnd(s)
  {
    if s.channel != [] {
      TookOneLess(s);
      TookMovesOne(s);
    }
    hide Took;
  }

  // A cancelled worker ends by its own steps: with nobody else moving it drains what is queued
  // and is gone within two steps a block and seven more, even if no block and no hang-up comes.
  lemma {:induction false} CancelledWorkerEnds(s: System, count: nat)
    requires s.cancelled && count >= StepsToEnd(s)
    ensures StepsToEnd(s) <= 7 + 2 * |s.channel|
    ensures Run(s, TimingOut(count)).place.Gone?
    decreases count
  {
    if s.place.Gone? {
      GoneWhileTimingOut(s, count);
    } else {
      hide WorkerStep;
      assert TimingOut(count)[1..] == TimingOut(count - 1);
      OneStepCloser(s);
      CancelledWorkerEnds(WorkerStep(s, TimesOut), count - 1);
    }
  }

  lemma {:induction false} GoneWhileTimingOut(s: System, count: nat)
    requires s.place.Gone?
    ensures Run(s, TimingOut(count)) == s
  {
    if count > 0 {
      assert TimingOut(count)[1..] == TimingOut(count - 1);
      GoneWhileTimingOut(s, count - 1);
    }
  }

  // ---- The published state ---------------------------------------------------------------------

  predicate CanBecome(a: WorkerState, b: WorkerState) {
    a == b || a == Starting || (a == Running && (b == Failed || b == Stopped))
  }

  // The state only advances, `Running` means that a block was written, and a thread that
  // ended without a panic has published its end.
  lemma {:induction false} StateAdvances(s: System, actions: seq<Action>)
    requires Valid(s)
    ensures var last := Run(s, actions);
      && CanBecome(s.state, last.state)
      && (last.state == Running ==> last.written != [])
      && (last.place == Gone(false) ==> last.state == Failed || last.state == Stopped)
    decreases actions
  {
    if actions != [] {
      var next := Apply(s, actions[0]);
      ApplyKeepsValid(s, actions[0]);
      StateAdvancesOnce(s, actions[0]);
      hide Apply, CounterExact, ChannelExact, InOrder;
      StateAdvances(next, actions[1..]);
    }
  }

  lemma StateAdvancesOnce(s: System, action: Action)
    requires EndIsPublished(s)
    ensures CanBecome(s.state, Apply(s, action).state)
  {
    if action.StepSubmitter? && action.i < |s.submitters| {
      SubmitterLeavesWorkerAlone(s, action.i);
    }
    hide SubmitterStep;
  }

  // ---- After cancellation ------------------------------------------------------------------------

  // Calls that passed their cancellation check and may still send.
  function MaySend(s: Submitter): nat { if s.Checked? || s.Counted? then 1 else 0 }

  function MayWrite(place: Place): nat { if place.WriteBlock? then 1 else 0 }

  lemma CancelledSubmitter(s: System, i: nat)
    requires s.cancelled && i < |s.submitters|
    ensures var next := SubmitterStep(s, i);
      && next.cancelled && next.place == s.place && next.written == s.written
      && |next.accepted| + Total(MaySend, next.submitters) <= |s.accepted| + Total(MaySend, s.submitters)
  {
    var next := SubmitterStep(s, i);
    TotalReplaced(MaySend, s.submitters, i, next.submitters[i]);
    hide Total;
    if s.submitters[i] != Resting {
      assert next.submitters == s.submitters[i := next.submitters[i]];
    }
  }

  lemma CancelledWorker(s: System, event: Event)
    requires s.cancelled
    ensures var next := WorkerStep(s, event);
      && next.cancelled && next.submitters == s.submitters && next.accepted == s.accepted
      && |next.written| + MayWrite(next.place) <= |s.written| + MayWrite(s.place)
  {
    if s.channel != [] { TookMovesOne(s); }
    hide Took;
  }

  lemma CancelledStep(s: System, action: Action)
    requires s.cancelled
    ensures var next := Apply(s, action);
      && next.cancelled
      && |next.accepted| + Total(MaySend, next.submitters) <= |s.accepted| + Total(MaySend, s.submitters)
      && |next.written| + MayWrite(next.place) <= |s.written| + MayWrite(s.place)
  {
    hide Total, SubmitterStep, WorkerStep;
    match action
    case AddSubmitter => TotalGrown(MaySend, s.submitters, Resting);
    case TryWrite(i, _) => if i < |s.submitters| { TotalReplaced(MaySend, s.submitters, i, CountingDrop); }
    case StepSubmitter(i) => if i < |s.submitters| { CancelledSubmitter(s, i); }
    case Cancel =>
    case StepWorker(event) => CancelledWorker(s, event);
  }

  // After cancellation only the calls already past their check can be accepted, and at most
  // one more block reaches the device.
  lemma {:induction false} CancellationIsPrompt(s: System, actions: seq<Action>)
    requires s.cancelled
    ensures |Run(s, actions).accepted| <= |s.accepted| + Total(MaySend, s.submitters)
    ensures |Run(s, actions).written| <= |s.written| + MayWrite(s.place)
    decreases actions
  {
    if actions != [] {
      CancelledStep(s, actions[0]);
      hide Apply, Total;
      CancellationIsPrompt(Apply(s, actions[0]), actions[1..]);
    }
  }
}
