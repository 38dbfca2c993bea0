// Which input channels each output channel hears: the whole mapping as one table
// (crates/obs-rs-audio/src/resampler.rs).
module ChannelMatrix {
  import opened Numbers
  import opened Results
  import opened AudioTypes
  import opened AudioBuffers
  import opened ChannelMapping

  // ---- The table -------------------------------------------------------------------------------

  // The input channels that are averaged into each output channel; nothing is silence.
  function Heard(input: AudioChannelLayout, output: AudioChannelLayout): seq<seq<nat>>
    requires !input.Discrete? && !output.Discrete?
  {
    match output
    case Mono =>
      (match input
       case Mono => [[0]]
       case Stereo => [[0, 1]]
       case TwoPointOne => [[0, 1, 2]]
       case Quad => [[0, 1, 2, 3]]
       case FivePointOne => [[0, 1, 2, 3, 4, 5]]
       case SevenPointOne => [[0, 1, 2, 3, 4, 5, 6, 7]])
    case Stereo =>
      (match input
       case Mono => [[0], [0]]
       case Stereo => [[0], [1]]
       case TwoPointOne => [[0], [1]]
       case Quad => [[0, 2], [1, 3]]
       case FivePointOne => [[0, 2, 4], [1, 2, 5]]
       case SevenPointOne => [[0, 2, 4, 6], [1, 2, 5, 7]])
    case TwoPointOne =>
      (match input
       case Mono => [[0], [0], []]
       case Stereo => [[0], [1], []]
       case TwoPointOne => [[0], [1], [2]]
       case Quad => [[0, 2], [1, 3], []]
       case FivePointOne => [[0, 2, 4], [1, 2, 5], [3]]
       case SevenPointOne => [[0, 2, 4, 6], [1, 2, 5, 7], [3]])
    case Quad =>
      (match input
       case Mono => [[0], [0], [0], [0]]
       case Stereo => [[0], [1], [0], [1]]
       case TwoPointOne => [[0], [1], [0], [1]]
       case Quad => [[0], [1], [2], [3]]
       case FivePointOne => [[0], [1], [4], [5]]
       case SevenPointOne => [[0], [1], [4], [5]])
    case FivePointOne =>
      (match input
       case Mono => [[0], [0], [0], [], [0], [0]]
       case Stereo => [[0], [1], [0, 1], [], [0], [1]]
       case TwoPointOne => [[0], [1], [0, 1], [2], [0], [1]]
       case Quad => [[0], [1], [0, 1], [], [2], [3]]
       case FivePointOne => [[0], [1], [2], [3], [4], [5]]
       case SevenPointOne => [[0], [1], [2], [3], [6], [7]])
    case SevenPointOne =>
      (match input
       case Mono => [[0], [0], [0], [], [0], [0], [0], [0]]
       case Stereo => [[0], [1], [0, 1], [], [0], [1], [0], [1]]
       case TwoPointOne => [[0], [1], [0, 1], [2], [0], [1], [0], [1]]
       case Quad => [[0], [1], [0, 1], [], [2], [3], [2], [3]]
       case FivePointOne => [[0], [1], [2], [3], [4], [5], [4], [5]]
       case SevenPointOne => [[0], [1], [2], [3], [4], [5], [6], [7]])
  }

  predicate Inside(channels: seq<nat>, count: nat) {
    forall i :: 0 <= i < |channels| ==> channels[i] < count
  }

  function SumAt(samples: seq<Sample>, channels: seq<nat>): Sample
    requires Inside(channels, |samples|)
  {
    if channels == [] then 0.0
    else SumAt(samples, channels[..|channels| - 1]) + samples[channels[|channels| - 1]]
  }

  function MeanAt(samples: seq<Sample>, channels: seq<nat>): Sample
    requires Inside(channels, |samples|)
  {
    if channels == [] then 0.0 else SumAt(samples, channels) / |channels| as real
  }

  // ---- Where roles are found ---------------------------------------------------------------------

  function PositionOf(roles: seq<ChannelRole>, role: ChannelRole): (i: nat)
    ensures i <= |roles|
    ensures i < |roles| ==> roles[i] == role
    ensures forall j :: 0 <= j < i ==> roles[j] != role
  {
    if roles == [] || roles[0] == role then 0 else 1 + PositionOf(roles[1..], role)
  }

  // The channels of those candidates that a layout has, in the order of the candidates.
  function Present(roles: seq<ChannelRole>, candidates: seq<ChannelRole>): (channels: seq<nat>)
    ensures Inside(channels, |roles|)
  {
    if candidates == [] then []
    else
      var i := PositionOf(roles, candidates[|candidates| - 1]);
      Present(roles, candidates[..|candidates| - 1]) + if i < |roles| then [i] else []
  }

  lemma {:induction false} ExactAt(samples: seq<Sample>, roles: seq<ChannelRole>, role: ChannelRole)
    requires |samples| == |roles|
    ensures ExactRoleSample(samples, roles, role)
         == var i := PositionOf(roles, role); if i < |roles| then Some(samples[i]) else None
  {
    if roles != [] && roles[0] != role {
      ExactAt(samples[1..], roles[1..], role);
    }
  }

  lemma SumAtLast(samples: seq<Sample>, channels: seq<nat>, c: nat)
    requires c < |samples| && Inside(channels, |samples|)
    ensures SumAt(samples, channels + [c]) == SumAt(samples, channels) + samples[c]
  {
    assert (channels + [c])[..|channels|] == channels;
  }

  lemma {:induction false} PresentSum(samples: seq<Sample>, roles: seq<ChannelRole>, candidates: seq<ChannelRole>)
    requires |samples| == |roles|
    ensures var channels := Present(roles, candidates); PresentRoles(samples, roles, candidates) == (SumAt(samples, channels), |channels|)
  {
    if candidates != [] {
      var front, last := candidates[..|candidates| - 1], candidates[|candidates| - 1];
      PresentSum(samples, roles, front);
      ExactAt(samples, roles, last);
      if PositionOf(roles, last) < |roles| {
        SumAtLast(samples, Present(roles, front), PositionOf(roles, last));
      } else {
        assert Present(roles, front) + [] == Present(roles, front);
      }
    }
  }

  lemma AverageAt(samples: seq<Sample>, roles: seq<ChannelRole>, candidates: seq<ChannelRole>)
    requires |samples| == |roles|
    ensures var channels := Present(roles, candidates);
      AverageRoles(samples, roles, candidates) == if channels == [] then None else Some(MeanAt(samples, channels))
  {
    PresentSum(samples, roles, candidates);
    hide PresentRoles, SumAt, Present;
  }

  // The first candidate that a layout has.
  function FirstPresent(roles: seq<ChannelRole>, candidates: seq<ChannelRole>): (channels: seq<nat>)
    ensures Inside(channels, |roles|)
    ensures |channels| <= 1
  {
    if candidates == [] then []
    else
      var i := PositionOf(roles, candidates[0]);
      if i < |roles| then [i] else FirstPresent(roles, candidates[1..])
  }

  lemma MeanOfOne(samples: seq<Sample>, c: nat)
    requires c < |samples|
    ensures MeanAt(samples, [c]) == samples[c]
  {
    assert [c][..0] == [];
    assert SumAt(samples, [c]) == 0.0 + samples[c];
  }

  lemma {:induction false} FirstAt(samples: seq<Sample>, roles: seq<ChannelRole>, candidates: seq<ChannelRole>)
    requires |samples| == |roles|
    ensures GetOr(FirstRoleSample(samples, roles, candidates), 0.0) == MeanAt(samples, FirstPresent(roles, candidates))
  {
    if candidates != [] {
      ExactAt(samples, roles, candidates[0]);
      var i := PositionOf(roles, candidates[0]);
      if i < |roles| {
        MeanOfOne(samples, i);
      } else {
        FirstAt(samples, roles, candidates[1..]);
      }
    }
  }

  // ---- The rules, by channel -----------------------------------------------------------------------

  // What stands in for one speaker role.
  function StandIns(roles: seq<ChannelRole>, role: ChannelRole): (channels: seq<nat>)
    ensures Inside(channels, |roles|)
  {
    if PositionOf(roles, role) < |roles| then [PositionOf(roles, role)]
    else
      match role
      case Lfe => []
      case Center => Present(roles, [Left, Right, Center])
      case Left => FirstPresent(roles, [Center, BackLeft, SideLeft])
      case Right => FirstPresent(roles, [Center, BackRight, SideRight])
      case BackLeft => FirstPresent(roles, [SideLeft, Left, Center])
      case BackRight => FirstPresent(roles, [SideRight, Right, Center])
      case SideLeft => FirstPresent(roles, [BackLeft, Left, Center])
      case SideRight => FirstPresent(roles, [BackRight, Right, Center])
  }

  lemma StandInsAreHeard(samples: seq<Sample>, roles: seq<ChannelRole>, role: ChannelRole)
    requires |samples| == |roles|
    ensures StandardRoleSample(samples, roles, role) == MeanAt(samples, StandIns(roles, role))
  {
    hide ExactRoleSample, PositionOf, FirstRoleSample, FirstPresent, AverageRoles, Present, SumAt;
    ExactAt(samples, roles, role);
    if PositionOf(roles, role) < |roles| {
      MeanOfOne(samples, PositionOf(roles, role));
    } else {
      match role
      case Lfe =>
      case Center => AverageAt(samples, roles, [Left, Right, Center]);
      case Left => FirstAt(samples, roles, [Center, BackLeft, SideLeft]);
      case Right => FirstAt(samples, roles, [Center, BackRight, SideRight]);
      case BackLeft => FirstAt(samples, roles, [SideLeft, Left, Center]);
      case BackRight => FirstAt(samples, roles, [SideRight, Right, Center]);
      case SideLeft => FirstAt(samples, roles, [BackLeft, Left, Center]);
      case SideRight => FirstAt(samples, roles, [BackRight, Right, Center]);
    }
  }

  // Stereo and 2.1 average a whole side instead.
  function RoleChannels(roles: seq<ChannelRole>, role: ChannelRole, downmix: bool): (channels: seq<nat>)
    ensures Inside(channels, |roles|)
  {
    var side := Present(roles, if role == Left then LEFT_DOWNMIX_ROLES else RIGHT_DOWNMIX_ROLES);
    if downmix && (role == Left || role == Right) && side != [] then side else StandIns(roles, role)
  }

  lemma RolesAreHeard(samples: seq<Sample>, input: AudioChannelLayout, output: AudioChannelLayout, channel: nat)
    requires !input.Discrete? && !output.Discrete? && input != output && output != Mono
    requires |samples| == input.Channels() && channel < output.Channels()
    ensures MappedChannel(samples, input, output, channel)
         == MeanAt(samples, RoleChannels(StandardRoles(input).value, StandardRoles(output).value[channel], output == Stereo || output == TwoPointOne))
  {
    hide AverageRoles, StandardRoleSample, StandIns, Present, SumAt;
    var roles, role := StandardRoles(input).value, StandardRoles(output).value[channel];
    StandInsAreHeard(samples, roles, role);
    AverageAt(samples, roles, if role == Left then LEFT_DOWNMIX_ROLES else RIGHT_DOWNMIX_ROLES);
  }

  // ---- Computing the table ---------------------------------------------------------------------------

  function At(roles: seq<ChannelRole>, role: ChannelRole): seq<nat> {
    if PositionOf(roles, role) < |roles| then [PositionOf(roles, role)] else []
  }

  lemma PresentLast(roles: seq<ChannelRole>, front: seq<ChannelRole>, last: ChannelRole)
    ensures Present(roles, front + [last]) == Present(roles, front) + At(roles, last)
  {
    assert (front + [last])[..|front|] == front;
  }

  lemma PresentNone(roles: seq<ChannelRole>)
    ensures Present(roles, []) == []
  {
  }

  lemma PresentThree(roles: seq<ChannelRole>, a: ChannelRole, b: ChannelRole, c: ChannelRole)
    ensures Present(roles, [a, b, c]) == At(roles, a) + At(roles, b) + At(roles, c)
  {
    hide Present, At;
    PresentNone(roles);
    PresentLast(roles, [], a);
    PresentLast(roles, [] + [a], b);
    PresentLast(roles, [] + [a] + [b], c);
    assert [] + [a] + [b] + [c] == [a, b, c];
    assert [] + At(roles, a) == At(roles, a);
  }

  lemma PresentFour(roles: seq<ChannelRole>, a: ChannelRole, b: ChannelRole, c: ChannelRole, d: ChannelRole)
    ensures Present(roles, [a, b, c, d]) == At(roles, a) + At(roles, b) + At(roles, c) + At(roles, d)
  {
    hide At, Present;
    PresentThree(roles, a, b, c);
    PresentLast(roles, [a, b, c], d);
    assert [a, b, c] + [d] == [a, b, c, d];
  }

  lemma FirstThree(roles: seq<ChannelRole>, a: ChannelRole, b: ChannelRole, c: ChannelRole)
    ensures FirstPresent(roles, [a, b, c])
         == if At(roles, a) != [] then At(roles, a) else if At(roles, b) != [] then At(roles, b) else At(roles, c)
  {
    hide PositionOf;
    assert [a, b, c][1..] == [b, c] && [b, c][1..] == [c] && [c][1..] == [];
    assert FirstPresent(roles, []) == [];
    assert FirstPresent(roles, [c]) == At(roles, c);
  }

  // Where each layout has its speakers.
  function Seat(layout: AudioChannelLayout, role: ChannelRole): Option<nat>
    requires !layout.Discrete?
  {
    match layout
    case Mono => if role == Center then Some(0) else None
    case Stereo => (match role case Left => Some(0) case Right => Some(1) case _ => None)
    case TwoPointOne => (match role case Left => Some(0) case Right => Some(1) case Lfe => Some(2) case _ => None)
    case Quad =>
      (match role case Left => Some(0) case Right => Some(1) case BackLeft => Some(2) case BackRight => Some(3) case _ => None)
    case FivePointOne =>
      (match role case Left => Some(0) case Right => Some(1) case Center => Some(2) case Lfe => Some(3)
       case SideLeft => Some(4) case SideRight => Some(5) case _ => None)
    case SevenPointOne =>
      (match role case Left => Some(0) case Right => Some(1) case Center => Some(2) case Lfe => Some(3)
       case BackLeft => Some(4) case BackRight => Some(5) case SideLeft => Some(6) case SideRight => Some(7))
  }

  function Seats(layout: AudioChannelLayout, role: ChannelRole): seq<nat>
    requires !layout.Discrete?
  {
    if Seat(layout, role).Some? then [Seat(layout, role).value] else []
  }

  lemma SeatIsTaken(layout: AudioChannelLayout, role: ChannelRole)
    requires !layout.Discrete?
    ensures var (roles, seat) := (StandardRoles(layout).value, Seat(layout, role));
      && (seat.Some? ==> seat.value < |roles| && roles[seat.value] == role)
      && forall j :: 0 <= j < |roles| && roles[j] == role ==> seat == Some(j)
  {
  }

  lemma AtSeat(layout: AudioChannelLayout, role: ChannelRole)
    requires !layout.Discrete?
    ensures At(StandardRoles(layout).value, role) == Seats(layout, role)
  {
    hide Seat, StandardRoles, PositionOf;
    var roles, seat := StandardRoles(layout).value, Seat(layout, role);
    SeatIsTaken(layout, role);
    if seat.Some? {
      assert !(seat.value < PositionOf(roles, role));
    }
  }

  function FirstSeat(a: seq<nat>, b: seq<nat>, c: seq<nat>): seq<nat> {
    if a != [] then a else if b != [] then b else c
  }

  // The stand-ins of a role, from where the eight roles are found.
  function Row(at: ChannelRole -> seq<nat>, role: ChannelRole): seq<nat> {
    if at(role) != [] then at(role)
    else match role
      case Lfe => []
      case Center => at(Left) + at(Right) + at(Center)
      case Left => FirstSeat(at(Center), at(BackLeft), at(SideLeft))
      case Right => FirstSeat(at(Center), at(BackRight), at(SideRight))
      case BackLeft => FirstSeat(at(SideLeft), at(Left), at(Center))
      case BackRight => FirstSeat(at(SideRight), at(Right), at(Center))
      case SideLeft => FirstSeat(at(BackLeft), at(Left), at(Center))
      case SideRight => FirstSeat(at(BackRight), at(Right), at(Center))
  }

  function SeatRow(input: AudioChannelLayout, role: ChannelRole): seq<nat>
    requires !input.Discrete?
  {
    Row(r => Seats(input, r), role)
  }

  lemma StandInsFound(roles: seq<ChannelRole>, role: ChannelRole)
    requires At(roles, role) != []
    ensures StandIns(roles, role) == At(roles, role)
  {
    hide Present, FirstPresent;
  }

  lemma StandInsByRole(roles: seq<ChannelRole>, role: ChannelRole)
    ensures StandIns(roles, role) == Row(r => At(roles, r), role)
  {
    if At(roles, role) != [] {
      StandInsFound(roles, role);
    } else {
      assert PositionOf(roles, role) == |roles|;
      hide At, PositionOf, Present, FirstPresent;
      match role
      case Lfe =>
      case Center => PresentThree(roles, Left, Right, Center);
      case Left => FirstThree(roles, Center, BackLeft, SideLeft);
      case Right => FirstThree(roles, Center, BackRight, SideRight);
      case BackLeft => FirstThree(roles, SideLeft, Left, Center);
      case BackRight => FirstThree(roles, SideRight, Right, Center);
      case SideLeft => FirstThree(roles, BackLeft, Left, Center);
      case SideRight => FirstThree(roles, BackRight, Right, Center);
    }
  }

  lemma StandInsBySeat(input: AudioChannelLayout, role: ChannelRole)
    requires !input.Discrete?
    ensures StandIns(StandardRoles(input).value, role) == SeatRow(input, role)
  {
    hide At, Seats, StandardRoles, StandIns;
    var roles := StandardRoles(input).value;
    forall r ensures At(roles, r) == Seats(input, r) { AtSeat(input, r); }
    StandInsByRole(roles, role);
  }

  lemma SidesBySeat(input: AudioChannelLayout)
    requires !input.Discrete?
    ensures var roles := StandardRoles(input).value;
      && Present(roles, LEFT_DOWNMIX_ROLES) == Seats(input, Left) + Seats(input, Center) + Seats(input, BackLeft) + Seats(input, SideLeft)
      && Present(roles, RIGHT_DOWNMIX_ROLES) == Seats(input, Right) + Seats(input, Center) + Seats(input, BackRight) + Seats(input, SideRight)
  {
    var roles := StandardRoles(input).value;
    forall r ensures At(roles, r) == Seats(input, r) { AtSeat(input, r); }
    hide Seats, At, StandardRoles, Present;
    PresentFour(roles, Left, Center, BackLeft, SideLeft);
    PresentFour(roles, Right, Center, BackRight, SideRight);
  }

  // ---- The whole mapping -------------------------------------------------------------------------------

  lemma {:induction false} TotalLast(samples: seq<Sample>)
    requires samples != []
    ensures Total(samples) == Total(samples[..|samples| - 1]) + samples[|samples| - 1]
  {
    if |samples| > 1 {
      TotalLast(samples[1..]);
      assert samples[1..][..|samples| - 2] == samples[..|samples| - 1][1..];
    }
  }

  function Upto(n: nat): seq<nat> {
    seq(n, i => i)
  }

  lemma {:induction false} SumOfAll(samples: seq<Sample>, n: nat)
    requires n <= |samples|
    ensures SumAt(samples, Upto(n)) == Total(samples[..n])
  {
    if n > 0 {
      SumOfAll(samples, n - 1);
      assert Upto(n)[..n - 1] == Upto(n - 1);
      TotalLast(samples[..n]);
      assert samples[..n][..n - 1] == samples[..n - 1];
    }
  }

  lemma MonoRow(input: AudioChannelLayout)
    requires !input.Discrete?
    ensures Heard(input, Mono)[0] == Upto(input.Channels())
  {
  }

  lemma MonoHearsAll(samples: seq<Sample>)
    requires samples != []
    ensures Total(samples) / |samples| as real == MeanAt(samples, Upto(|samples|))
  {
    SumOfAll(samples, |samples|);
    assert samples[..|samples|] == samples;
    hide Total, SumAt;
  }

  function SideSeats(input: AudioChannelLayout, role: ChannelRole): seq<nat>
    requires !input.Discrete?
  {
    if role == Left then Seats(input, Left) + Seats(input, Center) + Seats(input, BackLeft) + Seats(input, SideLeft)
    else Seats(input, Right) + Seats(input, Center) + Seats(input, BackRight) + Seats(input, SideRight)
  }

  // A row of the table, by seat.
  function TableRow(input: AudioChannelLayout, role: ChannelRole, downmix: bool): seq<nat>
    requires !input.Discrete?
  {
    if downmix && (role == Left || role == Right) && SideSeats(input, role) != [] then SideSeats(input, role) else SeatRow(input, role)
  }

  lemma RulesBySeat(input: AudioChannelLayout, role: ChannelRole, downmix: bool)
    requires !input.Discrete?
    ensures RoleChannels(StandardRoles(input).value, role, downmix) == TableRow(input, role, downmix)
  {
    hide StandIns, Present, Seats, SeatRow, StandardRoles;
    StandInsBySeat(input, role);
    SidesBySeat(input);
  }

  lemma SidesOf(input: AudioChannelLayout)
    requires !input.Discrete?
    ensures SideSeats(input, Left) ==
      match input
      case Quad => [0, 2]
      case FivePointOne => [0, 2, 4]
      case SevenPointOne => [0, 2, 4, 6]
      case _ => [0]
    ensures SideSeats(input, Right) ==
      match input
      case Mono => [0]
      case Quad => [1, 3]
      case FivePointOne => [1, 2, 5]
      case SevenPointOne => [1, 2, 5, 7]
      case _ => [1]
  {
  }

  lemma DownmixRow(input: AudioChannelLayout, output: AudioChannelLayout, channel: nat)
    requires !input.Discrete? && input != output && (output == Stereo || output == TwoPointOne) && channel < output.Channels()
    ensures Heard(input, output)[channel] == TableRow(input, StandardRoles(output).value[channel], true)
  {
    SidesOf(input);
    hide SideSeats;
  }

  lemma QuadRow(input: AudioChannelLayout, channel: nat)
    requires !input.Discrete? && input != Quad && channel < 4
    ensures Heard(input, Quad)[channel] == TableRow(input, StandardRoles(Quad).value[channel], false)
  {
    hide SideSeats;
  }

  lemma FiveRow(input: AudioChannelLayout, channel: nat)
    requires !input.Discrete? && input != FivePointOne && channel < 6
    ensures Heard(input, FivePointOne)[channel] == TableRow(input, StandardRoles(FivePointOne).value[channel], false)
  {
    hide SideSeats;
  }

  lemma SevenRow(input: AudioChannelLayout, channel: nat)
    requires !input.Discrete? && input != SevenPointOne && channel < 8
    ensures Heard(input, SevenPointOne)[channel] == TableRow(input, StandardRoles(SevenPointOne).value[channel], false)
  {
    hide SideSeats;
  }

  lemma RowCount(input: AudioChannelLayout, output: AudioChannelLayout)
    requires !input.Discrete? && !output.Discrete?
    ensures |Heard(input, output)| == output.Channels()
  {
  }

  // The table is the rules, computed.
  lemma TableHoldsTheRules(input: AudioChannelLayout, output: AudioChannelLayout, channel: nat)
    requires !input.Discrete? && !output.Discrete? && input != output && output != Mono && channel < output.Channels()
    ensures channel < |Heard(input, output)|
    ensures RoleChannels(StandardRoles(input).value, StandardRoles(output).value[channel], output == Stereo || output == TwoPointOne)
         == Heard(input, output)[channel]
  {
    hide Heard, TableRow, RoleChannels, StandardRoles;
    RowCount(input, output);
    RulesBySeat(input, StandardRoles(output).value[channel], output == Stereo || output == TwoPointOne);
    match output
    case Quad => QuadRow(input, channel);
    case FivePointOne => FiveRow(input, channel);
    case SevenPointOne => SevenRow(input, channel);
    case _ => DownmixRow(input, output, channel);
  }

  // Every channel of every mapping between standard layouts is the mean of the channels that
  // the table lists for it, and silent where the table lists none.
  lemma EveryChannelHearsItsRow(samples: seq<Sample>, input: AudioChannelLayout, output: AudioChannelLayout, channel: nat)
    requires !input.Discrete? && !output.Discrete?
    requires |samples| == input.Channels() && channel < output.Channels()
    ensures |Heard(input, output)| == output.Channels() && Inside(Heard(input, output)[channel], |samples|)
    ensures MappedChannel(samples, input, output, channel) == MeanAt(samples, Heard(input, output)[channel])
  {
    hide MappedChannel, MeanAt, RoleChannels;
    if output == Mono {
      MonoRow(input);
      MonoHearsAll(samples);
      MappedMono(samples, input);
    } else if input == output {
      SameLayoutIsIdentity(samples, input, channel);
      MeanOfOne(samples, channel);
    } else {
      TableHoldsTheRules(input, output, channel);
      RolesAreHeard(samples, input, output, channel);
    }
  }

  lemma MappedMono(samples: seq<Sample>, input: AudioChannelLayout)
    requires |samples| == input.Channels() > 0
    ensures MappedChannel(samples, input, Mono, 0) == Total(samples) / |samples| as real
  {
  }

  // Without speaker roles a channel keeps its number, and numbers beyond the input hear its last
  // channel; only mono hears all of them.
  lemma DiscreteKeepsNumbers(samples: seq<Sample>, input: AudioChannelLayout, output: AudioChannelLayout, channel: nat)
    requires (input.Discrete? || output.Discrete?) && output != Mono
    requires |samples| == input.Channels() > 0 && channel < output.Channels()
    ensures MappedChannel(samples, input, output, channel) == if channel < |samples| then samples[channel] else samples[|samples| - 1]
  {
  }
}
