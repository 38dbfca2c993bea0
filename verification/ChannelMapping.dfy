// Speaker-role mapping of one frame (crates/obs-rs-audio/src/resampler.rs).
module ChannelMapping {
  import opened Numbers
  import opened Results
  import opened AudioTypes
  import opened AudioBuffers

  datatype ChannelRole = Left | Right | Center | Lfe | BackLeft | BackRight | SideLeft | SideRight

  function StandardRoles(layout: AudioChannelLayout): (roles: Option<seq<ChannelRole>>)
    ensures roles.Some? ==> |roles.value| == layout.Channels()
    ensures roles.None? <==> layout.Discrete?
  {
    match layout
    case Mono => Some([Center])
    case Stereo => Some([Left, Right])
    case TwoPointOne => Some([Left, Right, Lfe])
    case Quad => Some([Left, Right, BackLeft, BackRight])
    case FivePointOne => Some([Left, Right, Center, Lfe, SideLeft, SideRight])
    case SevenPointOne => Some([Left, Right, Center, Lfe, BackLeft, BackRight, SideLeft, SideRight])
    case Discrete(_) => None
  }

  const LEFT_DOWNMIX_ROLES := [Left, Center, BackLeft, SideLeft]
  const RIGHT_DOWNMIX_ROLES := [Right, Center, BackRight, SideRight]

  function ExactRoleSample(samples: seq<Sample>, roles: seq<ChannelRole>, role: ChannelRole): Option<Sample> {
    if roles == [] || samples == [] then None
    else if roles[0] == role then Some(samples[0])
    else ExactRoleSample(samples[1..], roles[1..], role)
  }

  // The sum and the number of the candidate roles that are present.
  function PresentRoles(samples: seq<Sample>, roles: seq<ChannelRole>, candidates: seq<ChannelRole>): (Sample, nat) {
    if candidates == [] then (0.0, 0)
    else
      var (total, count) := PresentRoles(samples, roles, candidates[..|candidates| - 1]);
      match ExactRoleSample(samples, roles, candidates[|candidates| - 1])
      case Some(sample) => (total + sample, count + 1)
      case None => (total, count)
  }

  function AverageRoles(samples: seq<Sample>, roles: seq<ChannelRole>, candidates: seq<ChannelRole>): Option<Sample> {
    var (total, count) := PresentRoles(samples, roles, candidates);
    if count > 0 then Some(total / count as real) else None
  }

  function FirstRoleSample(samples: seq<Sample>, roles: seq<ChannelRole>, candidates: seq<ChannelRole>): Option<Sample> {
    if candidates == [] then None
    else match ExactRoleSample(samples, roles, candidates[0])
      case Some(sample) => Some(sample)
      case None => FirstRoleSample(samples, roles, candidates[1..])
  }

  function GetOr(sample: Option<Sample>, default: Sample): Sample {
    if sample.Some? then sample.value else default
  }

  function StandardRoleSample(samples: seq<Sample>, roles: seq<ChannelRole>, role: ChannelRole): Sample {
    match ExactRoleSample(samples, roles, role)
    case Some(sample) => sample
    case None =>
      match role
      case Lfe => 0.0
      case Center => GetOr(AverageRoles(samples, roles, [Left, Right, Center]), 0.0)
      case Left => GetOr(FirstRoleSample(samples, roles, [Center, BackLeft, SideLeft]), 0.0)
      case Right => GetOr(FirstRoleSample(samples, roles, [Center, BackRight, SideRight]), 0.0)
      case BackLeft => GetOr(FirstRoleSample(samples, roles, [SideLeft, Left, Center]), 0.0)
      case BackRight => GetOr(FirstRoleSample(samples, roles, [SideRight, Right, Center]), 0.0)
      case SideLeft => GetOr(FirstRoleSample(samples, roles, [BackLeft, Left, Center]), 0.0)
      case SideRight => GetOr(FirstRoleSample(samples, roles, [BackRight, Right, Center]), 0.0)
  }

  function Total(samples: seq<Sample>): Sample {
    if samples == [] then 0.0 else samples[0] + Total(samples[1..])
  }

  function MappedChannel(samples: seq<Sample>, input: AudioChannelLayout, output: AudioChannelLayout, channel: nat): Sample
    requires |samples| == input.Channels() > 0 && channel < output.Channels()
  {
    if output == Mono then Total(samples) / |samples| as real
    else if input == output then samples[channel]
    else
      match (StandardRoles(input), StandardRoles(output))
      case (Some(inputRoles), Some(outputRoles)) =>
        var role := outputRoles[channel];
        if output in {Stereo, TwoPointOne} && role in {Left, Right} then
          match AverageRoles(samples, inputRoles, if role == Left then LEFT_DOWNMIX_ROLES else RIGHT_DOWNMIX_ROLES)
          case Some(sample) => sample
          case None => StandardRoleSample(samples, inputRoles, role)
        else StandardRoleSample(samples, inputRoles, role)
      case _ => samples[Min(channel, |samples| - 1)]
  }

  // Keeping the layout keeps every channel.
  lemma SameLayoutIsIdentity(samples: seq<Sample>, layout: AudioChannelLayout, channel: nat)
    requires |samples| == layout.Channels() && channel < |samples|
    ensures MappedChannel(samples, layout, layout, channel) == samples[channel]
  {
    if layout == Mono {
      assert Total(samples) == samples[0] + Total(samples[1..]);
    }
  }

  // ---- Mapping never amplifies ---------------------------------------------

  predicate Within(sample: Sample, peak: real) {
    -peak <= sample <= peak
  }

  ghost predicate AllWithin(samples: seq<Sample>, peak: real) {
    forall s :: s in samples ==> Within(s, peak)
  }

  // `count * peak` by repeated addition.
  ghost function Times(count: nat, peak: real): real {
    if count == 0 then 0.0 else Times(count - 1, peak) + peak
  }

  lemma {:induction false} TimesIsProduct(count: nat, peak: real)
    ensures Times(count, peak) == count as real * peak
  {
    if count > 0 {
      TimesIsProduct(count - 1, peak);
      assert count as real * peak == (count - 1) as real * peak + peak;
    }
  }

  lemma {:induction false} ExactWithin(samples: seq<Sample>, roles: seq<ChannelRole>, role: ChannelRole, peak: real)
    requires AllWithin(samples, peak)
    ensures ExactRoleSample(samples, roles, role).Some? ==> Within(ExactRoleSample(samples, roles, role).value, peak)
  {
    if roles != [] && samples != [] && roles[0] != role {
      ExactWithin(samples[1..], roles[1..], role, peak);
    }
  }

  lemma {:induction false} PresentWithin(samples: seq<Sample>, roles: seq<ChannelRole>, candidates: seq<ChannelRole>, peak: real)
    requires AllWithin(samples, peak)
    ensures var (total, count) := PresentRoles(samples, roles, candidates); Within(total, Times(count, peak))
  {
    if candidates != [] {
      PresentWithin(samples, roles, candidates[..|candidates| - 1], peak);
      ExactWithin(samples, roles, candidates[|candidates| - 1], peak);
    }
  }

  lemma MulStrict(a: real, b: real, c: real)
    requires a > b && c > 0.0
    ensures a * c > b * c
  {
  }

  lemma MeanWithin(total: real, count: real, peak: real)
    requires count > 0.0 && Within(total, count * peak)
    ensures Within(total / count, peak)
  {
    var mean := total / count;
    assert mean * count == total;
    if mean > peak {
      MulStrict(mean, peak, count);
      assert false;
    } else if mean < -peak {
      MulStrict(-peak, mean, count);
      assert false;
    }
  }

  lemma AverageWithin(samples: seq<Sample>, roles: seq<ChannelRole>, candidates: seq<ChannelRole>, peak: real)
    requires AllWithin(samples, peak)
    ensures AverageRoles(samples, roles, candidates).Some? ==> Within(AverageRoles(samples, roles, candidates).value, peak)
  {
    PresentWithin(samples, roles, candidates, peak);
    var (total, count) := PresentRoles(samples, roles, candidates);
    TimesIsProduct(count, peak);
    if count > 0 {
      MeanWithin(total, count as real, peak);
    }
  }

  lemma {:induction false} FirstWithin(samples: seq<Sample>, roles: seq<ChannelRole>, candidates: seq<ChannelRole>, peak: real)
    requires AllWithin(samples, peak)
    ensures FirstRoleSample(samples, roles, candidates).Some? ==> Within(FirstRoleSample(samples, roles, candidates).value, peak)
  {
    if candidates != [] {
      ExactWithin(samples, roles, candidates[0], peak);
      FirstWithin(samples, roles, candidates[1..], peak);
    }
  }

  lemma StandardWithin(samples: seq<Sample>, roles: seq<ChannelRole>, role: ChannelRole, peak: real)
    requires AllWithin(samples, peak) && peak >= 0.0
    ensures Within(StandardRoleSample(samples, roles, role), peak)
  {
    ExactWithin(samples, roles, role, peak);
    AverageWithin(samples, roles, [Left, Right, Center], peak);
    FirstWithin(samples, roles, [Center, BackLeft, SideLeft], peak);
    FirstWithin(samples, roles, [Center, BackRight, SideRight], peak);
    FirstWithin(samples, roles, [SideLeft, Left, Center], peak);
    FirstWithin(samples, roles, [SideRight, Right, Center], peak);
    FirstWithin(samples, roles, [BackLeft, Left, Center], peak);
    FirstWithin(samples, roles, [BackRight, Right, Center], peak);
  }

  lemma {:induction false} TotalWithin(samples: seq<Sample>, peak: real)
    requires AllWithin(samples, peak)
    ensures Within(Total(samples), Times(|samples|, peak))
  {
    if samples != [] {
      TotalWithin(samples[1..], peak);
      assert samples[0] in samples;
    }
  }

  lemma MonoWithin(samples: seq<Sample>, peak: real)
    requires samples != [] && AllWithin(samples, peak)
    ensures Within(Total(samples) / |samples| as real, peak)
  {
    hide Total;
    TotalWithin(samples, peak);
    TimesIsProduct(|samples|, peak);
    MeanWithin(Total(samples), |samples| as real, peak);
  }

  // Every layout pair and every channel: the mapped sample stays within the frame's peak.
  lemma MappedWithinPeak(samples: seq<Sample>, input: AudioChannelLayout, output: AudioChannelLayout, channel: nat, peak: real)
    requires |samples| == input.Channels() > 0 && channel < output.Channels()
    requires AllWithin(samples, peak)
    ensures Within(MappedChannel(samples, input, output, channel), peak)
  {
    hide Times, PresentRoles, ExactRoleSample, FirstRoleSample, AverageRoles, StandardRoleSample, Total;
    assert samples[0] in samples && Within(samples[0], peak);
    if output == Mono {
      MonoWithin(samples, peak);
    } else if input != output {
      match (StandardRoles(input), StandardRoles(output))
      case (Some(inputRoles), Some(outputRoles)) =>
        AverageWithin(samples, inputRoles, LEFT_DOWNMIX_ROLES, peak);
        AverageWithin(samples, inputRoles, RIGHT_DOWNMIX_ROLES, peak);
        StandardWithin(samples, inputRoles, outputRoles[channel], peak);
      case _ =>
    }
  }
}
