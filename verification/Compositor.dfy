// What one render call means: a memoising reference renderer over the scene's items
// (crates/obs-rs-core/src/compositor.rs).
module Compositor {
  import opened Numbers
  import opened Results
  import opened VideoFormats
  import opened RenderDelays
  import opened SceneOrder

  datatype FrameFilter = RenderDelay(milliseconds: nat) | PixelFilter(settings: seq<int>)

  datatype VideoRequest = VideoRequest(format: VideoFormat, timestamp: u64)

  // What the device answers to one render. Every render may be answered differently.
  datatype Rendered = Frame(picture: Picture) | Nothing | Failed(contractViolation: bool)

  // `served` counts the device renders so far, `history` belongs to the Render Delay filter.
  datatype SourceInstance = SourceInstance(
    kind: string, name: string, filters: seq<FrameFilter>,
    lastFrame: Option<Picture>, failing: bool, served: nat, history: History)

  // All answers a world could give, by source and render count.
  type World = (SourceId, nat) -> Rendered

  // ---- One source --------------------------------------------------------------------

  function PixelFilters(filters: seq<FrameFilter>): seq<FrameFilter> {
    if filters == [] then []
    else
      var rest := PixelFilters(filters[..|filters| - 1]);
      var last := filters[|filters| - 1];
      if last.PixelFilter? then rest + [last] else rest
  }

  function Delays(filters: seq<FrameFilter>): seq<nat> {
    if filters == [] then []
    else
      var rest := Delays(filters[..|filters| - 1]);
      var last := filters[|filters| - 1];
      if last.RenderDelay? then rest + [last.milliseconds] else rest
  }

  // The outcome of capturing one source: its new state, its picture, and how many failures
  // and contract violations it adds.
  datatype Capture = Capture(instance: SourceInstance, picture: Option<Picture>, failures: nat, violations: nat)

  // The device answers: a frame, nothing, or a failure; a frame of the wrong shape breaks
  // the source's contract.
  function Poll(instance: SourceInstance, request: VideoRequest, rendered: Rendered): Capture {
    match rendered
    case Frame(picture) =>
      if picture.format == request.format then
        Capture(instance.(failing := false, lastFrame := Some(picture)), Some(picture), 0, 0)
      else Capture(instance.(failing := true), None, 1, 1)
    case Nothing => Capture(instance, None, 0, 0)
    case Failed(violation) => Capture(instance.(failing := true), None, 1, if violation then 1 else 0)
  }

  // The last good frame stands in for a missing one, if its shape still fits.
  function LastGood(instance: SourceInstance, request: VideoRequest): Option<Picture> {
    if instance.lastFrame.Some? && instance.lastFrame.value.format == request.format then
      Some(instance.lastFrame.value.(timestamp := request.timestamp))
    else None
  }

  function FallBack(c: Capture, request: VideoRequest): Capture {
    if c.picture.Some? then c else c.(picture := LastGood(c.instance, request))
  }

  // A delayed source shows what its history lets go, if anything.
  function DelayBy(c: Capture, delay: nat): Capture {
    if c.picture.None? || delay == 0 then c
    else
      var (ready, history) := Push(c.instance.history, c.picture.value);
      match ready
      case Ok(picture) => c.(instance := c.instance.(history := history), picture := picture)
      case Err(_) => Capture(c.instance.(history := history, failing := true), None, c.failures + 1, c.violations)
  }

  function DelayOf(filters: seq<FrameFilter>): nat {
    var delays := Delays(filters);
    if delays == [] then 0 else delays[0]
  }

  // At most one Render Delay filter, within its range.
  predicate ChainAccepted(filters: seq<FrameFilter>) {
    |Delays(filters)| <= 1 && DelayOf(filters) <= MAX_RENDER_DELAY_MILLISECONDS
  }

  // The picture before any delay: the device's, or the last good one.
  function CaptureLive(instance: SourceInstance, request: VideoRequest, rendered: Rendered): (c: Capture)
    requires ChainAccepted(instance.filters)
  {
    var history := Configured(instance.history, DelayOf(instance.filters)).value;
    var asked := instance.(history := history, served := instance.served + 1);
    FallBack(Poll(asked, request, rendered), request)
  }

  function CaptureSource(instance: SourceInstance, request: VideoRequest, rendered: Rendered): (c: Capture)
    ensures c.violations <= c.failures
    ensures instance.served <= c.instance.served <= instance.served + 1
    ensures c.instance.filters == instance.filters
  {
    if ChainAccepted(instance.filters) then DelayBy(CaptureLive(instance, request, rendered), DelayOf(instance.filters))
    else Capture(instance.(failing := true), None, 1, 0)
  }

  // Whatever a source shows, delayed or not, has the requested shape.
  lemma PictureHasRequestedFormat(instance: SourceInstance, request: VideoRequest, rendered: Rendered)
    requires CaptureSource(instance, request, rendered).picture.Some?
    ensures CaptureSource(instance, request, rendered).picture.value.format == request.format
  {
    hide Push, Delays;
    var live := CaptureLive(instance, request, rendered);
    assert live.picture.value.format == request.format;
    if DelayOf(instance.filters) != 0 {
      DelayedFrameIsOldEnough(live.instance.history, live.picture.value);
    }
  }

  // A device that delivers no frame of the requested shape does not blank its source: the last
  // good picture, restamped, is shown at once or enters the delay history in its place.
  lemma LastGoodPictureSurvives(instance: SourceInstance, request: VideoRequest, rendered: Rendered)
    requires ChainAccepted(instance.filters)
    requires instance.lastFrame.Some? && instance.lastFrame.value.format == request.format
    requires rendered.Frame? ==> rendered.picture.format != request.format
    ensures var live := CaptureLive(instance, request, rendered);
      var c := CaptureSource(instance, request, rendered);
      && live.picture == Some(instance.lastFrame.value.(timestamp := request.timestamp))
      && c.instance.lastFrame == instance.lastFrame
      && (DelayOf(instance.filters) == 0 ==> c.picture == live.picture)
      && (DelayOf(instance.filters) != 0 ==>
            var (ready, history) := Push(live.instance.history, live.picture.value);
            c.instance.history == history && c.picture == if ready.Ok? then ready.value else None)
  {
    hide Push, Delays;
  }

  // What a device answer does to a source whose filters are accepted: a frame of the requested
  // shape is taken and ends a failure, any other frame and any error count as one failure. A changed
  // delay starts an empty history.
  lemma AnswerIsTakenOrCounted(instance: SourceInstance, request: VideoRequest, rendered: Rendered)
    requires ChainAccepted(instance.filters)
    ensures var live := CaptureLive(instance, request, rendered);
      var wrongShape := rendered.Frame? && rendered.picture.format != request.format;
      && live.instance.served == instance.served + 1
      && (rendered.Frame? && !wrongShape ==>
            live.picture == Some(rendered.picture) == live.instance.lastFrame && !live.instance.failing)
      && (rendered.Nothing? ==> live.instance.failing == instance.failing)
      && (wrongShape || rendered.Failed? ==> live.instance.failing)
      && live.failures == (if wrongShape || rendered.Failed? then 1 else 0)
      && live.violations == (if wrongShape || rendered == Failed(true) then 1 else 0)
      && (DelayOf(instance.filters) == instance.history.milliseconds ==> live.instance.history == instance.history)
      && (DelayOf(instance.filters) != instance.history.milliseconds ==> live.instance.history.frames == [])
  {
    hide Delays;
  }

  // The delays of a chain, by position.
  lemma {:induction false} DelaysByPosition(filters: seq<FrameFilter>)
    ensures |Delays(filters)| <= 1 <==> forall i, j :: 0 <= i < j < |filters| ==> !(filters[i].RenderDelay? && filters[j].RenderDelay?)
    ensures Delays(filters) == [] <==> forall i :: 0 <= i < |filters| ==> filters[i].PixelFilter?
    ensures |Delays(filters)| == 1 ==> exists i :: 0 <= i < |filters| && filters[i] == RenderDelay(Delays(filters)[0])
  {
    if filters != [] {
      var front := filters[..|filters| - 1];
      DelaysByPosition(front);
      if |Delays(front)| == 1 {
        var i :| 0 <= i < |front| && front[i] == RenderDelay(Delays(front)[0]);
        assert filters[i] == front[i];
      }
      assert forall i :: 0 <= i < |front| ==> filters[i] == front[i];
    }
  }

  // A chain with two delays, or with one beyond half a second, is refused: the device is not
  // asked, nothing is shown, and one failure is counted. No other chain is.
  lemma ChainRefusedExactly(instance: SourceInstance, request: VideoRequest, rendered: Rendered)
    ensures var filters := instance.filters;
      ChainAccepted(filters) <==>
        && (forall i, j :: 0 <= i < j < |filters| ==> !(filters[i].RenderDelay? && filters[j].RenderDelay?))
        && (forall i :: 0 <= i < |filters| && filters[i].RenderDelay? ==> filters[i].milliseconds <= 500)
    ensures !ChainAccepted(instance.filters) ==>
      CaptureSource(instance, request, rendered) == Capture(instance.(failing := true), None, 1, 0)
  {
    var filters := instance.filters;
    DelaysByPosition(filters);
    hide Delays;
    if |Delays(filters)| == 1 {
      var i :| 0 <= i < |filters| && filters[i] == RenderDelay(Delays(filters)[0]);
      assert forall j :: 0 <= j < |filters| && filters[j].RenderDelay? ==> !(i < j) && !(j < i);
    }
  }

  // Behind a delay the live picture enters the history and the source shows what the history lets go;
  // a history that refuses the picture shows nothing, and counts one more failure.
  lemma HistoryDecides(instance: SourceInstance, request: VideoRequest, rendered: Rendered)
    requires ChainAccepted(instance.filters) && CaptureLive(instance, request, rendered).picture.Some?
    ensures var (live, c) := (CaptureLive(instance, request, rendered), CaptureSource(instance, request, rendered));
      var (ready, history) := Push(live.instance.history, live.picture.value);
      if DelayOf(instance.filters) == 0 then c == live
      else if ready.Ok? then c == live.(instance := live.instance.(history := history), picture := ready.value)
      else c == Capture(live.instance.(history := history, failing := true), None, live.failures + 1, live.violations)
  {
    hide Push, Delays, CaptureLive, IsHistory;
  }

  // Behind a Render Delay filter a source shows pixels that it had, live or retained, at least
  // that long ago.
  lemma DelayedSourceShowsOldPixels(instance: SourceInstance, request: VideoRequest, rendered: Rendered, i: nat)
    requires i < |instance.filters| && instance.filters[i].RenderDelay? && instance.filters[i].milliseconds > 0
    requires CaptureSource(instance, request, rendered).picture.Some?
    ensures ChainAccepted(instance.filters) && CaptureLive(instance, request, rendered).picture.Some?
    ensures var (shown, live) := (CaptureSource(instance, request, rendered).picture.value, CaptureLive(instance, request, rendered).picture.value);
      && shown.timestamp == live.timestamp
      && exists source :: source in instance.history.frames + [live] && source.pixels == shown.pixels
           && source.timestamp + instance.filters[i].milliseconds * 1_000_000 <= shown.timestamp
  {
    var filters, delay := instance.filters, DelayOf(instance.filters);
    DelaysByPosition(filters);
    hide Delays, Push, IsHistory;
    var k :| 0 <= k < |filters| && filters[k] == RenderDelay(Delays(filters)[0]);
    assert !(i < k) && !(k < i);
    var live := CaptureLive(instance, request, rendered);
    DelayedFrameIsOldEnough(live.instance.history, live.picture.value);
    assert live.instance.history.milliseconds == delay == filters[i].milliseconds;
    var source :| source in live.instance.history.frames + [live.picture.value]
      && source.pixels == CaptureSource(instance, request, rendered).picture.value.pixels
      && source.timestamp + delay * 1_000_000 <= live.picture.value.timestamp;
    assert source in instance.history.frames + [live.picture.value];
  }

  // ---- The reference renderer ----------------------------------------------------------

  datatype Layer = Layer(itemId: string, source: SourceId, picture: Picture, transform: FrameTransform, filters: seq<FrameFilter>)

  type Sources = map<SourceId, SourceInstance>

  // Every source is asked once, from the state it had before the call.
  function CaptureOf(sources: Sources, world: World, request: VideoRequest, source: SourceId): Capture
    requires source in sources
  {
    CaptureSource(sources[source], request, world(source, sources[source].served))
  }

  ghost predicate NoDanglingItem(sources: Sources, items: seq<SceneItem>) {
    forall i :: 0 <= i < |items| ==> items[i].source in sources
  }

  function LayerOf(sources: Sources, world: World, request: VideoRequest, item: SceneItem): seq<Layer>
    requires item.source in sources
  {
    var c := CaptureOf(sources, world, request, item.source);
    if c.picture.None? then []
    else [Layer(item.itemId, item.source, c.picture.value, item.transform, PixelFilters(sources[item.source].filters))]
  }

  // One layer per item whose source shows a picture, in item order.
  function Layers(sources: Sources, world: World, request: VideoRequest, items: seq<SceneItem>): (layers: seq<Layer>)
    requires NoDanglingItem(sources, items)
    ensures |layers| <= |items|
  {
    if items == [] then []
    else Layers(sources, world, request, items[..|items| - 1])
         + LayerOf(sources, world, request, items[|items| - 1])
  }

  predicate Mentions(items: seq<SceneItem>, source: SourceId) {
    exists i :: 0 <= i < |items| && items[i].source == source
  }

  // The distinct sources of a scene, by first appearance.
  function Distinct(items: seq<SceneItem>): seq<SourceId> {
    if items == [] then []
    else
      var front, last := items[..|items| - 1], items[|items| - 1].source;
      Distinct(front) + if Mentions(front, last) then [] else [last]
  }

  function Failures(sources: Sources, world: World, request: VideoRequest, asked: seq<SourceId>): nat
    requires forall s :: s in asked ==> s in sources
  {
    if asked == [] then 0
    else Failures(sources, world, request, asked[..|asked| - 1])
         + CaptureOf(sources, world, request, asked[|asked| - 1]).failures
  }

  function Violations(sources: Sources, world: World, request: VideoRequest, asked: seq<SourceId>): nat
    requires forall s :: s in asked ==> s in sources
  {
    if asked == [] then 0
    else Violations(sources, world, request, asked[..|asked| - 1])
         + CaptureOf(sources, world, request, asked[|asked| - 1]).violations
  }

  function Moved(layers: seq<Layer>): nat {
    if layers == [] then 0
    else Moved(layers[..|layers| - 1]) + if layers[|layers| - 1].transform == Identity then 0 else 1
  }

  function FilterApplications(layers: seq<Layer>): nat {
    if layers == [] then 0
    else FilterApplications(layers[..|layers| - 1]) + |layers[|layers| - 1].filters|
  }

  // The sources after the call: only the mentioned ones were asked, each of them once.
  function SourcesAfter(before: Sources, world: World, request: VideoRequest, items: seq<SceneItem>): (after: Sources)
    requires NoDanglingItem(before, items)
    ensures after.Keys == before.Keys
    ensures forall s :: s in before ==>
      && before[s].served <= after[s].served <= before[s].served + 1
      && (!Mentions(items, s) ==> after[s] == before[s])
  {
    map s | s in before :: if Mentions(items, s) then CaptureOf(before, world, request, s).instance else before[s]
  }

  datatype Metrics = Metrics(
    renderCalls: u64, sourceRequests: u64, sourceFrames: u64, emptySources: u64,
    transformedFrames: u64, filteredFrames: u64, failedSources: u64, contractViolations: u64)

  // What one call adds to the counters.
  datatype Tally = Tally(requests: nat, frames: nat, empty: nat, moved: nat, filters: nat, failures: nat, violations: nat)

  function Plus(a: Tally, b: Tally): Tally {
    Tally(a.requests + b.requests, a.frames + b.frames, a.empty + b.empty, a.moved + b.moved, a.filters + b.filters,
          a.failures + b.failures, a.violations + b.violations)
  }

  const NOTHING_COUNTED := Tally(0, 0, 0, 0, 0, 0, 0)

  function Counted(m: Metrics, t: Tally): Metrics {
    Metrics(m.renderCalls,
            SaturatingAdd(m.sourceRequests, t.requests), SaturatingAdd(m.sourceFrames, t.frames),
            SaturatingAdd(m.emptySources, t.empty), SaturatingAdd(m.transformedFrames, t.moved),
            SaturatingAdd(m.filteredFrames, t.filters), SaturatingAdd(m.failedSources, t.failures),
            SaturatingAdd(m.contractViolations, t.violations))
  }

  // Saturation does not depend on how the additions are split.
  lemma CountedTwice(m: Metrics, a: Tally, b: Tally)
    ensures Counted(Counted(m, a), b) == Counted(m, Plus(a, b))
  {
    SaturatingAddAdds(m.sourceRequests, a.requests, b.requests);
    SaturatingAddAdds(m.sourceFrames, a.frames, b.frames);
    SaturatingAddAdds(m.emptySources, a.empty, b.empty);
    SaturatingAddAdds(m.transformedFrames, a.moved, b.moved);
    SaturatingAddAdds(m.filteredFrames, a.filters, b.filters);
    SaturatingAddAdds(m.failedSources, a.failures, b.failures);
    SaturatingAddAdds(m.contractViolations, a.violations, b.violations);
    hide SaturatingAdd;
  }

  lemma SaturatingAddAdds(a: u64, x: nat, y: nat)
    ensures SaturatingAdd(SaturatingAdd(a, x), y) == SaturatingAdd(a, x + y)
  {
  }

  lemma CountedNothing(m: Metrics)
    ensures Counted(m, NOTHING_COUNTED) == m
  {
  }

  // The tally of rendering `items`: every item is either a frame or an empty source, and
  // only distinct sources can fail.
  function TallyOf(sources: Sources, world: World, request: VideoRequest, items: seq<SceneItem>): (t: Tally)
    requires NoDanglingItem(sources, items)
    ensures t.requests == |items| == t.frames + t.empty
    ensures t.violations <= t.failures
  {
    var layers := Layers(sources, world, request, items);
    DistinctMentioned(items);
    ViolationsAreFailures(sources, world, request, Distinct(items));
    Tally(|items|, |layers|, |items| - |layers|, Moved(layers), FilterApplications(layers),
          Failures(sources, world, request, Distinct(items)), Violations(sources, world, request, Distinct(items)))
  }

  lemma {:induction false} DistinctMentioned(items: seq<SceneItem>)
    ensures forall s :: s in Distinct(items) <==> Mentions(items, s)
    ensures forall i, j :: 0 <= i < j < |Distinct(items)| ==> Distinct(items)[i] != Distinct(items)[j]
  {
    if items != [] {
      var front, last := items[..|items| - 1], items[|items| - 1].source;
      DistinctMentioned(front);
      forall s ensures s in Distinct(items) <==> Mentions(items, s) {
        assert Mentions(front, s) ==> Mentions(items, s);
        assert items[|items| - 1].source == last;
      }
    }
  }

  // Violations never outnumber failures, in one call and so over any run.
  lemma {:induction false} ViolationsAreFailures(sources: Sources, world: World, request: VideoRequest, asked: seq<SourceId>)
    requires forall s :: s in asked ==> s in sources
    ensures Violations(sources, world, request, asked) <= Failures(sources, world, request, asked)
  {
    if asked != [] {
      ViolationsAreFailures(sources, world, request, asked[..|asked| - 1]);
    }
  }

  lemma MetricsStayOrdered(m: Metrics, t: Tally)
    requires m.contractViolations <= m.failedSources && t.violations <= t.failures
    ensures Counted(m, t).contractViolations <= Counted(m, t).failedSources
  {
  }

  // Items of one source show the same picture and the same filters.
  lemma {:induction false} SharedSourceSharesPicture(sources: Sources, world: World, request: VideoRequest, items: seq<SceneItem>, i: nat, j: nat)
    requires NoDanglingItem(sources, items)
    requires i < |Layers(sources, world, request, items)| && j < |Layers(sources, world, request, items)|
    requires Layers(sources, world, request, items)[i].source == Layers(sources, world, request, items)[j].source
    ensures var layers := Layers(sources, world, request, items);
      layers[i].picture == layers[j].picture && layers[i].filters == layers[j].filters
  {
    LayerShowsItsSource(sources, world, request, items, i);
    LayerShowsItsSource(sources, world, request, items, j);
  }

  lemma {:induction false} LayerShowsItsSource(sources: Sources, world: World, request: VideoRequest, items: seq<SceneItem>, i: nat)
    requires NoDanglingItem(sources, items) && i < |Layers(sources, world, request, items)|
    ensures var layer := Layers(sources, world, request, items)[i];
      && layer.source in sources && Mentions(items, layer.source)
      && CaptureOf(sources, world, request, layer.source).picture == Some(layer.picture)
      && layer.filters == PixelFilters(sources[layer.source].filters)
  {
    var front := items[..|items| - 1];
    if i < |Layers(sources, world, request, front)| {
      LayerShowsItsSource(sources, world, request, front, i);
      var k :| 0 <= k < |front| && front[k].source == Layers(sources, world, request, items)[i].source;
      assert items[k].source == front[k].source;
    } else {
      assert items[|items| - 1].source == Layers(sources, world, request, items)[i].source;
    }
  }

  // An item whose source shows a picture contributes a layer of that source.
  lemma {:induction false} ShownSourceHasLayer(sources: Sources, world: World, request: VideoRequest, items: seq<SceneItem>, source: SourceId) returns (i: nat)
    requires NoDanglingItem(sources, items) && Mentions(items, source)
    requires CaptureOf(sources, world, request, source).picture.Some?
    ensures i < |Layers(sources, world, request, items)| && Layers(sources, world, request, items)[i].source == source
  {
    var front := items[..|items| - 1];
    if items[|items| - 1].source == source {
      i := |Layers(sources, world, request, front)|;
    } else {
      var k :| 0 <= k < |items| && items[k].source == source;
      assert front[k].source == source;
      i := ShownSourceHasLayer(sources, world, request, front, source);
    }
  }

  // ---- One step of the render loop --------------------------------------------------------

  lemma MentionsOneMore(items: seq<SceneItem>, i: nat, source: SourceId)
    requires i < |items|
    ensures Mentions(items[..i + 1], source) <==> Mentions(items[..i], source) || items[i].source == source
  {
    if Mentions(items[..i], source) {
      var k :| 0 <= k < i && items[..i][k].source == source;
      assert items[..i + 1][k].source == source;
    }
    if items[i].source == source {
      assert items[..i + 1][i].source == source;
    }
  }

  lemma LayersOneMore(sources: Sources, world: World, request: VideoRequest, items: seq<SceneItem>, i: nat)
    requires NoDanglingItem(sources, items) && i < |items|
    ensures NoDanglingItem(sources, items[..i]) && NoDanglingItem(sources, items[..i + 1])
    ensures Layers(sources, world, request, items[..i + 1])
         == Layers(sources, world, request, items[..i]) + LayerOf(sources, world, request, items[i])
    ensures Distinct(items[..i + 1])
         == Distinct(items[..i]) + if Mentions(items[..i], items[i].source) then [] else [items[i].source]
  {
    assert items[..i + 1][..i] == items[..i];
  }

  lemma LayerTotals(front: seq<Layer>, more: seq<Layer>)
    requires |more| <= 1
    ensures Moved(front + more) == Moved(front) + Moved(more)
    ensures FilterApplications(front + more) == FilterApplications(front) + FilterApplications(more)
  {
    if more != [] {
      assert (front + more)[..|front|] == front && more[..0] == [];
    } else {
      assert front + more == front;
    }
  }

  // The totals, layer by layer: a layer counts as transformed unless it stands as captured, and with
  // as many filters as it carries.
  lemma OneLayerTotals(layer: Layer)
    ensures Moved([layer]) == (if layer.transform == Identity then 0 else 1) && FilterApplications([layer]) == |layer.filters|
    ensures Moved([]) == 0 == FilterApplications([])
  {
    assert [layer][..0] == [];
  }

  lemma FailureTotals(sources: Sources, world: World, request: VideoRequest, asked: seq<SourceId>, source: SourceId)
    requires source in sources && forall s :: s in asked ==> s in sources
    ensures forall s :: s in asked + [source] ==> s in sources
    ensures Failures(sources, world, request, asked + [source])
         == Failures(sources, world, request, asked) + CaptureOf(sources, world, request, source).failures
    ensures Violations(sources, world, request, asked + [source])
         == Violations(sources, world, request, asked) + CaptureOf(sources, world, request, source).violations
  {
    assert (asked + [source])[..|asked|] == asked;
    hide CaptureOf;
  }

  function CaptureTally(c: Capture): Tally {
    NOTHING_COUNTED.(failures := c.failures, violations := c.violations)
  }

  lemma AskedExist(sources: Sources, items: seq<SceneItem>)
    requires NoDanglingItem(sources, items)
    ensures forall s :: s in Distinct(items) ==> s in sources
  {
    DistinctMentioned(items);
  }

  // What an item adds: a request, and either its layer or an empty source.
  function ItemTally(more: seq<Layer>): Tally {
    if more == [] then NOTHING_COUNTED.(requests := 1, empty := 1)
    else NOTHING_COUNTED.(requests := 1, frames := 1, moved := Moved(more[..1]), filters := |more[0].filters|)
  }

  const REQUEST_COUNTED := NOTHING_COUNTED.(requests := 1)

  // The loop counts the request, the capture and the layer one after the other.
  lemma CountedInOrder(m: Metrics, t: Tally, capture: Tally, more: seq<Layer>)
    ensures Counted(Counted(Counted(Counted(m, t), REQUEST_COUNTED), capture), ItemTally(more).(requests := 0))
         == Counted(m, Plus(Plus(t, capture), ItemTally(more)))
  {
    var rest := ItemTally(more).(requests := 0);
    assert Plus(Plus(Plus(t, REQUEST_COUNTED), capture), rest) == Plus(Plus(t, capture), ItemTally(more)) by {
      hide Moved;
    }
    hide Counted, ItemTally, Plus;
    CountedTwice(m, t, REQUEST_COUNTED);
    CountedTwice(m, Plus(t, REQUEST_COUNTED), capture);
    CountedTwice(m, Plus(Plus(t, REQUEST_COUNTED), capture), rest);
  }

  lemma TallyOneMore(sources: Sources, world: World, request: VideoRequest, items: seq<SceneItem>, i: nat)
    requires NoDanglingItem(sources, items) && i < |items|
    ensures NoDanglingItem(sources, items[..i]) && NoDanglingItem(sources, items[..i + 1])
    ensures TallyOf(sources, world, request, items[..i + 1])
         == Plus(Plus(TallyOf(sources, world, request, items[..i]),
                      if Mentions(items[..i], items[i].source) then NOTHING_COUNTED
                      else CaptureTally(CaptureOf(sources, world, request, items[i].source))),
                 ItemTally(LayerOf(sources, world, request, items[i])))
  {
    hide CaptureOf, CaptureSource, Layers, Distinct, Mentions, LayerOf, Failures, Violations, Moved, FilterApplications;
    var source := items[i].source;
    var front, more := Layers(sources, world, request, items[..i]), LayerOf(sources, world, request, items[i]);
    LayersOneMore(sources, world, request, items, i);
    LayerAlone(sources, world, request, items[i]);
    LayerTotals(front, more);
    AskedExist(sources, items[..i]);
    var asked := Distinct(items[..i]);
    if Mentions(items[..i], source) {
      assert asked + [] == asked;
    } else {
      FailureTotals(sources, world, request, asked, source);
    }
  }

  lemma LayerAlone(sources: Sources, world: World, request: VideoRequest, item: SceneItem)
    requires item.source in sources
    ensures var more := LayerOf(sources, world, request, item);
      |more| <= 1 && (more != [] ==> more[..1] == more && FilterApplications(more) == |more[0].filters|)
      && Moved([]) == 0 && FilterApplications([]) == 0
  {
  }

  lemma EmptyLayer(sources: Sources, world: World, request: VideoRequest, item: SceneItem)
    requires item.source in sources
    ensures LayerOf(sources, world, request, item) == [] <==> CaptureOf(sources, world, request, item.source).picture.None?
  {
  }

  // The loop state after the first `i` items.
  datatype Progress = Progress(sources: Sources, layers: seq<Layer>, empty: seq<SourceId>, tally: Tally)

  ghost predicate RenderedTo(before: Sources, world: World, request: VideoRequest, items: seq<SceneItem>, i: nat, p: Progress)
    requires NoDanglingItem(before, items) && i <= |items|
  {
    && NoDanglingItem(before, items[..i])
    && p.layers == Layers(before, world, request, items[..i])
    && p.sources == SourcesAfter(before, world, request, items[..i])
    && p.tally == TallyOf(before, world, request, items[..i])
    && forall s :: s in p.empty <==> (s in before && Mentions(items[..i], s) && CaptureOf(before, world, request, s).picture.None?)
  }

  // An item adds a layer or an empty source, and its source is captured on first appearance.
  function AfterItem(before: Sources, world: World, request: VideoRequest, p: Progress, item: SceneItem, first: bool): Progress
    requires item.source in before
  {
    var c := CaptureOf(before, world, request, item.source);
    var more := LayerOf(before, world, request, item);
    Progress(if first then p.sources[item.source := c.instance] else p.sources,
             p.layers + more,
             if more == [] && first then p.empty + [item.source] else p.empty,
             Plus(Plus(p.tally, if first then CaptureTally(c) else NOTHING_COUNTED), ItemTally(more)))
  }

  lemma RenderStep(before: Sources, world: World, request: VideoRequest, items: seq<SceneItem>, i: nat, p: Progress)
    requires NoDanglingItem(before, items) && i < |items| && RenderedTo(before, world, request, items, i, p)
    ensures RenderedTo(before, world, request, items, i + 1,
                       AfterItem(before, world, request, p, items[i], !Mentions(items[..i], items[i].source)))
  {
    hide IsHistory, CaptureOf, CaptureSource, LayerOf, Mentions, Layers, Distinct, TallyOf, Plus, ItemTally, CaptureTally;
    var item := items[i];
    LayersOneMore(before, world, request, items, i);
    EmptyLayer(before, world, request, item);
    TallyOneMore(before, world, request, items, i);
    forall s ensures Mentions(items[..i + 1], s) <==> Mentions(items[..i], s) || item.source == s {
      MentionsOneMore(items, i, s);
    }
  }

  // A source that was already captured is either in the result or among the empty ones.
  lemma CacheHit(before: Sources, world: World, request: VideoRequest, items: seq<SceneItem>, i: nat, p: Progress)
    requires NoDanglingItem(before, items) && i < |items| && RenderedTo(before, world, request, items, i, p)
    ensures var item := items[i];
      var cached := exists k :: 0 <= k < |p.layers| && p.layers[k].source == item.source;
      && (Mentions(items[..i], item.source) <==> cached || item.source in p.empty)
      && !(cached && item.source in p.empty)
  {
    var item := items[i];
    forall k | 0 <= k < |p.layers| && p.layers[k].source == item.source
      ensures Mentions(items[..i], item.source) && CaptureOf(before, world, request, item.source).picture.Some?
    {
      LayerShowsItsSource(before, world, request, items[..i], k);
    }
    if Mentions(items[..i], item.source) && CaptureOf(before, world, request, item.source).picture.Some? {
      var k := ShownSourceHasLayer(before, world, request, items[..i], item.source);
    }
  }
}
