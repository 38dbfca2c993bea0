// Where the pictures of a run come from: what a source shows after its filters or its settings
// changed (crates/obs-rs-core/src/runtime.rs, crates/obs-rs-core/src/compositor.rs).
module PictureOrigins {
  import opened Numbers
  import opened Results
  import opened Identifiers
  import opened ConfigText
  import opened SceneOrder
  import opened RenderDelays
  import opened Compositor
  import opened SceneGraph

  // A property of pixel storages, such as "not captured before the change".
  type Origin = nat -> bool

  predicate AllFrom(origin: Origin, frames: seq<Picture>) {
    forall i :: 0 <= i < |frames| ==> origin(frames[i].pixels)
  }

  // Everything that a source retains.
  predicate RetainsOnly(origin: Origin, instance: SourceInstance) {
    && (instance.lastFrame.Some? ==> origin(instance.lastFrame.value.pixels))
    && AllFrom(origin, instance.history.frames)
  }

  predicate Delivers(origin: Origin, rendered: Rendered) {
    rendered.Frame? ==> origin(rendered.picture.pixels)
  }

  // Everything that the device behind `source` may answer.
  ghost predicate DeviceDelivers(origin: Origin, source: SourceId, world: World) {
    forall served: nat :: Delivers(origin, world(source, served))
  }

  ghost predicate CallsDeliver(origin: Origin, source: SourceId, ops: seq<Op>) {
    forall k :: 0 <= k < |ops| && ops[k].RenderSceneLayers? ==> DeviceDelivers(origin, source, ops[k].world)
  }

  // ---- One capture -------------------------------------------------------------------------

  lemma PushKeepsOrigin(origin: Origin, h: History, frame: Picture)
    requires AllFrom(origin, h.frames) && origin(frame.pixels)
    ensures AllFrom(origin, Push(h, frame).1.frames)
    ensures Push(h, frame).0.Ok? && Push(h, frame).0.value.Some? ==> origin(Push(h, frame).0.value.value.pixels)
  {
    var adopted := Adopted(h, frame.format);
    var joined := Joined(adopted, frame);
    assert AllFrom(origin, joined) && AllFrom(origin, joined[1..]) && origin(joined[0].pixels);
    hide BudgetProblem, RoomProblem, BytesOf, Joined;
  }

  lemma CaptureKeepsOrigin(origin: Origin, instance: SourceInstance, request: VideoRequest, rendered: Rendered)
    requires RetainsOnly(origin, instance) && Delivers(origin, rendered)
    ensures var c := CaptureSource(instance, request, rendered);
      RetainsOnly(origin, c.instance) && (c.picture.Some? ==> origin(c.picture.value.pixels))
  {
    hide Push, Delays;
    if ChainAccepted(instance.filters) {
      var live := CaptureLive(instance, request, rendered);
      assert RetainsOnly(origin, live.instance);
      if live.picture.Some? {
        PushKeepsOrigin(origin, live.instance.history, live.picture.value);
      }
    }
  }

  // ---- Whole runs ----------------------------------------------------------------------------

  // What the graph retains for one source.
  predicate SourceRetainsOnly(origin: Origin, v: RuntimeView, source: SourceId) {
    source in v.sources ==> RetainsOnly(origin, v.sources[source])
  }

  // Every layer of the source in one answer.
  predicate ShowsOnly(origin: Origin, reply: Reply, source: SourceId) {
    reply.Rendered? ==>
      forall i :: 0 <= i < |reply.layers| && reply.layers[i].source == source ==> origin(reply.layers[i].picture.pixels)
  }

  lemma RenderKeepsOrigin(origin: Origin, v: RuntimeView, scene: string, request: VideoRequest, world: World, source: SourceId)
    requires SourceRetainsOnly(origin, v, source) && DeviceDelivers(origin, source, world)
    ensures var (reply, next) := SceneRendered(v, scene, request, world);
      SourceRetainsOnly(origin, next, source) && ShowsOnly(origin, reply, source)
  {
    if SceneProblem(v, scene).None? {
      var items := v.scenes[scene].items[..Dangling(v.sources, v.scenes[scene].items)];
      if source in v.sources {
        CaptureKeepsOrigin(origin, v.sources[source], request, world(source, v.sources[source].served));
      }
      hide CaptureSource, Dangling, RetainsOnly;
      var layers := Layers(v.sources, world, request, items);
      forall i | 0 <= i < |layers| && layers[i].source == source ensures origin(layers[i].picture.pixels) {
        LayerShowsItsSource(v.sources, world, request, items, i);
      }
      hide Layers;
    }
  }

  lemma ApplyKeepsOrigin(origin: Origin, v: RuntimeView, limits: RuntimeLimits, op: Op, source: SourceId)
    requires SourceRetainsOnly(origin, v, source)
    requires op.RenderSceneLayers? ==> DeviceDelivers(origin, source, op.world)
    ensures var (reply, next) := Apply(v, limits, op);
      SourceRetainsOnly(origin, next, source) && ShowsOnly(origin, reply, source)
  {
    if op.RenderSceneLayers? {
      RenderKeepsOrigin(origin, v, op.scene, op.request, op.world, source);
    } else {
      OtherCallsKeepOrigin(origin, v, limits, op, source);
    }
    hide SceneRendered, SourceRetainsOnly, ShowsOnly;
  }

  lemma SceneEditKeepsSources(v: RuntimeView, limits: RuntimeLimits, op: Op)
    requires EditsScene(op)
    ensures Apply(v, limits, op).1.sources == v.sources && !Apply(v, limits, op).0.Rendered?
  {
    hide AppendItem, RemoveItem, MoveItem, Reordered, Position, PositionById, IdentifierProblem, ByteLength, GeneratedId, IndexedId,
      IsItemId, Mentions, IsHistory;
  }

  lemma OtherCallsKeepOrigin(origin: Origin, v: RuntimeView, limits: RuntimeLimits, op: Op, source: SourceId)
    requires SourceRetainsOnly(origin, v, source) && !op.RenderSceneLayers?
    ensures SourceRetainsOnly(origin, Apply(v, limits, op).1, source) && !Apply(v, limits, op).0.Rendered?
  {
    if EditsScene(op) {
      SceneEditKeepsSources(v, limits, op);
      hide Apply;
    } else {
      hide Trim, IdentifierProblem, ByteLength, InUse, IsHistory;
      assert AllFrom(origin, []);
    }
  }

  lemma {:induction false} RunKeepsOrigin(origin: Origin, v: RuntimeView, limits: RuntimeLimits, ops: seq<Op>, source: SourceId)
    requires SourceRetainsOnly(origin, v, source) && CallsDeliver(origin, source, ops)
    ensures forall reply :: reply in Run(v, limits, ops).0 ==> ShowsOnly(origin, reply, source)
    decreases ops
  {
    if ops != [] {
      ApplyKeepsOrigin(origin, v, limits, ops[0], source);
      forall k | 0 <= k < |ops[1..]| && ops[1..][k].RenderSceneLayers? ensures DeviceDelivers(origin, source, ops[1..][k].world) {
        assert ops[k + 1] == ops[1..][k];
      }
      hide Apply, SourceRetainsOnly, ShowsOnly, DeviceDelivers;
      RunKeepsOrigin(origin, Apply(v, limits, ops[0]).1, limits, ops[1..], source);
    }
  }

  // After its filters were cleared, and whatever is called later, filters put back included, a
  // source shows only what its device delivered since, or its last good picture: nothing
  // that only the delay history still held.
  lemma ClearedFiltersForgetTheHistory(origin: Origin, v: RuntimeView, limits: RuntimeLimits, source: SourceId, ops: seq<Op>)
    requires source in v.sources
    requires v.sources[source].lastFrame.Some? ==> origin(v.sources[source].lastFrame.value.pixels)
    requires CallsDeliver(origin, source, ops)
    ensures forall reply :: reply in Run(FiltersCleared(v, source).1, limits, ops).0 ==> ShowsOnly(origin, reply, source)
  {
    RunKeepsOrigin(origin, FiltersCleared(v, source).1, limits, ops, source);
  }

  // After its settings were updated, taken or rejected, a source shows only what its device
  // delivered since.
  lemma UpdatedSourceForgetsEverything(origin: Origin, v: RuntimeView, limits: RuntimeLimits, source: SourceId, accepted: bool, ops: seq<Op>)
    requires source in v.sources && CallsDeliver(origin, source, ops)
    ensures forall reply :: reply in Run(SourceUpdated(v, source, accepted).1, limits, ops).0 ==> ShowsOnly(origin, reply, source)
  {
    RunKeepsOrigin(origin, SourceUpdated(v, source, accepted).1, limits, ops, source);
  }
}
