// Which items the layers of a render draw, where, and through which filters, over whole runs
// (crates/obs-rs-core/src/runtime.rs, crates/obs-rs-core/src/compositor.rs).
module LayerPlacements {
  import opened Numbers
  import opened Results
  import opened Identifiers
  import opened Numerals
  import opened ConfigText
  import opened SceneOrder
  import opened RenderDelays
  import opened Compositor
  import opened SceneGraph
  import opened PictureOrigins

  // ---- One render ----------------------------------------------------------------------------

  predicate Shows(sources: Sources, world: World, request: VideoRequest, source: SourceId) {
    source in sources && CaptureOf(sources, world, request, source).picture.Some?
  }

  // The items whose source shows a picture, in drawing order.
  function Shown(sources: Sources, world: World, request: VideoRequest, items: seq<SceneItem>): seq<SceneItem> {
    if items == [] then []
    else
      var front, last := items[..|items| - 1], items[|items| - 1];
      Shown(sources, world, request, front) + if Shows(sources, world, request, last.source) then [last] else []
  }

  predicate Draws(layer: Layer, item: SceneItem) {
    layer.itemId == item.itemId && layer.source == item.source && layer.transform == item.transform
  }

  // Layer by layer, a render draws the shown items under their own identity and transform.
  lemma {:induction false} LayersDrawShownItems(sources: Sources, world: World, request: VideoRequest, items: seq<SceneItem>)
    requires NoDanglingItem(sources, items)
    ensures var (layers, shown) := (Layers(sources, world, request, items), Shown(sources, world, request, items));
      |layers| == |shown| && forall k :: 0 <= k < |layers| ==> Draws(layers[k], shown[k])
  {
    if items != [] {
      hide CaptureOf, PixelFilters;
      LayersDrawShownItems(sources, world, request, items[..|items| - 1]);
    }
  }

  // The place of a shown item among the layers is the number of shown items before it.
  lemma {:induction false} ShownItemIsDrawn(sources: Sources, world: World, request: VideoRequest, items: seq<SceneItem>, i: nat) returns (k: nat)
    requires NoDanglingItem(sources, items) && i < |items| && Shows(sources, world, request, items[i].source)
    ensures k == |Shown(sources, world, request, items[..i])| < |Layers(sources, world, request, items)|
    ensures Draws(Layers(sources, world, request, items)[k], items[i])
  {
    hide CaptureOf, PixelFilters, Shows;
    var front := items[..|items| - 1];
    if i == |items| - 1 {
      LayersDrawShownItems(sources, world, request, items);
      k := |Shown(sources, world, request, front)|;
    } else {
      k := ShownItemIsDrawn(sources, world, request, front, i);
      assert front[..i] == items[..i];
    }
  }

  lemma LayersLast(sources: Sources, world: World, request: VideoRequest, items: seq<SceneItem>)
    requires NoDanglingItem(sources, items) && items != []
    ensures var front, last := items[..|items| - 1], items[|items| - 1];
      && Layers(sources, world, request, items) == Layers(sources, world, request, front) + LayerOf(sources, world, request, last)
      && Shown(sources, world, request, items)
           == Shown(sources, world, request, front) + if Shows(sources, world, request, last.source) then [last] else []
  {
    hide LayerOf, Shows;
  }

  lemma LayerMoved(sources: Sources, world: World, request: VideoRequest, item: SceneItem, transform: FrameTransform)
    requires item.source in sources
    ensures var (layer, moved) := (LayerOf(sources, world, request, item), LayerOf(sources, world, request, item.(transform := transform)));
      if Shows(sources, world, request, item.source) then |layer| == 1 && moved == [layer[0].(transform := transform)]
      else layer == moved == []
  {
    hide CaptureOf;
  }

  // Moving one item changes its own layer's transform and nothing else in the render.
  lemma {:induction false} MovingChangesOnlyItsLayer(sources: Sources, world: World, request: VideoRequest, items: seq<SceneItem>, i: nat, transform: FrameTransform)
    requires NoDanglingItem(sources, items) && i < |items|
    ensures var moved := items[i := items[i].(transform := transform)];
      var (before, k) := (Layers(sources, world, request, items), |Shown(sources, world, request, items[..i])|);
      && NoDanglingItem(sources, moved)
      && (if Shows(sources, world, request, items[i].source)
          then k < |before| && Layers(sources, world, request, moved) == before[k := before[k].(transform := transform)]
          else Layers(sources, world, request, moved) == before)
  {
    hide Layers, LayerOf, Shown, Shows;
    var moved := items[i := items[i].(transform := transform)];
    var front, k := items[..|items| - 1], |Shown(sources, world, request, items[..i])|;
    LayersLast(sources, world, request, items);
    LayersLast(sources, world, request, moved);
    if i == |items| - 1 {
      assert moved[..i] == front;
      LayersDrawShownItems(sources, world, request, front);
      LayerMoved(sources, world, request, items[i], transform);
    } else {
      assert moved[..|items| - 1] == front[i := front[i].(transform := transform)];
      assert front[..i] == items[..i];
      MovingChangesOnlyItsLayer(sources, world, request, front, i, transform);
      if Shows(sources, world, request, items[i].source) {
        var layers := Layers(sources, world, request, front);
        UpdateInFront(layers, LayerOf(sources, world, request, items[|items| - 1]), k, layers[k].(transform := transform));
      }
    }
  }

  lemma UpdateInFront<T>(front: seq<T>, rest: seq<T>, k: nat, x: T)
    requires k < |front|
    ensures front[k := x] + rest == (front + rest)[k := x]
  {
  }

  // ---- What later calls leave alone ------------------------------------------------------------

  // Calls that do not edit or destroy the scene.
  predicate LeavesScene(op: Op, scene: string) {
    !((EditsScene(op) || op.DestroyScene?) && op.scene == scene)
  }

  lemma SceneStays(v: RuntimeView, limits: RuntimeLimits, op: Op, scene: string)
    requires scene in v.scenes && LeavesScene(op, scene)
    ensures var next := Apply(v, limits, op).1; scene in next.scenes && next.scenes[scene] == v.scenes[scene]
  {
    hide AppendItem, RemoveItem, MoveItem, Reordered, Position, PositionById, IdentifierProblem, ByteLength, GeneratedId, IndexedId,
      IsItemId, Mentions, IsHistory, Trim, InUse, Layers, SourcesAfter, Dangling;
  }

  lemma {:induction false} SceneOutlastsRun(v: RuntimeView, limits: RuntimeLimits, ops: seq<Op>, scene: string)
    requires scene in v.scenes && forall k :: 0 <= k < |ops| ==> LeavesScene(ops[k], scene)
    ensures var last := Run(v, limits, ops).1; scene in last.scenes && last.scenes[scene] == v.scenes[scene]
    decreases ops
  {
    if ops != [] {
      SceneStays(v, limits, ops[0], scene);
      hide Apply, LeavesScene;
      SceneOutlastsRun(Apply(v, limits, ops[0]).1, limits, ops[1..], scene);
    }
  }

  // A render leaves every source it asked with what that source delivered, whether or not the
  // picture was shown at once.
  lemma RenderRemembersFrames(v: RuntimeView, limits: RuntimeLimits, scene: string, request: VideoRequest, world: World, source: SourceId)
    requires Consistent(v) && SceneProblem(v, scene).None? && Mentions(v.scenes[scene].items, source)
    requires source in v.sources && ChainAccepted(v.sources[source].filters)
    ensures var (before, after) := (v.sources[source], Apply(v, limits, RenderSceneLayers(scene, request, world)).1.sources);
      && source in after && after[source].served == before.served + 1
      && var rendered := world(source, before.served);
         if rendered.Frame? && rendered.picture.format == request.format
         then after[source].lastFrame == Some(rendered.picture) && (DelayOf(before.filters) == 0 ==> !after[source].failing)
         else after[source].lastFrame == before.lastFrame
  {
    hide Layers, IdentifierProblem, Push, Delays, IsHistory;
    assert SceneConsistent(v.scenes[scene], v.sources);
    NothingDangles(v.sources, v.scenes[scene].items);
  }

  // ---- Items over a run --------------------------------------------------------------------------

  predicate MovesItem(op: Op) {
    op.SetSourceTransform? || op.SetSceneItemTransform? || op.SetSceneItemTransformById?
  }

  // The item a moving call means: by index, the first of its source, or the first of its identity.
  predicate Means(op: Op, items: seq<SceneItem>, i: nat)
    requires MovesItem(op)
  {
    && i < |items|
    && match op
       case SetSceneItemTransform(_, index, _) => i == index
       case SetSourceTransform(_, source, _) => items[i].source == source && forall j :: 0 <= j < i ==> items[j].source != source
       case SetSceneItemTransformById(_, itemId, _) => items[i].itemId == itemId && forall j :: 0 <= j < i ==> items[j].itemId != itemId
  }

  // A moving call is accepted exactly for a valid, existing scene with such an item.
  lemma MoveAcceptedExactly(v: RuntimeView, limits: RuntimeLimits, op: Op)
    requires MovesItem(op)
    ensures Apply(v, limits, op).0.Done?
       <==> SceneProblem(v, op.scene).None? && exists i: nat :: Means(op, v.scenes[op.scene].items, i)
    ensures Apply(v, limits, op).0.Done? ==>
      forall i: nat :: Means(op, v.scenes[op.scene].items, i) ==>
        Apply(v, limits, op).1.scenes[op.scene].items == v.scenes[op.scene].items[i := v.scenes[op.scene].items[i].(transform := op.transform)]
  {
    hide IdentifierProblem;
    if SceneProblem(v, op.scene).None? {
      var items := v.scenes[op.scene].items;
      var found := match op
        case SetSceneItemTransform(_, index, _) => index
        case SetSourceTransform(_, source, _) => Position(items, source)
        case SetSceneItemTransformById(_, itemId, _) => PositionById(items, itemId)
        case _ => 0;
      assert found < |items| ==> Means(op, items, found);
      hide Position, PositionById;
      forall i: nat | Means(op, items, i) ensures found == i {
        assert !(found < i) && !(i < found);
      }
    }
  }

  // After an accepted move and any calls that leave the scene alone, a render in which the
  // item's source shows a picture draws that item with the new transform.
  lemma MovedItemIsDrawnMoved(v: RuntimeView, limits: RuntimeLimits, op: Op, i: nat, later: seq<Op>, request: VideoRequest, world: World)
      returns (k: nat)
    requires Consistent(v) && MovesItem(op) && Apply(v, limits, op).0.Done? && Means(op, v.scenes[op.scene].items, i)
    requires forall n :: 0 <= n < |later| ==> LeavesScene(later[n], op.scene)
    requires Shows(Run(Apply(v, limits, op).1, limits, later).1.sources, world, request, v.scenes[op.scene].items[i].source)
    ensures var reached := Run(Apply(v, limits, op).1, limits, later).1;
      var (reply, item) := (Apply(reached, limits, RenderSceneLayers(op.scene, request, world)).0, v.scenes[op.scene].items[i]);
      && reply.Rendered? && k < |reply.layers|
      && reply.layers[k].itemId == item.itemId && reply.layers[k].source == item.source
      && reply.layers[k].transform == op.transform
  {
    MoveAcceptedExactly(v, limits, op);
    ApplyKeepsConsistent(v, limits, op);
    var next := Apply(v, limits, op).1;
    k := SceneIsDrawn(next, limits, op.scene, i, later, request, world);
    hide Apply, Run, Consistent;
  }

  // Whatever happens to the rest of the graph: a scene that is left alone is drawn as it is.
  lemma SceneIsDrawn(v: RuntimeView, limits: RuntimeLimits, scene: string, i: nat, later: seq<Op>, request: VideoRequest, world: World)
      returns (k: nat)
    requires Consistent(v) && SceneProblem(v, scene).None? && i < |v.scenes[scene].items|
    requires forall n :: 0 <= n < |later| ==> LeavesScene(later[n], scene)
    requires Shows(Run(v, limits, later).1.sources, world, request, v.scenes[scene].items[i].source)
    ensures var reached := Run(v, limits, later).1;
      var reply := Apply(reached, limits, RenderSceneLayers(scene, request, world)).0;
      reply.Rendered? && k < |reply.layers| && Draws(reply.layers[k], v.scenes[scene].items[i])
  {
    SceneOutlastsRun(v, limits, later, scene);
    RunKeepsConsistent(v, limits, later);
    hide Run, Consistent, Layers, Shown, Shows, IdentifierProblem, Apply;
    var reached := Run(v, limits, later).1;
    RendersWhole(reached, limits, scene, request, world);
    k := ShownItemIsDrawn(reached.sources, world, request, v.scenes[scene].items, i);
  }

  lemma RendersWhole(v: RuntimeView, limits: RuntimeLimits, scene: string, request: VideoRequest, world: World)
    requires Consistent(v) && SceneProblem(v, scene).None?
    ensures NoDanglingItem(v.sources, v.scenes[scene].items)
    ensures Apply(v, limits, RenderSceneLayers(scene, request, world)).0 == Rendered(Layers(v.sources, world, request, v.scenes[scene].items))
  {
    hide Layers, IdentifierProblem, SourcesAfter;
    assert SceneConsistent(v.scenes[scene], v.sources);
    NothingDangles(v.sources, v.scenes[scene].items);
  }

  lemma NothingDangles(sources: Sources, items: seq<SceneItem>)
    requires NoDanglingItem(sources, items)
    ensures Dangling(sources, items) == |items| && items[..|items|] == items
  {
  }

  // ---- Attaching and detaching -----------------------------------------------------------------

  predicate AttachesItem(op: Op) {
    op.AttachSource? || op.AttachSourceInstance? || op.AttachSourceInstanceWithId?
  }

  // The identity that an attachment asks for, by its kind.
  predicate Names(op: Op, count: nat, itemId: string)
    requires AttachesItem(op)
  {
    match op
    case AttachSource(_, source) => itemId == "source-" + Decimal(source)
    case AttachSourceInstance(_, _) => itemId == "item-" + Decimal(count)
    case AttachSourceInstanceWithId(_, _, given) => itemId == given
  }

  // An accepted attachment adds one unmoved item behind all others, and nothing else.
  lemma AttachAddsOneItem(v: RuntimeView, limits: RuntimeLimits, op: Op) returns (item: SceneItem)
    requires AttachesItem(op) && !Apply(v, limits, op).0.Refused?
    ensures SceneProblem(v, op.scene).None?
    ensures var next := Apply(v, limits, op).1;
      && next == v.(scenes := v.scenes[op.scene := next.scenes[op.scene]])
      && next.scenes[op.scene].items == v.scenes[op.scene].items + [item]
      && item.source == op.source && item.transform == Identity && Names(op, |v.scenes[op.scene].items|, item.itemId)
  {
    hide IdentifierProblem, ByteLength, Decimal, IsHistory;
    var items := Apply(v, limits, op).1.scenes[op.scene].items;
    item := items[|items| - 1];
  }

  // After an accepted attachment and any calls that leave the scene alone, a render in which
  // the source shows a picture draws the new item last and unmoved.
  lemma AttachedItemIsDrawnLast(v: RuntimeView, limits: RuntimeLimits, op: Op, later: seq<Op>, request: VideoRequest, world: World)
    requires Consistent(v) && AttachesItem(op) && !Apply(v, limits, op).0.Refused?
    requires forall n :: 0 <= n < |later| ==> LeavesScene(later[n], op.scene)
    requires Shows(Run(Apply(v, limits, op).1, limits, later).1.sources, world, request, op.source)
    ensures SceneProblem(v, op.scene).None?
    ensures var reached := Run(Apply(v, limits, op).1, limits, later).1;
      var reply := Apply(reached, limits, RenderSceneLayers(op.scene, request, world)).0;
      && reply.Rendered? && reply.layers != []
      && var last := reply.layers[|reply.layers| - 1];
         last.source == op.source && last.transform == Identity && Names(op, |v.scenes[op.scene].items|, last.itemId)
  {
    var item := AttachAddsOneItem(v, limits, op);
    ApplyKeepsConsistent(v, limits, op);
    var next := Apply(v, limits, op).1;
    SceneOutlastsRun(next, limits, later, op.scene);
    RunKeepsConsistent(next, limits, later);
    hide Apply, Run, Consistent, IdentifierProblem, Layers, Shown, Shows, Names;
    var reached := Run(next, limits, later).1;
    RendersWhole(reached, limits, op.scene, request, world);
    var items := reached.scenes[op.scene].items;
    LayersDrawShownItems(reached.sources, world, request, items);
    LayersLast(reached.sources, world, request, items);
  }

  lemma WithoutInFront<T>(front: seq<T>, rest: seq<T>, k: nat)
    requires k < |front|
    ensures Without(front, k) + rest == Without(front + rest, k)
  {
  }

  // Taking one item out takes its own layer out and leaves the rest of the render as it was.
  lemma {:induction false} RemovingDropsOnlyItsLayer(sources: Sources, world: World, request: VideoRequest, items: seq<SceneItem>, i: nat)
    requires NoDanglingItem(sources, items) && i < |items|
    ensures var (before, k) := (Layers(sources, world, request, items), |Shown(sources, world, request, items[..i])|);
      && NoDanglingItem(sources, Without(items, i))
      && (if Shows(sources, world, request, items[i].source)
          then k < |before| && Layers(sources, world, request, Without(items, i)) == Without(before, k)
          else Layers(sources, world, request, Without(items, i)) == before)
  {
    hide Layers, LayerOf, Shown, Shows;
    var rest := Without(items, i);
    var front, k := items[..|items| - 1], |Shown(sources, world, request, items[..i])|;
    LayersLast(sources, world, request, items);
    if i == |items| - 1 {
      assert rest == front;
      LayersDrawShownItems(sources, world, request, front);
      LayerMoved(sources, world, request, items[i], Identity);
    } else {
      LayersLast(sources, world, request, rest);
      assert rest[..|rest| - 1] == Without(front, i) && rest[|rest| - 1] == items[|items| - 1];
      assert front[..i] == items[..i];
      RemovingDropsOnlyItsLayer(sources, world, request, front, i);
      if Shows(sources, world, request, items[i].source) {
        WithoutInFront(Layers(sources, world, request, front), LayerOf(sources, world, request, items[|items| - 1]), k);
      }
    }
  }

  // A detachment is accepted exactly for an item of the source in a valid, existing scene, and
  // takes the first such item out.
  lemma DetachAcceptedExactly(v: RuntimeView, limits: RuntimeLimits, scene: string, source: SourceId)
    ensures var (reply, next) := Apply(v, limits, DetachSource(scene, source));
      && (reply.Done? <==> SceneProblem(v, scene).None? && Mentions(v.scenes[scene].items, source))
      && (reply.Done? ==>
            forall i: nat :: Means(SetSourceTransform(scene, source, Identity), v.scenes[scene].items, i) ==>
              next.scenes[scene].items == Without(v.scenes[scene].items, i))
  {
    hide IdentifierProblem;
    if SceneProblem(v, scene).None? {
      var items := v.scenes[scene].items;
      var found := Position(items, source);
      hide Position, Without;
      forall i: nat | Means(SetSourceTransform(scene, source, Identity), items, i) ensures found == i {
        assert !(found < i) && !(i < found);
      }
    }
  }

  // With its scene destroyed, a source can be destroyed exactly when no other scene shows it.
  lemma DestroyedSceneReleasesItsSources(v: RuntimeView, limits: RuntimeLimits, scene: string, source: SourceId)
    requires Apply(v, limits, DestroyScene(scene)).0.Done?
    ensures var next := Apply(v, limits, DestroyScene(scene)).1;
      && (forall request, world :: Apply(next, limits, RenderSceneLayers(scene, request, world)).0 == Refused(UnknownScene(scene)))
      && (Apply(next, limits, DestroySource(source)).0.Done? <==>
            source in v.sources && forall other :: other in v.scenes && other != scene ==> !Mentions(v.scenes[other].items, source))
  {
    hide IdentifierProblem, Mentions;
    var next := Apply(v, limits, DestroyScene(scene)).1;
    forall other ensures other in next.scenes <==> other in v.scenes && other != scene {}
    forall other | other in next.scenes ensures next.scenes[other] == v.scenes[other] {}
  }

  // ---- Filters over a run ------------------------------------------------------------------------

  // Calls that do not touch the filters of the source.
  predicate LeavesFilters(op: Op, source: SourceId) {
    !((op.AddSourceFilter? || op.ClearSourceFilters? || op.DestroySource?) && op.source == source)
  }

  lemma RenderKeepsFilters(v: RuntimeView, scene: string, request: VideoRequest, world: World, source: SourceId)
    requires source in v.sources
    ensures var next := SceneRendered(v, scene, request, world).1;
      source in next.sources && next.sources[source].filters == v.sources[source].filters
  {
    hide Layers, IdentifierProblem, Dangling, CaptureSource, Mentions, IsHistory;
  }

  lemma FiltersStay(v: RuntimeView, limits: RuntimeLimits, op: Op, source: SourceId)
    requires Consistent(v) && source in v.sources && LeavesFilters(op, source)
    ensures var next := Apply(v, limits, op).1; source in next.sources && next.sources[source].filters == v.sources[source].filters
  {
    if EditsScene(op) {
      SceneEditKeepsSources(v, limits, op);
      hide Apply, Consistent;
    } else if op.RenderSceneLayers? {
      RenderKeepsFilters(v, op.scene, op.request, op.world, source);
      hide SceneRendered, Consistent;
    } else {
      hide Trim, IdentifierProblem, ByteLength, InUse, IsHistory, SceneRendered;
    }
  }

  lemma {:induction false} FiltersOutlastRun(v: RuntimeView, limits: RuntimeLimits, ops: seq<Op>, source: SourceId)
    requires Consistent(v) && source in v.sources && forall k :: 0 <= k < |ops| ==> LeavesFilters(ops[k], source)
    ensures var last := Run(v, limits, ops).1; source in last.sources && last.sources[source].filters == v.sources[source].filters
    decreases ops
  {
    if ops != [] {
      FiltersStay(v, limits, ops[0], source);
      ApplyKeepsConsistent(v, limits, ops[0]);
      hide Apply, LeavesFilters, Consistent;
      FiltersOutlastRun(Apply(v, limits, ops[0]).1, limits, ops[1..], source);
    }
  }

  // Every layer of the source carries exactly these filters.
  predicate Filtered(reply: Reply, source: SourceId, filters: seq<FrameFilter>) {
    reply.Rendered? ==> forall k :: 0 <= k < |reply.layers| && reply.layers[k].source == source ==> reply.layers[k].filters == filters
  }

  lemma LayersCarryTheFilters(v: RuntimeView, limits: RuntimeLimits, scene: string, request: VideoRequest, world: World, source: SourceId)
    requires source in v.sources
    ensures Filtered(Apply(v, limits, RenderSceneLayers(scene, request, world)).0, source, PixelFilters(v.sources[source].filters))
  {
    hide Layers, IdentifierProblem, SourcesAfter, PixelFilters, CaptureOf;
    if SceneProblem(v, scene).None? {
      var items := v.scenes[scene].items[..Dangling(v.sources, v.scenes[scene].items)];
      hide Dangling;
      var layers := Layers(v.sources, world, request, items);
      forall k | 0 <= k < |layers| && layers[k].source == source ensures layers[k].filters == PixelFilters(v.sources[source].filters) {
        LayerShowsItsSource(v.sources, world, request, items, k);
      }
    }
  }

  lemma FilterAddedExactly(v: RuntimeView, limits: RuntimeLimits, source: SourceId, filter: FrameFilter)
    ensures var (reply, next) := Apply(v, limits, AddSourceFilter(source, filter));
      && (reply.Done? <==> source in v.sources && |v.sources[source].filters| < limits.maxFiltersPerSource)
      && (reply.Done? ==> source in next.sources && next.sources[source].filters == v.sources[source].filters + [filter])
  {
  }

  lemma PixelFiltersLast(filters: seq<FrameFilter>, filter: FrameFilter)
    ensures PixelFilters(filters + [filter]) == PixelFilters(filters) + if filter.PixelFilter? then [filter] else []
  {
    assert (filters + [filter])[..|filters|] == filters;
  }

  // A filter is added exactly within the limit; a pixel filter then runs behind all earlier ones
  // on every layer of the source until its filters are touched again, a delay is not handed on.
  lemma AddedFilterIsApplied(v: RuntimeView, limits: RuntimeLimits, source: SourceId, filter: FrameFilter, later: seq<Op>,
                             scene: string, request: VideoRequest, world: World)
    requires Consistent(v) && forall k :: 0 <= k < |later| ==> LeavesFilters(later[k], source)
    ensures var (reply, next) := Apply(v, limits, AddSourceFilter(source, filter));
      && (reply.Done? <==> source in v.sources && |v.sources[source].filters| < limits.maxFiltersPerSource)
      && (reply.Done? ==>
            Filtered(Apply(Run(next, limits, later).1, limits, RenderSceneLayers(scene, request, world)).0, source,
                     PixelFilters(v.sources[source].filters) + if filter.PixelFilter? then [filter] else []))
  {
    hide Apply, Run, Consistent, Filtered, PixelFilters;
    var op := AddSourceFilter(source, filter);
    var (reply, next) := Apply(v, limits, op);
    FilterAddedExactly(v, limits, source, filter);
    if reply.Done? {
      PixelFiltersLast(v.sources[source].filters, filter);
      ApplyKeepsConsistent(v, limits, op);
      FiltersOutlastRun(next, limits, later, source);
      LayersCarryTheFilters(Run(next, limits, later).1, limits, scene, request, world, source);
    }
  }

  lemma FiltersClearedExactly(v: RuntimeView, limits: RuntimeLimits, source: SourceId)
    requires source in v.sources
    ensures var (reply, next) := Apply(v, limits, ClearSourceFilters(source));
      reply.Done? && source in next.sources && next.sources[source].filters == [] == PixelFilters([])
  {
  }

  lemma ClearedFiltersAreNotApplied(v: RuntimeView, limits: RuntimeLimits, source: SourceId, later: seq<Op>,
                                    scene: string, request: VideoRequest, world: World)
    requires Consistent(v) && source in v.sources && forall k :: 0 <= k < |later| ==> LeavesFilters(later[k], source)
    ensures var (reply, next) := Apply(v, limits, ClearSourceFilters(source));
      reply.Done? && Filtered(Apply(Run(next, limits, later).1, limits, RenderSceneLayers(scene, request, world)).0, source, [])
  {
    hide Apply, Run, Consistent, Filtered, PixelFilters;
    var next := Apply(v, limits, ClearSourceFilters(source)).1;
    FiltersClearedExactly(v, limits, source);
    ApplyKeepsConsistent(v, limits, ClearSourceFilters(source));
    FiltersOutlastRun(next, limits, later, source);
    LayersCarryTheFilters(Run(next, limits, later).1, limits, scene, request, world, source);
  }
}
