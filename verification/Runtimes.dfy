// The runtime: its reference counts and running totals answer in constant time what the
// scene graph would answer by scanning (crates/obs-rs-core/src/runtime.rs, compositor.rs).
module Runtimes {
  import opened Numbers
  import opened Results
  import opened Identifiers
  import opened ConfigText
  import opened SceneOrder
  import opened RenderDelays
  import opened Compositor
  import opened SceneGraph
  import opened References
  import opened Scenes

  class Runtime {
    const limits: RuntimeLimits
    var sources: Sources
    var scenes: map<string, Scene>
    var sceneReferences: map<SourceId, nat>
    var filterCount: nat
    var nextSourceId: u64
    var metrics: Metrics

    ghost function SceneViews(): map<string, SceneView>
      reads this`scenes, scenes.Values
    {
      map name | name in scenes :: scenes[name].View()
    }

    // The runtime without its mirrors.
    ghost function View(): RuntimeView
      reads this, scenes.Values
    {
      RuntimeView(sources, SceneViews(), nextSourceId)
    }

    // Every scene owns its own object and keeps its own mirrors.
    ghost predicate Separate()
      reads this`scenes, scenes.Values
    {
      && (forall name :: name in scenes ==> scenes[name].Valid())
      && (forall a, b :: a in scenes && b in scenes && a != b ==> scenes[a] != scenes[b])
    }

    ghost predicate Valid()
      reads this, scenes.Values
    {
      && Separate()
      && Consistent(View())
      && CountsMatch(sceneReferences, SceneReferences(SceneViews()))
      && filterCount == FilterTotal(sources)
      && metrics.contractViolations <= metrics.failedSources
    }

    constructor (limits: RuntimeLimits)
      ensures Valid() && View() == EMPTY && this.limits == limits && scenes == map[]
      ensures metrics == Metrics(0, 0, 0, 0, 0, 0, 0, 0)
    {
      this.limits := limits;
      sources, scenes, sceneReferences, filterCount, nextSourceId := map[], map[], map[], 0, 1;
      metrics := Metrics(0, 0, 0, 0, 0, 0, 0, 0);
    }

    // The usage snapshot equals a walk over every filter chain.
    method Usage() returns (sceneCount: nat, sourceCount: nat, filters: nat)
      requires Valid()
      ensures sceneCount == |View().scenes| && sourceCount == |View().sources| && filters == FilterTotal(View().sources)
    {
      assert SceneViews().Keys == scenes.Keys;
      return |scenes|, |sources|, filterCount;
    }

    // ---- Reference counting ----------------------------------------------------------------

    method Acquire(source: SourceId, ghost all: multiset<SourceId>)
      requires CountsMatch(sceneReferences, all)
      modifies this`sceneReferences
      ensures CountsMatch(sceneReferences, all + multiset{source})
    {
      IncrementMatches(sceneReferences, all, source);
      sceneReferences := Increment(sceneReferences, source);
    }

    // `release_scene_reference`: the decrement never underflows, and zero is forgotten.
    method Release(source: SourceId, ghost all: multiset<SourceId>)
      requires CountsMatch(sceneReferences, all) && source in all
      modifies this`sceneReferences
      ensures CountsMatch(sceneReferences, all - multiset{source})
    {
      if source in sceneReferences {
        var count: nat := sceneReferences[source] - 1;
        sceneReferences := if count == 0 then sceneReferences - {source} else sceneReferences[source := count];
      }
    }

    method ReleaseAll(list: seq<SourceId>, ghost rest: multiset<SourceId>)
      requires CountsMatch(sceneReferences, multiset(list) + rest)
      modifies this`sceneReferences
      ensures CountsMatch(sceneReferences, rest)
    {
      assert list[0..] == list;
      for i := 0 to |list|
        invariant CountsMatch(sceneReferences, multiset(list[i..]) + rest)
      {
        assert list[i..] == [list[i]] + list[i + 1..];
        Release(list[i], multiset(list[i..]) + rest);
        assert multiset(list[i..]) + rest - multiset{list[i]} == multiset(list[i + 1..]) + rest;
      }
      assert multiset(list[|list|..]) + rest == rest;
    }

    // ---- The view and its scenes -------------------------------------------------------------

    lemma SceneOf(name: string)
      requires Separate()
      ensures SceneViews().Keys == scenes.Keys
      ensures name in scenes ==> SceneViews()[name] == scenes[name].View() && scenes[name].Valid()
    {
    }

    // Editing one scene object edits one scene of the view.
    twostate lemma Edited(name: string)
      requires old(Separate()) && scenes == old(scenes) && name in scenes && scenes[name].Valid()
      requires forall other :: other in scenes.Values && other != scenes[name] ==> unchanged(other)
      ensures Separate() && SceneViews() == old(SceneViews())[name := scenes[name].View()]
    {
      forall n | n in scenes && n != name ensures scenes[n].Valid() && scenes[n].View() == old(scenes[n].View()) {
        assert scenes[n] in scenes.Values;
      }
    }

    twostate lemma Added(name: string, new scene: Scene)
      requires old(Separate()) && name !in old(scenes) && scenes == old(scenes)[name := scene]
      requires scene.Valid() && scene !in old(scenes).Values
      requires forall other :: other in old(scenes).Values ==> unchanged(other)
      ensures Separate() && SceneViews() == old(SceneViews())[name := scene.View()]
    {
      forall n | n in old(scenes) ensures scenes[n].Valid() && scenes[n].View() == old(scenes[n].View()) && scenes[n] != scene {
        assert scenes[n] in old(scenes).Values;
      }
    }

    twostate lemma Dropped(name: string)
      requires old(Separate()) && scenes == old(scenes) - {name}
      requires forall other :: other in old(scenes).Values ==> unchanged(other)
      ensures Separate() && SceneViews() == old(SceneViews()) - {name}
    {
      forall n | n in scenes ensures scenes[n].Valid() && scenes[n].View() == old(scenes[n].View()) {
        assert scenes[n] in old(scenes).Values;
      }
    }

    // ---- Scenes and sources ----------------------------------------------------------------

    method CreateScene(name: string) returns (r: Reply)
      requires Valid()
      modifies this`scenes
      ensures Valid() && fresh(scenes.Values - old(scenes.Values))
      ensures (r, View()) == SceneCreated(old(View()), limits, name)
    {
      hide Consistent, CountsMatch, SceneReferences, IdentifierProblem, Separate, SceneViews;
      SceneOf(name);
      if |scenes| >= limits.maxScenes {
        return Refused(ResourceLimitExceeded("scenes", limits.maxScenes));
      }
      if IdentifierProblem(name).Some? {
        return Refused(InvalidIdentifier("scene", IdentifierProblem(name).value));
      }
      if name in scenes {
        return Refused(DuplicateScene(name));
      }
      WithSceneConsistent(View(), name, SceneView([], {}));
      AddedSceneReferences(SceneViews(), name, SceneView([], {}));
      var scene := new Scene();
      scenes := scenes[name := scene];
      Added(name, scene);
      assert multiset(SourcesOf([])) == multiset{};
      return Done;
    }

    method CreateSource(kind: string, name: string, factory: FactoryAnswer) returns (r: Reply)
      requires Valid()
      modifies this`sources, this`nextSourceId
      ensures Valid() && scenes == old(scenes)
      ensures (r, View()) == SourceAdded(old(View()), limits, kind, name, factory)
    {
      hide Consistent, CountsMatch, SceneReferences, IdentifierProblem, Separate, SceneViews, Trim, FilterTotal;
      if |sources| >= limits.maxSources {
        return Refused(ResourceLimitExceeded("sources", limits.maxSources));
      }
      if Trim(name) == [] {
        return Refused(InvalidName("source"));
      }
      if IdentifierProblem(kind).Some? {
        return Refused(InvalidIdentifier("source kind", IdentifierProblem(kind).value));
      }
      match factory {
        case NoFactory => return Refused(UnknownSourceKind(kind));
        case FactoryRefused => return Refused(SourceRejected);
        case FactoryCreated =>
      }
      var id := nextSourceId;
      if nextSourceId == U64_MAX {
        return Refused(IdExhausted);
      }
      var instance := SourceInstance(kind, name, [], None, false, 0, NO_HISTORY);
      NewSourceConsistent(View(), instance);
      ReplaceSource(sources, id, instance);
      nextSourceId := nextSourceId + 1;
      sources := sources[id := instance];
      return SourceCreated(id);
    }

    method DestroySource(source: SourceId) returns (r: Reply)
      requires Valid()
      modifies this`sources, this`filterCount
      ensures Valid() && scenes == old(scenes)
      ensures (r, View()) == SourceDestroyed(old(View()), source)
    {
      hide Consistent, SceneReferences, Separate, SceneViews, FilterTotal;
      if source !in sources {
        return Refused(UnknownSource(source));
      }
      // One hashed lookup instead of scanning every scene.
      ReferencedMeansInUse(SceneViews(), source);
      if source in sceneReferences {
        return Refused(SourceInUse(source));
      }
      UnusedSourceConsistent(View(), source);
      SplitSource(sources, source);
      filterCount := SaturatingSub(filterCount, |sources[source].filters|);
      sources := sources - {source};
      return Done;
    }

    method AddSourceFilter(source: SourceId, filter: FrameFilter) returns (r: Reply)
      requires Valid()
      modifies this`sources, this`filterCount
      ensures Valid() && scenes == old(scenes)
      ensures (r, View()) == FilterAdded(old(View()), limits, source, filter)
    {
      hide Consistent, CountsMatch, SceneReferences, Separate, SceneViews, FilterTotal;
      if source !in sources {
        return Refused(UnknownSource(source));
      }
      var instance := sources[source];
      if |instance.filters| >= limits.maxFiltersPerSource {
        return Refused(ResourceLimitExceeded("filters per source", limits.maxFiltersPerSource));
      }
      var changed := instance.(filters := instance.filters + [filter]);
      SameSourceConsistent(View(), source, changed);
      ReplaceSource(sources, source, changed);
      sources := sources[source := changed];
      filterCount := filterCount + 1;
      return Done;
    }

    method ClearSourceFilters(source: SourceId) returns (r: Reply)
      requires Valid()
      modifies this`sources, this`filterCount
      ensures Valid() && scenes == old(scenes)
      ensures (r, View()) == FiltersCleared(old(View()), source)
    {
      hide Consistent, CountsMatch, SceneReferences, Separate, SceneViews, FilterTotal;
      if source !in sources {
        return Refused(UnknownSource(source));
      }
      var changed := sources[source].(filters := [], history := Cleared(sources[source].history));
      SameSourceConsistent(View(), source, changed);
      ReplaceSource(sources, source, changed);
      filterCount := SaturatingSub(filterCount, |sources[source].filters|);
      sources := sources[source := changed];
      return Done;
    }

    // `update_source`: what the device's new settings could invalidate is dropped first, whether
    // or not the device then takes them.
    method UpdateSource(source: SourceId, accepted: bool) returns (r: Reply)
      requires Valid()
      modifies this`sources
      ensures Valid() && scenes == old(scenes)
      ensures (r, View()) == SourceUpdated(old(View()), source, accepted)
    {
      hide Consistent, CountsMatch, SceneReferences, Separate, SceneViews, FilterTotal;
      if source !in sources {
        return Refused(UnknownSource(source));
      }
      var instance := sources[source];
      var changed := instance.(lastFrame := None, failing := false, history := Cleared(instance.history));
      SameSourceConsistent(View(), source, changed);
      ReplaceSource(sources, source, changed);
      sources := sources[source := changed];
      return if accepted then Done else Refused(SourceRejected);
    }

    method RenameSource(source: SourceId, name: string) returns (r: Reply)
      requires Valid()
      modifies this`sources
      ensures Valid() && scenes == old(scenes)
      ensures (r, View()) == SourceRenamed(old(View()), source, name)
    {
      hide Consistent, CountsMatch, SceneReferences, Separate, SceneViews, FilterTotal, Trim;
      if Trim(name) == [] {
        return Refused(InvalidName("source"));
      }
      if source !in sources {
        return Refused(UnknownSource(source));
      }
      var changed := sources[source].(name := name);
      SameSourceConsistent(View(), source, changed);
      ReplaceSource(sources, source, changed);
      sources := sources[source := changed];
      return Done;
    }

    // ---- Scene edits -------------------------------------------------------------------------

    method AttachSource(name: string, source: SourceId) returns (r: Reply)
      requires Valid()
      modifies this`sceneReferences, scenes.Values
      ensures Valid() && scenes == old(scenes)
      ensures (r, View()) == SourceAttached(old(View()), limits, name, source)
    {
      hide Consistent, CountsMatch, SceneReferences, IdentifierProblem, GeneratedId, Separate, SceneViews, Mentions, AppendItem, FilterTotal;
      SceneOf(name);
      if IdentifierProblem(name).Some? {
        return Refused(InvalidIdentifier("scene", IdentifierProblem(name).value));
      }
      if source !in sources {
        return Refused(UnknownSource(source));
      }
      if name !in scenes {
        return Refused(UnknownScene(name));
      }
      var scene := scenes[name];
      if |scene.sources| >= limits.maxSourcesPerScene {
        return Refused(ResourceLimitExceeded("sources per scene", limits.maxSourcesPerScene));
      }
      ghost var before := View();
      var added := scene.Attach(source);
      Edited(name);
      if !added {
        assert SceneViews() == before.scenes;
        return Refused(SourceAlreadyAttached(source));
      }
      AppendedSceneConsistent(before, name, source, GeneratedId(source));
      AppendReference(before.scenes, name, source, GeneratedId(source));
      Acquire(source, SceneReferences(before.scenes));
      return Done;
    }

    method AttachSourceInstanceWithId(name: string, source: SourceId, itemId: string) returns (r: Reply)
      requires Valid()
      modifies this`sceneReferences, scenes.Values
      ensures Valid() && scenes == old(scenes)
      ensures (r, View()) == AttachNamed(old(View()), limits, name, source, itemId)
    {
      hide Consistent, CountsMatch, SceneReferences, IdentifierProblem, IsItemId, Separate, SceneViews, AppendItem, FilterTotal;
      SceneOf(name);
      if IdentifierProblem(name).Some? {
        return Refused(InvalidIdentifier("scene", IdentifierProblem(name).value));
      }
      if !IsItemId(itemId) {
        return Refused(InvalidName("scene item id"));
      }
      if source !in sources {
        return Refused(UnknownSource(source));
      }
      if name !in scenes {
        return Refused(UnknownScene(name));
      }
      var scene := scenes[name];
      if |scene.sources| >= limits.maxSourcesPerScene {
        return Refused(ResourceLimitExceeded("sources per scene", limits.maxSourcesPerScene));
      }
      if itemId in scene.itemIds {
        return Refused(DuplicateSceneItem(itemId));
      }
      ghost var before := View();
      var index := scene.AttachInstanceWithId(source, itemId);
      Edited(name);
      AppendedSceneConsistent(before, name, source, itemId);
      AppendReference(before.scenes, name, source, itemId);
      Acquire(source, SceneReferences(before.scenes));
      return ItemAt(index.value);
    }

    method AttachSourceInstance(name: string, source: SourceId) returns (r: Reply)
      requires Valid()
      modifies this`sceneReferences, scenes.Values
      ensures Valid() && scenes == old(scenes)
      ensures (r, View()) == InstanceAttached(old(View()), limits, name, source)
    {
      hide Consistent, CountsMatch, SceneReferences, IdentifierProblem, IsItemId, Separate, SceneViews, AppendItem, FilterTotal, IndexedId;
      SceneOf(name);
      if IdentifierProblem(name).Some? {
        return Refused(InvalidIdentifier("scene", IdentifierProblem(name).value));
      }
      var itemId := IndexedId(if name in scenes then |scenes[name].sources| else 0);
      r := AttachSourceInstanceWithId(name, source, itemId);
    }

    method DetachSource(name: string, source: SourceId) returns (r: Reply)
      requires Valid()
      modifies this`sceneReferences, scenes.Values
      ensures Valid() && scenes == old(scenes)
      ensures (r, View()) == SourceDetached(old(View()), name, source)
    {
      hide Consistent, CountsMatch, SceneReferences, IdentifierProblem, Position, Separate, SceneViews, RemoveItem, FilterTotal;
      SceneOf(name);
      if IdentifierProblem(name).Some? {
        return Refused(InvalidIdentifier("scene", IdentifierProblem(name).value));
      }
      if name !in scenes {
        return Refused(UnknownScene(name));
      }
      ghost var before := View();
      ghost var index := Position(scenes[name].items, source);
      var removed := scenes[name].Detach(source);
      Edited(name);
      if !removed {
        assert SceneViews() == before.scenes;
        return Refused(SourceNotAttached(source));
      }
      RemovedSceneConsistent(before, name, index);
      RemoveReference(before.scenes, name, index);
      Release(source, SceneReferences(before.scenes));
      return Done;
    }

    method ClearSceneSources(name: string) returns (r: Reply)
      requires Valid()
      modifies this`sceneReferences, scenes.Values
      ensures Valid() && scenes == old(scenes)
      ensures (r, View()) == SceneCleared(old(View()), name)
    {
      hide Consistent, CountsMatch, SceneReferences, IdentifierProblem, Separate, SceneViews, FilterTotal;
      SceneOf(name);
      if IdentifierProblem(name).Some? {
        return Refused(InvalidIdentifier("scene", IdentifierProblem(name).value));
      }
      if name !in scenes {
        return Refused(UnknownScene(name));
      }
      ghost var before := View();
      var list := scenes[name].sources;
      scenes[name].Clear();
      Edited(name);
      WithSceneConsistent(before, name, SceneView([], {}));
      ReplaceScene(before.scenes, name, SceneView([], {}));
      ReleaseAll(list, SceneReferences(before.scenes - {name}));
      assert multiset(SourcesOf([])) + SceneReferences(before.scenes - {name}) == SceneReferences(before.scenes - {name});
      return Done;
    }

    method DestroyScene(name: string) returns (r: Reply)
      requires Valid()
      modifies this`sceneReferences, this`scenes
      ensures Valid() && scenes.Values <= old(scenes.Values)
      ensures (r, View()) == SceneDestroyed(old(View()), name)
    {
      hide Consistent, CountsMatch, SceneReferences, IdentifierProblem, Separate, SceneViews, FilterTotal;
      SceneOf(name);
      if IdentifierProblem(name).Some? {
        return Refused(InvalidIdentifier("scene", IdentifierProblem(name).value));
      }
      if name !in scenes {
        return Refused(UnknownScene(name));
      }
      ghost var before := View();
      var removed := scenes[name];
      scenes := scenes - {name};
      Dropped(name);
      DroppedSceneConsistent(before, name);
      SplitScene(before.scenes, name);
      ReleaseAll(removed.sources, SceneReferences(before.scenes - {name}));
      return Done;
    }

    // The three transform setters: each finds an item and replaces its transform.
    method SetSourceTransform(name: string, source: SourceId, transform: FrameTransform) returns (r: Reply)
      requires Valid()
      modifies scenes.Values
      ensures Valid()
      ensures (r, View()) == SourceMoved(old(View()), name, source, transform)
    {
      hide Consistent, CountsMatch, SceneReferences, IdentifierProblem, Position, Separate, SceneViews, MoveItem, FilterTotal;
      SceneOf(name);
      if IdentifierProblem(name).Some? {
        return Refused(InvalidIdentifier("scene", IdentifierProblem(name).value));
      }
      if name !in scenes {
        return Refused(UnknownScene(name));
      }
      var index := Position(scenes[name].items, source);
      if index == |scenes[name].items| {
        return Refused(SourceNotAttached(source));
      }
      MoveAt(name, index, transform);
      return Done;
    }

    method SetSceneItemTransform(name: string, index: nat, transform: FrameTransform) returns (r: Reply)
      requires Valid()
      modifies scenes.Values
      ensures Valid()
      ensures (r, View()) == ItemMoved(old(View()), name, index, transform)
    {
      hide Consistent, CountsMatch, SceneReferences, IdentifierProblem, Separate, SceneViews, MoveItem, FilterTotal;
      SceneOf(name);
      if IdentifierProblem(name).Some? {
        return Refused(InvalidIdentifier("scene", IdentifierProblem(name).value));
      }
      if name !in scenes {
        return Refused(UnknownScene(name));
      }
      if index >= |scenes[name].items| {
        return Refused(SceneItemOutOfBounds(index));
      }
      MoveAt(name, index, transform);
      return Done;
    }

    method SetSceneItemTransformById(name: string, itemId: string, transform: FrameTransform) returns (r: Reply)
      requires Valid()
      modifies scenes.Values
      ensures Valid()
      ensures (r, View()) == ItemMovedById(old(View()), name, itemId, transform)
    {
      hide Consistent, CountsMatch, SceneReferences, IdentifierProblem, PositionById, Separate, SceneViews, MoveItem, FilterTotal;
      SceneOf(name);
      if IdentifierProblem(name).Some? {
        return Refused(InvalidIdentifier("scene", IdentifierProblem(name).value));
      }
      if name !in scenes {
        return Refused(UnknownScene(name));
      }
      var index := PositionById(scenes[name].items, itemId);
      if index == |scenes[name].items| {
        return Refused(SceneItemNotAttached(itemId));
      }
      MoveAt(name, index, transform);
      return Done;
    }

    method MoveAt(name: string, index: nat, transform: FrameTransform)
      requires Valid() && name in scenes && index < |scenes[name].items|
      modifies scenes.Values
      ensures Valid()
      ensures name in old(View()).scenes && old(View()).scenes[name] == old(scenes[name].View())
      ensures View() == WithScene(old(View()), name, MoveItem(old(scenes[name].View()), index, transform))
    {
      hide Consistent, CountsMatch, SceneReferences, Separate, SceneViews, FilterTotal;
      SceneOf(name);
      ghost var before := View();
      scenes[name].SetTransform(index, transform);
      Edited(name);
      MovedSceneConsistent(before, name, index, transform);
      SameReferences(before.scenes, name, MoveItem(before.scenes[name], index, transform));
    }

    method SetSceneOrder(name: string, order: seq<SourceId>) returns (r: Reply)
      requires Valid()
      modifies scenes.Values
      ensures Valid()
      ensures (r, View()) == SceneOrdered(old(View()), name, order)
    {
      hide Consistent, CountsMatch, SceneReferences, IdentifierProblem, Reordered, Separate, SceneViews, FilterTotal, SourcesOf;
      SceneOf(name);
      if IdentifierProblem(name).Some? {
        return Refused(InvalidIdentifier("scene", IdentifierProblem(name).value));
      }
      if name !in scenes {
        return Refused(UnknownScene(name));
      }
      ghost var before := View();
      OrdersAcceptedExactly(before.scenes[name], order);
      var answer := scenes[name].Reorder(order);
      Edited(name);
      if answer.Err? {
        assert SceneViews() == before.scenes;
        return Refused(answer.error);
      }
      ReorderedSceneConsistent(before, name, order);
      SameReferences(before.scenes, name, Reordered(before.scenes[name], order).value);
      return Done;
    }

    // ---- Rendering ---------------------------------------------------------------------------

    method CountFailure(violation: bool)
      modifies this`metrics
      ensures metrics == Counted(old(metrics), NOTHING_COUNTED.(failures := 1, violations := if violation then 1 else 0))
    {
      metrics := metrics.(failedSources := SaturatingAdd(metrics.failedSources, 1));
      if violation {
        metrics := metrics.(contractViolations := SaturatingAdd(metrics.contractViolations, 1));
      }
    }

    // The filter loop: pixel filters in order, and the one delay, if there is one.
    static method SplitFilters(chain: seq<FrameFilter>) returns (filters: seq<FrameFilter>, delay: Option<nat>, duplicate: bool)
      ensures duplicate <==> |Delays(chain)| > 1
      ensures !duplicate ==> filters == PixelFilters(chain)
      ensures !duplicate ==> Delays(chain) == if delay.Some? then [delay.value] else []
    {
      filters, delay := [], None;
      for k := 0 to |chain|
        invariant filters == PixelFilters(chain[..k])
        invariant Delays(chain[..k]) == if delay.Some? then [delay.value] else []
      {
        assert chain[..k + 1][..k] == chain[..k];
        match chain[k] {
          case RenderDelay(milliseconds) =>
            if delay.Some? {
              DelaysGrow(chain, k + 1);
              return filters, delay, true;
            }
            delay := Some(milliseconds);
          case PixelFilter(_) =>
            filters := filters + [chain[k]];
        }
      }
      assert chain[..|chain|] == chain;
      return filters, delay, false;
    }

    // The device poll with its format check.
    method PollSource(source: SourceId, request: VideoRequest, rendered: Rendered) returns (picture: Option<Picture>)
      requires source in sources
      modifies this`sources, this`metrics
      ensures var c := Poll(old(sources)[source], request, rendered);
        sources == old(sources)[source := c.instance] && picture == c.picture && metrics == Counted(old(metrics), CaptureTally(c))
    {
      var instance := sources[source];
      picture := None;
      match rendered {
        case Frame(frame) =>
          if frame.format == request.format {
            instance := instance.(failing := false, lastFrame := Some(frame));
            picture := Some(frame);
            CountedNothing(metrics);
          } else {
            CountFailure(true);
            instance := instance.(failing := true);
          }
        case Nothing =>
          CountedNothing(metrics);
        case Failed(violation) =>
          CountFailure(violation);
          instance := instance.(failing := true);
      }
      sources := sources[source := instance];
    }

    // The device's picture or, failing that, the last good one.
    method CaptureLiveFrame(source: SourceId, request: VideoRequest, rendered: Rendered, delay: nat) returns (picture: Option<Picture>)
      requires source in sources && ChainAccepted(sources[source].filters) && delay == DelayOf(sources[source].filters)
      modifies this`sources, this`metrics
      ensures var c := CaptureLive(old(sources)[source], request, rendered);
        sources == old(sources)[source := c.instance] && picture == c.picture && metrics == Counted(old(metrics), CaptureTally(c))
    {
      hide Counted, Poll, Delays, IsHistory;
      var instance := sources[source];
      var history := Configured(instance.history, delay).value;
      sources := sources[source := instance.(history := history, served := instance.served + 1)];
      picture := PollSource(source, request, rendered);
      if picture.None? {
        picture := LastGood(sources[source], request);
      }
    }

    // `render_source_frame`.
    method RenderSourceFrame(source: SourceId, request: VideoRequest, world: World)
      returns (picture: Option<Picture>, filters: seq<FrameFilter>)
      requires source in sources
      modifies this`sources, this`metrics
      ensures var c := CaptureOf(old(sources), world, request, source);
        sources == old(sources)[source := c.instance] && picture == c.picture && metrics == Counted(old(metrics), CaptureTally(c))
      ensures picture.Some? ==> filters == PixelFilters(old(sources)[source].filters)
    {
      hide Counted, CaptureLive, Push, Delays, PixelFilters, IsHistory;
      var instance := sources[source];
      var delayFilter, duplicate;
      filters, delayFilter, duplicate := SplitFilters(instance.filters);
      var delay := if delayFilter.Some? then delayFilter.value else 0;
      if duplicate || Configured(instance.history, delay).Err? {
        sources := sources[source := instance.(failing := true)];
        CountFailure(false);
        return None, filters;
      }
      ghost var live := CaptureLive(instance, request, world(source, instance.served));
      picture := CaptureLiveFrame(source, request, world(source, instance.served), delay);
      if picture.Some? && delay != 0 {
        var (ready, history) := Push(sources[source].history, picture.value);
        sources := sources[source := sources[source].(history := history)];
        match ready {
          case Ok(delayed) =>
            picture := delayed;
          case Err(_) =>
            CountedTwice(old(metrics), CaptureTally(live), NOTHING_COUNTED.(failures := 1));
            sources := sources[source := sources[source].(failing := true)];
            CountFailure(false);
            picture := None;
        }
      }
    }

    // The per-render cache: the first layer that already shows the source.
    static method FindLayer(layers: seq<Layer>, source: SourceId) returns (k: nat)
      ensures k <= |layers|
      ensures k < |layers| ==> layers[k].source == source
      ensures k == |layers| ==> forall j :: 0 <= j < |layers| ==> layers[j].source != source
    {
      k := 0;
      while k < |layers| && layers[k].source != source
        invariant k <= |layers|
        invariant forall j :: 0 <= j < k ==> layers[j].source != source
      {
        k := k + 1;
      }
    }

    method PushLayer(layers: seq<Layer>, layer: Layer) returns (more: seq<Layer>)
      modifies this`metrics
      ensures more == layers + [layer]
      ensures metrics == Counted(old(metrics), ItemTally([layer]).(requests := 0))
    {
      metrics := metrics.(sourceFrames := SaturatingAdd(metrics.sourceFrames, 1));
      if layer.transform != Identity {
        metrics := metrics.(transformedFrames := SaturatingAdd(metrics.transformedFrames, 1));
      }
      metrics := metrics.(filteredFrames := SaturatingAdd(metrics.filteredFrames, |layer.filters|));
      LayerTotals([], [layer]);
      assert [layer][..1] == [layer] && [layer][..0] == [];
      assert Moved([layer]) == if layer.transform == Identity then 0 else 1;
      return layers + [layer];
    }

    method CountEmptySource()
      modifies this`metrics
      ensures metrics == Counted(old(metrics), ItemTally([]).(requests := 0))
    {
      metrics := metrics.(emptySources := SaturatingAdd(metrics.emptySources, 1));
    }

    method CountRequest()
      modifies this`metrics
      ensures metrics == Counted(old(metrics), REQUEST_COUNTED)
    {
      metrics := metrics.(sourceRequests := SaturatingAdd(metrics.sourceRequests, 1));
    }

    // One turn of the render loop: from the cache, from the empty list, or from the device.
    method RenderItem(item: SceneItem, request: VideoRequest, world: World, layers: seq<Layer>, empty: seq<SourceId>,
                      ghost before: Sources, ghost start: Metrics, ghost items: seq<SceneItem>, ghost i: nat, ghost tally: Tally)
      returns (layers': seq<Layer>, empty': seq<SourceId>)
      requires NoDanglingItem(before, items) && i < |items| && item == items[i]
      requires RenderedTo(before, world, request, items, i, Progress(sources, layers, empty, tally))
      requires metrics == Counted(start, tally)
      modifies this`sources, this`metrics
      ensures var q := AfterItem(before, world, request, Progress(old(sources), layers, empty, tally), item, !Mentions(items[..i], item.source));
        q == Progress(sources, layers', empty', q.tally) && metrics == Counted(start, q.tally)
    {
      hide CaptureOf, Counted, CaptureTally, ItemTally, Plus, Mentions, Layers, TallyOf, PixelFilters;
      ghost var p := Progress(sources, layers, empty, tally);
      CacheHit(before, world, request, items, i, p);
      ghost var c := CaptureOf(before, world, request, item.source);
      ghost var more := LayerOf(before, world, request, item);
      CountedInOrder(start, tally, CaptureTally(c), more);
      CountedInOrder(start, tally, NOTHING_COUNTED, more);
      CountRequest();
      CountedNothing(metrics);
      layers', empty' := layers, empty;
      var previous := FindLayer(layers, item.source);
      if previous < |layers| {
        LayerShowsItsSource(before, world, request, items[..i], previous);
        layers' := PushLayer(layers, Layer(item.itemId, item.source, layers[previous].picture, item.transform, layers[previous].filters));
      } else if item.source in empty {
        CountEmptySource();
      } else {
        UnaskedUnchanged(before, world, request, items, i, p, item.source);
        var picture, filters := RenderSourceFrame(item.source, request, world);
        if picture.None? {
          empty' := empty + [item.source];
          CountEmptySource();
        } else {
          layers' := PushLayer(layers, Layer(item.itemId, item.source, picture.value, item.transform, filters));
        }
      }
    }

    method RenderItems(scene: Scene, request: VideoRequest, world: World) returns (result: seq<Layer>, ghost tally: Tally)
      requires scene.Valid() && NoDanglingItem(sources, scene.items)
      modifies this`sources, this`metrics
      ensures result == Layers(old(sources), world, request, scene.items)
      ensures sources == SourcesAfter(old(sources), world, request, scene.items)
      ensures tally == TallyOf(old(sources), world, request, scene.items) && metrics == Counted(old(metrics), tally)
    {
      hide Counted, Layers, TallyOf, Mentions, CaptureOf, RenderedTo, AfterItem;
      ghost var before, start, items := sources, metrics, scene.items;
      NothingRendered(sources, world, request, items);
      var empty: seq<SourceId>;
      result, empty := [], [];
      tally := NOTHING_COUNTED;
      CountedNothing(metrics);
      for i := 0 to |scene.sources|
        invariant scene.items == items && |items| == |scene.sources|
        invariant RenderedTo(before, world, request, items, i, Progress(sources, result, empty, tally))
        invariant metrics == Counted(start, tally)
      {
        ghost var p := Progress(sources, result, empty, tally);
        RenderStep(before, world, request, items, i, p);
        result, empty := RenderItem(scene.items[i], request, world, result, empty, before, start, items, i, tally);
        tally := AfterItem(before, world, request, p, items[i], !Mentions(items[..i], items[i].source)).tally;
      }
      AllRendered(before, world, request, items, Progress(sources, result, empty, tally));
    }

    // `render_scene_layers`: the reference renderer's layers, each source asked at most once,
    // and never an unknown source.
    method RenderSceneLayers(name: string, request: VideoRequest, world: World) returns (r: Result<seq<Layer>, RuntimeError>)
      requires Valid()
      modifies this`sources, this`metrics
      ensures Valid() && scenes == old(scenes)
      ensures View() == SceneRendered(old(View()), name, request, world).1
      ensures SceneRendered(old(View()), name, request, world).0
           == match r case Ok(layers) => Rendered(layers) case Err(error) => Refused(error)
      ensures var start := old(metrics).(renderCalls := SaturatingAdd(old(metrics).renderCalls, 1));
        if r.Err? then metrics == start
        else
          && NoDanglingItem(old(sources), old(View()).scenes[name].items)
          && metrics == Counted(start, TallyOf(old(sources), world, request, old(View()).scenes[name].items))
    {
      hide Consistent, CountsMatch, SceneReferences, IdentifierProblem, Separate, SceneViews, FilterTotal, Counted, TallyOf, SourcesAfter, Layers, IsHistory, NoDanglingItem, SceneRendered;
      metrics := metrics.(renderCalls := SaturatingAdd(metrics.renderCalls, 1));
      SceneOf(name);
      RenderingIsRefused(View(), name, request, world);
      if IdentifierProblem(name).Some? {
        return Err(InvalidIdentifier("scene", IdentifierProblem(name).value));
      }
      if name !in scenes {
        return Err(UnknownScene(name));
      }
      ghost var before, start := View(), metrics;
      var scene := scenes[name];
      NothingDangles(before, name);
      RenderingIsWhole(before, name, request, world);
      var result, tally := RenderItems(scene, request, world);
      MetricsStayOrdered(start, tally);
      SameFiltersAfter(before.sources, world, request, scene.items);
      SourcesChangeConsistent(before, sources);
      return Ok(result);
    }

    // ---- Whole runs --------------------------------------------------------------------------

    method PerformOnScene(op: Op) returns (r: Reply)
      requires Valid() && EditsScene(op)
      modifies this, scenes.Values
      ensures Valid() && scenes == old(scenes)
      ensures (r, View()) == Apply(old(View()), limits, op)
    {
      hide IsHistory, Valid, View, SourceAttached, InstanceAttached, AttachNamed, SourceDetached, SceneCleared, SourceMoved,
        ItemMoved, ItemMovedById, SceneOrdered;
      match op {
        case AttachSource(scene, source) => r := AttachSource(scene, source);
        case AttachSourceInstance(scene, source) => r := AttachSourceInstance(scene, source);
        case AttachSourceInstanceWithId(scene, source, itemId) => r := AttachSourceInstanceWithId(scene, source, itemId);
        case DetachSource(scene, source) => r := DetachSource(scene, source);
        case ClearSceneSources(scene) => r := ClearSceneSources(scene);
        case SetSourceTransform(scene, source, transform) => r := SetSourceTransform(scene, source, transform);
        case SetSceneItemTransform(scene, index, transform) => r := SetSceneItemTransform(scene, index, transform);
        case SetSceneItemTransformById(scene, itemId, transform) => r := SetSceneItemTransformById(scene, itemId, transform);
        case SetSceneOrder(scene, order) => r := SetSceneOrder(scene, order);
      }
    }

    // Every call answers and acts as it would by scanning the items.
    method Perform(op: Op) returns (r: Reply)
      requires Valid()
      modifies this, scenes.Values
      ensures Valid() && fresh(scenes.Values - old(scenes.Values))
      ensures (r, View()) == Apply(old(View()), limits, op)
    {
      hide IsHistory, Valid, View, SceneCreated, SourceAdded, FilterAdded, FiltersCleared, SourceUpdated, SourceRenamed,
        SourceDestroyed, SceneDestroyed, SceneRendered;
      if EditsScene(op) {
        hide Apply;
        r := PerformOnScene(op);
        return;
      }
      match op {
        case CreateScene(name) => r := CreateScene(name);
        case CreateSource(kind, name, factory) => r := CreateSource(kind, name, factory);
        case AddSourceFilter(source, filter) => r := AddSourceFilter(source, filter);
        case ClearSourceFilters(source) => r := ClearSourceFilters(source);
        case UpdateSource(source, accepted) => r := UpdateSource(source, accepted);
        case RenameSource(source, name) => r := RenameSource(source, name);
        case DestroySource(source) => r := DestroySource(source);
        case DestroyScene(scene) => r := DestroyScene(scene);
        case RenderSceneLayers(scene, request, world) =>
          var layers := RenderSceneLayers(scene, request, world);
          r := match layers case Ok(list) => Rendered(list) case Err(error) => Refused(error);
      }
    }

    method PerformAll(ops: seq<Op>) returns (replies: seq<Reply>)
      requires Valid()
      modifies this, scenes.Values
      ensures Valid()
      ensures (replies, View()) == Run(old(View()), limits, ops)
    {
      hide Valid, View, Apply;
      replies := [];
      assert ops[0..] == ops && [] + Run(View(), limits, ops).0 == Run(View(), limits, ops).0;
      for i := 0 to |ops|
        invariant Valid() && fresh(scenes.Values - old(scenes.Values))
        invariant (replies + Run(View(), limits, ops[i..]).0, Run(View(), limits, ops[i..]).1) == old(Run(View(), limits, ops))
      {
        ghost var before := View();
        var reply := Perform(ops[i]);
        assert ops[i..][0] == ops[i] && ops[i..][1..] == ops[i + 1..];
        assert replies + ([reply] + Run(View(), limits, ops[i + 1..]).0) == replies + [reply] + Run(View(), limits, ops[i + 1..]).0;
        replies := replies + [reply];
      }
      assert ops[|ops|..] == [] && replies + [] == replies;
    }
  }

  // ---- References of each edit -------------------------------------------------------------

  lemma AddedSceneReferences(scenes: map<string, SceneView>, name: string, scene: SceneView)
    requires name !in scenes && scene.items == []
    ensures SceneReferences(scenes[name := scene]) == SceneReferences(scenes)
  {
    ReplaceScene(scenes, name, scene);
    assert multiset(SourcesOf([])) == multiset{};
  }

  lemma AppendReference(scenes: map<string, SceneView>, name: string, source: SourceId, itemId: string)
    requires name in scenes
    ensures SceneReferences(scenes[name := AppendItem(scenes[name], source, itemId)]) == SceneReferences(scenes) + multiset{source}
  {
    ReplaceScene(scenes, name, AppendItem(scenes[name], source, itemId));
    SourcesAppend(scenes[name].items, SceneItem(source, itemId, Identity));
    hide SourcesOf, SceneReferences;
  }

  lemma RemoveReference(scenes: map<string, SceneView>, name: string, i: nat)
    requires name in scenes && i < |scenes[name].items|
    ensures scenes[name].items[i].source in SceneReferences(scenes)
    ensures SceneReferences(scenes[name := RemoveItem(scenes[name], i)])
         == SceneReferences(scenes) - multiset{scenes[name].items[i].source}
  {
    ReplaceScene(scenes, name, RemoveItem(scenes[name], i));
    SourcesWithout(scenes[name].items, i);
    assert SourcesOf(scenes[name].items)[i] in multiset(SourcesOf(scenes[name].items));
    hide SourcesOf, SceneReferences, Without;
  }

  lemma SameReferences(scenes: map<string, SceneView>, name: string, scene: SceneView)
    requires name in scenes && multiset(SourcesOf(scene.items)) == multiset(SourcesOf(scenes[name].items))
    ensures SceneReferences(scenes[name := scene]) == SceneReferences(scenes)
  {
    ReplaceScene(scenes, name, scene);
  }

  lemma {:induction false} DelaysGrow(chain: seq<FrameFilter>, k: nat)
    requires k <= |chain|
    ensures |Delays(chain)| >= |Delays(chain[..k])|
    decreases |chain| - k
  {
    if k < |chain| {
      DelaysGrow(chain, k + 1);
      assert chain[..k + 1][..k] == chain[..k];
    } else {
      assert chain[..k] == chain;
    }
  }

  lemma NothingDangles(v: RuntimeView, name: string)
    requires Consistent(v) && name in v.scenes
    ensures NoDanglingItem(v.sources, v.scenes[name].items)
  {
    assert SceneConsistent(v.scenes[name], v.sources);
  }

  lemma NothingRendered(before: Sources, world: World, request: VideoRequest, items: seq<SceneItem>)
    requires NoDanglingItem(before, items)
    ensures RenderedTo(before, world, request, items, 0, Progress(before, [], [], NOTHING_COUNTED))
  {
    assert items[..0] == [];
  }

  lemma AllRendered(before: Sources, world: World, request: VideoRequest, items: seq<SceneItem>, p: Progress)
    requires NoDanglingItem(before, items) && RenderedTo(before, world, request, items, |items|, p)
    ensures p.layers == Layers(before, world, request, items) && p.tally == TallyOf(before, world, request, items)
    ensures p.sources == SourcesAfter(before, world, request, items)
  {
    assert items[..|items|] == items;
  }

  lemma RenderingIsRefused(v: RuntimeView, name: string, request: VideoRequest, world: World)
    ensures SceneProblem(v, name).Some? ==> SceneRendered(v, name, request, world) == (Refused(SceneProblem(v, name).value), v)
  {
  }

  lemma RenderingIsWhole(v: RuntimeView, name: string, request: VideoRequest, world: World)
    requires SceneProblem(v, name).None? && NoDanglingItem(v.sources, v.scenes[name].items)
    ensures SceneRendered(v, name, request, world)
         == (Rendered(Layers(v.sources, world, request, v.scenes[name].items)),
             v.(sources := SourcesAfter(v.sources, world, request, v.scenes[name].items)))
  {
    var items := v.scenes[name].items;
    assert items[..|items|] == items;
    assert Dangling(v.sources, items) == |items|;
    hide Layers, SourcesAfter, IdentifierProblem;
  }

  lemma SameFiltersAfter(before: Sources, world: World, request: VideoRequest, items: seq<SceneItem>)
    requires NoDanglingItem(before, items)
    ensures FilterTotal(SourcesAfter(before, world, request, items)) == FilterTotal(before)
  {
    SameFiltersSameTotal(before, SourcesAfter(before, world, request, items));
  }

  lemma UnaskedUnchanged(before: Sources, world: World, request: VideoRequest, items: seq<SceneItem>, i: nat, p: Progress, source: SourceId)
    requires NoDanglingItem(before, items) && i < |items| && RenderedTo(before, world, request, items, i, p)
    requires source in before && !Mentions(items[..i], source)
    ensures source in p.sources && p.sources[source] == before[source]
    ensures CaptureOf(p.sources, world, request, source) == CaptureOf(before, world, request, source)
  {
  }
}
