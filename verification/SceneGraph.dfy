// The scene graph without its mirrors: every question is answered by scanning the items
// (crates/obs-rs-core/src/runtime.rs, crates/obs-rs-core/src/registry.rs).
module SceneGraph {
  import opened Numbers
  import opened Results
  import opened Identifiers
  import opened Numerals
  import opened ConfigText
  import opened SceneOrder
  import opened RenderDelays
  import opened Compositor

  const MAX_SCENE_ITEM_ID_BYTES := 4_096

  datatype RuntimeLimits = RuntimeLimits(maxScenes: u64, maxSources: u64, maxSourcesPerScene: u64, maxFiltersPerSource: u64)

  datatype RuntimeError =
    | InvalidIdentifier(kind: string, problem: IdentifierError)
    | InvalidName(what: string)
    | ResourceLimitExceeded(resource: string, limit: nat)
    | DuplicateScene(scene: string)
    | UnknownScene(scene: string)
    | UnknownSourceKind(sourceKind: string)
    | SourceRejected
    | IdExhausted
    | UnknownSource(source: SourceId)
    | SourceInUse(source: SourceId)
    | SourceAlreadyAttached(source: SourceId)
    | SourceNotAttached(source: SourceId)
    | DuplicateSceneItem(itemId: string)
    | SceneItemNotAttached(itemId: string)
    | SceneItemOutOfBounds(index: nat)

  // A scene: its items in drawing order, and the item ids taken so far.
  datatype SceneView = SceneView(items: seq<SceneItem>, itemIds: set<string>)

  datatype RuntimeView = RuntimeView(sources: Sources, scenes: map<string, SceneView>, nextSourceId: u64)

  datatype FactoryAnswer = NoFactory | FactoryRefused | FactoryCreated

  datatype Op =
    | CreateScene(name: string)
    | CreateSource(kind: string, name: string, factory: FactoryAnswer)
    | AttachSource(scene: string, source: SourceId)
    | AttachSourceInstance(scene: string, source: SourceId)
    | AttachSourceInstanceWithId(scene: string, source: SourceId, itemId: string)
    | DetachSource(scene: string, source: SourceId)
    | ClearSceneSources(scene: string)
    | SetSourceTransform(scene: string, source: SourceId, transform: FrameTransform)
    | SetSceneItemTransform(scene: string, index: nat, transform: FrameTransform)
    | SetSceneItemTransformById(scene: string, itemId: string, transform: FrameTransform)
    | AddSourceFilter(source: SourceId, filter: FrameFilter)
    | ClearSourceFilters(source: SourceId)
    | UpdateSource(source: SourceId, accepted: bool)
    | RenameSource(source: SourceId, name: string)
    | DestroySource(source: SourceId)
    | DestroyScene(scene: string)
    | SetSceneOrder(scene: string, order: seq<SourceId>)
    | RenderSceneLayers(scene: string, request: VideoRequest, world: World)

  datatype Reply = Done | SourceCreated(id: SourceId) | ItemAt(index: nat) | Rendered(layers: seq<Layer>) | Refused(error: RuntimeError)

  // Calls on one existing scene.
  predicate EditsScene(op: Op) {
    || op.AttachSource? || op.AttachSourceInstance? || op.AttachSourceInstanceWithId? || op.DetachSource? || op.ClearSceneSources?
    || op.SetSourceTransform? || op.SetSceneItemTransform? || op.SetSceneItemTransformById? || op.SetSceneOrder?
  }

  // ---- Names ---------------------------------------------------------------------------

  // The identity given to a plainly attached source.
  function GeneratedId(source: SourceId): string {
    "source-" + Decimal(source)
  }

  lemma GeneratedIdIsInjective(a: SourceId, b: SourceId)
    requires GeneratedId(a) == GeneratedId(b)
    ensures a == b
  {
    assert GeneratedId(a)[7..] == Decimal(a) && GeneratedId(b)[7..] == Decimal(b);
    DecimalIsInvertible(a);
    DecimalIsInvertible(b);
  }

  function IndexedId(count: nat): string {
    "item-" + Decimal(count)
  }

  predicate IsItemId(itemId: string) {
    itemId != [] && ByteLength(itemId) <= MAX_SCENE_ITEM_ID_BYTES
  }

  // ---- One scene -----------------------------------------------------------------------

  function AppendItem(scene: SceneView, source: SourceId, itemId: string): SceneView {
    SceneView(scene.items + [SceneItem(source, itemId, Identity)], scene.itemIds + {itemId})
  }

  function RemoveItem(scene: SceneView, i: nat): SceneView
    requires i < |scene.items|
  {
    SceneView(Without(scene.items, i), scene.itemIds - {scene.items[i].itemId})
  }

  function MoveItem(scene: SceneView, i: nat, transform: FrameTransform): SceneView
    requires i < |scene.items|
  {
    scene.(items := scene.items[i := scene.items[i].(transform := transform)])
  }

  function PositionById(items: seq<SceneItem>, itemId: string): (i: nat)
    ensures i <= |items|
    ensures i < |items| ==> items[i].itemId == itemId
    ensures forall j :: 0 <= j < i ==> items[j].itemId != itemId
  {
    if items == [] || items[0].itemId == itemId then 0 else 1 + PositionById(items[1..], itemId)
  }

  // The first requested source that the scene does not show.
  function FirstStranger(items: seq<SceneItem>, order: seq<SourceId>): (r: Option<SourceId>)
    ensures r.None? <==> forall k :: 0 <= k < |order| ==> Mentions(items, order[k])
  {
    if order == [] then None
    else if !Mentions(items, order[0]) then Some(order[0])
    else FirstStranger(items, order[1..])
  }

  function Reordered(scene: SceneView, order: seq<SourceId>): Result<SceneView, RuntimeError> {
    match FirstStranger(scene.items, order)
    case Some(stranger) => Err(SourceNotAttached(stranger))
    case None =>
      if multiset(order) != multiset(SourcesOf(scene.items)) then Err(InvalidName("scene order"))
      else Ok(scene.(items := Rearrange(scene.items, order)))
  }

  // Exactly the permutations of the current sources are accepted.
  lemma OrdersAcceptedExactly(scene: SceneView, order: seq<SourceId>)
    ensures Reordered(scene, order).Ok? <==> multiset(order) == multiset(SourcesOf(scene.items))
    ensures Reordered(scene, order).Ok? ==>
      IsStable(scene.items, order, Reordered(scene, order).value.items) && Reordered(scene, order).value.itemIds == scene.itemIds
  {
    if multiset(order) == multiset(SourcesOf(scene.items)) {
      forall k | 0 <= k < |order| ensures Mentions(scene.items, order[k]) {
        assert order[k] in multiset(order);
        assert order[k] in SourcesOf(scene.items);
      }
      RearrangeIsStable(scene.items, order);
    }
  }

  // ---- The whole graph -----------------------------------------------------------------

  // The scan that the reference counter replaces.
  ghost predicate InUse(v: RuntimeView, source: SourceId) {
    exists name :: name in v.scenes && Mentions(v.scenes[name].items, source)
  }

  // The checks shared by the scene edits.
  function SceneProblem(v: RuntimeView, scene: string): Option<RuntimeError> {
    if IdentifierProblem(scene).Some? then Some(InvalidIdentifier("scene", IdentifierProblem(scene).value))
    else if scene !in v.scenes then Some(UnknownScene(scene))
    else None
  }

  function AttachProblem(v: RuntimeView, limits: RuntimeLimits, scene: string, source: SourceId): Option<RuntimeError> {
    if source !in v.sources then Some(UnknownSource(source))
    else if SceneProblem(v, scene).Some? then SceneProblem(v, scene)
    else if |v.scenes[scene].items| >= limits.maxSourcesPerScene then
      Some(ResourceLimitExceeded("sources per scene", limits.maxSourcesPerScene))
    else None
  }

  function WithScene(v: RuntimeView, name: string, scene: SceneView): RuntimeView {
    v.(scenes := v.scenes[name := scene])
  }

  function AttachNamed(v: RuntimeView, limits: RuntimeLimits, scene: string, source: SourceId, itemId: string): (Reply, RuntimeView) {
    if IdentifierProblem(scene).Some? then (Refused(InvalidIdentifier("scene", IdentifierProblem(scene).value)), v)
    else if !IsItemId(itemId) then (Refused(InvalidName("scene item id")), v)
    else if AttachProblem(v, limits, scene, source).Some? then (Refused(AttachProblem(v, limits, scene, source).value), v)
    else if itemId in v.scenes[scene].itemIds then (Refused(DuplicateSceneItem(itemId)), v)
    else (ItemAt(|v.scenes[scene].items|), WithScene(v, scene, AppendItem(v.scenes[scene], source, itemId)))
  }

  function SceneCreated(v: RuntimeView, limits: RuntimeLimits, name: string): (Reply, RuntimeView) {
    if |v.scenes| >= limits.maxScenes then (Refused(ResourceLimitExceeded("scenes", limits.maxScenes)), v)
    else if IdentifierProblem(name).Some? then (Refused(InvalidIdentifier("scene", IdentifierProblem(name).value)), v)
    else if name in v.scenes then (Refused(DuplicateScene(name)), v)
    else (Done, WithScene(v, name, SceneView([], {})))
  }

  function SourceAdded(v: RuntimeView, limits: RuntimeLimits, kind: string, name: string, factory: FactoryAnswer): (Reply, RuntimeView) {
    if |v.sources| >= limits.maxSources then (Refused(ResourceLimitExceeded("sources", limits.maxSources)), v)
    else if Trim(name) == [] then (Refused(InvalidName("source")), v)
    else if IdentifierProblem(kind).Some? then (Refused(InvalidIdentifier("source kind", IdentifierProblem(kind).value)), v)
    else if factory == NoFactory then (Refused(UnknownSourceKind(kind)), v)
    else if factory == FactoryRefused then (Refused(SourceRejected), v)
    else if v.nextSourceId == U64_MAX then (Refused(IdExhausted), v)
    else (SourceCreated(v.nextSourceId),
          v.(sources := v.sources[v.nextSourceId := SourceInstance(kind, name, [], None, false, 0, NO_HISTORY)],
             nextSourceId := v.nextSourceId + 1))
  }

  function SourceAttached(v: RuntimeView, limits: RuntimeLimits, scene: string, source: SourceId): (Reply, RuntimeView) {
    if IdentifierProblem(scene).Some? then (Refused(InvalidIdentifier("scene", IdentifierProblem(scene).value)), v)
    else if AttachProblem(v, limits, scene, source).Some? then (Refused(AttachProblem(v, limits, scene, source).value), v)
    else if Mentions(v.scenes[scene].items, source) then (Refused(SourceAlreadyAttached(source)), v)
    else (Done, WithScene(v, scene, AppendItem(v.scenes[scene], source, GeneratedId(source))))
  }

  function InstanceAttached(v: RuntimeView, limits: RuntimeLimits, scene: string, source: SourceId): (Reply, RuntimeView) {
    var count := if scene in v.scenes then |v.scenes[scene].items| else 0;
    AttachNamed(v, limits, scene, source, IndexedId(count))
  }

  function SourceDetached(v: RuntimeView, scene: string, source: SourceId): (Reply, RuntimeView) {
    if SceneProblem(v, scene).Some? then (Refused(SceneProblem(v, scene).value), v)
    else
      var i := Position(v.scenes[scene].items, source);
      if i == |v.scenes[scene].items| then (Refused(SourceNotAttached(source)), v)
      else (Done, WithScene(v, scene, RemoveItem(v.scenes[scene], i)))
  }

  function SceneCleared(v: RuntimeView, scene: string): (Reply, RuntimeView) {
    if SceneProblem(v, scene).Some? then (Refused(SceneProblem(v, scene).value), v)
    else (Done, WithScene(v, scene, SceneView([], {})))
  }

  function SourceMoved(v: RuntimeView, scene: string, source: SourceId, transform: FrameTransform): (Reply, RuntimeView) {
    if SceneProblem(v, scene).Some? then (Refused(SceneProblem(v, scene).value), v)
    else
      var i := Position(v.scenes[scene].items, source);
      if i == |v.scenes[scene].items| then (Refused(SourceNotAttached(source)), v)
      else (Done, WithScene(v, scene, MoveItem(v.scenes[scene], i, transform)))
  }

  function ItemMoved(v: RuntimeView, scene: string, index: nat, transform: FrameTransform): (Reply, RuntimeView) {
    if SceneProblem(v, scene).Some? then (Refused(SceneProblem(v, scene).value), v)
    else if index >= |v.scenes[scene].items| then (Refused(SceneItemOutOfBounds(index)), v)
    else (Done, WithScene(v, scene, MoveItem(v.scenes[scene], index, transform)))
  }

  function ItemMovedById(v: RuntimeView, scene: string, itemId: string, transform: FrameTransform): (Reply, RuntimeView) {
    if SceneProblem(v, scene).Some? then (Refused(SceneProblem(v, scene).value), v)
    else
      var i := PositionById(v.scenes[scene].items, itemId);
      if i == |v.scenes[scene].items| then (Refused(SceneItemNotAttached(itemId)), v)
      else (Done, WithScene(v, scene, MoveItem(v.scenes[scene], i, transform)))
  }

  function FilterAdded(v: RuntimeView, limits: RuntimeLimits, source: SourceId, filter: FrameFilter): (Reply, RuntimeView) {
    if source !in v.sources then (Refused(UnknownSource(source)), v)
    else if |v.sources[source].filters| >= limits.maxFiltersPerSource then
      (Refused(ResourceLimitExceeded("filters per source", limits.maxFiltersPerSource)), v)
    else (Done, v.(sources := v.sources[source := v.sources[source].(filters := v.sources[source].filters + [filter])]))
  }

  // The delay history goes with the filters; the retained picture stays.
  function FiltersCleared(v: RuntimeView, source: SourceId): (Reply, RuntimeView) {
    if source !in v.sources then (Refused(UnknownSource(source)), v)
    else
      var instance := v.sources[source];
      (Done, v.(sources := v.sources[source := instance.(filters := [], history := Cleared(instance.history))]))
  }

  // The retained picture and the delay history go, whether or not the device accepts.
  function SourceUpdated(v: RuntimeView, source: SourceId, accepted: bool): (Reply, RuntimeView) {
    if source !in v.sources then (Refused(UnknownSource(source)), v)
    else
      var instance := v.sources[source];
      (if accepted then Done else Refused(SourceRejected),
       v.(sources := v.sources[source := instance.(lastFrame := None, failing := false, history := Cleared(instance.history))]))
  }

  function SourceRenamed(v: RuntimeView, source: SourceId, name: string): (Reply, RuntimeView) {
    if Trim(name) == [] then (Refused(InvalidName("source")), v)
    else if source !in v.sources then (Refused(UnknownSource(source)), v)
    else (Done, v.(sources := v.sources[source := v.sources[source].(name := name)]))
  }

  ghost function SourceDestroyed(v: RuntimeView, source: SourceId): (Reply, RuntimeView) {
    if source !in v.sources then (Refused(UnknownSource(source)), v)
    else if InUse(v, source) then (Refused(SourceInUse(source)), v)
    else (Done, v.(sources := v.sources - {source}))
  }

  function SceneDestroyed(v: RuntimeView, scene: string): (Reply, RuntimeView) {
    if SceneProblem(v, scene).Some? then (Refused(SceneProblem(v, scene).value), v)
    else (Done, v.(scenes := v.scenes - {scene}))
  }

  function SceneOrdered(v: RuntimeView, scene: string, order: seq<SourceId>): (Reply, RuntimeView) {
    if SceneProblem(v, scene).Some? then (Refused(SceneProblem(v, scene).value), v)
    else match Reordered(v.scenes[scene], order)
      case Err(error) => (Refused(error), v)
      case Ok(reordered) => (Done, WithScene(v, scene, reordered))
  }

  // The first item whose source does not exist.
  function Dangling(sources: Sources, items: seq<SceneItem>): (k: nat)
    ensures k <= |items| && NoDanglingItem(sources, items[..k])
    ensures k < |items| ==> items[k].source !in sources
  {
    if items == [] || items[0].source !in sources then 0
    else
      var k := 1 + Dangling(sources, items[1..]);
      assert items[1..][..k - 1] == items[1..k];
      k
  }

  // Rendering asks the sources up to a dangling item, should there be one.
  function SceneRendered(v: RuntimeView, scene: string, request: VideoRequest, world: World): (Reply, RuntimeView) {
    if SceneProblem(v, scene).Some? then (Refused(SceneProblem(v, scene).value), v)
    else
      var items := v.scenes[scene].items;
      var k := Dangling(v.sources, items);
      (if k < |items| then Refused(UnknownSource(items[k].source)) else Rendered(Layers(v.sources, world, request, items[..k])),
       v.(sources := SourcesAfter(v.sources, world, request, items[..k])))
  }

  // One call on the graph.
  ghost function Apply(v: RuntimeView, limits: RuntimeLimits, op: Op): (Reply, RuntimeView) {
    match op
    case CreateScene(name) => SceneCreated(v, limits, name)
    case CreateSource(kind, name, factory) => SourceAdded(v, limits, kind, name, factory)
    case AttachSource(scene, source) => SourceAttached(v, limits, scene, source)
    case AttachSourceInstance(scene, source) => InstanceAttached(v, limits, scene, source)
    case AttachSourceInstanceWithId(scene, source, itemId) => AttachNamed(v, limits, scene, source, itemId)
    case DetachSource(scene, source) => SourceDetached(v, scene, source)
    case ClearSceneSources(scene) => SceneCleared(v, scene)
    case SetSourceTransform(scene, source, transform) => SourceMoved(v, scene, source, transform)
    case SetSceneItemTransform(scene, index, transform) => ItemMoved(v, scene, index, transform)
    case SetSceneItemTransformById(scene, itemId, transform) => ItemMovedById(v, scene, itemId, transform)
    case AddSourceFilter(source, filter) => FilterAdded(v, limits, source, filter)
    case ClearSourceFilters(source) => FiltersCleared(v, source)
    case UpdateSource(source, accepted) => SourceUpdated(v, source, accepted)
    case RenameSource(source, name) => SourceRenamed(v, source, name)
    case DestroySource(source) => SourceDestroyed(v, source)
    case DestroyScene(scene) => SceneDestroyed(v, scene)
    case SetSceneOrder(scene, order) => SceneOrdered(v, scene, order)
    case RenderSceneLayers(scene, request, world) => SceneRendered(v, scene, request, world)
  }

  ghost function Run(v: RuntimeView, limits: RuntimeLimits, ops: seq<Op>): (seq<Reply>, RuntimeView)
    decreases ops
  {
    if ops == [] then ([], v)
    else
      var (reply, next) := Apply(v, limits, ops[0]);
      var (rest, last) := Run(next, limits, ops[1..]);
      ([reply] + rest, last)
  }

  const EMPTY := RuntimeView(map[], map[], 1)

  // ---- What every reachable graph satisfies ----------------------------------------------

  ghost predicate SceneConsistent(scene: SceneView, sources: Sources) {
    && NoDanglingItem(sources, scene.items)
    && forall id :: id in scene.itemIds ==> exists i :: 0 <= i < |scene.items| && scene.items[i].itemId == id
  }

  // No dangling source, no stale item id, and ids are handed out once.
  ghost predicate Consistent(v: RuntimeView) {
    && (forall name :: name in v.scenes ==> SceneConsistent(v.scenes[name], v.sources))
    && (forall id :: id in v.sources ==> id < v.nextSourceId)
  }

  lemma AppendConsistent(scene: SceneView, sources: Sources, source: SourceId, itemId: string)
    requires SceneConsistent(scene, sources) && source in sources
    ensures SceneConsistent(AppendItem(scene, source, itemId), sources)
  {
    var next := AppendItem(scene, source, itemId);
    forall id | id in next.itemIds ensures exists i :: 0 <= i < |next.items| && next.items[i].itemId == id {
      if id == itemId {
        assert next.items[|scene.items|].itemId == id;
      } else {
        var i :| 0 <= i < |scene.items| && scene.items[i].itemId == id;
        assert next.items[i].itemId == id;
      }
    }
  }

  lemma RemoveConsistent(scene: SceneView, sources: Sources, i: nat)
    requires SceneConsistent(scene, sources) && i < |scene.items|
    ensures SceneConsistent(RemoveItem(scene, i), sources)
  {
    var next := RemoveItem(scene, i);
    forall id | id in next.itemIds ensures exists k :: 0 <= k < |next.items| && next.items[k].itemId == id {
      var k :| 0 <= k < |scene.items| && scene.items[k].itemId == id;
      assert next.items[if k < i then k else k - 1].itemId == id;
    }
  }

  lemma MoveConsistent(scene: SceneView, sources: Sources, i: nat, transform: FrameTransform)
    requires SceneConsistent(scene, sources) && i < |scene.items|
    ensures SceneConsistent(MoveItem(scene, i, transform), sources)
  {
    var next := MoveItem(scene, i, transform);
    forall id | id in next.itemIds ensures exists k :: 0 <= k < |next.items| && next.items[k].itemId == id {
      var k :| 0 <= k < |scene.items| && scene.items[k].itemId == id;
      assert next.items[k].itemId == id;
    }
  }

  // A reorder permutes the items and keeps the ids.
  lemma ReorderPermutes(scene: SceneView, order: seq<SourceId>)
    requires Reordered(scene, order).Ok?
    ensures var next := Reordered(scene, order).value;
      multiset(next.items) == multiset(scene.items) && next.itemIds == scene.itemIds
  {
    RearrangeIsStable(scene.items, order);
    hide Rearrange, SourcesOf, IsStable, FirstStranger;
  }

  lemma SameItems(a: seq<SceneItem>, b: seq<SceneItem>)
    requires multiset(a) == multiset(b)
    ensures forall item :: item in a <==> item in b
  {
    forall item ensures item in a <==> item in b {
      assert item in a <==> item in multiset(a);
      assert item in b <==> item in multiset(b);
    }
  }

  lemma PermutationConsistent(scene: SceneView, next: SceneView, sources: Sources)
    requires SceneConsistent(scene, sources)
    requires (forall item :: item in scene.items <==> item in next.items) && next.itemIds == scene.itemIds
    ensures SceneConsistent(next, sources)
  {
    forall id | id in next.itemIds ensures exists k :: 0 <= k < |next.items| && next.items[k].itemId == id {
      var i :| 0 <= i < |scene.items| && scene.items[i].itemId == id;
      assert scene.items[i] in next.items;
    }
    forall k | 0 <= k < |next.items| ensures next.items[k].source in sources {
      assert next.items[k] in scene.items;
    }
  }

  lemma ReorderConsistent(scene: SceneView, sources: Sources, order: seq<SourceId>)
    requires SceneConsistent(scene, sources) && Reordered(scene, order).Ok?
    ensures SceneConsistent(Reordered(scene, order).value, sources)
  {
    hide Reordered, SceneConsistent;
    ReorderPermutes(scene, order);
    SameItems(scene.items, Reordered(scene, order).value.items);
    PermutationConsistent(scene, Reordered(scene, order).value, sources);
  }

  lemma SourcesGrow(scene: SceneView, before: Sources, after: Sources)
    requires SceneConsistent(scene, before) && before.Keys <= after.Keys
    ensures SceneConsistent(scene, after)
  {
  }

  lemma EmptyConsistent(sources: Sources)
    ensures SceneConsistent(SceneView([], {}), sources)
  {
  }

  lemma UnmentionedSourceCanGo(scene: SceneView, sources: Sources, source: SourceId)
    requires SceneConsistent(scene, sources) && !Mentions(scene.items, source)
    ensures SceneConsistent(scene, sources - {source})
  {
  }

  lemma WithSceneConsistent(v: RuntimeView, name: string, scene: SceneView)
    requires Consistent(v) && SceneConsistent(scene, v.sources)
    ensures Consistent(WithScene(v, name, scene))
  {
    hide SceneConsistent;
  }

  lemma AppendedSceneConsistent(v: RuntimeView, name: string, source: SourceId, itemId: string)
    requires Consistent(v) && name in v.scenes && source in v.sources
    ensures Consistent(WithScene(v, name, AppendItem(v.scenes[name], source, itemId)))
  {
    AppendConsistent(v.scenes[name], v.sources, source, itemId);
    hide SceneConsistent, AppendItem;
  }

  lemma RemovedSceneConsistent(v: RuntimeView, name: string, i: nat)
    requires Consistent(v) && name in v.scenes && i < |v.scenes[name].items|
    ensures Consistent(WithScene(v, name, RemoveItem(v.scenes[name], i)))
  {
    RemoveConsistent(v.scenes[name], v.sources, i);
    hide SceneConsistent, RemoveItem;
  }

  lemma MovedSceneConsistent(v: RuntimeView, name: string, i: nat, transform: FrameTransform)
    requires Consistent(v) && name in v.scenes && i < |v.scenes[name].items|
    ensures Consistent(WithScene(v, name, MoveItem(v.scenes[name], i, transform)))
  {
    MoveConsistent(v.scenes[name], v.sources, i, transform);
    hide SceneConsistent, MoveItem;
  }

  lemma ReorderedSceneConsistent(v: RuntimeView, name: string, order: seq<SourceId>)
    requires Consistent(v) && name in v.scenes && Reordered(v.scenes[name], order).Ok?
    ensures Consistent(WithScene(v, name, Reordered(v.scenes[name], order).value))
  {
    ReorderConsistent(v.scenes[name], v.sources, order);
    hide SceneConsistent, Reordered;
  }

  lemma DroppedSceneConsistent(v: RuntimeView, name: string)
    requires Consistent(v)
    ensures Consistent(v.(scenes := v.scenes - {name}))
  {
    hide SceneConsistent;
  }

  lemma NewSourceConsistent(v: RuntimeView, instance: SourceInstance)
    requires Consistent(v) && v.nextSourceId < U64_MAX
    ensures v.nextSourceId !in v.sources
    ensures Consistent(v.(sources := v.sources[v.nextSourceId := instance], nextSourceId := v.nextSourceId + 1))
  {
    forall name | name in v.scenes ensures SceneConsistent(v.scenes[name], v.sources[v.nextSourceId := instance]) {
      SourcesGrow(v.scenes[name], v.sources, v.sources[v.nextSourceId := instance]);
    }
    hide SceneConsistent;
  }

  lemma SameSourceConsistent(v: RuntimeView, source: SourceId, instance: SourceInstance)
    requires Consistent(v) && source in v.sources
    ensures Consistent(v.(sources := v.sources[source := instance]))
  {
    SourcesChangeConsistent(v, v.sources[source := instance]);
  }

  lemma SourcesChangeConsistent(v: RuntimeView, sources: Sources)
    requires Consistent(v) && sources.Keys == v.sources.Keys
    ensures Consistent(v.(sources := sources))
  {
    forall name | name in v.scenes ensures SceneConsistent(v.scenes[name], sources) {
      SourcesGrow(v.scenes[name], v.sources, sources);
    }
    assert forall id :: id in sources <==> id in v.sources;
    hide SceneConsistent;
  }

  lemma UnusedSourceConsistent(v: RuntimeView, source: SourceId)
    requires Consistent(v) && !InUse(v, source)
    ensures Consistent(v.(sources := v.sources - {source}))
  {
    forall name | name in v.scenes ensures SceneConsistent(v.scenes[name], v.sources - {source}) {
      UnmentionedSourceCanGo(v.scenes[name], v.sources, source);
    }
    hide SceneConsistent;
  }

  lemma OtherCallsKeepConsistent(v: RuntimeView, limits: RuntimeLimits, op: Op)
    requires Consistent(v) && !EditsScene(op)
    ensures Consistent(Apply(v, limits, op).1)
  {
    hide Consistent, Trim, IdentifierProblem, InUse, SourcesAfter, Layers, Dangling, IsHistory;
    var next := Apply(v, limits, op).1;
    if next == v { return; }
    match op
    case CreateScene(name) =>
      EmptyConsistent(v.sources);
      WithSceneConsistent(v, name, SceneView([], {}));
    case CreateSource(kind, name, _) => NewSourceConsistent(v, SourceInstance(kind, name, [], None, false, 0, NO_HISTORY));
    case AddSourceFilter(source, _) => SameSourceConsistent(v, source, next.sources[source]);
    case ClearSourceFilters(source) => SameSourceConsistent(v, source, next.sources[source]);
    case UpdateSource(source, _) => SameSourceConsistent(v, source, next.sources[source]);
    case RenameSource(source, _) => SameSourceConsistent(v, source, next.sources[source]);
    case DestroySource(source) => UnusedSourceConsistent(v, source);
    case DestroyScene(scene) => DroppedSceneConsistent(v, scene);
    case RenderSceneLayers(scene, request, world) => SourcesChangeConsistent(v, next.sources);
    case _ =>
  }

  lemma SceneEditKeepsConsistent(v: RuntimeView, limits: RuntimeLimits, op: Op)
    requires Consistent(v) && EditsScene(op)
    ensures Consistent(Apply(v, limits, op).1)
  {
    hide Consistent, AppendItem, RemoveItem, MoveItem, Reordered, Position, PositionById, IdentifierProblem, ByteLength,
      GeneratedId, IndexedId, IsHistory;
    var next := Apply(v, limits, op).1;
    if next == v { return; }
    match op
    case AttachSource(scene, source) => AppendedSceneConsistent(v, scene, source, GeneratedId(source));
    case AttachSourceInstance(scene, source) => AppendedSceneConsistent(v, scene, source, IndexedId(|v.scenes[scene].items|));
    case AttachSourceInstanceWithId(scene, source, itemId) => AppendedSceneConsistent(v, scene, source, itemId);
    case DetachSource(scene, source) => RemovedSceneConsistent(v, scene, Position(v.scenes[scene].items, source));
    case ClearSceneSources(scene) =>
      EmptyConsistent(v.sources);
      WithSceneConsistent(v, scene, SceneView([], {}));
    case SetSourceTransform(scene, source, transform) => MovedSceneConsistent(v, scene, Position(v.scenes[scene].items, source), transform);
    case SetSceneItemTransform(scene, index, transform) => MovedSceneConsistent(v, scene, index, transform);
    case SetSceneItemTransformById(scene, itemId, transform) =>
      MovedSceneConsistent(v, scene, PositionById(v.scenes[scene].items, itemId), transform);
    case SetSceneOrder(scene, order) => ReorderedSceneConsistent(v, scene, order);
    case _ =>
  }

  // Every call, accepted or refused, keeps the graph consistent.
  lemma ApplyKeepsConsistent(v: RuntimeView, limits: RuntimeLimits, op: Op)
    requires Consistent(v)
    ensures Consistent(Apply(v, limits, op).1)
  {
    hide Consistent, Apply;
    if EditsScene(op) {
      SceneEditKeepsConsistent(v, limits, op);
    } else {
      OtherCallsKeepConsistent(v, limits, op);
    }
  }

  lemma {:induction false} RunKeepsConsistent(v: RuntimeView, limits: RuntimeLimits, ops: seq<Op>)
    requires Consistent(v)
    ensures Consistent(Run(v, limits, ops).1)
    decreases ops
  {
    if ops != [] {
      ApplyKeepsConsistent(v, limits, ops[0]);
      hide Apply, Consistent;
      RunKeepsConsistent(Apply(v, limits, ops[0]).1, limits, ops[1..]);
    }
  }

  // In a reachable graph, rendering an existing scene never meets an unknown source.
  lemma RenderNeverMissesASource(v: RuntimeView, limits: RuntimeLimits, ops: seq<Op>, scene: string, request: VideoRequest, world: World)
    requires Consistent(v)
    ensures var reached := Run(v, limits, ops).1;
      SceneRendered(reached, scene, request, world).0.Rendered? <==> IdentifierProblem(scene).None? && scene in reached.scenes
  {
    hide IdentifierProblem;
    RunKeepsConsistent(v, limits, ops);
    var reached := Run(v, limits, ops).1;
    if scene in reached.scenes {
      assert SceneConsistent(reached.scenes[scene], reached.sources);
    }
  }

  // A refused call changes nothing, with one exception: settings that the device rejects have
  // already cost the source its retained picture and its delay history.
  lemma RefusalChangesNothing(v: RuntimeView, limits: RuntimeLimits, op: Op)
    requires Consistent(v) && Apply(v, limits, op).0.Refused?
    ensures var next := Apply(v, limits, op).1;
      if op.UpdateSource? && op.source in v.sources then
        next == v.(sources := v.sources[op.source := next.sources[op.source]])
        && next.sources[op.source].lastFrame.None? && next.sources[op.source].history.frames == []
      else next == v
  {
    hide Trim, IdentifierProblem, ByteLength, Decimal, Layers, Rearrange, SourcesAfter;
  }

  // ---- Source identities -----------------------------------------------------------------

  // The source ids handed out by a run, in order.
  function Created(replies: seq<Reply>): seq<SourceId> {
    if replies == [] then []
    else (if replies[0].SourceCreated? then [replies[0].id] else []) + Created(replies[1..])
  }

  lemma IdsAdvance(v: RuntimeView, limits: RuntimeLimits, op: Op)
    ensures var (reply, next) := Apply(v, limits, op);
      if reply.SourceCreated? then reply.id == v.nextSourceId && next.nextSourceId == v.nextSourceId + 1
      else next.nextSourceId == v.nextSourceId
  {
    hide Trim, IdentifierProblem, ByteLength, Decimal, Layers, Rearrange, SourcesAfter, Dangling, Position, PositionById;
  }

  // Ids from `low` up to, but not including, `high`, each larger than the one before.
  predicate Increasing(ids: seq<SourceId>, low: nat, high: nat) {
    && (forall i :: 0 <= i < |ids| ==> low <= ids[i] < high)
    && (forall i, j :: 0 <= i < j < |ids| ==> ids[i] < ids[j])
  }

  lemma IncreasingCons(id: SourceId, ids: seq<SourceId>, high: nat)
    requires Increasing(ids, id + 1, high) && id < high
    ensures Increasing([id] + ids, id, high)
  {
  }

  lemma CreatedCons(reply: Reply, rest: seq<Reply>)
    ensures Created([reply] + rest) == (if reply.SourceCreated? then [reply.id] else []) + Created(rest)
  {
    assert ([reply] + rest)[1..] == rest;
  }

  // Ids are handed out once: over any run they only grow, so no two creations share one, not
  // even after the source was destroyed.
  lemma {:induction false} IdsAreNeverReused(v: RuntimeView, limits: RuntimeLimits, ops: seq<Op>)
    ensures var (replies, last) := Run(v, limits, ops);
      v.nextSourceId <= last.nextSourceId && Increasing(Created(replies), v.nextSourceId, last.nextSourceId)
    decreases ops
  {
    if ops != [] {
      hide Apply, Created, Increasing;
      var (reply, next) := Apply(v, limits, ops[0]);
      IdsAdvance(v, limits, ops[0]);
      IdsAreNeverReused(next, limits, ops[1..]);
      var (rest, last) := Run(next, limits, ops[1..]);
      CreatedCons(reply, rest);
      if reply.SourceCreated? {
        IncreasingCons(reply.id, Created(rest), last.nextSourceId);
      } else {
        assert [] + Created(rest) == Created(rest);
      }
    }
  }

  // ---- Item identities -------------------------------------------------------------------

  // The id set is exact and no two items share an id.
  ghost predicate ExactIds(scene: SceneView) {
    && (forall i :: 0 <= i < |scene.items| ==> scene.items[i].itemId in scene.itemIds)
    && (forall i, j :: 0 <= i < j < |scene.items| ==> scene.items[i].itemId != scene.items[j].itemId)
  }

  // Plain attachment keeps identities exact precisely when the generated id is still free.
  lemma AttachKeepsIdsExactlyWhenFree(scene: SceneView, sources: Sources, source: SourceId)
    requires SceneConsistent(scene, sources) && ExactIds(scene)
    ensures ExactIds(AppendItem(scene, source, GeneratedId(source))) <==> GeneratedId(source) !in scene.itemIds
  {
    var id, next := GeneratedId(source), AppendItem(scene, source, GeneratedId(source));
    if id in scene.itemIds {
      var i :| 0 <= i < |scene.items| && scene.items[i].itemId == id;
      assert next.items[i].itemId == next.items[|scene.items|].itemId;
    }
  }

  ghost predicate Reserved(id: string) {
    exists source: SourceId :: GeneratedId(source) == id
  }

  // Every reserved id in use belongs to the source it was generated for.
  ghost predicate HonestIds(scene: SceneView) {
    && ExactIds(scene)
    && forall i :: 0 <= i < |scene.items| && Reserved(scene.items[i].itemId) ==> scene.items[i].itemId == GeneratedId(scene.items[i].source)
  }

  ghost predicate AllHonest(v: RuntimeView) {
    forall name :: name in v.scenes ==> HonestIds(v.scenes[name])
  }

  // Callers that stay away from the generated names.
  ghost predicate AvoidsReserved(op: Op) {
    op.AttachSourceInstanceWithId? ==> !Reserved(op.itemId)
  }

  lemma IndexedIdIsNotReserved(count: nat)
    ensures !Reserved(IndexedId(count))
  {
    forall source: SourceId ensures GeneratedId(source) != IndexedId(count) {
      assert GeneratedId(source)[0] == 's' && IndexedId(count)[0] == 'i';
    }
  }

  lemma AppendHonest(scene: SceneView, source: SourceId, itemId: string)
    requires HonestIds(scene) && itemId !in scene.itemIds
    requires Reserved(itemId) ==> itemId == GeneratedId(source)
    ensures HonestIds(AppendItem(scene, source, itemId))
  {
  }

  lemma GeneratedIdIsFree(scene: SceneView, sources: Sources, source: SourceId)
    requires SceneConsistent(scene, sources) && HonestIds(scene) && !Mentions(scene.items, source)
    ensures GeneratedId(source) !in scene.itemIds
  {
    if GeneratedId(source) in scene.itemIds {
      var i :| 0 <= i < |scene.items| && scene.items[i].itemId == GeneratedId(source);
      assert Reserved(scene.items[i].itemId);
      GeneratedIdIsInjective(source, scene.items[i].source);
      assert false;
    }
  }

  lemma RemoveHonest(scene: SceneView, i: nat)
    requires HonestIds(scene) && i < |scene.items|
    ensures HonestIds(RemoveItem(scene, i))
  {
    var next := RemoveItem(scene, i);
    forall k | 0 <= k < |next.items| ensures next.items[k] == scene.items[if k < i then k else k + 1] {}
  }

  lemma MoveHonest(scene: SceneView, i: nat, transform: FrameTransform)
    requires HonestIds(scene) && i < |scene.items|
    ensures HonestIds(MoveItem(scene, i, transform))
  {
  }

  // Distinct ids survive any permutation of the items.
  lemma PermutedIdsStayDistinct(a: seq<SceneItem>, b: seq<SceneItem>)
    requires multiset(a) == multiset(b)
    requires forall i, j :: 0 <= i < j < |a| ==> a[i].itemId != a[j].itemId
    ensures forall i, j :: 0 <= i < j < |b| ==> b[i].itemId != b[j].itemId
  {
    forall i, j | 0 <= i < j < |b| ensures b[i].itemId != b[j].itemId {
      assert b[i] in multiset(b) && b[j] in multiset(b);
      var k :| 0 <= k < |a| && a[k] == b[i];
      var l :| 0 <= l < |a| && a[l] == b[j];
      if b[i].itemId == b[j].itemId {
        assert k == l;
        TwiceInMultiset(b, i, j);
        OnceInMultiset(a, k);
        assert false;
      }
    }
  }

  lemma TwiceInMultiset(s: seq<SceneItem>, i: nat, j: nat)
    requires i < j < |s| && s[i] == s[j]
    ensures multiset(s)[s[i]] >= 2
  {
    assert s == s[..j] + [s[j]] + s[j + 1..];
    assert s[..j][i] == s[i];
    assert s[i] in multiset(s[..j]);
  }

  lemma OnceInMultiset(s: seq<SceneItem>, k: nat)
    requires k < |s|
    requires forall i, j :: 0 <= i < j < |s| ==> s[i].itemId != s[j].itemId
    ensures multiset(s)[s[k]] == 1
  {
    assert s == s[..k] + [s[k]] + s[k + 1..];
    assert s[k] !in s[..k] && s[k] !in s[k + 1..];
  }

  lemma PermutationHonest(scene: SceneView, next: SceneView)
    requires HonestIds(scene) && multiset(scene.items) == multiset(next.items) && next.itemIds == scene.itemIds
    ensures HonestIds(next)
  {
    PermutedIdsStayDistinct(scene.items, next.items);
    SameItems(scene.items, next.items);
    forall k | 0 <= k < |next.items| ensures next.items[k] in scene.items {}
  }

  lemma ReorderHonest(scene: SceneView, order: seq<SourceId>)
    requires HonestIds(scene) && Reordered(scene, order).Ok?
    ensures HonestIds(Reordered(scene, order).value)
  {
    hide Reordered, HonestIds;
    ReorderPermutes(scene, order);
    PermutationHonest(scene, Reordered(scene, order).value);
  }

  lemma EmptyHonest()
    ensures HonestIds(SceneView([], {}))
  {
  }

  lemma OtherCallsKeepHonest(v: RuntimeView, limits: RuntimeLimits, op: Op)
    requires AllHonest(v) && !EditsScene(op)
    ensures AllHonest(Apply(v, limits, op).1)
  {
    hide Trim, IdentifierProblem, ByteLength, HonestIds, Layers, SourcesAfter, Dangling, IsHistory;
    EmptyHonest();
  }

  lemma WithSceneHonest(v: RuntimeView, name: string, scene: SceneView)
    requires AllHonest(v) && HonestIds(scene)
    ensures AllHonest(WithScene(v, name, scene))
  {
    hide HonestIds;
  }

  lemma SceneEditKeepsHonest(v: RuntimeView, limits: RuntimeLimits, op: Op)
    requires Consistent(v) && AllHonest(v) && AvoidsReserved(op) && EditsScene(op)
    ensures AllHonest(Apply(v, limits, op).1)
  {
    hide AppendItem, RemoveItem, MoveItem, Reordered, SceneConsistent, Position, PositionById, IdentifierProblem, ByteLength,
      GeneratedId, IndexedId, HonestIds, Reserved, IsHistory;
    var next := Apply(v, limits, op).1;
    if next == v { return; }
    EmptyHonest();
    assert op.scene in v.scenes && HonestIds(v.scenes[op.scene]) && SceneConsistent(v.scenes[op.scene], v.sources);
    var before := v.scenes[op.scene];
    hide AllHonest, Consistent;
    match op
    case AttachSource(scene, source) =>
      GeneratedIdIsFree(before, v.sources, source);
      AppendHonest(before, source, GeneratedId(source));
      WithSceneHonest(v, scene, AppendItem(before, source, GeneratedId(source)));
    case AttachSourceInstance(scene, source) =>
      IndexedIdIsNotReserved(|before.items|);
      AppendHonest(before, source, IndexedId(|before.items|));
      WithSceneHonest(v, scene, AppendItem(before, source, IndexedId(|before.items|)));
    case AttachSourceInstanceWithId(scene, source, itemId) =>
      AppendHonest(before, source, itemId);
      WithSceneHonest(v, scene, AppendItem(before, source, itemId));
    case DetachSource(scene, source) =>
      RemoveHonest(before, Position(before.items, source));
      WithSceneHonest(v, scene, RemoveItem(before, Position(before.items, source)));
    case ClearSceneSources(scene) =>
      WithSceneHonest(v, scene, SceneView([], {}));
    case SetSourceTransform(scene, source, transform) =>
      MoveHonest(before, Position(before.items, source), transform);
      WithSceneHonest(v, scene, MoveItem(before, Position(before.items, source), transform));
    case SetSceneItemTransform(scene, index, transform) =>
      MoveHonest(before, index, transform);
      WithSceneHonest(v, scene, MoveItem(before, index, transform));
    case SetSceneItemTransformById(scene, itemId, transform) =>
      MoveHonest(before, PositionById(before.items, itemId), transform);
      WithSceneHonest(v, scene, MoveItem(before, PositionById(before.items, itemId), transform));
    case SetSceneOrder(scene, order) =>
      ReorderHonest(before, order);
      WithSceneHonest(v, scene, Reordered(before, order).value);
  }

  lemma ApplyKeepsHonest(v: RuntimeView, limits: RuntimeLimits, op: Op)
    requires Consistent(v) && AllHonest(v) && AvoidsReserved(op)
    ensures AllHonest(Apply(v, limits, op).1)
  {
    hide Consistent, AllHonest, Apply, AvoidsReserved;
    if EditsScene(op) {
      SceneEditKeepsHonest(v, limits, op);
    } else {
      OtherCallsKeepHonest(v, limits, op);
    }
  }

  // Item ids are exact in every state reachable by callers that avoid the generated names.
  lemma {:induction false} RunKeepsIdsExact(v: RuntimeView, limits: RuntimeLimits, ops: seq<Op>)
    requires Consistent(v) && AllHonest(v)
    requires forall i :: 0 <= i < |ops| ==> AvoidsReserved(ops[i])
    ensures forall name :: name in Run(v, limits, ops).1.scenes ==> ExactIds(Run(v, limits, ops).1.scenes[name])
    decreases ops
  {
    if ops != [] {
      ApplyKeepsConsistent(v, limits, ops[0]);
      ApplyKeepsHonest(v, limits, ops[0]);
      hide Apply, Consistent, AllHonest, ExactIds;
      RunKeepsIdsExact(Apply(v, limits, ops[0]).1, limits, ops[1..]);
    }
  }
}
