// Item identities over runs of calls: when an attachment under a derived identity is accepted,
// and two runs in which derived identities collide
// (crates/obs-rs-core/src/registry.rs, crates/obs-rs-core/src/runtime.rs).
module IdentityRuns {
  import opened Numbers
  import opened Results
  import opened Identifiers
  import opened Numerals
  import opened ConfigText
  import opened SceneOrder
  import opened RenderDelays
  import opened Compositor
  import opened SceneGraph

  // ---- Derived item identities -------------------------------------------------------------

  function Power10(n: nat): nat {
    if n == 0 then 1 else 10 * Power10(n - 1)
  }

  lemma {:induction false} DecimalShape(n: nat, digits: nat)
    requires digits > 0 && n < Power10(digits)
    ensures |Decimal(n)| <= digits
    ensures forall i :: 0 <= i < |Decimal(n)| ==> Decimal(n)[i] as int < 0x80
    decreases n
  {
    if n >= 10 {
      assert digits > 1 by {
        assert Power10(1) == 10 * Power10(0) == 10;
      }
      DecimalShape(n / 10, digits - 1);
    }
  }

  lemma SixtyFourBitsHaveTwentyDigits()
    ensures U64_MAX < Power10(20)
  {
    assert Power10(5) == 100_000;
    assert Power10(10) == 100_000 * Power10(5);
    assert Power10(15) == 100_000 * Power10(10);
    assert Power10(20) == 100_000 * Power10(15);
  }

  // A derived identity is never refused for its length.
  lemma IndexedIdIsItemId(count: u64)
    ensures IsItemId(IndexedId(count))
  {
    SixtyFourBitsHaveTwentyDigits();
    DecimalShape(count, 20);
    AsciiByteLength(IndexedId(count));
  }

  // Attaching under the derived `item-N` is accepted exactly when the scene and the source are
  // there, the limit leaves room, and no item already carries the identity derived from the count.
  lemma IndexedAttachAcceptedExactly(v: RuntimeView, limits: RuntimeLimits, scene: string, source: SourceId)
    ensures InstanceAttached(v, limits, scene, source).0.ItemAt?
       <==> AttachProblem(v, limits, scene, source).None?
            && IndexedId(|v.scenes[scene].items|) !in v.scenes[scene].itemIds
    ensures AttachProblem(v, limits, scene, source).None? && !InstanceAttached(v, limits, scene, source).0.ItemAt? ==>
      InstanceAttached(v, limits, scene, source).0 == Refused(DuplicateSceneItem(IndexedId(|v.scenes[scene].items|)))
  {
    if AttachProblem(v, limits, scene, source).None? {
      IndexedIdIsItemId(|v.scenes[scene].items|);
    }
    hide IsItemId, IndexedId, IdentifierProblem;
  }

  // ---- Runs, call by call --------------------------------------------------------------------

  lemma RunPrepend(v: RuntimeView, limits: RuntimeLimits, op: Op, rest: seq<Op>)
    ensures Run(v, limits, [op] + rest)
         == ([Apply(v, limits, op).0] + Run(Apply(v, limits, op).1, limits, rest).0, Run(Apply(v, limits, op).1, limits, rest).1)
  {
    hide Apply;
    assert ([op] + rest)[0] == op && ([op] + rest)[1..] == rest;
  }

  lemma RunOne(v: RuntimeView, limits: RuntimeLimits, op: Op)
    ensures Run(v, limits, [op]) == ([Apply(v, limits, op).0], Apply(v, limits, op).1)
  {
    RunPrepend(v, limits, op, []);
    hide Apply;
    assert [op] + [] == [op];
    assert [Apply(v, limits, op).0] + [] == [Apply(v, limits, op).0];
  }

  // Names that the runtime accepts, and limits that leave room for two sources.
  predicate Usable(limits: RuntimeLimits, scene: string, kind: string, name: string) {
    && IdentifierProblem(scene).None? && IdentifierProblem(kind).None? && Trim(name) != []
    && limits.maxScenes >= 1 && limits.maxSources >= 2 && limits.maxSourcesPerScene >= 2
  }

  function WithSources(scene: string, kind: string, name: string, count: nat, items: SceneView): RuntimeView
    requires count <= 2
  {
    var instance := SourceInstance(kind, name, [], None, false, 0, NO_HISTORY);
    RuntimeView(if count == 0 then map[] else if count == 1 then map[1 := instance] else map[1 := instance, 2 := instance],
                map[scene := items], count + 1)
  }

  const NO_ITEMS := SceneView([], {})

  // One empty scene and two sources.
  function Setup(scene: string, kind: string, name: string): seq<Op> {
    [CreateScene(scene), CreateSource(kind, name, FactoryCreated), CreateSource(kind, name, FactoryCreated)]
  }

  lemma SetupRuns(limits: RuntimeLimits, scene: string, kind: string, name: string, rest: seq<Op>)
    requires Usable(limits, scene, kind, name)
    ensures Run(EMPTY, limits, Setup(scene, kind, name) + rest)
         == ([Done, SourceCreated(1), SourceCreated(2)] + Run(WithSources(scene, kind, name, 2, NO_ITEMS), limits, rest).0,
             Run(WithSources(scene, kind, name, 2, NO_ITEMS), limits, rest).1)
  {
    hide Run, IdentifierProblem, Trim, IsHistory;
    var create := CreateSource(kind, name, FactoryCreated);
    var v0, v1, v2 := WithSources(scene, kind, name, 0, NO_ITEMS), WithSources(scene, kind, name, 1, NO_ITEMS), WithSources(scene, kind, name, 2, NO_ITEMS);
    assert Apply(EMPTY, limits, CreateScene(scene)) == (Done, v0);
    assert Apply(v0, limits, create) == (SourceCreated(1), v1);
    SecondSource(limits, scene, kind, name);
    hide Apply, WithSources;
    RunPrepend(EMPTY, limits, CreateScene(scene), [create] + ([create] + rest));
    RunPrepend(v0, limits, create, [create] + rest);
    RunPrepend(v1, limits, create, rest);
    assert Setup(scene, kind, name) + rest == [CreateScene(scene)] + ([create] + ([create] + rest));
    var last := Run(v2, limits, rest).0;
    assert [Done] + ([SourceCreated(1)] + ([SourceCreated(2)] + last)) == [Done, SourceCreated(1), SourceCreated(2)] + last;
  }

  lemma SecondSource(limits: RuntimeLimits, scene: string, kind: string, name: string)
    requires Usable(limits, scene, kind, name)
    ensures Apply(WithSources(scene, kind, name, 1, NO_ITEMS), limits, CreateSource(kind, name, FactoryCreated))
         == (SourceCreated(2), WithSources(scene, kind, name, 2, NO_ITEMS))
  {
    hide IdentifierProblem, Trim, IsHistory;
  }

  lemma Rescened(scene: string, kind: string, name: string, items: SceneView, next: SceneView)
    ensures WithScene(WithSources(scene, kind, name, 2, items), scene, next) == WithSources(scene, kind, name, 2, next)
    ensures scene in WithSources(scene, kind, name, 2, items).scenes
    ensures WithSources(scene, kind, name, 2, items).scenes[scene] == items
    ensures 1 in WithSources(scene, kind, name, 2, items).sources && 2 in WithSources(scene, kind, name, 2, items).sources
  {
    assert map[scene := items][scene := next] == map[scene := next];
  }

  // What the calls on the scene mean once it and its sources are there.
  lemma NamedAttach(limits: RuntimeLimits, scene: string, kind: string, name: string, items: SceneView, source: SourceId, itemId: string)
    requires Usable(limits, scene, kind, name) && |items.items| < 2 && 1 <= source <= 2
    requires IsItemId(itemId) && itemId !in items.itemIds
    ensures Apply(WithSources(scene, kind, name, 2, items), limits, AttachSourceInstanceWithId(scene, source, itemId))
         == (ItemAt(|items.items|), WithSources(scene, kind, name, 2, AppendItem(items, source, itemId)))
  {
    Rescened(scene, kind, name, items, AppendItem(items, source, itemId));
    hide WithScene, WithSources, IdentifierProblem, Trim, IsHistory, IsItemId, AppendItem;
    assert WithScene(WithSources(scene, kind, name, 2, items), scene, AppendItem(items, source, itemId))
        == WithSources(scene, kind, name, 2, AppendItem(items, source, itemId));
  }

  lemma DerivedAttach(limits: RuntimeLimits, scene: string, kind: string, name: string, items: SceneView, source: SourceId)
    requires Usable(limits, scene, kind, name) && |items.items| < 2 && 1 <= source <= 2
    requires IsItemId(IndexedId(|items.items|)) && IndexedId(|items.items|) !in items.itemIds
    ensures Apply(WithSources(scene, kind, name, 2, items), limits, AttachSourceInstance(scene, source))
         == (ItemAt(|items.items|), WithSources(scene, kind, name, 2, AppendItem(items, source, IndexedId(|items.items|))))
  {
    NamedAttach(limits, scene, kind, name, items, source, IndexedId(|items.items|));
    Rescened(scene, kind, name, items, items);
    hide WithSources, IsItemId, AppendItem, AttachNamed, IndexedId, Usable;
  }

  lemma PlainAttach(limits: RuntimeLimits, scene: string, kind: string, name: string, items: SceneView, source: SourceId)
    requires Usable(limits, scene, kind, name) && |items.items| < 2 && 1 <= source <= 2 && !Mentions(items.items, source)
    ensures Apply(WithSources(scene, kind, name, 2, items), limits, AttachSource(scene, source))
         == (Done, WithSources(scene, kind, name, 2, AppendItem(items, source, GeneratedId(source))))
  {
    Rescened(scene, kind, name, items, AppendItem(items, source, GeneratedId(source)));
    hide WithScene, WithSources, IdentifierProblem, Trim, IsHistory, GeneratedId, AppendItem, Mentions;
    assert WithScene(WithSources(scene, kind, name, 2, items), scene, AppendItem(items, source, GeneratedId(source)))
        == WithSources(scene, kind, name, 2, AppendItem(items, source, GeneratedId(source)));
  }

  lemma FirstItemDetached(limits: RuntimeLimits, scene: string, kind: string, name: string, items: SceneView)
    requires Usable(limits, scene, kind, name) && items.items != [] && items.items[0].source == 1
    ensures Apply(WithSources(scene, kind, name, 2, items), limits, DetachSource(scene, 1))
         == (Done, WithSources(scene, kind, name, 2, RemoveItem(items, 0)))
  {
    assert Position(items.items, 1) == 0;
    Rescened(scene, kind, name, items, RemoveItem(items, 0));
    hide WithScene, WithSources, IdentifierProblem, Trim, IsHistory, RemoveItem, Position;
    assert WithScene(WithSources(scene, kind, name, 2, items), scene, RemoveItem(items, 0))
        == WithSources(scene, kind, name, 2, RemoveItem(items, 0));
  }

  lemma TakenIdentityRefused(limits: RuntimeLimits, scene: string, kind: string, name: string, items: SceneView)
    requires Usable(limits, scene, kind, name) && |items.items| < 2 && IndexedId(|items.items|) in items.itemIds
    ensures Apply(WithSources(scene, kind, name, 2, items), limits, AttachSourceInstance(scene, 1)).0
         == Refused(DuplicateSceneItem(IndexedId(|items.items|)))
  {
    var v := WithSources(scene, kind, name, 2, items);
    Rescened(scene, kind, name, items, items);
    hide WithSources, IdentifierProblem, Trim, IsHistory, IsItemId, IndexedId, InstanceAttached;
    assert AttachProblem(v, limits, scene, 1).None?;
    IndexedAttachAcceptedExactly(v, limits, scene, 1);
  }

  // ---- A generated identity that is already taken --------------------------------------------

  lemma FirstGenerated()
    ensures GeneratedId(1) == "source-1" && IsItemId("source-1")
  {
    assert "source-" + "1" == "source-1";
    AsciiByteLength("source-1");
    hide ByteLength;
  }

  lemma FirstIndexed()
    ensures IndexedId(0) == "item-0" && IndexedId(1) == "item-1"
  {
    assert "item-" + "0" == "item-0" && "item-" + "1" == "item-1";
  }

  lemma ShortIdentities()
    ensures GeneratedId(1) == "source-1" && IndexedId(0) == "item-0" && IndexedId(1) == "item-1"
    ensures IsItemId("source-1") && IsItemId("item-0") && IsItemId("item-1")
  {
    hide IsItemId, IndexedId, GeneratedId;
    FirstGenerated();
    FirstIndexed();
    IndexedIdIsItemId(0);
    IndexedIdIsItemId(1);
  }

  lemma ThenTwo(v: RuntimeView, limits: RuntimeLimits, a: Op, b: Op)
    ensures var (r1, s1) := Apply(v, limits, a);
      var (r2, s2) := Apply(s1, limits, b);
      Run(v, limits, [a, b]) == ([r1, r2], s2)
  {
    hide Apply, Run;
    var (r1, s1) := Apply(v, limits, a);
    var (r2, s2) := Apply(s1, limits, b);
    RunPrepend(v, limits, a, [b]);
    RunOne(s1, limits, b);
    assert [a] + [b] == [a, b] && [r1] + [r2] == [r1, r2];
  }

  // One identity for two items.
  lemma TwoItemsOneIdentity(items: SceneView, source: SourceId, itemId: string)
    requires |items.items| == 1 && items.items[0].itemId == itemId
    ensures var both := AppendItem(items, source, itemId);
      |both.items| == 2 && both.items[0].itemId == both.items[1].itemId == itemId && !ExactIds(both)
  {
    var both := AppendItem(items, source, itemId);
    assert both.items[0].itemId == both.items[1].itemId;
  }

  function Taken(): SceneView { AppendItem(NO_ITEMS, 2, "source-1") }

  lemma TakenFacts()
    ensures |Taken().items| == 1 && Taken().items[0].itemId == "source-1" && !Mentions(Taken().items, 1)
    ensures |NO_ITEMS.items| == 0 && "source-1" !in NO_ITEMS.itemIds
  {
  }

  lemma NameThenAttach(limits: RuntimeLimits, scene: string, kind: string, name: string)
    requires Usable(limits, scene, kind, name)
    ensures Run(WithSources(scene, kind, name, 2, NO_ITEMS), limits, [AttachSourceInstanceWithId(scene, 2, "source-1"), AttachSource(scene, 1)])
         == ([ItemAt(0), Done], WithSources(scene, kind, name, 2, AppendItem(Taken(), 1, GeneratedId(1))))
  {
    TakenFacts();
    ShortIdentities();
    NamedAttach(limits, scene, kind, name, NO_ITEMS, 2, "source-1");
    hide *;
    PlainAttach(limits, scene, kind, name, Taken(), 1);
    ThenTwo(WithSources(scene, kind, name, 2, NO_ITEMS), limits, AttachSourceInstanceWithId(scene, 2, "source-1"), AttachSource(scene, 1));
    assert Taken() == AppendItem(NO_ITEMS, 2, "source-1") by { TakenIs(); }
  }

  lemma TakenIs()
    ensures Taken() == AppendItem(NO_ITEMS, 2, "source-1")
  {
  }

  // For every scene name: a caller names an item of source 2 `source-1`, and source 1 is then
  // attached plainly. Every call is accepted, and the scene has one identity for two items.
  lemma DuplicateIdentityExample(limits: RuntimeLimits, scene: string, kind: string, name: string)
    requires Usable(limits, scene, kind, name)
    ensures var calls := [AttachSourceInstanceWithId(scene, 2, "source-1"), AttachSource(scene, 1)];
      var (replies, last) := Run(EMPTY, limits, Setup(scene, kind, name) + calls);
      && replies == [Done, SourceCreated(1), SourceCreated(2), ItemAt(0), Done]
      && scene in last.scenes && |last.scenes[scene].items| == 2
      && last.scenes[scene].items[0].itemId == last.scenes[scene].items[1].itemId == "source-1"
      && !ExactIds(last.scenes[scene])
  {
    var calls := [AttachSourceInstanceWithId(scene, 2, "source-1"), AttachSource(scene, 1)];
    assert [Done, SourceCreated(1), SourceCreated(2)] + [ItemAt(0), Done] == [Done, SourceCreated(1), SourceCreated(2), ItemAt(0), Done];
    hide *;
    TakenFacts();
    ShortIdentities();
    TwoItemsOneIdentity(Taken(), 1, GeneratedId(1));
    var both := AppendItem(Taken(), 1, GeneratedId(1));
    Rescened(scene, kind, name, both, both);
    SetupRuns(limits, scene, kind, name, calls);
    NameThenAttach(limits, scene, kind, name);
  }

  // ---- A derived identity that is still taken after a detach -----------------------------------

  lemma ThenFour(v: RuntimeView, limits: RuntimeLimits, a: Op, b: Op, c: Op, d: Op)
    ensures var (r1, s1) := Apply(v, limits, a);
      var (r2, s2) := Apply(s1, limits, b);
      var (r3, s3) := Apply(s2, limits, c);
      var (r4, s4) := Apply(s3, limits, d);
      Run(v, limits, [a, b, c, d]) == ([r1, r2, r3, r4], s4)
  {
    hide Apply, Run;
    var (r1, s1) := Apply(v, limits, a);
    var (r2, s2) := Apply(s1, limits, b);
    var (r3, s3) := Apply(s2, limits, c);
    var (r4, s4) := Apply(s3, limits, d);
    ThenTwo(s2, limits, c, d);
    RunPrepend(s1, limits, b, [c, d]);
    RunPrepend(v, limits, a, [b, c, d]);
    assert [a] + [b, c, d] == [a, b, c, d] && [b] + [c, d] == [b, c, d];
    assert [r1] + ([r2] + [r3, r4]) == [r1, r2, r3, r4];
  }

  function One(): SceneView { AppendItem(NO_ITEMS, 1, IndexedId(0)) }

  function Two(): SceneView { AppendItem(One(), 1, IndexedId(1)) }

  lemma TwoFacts()
    ensures |NO_ITEMS.items| == 0 && IndexedId(0) !in NO_ITEMS.itemIds
    ensures |One().items| == 1 && IndexedId(1) !in One().itemIds
    ensures |Two().items| == 2 && Two().items[0].source == 1
    ensures |RemoveItem(Two(), 0).items| == 1 && IndexedId(1) in RemoveItem(Two(), 0).itemIds
    ensures AppendItem(NO_ITEMS, 1, IndexedId(0)) == One() && AppendItem(One(), 1, IndexedId(1)) == Two()
  {
    ShortIdentities();
    assert "item-0"[5] != "item-1"[5];
    hide IndexedId;
  }

  lemma DetachThenAttach(limits: RuntimeLimits, scene: string, kind: string, name: string)
    requires Usable(limits, scene, kind, name)
    ensures var attach := AttachSourceInstance(scene, 1);
      Run(WithSources(scene, kind, name, 2, NO_ITEMS), limits, [attach, attach, DetachSource(scene, 1), attach]).0
        == [ItemAt(0), ItemAt(1), Done, Refused(DuplicateSceneItem(IndexedId(1)))]
  {
    var attach := AttachSourceInstance(scene, 1);
    hide *;
    TwoFacts();
    ShortIdentities();
    DerivedAttach(limits, scene, kind, name, NO_ITEMS, 1);
    DerivedAttach(limits, scene, kind, name, One(), 1);
    FirstItemDetached(limits, scene, kind, name, Two());
    TakenIdentityRefused(limits, scene, kind, name, RemoveItem(Two(), 0));
    ThenFour(WithSources(scene, kind, name, 2, NO_ITEMS), limits, attach, attach, DetachSource(scene, 1), attach);
  }

  // Attach a source twice, detach its first item, attach it again: the count is back at one,
  // `item-1` is still in use, and the call is refused although its scene and source exist and
  // the limit leaves room.
  lemma IndexedIdentityCollides(limits: RuntimeLimits, scene: string, kind: string, name: string)
    requires Usable(limits, scene, kind, name)
    ensures var attach := AttachSourceInstance(scene, 1);
      Run(EMPTY, limits, Setup(scene, kind, name) + [attach, attach, DetachSource(scene, 1), attach]).0
        == [Done, SourceCreated(1), SourceCreated(2), ItemAt(0), ItemAt(1), Done, Refused(DuplicateSceneItem("item-1"))]
  {
    var attach := AttachSourceInstance(scene, 1);
    var refused := Refused(DuplicateSceneItem(IndexedId(1)));
    assert [Done, SourceCreated(1), SourceCreated(2)] + [ItemAt(0), ItemAt(1), Done, refused]
        == [Done, SourceCreated(1), SourceCreated(2), ItemAt(0), ItemAt(1), Done, refused];
    hide *;
    ShortIdentities();
    SetupRuns(limits, scene, kind, name, [attach, attach, DetachSource(scene, 1), attach]);
    DetachThenAttach(limits, scene, kind, name);
  }
}
