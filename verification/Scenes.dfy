// One scene with its mirrors: the ordered sources and the hashed membership that follow the
// ordered items (crates/obs-rs-core/src/registry.rs, the reorder loop of
// crates/obs-rs-core/src/runtime.rs).
module Scenes {
  import opened Results
  import opened SceneOrder
  import opened Compositor
  import opened SceneGraph
  import opened References

  class Scene {
    var sources: seq<SourceId>
    var attached: set<SourceId>
    var itemIds: set<string>
    var items: seq<SceneItem>

    // The mirrors of `items`.
    ghost predicate Valid()
      reads this
    {
      && sources == SourcesOf(items)
      && (forall s :: s in attached <==> s in sources)
    }

    ghost function View(): SceneView
      reads this
    {
      SceneView(items, itemIds)
    }

    constructor ()
      ensures Valid() && View() == SceneView([], {})
    {
      sources, attached, itemIds, items := [], {}, {}, [];
    }

    method Attach(source: SourceId) returns (added: bool)
      requires Valid()
      modifies this
      ensures Valid()
      ensures added <==> !Mentions(old(items), source)
      ensures View() == if added then AppendItem(old(View()), source, GeneratedId(source)) else old(View())
    {
      MentionsMirror(items, source);
      if source in attached {
        return false;
      }
      attached := attached + {source};
      var itemId := GeneratedId(source);
      itemIds := itemIds + {itemId};
      SourcesAppend(items, SceneItem(source, itemId, Identity));
      sources := sources + [source];
      items := items + [SceneItem(source, itemId, Identity)];
      return true;
    }

    method AttachInstanceWithId(source: SourceId, itemId: string) returns (index: Option<nat>)
      requires Valid()
      modifies this
      ensures Valid()
      ensures index == if itemId in old(itemIds) then None else Some(|old(items)|)
      ensures View() == if index.Some? then AppendItem(old(View()), source, itemId) else old(View())
    {
      if itemId in itemIds {
        return None;
      }
      itemIds := itemIds + {itemId};
      attached := attached + {source};
      SourcesAppend(items, SceneItem(source, itemId, Identity));
      sources := sources + [source];
      items := items + [SceneItem(source, itemId, Identity)];
      return Some(|sources| - 1);
    }

    method Detach(source: SourceId) returns (removed: bool)
      requires Valid()
      modifies this
      ensures Valid()
      ensures removed <==> Position(old(items), source) < |old(items)|
      ensures View() == if removed then RemoveItem(old(View()), Position(old(items), source)) else old(View())
    {
      var index := Position(items, source);
      if index == |items| {
        return false;
      }
      SourcesRemove(items, index);
      sources := Without(sources, index);
      var item := items[index];
      items := Without(items, index);
      itemIds := itemIds - {item.itemId};
      if source !in sources {
        attached := attached - {source};
      }
      return true;
    }

    method Clear()
      modifies this
      ensures Valid() && View() == SceneView([], {})
    {
      sources, items, attached, itemIds := [], [], {}, {};
    }

    method SetTransform(index: nat, transform: FrameTransform)
      requires Valid() && index < |items|
      modifies this
      ensures Valid() && View() == MoveItem(old(View()), index, transform)
      ensures SourcesOf(items) == SourcesOf(old(items))
    {
      items := items[index := items[index].(transform := transform)];
    }

    // The membership loop of the reorder, over the hashed mirror.
    method FindStranger(order: seq<SourceId>) returns (stranger: Option<SourceId>)
      requires Valid()
      ensures stranger == FirstStranger(items, order)
    {
      for k := 0 to |order|
        invariant FirstStranger(items, order[k..]) == FirstStranger(items, order)
      {
        MentionsMirror(items, order[k]);
        assert order[k..][0] == order[k] && order[k..][1..] == order[k + 1..];
        if order[k] !in attached {
          return Some(order[k]);
        }
      }
      return None;
    }

    // The length check and the comparison of the two count maps.
    method IsPermutation(order: seq<SourceId>) returns (same: bool)
      requires Valid()
      ensures same <==> multiset(order) == multiset(SourcesOf(items))
    {
      assert |multiset(order)| == |order| && |multiset(sources)| == |sources|;
      if |order| != |sources| {
        return false;
      }
      var expected := CountSources(sources);
      var requested := CountSources(order);
      CountsDecide(expected, multiset(sources), requested, multiset(order));
      return expected == requested;
    }

    method Reorder(order: seq<SourceId>) returns (r: Result<(), RuntimeError>)
      requires Valid()
      modifies this
      ensures Valid()
      ensures match Reordered(old(View()), order)
        case Err(error) => r == Err(error) && View() == old(View())
        case Ok(reordered) => r == Ok(()) && View() == reordered
    {
      hide Rearrange, SourcesOf;
      var stranger := FindStranger(order);
      if stranger.Some? {
        return Err(SourceNotAttached(stranger.value));
      }
      var permutation := IsPermutation(order);
      if !permutation {
        return Err(InvalidName("scene order"));
      }
      var next := PickItems(order);
      RearrangeIsStable(items, order);
      SameMembers(order, sources);
      sources, items := order, next;
      return Ok(());
    }

    method PickItems(order: seq<SourceId>) returns (next: seq<SceneItem>)
      requires multiset(SourcesOf(items)) == multiset(order)
      ensures next == Rearrange(items, order)
    {
      hide Rearrange, SourcesOf, Without;
      var remaining := items;
      next := [];
      assert [] + Rearrange(items, order) == Rearrange(items, order) && order[0..] == order;
      for k := 0 to |order|
        invariant multiset(SourcesOf(remaining)) == multiset(order[k..])
        invariant next + Rearrange(remaining, order[k..]) == Rearrange(items, order)
      {
        RearrangeStep(remaining, order[k..]);
        assert order[k..][0] == order[k] && order[k..][1..] == order[k + 1..];
        var index := Position(remaining, order[k]);
        next := next + [remaining[index]];
        remaining := Without(remaining, index);
      }
      RearrangeNothing(remaining, order[|order|..]);
    }
  }

  lemma RearrangeNothing(items: seq<SceneItem>, order: seq<SourceId>)
    requires multiset(SourcesOf(items)) == multiset(order) && order == []
    ensures Rearrange(items, order) == []
  {
  }

  lemma SameMembers(a: seq<SourceId>, b: seq<SourceId>)
    requires multiset(a) == multiset(b)
    ensures forall s :: s in a <==> s in b
  {
    assert forall s :: s in a <==> s in multiset(a);
    assert forall s :: s in b <==> s in multiset(b);
  }

  lemma MentionsMirror(items: seq<SceneItem>, source: SourceId)
    ensures Mentions(items, source) <==> source in SourcesOf(items)
  {
    if Mentions(items, source) {
      var i :| 0 <= i < |items| && items[i].source == source;
      assert SourcesOf(items)[i] == source;
    }
  }

  lemma SourcesAppend(items: seq<SceneItem>, item: SceneItem)
    ensures SourcesOf(items + [item]) == SourcesOf(items) + [item.source]
  {
  }

  lemma SourcesRemove(items: seq<SceneItem>, i: nat)
    requires i < |items|
    ensures SourcesOf(Without(items, i)) == Without(SourcesOf(items), i)
    ensures forall s :: s in SourcesOf(items) <==> s == items[i].source || s in Without(SourcesOf(items), i)
  {
    var sources := SourcesOf(items);
    forall s | s in sources ensures s == items[i].source || s in Without(sources, i) {
      var k :| 0 <= k < |sources| && sources[k] == s;
      if k != i {
        assert Without(sources, i)[if k < i then k else k - 1] == s;
      }
    }
  }

  // The hash-map counting loop.
  method CountSources(list: seq<SourceId>) returns (counts: map<SourceId, nat>)
    ensures CountsMatch(counts, multiset(list))
  {
    counts := map[];
    for k := 0 to |list|
      invariant CountsMatch(counts, multiset(list[..k]))
    {
      IncrementMatches(counts, multiset(list[..k]), list[k]);
      assert list[..k + 1] == list[..k] + [list[k]];
      counts := Increment(counts, list[k]);
    }
    assert list[..|list|] == list;
  }
}
