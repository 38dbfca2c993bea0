// Scene items and their stable rearrangement (crates/obs-rs-core/src/registry.rs,
// the reorder loop of crates/obs-rs-core/src/runtime.rs).
module SceneOrder {
  import opened Numbers

  type SourceId = u64

  datatype FrameTransform = Identity | Placed(parameters: seq<int>)

  datatype SceneItem = SceneItem(source: SourceId, itemId: string, transform: FrameTransform)

  function SourcesOf(items: seq<SceneItem>): (sources: seq<SourceId>)
    ensures |sources| == |items|
    ensures forall i :: 0 <= i < |items| ==> sources[i] == items[i].source
  {
    seq(|items|, i requires 0 <= i < |items| => items[i].source)
  }

  // `iter().position(...)`: the first item of a source, or the length.
  function Position(items: seq<SceneItem>, source: SourceId): (i: nat)
    ensures i <= |items|
    ensures i < |items| ==> items[i].source == source
    ensures forall j :: 0 <= j < i ==> items[j].source != source
  {
    if items == [] || items[0].source == source then 0 else 1 + Position(items[1..], source)
  }

  function Without<T>(s: seq<T>, i: nat): (r: seq<T>)
    requires i < |s|
    ensures |r| == |s| - 1
  {
    s[..i] + s[i + 1..]
  }

  lemma SourcesWithout(items: seq<SceneItem>, i: nat)
    requires i < |items|
    ensures SourcesOf(Without(items, i)) == Without(SourcesOf(items), i)
    ensures multiset(Without(items, i)) == multiset(items) - multiset{items[i]}
    ensures multiset(SourcesOf(Without(items, i))) == multiset(SourcesOf(items)) - multiset{items[i].source}
  {
    assert items == items[..i] + [items[i]] + items[i + 1..];
    var sources := SourcesOf(items);
    assert sources == sources[..i] + [sources[i]] + sources[i + 1..];
  }

  // The loop of the reorder: pick the first remaining item of each requested source.
  function Rearrange(items: seq<SceneItem>, order: seq<SourceId>): (r: seq<SceneItem>)
    requires multiset(SourcesOf(items)) == multiset(order)
    decreases order
  {
    if order == [] then []
    else
      var i := Position(items, order[0]);
      RestStillMatches(items, order);
      [items[i]] + Rearrange(Without(items, i), order[1..])
  }

  // The "scene order" error inside the loop is unreachable.
  lemma RequestedIsPresent(items: seq<SceneItem>, order: seq<SourceId>)
    requires multiset(SourcesOf(items)) == multiset(order) && order != []
    ensures Position(items, order[0]) < |items|
  {
    assert order[0] in multiset(order);
    assert order[0] in SourcesOf(items);
  }

  // The items of one source, in order.
  function OfSource(items: seq<SceneItem>, source: SourceId): seq<SceneItem> {
    if items == [] then []
    else if items[0].source == source then [items[0]] + OfSource(items[1..], source)
    else OfSource(items[1..], source)
  }

  lemma OfSourceHead(items: seq<SceneItem>, source: SourceId)
    requires items != []
    ensures OfSource(items, source) ==
      if items[0].source == source then [items[0]] + OfSource(items[1..], source) else OfSource(items[1..], source)
  {
  }

  lemma {:induction false} OfSourceAppend(a: seq<SceneItem>, b: seq<SceneItem>, source: SourceId)
    ensures OfSource(a + b, source) == OfSource(a, source) + OfSource(b, source)
  {
    if a == [] {
      assert a + b == b;
    } else {
      assert (a + b)[1..] == a[1..] + b;
      OfSourceHead(a, source);
      OfSourceHead(a + b, source);
      OfSourceAppend(a[1..], b, source);
      hide OfSource;
    }
  }

  lemma {:induction false} NoneBefore(items: seq<SceneItem>, source: SourceId)
    requires forall i :: 0 <= i < |items| ==> items[i].source != source
    ensures OfSource(items, source) == []
  {
    if items != [] { NoneBefore(items[1..], source); }
  }

  // Taking out the first item of a source shortens that source's run from the front only.
  lemma OfSourceWithout(items: seq<SceneItem>, i: nat, source: SourceId)
    requires i < |items| && i == Position(items, items[i].source)
    ensures OfSource(items, source) ==
      if source == items[i].source then [items[i]] + OfSource(Without(items, i), source) else OfSource(Without(items, i), source)
  {
    var before, item, after := items[..i], items[i], items[i + 1..];
    assert items == before + ([item] + after);
    OfSourceAppend(before, [item] + after, source);
    OfSourceAppend(before, after, source);
    OfSourceHead([item] + after, source);
    assert ([item] + after)[1..] == after;
    hide OfSource, Position;
    if source == item.source {
      NoneBefore(before, source);
      assert [] + OfSource(after, source) == OfSource(after, source);
    }
    assert [] + OfSource(Without(items, i), source) == OfSource(Without(items, i), source);
  }

  // A stable rearrangement: the requested order, with every source's items (identity and
  // transform included) in their old relative order.
  ghost predicate IsStable(items: seq<SceneItem>, order: seq<SourceId>, result: seq<SceneItem>) {
    && SourcesOf(result) == order
    && forall source :: OfSource(result, source) == OfSource(items, source)
  }

  lemma RestStillMatches(items: seq<SceneItem>, order: seq<SourceId>)
    requires multiset(SourcesOf(items)) == multiset(order) && order != []
    ensures var i := Position(items, order[0]);
      i < |items| && multiset(SourcesOf(Without(items, i))) == multiset(order[1..])
  {
    RequestedIsPresent(items, order);
    SourcesWithout(items, Position(items, order[0]));
    DropHead(order);
    hide SourcesOf, Without, Position;
  }

  lemma DropHead<T>(s: seq<T>)
    requires s != []
    ensures multiset(s[1..]) == multiset(s) - multiset{s[0]}
  {
    assert s == [s[0]] + s[1..];
  }

  lemma RearrangeStep(items: seq<SceneItem>, order: seq<SourceId>)
    requires multiset(SourcesOf(items)) == multiset(order) && order != []
    ensures var i := Position(items, order[0]);
      && i < |items| && items[i].source == order[0]
      && multiset(SourcesOf(Without(items, i))) == multiset(order[1..])
      && Rearrange(items, order) == [items[i]] + Rearrange(Without(items, i), order[1..])
  {
    RestStillMatches(items, order);
    hide SourcesOf, Without, Position;
  }

  // Putting the first item of a source in front of a stable rest is stable.
  lemma StableStep(items: seq<SceneItem>, i: nat, order: seq<SourceId>, rest: seq<SceneItem>)
    requires i < |items| && i == Position(items, items[i].source)
    requires IsStable(Without(items, i), order, rest)
    ensures IsStable(items, [items[i].source] + order, [items[i]] + rest)
  {
    SourcesCons(items[i], rest);
    hide OfSource, Position, Without, SourcesOf;
    forall source ensures OfSource([items[i]] + rest, source) == OfSource(items, source) {
      OfSourceWithout(items, i, source);
      OfSourceCons(items[i], rest, source);
    }
  }

  lemma SourcesCons(item: SceneItem, rest: seq<SceneItem>)
    ensures SourcesOf([item] + rest) == [item.source] + SourcesOf(rest)
  {
  }

  lemma OfSourceCons(item: SceneItem, rest: seq<SceneItem>, source: SourceId)
    ensures OfSource([item] + rest, source) ==
      if item.source == source then [item] + OfSource(rest, source) else OfSource(rest, source)
  {
    assert ([item] + rest)[1..] == rest;
  }

  lemma NothingToRearrange(items: seq<SceneItem>, order: seq<SourceId>)
    requires multiset(SourcesOf(items)) == multiset(order) && order == []
    ensures items == [] && Rearrange(items, order) == [] && IsStable(items, order, Rearrange(items, order))
  {
    assert |items| == |SourcesOf(items)| == |multiset(SourcesOf(items))| == 0;
  }

  lemma SameMultiset(items: seq<SceneItem>, i: nat, rest: seq<SceneItem>)
    requires i < |items| && multiset(rest) == multiset(Without(items, i))
    ensures multiset([items[i]] + rest) == multiset(items)
  {
    hide SourcesOf;
    SourcesWithout(items, i);
    assert items[i] in multiset(items);
  }

  lemma {:induction false} RearrangeIsStable(items: seq<SceneItem>, order: seq<SourceId>)
    requires multiset(SourcesOf(items)) == multiset(order)
    ensures IsStable(items, order, Rearrange(items, order))
    ensures multiset(Rearrange(items, order)) == multiset(items)
    decreases order
  {
    hide *;
    if order == [] {
      NothingToRearrange(items, order);
    } else {
      var i := Position(items, order[0]);
      RearrangeStep(items, order);
      var rest := Rearrange(Without(items, i), order[1..]);
      RearrangeIsStable(Without(items, i), order[1..]);
      StableStep(items, i, order[1..], rest);
      SameMultiset(items, i, rest);
      assert order == [order[0]] + order[1..];
    }
  }

  // Stability and the requested order leave no freedom.
  lemma {:induction false} StableIsUnique(a: seq<SceneItem>, b: seq<SceneItem>)
    requires SourcesOf(a) == SourcesOf(b)
    requires forall source :: OfSource(a, source) == OfSource(b, source)
    ensures a == b
  {
    if a != [] {
      var source := a[0].source;
      assert SourcesOf(a)[0] == SourcesOf(b)[0];
      OfSourceHead(a, source);
      OfSourceHead(b, source);
      assert OfSource(a, source) == OfSource(b, source);
      assert OfSource(a, source)[0] == a[0] && OfSource(b, source)[0] == b[0];
      assert SourcesOf(a[1..]) == SourcesOf(a)[1..] && SourcesOf(b[1..]) == SourcesOf(b)[1..];
      hide OfSource;
      forall other ensures OfSource(a[1..], other) == OfSource(b[1..], other) {
        OfSourceHead(a, other);
        OfSourceHead(b, other);
        assert OfSource(a, other) == OfSource(b, other);
        assert other == source ==> OfSource(a, other)[1..] == OfSource(a[1..], other) && OfSource(b, other)[1..] == OfSource(b[1..], other);
      }
      StableIsUnique(a[1..], b[1..]);
      assert a == [a[0]] + a[1..] && b == [b[0]] + b[1..];
    }
  }

  // Of two reorders only the last one matters.
  lemma LastReorderWins(items: seq<SceneItem>, first: seq<SourceId>, second: seq<SourceId>)
    requires multiset(SourcesOf(items)) == multiset(first) == multiset(second)
    ensures multiset(SourcesOf(Rearrange(items, first))) == multiset(second)
    ensures Rearrange(Rearrange(items, first), second) == Rearrange(items, second)
  {
    RearrangeIsStable(items, first);
    RearrangeIsStable(items, second);
    RearrangeIsStable(Rearrange(items, first), second);
    StableIsUnique(Rearrange(Rearrange(items, first), second), Rearrange(items, second));
  }

  // Requesting the current order changes nothing.
  lemma SameOrderIsIdentity(items: seq<SceneItem>)
    ensures Rearrange(items, SourcesOf(items)) == items
  {
    RearrangeIsStable(items, SourcesOf(items));
    StableIsUnique(Rearrange(items, SourcesOf(items)), items);
  }
}
