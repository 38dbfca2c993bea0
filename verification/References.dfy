// The totals that the runtime keeps incrementally: references per source, and filters
// (crates/obs-rs-core/src/runtime.rs).
module References {
  import opened RenderDelays
  import opened SceneOrder
  import opened Compositor
  import opened SceneGraph

  // How often each source occurs over all scenes.
  ghost function SceneReferences(scenes: map<string, SceneView>): multiset<SourceId>
    decreases |scenes|
  {
    if scenes == map[] then multiset{}
    else
      var name :| name in scenes;
      multiset(SourcesOf(scenes[name].items)) + SceneReferences(scenes - {name})
  }

  lemma {:induction false} SplitScene(scenes: map<string, SceneView>, name: string)
    requires name in scenes
    ensures SceneReferences(scenes) == multiset(SourcesOf(scenes[name].items)) + SceneReferences(scenes - {name})
    decreases |scenes|
  {
    hide SourcesOf;
    var picked :| picked in scenes
      && SceneReferences(scenes) == multiset(SourcesOf(scenes[picked].items)) + SceneReferences(scenes - {picked});
    if picked != name {
      SplitScene(scenes - {picked}, name);
      SplitScene(scenes - {name}, picked);
      assert scenes - {picked} - {name} == scenes - {name} - {picked};
    }
  }

  // Replacing (or adding) a scene exchanges its contribution.
  lemma ReplaceScene(scenes: map<string, SceneView>, name: string, scene: SceneView)
    ensures SceneReferences(scenes[name := scene]) == multiset(SourcesOf(scene.items)) + SceneReferences(scenes - {name})
    ensures name in scenes ==>
      SceneReferences(scenes) == multiset(SourcesOf(scenes[name].items)) + SceneReferences(scenes - {name})
    ensures name !in scenes ==> scenes - {name} == scenes
  {
    hide SourcesOf;
    SplitScene(scenes[name := scene], name);
    assert scenes[name := scene] - {name} == scenes - {name};
    if name in scenes {
      SplitScene(scenes, name);
    }
  }

  // The counter answers the question that a scan of every scene would answer.
  lemma {:induction false} ReferencedMeansInUse(scenes: map<string, SceneView>, source: SourceId)
    ensures source in SceneReferences(scenes) <==> exists name :: name in scenes && Mentions(scenes[name].items, source)
    decreases |scenes|
  {
    if scenes != map[] {
      var picked :| picked in scenes
        && SceneReferences(scenes) == multiset(SourcesOf(scenes[picked].items)) + SceneReferences(scenes - {picked});
      ReferencedMeansInUse(scenes - {picked}, source);
      assert source in SourcesOf(scenes[picked].items) <==> Mentions(scenes[picked].items, source);
      if exists name :: name in scenes && Mentions(scenes[name].items, source) {
        var name :| name in scenes && Mentions(scenes[name].items, source);
        assert name == picked || name in scenes - {picked};
      }
    }
  }

  // A hash map of counts without zero entries, for a multiset.
  ghost predicate CountsMatch(counts: map<SourceId, nat>, all: multiset<SourceId>) {
    && (forall s :: s in counts <==> s in all)
    && (forall s :: s in counts ==> counts[s] == all[s])
  }

  function Increment(counts: map<SourceId, nat>, source: SourceId): map<SourceId, nat> {
    counts[source := (if source in counts then counts[source] else 0) + 1]
  }

  lemma IncrementMatches(counts: map<SourceId, nat>, all: multiset<SourceId>, source: SourceId)
    requires CountsMatch(counts, all)
    ensures CountsMatch(Increment(counts, source), all + multiset{source})
  {
  }

  // Equal count maps mean equal multisets.
  lemma CountsDecide(a: map<SourceId, nat>, x: multiset<SourceId>, b: map<SourceId, nat>, y: multiset<SourceId>)
    requires CountsMatch(a, x) && CountsMatch(b, y)
    ensures a == b <==> x == y
  {
    if a == b {
      forall s ensures x[s] == y[s] {
        assert s in a <==> s in x;
        assert s in b <==> s in y;
      }
      assert x == y;
    }
    if x == y {
      assert a == b;
    }
  }

  // The filters of all sources.
  ghost function FilterTotal(sources: Sources): nat
    decreases |sources|
  {
    if sources == map[] then 0
    else
      var s :| s in sources;
      |sources[s].filters| + FilterTotal(sources - {s})
  }

  lemma {:induction false} SplitSource(sources: Sources, source: SourceId)
    requires source in sources
    ensures FilterTotal(sources) == |sources[source].filters| + FilterTotal(sources - {source})
    decreases |sources|
  {
    var picked :| picked in sources
      && FilterTotal(sources) == |sources[picked].filters| + FilterTotal(sources - {picked});
    if picked != source {
      SplitSource(sources - {picked}, source);
      SplitSource(sources - {source}, picked);
      assert sources - {picked} - {source} == sources - {source} - {picked};
    }
  }

  lemma ReplaceSource(sources: Sources, source: SourceId, instance: SourceInstance)
    ensures FilterTotal(sources[source := instance]) == |instance.filters| + FilterTotal(sources - {source})
    ensures source in sources ==> FilterTotal(sources) == |sources[source].filters| + FilterTotal(sources - {source})
    ensures source !in sources ==> sources - {source} == sources
  {
    SplitSource(sources[source := instance], source);
    assert sources[source := instance] - {source} == sources - {source};
    if source in sources {
      SplitSource(sources, source);
    }
  }

  // Rendering changes no filter chain.
  lemma {:induction false} SameFiltersSameTotal(a: Sources, b: Sources)
    requires a.Keys == b.Keys && forall s :: s in a ==> a[s].filters == b[s].filters
    ensures FilterTotal(a) == FilterTotal(b)
    decreases |a|
  {
    hide FilterTotal, IsHistory;
    if a != map[] {
      var s :| s in a;
      SplitSource(a, s);
      SplitSource(b, s);
      SameFiltersSameTotal(a - {s}, b - {s});
    } else {
      assert b == map[];
      assert FilterTotal(a) == FilterTotal(b);
    }
  }
}
