// Exactly which bytes are a diagnostics bundle, and how the others fail
// (crates/obs-rs-diagnostics/src/bundle.rs).
module BundleInputs {
  import opened Numbers
  import opened Results
  import opened SortedMaps
  import opened LittleEndian
  import opened BundleFormat

  ghost predicate Distinct(found: seq<Section>) {
    forall i, j :: 0 <= i < j < |found| ==> found[i].key != found[j].key
  }

  // Sections that make a bundle in whatever order: distinct names, and within both bounds.
  ghost predicate Acceptable(found: seq<Section>) {
    AreSections(found) && Distinct(found) && |found| <= 128 && EncodedSize(found) <= 4_194_304
  }

  // Sections that can join the ones already there.
  ghost predicate Fit(done: seq<Section>, rest: seq<Section>) {
    && IsBundle(done) && AreSections(rest) && Distinct(rest)
    && (forall s :: s in rest ==> Find(done, s.key).None?)
    && |done| + |rest| <= MAX_SECTIONS && EncodedSize(done) + EncodedSize(rest) - HEADER_BYTES <= MAX_BUNDLE_BYTES
  }

  lemma FirstJoins(done: seq<Section>, rest: seq<Section>)
    requires Fit(done, rest) && rest != []
    ensures IsSection(rest[0]) && InsertProblem(done, rest[0].key, rest[0].value).None?
    ensures Fit(Put(done, rest[0].key, rest[0].value), rest[1..])
  {
    var s := rest[0];
    assert s in rest && IsSection(s);
    SizeAtLeastHeader(rest[1..]);
    PutNew(done, s.key, s.value);
    InsertKeepsBundle(done, s.key, s.value);
    forall o | o in rest[1..] ensures Find(Put(done, s.key, s.value), o.key).None? {
      var i :| 0 <= i < |rest[1..]| && rest[1..][i] == o;
      assert rest[i + 1] == o && rest[0].key != rest[i + 1].key;
      PutFind(done, s.key, s.value, o.key);
    }
    hide Put, Find, IsSection, Less;
  }

  // `part` stands in `input` at `offset`.
  predicate StandsAt(input: seq<u8>, offset: nat, part: seq<u8>) {
    offset + |part| <= |input| && input[offset..offset + |part|] == part
  }

  lemma StandsInTwo(input: seq<u8>, offset: nat, a: seq<u8>, b: seq<u8>)
    requires StandsAt(input, offset, a + b)
    ensures StandsAt(input, offset, a) && StandsAt(input, offset + |a|, b)
  {
    var both := input[offset..offset + |a| + |b|];
    assert both[..|a|] == a && both[|a|..] == b;
  }

  lemma SectionDecodesAt(input: seq<u8>, offset: nat, s: Section)
    requires IsSection(s) && StandsAt(input, offset, EncodeSection(s))
    ensures DecodeSection(input, offset) == Ok((s, offset + |EncodeSection(s)|))
  {
    hide EncodeSection, DecodeSection, IsSection;
    var end := offset + |EncodeSection(s)|;
    ThreeParts(input, offset, end);
    SectionRoundTrip(input[..offset], s, input[end..]);
  }

  lemma {:induction false} PutAllJoins(done: seq<Section>, rest: seq<Section>)
    requires Fit(done, rest)
    ensures IsBundle(PutAll(done, rest)) && multiset(PutAll(done, rest)) == multiset(done) + multiset(rest)
    decreases rest
  {
    if rest == [] {
      assert multiset(done) + multiset(rest) == multiset(done);
    } else {
      hide IsSection, Put, InsertProblem, EncodedSize, Distinct, IsBundle;
      var s := rest[0];
      FirstJoins(done, rest);
      assert s in rest;
      PutNew(done, s.key, s.value);
      assert rest == [s] + rest[1..];
      hide Fit, Find;
      PutAllJoins(Put(done, s.key, s.value), rest[1..]);
    }
  }

  lemma NothingDecodes(input: seq<u8>, offset: nat, done: seq<Section>)
    ensures DecodeSections(input, offset, 0, done) == Ok((done, offset)) && PutAll(done, []) == done && EncodeSections([]) == []
  {
  }

  lemma OneMoreDecodes(input: seq<u8>, offset: nat, done: seq<Section>, count: nat, s: Section)
    requires IsSection(s) && StandsAt(input, offset, EncodeSection(s)) && InsertProblem(done, s.key, s.value).None?
    ensures DecodeSections(input, offset, count + 1, done)
         == DecodeSections(input, offset + |EncodeSection(s)|, count, Put(done, s.key, s.value))
  {
    hide EncodeSection, DecodeSection, IsSection, Put, InsertProblem, StandsAt;
    SectionDecodesAt(input, offset, s);
  }

  lemma FirstOfRest(done: seq<Section>, rest: seq<Section>)
    requires AreSections(rest) && rest != []
    ensures IsSection(rest[0]) && AreSections(rest[1..])
    ensures EncodeSections(rest) == EncodeSection(rest[0]) + EncodeSections(rest[1..])
    ensures PutAll(done, rest) == PutAll(Put(done, rest[0].key, rest[0].value), rest[1..])
  {
    assert rest[0] in rest;
    hide EncodeSection, Put, IsSection;
  }

  lemma {:induction false} EveryOrderDecodes(input: seq<u8>, offset: nat, done: seq<Section>, rest: seq<Section>)
    requires AreSections(rest) && Fit(done, rest) && StandsAt(input, offset, EncodeSections(rest))
    ensures DecodeSections(input, offset, |rest|, done) == Ok((PutAll(done, rest), offset + |EncodeSections(rest)|))
    decreases rest
  {
    hide EncodeSection, DecodeSections, IsSection, Put, InsertProblem, IsBundle, StandsAt, EncodeSections, PutAll, Fit, AreSections;
    if rest == [] {
      NothingDecodes(input, offset, done);
    } else {
      var s, more := rest[0], rest[1..];
      FirstOfRest(done, rest);
      FirstJoins(done, rest);
      StandsInTwo(input, offset, EncodeSection(s), EncodeSections(more));
      OneMoreDecodes(input, offset, done, |more|, s);
      EveryOrderDecodes(input, offset + |EncodeSection(s)|, Put(done, s.key, s.value), more);
    }
  }

  // Any ordering of distinct sections within the bounds is accepted, and gives the name-ordered
  // bundle of them.
  lemma EveryOrderIsAccepted(found: seq<Section>)
    requires Acceptable(found)
    ensures Decoded(Encoded(found)) == Ok(PutAll([], found))
    ensures IsBundle(PutAll([], found)) && multiset(PutAll([], found)) == multiset(found)
  {
    assert Fit([], found);
    HeaderOf(found);
    SizeIsLength(found);
    hide EncodeSections, DecodeSections, Encoded, ToLE, Pow256, FieldAt, IsSection, Fit;
    var input := Encoded(found);
    assert StandsAt(input, 12, EncodeSections(found)) by {
      var header := DIAGNOSTIC_MAGIC + ToLE(|found|, 4);
      assert header + EncodeSections(found) + [] == header + EncodeSections(found);
    }
    EveryOrderDecodes(input, 12, [], found);
    PutAllJoins([], found);
    assert multiset([]) + multiset(found) == multiset(found);
  }

  lemma TwoAlike(found: seq<Section>, i: nat, j: nat)
    requires i < j < |found| && found[i] == found[j]
    ensures multiset(found)[found[i]] >= 2
  {
    assert found == found[..j] + [found[j]] + found[j + 1..];
    assert found[..j][i] == found[i];
    assert found[i] in multiset(found[..j]);
  }

  lemma SortedHasNoTwoAlike(sections: seq<Section>, s: Section)
    requires Sorted(sections) && s in sections
    ensures multiset(sections)[s] == 1
    ensures forall o :: o in sections && o.key == s.key ==> o == s
  {
    forall i, j | 0 <= i < j < |sections| ensures sections[i].key != sections[j].key {
      LessIrreflexive(sections[i].key);
    }
    var k :| 0 <= k < |sections| && sections[k] == s;
    assert sections == sections[..k] + [s] + sections[k + 1..];
    assert s !in sections[..k] && s !in sections[k + 1..];
    hide Less;
  }

  lemma OrderingIsDistinct(sections: seq<Section>, found: seq<Section>)
    requires Sorted(sections) && multiset(found) == multiset(sections)
    ensures Distinct(found)
  {
    forall i, j | 0 <= i < j < |found| ensures found[i].key != found[j].key {
      assert found[i] in multiset(found) && found[j] in multiset(found);
      assert found[i] in sections && found[j] in sections;
      SortedHasNoTwoAlike(sections, found[i]);
      if found[i].key == found[j].key {
        TwoAlike(found, i, j);
      }
    }
  }

  // The accepted inputs are exactly the encodings of sections with distinct names within the bounds,
  // in any order.
  lemma AcceptedExactly(input: seq<u8>)
    ensures Decoded(input).Ok? <==> exists found :: Acceptable(found) && input == Encoded(found)
  {
    hide DecodeSections, EncodeSections, Decoded, IsSection;
    if Decoded(input).Ok? {
      var found := AcceptedInputs(input);
      var sections := Decoded(input).value;
      OrderingIsDistinct(sections, found);
      SizeIsLength(sections);
      SizeIsLength(found);
      assert |found| == |multiset(found)| == |multiset(sections)| == |sections|;
      assert Acceptable(found);
    }
    if found :| Acceptable(found) && input == Encoded(found) {
      EveryOrderIsAccepted(found);
    }
  }

  // ---- How a damaged input fails -----------------------------------------------------------------

  // Bytes behind a complete bundle are refused as such.
  lemma LongerInputTrails(found: seq<Section>, junk: seq<u8>)
    requires Acceptable(found) && junk != [] && |Encoded(found)| + |junk| <= MAX_BUNDLE_BYTES
    ensures Decoded(Encoded(found) + junk) == Err(TrailingBytes)
  {
    hide DecodeSections, Encoded, EncodeSections, FieldAt, IsSection;
    var whole, longer := Encoded(found), Encoded(found) + junk;
    EveryOrderIsAccepted(found);
    HeaderOf(found);
    assert longer[..8] == whole[..8];
    SameField(whole, longer);
    SectionsIgnoreWhatFollows(whole, longer, 12, |found|, []);
  }

  lemma SameField(whole: seq<u8>, longer: seq<u8>)
    requires 12 <= |whole| && whole <= longer
    ensures FieldAt(longer, 8, 4) == FieldAt(whole, 8, 4)
  {
    assert longer[8..12] == whole[8..12];
  }

  lemma CutSection(input: seq<u8>, offset: nat, s: Section, cut: nat)
    requires DecodeSection(input, offset) == Ok((s, offset + 10 + |s.key| + |s.value|))
    requires offset <= cut < offset + 10 + |s.key| + |s.value|
    ensures cut <= |input| && DecodeSection(input[..cut], offset) == Err(Truncated)
  {
    DecodedParts(input, offset);
    NameLength(s.key);
    NameRoundTrip(s.key);
    var short := input[..cut];
    assert forall i, j :: 0 <= i <= j <= cut ==> short[i..j] == input[i..j];
    hide NameFromBytes, NameBytes, FromLE, IsName;
  }

  lemma {:induction false} CutSections(input: seq<u8>, offset: nat, done: seq<Section>, rest: seq<Section>, cut: nat)
    requires AreSections(rest) && Fit(done, rest) && StandsAt(input, offset, EncodeSections(rest))
    requires offset <= cut < offset + |EncodeSections(rest)|
    ensures cut <= |input| && DecodeSections(input[..cut], offset, |rest|, done) == Err(Truncated)
    decreases rest
  {
    hide EncodeSection, DecodeSection, IsSection, Put, InsertProblem, IsBundle, EncodeSections, PutAll, Fit, AreSections;
    if rest == [] {
      NothingDecodes(input, offset, done);
      assert false;
    } else {
      var s, more := rest[0], rest[1..];
      FirstOfRest(done, rest);
      FirstJoins(done, rest);
      StandsInTwo(input, offset, EncodeSection(s), EncodeSections(more));
      SectionDecodesAt(input, offset, s);
      var next := offset + |EncodeSection(s)|;
      if next <= cut {
        assert input[..cut][offset..next] == input[offset..next];
        OneMoreDecodes(input[..cut], offset, done, |more|, s);
        CutSections(input, next, Put(done, s.key, s.value), more, cut);
      } else {
        CutSection(input, offset, s, cut);
      }
    }
  }

  // Wherever a bundle is cut short, it is refused as truncated.
  lemma ShorterInputIsTruncated(found: seq<Section>, cut: nat)
    requires Acceptable(found) && cut < |Encoded(found)|
    ensures Decoded(Encoded(found)[..cut]) == Err(Truncated)
  {
    assert Fit([], found);
    HeaderOf(found);
    SizeIsLength(found);
    hide DecodeSections, Encoded, EncodeSections, IsSection, Fit, EncodedSize;
    var whole, short := Encoded(found), Encoded(found)[..cut];
    assert cut >= 8 ==> short[..8] == whole[..8];
    if cut >= 12 {
      SameField(short, whole);
      assert StandsAt(whole, 12, EncodeSections(found)) by {
        var header := DIAGNOSTIC_MAGIC + ToLE(|found|, 4);
        assert header + EncodeSections(found) + [] == header + EncodeSections(found);
      }
      CutSections(whole, 12, [], found, cut);
    }
  }
}
