// The length-prefixed diagnostics bundle as bytes (crates/obs-rs-diagnostics/src/bundle.rs).
module BundleFormat {
  import opened Numbers
  import opened Results
  import opened SortedMaps
  import opened LittleEndian

  const DIAGNOSTIC_MAGIC: seq<u8> := [79, 66, 83, 82, 68, 71, 48, 49]
  const HEADER_BYTES := 12
  const MAX_SECTIONS := 128
  const MAX_SECTION_NAME_BYTES := 64
  const MAX_SECTION_BYTES := 0x10_0000
  const MAX_BUNDLE_BYTES := 0x40_0000

  datatype DiagnosticError =
    | InvalidSectionName
    | InvalidEncodedName
    | SectionTooLarge(bytes: nat)
    | BundleTooLarge(bytes: nat)
    | DuplicateSection(name: string)
    | InvalidHeader
    | Truncated
    | TrailingBytes

  type Section = Entry<seq<u8>>

  predicate IsNameCharacter(c: char) {
    'a' <= c <= 'z' || 'A' <= c <= 'Z' || '0' <= c <= '9' || c == '.' || c == '_' || c == '-'
  }

  function NameByte(c: char): u8
    requires IsNameCharacter(c)
  {
    c as int
  }

  predicate IsName(name: string) {
    0 < |name| <= MAX_SECTION_NAME_BYTES && forall i :: 0 <= i < |name| ==> IsNameCharacter(name[i])
  }

  predicate IsSection(s: Section) {
    IsName(s.key) && |s.value| <= MAX_SECTION_BYTES
  }

  function NameBytes(name: string): seq<u8>
    requires IsName(name)
  {
    seq<u8>(|name|, i requires 0 <= i < |name| => NameByte(name[i]))
  }

  // `from_utf8` followed by the name policy: both failures report the same error.
  function NameFromBytes(bytes: seq<u8>): Option<string> {
    if exists b :: b in bytes && b >= 128 then None
    else
      var name := seq(|bytes|, i requires 0 <= i < |bytes| => bytes[i] as char);
      if IsName(name) then Some(name) else None
  }

  lemma NameRoundTrip(name: string)
    requires IsName(name)
    ensures NameFromBytes(NameBytes(name)) == Some(name)
  {
    var bytes := NameBytes(name);
    assert forall i :: 0 <= i < |bytes| ==> bytes[i] == NameByte(name[i]);
    assert seq(|bytes|, i requires 0 <= i < |bytes| => bytes[i] as char) == name;
  }

  lemma NameBytesRoundTrip(bytes: seq<u8>)
    requires NameFromBytes(bytes).Some?
    ensures IsName(NameFromBytes(bytes).value) && NameBytes(NameFromBytes(bytes).value) == bytes
  {
  }

  // ---- Encoding ----------------------------------------------------------------

  function EncodeSection(s: Section): (bytes: seq<u8>)
    requires IsSection(s)
    ensures |bytes| == 10 + |s.key| + |s.value|
  {
    ToLE(|s.key|, 2) + ToLE(|s.value|, 8) + NameBytes(s.key) + s.value
  }

  ghost predicate AreSections(sections: seq<Section>) {
    forall s :: s in sections ==> IsSection(s)
  }

  function EncodeSections(sections: seq<Section>): seq<u8>
    requires AreSections(sections)
  {
    if sections == [] then [] else EncodeSection(sections[0]) + EncodeSections(sections[1..])
  }

  function Encoded(sections: seq<Section>): seq<u8>
    requires AreSections(sections)
  {
    DIAGNOSTIC_MAGIC + ToLE(|sections|, 4) + EncodeSections(sections)
  }

  // The encoded size, by walking every section.
  function EncodedSize(sections: seq<Section>): nat {
    if sections == [] then HEADER_BYTES else 10 + |sections[0].key| + |sections[0].value| + EncodedSize(sections[1..])
  }

  lemma {:induction false} SizeIsLength(sections: seq<Section>)
    requires AreSections(sections)
    ensures |Encoded(sections)| == EncodedSize(sections)
  {
    if sections != [] {
      SizeIsLength(sections[1..]);
    }
  }

  lemma {:induction false} SizeAppend(a: seq<Section>, b: seq<Section>)
    ensures EncodedSize(a + b) == EncodedSize(a) + EncodedSize(b) - HEADER_BYTES
  {
    if a == [] {
      assert a + b == b;
    } else {
      assert (a + b)[1..] == a[1..] + b;
      SizeAppend(a[1..], b);
    }
  }

  // Inserting a new name adds exactly one section's bytes, wherever it lands.
  lemma {:induction false} PutNew(sections: seq<Section>, name: string, payload: seq<u8>)
    requires Find(sections, name).None?
    ensures EncodedSize(Put(sections, name, payload)) == EncodedSize(sections) + 10 + |name| + |payload|
    ensures |Put(sections, name, payload)| == |sections| + 1
    ensures multiset(Put(sections, name, payload)) == multiset(sections) + multiset{Entry(name, payload)}
  {
    if sections != [] {
      if Less(name, sections[0].key) {
        assert ([Entry(name, payload)] + sections)[1..] == sections;
      } else {
        PutNew(sections[1..], name, payload);
        assert ([sections[0]] + Put(sections[1..], name, payload))[1..] == Put(sections[1..], name, payload);
        assert sections == [sections[0]] + sections[1..];
      }
    }
  }

  // ---- The bundle and its insertion ----------------------------------------------

  ghost predicate IsBundle(sections: seq<Section>) {
    && Sorted(sections) && AreSections(sections)
    && |sections| <= MAX_SECTIONS
    && EncodedSize(sections) <= MAX_BUNDLE_BYTES
  }

  // None when the section can be added; the checks are in the source's order.
  function InsertProblem(sections: seq<Section>, name: string, payload: seq<u8>): Option<DiagnosticError> {
    if !IsName(name) then Some(InvalidSectionName)
    else if |payload| > MAX_SECTION_BYTES then Some(SectionTooLarge(|payload|))
    else if Find(sections, name).Some? then Some(DuplicateSection(name))
    else if |sections| + 1 > MAX_SECTIONS then Some(BundleTooLarge(|sections| + 1))
    else if EncodedSize(sections) + 10 + |name| + |payload| > MAX_BUNDLE_BYTES then
      Some(BundleTooLarge(EncodedSize(sections) + 10 + |name| + |payload|))
    else None
  }

  lemma InsertKeepsBundle(sections: seq<Section>, name: string, payload: seq<u8>)
    requires IsBundle(sections) && InsertProblem(sections, name, payload).None?
    ensures IsBundle(Put(sections, name, payload))
  {
    PutSorted(sections, name, payload);
    PutNew(sections, name, payload);
  }

  // ---- Decoding --------------------------------------------------------------------

  // One section at `offset`: the section and the offset after it.
  function DecodeSection(input: seq<u8>, offset: nat): Result<(Section, nat), DiagnosticError> {
    if offset + 2 > |input| then Err(Truncated)
    else
      var nameLength := FieldAt(input, offset, 2);
      if nameLength == 0 || nameLength > MAX_SECTION_NAME_BYTES then Err(InvalidEncodedName)
      else if offset + 10 > |input| then Err(Truncated)
      else
        var payloadLength := FieldAt(input, offset + 2, 8);
        if payloadLength > MAX_SECTION_BYTES then Err(SectionTooLarge(payloadLength))
        else if offset + 10 + nameLength > |input| then Err(Truncated)
        else match NameFromBytes(input[offset + 10..offset + 10 + nameLength])
          case None => Err(InvalidEncodedName)
          case Some(name) =>
            var start := offset + 10 + nameLength;
            if start + payloadLength > |input| then Err(Truncated)
            else Ok((Entry(name, input[start..start + payloadLength]), start + payloadLength))
  }

  // `count` sections from `offset`, inserted one by one.
  function DecodeSections(input: seq<u8>, offset: nat, count: nat, sections: seq<Section>): Result<(seq<Section>, nat), DiagnosticError>
    decreases count
  {
    if count == 0 then Ok((sections, offset))
    else match DecodeSection(input, offset)
      case Err(error) => Err(error)
      case Ok((section, next)) =>
        match InsertProblem(sections, section.key, section.value)
        case Some(error) => Err(error)
        case None => DecodeSections(input, next, count - 1, Put(sections, section.key, section.value))
  }

  function Decoded(input: seq<u8>): Result<seq<Section>, DiagnosticError> {
    if |input| > MAX_BUNDLE_BYTES then Err(BundleTooLarge(|input|))
    else if |input| < 8 then Err(Truncated)
    else if input[..8] != DIAGNOSTIC_MAGIC then Err(InvalidHeader)
    else if |input| < 12 then Err(Truncated)
    else if FieldAt(input, 8, 4) > MAX_SECTIONS then Err(BundleTooLarge(FieldAt(input, 8, 4)))
    else match DecodeSections(input, 12, FieldAt(input, 8, 4), [])
      case Err(error) => Err(error)
      case Ok((sections, end)) => if end != |input| then Err(TrailingBytes) else Ok(sections)
  }

  // ---- decode(encode(b)) == b --------------------------------------------------------

  lemma SectionRoundTrip(before: seq<u8>, s: Section, after: seq<u8>)
    requires IsSection(s)
    ensures DecodeSection(before + EncodeSection(s) + after, |before|) == Ok((s, |before| + |EncodeSection(s)|))
  {
    Widths();
    NameLength(s.key);
    hide Pow256, ToLE, FromLE, IsName, NameBytes, FieldAt, DecodeSection;
    var name, key, value := NameBytes(s.key), ToLE(|s.key|, 2), ToLE(|s.value|, 8);
    var input := before + EncodeSection(s) + after;
    FieldRoundTrip(before, |s.key|, 2, value + name + s.value + after);
    FieldRoundTrip(before + key, |s.value|, 8, name + s.value + after);
    Layout(before, key, value, name, s.value, after);
    DecodeFromParts(input, |before|, s);
  }

  // Where the four parts of a section sit inside the input.
  lemma Layout(before: seq<u8>, a: seq<u8>, b: seq<u8>, c: seq<u8>, d: seq<u8>, after: seq<u8>)
    ensures var input := before + (a + b + c + d) + after;
      var start := |before| + |a| + |b|;
      && input == before + a + (b + c + d + after)
      && input == (before + a) + b + (c + d + after)
      && input[start..start + |c|] == c
      && input[start + |c|..start + |c| + |d|] == d
  {
    var input := before + (a + b + c + d) + after;
    assert input == (before + a + b) + c + (d + after);
    assert input == (before + a + b + c) + d + after;
  }

  // The fields of a section in place are enough for it to be decoded.
  lemma DecodeFromParts(input: seq<u8>, offset: nat, s: Section)
    requires IsSection(s) && offset + 10 + |s.key| + |s.value| <= |input|
    requires FieldAt(input, offset, 2) == |s.key| && FieldAt(input, offset + 2, 8) == |s.value|
    requires input[offset + 10..offset + 10 + |s.key|] == NameBytes(s.key)
    requires input[offset + 10 + |s.key|..offset + 10 + |s.key| + |s.value|] == s.value
    ensures DecodeSection(input, offset) == Ok((s, offset + 10 + |s.key| + |s.value|))
  {
    NameRoundTrip(s.key);
    NameLength(s.key);
    hide FieldAt, NameBytes, NameFromBytes;
  }

  lemma NameLength(name: string)
    requires IsName(name)
    ensures |NameBytes(name)| == |name| <= MAX_SECTION_NAME_BYTES && name != []
  {
  }

  lemma {:induction false} SectionsRoundTrip(before: seq<u8>, done: seq<Section>, rest: seq<Section>, after: seq<u8>)
    requires IsBundle(done + rest) && AreSections(rest)
    ensures DecodeSections(before + EncodeSections(rest) + after, |before|, |rest|, done)
         == Ok((done + rest, |before| + |EncodeSections(rest)|))
    decreases rest
  {
    hide DecodeSection, EncodeSection, Less, IsSection, EncodedSize, Put, InsertProblem;
    if rest == [] {
      assert done + rest == done;
    } else {
      var s := rest[0];
      assert (done + rest)[|done|] == s && s in done + rest;
      var input := before + EncodeSections(rest) + after;
      assert input == before + EncodeSection(s) + (EncodeSections(rest[1..]) + after);
      SectionRoundTrip(before, s, EncodeSections(rest[1..]) + after);
      AppendNext(done, rest);
      var before' := before + EncodeSection(s);
      assert done + rest == (done + [s]) + rest[1..];
      SectionsRoundTrip(before', done + [s], rest[1..], after);
      assert input == before' + EncodeSections(rest[1..]) + after;
    }
  }

  // In name order, every section is accepted and lands at the end.
  lemma AppendNext(done: seq<Section>, rest: seq<Section>)
    requires IsBundle(done + rest) && rest != []
    ensures InsertProblem(done, rest[0].key, rest[0].value).None?
    ensures Put(done, rest[0].key, rest[0].value) == done + [rest[0]]
  {
    var s, all := rest[0], done + rest;
    assert all[|done|] == s && s in all && IsSection(s);
    forall o | o in done ensures Less(o.key, s.key) {
      var i :| 0 <= i < |done| && done[i] == o;
      assert all[i] == o;
    }
    PutLast(done, s.key, s.value);
    SizeAppend(done, rest);
    assert EncodedSize(rest) == 10 + |s.key| + |s.value| + EncodedSize(rest[1..]);
    SizeAtLeastHeader(rest[1..]);
  }

  lemma {:induction false} SizeAtLeastHeader(sections: seq<Section>)
    ensures EncodedSize(sections) >= HEADER_BYTES
  {
    if sections != [] { SizeAtLeastHeader(sections[1..]); }
  }

  // The parts of an encoding, as the decoder meets them.
  lemma HeaderOf(sections: seq<Section>)
    requires AreSections(sections) && |sections| <= MAX_SECTIONS
    ensures var header := DIAGNOSTIC_MAGIC + ToLE(|sections|, 4);
      && |header| == HEADER_BYTES
      && Encoded(sections) == header + EncodeSections(sections) + []
      && Encoded(sections)[..8] == DIAGNOSTIC_MAGIC
      && FieldAt(Encoded(sections), 8, 4) == |sections| <= MAX_SECTIONS
  {
    Widths();
    hide EncodeSections, ToLE, Pow256, EncodedSize, IsSection, FieldAt;
    FieldRoundTrip(DIAGNOSTIC_MAGIC, |sections|, 4, EncodeSections(sections));
  }

  lemma RoundTrip(sections: seq<Section>)
    requires IsBundle(sections)
    ensures Decoded(Encoded(sections)) == Ok(sections)
  {
    hide EncodeSections, DecodeSections, Encoded, ToLE, Pow256, FieldAt, IsSection;
    var header := DIAGNOSTIC_MAGIC + ToLE(|sections|, 4);
    HeaderOf(sections);
    SizeIsLength(sections);
    assert [] + sections == sections;
    SectionsRoundTrip(header, [], sections, []);
    assert |header + EncodeSections(sections) + []| == HEADER_BYTES + |EncodeSections(sections)|;
  }

  // ---- Accepted inputs -----------------------------------------------------------------

  lemma DecodedParts(input: seq<u8>, offset: nat)
    requires DecodeSection(input, offset).Ok?
    ensures var (s, next) := DecodeSection(input, offset).value;
      && IsSection(s) && next == offset + 10 + |s.key| + |s.value| <= |input|
      && FieldAt(input, offset, 2) == |s.key| && FieldAt(input, offset + 2, 8) == |s.value|
      && input[offset + 10..offset + 10 + |s.key|] == NameBytes(s.key)
      && input[offset + 10 + |s.key|..next] == s.value
  {
    hide FieldAt, NameBytes, NameFromBytes;
    var n := FieldAt(input, offset, 2);
    NameBytesRoundTrip(input[offset + 10..offset + 10 + n]);
    NameLength(DecodeSection(input, offset).value.0.key);
  }

  // An accepted section is exactly the encoding of what it decodes to.
  lemma SectionInverts(input: seq<u8>, offset: nat)
    requires DecodeSection(input, offset).Ok?
    ensures var (s, next) := DecodeSection(input, offset).value;
      IsSection(s) && offset < next <= |input| && input[offset..next] == EncodeSection(s)
  {
    DecodedParts(input, offset);
    hide DecodeSection, ToLE, FromLE, NameFromBytes, NameBytes, IsName;
    var (s, next) := DecodeSection(input, offset).value;
    ToLEFromLE(input[offset..offset + 2]);
    ToLEFromLE(input[offset + 2..offset + 10]);
    JoinSlices(input, offset, offset + 2, offset + 10);
    JoinSlices(input, offset, offset + 10, offset + 10 + |s.key|);
    JoinSlices(input, offset, offset + 10 + |s.key|, next);
  }

  // Inserting sections one by one.
  function PutAll(sections: seq<Section>, more: seq<Section>): seq<Section>
    decreases more
  {
    if more == [] then sections else PutAll(Put(sections, more[0].key, more[0].value), more[1..])
  }

  // What decoding `count` sections from `offset` says about the input and the result.
  ghost predicate Inverts(input: seq<u8>, offset: nat, count: nat, sections: seq<Section>, found: seq<Section>, result: seq<Section>, end: nat) {
    && |found| == count && AreSections(found)
    && offset <= end <= |input| && input[offset..end] == EncodeSections(found)
    && IsBundle(result) && result == PutAll(sections, found)
    && multiset(result) == multiset(sections) + multiset(found)
    && |result| == |sections| + count
    && EncodedSize(result) == EncodedSize(sections) + (end - offset)
  }

  lemma {:induction false} SectionsInvert(input: seq<u8>, offset: nat, count: nat, sections: seq<Section>) returns (found: seq<Section>)
    requires offset <= |input| && IsBundle(sections) && DecodeSections(input, offset, count, sections).Ok?
    ensures var (result, end) := DecodeSections(input, offset, count, sections).value;
      Inverts(input, offset, count, sections, found, result, end)
    decreases count
  {
    hide DecodeSection, Inverts, Put, EncodedSize;
    if count == 0 {
      found := [];
      InvertsNothing(input, offset, sections);
    } else {
      var (s, next) := DecodeSection(input, offset).value;
      SectionInverts(input, offset);
      InsertKeepsBundle(sections, s.key, s.value);
      assert |input[offset..next]| == next - offset;
      hide IsBundle;
      var rest := SectionsInvert(input, next, count - 1, Put(sections, s.key, s.value));
      found := [s] + rest;
      var (result, end) := DecodeSections(input, offset, count, sections).value;
      InvertsOneMore(input, offset, next, count, sections, s, rest, result, end);
    }
  }

  lemma InvertsNothing(input: seq<u8>, offset: nat, sections: seq<Section>)
    requires offset <= |input| && IsBundle(sections)
    ensures Inverts(input, offset, 0, sections, [], sections, offset)
  {
  }

  lemma InvertsOneMore(input: seq<u8>, offset: nat, next: nat, count: pos, sections: seq<Section>, s: Section,
                       rest: seq<Section>, result: seq<Section>, end: nat)
    requires IsSection(s) && next == offset + 10 + |s.key| + |s.value| <= |input|
    requires input[offset..next] == EncodeSection(s)
    requires Find(sections, s.key).None?
    requires Inverts(input, next, count - 1, Put(sections, s.key, s.value), rest, result, end)
    ensures Inverts(input, offset, count, sections, [s] + rest, result, end)
  {
    hide EncodedSize, Put, Less, IsSection, EncodeSection, EncodeSections, PutAll, IsBundle, Find, AreSections;
    PutNew(sections, s.key, s.value);
    FoundOneMore(sections, s, rest);
    JoinSlices(input, offset, next, end);
    assert multiset(sections) + multiset{s} + multiset(rest) == multiset(sections) + (multiset{s} + multiset(rest));
  }

  lemma JoinSlices<T>(s: seq<T>, a: nat, b: nat, c: nat)
    requires a <= b <= c <= |s|
    ensures s[a..c] == s[a..b] + s[b..c]
  {
  }

  lemma FoundOneMore(sections: seq<Section>, s: Section, rest: seq<Section>)
    requires IsSection(s) && AreSections(rest)
    ensures AreSections([s] + rest)
    ensures EncodeSections([s] + rest) == EncodeSection(s) + EncodeSections(rest)
    ensures PutAll(sections, [s] + rest) == PutAll(Put(sections, s.key, s.value), rest)
    ensures multiset([s] + rest) == multiset{s} + multiset(rest)
  {
    assert ([s] + rest)[1..] == rest;
  }

  // Every accepted input is the header and some ordering of the sections it decodes to, and
  // re-encoding gives the name-ordered arrangement of the same bytes.
  lemma AcceptedInputs(input: seq<u8>) returns (found: seq<Section>)
    requires Decoded(input).Ok?
    ensures var sections := Decoded(input).value;
      && IsBundle(sections) && AreSections(found)
      && input == Encoded(found)
      && multiset(found) == multiset(sections)
      && |Encoded(sections)| == |input|
  {
    hide DecodeSections, EncodeSections, EncodeSection, Encoded, IsSection, PutAll;
    var count := FieldAt(input, 8, 4);
    assert IsBundle([]);
    found := SectionsInvert(input, 12, count, []);
    var sections := Decoded(input).value;
    assert multiset([]) + multiset(found) == multiset(found);
    SizeIsLength(sections);
    HeaderThenSections(input, found);
  }

  lemma ThreeParts(input: seq<u8>, i: nat, j: nat)
    requires i <= j <= |input|
    ensures input == input[..i] + input[i..j] + input[j..]
  {
  }

  lemma HeaderThenSections(input: seq<u8>, found: seq<Section>)
    requires |input| >= 12 && input[..8] == DIAGNOSTIC_MAGIC && FieldAt(input, 8, 4) == |found|
    requires AreSections(found) && input[12..] == EncodeSections(found)
    ensures input == Encoded(found)
  {
    hide EncodeSections, ToLE, FromLE, IsSection;
    ThreeParts(input, 8, 12);
    ToLEFromLE(input[8..12]);
    assert |input[8..12]| == 4;
  }

  // ---- No accepted input is a proper prefix of another -----------------------------------

  lemma SectionIgnoresWhatFollows(x: seq<u8>, y: seq<u8>, offset: nat)
    requires x <= y && DecodeSection(x, offset).Ok?
    ensures DecodeSection(y, offset) == DecodeSection(x, offset)
  {
    assert forall i, j :: 0 <= i <= j <= |x| ==> x[i..j] == y[i..j];
  }

  lemma {:induction false} SectionsIgnoreWhatFollows(x: seq<u8>, y: seq<u8>, offset: nat, count: nat, sections: seq<Section>)
    requires x <= y && DecodeSections(x, offset, count, sections).Ok?
    ensures DecodeSections(y, offset, count, sections) == DecodeSections(x, offset, count, sections)
    decreases count
  {
    if count > 0 {
      SectionIgnoresWhatFollows(x, y, offset);
      hide DecodeSection, InsertProblem, Put;
      var (s, next) := DecodeSection(x, offset).value;
      SectionsIgnoreWhatFollows(x, y, next, count - 1, Put(sections, s.key, s.value));
    }
  }

  // Hence every proper prefix and every proper extension of an encoding is rejected.
  lemma PrefixFree(x: seq<u8>, y: seq<u8>)
    requires x <= y && Decoded(x).Ok? && Decoded(y).Ok?
    ensures x == y
  {
    assert x[8..12] == y[8..12];
    SectionsIgnoreWhatFollows(x, y, 12, FieldAt(x, 8, 4), []);
  }
}
