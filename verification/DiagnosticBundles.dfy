// The diagnostics bundle object, its bounded byte cursor and its codec loops
// (crates/obs-rs-diagnostics/src/bundle.rs, crates/obs-rs-diagnostics/src/cursor.rs).
module DiagnosticBundles {
  import opened Numbers
  import opened Results
  import opened SortedMaps
  import opened LittleEndian
  import opened BundleFormat

  class DiagnosticBundle {
    var sections: seq<Section>
    var encodedLen: nat

    // The running length is the length of the encoding.
    ghost predicate Valid()
      reads this
    {
      IsBundle(sections) && encodedLen == |Encoded(sections)|
    }

    constructor ()
      ensures Valid() && sections == []
    {
      sections, encodedLen := [], HEADER_BYTES;
    }

    method InsertBytes(name: string, bytes: seq<u8>) returns (r: Result<(), DiagnosticError>)
      requires Valid()
      modifies this
      ensures Valid()
      ensures match InsertProblem(old(sections), name, bytes)
        case Some(error) => r == Err(error) && sections == old(sections)
        case None => r == Ok(()) && sections == Put(old(sections), name, bytes)
    {
      if !IsName(name) {
        return Err(InvalidSectionName);
      }
      if |bytes| > MAX_SECTION_BYTES {
        return Err(SectionTooLarge(|bytes|));
      }
      if Find(sections, name).Some? {
        return Err(DuplicateSection(name));
      }
      var candidateCount := |sections| + 1;
      if candidateCount > MAX_SECTIONS {
        return Err(BundleTooLarge(candidateCount));
      }
      SizeIsLength(sections);
      var candidate := encodedLen + 10 + |name| + |bytes|;
      if candidate > MAX_BUNDLE_BYTES {
        return Err(BundleTooLarge(candidate));
      }
      InsertKeepsBundle(sections, name, bytes);
      PutNew(sections, name, bytes);
      SizeIsLength(Put(sections, name, bytes));
      sections := Put(sections, name, bytes);
      encodedLen := candidate;
      return Ok(());
    }

    // No error path of the encoder is reachable from a valid bundle.
    method Encode() returns (r: Result<seq<u8>, DiagnosticError>)
      requires Valid()
      ensures r == Ok(Encoded(sections)) && |r.value| == encodedLen
    {
      SizeIsLength(sections);
      if encodedLen > MAX_BUNDLE_BYTES {
        return Err(BundleTooLarge(encodedLen));
      }
      Widths();
      var output := DIAGNOSTIC_MAGIC;
      // Each checked narrowing of the source is a typed assignment: it cannot fail.
      var count: u32 := |sections|;
      output := output + ToLE(count, 4);
      output := AppendSections(output, sections);
      return Ok(output);
    }
  }

  // The section loop of the encoder.
  method AppendSections(header: seq<u8>, sections: seq<Section>) returns (output: seq<u8>)
    requires AreSections(sections)
    ensures output == header + EncodeSections(sections)
  {
    hide EncodeSections, AreSections, IsSection, EncodeSection;
    output := header;
    AllSections(sections);
    for i := 0 to |sections|
      invariant AreSections(sections[i..])
      invariant output + EncodeSections(sections[i..]) == header + EncodeSections(sections)
    {
      NextSection(sections, i);
      ghost var written := output;
      output := AppendSection(output, sections[i]);
      assert output + EncodeSections(sections[i + 1..])
          == written + (EncodeSection(sections[i]) + EncodeSections(sections[i + 1..]));
    }
    assert output + [] == output;
  }

  // The writes of one section; its length fields always fit.
  method AppendSection(output: seq<u8>, s: Section) returns (r: seq<u8>)
    requires IsSection(s)
    ensures r == output + EncodeSection(s)
  {
    hide ToLE, NameBytes;
    var nameLength: u16, payloadLength: u64 := |s.key|, |s.value|;
    r := output + ToLE(nameLength, 2);
    r := r + ToLE(payloadLength, 8);
    r := r + NameBytes(s.key);
    r := r + s.value;
    assert r == output + EncodeSection(s);
  }

  lemma AllSections(sections: seq<Section>)
    requires AreSections(sections)
    ensures sections[0..] == sections
    ensures AreSections(sections[|sections|..]) && EncodeSections(sections[|sections|..]) == []
  {
  }

  lemma NextSection(sections: seq<Section>, i: nat)
    requires i < |sections| && AreSections(sections[i..])
    ensures IsSection(sections[i]) && AreSections(sections[i + 1..])
    ensures EncodeSections(sections[i..]) == EncodeSection(sections[i]) + EncodeSections(sections[i + 1..])
  {
    assert sections[i..][0] == sections[i] && sections[i..][1..] == sections[i + 1..];
  }

  // Bounded reads: a failed read does not move the cursor.
  class Cursor {
    const input: seq<u8>
    var offset: nat

    ghost predicate Valid()
      reads this
    {
      offset <= |input|
    }

    constructor (input: seq<u8>)
      ensures Valid() && this.input == input && offset == 0
    {
      this.input, offset := input, 0;
    }

    method Take(length: nat) returns (r: Result<seq<u8>, DiagnosticError>)
      requires Valid()
      modifies this`offset
      ensures Valid()
      ensures old(offset) + length > |input| ==> r == Err(Truncated) && offset == old(offset)
      ensures old(offset) + length <= |input| ==>
        offset == old(offset) + length && r == Ok(input[old(offset)..offset])
    {
      var end := offset + length;
      if end > |input| {
        return Err(Truncated);
      }
      r := Ok(input[offset..end]);
      offset := end;
    }

    // `u16`, `u32` and `u64` are this method at widths 2, 4 and 8.
    method Field(width: nat) returns (r: Result<nat, DiagnosticError>)
      requires Valid()
      modifies this`offset
      ensures Valid()
      ensures old(offset) + width > |input| ==> r == Err(Truncated) && offset == old(offset)
      ensures old(offset) + width <= |input| ==>
        offset == old(offset) + width && r == Ok(FieldAt(input, old(offset), width))
    {
      var bytes := Take(width);
      if bytes.Err? {
        return Err(bytes.error);
      }
      return Ok(FromLE(bytes.value));
    }

    method Section() returns (r: Result<Section, DiagnosticError>)
      requires Valid()
      modifies this`offset
      ensures Valid()
      ensures match DecodeSection(input, old(offset))
        case Err(error) => r == Err(error)
        case Ok((section, next)) => r == Ok(section) && offset == next
    {
      hide FieldAt;
      var nameLength := Field(2);
      if nameLength.Err? {
        return Err(nameLength.error);
      }
      if nameLength.value == 0 || nameLength.value > MAX_SECTION_NAME_BYTES {
        return Err(InvalidEncodedName);
      }
      var payloadLength := Field(8);
      if payloadLength.Err? {
        return Err(payloadLength.error);
      }
      if payloadLength.value > MAX_SECTION_BYTES {
        return Err(SectionTooLarge(payloadLength.value));
      }
      var nameBytes := Take(nameLength.value);
      if nameBytes.Err? {
        return Err(nameBytes.error);
      }
      var name := NameFromBytes(nameBytes.value);
      if name.None? {
        return Err(InvalidEncodedName);
      }
      var payload := Take(payloadLength.value);
      if payload.Err? {
        return Err(payload.error);
      }
      return Ok(Entry(name.value, payload.value));
    }
  }

  // The section loop.
  method DecodeLoop(cursor: Cursor, count: nat) returns (r: Result<DiagnosticBundle, DiagnosticError>)
    requires cursor.Valid()
    modifies cursor`offset
    ensures cursor.Valid()
    ensures match DecodeSections(cursor.input, old(cursor.offset), count, [])
      case Err(error) => r == Err(error)
      case Ok((sections, end)) =>
        r.Ok? && fresh(r.value) && r.value.Valid() && r.value.sections == sections && cursor.offset == end
  {
    hide DecodeSection, InsertProblem, Put, EncodedSize, Encoded, IsBundle;
    var bundle := new DiagnosticBundle();
    for i := 0 to count
      invariant cursor.Valid() && fresh(bundle) && bundle.Valid()
      invariant DecodeSections(cursor.input, cursor.offset, count - i, bundle.sections)
             == DecodeSections(cursor.input, old(cursor.offset), count, [])
    {
      var section := cursor.Section();
      if section.Err? {
        return Err(section.error);
      }
      var inserted := bundle.InsertBytes(section.value.key, section.value.value);
      if inserted.Err? {
        return Err(inserted.error);
      }
    }
    return Ok(bundle);
  }

  method Decode(input: seq<u8>) returns (r: Result<DiagnosticBundle, DiagnosticError>)
    ensures match Decoded(input)
      case Err(error) => r == Err(error)
      case Ok(sections) => r.Ok? && fresh(r.value) && r.value.Valid() && r.value.sections == sections
  {
    if |input| > MAX_BUNDLE_BYTES {
      return Err(BundleTooLarge(|input|));
    }
    hide DecodeSections, FieldAt, Encoded, IsBundle;
    var cursor := new Cursor(input);
    var magic := cursor.Take(8);
    if magic.Err? {
      return Err(magic.error);
    }
    assert magic.value == input[..8];
    if magic.value != DIAGNOSTIC_MAGIC {
      return Err(InvalidHeader);
    }
    var count := cursor.Field(4);
    if count.Err? {
      return Err(count.error);
    }
    if count.value > MAX_SECTIONS {
      return Err(BundleTooLarge(count.value));
    }
    var bundle := DecodeLoop(cursor, count.value);
    if bundle.Err? {
      return Err(bundle.error);
    }
    if cursor.offset != |input| {
      return Err(TrailingBytes);
    }
    return Ok(bundle.value);
  }
}
