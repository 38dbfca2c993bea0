// The settings document: a validated, ordered key/value map with a text form that
// reads back exactly (crates/obs-rs-config/src/lib.rs).
module Configs {
  import opened Numbers
  import opened Results
  import opened Identifiers
  import opened SortedMaps
  import opened Numerals
  import opened ConfigText

  const MAX_CONFIG_BYTES := 64 * 1024
  const MAX_VALUE_BYTES := 4096

  type Entries = seq<Entry<string>>

  // `validate_entry`: None when the pair may be stored.
  function EntryProblem(key: string, value: string, line: nat): Option<ConfigError> {
    if IdentifierProblem(key).Some? then Some(InvalidKey(line, IdentifierProblem(key).value))
    else if 0 as char in value then Some(InvalidValue(line))
    else if ByteLength(value) > MAX_VALUE_BYTES then Some(ValueTooLong(line))
    else None
  }

  ghost predicate WellFormed(entries: Entries) {
    && Sorted(entries)
    && forall e :: e in entries ==> EntryProblem(e.key, e.value, 0).None?
  }

  function Line(e: Entry<string>): string {
    e.key + " = " + Literal(e.value)
  }

  function Serialized(entries: Entries): string {
    if entries == [] then [] else Line(entries[0]) + "\n" + Serialized(entries[1..])
  }

  function ParseLine(entries: Entries, line: string, number: nat): Result<Entries, ConfigError> {
    var trimmed := Trim(line);
    if trimmed == [] || trimmed[0] == '#' then Ok(entries)
    else if trimmed[0] == '[' then Err(UnsupportedConstruct(number))
    else match SplitOnce(trimmed, '=')
      case None => Err(InvalidLine(number))
      case Some((key, value)) =>
        match ParseValue(Trim(value), number)
        case Err(error) => Err(error)
        case Ok(decoded) =>
          if EntryProblem(Trim(key), decoded, number).Some? then Err(EntryProblem(Trim(key), decoded, number).value)
          else if Find(entries, Trim(key)).Some? then Err(DuplicateKey(number))
          else Ok(Put(entries, Trim(key), decoded))
  }

  function ParseLines(entries: Entries, lines: seq<string>, number: nat): Result<Entries, ConfigError>
    decreases lines
  {
    if lines == [] then Ok(entries)
    else match ParseLine(entries, lines[0], number)
      case Err(error) => Err(error)
      case Ok(next) => ParseLines(next, lines[1..], number + 1)
  }

  function Parsed(document: string): Result<Entries, ConfigError> {
    if ByteLength(document) > MAX_CONFIG_BYTES then Err(InputTooLarge)
    else ParseLines([], Lines(document), 1)
  }

  // ---- Parsing keeps documents well formed -------------------------------------

  lemma ProblemIgnoresLine(key: string, value: string, a: nat, b: nat)
    ensures EntryProblem(key, value, a).None? <==> EntryProblem(key, value, b).None?
  {
  }

  lemma PutWellFormed(entries: Entries, key: string, value: string, line: nat)
    requires WellFormed(entries) && EntryProblem(key, value, line).None?
    ensures WellFormed(Put(entries, key, value))
  {
    PutSorted(entries, key, value);
    ProblemIgnoresLine(key, value, line, 0);
  }

  lemma {:induction false} ParseLinesWellFormed(entries: Entries, lines: seq<string>, number: nat)
    requires WellFormed(entries) && ParseLines(entries, lines, number).Ok?
    ensures WellFormed(ParseLines(entries, lines, number).value)
    decreases lines
  {
    if lines != [] {
      ParseLineWellFormed(entries, lines[0], number);
      ParseLinesWellFormed(ParseLine(entries, lines[0], number).value, lines[1..], number + 1);
    }
  }

  lemma ParseLineWellFormed(entries: Entries, line: string, number: nat)
    requires WellFormed(entries) && ParseLine(entries, line, number).Ok?
    ensures WellFormed(ParseLine(entries, line, number).value)
  {
    match SplitOnce(Trim(line), '=')
    case None =>
    case Some((key, value)) =>
      match ParseValue(Trim(value), number)
      case Err(_) =>
      case Ok(decoded) =>
        if EntryProblem(Trim(key), decoded, number).None? {
          PutWellFormed(entries, Trim(key), decoded, number);
        }
  }

  // ---- The round trip ----------------------------------------------------------

  lemma KeyShape(key: string)
    requires IsIdentifier(key)
    ensures key != [] && forall c :: c in key ==> !IsWhitespace(c) && !IsControl(c) && c !in {'=', '#', '['}
  {
    IdentifierAlphabet(key);
  }

  // Where a key ends, and what follows it.
  lemma SplitAtEquals(key: string, literal: string)
    requires '=' !in key
    ensures SplitOnce(key + " = " + literal, '=') == Some((key + " ", " " + literal))
  {
    hide IndexOf;
    var line := key + " = " + literal;
    var i := IndexOf(line, '=');
    assert line[|key| + 1] == '=' && line[|key|] == ' ';
    forall j | 0 <= j < |key| ensures line[j] != '=' {
      assert line[j] == key[j] && key[j] in key;
    }
    assert i == |key| + 1;
    assert line[..i] == key + " " && line[i + 1..] == " " + literal;
  }

  lemma LineEnds(key: string, literal: string)
    requires key != [] && literal != []
    ensures var line := key + " = " + literal;
      line[0] == key[0] && line[|line| - 1] == literal[|literal| - 1]
      && forall c :: c in line ==> c in key || c in " = " || c in literal
  {
  }

  // A written line, taken apart again.
  lemma LineParts(e: Entry<string>)
    requires IsIdentifier(e.key)
    ensures var line := Line(e);
      && Trim(line) == line && line != [] && line[0] !in {'#', '['}
      && SplitOnce(line, '=') == Some((e.key + " ", " " + Literal(e.value)))
      && '\n' !in line && line[|line| - 1] != '\r'
  {
    KeyShape(e.key);
    LiteralShape(e.value);
    hide Literal, SplitOnce, Trim, IsIdentifier;
    var key, literal := e.key, Literal(e.value);
    assert key[0] in key && literal[|literal| - 1] in literal;
    LineEnds(key, literal);
    SplitAtEquals(key, literal);
    TrimIdentity(Line(e));
  }

  lemma ParseWrittenLine(entries: Entries, e: Entry<string>, number: nat)
    requires EntryProblem(e.key, e.value, 0).None?
    requires forall o :: o in entries ==> Less(o.key, e.key)
    ensures ParseLine(entries, Line(e), number) == Ok(entries + [e])
  {
    LineParts(e);
    KeyShape(e.key);
    LiteralShape(e.value);
    LiteralRoundTrip(e.value, number);
    ProblemIgnoresLine(e.key, e.value, 0, number);
    PutLast(entries, e.key, e.value);
    hide Literal, ParseValue, Put, Find;
    assert e.key[0] in e.key && e.key[|e.key| - 1] in e.key;
    TrimTrailingSpace(e.key);
    TrimLeadingSpace(Literal(e.value));
  }

  lemma FirstBreak(line: string, rest: string)
    requires '\n' !in line
    ensures IndexOf(line + "\n" + rest, '\n') == |line|
  {
    hide IndexOf;
    var document := line + "\n" + rest;
    var i := IndexOf(document, '\n');
    assert document[|line|] == '\n';
    forall j | 0 <= j < |line| ensures document[j] != '\n' {
      assert document[j] == line[j] && line[j] in line;
    }
  }

  lemma FirstLine(line: string, rest: string)
    requires line != [] && '\n' !in line && line[|line| - 1] != '\r'
    ensures Lines(line + "\n" + rest) == [line] + Lines(rest)
  {
    hide IndexOf;
    var document := line + "\n" + rest;
    FirstBreak(line, rest);
    assert document[..|line|] == line && document[|line| + 1..] == rest;
  }

  lemma LinesOfWritten(e: Entry<string>, rest: string)
    requires IsIdentifier(e.key)
    ensures Lines(Line(e) + "\n" + rest) == [Line(e)] + Lines(rest)
  {
    hide Line, Lines, SplitOnce, Trim, IdentifierProblem, Literal;
    LineParts(e);
    FirstLine(Line(e), rest);
  }

  lemma NoLines()
    ensures Lines("") == []
  {
  }

  lemma StoredKeyIsIdentifier(e: Entry<string>)
    requires EntryProblem(e.key, e.value, 0).None?
    ensures IsIdentifier(e.key)
  {
  }

  lemma {:induction false} ParseWritten(done: Entries, rest: Entries, number: nat)
    requires WellFormed(done + rest)
    ensures ParseLines(done, Lines(Serialized(rest)), number) == Ok(done + rest)
    decreases rest
  {
    hide ParseLine, Line, Lines, EntryProblem, Less;
    if rest == [] {
      NoLines();
      assert done + rest == done;
    } else {
      var e := rest[0];
      assert (done + rest)[|done|] == e && e in done + rest;
      forall o | o in done ensures Less(o.key, e.key) {
        var i :| 0 <= i < |done| && done[i] == o;
        assert (done + rest)[i] == o;
      }
      StoredKeyIsIdentifier(e);
      LinesOfWritten(e, Serialized(rest[1..]));
      ParseWrittenLine(done, e, number);
      assert done + [e] + rest[1..] == done + rest;
      ParseWritten(done + [e], rest[1..], number + 1);
    }
  }

  // The central promise: a document that fits reads back as exactly the settings that were
  // written, for every Unicode value; one that does not fit is refused for its size only.
  lemma RoundTrip(entries: Entries)
    requires WellFormed(entries)
    ensures Parsed(Serialized(entries)) ==
      if ByteLength(Serialized(entries)) > MAX_CONFIG_BYTES then Err(InputTooLarge) else Ok(entries)
  {
    assert [] + entries == entries;
    ParseWritten([], entries, 1);
  }

  // Different settings have different documents, whatever their size.
  lemma SerializationIsInjective(a: Entries, b: Entries)
    requires WellFormed(a) && WellFormed(b)
    requires Serialized(a) == Serialized(b)
    ensures a == b
  {
    hide Lines, ParseLine, EntryProblem, Less, Line;
    assert [] + a == a && [] + b == b;
    ParseWritten([], a, 1);
    ParseWritten([], b, 1);
  }

  // Serializing what was parsed is a fixed point of one more round trip.
  lemma FixedPoint(document: string)
    requires Parsed(document).Ok?
    requires ByteLength(Serialized(Parsed(document).value)) <= MAX_CONFIG_BYTES
    ensures WellFormed(Parsed(document).value)
    ensures Parsed(Serialized(Parsed(document).value)) == Parsed(document)
  {
    ParseLinesWellFormed([], Lines(document), 1);
    RoundTrip(Parsed(document).value);
  }

  // How three numeric look-alikes are spelled. `-0` counts as canonical and stays bare, although
  // TOML reads it as the integer zero; this parser gives back the spelling all the same.
  lemma LookAlikes()
    ensures Literal("007") == "\"007\"" && Literal("-0") == "-0" && Literal("-") == "\"-\""
  {
    hide Escape, DigitsValue;
    assert "-0"[1..] == "0";
    EscapePlain("007");
    EscapePlain("-");
  }

  lemma BareCharacterIsPlain(c: char)
    requires IsBareCharacter(c)
    ensures EscapeCharacter(c) == [c]
  {
  }

  lemma {:induction false} EscapePlain(value: string)
    requires forall c :: c in value ==> IsBareCharacter(c)
    ensures Escape(value) == value
    decreases |value|
  {
    if value != [] {
      hide EscapeCharacter, IsBareCharacter;
      EscapePlain(value[..|value| - 1]);
      assert value[|value| - 1] in value;
      BareCharacterIsPlain(value[|value| - 1]);
      assert value == value[..|value| - 1] + [value[|value| - 1]];
    }
  }

  // ---- The document object -------------------------------------------------------

  class Config {
    var entries: Entries

    ghost predicate Valid()
      reads this
    {
      WellFormed(entries)
    }

    constructor ()
      ensures Valid() && entries == []
    {
      entries := [];
    }

    method Set(key: string, value: string) returns (r: Result<(), ConfigError>)
      requires Valid()
      modifies this
      ensures Valid()
      ensures r.Ok? <==> IsIdentifier(key) && 0 as char !in value && ByteLength(value) <= 4_096
      ensures r.Err? ==> EntryProblem(key, value, 0) == Some(r.error) && entries == old(entries)
      ensures r.Ok? ==> entries == Put(old(entries), key, value)
      ensures r.Ok? ==> forall k :: Find(entries, k) == if k == key then Some(value) else Find(old(entries), k)
    {
      var problem := EntryProblem(key, value, 0);
      if problem.Some? {
        return Err(problem.value);
      }
      PutWellFormed(entries, key, value, 0);
      forall k ensures Find(Put(entries, key, value), k) == if k == key then Some(value) else Find(entries, k) {
        PutFind(entries, key, value, k);
      }
      entries := Put(entries, key, value);
      return Ok(());
    }

    method Remove(key: string) returns (previous: Option<string>)
      requires Valid()
      modifies this
      ensures Valid()
      ensures previous == Find(old(entries), key) && entries == Delete(old(entries), key)
      ensures forall k :: Find(entries, k) == if k == key then None else Find(old(entries), k)
    {
      forall k ensures Find(Delete(entries, key), k) == if k == key then None else Find(entries, k) {
        DeleteFind(entries, key, k);
      }
      previous := Find(entries, key);
      DeleteSorted(entries, key);
      entries := Delete(entries, key);
    }

    // `insert` while parsing: like `Set`, but refuses a repeated key.
    method Insert(key: string, value: string, line: nat) returns (r: Result<(), ConfigError>)
      requires Valid()
      modifies this
      ensures Valid()
      ensures r == if EntryProblem(key, value, line).Some? then Err(EntryProblem(key, value, line).value)
                   else if Find(old(entries), key).Some? then Err(DuplicateKey(line)) else Ok(())
      ensures entries == if r.Ok? then Put(old(entries), key, value) else old(entries)
    {
      var problem := EntryProblem(key, value, line);
      if problem.Some? {
        return Err(problem.value);
      }
      if Find(entries, key).Some? {
        return Err(DuplicateKey(line));
      }
      PutWellFormed(entries, key, value, line);
      entries := Put(entries, key, value);
      return Ok(());
    }

    method Serialize() returns (document: string)
      ensures document == Serialized(entries)
    {
      hide IsBareLiteral, BasicString, Serialized;
      document := "";
      SerializedEnd(entries);
      for i := 0 to |entries|
        invariant document + Serialized(entries[i..]) == Serialized(entries)
      {
        ghost var written := document;
        SerializedStep(entries, i, written);
        document := document + entries[i].key;
        document := document + " = ";
        if IsBareLiteral(entries[i].value) {
          document := document + entries[i].value;
        } else {
          document := PushBasicString(document, entries[i].value);
        }
        document := document + "\n";
        assert document == written + (Line(entries[i]) + "\n");
      }
    }
  }

  lemma SerializedEnd(entries: Entries)
    ensures "" + Serialized(entries[0..]) == Serialized(entries)
    ensures Serialized(entries[|entries|..]) == ""
  {
    hide Line;
    assert entries[0..] == entries;
  }

  lemma SerializedStep(entries: Entries, i: nat, written: string)
    requires i < |entries|
    ensures written + Serialized(entries[i..]) == written + (Line(entries[i]) + "\n") + Serialized(entries[i + 1..])
  {
    hide Line;
    var rest := entries[i..];
    assert rest[0] == entries[i] && rest[1..] == entries[i + 1..];
    assert Serialized(rest) == Line(rest[0]) + "\n" + Serialized(rest[1..]);
  }

  method Parse(document: string) returns (r: Result<Config, ConfigError>)
    ensures match Parsed(document)
      case Err(error) => r == Err(error)
      case Ok(entries) => r.Ok? && fresh(r.value) && r.value.Valid() && r.value.entries == entries
  {
    if ByteLength(document) > MAX_CONFIG_BYTES {
      return Err(InputTooLarge);
    }
    var config := new Config();
    var lines := Lines(document);
    for index := 0 to |lines|
      invariant fresh(config) && config.Valid()
      invariant ParseLines(config.entries, lines[index..], index + 1) == ParseLines([], lines, 1)
    {
      var trimmed := Trim(lines[index]);
      if trimmed == [] || trimmed[0] == '#' {
        continue;
      }
      if trimmed[0] == '[' {
        return Err(UnsupportedConstruct(index + 1));
      }
      var parts := SplitOnce(trimmed, '=');
      if parts.None? {
        return Err(InvalidLine(index + 1));
      }
      var (key, text) := parts.value;
      var value := DecodeValue(Trim(text), index + 1);
      if value.Err? {
        return Err(value.error);
      }
      var inserted := config.Insert(Trim(key), value.value, index + 1);
      if inserted.Err? {
        return Err(inserted.error);
      }
    }
    return Ok(config);
  }

  // ---- The loops over characters -----------------------------------------------------

  method PushBasicString(document: string, value: string) returns (r: string)
    ensures r == document + BasicString(value)
  {
    hide EscapeCharacter;
    r := document + ['"'];
    for i := 0 to |value|
      invariant r == document + ['"'] + Escape(value[..i])
    {
      assert value[..i + 1][..i] == value[..i];
      r := r + EscapeCharacter(value[i]);
    }
    assert value[..|value|] == value;
    r := r + ['"'];
  }

  method DecodeValue(value: string, line: nat) returns (r: Result<string, ConfigError>)
    ensures r == ParseValue(value, line)
  {
    if value == [] {
      return Err(InvalidLine(line));
    }
    if value[0] == '"' {
      r := DecodeBasicString(value, line);
    } else {
      r := ParseValue(value, line);
    }
  }

  method DecodeBasicString(value: string, line: nat) returns (r: Result<string, ConfigError>)
    requires value != []
    ensures r == DecodeFrom(value, 1, [], line)
  {
    var decoded := "";
    var i := 1;
    while i < |value|
      invariant 1 <= i <= |value|
      invariant DecodeFrom(value, i, decoded, line) == DecodeFrom(value, 1, [], line)
    {
      var character := value[i];
      if character == '"' {
        return if StripComment(value[i + 1..]) == [] then Ok(decoded) else Err(InvalidValue(line));
      } else if character == '\\' {
        if i + 1 == |value| {
          return Err(InvalidValue(line));
        }
        var escape := value[i + 1];
        if SimpleEscape(escape).Some? {
          decoded := decoded + [SimpleEscape(escape).value];
          i := i + 2;
        } else if escape == 'u' || escape == 'U' {
          var width := if escape == 'u' then 4 else 8;
          var scalar := DecodeEscapeCode(value, i + 2, width);
          if scalar.None? {
            return Err(InvalidValue(line));
          }
          HexCodeConsumes(value, i + 2, width, 0);
          decoded := decoded + [scalar.value];
          i := i + 2 + width;
        } else {
          return Err(InvalidValue(line));
        }
      } else if IsControl(character) {
        return Err(InvalidValue(line));
      } else {
        decoded := decoded + [character];
        i := i + 1;
      }
    }
    return Err(InvalidValue(line));
  }

  function Power16(n: nat): nat {
    if n == 0 then 1 else 16 * Power16(n - 1)
  }

  // The 32-bit accumulator cannot overflow: `code` is typed u32 throughout.
  method DecodeEscapeCode(value: string, start: nat, width: nat) returns (r: Option<char>)
    requires start <= |value| && width <= 8
    ensures r == EscapeCode(value, start, width)
  {
    hide HexDigit, HexCode, Power16;
    EightDigitsFit();
    var code: u32 := 0;
    for n := 0 to width
      invariant start + n <= |value| && code < Power16(n)
      invariant HexCode(value, start + n, width - n, code) == HexCode(value, start, width, 0)
    {
      HexCodeStep(value, start + n, width - n, code);
      if start + n == |value| || HexDigit(value[start + n]).None? {
        return None;
      }
      PowerMonotone(n + 1, 8);
      OneMoreDigit(value[start + n], code, n);
      code := code * 16 + HexDigit(value[start + n]).value;
    }
    HexEnd(value, start + width, code);
    return if IsScalar(code) then Some(code as char) else None;
  }

  lemma EightDigitsFit()
    ensures Power16(0) == 1 && Power16(8) == U32_MAX + 1
  {
    assert Power16(4) == 0x1_0000;
  }

  lemma HexCodeStep(value: string, i: nat, width: pos, code: nat)
    requires i <= |value|
    ensures HexCode(value, i, width, code)
         == if i == |value| || HexDigit(value[i]).None? then None
            else HexCode(value, i + 1, width - 1, code * 16 + HexDigit(value[i]).value)
  {
  }

  lemma OneMoreDigit(c: char, code: nat, n: nat)
    requires HexDigit(c).Some? && code < Power16(n)
    ensures code * 16 + HexDigit(c).value < Power16(n + 1)
  {
  }

  lemma {:induction false} PowerMonotone(a: nat, b: nat)
    requires a <= b
    ensures Power16(a) <= Power16(b)
  {
    if a < b { PowerMonotone(a, b - 1); }
  }
}
