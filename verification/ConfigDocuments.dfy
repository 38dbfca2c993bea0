// Settings documents that people write: any spacing, comments and blank lines, any order of
// keys, and every supported spelling of a value (crates/obs-rs-config/src/lib.rs).
module ConfigDocuments {
  import opened Numbers
  import opened Results
  import opened Identifiers
  import opened SortedMaps
  import opened ConfigText
  import opened Configs

  // ---- Blanks and comments -------------------------------------------------------------------

  predicate IsBlank(s: string) {
    forall c :: c in s ==> IsWhitespace(c)
  }

  // What may stand behind a value: blanks, and then a comment or nothing.
  datatype Tail = Tail(blanks: string, comment: Option<string>)
  {
    function Text(): string {
      blanks + if comment.Some? then "#" + comment.value else ""
    }
  }

  // A text that no trimming changes.
  predicate IsTrimmed(s: string) {
    s != [] && !IsWhitespace(s[0]) && !IsWhitespace(s[|s| - 1])
  }

  lemma {:induction false} TrimStartBlanks(blanks: string, s: string)
    requires IsBlank(blanks) && (s != [] ==> !IsWhitespace(s[0]))
    ensures TrimStart(blanks + s) == s
    decreases blanks
  {
    if blanks == [] {
      assert blanks + s == s;
    } else {
      assert blanks[0] in blanks && (blanks + s)[1..] == blanks[1..] + s;
      TrimStartBlanks(blanks[1..], s);
    }
  }

  lemma {:induction false} TrimEndBlanks(s: string, blanks: string)
    requires IsBlank(blanks) && (s != [] ==> !IsWhitespace(s[|s| - 1]))
    ensures TrimEnd(s + blanks) == s
    decreases blanks
  {
    if blanks == [] {
      assert s + blanks == s;
    } else {
      var n := |blanks| - 1;
      assert blanks[n] in blanks && (s + blanks)[..|s| + n] == s + blanks[..n];
      TrimEndBlanks(s, blanks[..n]);
    }
  }

  // Trimming stops at a character that is not blank.
  lemma {:induction false} TrimEndStops(s: string, rest: string)
    requires s != [] && !IsWhitespace(s[|s| - 1])
    ensures TrimEnd(s + rest) == s + TrimEnd(rest)
    decreases |rest|
  {
    if rest == [] {
      assert s + rest == s && s + TrimEnd(rest) == s;
    } else if IsWhitespace(rest[|rest| - 1]) {
      assert (s + rest)[..|s + rest| - 1] == s + rest[..|rest| - 1];
      TrimEndStops(s, rest[..|rest| - 1]);
    }
  }

  lemma TrimBlanksAround(before: string, s: string, behind: string)
    requires IsBlank(before) && IsBlank(behind) && IsTrimmed(s)
    ensures Trim(before + s + behind) == s
  {
    assert before + s + behind == before + (s + behind);
    TrimStartBlanks(before, s + behind);
    TrimEndBlanks(s, behind);
  }

  lemma TrimAllBlank(blanks: string)
    requires IsBlank(blanks)
    ensures Trim(blanks) == []
  {
    assert blanks + [] == blanks;
    TrimStartBlanks(blanks, []);
  }

  // Trimming a line shortens its tail and nothing else.
  lemma TrimTail(indent: string, s: string, tail: Tail) returns (trimmed: Tail)
    requires IsBlank(indent) && IsTrimmed(s) && IsBlank(tail.blanks)
    ensures IsBlank(trimmed.blanks) && Trim(indent + s + tail.Text()) == s + trimmed.Text()
  {
    assert indent + s + tail.Text() == indent + (s + tail.Text());
    TrimStartBlanks(indent, s + tail.Text());
    if tail.comment.None? {
      assert tail.Text() == tail.blanks;
      TrimEndBlanks(s, tail.blanks);
      trimmed := Tail([], None);
      assert s + trimmed.Text() == s;
    } else {
      var marked, comment := s + tail.blanks + "#", tail.comment.value;
      assert s + tail.Text() == marked + comment;
      TrimEndStops(marked, comment);
      trimmed := Tail(tail.blanks, Some(TrimEnd(comment)));
      assert s + trimmed.Text() == marked + TrimEnd(comment);
    }
  }

  // A comment, with the blanks before it, is all that is stripped behind a value.
  lemma StripTail(s: string, tail: Tail)
    requires '#' !in s && IsBlank(tail.blanks) && (s == [] || IsTrimmed(s))
    ensures StripComment(s + tail.Text()) == s
  {
    hide IndexOf;
    var text, i := s + tail.Text(), IndexOf(s + tail.Text(), '#');
    assert forall c :: c in s + tail.blanks ==> c != '#';
    assert forall j :: 0 <= j < |s + tail.blanks| ==> text[j] in s + tail.blanks;
    assert s + tail.blanks == text[..|s + tail.blanks|];
    assert tail.comment.Some? ==> text[|s + tail.blanks|] == '#';
    assert i == |s + tail.blanks|;
    if s == [] {
      assert s + tail.blanks == tail.blanks;
      TrimAllBlank(tail.blanks);
    } else {
      assert [] + s + tail.blanks == s + tail.blanks;
      TrimBlanksAround([], s, tail.blanks);
    }
    assert tail.comment.None? ==> text == s + tail.blanks;
  }

  // ---- Spellings of one value ------------------------------------------------------------------

  datatype Spelling = Bare | Basic | Single

  function Write(spelling: Spelling, value: string): string {
    match spelling
    case Bare => value
    case Basic => BasicString(value)
    case Single => "'" + value + "'"
  }

  // Bare for the canonical literals; single quotes for text without quotes and control characters.
  predicate CanWrite(spelling: Spelling, value: string) {
    match spelling
    case Bare => IsBareLiteral(value)
    case Basic => true
    case Single => '\'' !in value && forall c :: c in value ==> !IsControl(c)
  }

  lemma WriteShape(spelling: Spelling, value: string)
    requires CanWrite(spelling, value)
    ensures IsTrimmed(Write(spelling, value))
  {
    if spelling == Bare {
      BareAlphabet(value);
      assert value[0] in value && value[|value| - 1] in value;
    }
    hide Escape, IsBareLiteral;
  }

  lemma BareIsRead(value: string, tail: Tail, line: nat)
    requires IsBareLiteral(value) && IsBlank(tail.blanks)
    ensures ParseValue(value + tail.Text(), line) == Ok(value)
  {
    WriteShape(Bare, value);
    BareAlphabet(value);
    assert '#' !in value && value[0] in value;
    StripTail(value, tail);
    hide IsBareLiteral, DecodeFrom, StripComment;
  }

  lemma BasicEnds(text: string, i: nat, decoded: string, line: nat)
    requires i < |text| && text[i] == '"'
    ensures DecodeFrom(text, i, decoded, line) == if StripComment(text[i + 1..]) == [] then Ok(decoded) else Err(InvalidValue(line))
  {
  }

  lemma BasicIsRead(value: string, tail: Tail, line: nat)
    requires IsBlank(tail.blanks)
    ensures ParseValue(BasicString(value) + tail.Text(), line) == Ok(value)
  {
    hide Escape, StripComment, DecodeFrom;
    var text, end := BasicString(value) + tail.Text(), 1 + |Escape(value)|;
    assert text == ['"'] + Escape(value) + (['"'] + tail.Text());
    DecodeEscaped(['"'], value, ['"'] + tail.Text(), [], line);
    assert text[end] == '"' && text[end + 1..] == [] + tail.Text();
    assert [] + value == value;
    StripTail([], tail);
    BasicEnds(text, end, value, line);
  }

  // Single quotes: every text without a quote is read as itself, unless a control character
  // is in it, which is refused.
  lemma SingleIsRead(value: string, tail: Tail, line: nat)
    requires '\'' !in value && IsBlank(tail.blanks)
    ensures ParseValue("'" + value + "'" + tail.Text(), line)
         == if forall c :: c in value ==> !IsControl(c) then Ok(value) else Err(InvalidValue(line))
  {
    hide IndexOf, StripComment, IsControl;
    var text := "'" + value + "'" + tail.Text();
    var body := text[1..];
    assert body == value + (['\''] + tail.Text());
    var end := IndexOf(body, '\'');
    assert body[|value|] == '\'';
    forall j | 0 <= j < |value| ensures body[j] != '\'' {
      assert body[j] == value[j] && value[j] in value;
    }
    assert end == |value| && body[..end] == value && body[end + 1..] == [] + tail.Text();
    StripTail([], tail);
  }

  // Whatever its spelling, and whatever comment follows, a value is read as itself.
  lemma WrittenIsRead(spelling: Spelling, value: string, tail: Tail, line: nat)
    requires CanWrite(spelling, value) && IsBlank(tail.blanks)
    ensures ParseValue(Write(spelling, value) + tail.Text(), line) == Ok(value)
  {
    hide ParseValue, IsBareLiteral;
    match spelling
    case Bare => BareIsRead(value, tail, line);
    case Basic => BasicIsRead(value, tail, line);
    case Single => SingleIsRead(value, tail, line);
  }

  // ---- Lines -------------------------------------------------------------------------------------

  // A line that says nothing, or one that sets a key, with the blanks its author chose.
  datatype WrittenLine =
    | Remark(tail: Tail)
    | Setting(indent: string, key: string, before: string, after: string, spelling: Spelling, value: string, tail: Tail)
  {
    predicate Valid() {
      && IsBlank(tail.blanks)
      && (Setting? ==> IsBlank(indent) && IsBlank(before) && IsBlank(after) && IsIdentifier(key) && CanWrite(spelling, value))
    }

    function Text(): string {
      match this
      case Remark(tail) => tail.Text()
      case Setting(indent, key, before, after, spelling, value, tail) =>
        indent + (key + before + "=" + after + Write(spelling, value)) + tail.Text()
    }
  }

  lemma {:induction false} TrimRemark(tail: Tail)
    requires IsBlank(tail.blanks)
    ensures var trimmed := Trim(tail.Text()); trimmed == [] || trimmed[0] == '#'
  {
    if tail.comment.None? {
      assert tail.Text() == tail.blanks;
      TrimAllBlank(tail.blanks);
    } else {
      var comment := tail.comment.value;
      assert tail.Text() == tail.blanks + ("#" + comment);
      TrimStartBlanks(tail.blanks, "#" + comment);
      TrimEndStops("#", comment);
    }
  }

  lemma KeyEnds(key: string, before: string, rest: string)
    requires '=' !in key && '=' !in before
    ensures SplitOnce(key + before + "=" + rest, '=') == Some((key + before, rest))
  {
    hide IndexOf;
    var line, front := key + before + "=" + rest, key + before;
    assert line[|front|] == '=' && line[..|front|] == front && line[|front| + 1..] == rest;
    forall j | 0 <= j < |front| ensures line[j] != '=' {
      assert line[j] == front[j] && front[j] in front;
    }
    assert IndexOf(line, '=') == |front|;
  }

  // What the parser stores for a key and a value, or why it does not.
  function Stored(entries: Entries, key: string, value: string, number: nat): Result<Entries, ConfigError> {
    if EntryProblem(key, value, number).Some? then Err(EntryProblem(key, value, number).value)
    else if Find(entries, key).Some? then Err(DuplicateKey(number))
    else Ok(Put(entries, key, value))
  }

  lemma SettingParts(line: WrittenLine) returns (tail: Tail)
    requires line.Valid() && line.Setting?
    ensures IsBlank(tail.blanks)
    ensures var (trimmed, written) := (Trim(line.Text()), Write(line.spelling, line.value) + tail.Text());
      && trimmed != [] && trimmed[0] !in {'#', '['}
      && SplitOnce(trimmed, '=') == Some((line.key + line.before, line.after + written))
      && Trim(line.key + line.before) == line.key
  {
    hide Write, CanWrite, SplitOnce, Trim, IsIdentifier;
    var written := Write(line.spelling, line.value);
    WriteShape(line.spelling, line.value);
    KeyShape(line.key);
    var body := line.key + line.before + "=" + line.after + written;
    assert line.key[0] in line.key && line.key[|line.key| - 1] in line.key;
    assert body[0] == line.key[0] && body[|body| - 1] == written[|written| - 1];
    tail := TrimTail(line.indent, body, line.tail);
    assert body + tail.Text() == line.key + line.before + "=" + (line.after + (written + tail.Text()));
    assert line.after + (written + tail.Text()) == line.after + written + tail.Text();
    assert '=' !in line.before;
    KeyEnds(line.key, line.before, line.after + (written + tail.Text()));
    assert [] + line.key + line.before == line.key + line.before;
    TrimBlanksAround([], line.key, line.before);
  }

  // A setting is stored however it is written, and a remark changes nothing.
  lemma LineIsRead(entries: Entries, line: WrittenLine, number: nat)
    requires line.Valid()
    ensures ParseLine(entries, line.Text(), number)
         == if line.Remark? then Ok(entries) else Stored(entries, line.key, line.value, number)
  {
    hide Trim, ParseValue, Write, CanWrite, SplitOnce, EntryProblem, Put, Find, IsIdentifier;
    if line.Remark? {
      TrimRemark(line.tail);
    } else {
      var tail := SettingParts(line);
      var written := Write(line.spelling, line.value);
      WriteShape(line.spelling, line.value);
      var rest := TrimTail(line.after, written, tail);
      assert line.after + written + tail.Text() == line.after + (written + tail.Text());
      WrittenIsRead(line.spelling, line.value, rest, number);
    }
  }

  // ---- Documents -----------------------------------------------------------------------------------

  predicate OneLine(s: string) {
    '\n' !in s && '\r' !in s
  }

  predicate IsEnding(ending: string) {
    ending == "\n" || ending == "\r\n"
  }

  function Document(lines: seq<WrittenLine>, ending: string): string {
    if lines == [] then [] else lines[0].Text() + ending + Document(lines[1..], ending)
  }

  lemma FirstLineRead(line: string, ending: string, rest: string)
    requires OneLine(line) && IsEnding(ending)
    ensures Lines(line + ending + rest) == [line] + Lines(rest)
  {
    hide IndexOf;
    var document, n := line + ending + rest, |line| + |ending| - 1;
    assert document[n] == '\n' && document[n + 1..] == rest;
    forall j | 0 <= j < n ensures document[j] != '\n' {
      if j < |line| { assert document[j] == line[j] && line[j] in line; }
    }
    assert IndexOf(document, '\n') == n;
    if ending == "\n" {
      assert document[..n] == line;
      assert line != [] ==> line[n - 1] in line;
    } else {
      assert document[..n] == line + "\r" && (line + "\r")[..n - 1] == line;
    }
  }

  // The value that the lines give to a key.
  function ValueIn(lines: seq<WrittenLine>, key: string): Option<string> {
    if lines == [] then None
    else if lines[0].Setting? && lines[0].key == key then Some(lines[0].value)
    else ValueIn(lines[1..], key)
  }

  // No key is set twice, neither here nor in what was read before.
  ghost predicate SetOnce(done: Entries, lines: seq<WrittenLine>)
    decreases lines
  {
    lines != [] ==>
      && (lines[0].Setting? ==> Find(done, lines[0].key).None? && ValueIn(lines[1..], lines[0].key).None?)
      && SetOnce(done, lines[1..])
  }

  predicate Written(lines: seq<WrittenLine>) {
    forall i :: 0 <= i < |lines| ==>
      && lines[i].Valid() && OneLine(lines[i].Text())
      && (lines[i].Setting? ==> EntryProblem(lines[i].key, lines[i].value, 0).None?)
  }

  lemma {:induction false} SetOnceAfterPut(done: Entries, lines: seq<WrittenLine>, key: string, value: string)
    requires Sorted(done) && SetOnce(done, lines) && ValueIn(lines, key).None?
    ensures SetOnce(Put(done, key, value), lines)
    decreases lines
  {
    if lines != [] {
      if lines[0].Setting? {
        PutFind(done, key, value, lines[0].key);
      }
      SetOnceAfterPut(done, lines[1..], key, value);
    }
  }

  // The entries after the lines.
  function StoredAll(done: Entries, lines: seq<WrittenLine>): Entries
    decreases lines
  {
    if lines == [] then done
    else StoredAll(if lines[0].Setting? then Put(done, lines[0].key, lines[0].value) else done, lines[1..])
  }

  // They give every key the value written for it, and leave the other keys alone.
  lemma {:induction false} StoredAllFinds(done: Entries, lines: seq<WrittenLine>)
    requires WellFormed(done) && Written(lines) && SetOnce(done, lines)
    ensures WellFormed(StoredAll(done, lines))
    ensures forall key :: Find(StoredAll(done, lines), key) == if ValueIn(lines, key).Some? then ValueIn(lines, key) else Find(done, key)
    decreases lines
  {
    hide EntryProblem, Put, Find;
    if lines != [] {
      var (line, rest) := (lines[0], lines[1..]);
      assert Written(rest);
      if line.Setting? {
        PutWellFormed(done, line.key, line.value, 0);
        SetOnceAfterPut(done, rest, line.key, line.value);
        forall key ensures Find(Put(done, line.key, line.value), key) == if key == line.key then Some(line.value) else Find(done, key) {
          PutFind(done, line.key, line.value, key);
        }
        StoredAllFinds(Put(done, line.key, line.value), rest);
      } else {
        StoredAllFinds(done, rest);
      }
    }
  }

  // One line from the front of a document.
  lemma OneLineRead(done: Entries, line: WrittenLine, ending: string, behind: string, number: nat)
    requires line.Valid() && OneLine(line.Text()) && IsEnding(ending)
    ensures ParseLines(done, Lines(line.Text() + ending + behind), number) ==
      match (if line.Remark? then Ok(done) else Stored(done, line.key, line.value, number))
      case Err(error) => Err(error)
      case Ok(next) => ParseLines(next, Lines(behind), number + 1)
  {
    hide ParseLine, Lines, Stored, IsEnding;
    FirstLineRead(line.Text(), ending, behind);
    LineIsRead(done, line, number);
    assert ([line.Text()] + Lines(behind))[1..] == Lines(behind);
  }

  lemma DocumentFirst(lines: seq<WrittenLine>, ending: string, behind: string)
    requires lines != []
    ensures Document(lines, ending) + behind == lines[0].Text() + ending + (Document(lines[1..], ending) + behind)
  {
  }

  lemma NewSettingIsStored(done: Entries, line: WrittenLine, number: nat)
    requires line.Setting? && EntryProblem(line.key, line.value, 0).None? && Find(done, line.key).None?
    ensures Stored(done, line.key, line.value, number) == Ok(Put(done, line.key, line.value))
  {
    ProblemIgnoresLine(line.key, line.value, 0, number);
  }

  // The lines are read one by one, and what stands behind them after that.
  lemma {:induction false} LinesAreRead(done: Entries, lines: seq<WrittenLine>, ending: string, behind: string, number: nat)
    requires WellFormed(done) && Written(lines) && SetOnce(done, lines) && IsEnding(ending)
    ensures ParseLines(done, Lines(Document(lines, ending) + behind), number)
         == ParseLines(StoredAll(done, lines), Lines(behind), number + |lines|)
    decreases lines
  {
    hide ParseLines, Lines, EntryProblem, Put, Find, IsEnding, Stored, Document;
    if lines == [] {
      NoDocument(ending, behind);
    } else {
      var (line, rest) := (lines[0], lines[1..]);
      DocumentFirst(lines, ending, behind);
      OneLineRead(done, line, ending, Document(rest, ending) + behind, number);
      assert Written(rest);
      if line.Remark? {
        LinesAreRead(done, rest, ending, behind, number + 1);
      } else {
        NewSettingIsStored(done, line, number);
        PutWellFormed(done, line.key, line.value, 0);
        SetOnceAfterPut(done, rest, line.key, line.value);
        LinesAreRead(Put(done, line.key, line.value), rest, ending, behind, number + 1);
      }
    }
  }

  lemma NoDocument(ending: string, behind: string)
    ensures Document([], ending) + behind == behind
  {
  }

  // Whoever writes down these settings, in any order, spacing and spelling, with any comments and
  // blank lines, and with either line ending, gets exactly them.
  lemma WrittenDocumentIsRead(lines: seq<WrittenLine>, ending: string, entries: Entries)
    requires Written(lines) && SetOnce([], lines) && IsEnding(ending)
    requires WellFormed(entries) && forall key :: Find(entries, key) == ValueIn(lines, key)
    ensures Parsed(Document(lines, ending)) ==
      if ByteLength(Document(lines, ending)) > 65_536 then Err(InputTooLarge) else Ok(entries)
  {
    StoredAllFinds([], lines);
    LinesAreRead([], lines, ending, "", 1);
    NoLines();
    assert Document(lines, ending) + "" == Document(lines, ending);
    hide Lines, Document, Written, SetOnce, EntryProblem, StoredAll;
    Extensional(StoredAll([], lines), entries);
  }

  lemma RepeatedSettingIsRefused(done: Entries, again: WrittenLine, ending: string, rest: string, number: nat)
    requires again.Valid() && OneLine(again.Text()) && IsEnding(ending) && again.Setting?
    requires EntryProblem(again.key, again.value, 0).None? && Find(done, again.key).Some?
    ensures ParseLines(done, Lines(again.Text() + ending + rest), number) == Err(DuplicateKey(number))
  {
    OneLineRead(done, again, ending, rest, number);
    ProblemIgnoresLine(again.key, again.value, 0, number);
    hide ParseLines, Lines, EntryProblem, Put, Find, IsEnding;
  }

  // A key that is set twice is refused where it comes again, whatever stands in between and behind.
  lemma SecondSettingIsRefused(lines: seq<WrittenLine>, again: WrittenLine, rest: string, ending: string)
    requires Written(lines) && SetOnce([], lines) && IsEnding(ending)
    requires again.Valid() && OneLine(again.Text()) && again.Setting?
    requires EntryProblem(again.key, again.value, 0).None? && ValueIn(lines, again.key).Some?
    ensures ParseLines([], Lines(Document(lines, ending) + (again.Text() + ending + rest)), 1) == Err(DuplicateKey(1 + |lines|))
  {
    hide ParseLines, Lines, EntryProblem, Put, SetOnce, Written, StoredAll, Document, IsEnding, ValueIn;
    StoredAllFinds([], lines);
    LinesAreRead([], lines, ending, again.Text() + ending + rest, 1);
    RepeatedSettingIsRefused(StoredAll([], lines), again, ending, rest, 1 + |lines|);
  }

  // ---- What is refused -----------------------------------------------------------------------------

  // A table header and a line without a separator, each with its own error and its line.
  lemma MalformedLinesAreNamed(entries: Entries, number: nat, indent: string, text: string)
    requires IsBlank(indent)
    ensures ParseLine(entries, indent + ("[" + text), number) == Err(UnsupportedConstruct(number))
    ensures IsTrimmed(text) && text[0] !in {'#', '['} && '=' !in text ==>
      ParseLine(entries, indent + text, number) == Err(InvalidLine(number))
  {
    hide SplitOnce, ParseValue;
    TrimStartBlanks(indent, "[" + text);
    TrimEndStops("[", text);
    if IsTrimmed(text) && text[0] !in {'#', '['} && '=' !in text {
      assert indent + text + [] == indent + text;
      TrimBlanksAround(indent, text, []);
      NoSeparator(text);
    }
  }

  lemma NoSeparator(text: string)
    requires '=' !in text
    ensures SplitOnce(text, '=').None?
  {
    hide IndexOf;
    assert IndexOf(text, '=') < |text| ==> text[IndexOf(text, '=')] in text;
  }

  // An unquoted word is taken exactly when it is a boolean or a canonical 64-bit integer.
  lemma UnquotedWord(word: string, tail: Tail, line: nat)
    requires IsTrimmed(word) && '#' !in word && word[0] != '"' && word[0] != '\'' && IsBlank(tail.blanks)
    ensures ParseValue(word + tail.Text(), line) == if IsBareLiteral(word) then Ok(word) else Err(UnsupportedConstruct(line))
  {
    StripTail(word, tail);
    hide IsBareLiteral, DecodeFrom, StripComment;
  }

  // A quoted value must be closed, and nothing but a comment may follow it.
  lemma QuotesMustClose(value: string, junk: string, line: nat)
    ensures ParseValue(['"'] + Escape(value), line) == Err(InvalidValue(line))
    ensures StripComment(junk) != [] ==> ParseValue(BasicString(value) + junk, line) == Err(InvalidValue(line))
  {
    hide Escape, StripComment, DecodeFrom;
    var open, closed := ['"'] + Escape(value), BasicString(value) + junk;
    assert [] + value == value;
    assert open == ['"'] + Escape(value) + [];
    DecodeEscaped(['"'], value, [], [], line);
    EndOfText(open, value, line);
    assert closed == ['"'] + Escape(value) + (['"'] + junk);
    DecodeEscaped(['"'], value, ['"'] + junk, [], line);
    var end := 1 + |Escape(value)|;
    assert closed[end] == '"' && closed[end + 1..] == junk;
    BasicEnds(closed, end, value, line);
  }

  lemma EndOfText(text: string, decoded: string, line: nat)
    ensures DecodeFrom(text, |text|, decoded, line) == Err(InvalidValue(line))
  {
  }

  // Behind any text, a raw control character or an escape without a name makes the value invalid.
  lemma BadCharactersAreRefused(value: string, c: char, rest: string, line: nat)
    ensures IsControl(c) ==> ParseValue(['"'] + Escape(value) + ([c] + rest), line) == Err(InvalidValue(line))
    ensures c !in {'"', '\\', 'b', 't', 'n', 'f', 'r', 'u', 'U'} ==>
      ParseValue(['"'] + Escape(value) + (['\\', c] + rest), line) == Err(InvalidValue(line))
  {
    hide Escape, DecodeFrom, StripComment;
    var raw, escaped := ['"'] + Escape(value) + ([c] + rest), ['"'] + Escape(value) + (['\\', c] + rest);
    var i := 1 + |Escape(value)|;
    assert [] + value == value;
    DecodeEscaped(['"'], value, [c] + rest, [], line);
    DecodeEscaped(['"'], value, ['\\', c] + rest, [], line);
    assert raw[i] == c && escaped[i] == '\\' && escaped[i + 1] == c;
    BadCharacter(raw, i, value, line);
    BadCharacter(escaped, i, value, line);
  }

  lemma BadCharacter(text: string, i: nat, decoded: string, line: nat)
    requires i < |text|
    ensures IsControl(text[i]) ==> DecodeFrom(text, i, decoded, line) == Err(InvalidValue(line))
    ensures text[i] == '\\' && i + 1 < |text| && text[i + 1] !in {'"', '\\', 'b', 't', 'n', 'f', 'r', 'u', 'U'} ==>
      DecodeFrom(text, i, decoded, line) == Err(InvalidValue(line))
  {
  }

  // A key that is no identifier is named with what is wrong with it, and a missing value by its line.
  lemma BadSettingsAreNamed(entries: Entries, key: string, value: string, number: nat)
    requires IsTrimmed(key) && key[0] !in {'#', '['} && '=' !in key
    ensures !IsIdentifier(key) ==> ParseLine(entries, Line(Entry(key, value)), number) == Err(InvalidKey(number, IdentifierProblem(key).value))
    ensures ParseLine(entries, key + " =", number) == Err(InvalidLine(number))
  {
    hide IdentifierProblem, Literal, Trim, ParseValue, SplitOnce, Find, Put;
    LiteralShape(value);
    var line := Line(Entry(key, value));
    assert IsTrimmed(line) && line[0] == key[0];
    assert [] + line + [] == line && [] + (key + " =") + [] == key + " =";
    TrimBlanksAround([], line, []);
    TrimBlanksAround([], key + " =", []);
    SplitAtEquals(key, Literal(value));
    assert key + " " + "=" + "" == key + " =";
    KeyEnds(key, " ", "");
    TrimTrailingSpace(key);
    TrimLeadingSpace(Literal(value));
    TrimAllBlank([]);
    LiteralRoundTrip(value, number);
    NoValue(number);
  }

  lemma NoValue(number: nat)
    ensures ParseValue([], number) == Err(InvalidLine(number))
  {
  }

  // ---- Unicode escapes -----------------------------------------------------------------------------

  // The digits of `code`, most significant first, upper or lower case.
  function HexText(code: nat, width: nat, lower: bool): string {
    if width == 0 then []
    else
      var digit := code % 16;
      HexText(code / 16, width - 1, lower)
        + [if lower && digit >= 10 then ('a' as int + digit - 10) as char else UpperHex(digit)]
  }

  lemma {:induction false} HexTextLength(code: nat, width: nat, lower: bool)
    ensures |HexText(code, width, lower)| == width
  {
    if width > 0 { HexTextLength(code / 16, width - 1, lower); }
  }

  // Reading `a` and then `b` more digits is reading `a + b` digits.
  lemma {:induction false} HexCodeSplits(value: string, i: nat, a: nat, b: nat, code: nat)
    requires i + a <= |value|
    ensures HexCode(value, i, a + b, code)
         == match HexCode(value, i, a, code) case None => None case Some(read) => HexCode(value, i + a, b, read)
    decreases a
  {
    if a > 0 && HexDigit(value[i]).Some? {
      HexCodeSplits(value, i + 1, a - 1, b, code * 16 + HexDigit(value[i]).value);
    }
  }

  lemma HexDigitsAgree(digit: nat)
    requires digit < 16
    ensures HexDigit(UpperHex(digit)) == Some(digit)
    ensures digit >= 10 ==> HexDigit(('a' as int + digit - 10) as char) == Some(digit)
  {
  }

  lemma {:induction false} HexTextIsRead(before: string, code: nat, width: nat, lower: bool, after: string)
    requires code < Power16(width)
    ensures HexCode(before + HexText(code, width, lower) + after, |before|, width, 0) == Some(code)
    decreases width
  {
    var text := before + HexText(code, width, lower) + after;
    HexTextLength(code, width, lower);
    if width == 0 {
      assert Power16(0) == 1;
    } else {
      var front, digit := HexText(code / 16, width - 1, lower), code % 16;
      var last := if lower && digit >= 10 then ('a' as int + digit - 10) as char else UpperHex(digit);
      HexTextLength(code / 16, width - 1, lower);
      assert text == before + front + ([last] + after) && text[|before| + width - 1] == last;
      HexTextIsRead(before, code / 16, width - 1, lower, [last] + after);
      HexCodeSplits(text, |before|, width - 1, 1, 0);
      HexDigitsAgree(digit);
      hide HexText, HexDigit, UpperHex;
      HexStepTo(text, |before| + width - 1, code / 16, digit);
    }
  }

  lemma HexStepTo(value: string, i: nat, code: nat, digit: nat)
    requires i < |value| && HexDigit(value[i]) == Some(digit)
    ensures HexCode(value, i, 1, code) == Some(code * 16 + digit)
  {
    assert HexCode(value, i + 1, 0, code * 16 + digit) == Some(code * 16 + digit);
  }

  // Every scalar value can be written with eight digits, one below 0x10000 also with four, in
  // either case; a code that is no scalar value is refused.
  lemma UnicodeEscapeIsRead(code: nat, wide: bool, lower: bool, line: nat)
    requires code < Power16(if wide then 8 else 4)
    ensures var spelled := (if wide then "\"\\U" else "\"\\u") + HexText(code, if wide then 8 else 4, lower) + "\"";
      ParseValue(spelled, line) == if IsScalar(code) then Ok([code as char]) else Err(InvalidValue(line))
  {
    var width, head := if wide then 8 else 4, if wide then "\"\\U" else "\"\\u";
    var spelled := head + HexText(code, width, lower) + "\"";
    HexTextLength(code, width, lower);
    HexTextIsRead(head, code, width, lower, "\"");
    assert spelled[0] == '"' && spelled[1] == '\\' && spelled[2] == head[2] && spelled[3 + width] == '"';
    assert spelled[4 + width..] == [];
    hide HexCode, HexText, Power16;
    if IsScalar(code) {
      assert [] + [code as char] == [code as char];
      BasicEnds(spelled, 3 + width, [] + [code as char], line);
    }
  }

  // ---- What the serializer writes ------------------------------------------------------------------

  // The characters that need an escape, and no others, are written with one: seven by name, the
  // other control characters by four digits.
  lemma EscapedExactly(c: char)
    ensures EscapeCharacter(c) == [c] <==> c != '"' && c != '\\' && !IsControl(c)
    ensures IsControl(c) && SimpleEscaped(c).None? ==> EscapeCharacter(c) == "\\u" + Hex4(c as int)
    ensures SimpleEscaped(c).Some? ==> EscapeCharacter(c) == ['\\', SimpleEscaped(c).value]
  {
  }

  // The names of the escapes.
  function SimpleEscaped(c: char): Option<char> {
    if c == '"' then Some('"')
    else if c == '\\' then Some('\\')
    else if c == '\n' then Some('n')
    else if c == '\r' then Some('r')
    else if c == '\t' then Some('t')
    else if c as int == 8 then Some('b')
    else if c as int == 12 then Some('f')
    else None
  }

  // Text without quotes, backslashes and control characters is written verbatim.
  lemma {:induction false} PlainTextIsVerbatim(value: string)
    requires forall i :: 0 <= i < |value| ==> value[i] != '"' && value[i] != '\\' && !IsControl(value[i])
    ensures Escape(value) == value
    decreases |value|
  {
    hide EscapeCharacter, IsControl;
    if value != [] {
      var front, last := value[..|value| - 1], value[|value| - 1];
      PlainTextIsVerbatim(front);
      EscapedExactly(last);
      assert value == front + [last];
    }
  }
}
