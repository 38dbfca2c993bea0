// The text side of the flat TOML settings document (crates/obs-rs-config/src/lib.rs):
// character classes, line splitting, literals and escapes.
module ConfigText {
  import opened Numbers
  import opened Results
  import opened Identifiers
  import opened Numerals

  datatype ConfigError =
    | InputTooLarge
    | InvalidLine(line: nat)
    | InvalidKey(line: nat, error: IdentifierError)
    | DuplicateKey(line: nat)
    | InvalidValue(line: nat)
    | ValueTooLong(line: nat)
    | UnsupportedConstruct(line: nat)

  // ---- Character classes ----------------------------------------------------

  predicate IsControl(c: char) {
    var code := c as int;
    code < 0x20 || 0x7F <= code <= 0x9F
  }

  predicate IsWhitespace(c: char) {
    var code := c as int;
    || 9 <= code <= 13 || code == 0x20 || code == 0x85 || code == 0xA0 || code == 0x1680
    || 0x2000 <= code <= 0x200A || code == 0x2028 || code == 0x2029 || code == 0x202F
    || code == 0x205F || code == 0x3000
  }

  // ---- Splitting and trimming ------------------------------------------------

  function TrimStart(s: string): string {
    if s != [] && IsWhitespace(s[0]) then TrimStart(s[1..]) else s
  }

  function TrimEnd(s: string): string {
    if s != [] && IsWhitespace(s[|s| - 1]) then TrimEnd(s[..|s| - 1]) else s
  }

  function Trim(s: string): string { TrimEnd(TrimStart(s)) }

  // The first position of `c`, or the length.
  function IndexOf(s: string, c: char): (i: nat)
    ensures i <= |s|
    ensures i < |s| ==> s[i] == c
    ensures forall j :: 0 <= j < i ==> s[j] != c
  {
    if s == [] || s[0] == c then 0 else 1 + IndexOf(s[1..], c)
  }

  function SplitOnce(s: string, c: char): Option<(string, string)> {
    var i := IndexOf(s, c);
    if i == |s| then None else Some((s[..i], s[i + 1..]))
  }

  // `str::lines`: newline-terminated pieces, each without its line ending.
  function Lines(document: string): seq<string>
    decreases |document|
  {
    if document == [] then []
    else
      var i := IndexOf(document, '\n');
      if i == |document| then [document]
      else
        var piece := document[..i];
        var line := if piece != [] && piece[i - 1] == '\r' then piece[..i - 1] else piece;
        [line] + Lines(document[i + 1..])
  }

  function StripComment(s: string): string {
    match SplitOnce(s, '#')
    case Some((before, _)) => Trim(before)
    case None => Trim(s)
  }

  lemma TrimIdentity(s: string)
    requires s != [] ==> !IsWhitespace(s[0]) && !IsWhitespace(s[|s| - 1])
    ensures Trim(s) == s
  {
  }

  lemma TrimLeadingSpace(s: string)
    requires s != [] ==> !IsWhitespace(s[0]) && !IsWhitespace(s[|s| - 1])
    ensures Trim(" " + s) == s
  {
    assert (" " + s)[1..] == s;
    TrimIdentity(s);
  }

  lemma TrimTrailingSpace(s: string)
    requires s != [] && !IsWhitespace(s[0]) && !IsWhitespace(s[|s| - 1])
    ensures Trim(s + " ") == s
  {
    assert (s + " ")[..|s|] == s;
    TrimIdentity(s);
  }

  // ---- Bare literals ---------------------------------------------------------

  // Canonical booleans and 64-bit integers; anything else must be quoted.
  predicate IsBareLiteral(value: string) {
    if value == "true" || value == "false" then true
    else
      var negative := value != [] && value[0] == '-';
      var digits := if negative then value[1..] else value;
      if digits == [] then false
      else if digits == "0" then true
      else
        && digits[0] != '0'
        && AllDigits(digits)
        && DigitsValue(digits) <= if negative then -I64_MIN else I64_MAX
  }

  predicate IsBareCharacter(c: char) {
    IsAsciiLetter(c) || IsAsciiDigit(c) || c == '-'
  }

  lemma BareAlphabet(value: string)
    requires IsBareLiteral(value)
    ensures value != [] && forall c :: c in value ==> IsBareCharacter(c)
  {
    if value != "true" && value != "false" {
      var digits := if value[0] == '-' then value[1..] else value;
      assert forall c :: c in digits ==> IsAsciiDigit(c);
      assert forall i :: 0 <= i < |value| ==> value[i] == '-' || value[i] in digits;
    }
  }

  // Bare are the booleans and the canonical spellings of 64-bit integers, and `-0`.
  lemma BareExactly(value: string)
    ensures IsBareLiteral(value)
       <==> value in {"true", "false", "-0"} || exists n: int :: I64_MIN <= n <= I64_MAX && value == Spelled(n)
  {
    if IsBareLiteral(value) && value !in {"true", "false", "-0"} {
      var negative := value[0] == '-';
      var digits := if negative then value[1..] else value;
      assert negative ==> value == "-" + digits;
      if digits == "0" {
        assert "-" + "0" == "-0";
        assert value == Decimal(0);
        assert value == Spelled(0);
      } else {
        CanonicalDigits(digits);
        var magnitude: int := DigitsValue(digits);
        var n := if negative then -magnitude else magnitude;
        assert value == Spelled(n);
      }
    }
    forall n: int | I64_MIN <= n <= I64_MAX ensures IsBareLiteral(Spelled(n)) {
      SpelledIsBare(n);
    }
    assert "-0"[1..] == "0";
  }

  lemma SpelledIsBare(n: int)
    requires I64_MIN <= n <= I64_MAX
    ensures IsBareLiteral(Spelled(n))
  {
    var magnitude := if n < 0 then -n else n;
    DecimalIsInvertible(magnitude);
    var digits := Decimal(magnitude);
    assert digits[0] in digits && IsAsciiDigit(digits[0]);
    assert n < 0 ==> Spelled(n)[1..] == digits;
    if n == 0 {
      assert Spelled(n) == "0";
    } else {
      assert digits != "0" by {
        assert DigitsValue(digits) > 0;
      }
    }
  }

  // ---- Escapes ---------------------------------------------------------------

  function UpperHex(digit: nat): char
    requires digit < 16
  {
    if digit < 10 then ('0' as int + digit) as char else ('A' as int + digit - 10) as char
  }

  // `{:04X}` of a code below 0x10000.
  function Hex4(code: nat): string
    requires code < 0x1_0000
  {
    [UpperHex(code / 4096), UpperHex(code / 256 % 16), UpperHex(code / 16 % 16), UpperHex(code % 16)]
  }

  function EscapeCharacter(c: char): string {
    if c == '"' then ['\\', '"']
    else if c == '\\' then ['\\', '\\']
    else if c as int == 8 then ['\\', 'b']
    else if c == '\t' then ['\\', 't']
    else if c == '\n' then ['\\', 'n']
    else if c as int == 12 then ['\\', 'f']
    else if c == '\r' then ['\\', 'r']
    else if IsControl(c) then ['\\', 'u'] + Hex4(c as int)
    else [c]
  }

  function Escape(value: string): string {
    if value == [] then [] else Escape(value[..|value| - 1]) + EscapeCharacter(value[|value| - 1])
  }

  function BasicString(value: string): string {
    ['"'] + Escape(value) + ['"']
  }

  // `char::to_digit(16)`.
  function HexDigit(c: char): Option<nat> {
    if '0' <= c <= '9' then Some(c as int - '0' as int)
    else if 'a' <= c <= 'f' then Some(c as int - 'a' as int + 10)
    else if 'A' <= c <= 'F' then Some(c as int - 'A' as int + 10)
    else None
  }

  predicate IsScalar(code: nat) {
    code < 0xD800 || 0xE000 <= code < 0x11_0000
  }

  // Reads `width` hexadecimal digits at `i`, continuing from `code`.
  function HexCode(value: string, i: nat, width: nat, code: nat): Option<nat>
    requires i <= |value|
    decreases width
  {
    if width == 0 then Some(code)
    else if i == |value| || HexDigit(value[i]).None? then None
    else HexCode(value, i + 1, width - 1, code * 16 + HexDigit(value[i]).value)
  }

  function EscapeCode(value: string, i: nat, width: nat): Option<char>
    requires i <= |value|
  {
    match HexCode(value, i, width, 0)
    case Some(code) => if IsScalar(code) then Some(code as char) else None
    case None => None
  }

  lemma {:induction false} HexCodeConsumes(value: string, i: nat, width: nat, code: nat)
    requires i <= |value| && HexCode(value, i, width, code).Some?
    ensures i + width <= |value|
    decreases width
  {
    if width > 0 {
      HexCodeConsumes(value, i + 1, width - 1, code * 16 + HexDigit(value[i]).value);
    }
  }

  function SimpleEscape(c: char): Option<char> {
    match c
    case '"' => Some('"')
    case '\\' => Some('\\')
    case 'b' => Some(8 as char)
    case 't' => Some('\t')
    case 'n' => Some('\n')
    case 'f' => Some(12 as char)
    case 'r' => Some('\r')
    case _ => None
  }

  // Decodes the body of a basic string from position `i`, with `decoded` already produced.
  function DecodeFrom(value: string, i: nat, decoded: string, line: nat): Result<string, ConfigError>
    requires i <= |value|
    decreases |value| - i
  {
    if i == |value| then Err(InvalidValue(line))
    else if value[i] == '"' then
      if StripComment(value[i + 1..]) == [] then Ok(decoded) else Err(InvalidValue(line))
    else if value[i] == '\\' then
      if i + 1 == |value| then Err(InvalidValue(line))
      else if SimpleEscape(value[i + 1]).Some? then
        DecodeFrom(value, i + 2, decoded + [SimpleEscape(value[i + 1]).value], line)
      else if value[i + 1] != 'u' && value[i + 1] != 'U' then Err(InvalidValue(line))
      else
        var width := if value[i + 1] == 'u' then 4 else 8;
        match EscapeCode(value, i + 2, width)
        case None => Err(InvalidValue(line))
        case Some(c) =>
          HexCodeConsumes(value, i + 2, width, 0);
          DecodeFrom(value, i + 2 + width, decoded + [c], line)
    else if IsControl(value[i]) then Err(InvalidValue(line))
    else DecodeFrom(value, i + 1, decoded + [value[i]], line)
  }

  function ParseLiteralString(value: string, line: nat): Result<string, ConfigError>
    requires value != []
  {
    var body := value[1..];
    var end := IndexOf(body, '\'');
    if end == |body| then Err(InvalidValue(line))
    else if exists c :: c in body[..end] && IsControl(c) then Err(InvalidValue(line))
    else if StripComment(body[end + 1..]) != [] then Err(InvalidValue(line))
    else Ok(body[..end])
  }

  function ParseValue(value: string, line: nat): Result<string, ConfigError> {
    if value == [] then Err(InvalidLine(line))
    else if value[0] == '"' then DecodeFrom(value, 1, [], line)
    else if value[0] == '\'' then ParseLiteralString(value, line)
    else
      var bare := StripComment(value);
      if IsBareLiteral(bare) then Ok(bare) else Err(UnsupportedConstruct(line))
  }

  // The spelling chosen by the serializer.
  function Literal(value: string): string {
    if IsBareLiteral(value) then value else BasicString(value)
  }

  // ---- Reading back what was written ------------------------------------------

  lemma HexRoundTrip(code: nat, before: string, after: string)
    requires code < 0x1_0000 && IsScalar(code)
    ensures EscapeCode(before + Hex4(code) + after, |before|, 4) == Some(code as char)
  {
    hide HexCode, UpperHex, HexDigit;
    var text, n := before + Hex4(code) + after, |before|;
    var d3, d2, d1, d0 := code / 4096, code / 256 % 16, code / 16 % 16, code % 16;
    HexStep(text, n, 4, 0, d3);
    HexStep(text, n + 1, 3, d3, d2);
    HexStep(text, n + 2, 2, d3 * 16 + d2, d1);
    HexStep(text, n + 3, 1, (d3 * 16 + d2) * 16 + d1, d0);
    HexEnd(text, n + 4, ((d3 * 16 + d2) * 16 + d1) * 16 + d0);
    HexDigitsOf(code);
  }

  lemma HexDigitsOf(code: nat)
    requires code < 0x1_0000
    ensures ((code / 4096 * 16 + code / 256 % 16) * 16 + code / 16 % 16) * 16 + code % 16 == code
  {
    DivDiv(code, 16, 16);
    DivDiv(code, 256, 16);
    var a, b := code / 16, code / 256;
    assert b / 16 * 16 + b % 16 == b;
    assert b * 16 + a % 16 == a;
    assert a * 16 + code % 16 == code;
  }

  lemma HexStep(value: string, i: nat, width: pos, code: nat, digit: nat)
    requires i < |value| && digit < 16 && value[i] == UpperHex(digit)
    ensures HexCode(value, i, width, code) == HexCode(value, i + 1, width - 1, code * 16 + digit)
  {
  }

  lemma HexEnd(value: string, i: nat, code: nat)
    requires i <= |value|
    ensures HexCode(value, i, 0, code) == Some(code)
  {
  }

  // Decoding one escaped character advances past it and yields the character.
  lemma DecodeOne(before: string, c: char, after: string, decoded: string, line: nat)
    ensures var text := before + EscapeCharacter(c) + after;
      DecodeFrom(text, |before|, decoded, line)
        == DecodeFrom(text, |before| + |EscapeCharacter(c)|, decoded + [c], line)
  {
    var escaped := EscapeCharacter(c);
    var text, n := before + escaped + after, |before|;
    assert text[n] == escaped[0];
    if |escaped| > 1 {
      assert text[n + 1] == escaped[1];
    }
    if IsControl(c) && escaped == ['\\', 'u'] + Hex4(c as int) {
      HexRoundTrip(c as int, before + ['\\', 'u'], after);
      assert text == (before + ['\\', 'u']) + Hex4(c as int) + after;
    }
  }

  lemma {:induction false} DecodeEscaped(before: string, value: string, after: string, decoded: string, line: nat)
    ensures var text := before + Escape(value) + after;
      DecodeFrom(text, |before|, decoded, line)
        == DecodeFrom(text, |before| + |Escape(value)|, decoded + value, line)
    decreases |value|
  {
    hide DecodeFrom, EscapeCharacter;
    if value == [] {
      assert decoded + value == decoded;
    } else {
      var front, last := value[..|value| - 1], value[|value| - 1];
      var text := before + Escape(value) + after;
      DecodeEscaped(before, front, EscapeCharacter(last) + after, decoded, line);
      assert text == before + Escape(front) + (EscapeCharacter(last) + after);
      DecodeOne(before + Escape(front), last, after, decoded + front, line);
      assert text == (before + Escape(front)) + EscapeCharacter(last) + after;
      assert decoded + front + [last] == decoded + value;
    }
  }

  // Every value is read back from its own spelling.
  lemma LiteralRoundTrip(value: string, line: nat)
    ensures ParseValue(Literal(value), line) == Ok(value)
  {
    if IsBareLiteral(value) {
      BareAlphabet(value);
      assert value[0] in value && value[|value| - 1] in value;
      assert '#' !in value;
      TrimIdentity(value);
      assert StripComment(value) == value;
    } else {
      var text := BasicString(value);
      DecodeEscaped(['"'], value, ['"'], [], line);
      assert text[1 + |Escape(value)|] == '"';
      assert text[2 + |Escape(value)|..] == [];
      assert [] + value == value;
    }
  }

  lemma {:induction false} EscapeIsClean(value: string)
    ensures forall c :: c in Escape(value) ==> !IsControl(c)
    decreases |value|
  {
    if value != [] {
      EscapeIsClean(value[..|value| - 1]);
      assert forall c :: c in EscapeCharacter(value[|value| - 1]) ==> !IsControl(c);
    }
  }

  // A spelling holds no control character and is framed by non-blank characters.
  lemma LiteralShape(value: string)
    ensures var s := Literal(value);
      && s != [] && !IsWhitespace(s[0]) && !IsWhitespace(s[|s| - 1])
      && (forall c :: c in s ==> !IsControl(c))
  {
    if IsBareLiteral(value) {
      BareAlphabet(value);
      assert value[0] in value && value[|value| - 1] in value;
    } else {
      EscapeIsClean(value);
    }
  }
}
