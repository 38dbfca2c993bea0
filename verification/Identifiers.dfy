// The shared ASCII identifier policy (crates/obs-rs-util/src/lib.rs).
module Identifiers {
  import opened Results

  const MAX_IDENTIFIER_BYTES := 64

  datatype IdentifierError = Empty | TooLong | InvalidFirstCharacter | InvalidCharacter

  // The UTF-8 length of a character, and of a text.
  function Utf8Length(c: char): nat {
    if c as int < 0x80 then 1 else if c as int < 0x800 then 2 else if c as int < 0x1_0000 then 3 else 4
  }

  function ByteLength(s: string): nat {
    if s == [] then 0 else Utf8Length(s[0]) + ByteLength(s[1..])
  }

  predicate IsAsciiLetter(c: char) { 'a' <= c <= 'z' || 'A' <= c <= 'Z' }

  predicate IsAsciiDigit(c: char) { '0' <= c <= '9' }

  predicate IsIdentifierStart(c: char) { IsAsciiLetter(c) || c == '_' }

  predicate IsIdentifierContinue(c: char) { IsAsciiLetter(c) || IsAsciiDigit(c) || c == '_' || c == '-' }

  // None when `text` is an identifier. A non-ASCII character fails at its first byte.
  function IdentifierProblem(text: string): Option<IdentifierError> {
    if text == [] then Some(Empty)
    else if ByteLength(text) > MAX_IDENTIFIER_BYTES then Some(TooLong)
    else if !IsIdentifierStart(text[0]) then Some(InvalidFirstCharacter)
    else if exists i :: 1 <= i < |text| && !IsIdentifierContinue(text[i]) then Some(InvalidCharacter)
    else None
  }

  predicate IsIdentifier(text: string) {
    IdentifierProblem(text).None?
  }

  // An identifier never contains whitespace, a separator, a comment or a table marker.
  lemma IdentifierAlphabet(text: string)
    requires IsIdentifier(text)
    ensures text != [] && IsIdentifierStart(text[0])
    ensures forall c :: c in text ==> IsIdentifierContinue(c)
  {
  }

  lemma {:induction false} AsciiByteLength(s: string)
    requires forall i :: 0 <= i < |s| ==> s[i] as int < 0x80
    ensures ByteLength(s) == |s|
    decreases s
  {
    if s != [] {
      AsciiByteLength(s[1..]);
    }
  }

  lemma {:induction false} ByteLengthAtLeast(s: string)
    ensures ByteLength(s) >= |s|
    decreases s
  {
    if s != [] {
      ByteLengthAtLeast(s[1..]);
    }
  }

  // Exactly the names of 1 to 64 ASCII letters, digits, underscores and hyphens that start with a
  // letter or an underscore.
  lemma IdentifiersExactly(text: string)
    ensures IsIdentifier(text) <==>
      && 1 <= |text| <= 64
      && ('a' <= text[0] <= 'z' || 'A' <= text[0] <= 'Z' || text[0] == '_')
      && forall c :: c in text ==> 'a' <= c <= 'z' || 'A' <= c <= 'Z' || '0' <= c <= '9' || c == '_' || c == '-'
  {
    hide ByteLength;
    ByteLengthAtLeast(text);
    if forall c :: c in text ==> 'a' <= c <= 'z' || 'A' <= c <= 'Z' || '0' <= c <= '9' || c == '_' || c == '-' {
      assert forall i :: 0 <= i < |text| ==> text[i] in text;
      AsciiByteLength(text);
    }
    if IsIdentifier(text) {
      IdentifierAlphabet(text);
    }
  }
}
