/**
  The two tables shared by the escaper and the unescaper: the named escapes
  of section 7 of RFC 8259 and the hexadecimal digits of a \uXXXX escape.
 */
module EscapeTable {
  import opened CodeUnits

  /** The upper-case alphabet the escaper writes (JSONFunctions.hexDigits). */
  const HexDigits: string := "0123456789ABCDEF"

  /**
    A unit the string grammar allows to stand for itself between the quotes:
    not a control character, not a quotation mark, not a reverse solidus.
   */
  predicate IsUnescaped(c: int) {
    c >= 0x20 && c != QUOTE && c != BACKSLASH
  }

  /** The seven characters that have a two-unit named escape. */
  predicate HasNamedEscape(c: int) {
    c == QUOTE || c == BACKSLASH || c == BS || c == FF || c == LF || c == CR || c == TAB
  }

  /** A digit of the upper-case hex alphabet: 0-9 or A-F. */
  predicate IsUpperHexDigit(c: int) {
    IsDecimalDigit(c) || 0x41 <= c <= 0x46
  }

  /**
    The value of one hexadecimal digit as the cursor's hex matcher reads it:
    0-9, a-f and A-F; anything else is not a hex digit.
   */
  function HexDigitValue(c: int): (r: Option<int>)
    ensures r.Some? ==> 0 <= r.value < 16
    ensures r.Some? <==> IsDecimalDigit(c) || 0x61 <= c <= 0x66 || IsUpperHexDigit(c)
  {
    if ZERO <= c <= ZERO + 9 then Some(c - ZERO)
    else if 0x61 <= c <= 0x66 then Some(c - 0x61 + 10)
    else if 0x41 <= c <= 0x46 then Some(c - 0x41 + 10)
    else None
  }

  /** Entry k of the hex alphabet: an upper-case digit the matcher reads back as k. */
  function HexDigit(k: int): (r: CodeUnit)
    requires 0 <= k < 16
    ensures IsUpperHexDigit(r)
    ensures HexDigitValue(r) == Some(k)
  {
    HexDigits[k] as int
  }

  /** The value of four hex digits, most significant first, if all four are digits. */
  function HexQuad(d: Text): (r: Option<CodeUnit>)
    requires |d| == 4
    ensures r.Some? <==> forall k | 0 <= k < 4 :: HexDigitValue(d[k]).Some?
  {
    var a, b, c, e := HexDigitValue(d[0]), HexDigitValue(d[1]), HexDigitValue(d[2]), HexDigitValue(d[3]);
    if a.Some? && b.Some? && c.Some? && e.Some? then
      Some(a.value * 0x1000 + b.value * 0x100 + c.value * 0x10 + e.value)
    else
      None
  }

  /**
    The character a named escape letter stands for, in the unescaper's order:
    " \ / b f n r t. The letter u and every other unit have no named meaning.
   */
  function UnescapeLetter(c: int): Option<CodeUnit> {
    if c == QUOTE then Some(QUOTE)
    else if c == BACKSLASH then Some(BACKSLASH)
    else if c == SLASH then Some(SLASH)
    else if c == LETTER_B then Some(BS)
    else if c == LETTER_F then Some(FF)
    else if c == LETTER_N then Some(LF)
    else if c == LETTER_R then Some(CR)
    else if c == LETTER_T then Some(TAB)
    else None
  }

  /**
    Exactly the eight letters " \ / b f n r t have a named meaning. Each
    stands for the solidus or for one of the seven characters the escaper
    writes with a named escape, and for a control character exactly when it
    is a letter rather than the quote or the reverse solidus.
   */
  lemma UnescapeLetterMeaning(c: int)
    ensures UnescapeLetter(c).Some? <==> c in {QUOTE, BACKSLASH, SLASH, LETTER_B, LETTER_F, LETTER_N, LETTER_R, LETTER_T}
    ensures UnescapeLetter(c).Some? ==> UnescapeLetter(c).value == SLASH || HasNamedEscape(UnescapeLetter(c).value)
    ensures UnescapeLetter(c).Some? && c != SLASH ==> (UnescapeLetter(c).value < 0x20 <==> c != QUOTE && c != BACKSLASH)
  {
  }
}
