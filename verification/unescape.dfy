/**
  The JSON string unescaper (JSONFunctions.parseString). The cursor over the
  input is the pair (text, index); reading a unit advances the index by one and
  the index of the unit just read is its start.

  The hexadecimal matcher of the cursor is not part of this model; it is
  assumed to behave as MatchHex4 states: it succeeds when the next four units
  exist and are hex digits (0-9, a-f, A-F) and then yields their base-16 value.
 */
module Unescape {
  import opened CodeUnits
  import opened EscapeTable

  /** The four ways a parse fails, each with its fixed message. */
  datatype ParseError =
    | UnterminatedString
    | IllegalCharacter
    | IllegalUnicodeSequence
    | IllegalEscapeSequence

  function Message(e: ParseError): string {
    match e
    case UnterminatedString => "Unterminated JSON string"
    case IllegalCharacter => "Illegal character in JSON string"
    case IllegalUnicodeSequence => "Illegal Unicode sequence in JSON string"
    case IllegalEscapeSequence => "Illegal escape sequence in JSON string"
  }

  /** The message alone tells the four failures apart. */
  lemma MessagesDistinct(e1: ParseError, e2: ParseError)
    ensures Message(e1) == Message(e2) ==> e1 == e2
  {
    if e1 != e2 {
      assert |Message(e1)| != |Message(e2)|;
    }
  }

  /** The decoded string and the index just past its closing quote, or the failure. */
  datatype ParseResult = Success(value: Text, index: nat) | Error(error: ParseError)

  /** matchHex(4, 4) followed by getResultHexInt at index i. */
  function MatchHex4(text: Text, i: nat): (r: Option<CodeUnit>)
    ensures r.Some? <==> i + 4 <= |text| && forall k | i <= k < i + 4 :: HexDigitValue(text[k]).Some?
    ensures r.Some? ==> HexQuad(text[i..i + 4]) == r
  {
    if i + 4 <= |text| then
      var quad := text[i..i + 4];
      assert forall k | i <= k < i + 4 :: text[k] == quad[k - i];
      HexQuad(quad)
    else
      None
  }

  /** Every unit of text[lo..hi] is a unit the grammar allows to stand for itself. */
  ghost predicate AllUnescaped(text: Text, lo: int, hi: int)
    requires 0 <= lo <= hi <= |text|
  {
    forall k | lo <= k < hi :: IsUnescaped(text[k])
  }

  /**
    parseString with the cursor at start, just after the opening quote. The
    first phase scans without copying; at the first backslash it hands the
    units scanned so far to the buffering phase.
   */
  function ParseString(text: Text, start: nat): (r: ParseResult)
    ensures r.Success? ==> start < r.index <= |text| && text[r.index - 1] == QUOTE
    ensures r.Success? ==> |r.value| < r.index - start
    ensures r.Success? ==> forall k | start <= k < r.index - 1 :: text[k] >= 0x20
    ensures r.Success? && BACKSLASH !in text[start..r.index - 1] ==> r.value == text[start..r.index - 1]
  {
    ScanPlainShape(text, start, start);
    ScanPlain(text, start, start)
  }

  /**
    The zero-copy phase (JSONFunctions.java lines 218-228): text[start..i] has
    been scanned and holds no quote, backslash or control unit.
   */
  function ScanPlain(text: Text, start: nat, i: nat): ParseResult
    requires start <= i
    decreases |text| - i
  {
    if i >= |text| then
      Error(UnterminatedString)
    else
      var ch := text[i];
      if ch == QUOTE then
        Success(text[start..i], i + 1)
      else if ch == BACKSLASH then
        ParseEscape(text, i + 1, text[start..i])
      else if ch < 0x20 then
        Error(IllegalCharacter)
      else
        ScanPlain(text, start, i + 1)
  }

  /**
    The buffering phase, just after a backslash at i - 1 (lines 231-256): the
    unit at i selects the decoded character; \u takes four hex digits.
   */
  function ParseEscape(text: Text, i: nat, acc: Text): ParseResult
    decreases |text| - i, 1
  {
    if i >= |text| then
      Error(UnterminatedString)
    else
      var ch := text[i];
      match UnescapeLetter(ch)
      case Some(c) => ParseRaw(text, i + 1, acc + [c])
      case None =>
        if ch == LETTER_U then
          match MatchHex4(text, i + 1)
          case Some(v) => ParseRaw(text, i + 5, acc + [v])
          case None => Error(IllegalUnicodeSequence)
        else
          Error(IllegalEscapeSequence)
  }

  /**
    The raw run after an escape (lines 257-268): units go to the buffer until
    a quote ends the string or a backslash starts the next escape.
   */
  function ParseRaw(text: Text, i: nat, acc: Text): ParseResult
    decreases |text| - i, 0
  {
    if i >= |text| then
      Error(UnterminatedString)
    else
      var ch := text[i];
      if ch == QUOTE then
        Success(acc, i + 1)
      else if ch == BACKSLASH then
        ParseEscape(text, i + 1, acc)
      else if ch < 0x20 then
        Error(IllegalCharacter)
      else
        ParseRaw(text, i + 1, acc + [ch])
  }

  /**
    A successful buffered parse from i ends just past a quote, keeps what the
    buffer held as a prefix of its value, adds fewer units than it consumes
    (every escape is longer than the unit it stands for), and never consumed
    a control unit.
   */
  lemma {:induction false} ParseRawShape(text: Text, i: nat, acc: Text)
    ensures var r := ParseRaw(text, i, acc);
      r.Success? ==>
        && i < r.index <= |text| && text[r.index - 1] == QUOTE
        && |acc| <= |r.value| && r.value[..|acc|] == acc
        && |r.value| - |acc| < r.index - i
        && forall k | i <= k < r.index - 1 :: text[k] >= 0x20
    decreases |text| - i, 0
  {
    if i < |text| {
      var ch := text[i];
      if ch == BACKSLASH {
        ParseEscapeShape(text, i + 1, acc);
      } else if ch != QUOTE && ch >= 0x20 {
        ParseRawShape(text, i + 1, acc + [ch]);
        var r := ParseRaw(text, i + 1, acc + [ch]);
        if r.Success? {
          assert r.value[..|acc|] == (acc + [ch])[..|acc|];
        }
      }
    }
  }

  /** ParseRawShape for the state just after a backslash; the escape adds one unit. */
  lemma {:induction false} ParseEscapeShape(text: Text, i: nat, acc: Text)
    ensures var r := ParseEscape(text, i, acc);
      r.Success? ==>
        && i < r.index <= |text| && text[r.index - 1] == QUOTE
        && |acc| < |r.value| && r.value[..|acc|] == acc
        && |r.value| - |acc| < r.index - i
        && forall k | i <= k < r.index - 1 :: text[k] >= 0x20
    decreases |text| - i, 1
  {
    if i < |text| {
      var ch := text[i];
      match UnescapeLetter(ch)
      case Some(c) =>
        ParseRawShape(text, i + 1, acc + [c]);
        var r := ParseRaw(text, i + 1, acc + [c]);
        if r.Success? {
          assert r.value[..|acc|] == (acc + [c])[..|acc|];
        }
      case None =>
        if ch == LETTER_U && MatchHex4(text, i + 1).Some? {
          var v := MatchHex4(text, i + 1).value;
          ParseRawShape(text, i + 5, acc + [v]);
          var r := ParseRaw(text, i + 5, acc + [v]);
          if r.Success? {
            assert r.value[..|acc|] == (acc + [v])[..|acc|];
          }
        }
    }
  }

  /**
    ParseRawShape for the zero-copy phase; besides, when no backslash was
    consumed the value is exactly the slice before the closing quote.
   */
  lemma {:induction false} ScanPlainShape(text: Text, start: nat, i: nat)
    requires start <= i
    ensures var r := ScanPlain(text, start, i);
      r.Success? ==>
        && i < r.index <= |text| && text[r.index - 1] == QUOTE
        && |r.value| < r.index - start
        && (forall k | i <= k < r.index - 1 :: text[k] >= 0x20)
        && (BACKSLASH !in text[i..r.index - 1] ==> r.value == text[start..r.index - 1])
    decreases |text| - i
  {
    if i < |text| {
      var ch := text[i];
      if ch == BACKSLASH {
        ParseEscapeShape(text, i + 1, text[start..i]);
        var r := ScanPlain(text, start, i);
        if r.Success? {
          assert text[i..r.index - 1][0] == BACKSLASH;
        }
      } else if ch != QUOTE && ch >= 0x20 {
        ScanPlainShape(text, start, i + 1);
        var r := ScanPlain(text, start, i);
        if r.Success? && BACKSLASH !in text[i..r.index - 1] {
          assert text[i + 1..r.index - 1] == text[i..r.index - 1][1..];
        }
      }
    }
  }

  /**
    The zero-copy phase decides exactly what the buffering phase would decide
    had it started at the same place with the scanned units in its buffer.
   */
  lemma {:induction false} FastPathAgrees(text: Text, start: nat, i: nat)
    requires start <= i <= |text|
    ensures ScanPlain(text, start, i) == ParseRaw(text, i, text[start..i])
    decreases |text| - i
  {
    if i < |text| && text[i] != QUOTE && text[i] != BACKSLASH && text[i] >= 0x20 {
      FastPathAgrees(text, start, i + 1);
      assert text[start..i] + [text[i]] == text[start..i + 1];
    }
  }

  /** parseString is the buffering loop started with an empty buffer. */
  lemma ParseStringIsBuffered(text: Text, start: nat)
    ensures ParseString(text, start) == ParseRaw(text, start, [])
  {
    if start <= |text| {
      FastPathAgrees(text, start, start);
      assert text[start..start] == [];
    }
  }

  /** A run of units that stand for themselves is copied to the buffer unchanged. */
  lemma {:induction false} RawRun(text: Text, i: nat, j: nat, acc: Text)
    requires i <= j <= |text| && AllUnescaped(text, i, j)
    ensures ParseRaw(text, i, acc) == ParseRaw(text, j, acc + text[i..j])
    decreases j - i
  {
    if i == j {
      assert acc + text[i..j] == acc;
    } else {
      RawRun(text, i + 1, j, acc + [text[i]]);
      assert acc + [text[i]] + text[i + 1..j] == acc + text[i..j];
    }
  }

  /**
    The first unit at or after start that does not stand for itself decides
    the outcome of parseString: the end of the input, a quote (the content is
    the slice before it), a control unit, or a backslash that starts an escape.
   */
  lemma FirstStopDecides(text: Text, start: nat, j: nat)
    requires start <= j <= |text| && AllUnescaped(text, start, j)
    ensures j == |text| ==> ParseString(text, start) == Error(UnterminatedString)
    ensures j < |text| && text[j] == QUOTE ==> ParseString(text, start) == Success(text[start..j], j + 1)
    ensures j < |text| && text[j] < 0x20 ==> ParseString(text, start) == Error(IllegalCharacter)
    ensures j < |text| && text[j] == BACKSLASH ==> ParseString(text, start) == ParseRaw(text, j, text[start..j])
  {
    ParseStringIsBuffered(text, start);
    RawRun(text, start, j, []);
    assert [] + text[start..j] == text[start..j];
  }

  /**
    A backslash in the buffering phase: each of the eight named escape letters
    decodes to its character, \u and four hex digits to the single unit of
    that value; the other cases fail with the message JSONFunctions.parseString
    throws.
   */
  lemma EscapeDecodes(text: Text, i: nat, acc: Text)
    requires i < |text| && text[i] == BACKSLASH
    ensures i + 1 == |text| ==> ParseRaw(text, i, acc) == Error(UnterminatedString)
    ensures i + 1 < |text| && text[i + 1] == QUOTE ==> ParseRaw(text, i, acc) == ParseRaw(text, i + 2, acc + [QUOTE])
    ensures i + 1 < |text| && text[i + 1] == BACKSLASH ==> ParseRaw(text, i, acc) == ParseRaw(text, i + 2, acc + [BACKSLASH])
    ensures i + 1 < |text| && text[i + 1] == SLASH ==> ParseRaw(text, i, acc) == ParseRaw(text, i + 2, acc + [SLASH])
    ensures i + 1 < |text| && text[i + 1] == LETTER_B ==> ParseRaw(text, i, acc) == ParseRaw(text, i + 2, acc + [BS])
    ensures i + 1 < |text| && text[i + 1] == LETTER_F ==> ParseRaw(text, i, acc) == ParseRaw(text, i + 2, acc + [FF])
    ensures i + 1 < |text| && text[i + 1] == LETTER_N ==> ParseRaw(text, i, acc) == ParseRaw(text, i + 2, acc + [LF])
    ensures i + 1 < |text| && text[i + 1] == LETTER_R ==> ParseRaw(text, i, acc) == ParseRaw(text, i + 2, acc + [CR])
    ensures i + 1 < |text| && text[i + 1] == LETTER_T ==> ParseRaw(text, i, acc) == ParseRaw(text, i + 2, acc + [TAB])
    ensures i + 1 < |text| && text[i + 1] == LETTER_U && MatchHex4(text, i + 2).Some? ==>
      ParseRaw(text, i, acc) == ParseRaw(text, i + 6, acc + [MatchHex4(text, i + 2).value])
    ensures i + 1 < |text| && text[i + 1] == LETTER_U && MatchHex4(text, i + 2).None? ==>
      ParseRaw(text, i, acc) == Error(IllegalUnicodeSequence)
    ensures i + 1 < |text| && text[i + 1] !in {QUOTE, BACKSLASH, SLASH, LETTER_B, LETTER_F, LETTER_N, LETTER_R, LETTER_T, LETTER_U}
      ==> ParseRaw(text, i, acc) == Error(IllegalEscapeSequence)
  {
  }
}
