# JSONFunctions in Dafny

This is a verified model of `net.pwall.json.JSONFunctions`. That class holds the small static helpers the
JSON library uses to write and read JSON text. The model covers four parts:

- **Decimal rendering.** `appendInt`, `appendPositiveInt`, `appendLong` and `appendPositiveLong` write an
  integer most-significant digit first, two digits per step. They read the digits from the `digits` and
  `tensDigits` tables. `Integer.MIN_VALUE` and `Long.MIN_VALUE` are written as literal strings.
- **String escaping.** `appendChar` applies the escaping rules of section 7 of RFC 8259 to one UTF-16 code
  unit. `appendString` wraps the escapes of every unit in quotation marks.
- **String unescaping.** `parseString` is a two-phase scanner over a text cursor. It starts with a zero-copy
  scan and switches to a buffered decoder at the first backslash. It fails with one of four messages.
- **Whitespace.** `isSpaceCharacter` is the "ws" set of section 2 of RFC 8259.

Representation:

- Text is a sequence of UTF-16 code units (`CodeUnits.CodeUnit`, an integer in 0..0xFFFF). Surrogates
  are ordinary units.
- An `Appendable` becomes the returned sequence.
- A `TextMatcher` becomes the pair (text, index). Reading a unit advances the index by one, and the unit's
  own index is its start.
- Integers are Dafny's unbounded integers, restricted to the Java ranges by the subset types
  `Decimal.Int32` and `Decimal.Int64`. No Java operation in the modelled code can overflow: the negation
  of a negative value happens only after `MIN_VALUE` has been handled, and the narrowing `(int)` casts at
  lines 152 and 157 apply to a value in 0..99 whenever the argument of `appendPositiveLong` is non-negative,
  as it is on every call from `appendLong`. Negative arguments to the two public "positive" helpers are
  not modelled (see "## Left out").

Modules:

- `Decimal`: tables, rendering, and the reference numeral `DecimalNumeral`.
- `EscapeTable`: named escapes and hex digits.
- `Escape`: appendChar and appendString.
- `Unescape`: parseString.
- `RoundTrip`: the escaper and the parser are inverse.
- `Whitespace`: isSpaceCharacter.
- `ExampleCases`: the unit tests' expectations, stated of the model.

The operations themselves are functions, and their properties are stated by the lemmas in the table
below: `Escape.Escaped` is the loop at JSONFunctions.java lines 177-178; `Unescape.ScanPlain` is the
zero-copy phase at lines 218-228; `Unescape.ParseEscape` is the escape decoding at lines 230-256;
`Unescape.ParseRaw` is the raw run at lines 257-268.

Line 197 is modelled exactly as written. Java groups `ch < 0x20 || ch >= 0x7F && !includeNonASCII` as
`ch < 0x20 || (ch >= 0x7F && !includeNonASCII)`. So with `includeNonASCII` set, DEL (0x7F) and the C1
controls 0x80..0x9F are written raw. The Javadoc at JSONFunctions.java lines 165-167 agrees: units above
0x7E are escaped unless includeNonASCII is set. The output stays valid JSON either way, since section 7 of
RFC 8259 requires escaping only the quotation mark, the reverse solidus and U+0000..U+001F.
`Escape.AppendChar` states both cases, and
`ExampleCases.AppendCharPlainCases` shows DEL passing through.

All source paths below are relative to the repository root. `JSONFunctions.java` means
`src/main/java/net/pwall/json/JSONFunctions.java`.

## Model

| member | source | states |
|---|---|---|
| Decimal.TablesCorrect | src/main/java/net/pwall/json/JSONFunctions.java:44-68 | Both tables have 100 entries. For every j in 0..99, `tensDigits[j]` is the digit j / 10 and `digits[j]` is the digit j % 10. |
| Decimal.DecimalNumeralDenotes | src/main/java/net/pwall/json/JSONFunctions.java:103-117 | The digit string the renderers produce for n is canonical (no leading zero except "0" itself), and its base-10 value is n. |
| Decimal.CanonicalNumeralUnique | src/main/java/net/pwall/json/JSONFunctions.java:103-117 | Any canonical digit string is the rendering of its own value. So the renderers' output is the only canonical numeral of n. |
| Decimal.AppendPositiveInt | src/main/java/net/pwall/json/JSONFunctions.java:103-117 | For every non-negative int, peeling two digits per recursive step through the tables emits exactly the decimal numeral of i. |
| Decimal.AppendPositiveLong | src/main/java/net/pwall/json/JSONFunctions.java:148-162 | For every non-negative long, the output is exactly the decimal numeral of n. |
| Decimal.IntMinLiteralCorrect | src/main/java/net/pwall/json/JSONFunctions.java:84-85 | The literal "-2147483648" is the signed decimal numeral of Integer.MIN_VALUE. |
| Decimal.LongMinLiteralCorrect | src/main/java/net/pwall/json/JSONFunctions.java:129-130 | The literal "-9223372036854775808" is the signed decimal numeral of Long.MIN_VALUE. |
| Decimal.AppendInt | src/main/java/net/pwall/json/JSONFunctions.java:82-93 | For every int, MIN_VALUE included: the output starts with '-' exactly when i < 0, and the rest is the canonical numeral whose value is the magnitude of i. |
| Decimal.AppendLong | src/main/java/net/pwall/json/JSONFunctions.java:127-138 | The same for every long, Long.MIN_VALUE included. |
| EscapeTable.HexDigit | src/main/java/net/pwall/json/JSONFunctions.java:70-72 | Entry k of `hexDigits` is an upper-case hex digit that a hex reader reads back as k. |
| Escape.HexEscape | src/main/java/net/pwall/json/JSONFunctions.java:197-203 | The hex escape is six units: a backslash, 'u', then four upper-case hex digits, most significant nibble first. The base-16 value of the four digits is ch. |
| Escape.AppendChar | src/main/java/net/pwall/json/JSONFunctions.java:182-206 | The decision table, as if-and-only-if clauses. A unit is written raw exactly when it is not a control unit, quote or backslash, and is below 0x7F or includeNonASCII is set. It gets a two-unit named escape exactly when it is one of the seven units " \ BS FF LF CR TAB; the escape letter reads back as ch. It gets the six-unit hex escape exactly when it is any other control unit, or is >= 0x7F without includeNonASCII. No output unit is a control unit, and without includeNonASCII every output unit is printable ASCII. |
| Escape.EscapedUnits | src/main/java/net/pwall/json/JSONFunctions.java:175-180 | The escaped body of a string holds no control unit. Without includeNonASCII it holds only 0x20..0x7E. |
| Escape.EscapedPlain | src/main/java/net/pwall/json/JSONFunctions.java:182-205 | A string of printable ASCII units other than the quote and the reverse solidus escapes to itself, with either flag. |
| Escape.EscapedConcat | src/main/java/net/pwall/json/JSONFunctions.java:177-178 | Escaping works unit by unit: the escape of a + b is the escape of a followed by the escape of b. |
| Escape.Quoted | src/main/java/net/pwall/json/JSONFunctions.java:175-180 | The literal begins and ends with a quotation mark. Its length is between 2 + n and 2 + 6n. Without includeNonASCII every unit is printable ASCII. |
| Escape.AppendString | src/main/java/net/pwall/json/JSONFunctions.java:175-180 | The loop writes a quote, then the escape of each unit of s in order, then a quote. |
| Unescape.MessagesDistinct | src/main/java/net/pwall/json/JSONFunctions.java:39-42 | The four error messages are pairwise different, so the message identifies the failure. |
| EscapeTable.UnescapeLetterMeaning | src/main/java/net/pwall/json/JSONFunctions.java:233-248 | Exactly the eight letters " \ / b f n r t have a named meaning. Each stands for the solidus or for a character the escaper writes with a named escape, and for a control character exactly when it is one of the five letters b f n r t. |
| Unescape.MatchHex4 | src/main/java/net/pwall/json/JSONFunctions.java:250-253 | The assumed hex matcher succeeds exactly when the next four units exist and are hex digits (0-9, a-f, A-F). It then yields their base-16 value as one code unit. |
| Unescape.ParseString | src/main/java/net/pwall/json/JSONFunctions.java:216-270 | On success the index is just past a closing quote. No control unit was consumed raw. The value is shorter than the consumed text. With no backslash in the content, the value is exactly the slice from the start index to the closing quote. |
| Unescape.ScanPlainShape | src/main/java/net/pwall/json/JSONFunctions.java:218-228 | The zero-copy phase succeeds only at a quote. It consumes no raw control unit, and it returns the plain slice when no backslash was met. |
| Unescape.ParseEscapeShape | src/main/java/net/pwall/json/JSONFunctions.java:230-256 | After a backslash, success keeps the buffer as a prefix and adds at least the one decoded unit. It adds fewer units than it consumes, and it ends just past a quote. |
| Unescape.ParseRawShape | src/main/java/net/pwall/json/JSONFunctions.java:257-268 | The raw run keeps the buffer as a prefix, adds fewer units than it consumes, ends just past a quote, and consumes no control unit. |
| Unescape.FastPathAgrees | src/main/java/net/pwall/json/JSONFunctions.java:218-229 | The zero-copy scan decides exactly what the buffered decoder decides when that decoder starts at the same place with the scanned units in its buffer. |
| Unescape.ParseStringIsBuffered | src/main/java/net/pwall/json/JSONFunctions.java:216-229 | parseString is the buffered decoder started at the start index with an empty buffer. |
| Unescape.RawRun | src/main/java/net/pwall/json/JSONFunctions.java:260-267 | A run of units that stand for themselves is appended to the buffer unchanged. |
| Unescape.FirstStopDecides | src/main/java/net/pwall/json/JSONFunctions.java:218-228 | The first unit that does not stand for itself decides the outcome: end of input gives "Unterminated"; a quote gives the slice and the index after the quote; a control unit gives "Illegal character"; a backslash hands the slice to the decoder. |
| Unescape.EscapeDecodes | src/main/java/net/pwall/json/JSONFunctions.java:230-256 | Escape decoding, one clause per letter: \" gives a quote, \\ a reverse solidus, \/ a solidus, \b BS, \f FF, \n LF, \r CR and \t TAB, each consuming two units. \u plus four hex digits decodes to the one unit of that value. \u without four hex digits is "Illegal Unicode sequence". Any other letter is "Illegal escape sequence". A backslash at the end of input is "Unterminated". |
| RoundTrip.AppendCharParses | src/main/java/net/pwall/json/JSONFunctions.java:182-206 | Whatever appendChar writes for c, the decoder reads back as exactly c, and it consumes exactly those units. |
| RoundTrip.EscapedParses | src/main/java/net/pwall/json/JSONFunctions.java:257-268 | The escaped units of s followed by a quote are decoded to s and stop just past that quote. |
| RoundTrip.AppendStringRoundTrip | src/main/java/net/pwall/json/JSONFunctions.java:175-180 | For every code-unit sequence s and either flag, parseString applied just after the opening quote of appendString's output gives back s. The index ends at the end of the literal, whatever text follows it. |
| Whitespace.IsSpaceCharacter | src/main/java/net/pwall/json/JSONFunctions.java:278-280 | A unit is whitespace exactly when it is the space or a control unit with a named escape other than BS and FF (that is, TAB, LF or CR). Whitespace lies in TAB..SPACE. Form feed and NUL are not whitespace. Every whitespace unit other than the space is a control unit with a named escape. |
| Whitespace.QuotedWhitespaceIsSpace | src/main/java/net/pwall/json/JSONFunctions.java:182-196 | The only whitespace that appendString writes is the space: tabs and line breaks leave as named escapes. |
| Whitespace.RawLineBreakRejected | src/main/java/net/pwall/json/JSONFunctions.java:226-227 | A raw tab, line feed or carriage return inside a string makes parseString fail with "Illegal character". |
| ExampleCases.IsSpaceCases | src/test/java/net/pwall/json/test/JSONFunctionsTest.java:43-50 | Space, tab, line feed and carriage return are whitespace; 'A', '0', form feed and NUL are not. |
| ExampleCases.AppendIntCases | src/test/java/net/pwall/json/test/JSONFunctionsTest.java:56-60 | appendInt(0) is "0" and appendInt(123456) is "123456". |
| ExampleCases.AppendCharPlainCases | src/test/java/net/pwall/json/test/JSONFunctionsTest.java:148-152 | 'A' is written raw and a tab as \t. DEL with includeNonASCII is written raw. |
| ExampleCases.AppendCharEmDashCases | src/test/java/net/pwall/json/test/JSONFunctionsTest.java:154-158 | U+2014 is written as the hex escape `\u2014` without includeNonASCII and raw with it. |
| ExampleCases.AppendCharDelCase | src/main/java/net/pwall/json/JSONFunctions.java:197 | DEL without includeNonASCII is written as `\u007F`. |
| ExampleCases.AppendStringCases | src/test/java/net/pwall/json/test/JSONFunctionsTest.java:129-136 | "" quotes to `""`, and "hello\n" quotes to `"hello\n"` with an escaped line feed. |
| ExampleCases.AppendStringHelloCase | src/test/java/net/pwall/json/test/JSONFunctionsTest.java:129-130 | "hello" quotes to `"hello"`. |
| ExampleCases.AppendStringEmDashCases | src/test/java/net/pwall/json/test/JSONFunctionsTest.java:138-142 | "mdash \u2014 \r\n" quotes to `"mdash \u2014 \r\n"` without includeNonASCII and keeps the em dash raw with it; CR and LF become named escapes in both. |
| ExampleCases.ParseSimpleCase | src/test/java/net/pwall/json/test/JSONFunctionsTest.java:174-177 | `"simple"` parses to simple, with the index at the end of the input. |
| ExampleCases.ParseNamedEscapesCase | src/test/java/net/pwall/json/test/JSONFunctionsTest.java:181-185 | `"tab\tnewline\nquote\" "` parses to "tab", TAB, "newline", LF, "quote", a quote and a space, with the index at the end of the input. |
| ExampleCases.ParseUnicodeEscapeCase | src/test/java/net/pwall/json/test/JSONFunctionsTest.java:190-193 | `"mdash \u2014"` parses to "mdash " followed by U+2014, with the index at the end of the input. |
| ExampleCases.ParseErrorCases | src/test/java/net/pwall/json/test/JSONFunctionsTest.java:197-228 | A missing closing quote, \c, \uxxxx and a raw U+0001 fail with the four expected errors. |

## Left out

- Appendable and IOException: output is a returned sequence, so failures of the output sink are not modelled.
- TextMatcher: its source is not part of this model. Its cursor operations (isAtEnd, nextChar, getStart,
  getIndex) are stated in terms of (text, index). matchHex(4, 4) followed by getResultHexInt is the
  assumption `Unescape.MatchHex4`: four hex digits in either case, read as base 16.
- Unescape.ParseString: phase one returns `tm.getString(start, tm.getStart())`. Whether that string
  shares storage with the input cannot be expressed here; only its value is modelled.
- append2Digits, append3Digits and displayString: these are called by the tests but are not defined in
  JSONFunctions.java, so they are not part of this model.
- Surrogate pairs: both the escaper and the parser treat every UTF-16 code unit on its own (lines 177-178
  and 253). The model does the same and says nothing about Unicode scalar values.
- Decimal.AppendPositiveInt: requires a non-negative argument. The Java method is public, and on a negative
  int it reaches `digits[i]` with a negative index at line 116 and throws ArrayIndexOutOfBoundsException;
  that failure is not modelled. `appendInt` never passes a negative value.
- Decimal.AppendPositiveLong: requires a non-negative argument. On a negative long the `(int)` cast at
  line 157 decides what the Java method does: a negative result throws ArrayIndexOutOfBoundsException at
  line 160 (for example -5); a result of 100 or more throws it at line 159 (for example -4294967196, which
  casts to 100); a result in 0..99 writes wrong digits (Long.MIN_VALUE writes "0", -4294967295 writes "1").
  None of these outcomes is modelled. `appendLong` never passes a negative value.
- The long-valued test cases (JSONFunctionsTest.java lines 75-94) and the remaining int test cases
  (lines 62-69) are not restated one by one. `Decimal.AppendLong` and `Decimal.AppendInt` cover every
  value, and the MIN_VALUE literals have their own lemmas.
