/**
  The behaviour JSONFunctionsTest expects, stated of the model: concrete
  inputs with the exact output or failure the test asserts.
 */
module ExampleCases {
  import opened CodeUnits
  import opened Decimal
  import opened EscapeTable
  import opened Escape
  import opened Unescape
  import opened Whitespace

  const EM_DASH: CodeUnit := 0x2014
  const DEL: CodeUnit := 0x7F

  /** appendInt of 0 and of 123456. */
  lemma AppendIntCases()
    ensures AppendInt(0) == Ascii("0")
    ensures AppendInt(123456) == Ascii("123456")
  {
    assert DecimalNumeral(12) == [ZERO + 1, ZERO + 2];
    assert DecimalNumeral(1234) == [ZERO + 1, ZERO + 2, ZERO + 3, ZERO + 4] by { DecimalStep(1234); }
    assert DecimalNumeral(123456) == [ZERO + 1, ZERO + 2, ZERO + 3, ZERO + 4, ZERO + 5, ZERO + 6] by { DecimalStep(123456); }
  }

  /** isSpaceCharacter of the eight characters the test asks about. */
  lemma IsSpaceCases()
    ensures IsSpaceCharacter(SPACE) && IsSpaceCharacter(TAB) && IsSpaceCharacter(LF) && IsSpaceCharacter(CR)
    ensures !IsSpaceCharacter(0x41) && !IsSpaceCharacter(ZERO) && !IsSpaceCharacter(FF) && !IsSpaceCharacter(NUL)
  {
  }

  /** appendChar of 'A' and of a tab, and of DEL with includeNonASCII set, which passes it raw. */
  lemma AppendCharPlainCases()
    ensures AppendChar(0x41, false) == [0x41]
    ensures AppendChar(TAB, false) == [BACKSLASH, LETTER_T]
    ensures AppendChar(DEL, true) == [DEL]
  {
  }

  /** appendChar of the em dash with and without includeNonASCII. */
  lemma AppendCharEmDashCases()
    ensures AppendChar(EM_DASH, false) == [BACKSLASH, LETTER_U, ZERO + 2, ZERO, ZERO + 1, ZERO + 4]
    ensures AppendChar(EM_DASH, true) == [EM_DASH]
  {
    assert HexDigit(2) == ZERO + 2 && HexDigit(0) == ZERO && HexDigit(1) == ZERO + 1 && HexDigit(4) == ZERO + 4;
  }

  /** appendChar of DEL without includeNonASCII: a hex escape. */
  lemma AppendCharDelCase()
    ensures AppendChar(DEL, false) == [BACKSLASH, LETTER_U, ZERO, ZERO, ZERO + 7, 0x46]
  {
    assert HexDigit(0) == ZERO && HexDigit(7) == ZERO + 7 && HexDigit(15) == 0x46;
  }

  /** The last three units of "hello\n" escaped: "lo\\n". */
  lemma EscapedLoCase()
    ensures Escaped([0x6C, 0x6F, LF], false) == [0x6C, 0x6F, BACKSLASH, LETTER_N]
  {
    assert Escaped([LF], false) == [BACKSLASH, LETTER_N];
    assert Escaped([0x6F, LF], false) == [0x6F, BACKSLASH, LETTER_N] by {
      assert [0x6F, LF][1..] == [LF];
    }
    assert [0x6C, 0x6F, LF][1..] == [0x6F, LF];
  }

  /** appendString of "" and of "hello\n" without includeNonASCII. */
  lemma AppendStringCases()
    ensures Quoted([], false) == [QUOTE, QUOTE]
    ensures Quoted([0x68, 0x65, 0x6C, 0x6C, 0x6F, LF], false)
      == [QUOTE, 0x68, 0x65, 0x6C, 0x6C, 0x6F, BACKSLASH, LETTER_N, QUOTE]
  {
    EscapedLoCase();
    assert Escaped([0x6C, 0x6C, 0x6F, LF], false) == [0x6C, 0x6C, 0x6F, BACKSLASH, LETTER_N] by {
      assert [0x6C, 0x6C, 0x6F, LF][1..] == [0x6C, 0x6F, LF];
    }
    assert Escaped([0x65, 0x6C, 0x6C, 0x6F, LF], false) == [0x65, 0x6C, 0x6C, 0x6F, BACKSLASH, LETTER_N] by {
      assert [0x65, 0x6C, 0x6C, 0x6F, LF][1..] == [0x6C, 0x6C, 0x6F, LF];
    }
    assert Escaped([0x68, 0x65, 0x6C, 0x6C, 0x6F, LF], false) == [0x68, 0x65, 0x6C, 0x6C, 0x6F, BACKSLASH, LETTER_N] by {
      assert [0x68, 0x65, 0x6C, 0x6C, 0x6F, LF][1..] == [0x65, 0x6C, 0x6C, 0x6F, LF];
    }
  }

  /** appendString of "hello": plain printable ASCII is copied between the quotes. */
  lemma AppendStringHelloCase()
    ensures Quoted(Ascii("hello"), false) == [QUOTE] + Ascii("hello") + [QUOTE]
  {
    EscapedPlain(Ascii("hello"), false);
  }

  /** The escaped form of a space, a carriage return and a line feed. */
  lemma EscapedSpaceCrLf(includeNonASCII: bool)
    ensures Escaped([SPACE, CR, LF], includeNonASCII) == [SPACE, BACKSLASH, LETTER_R, BACKSLASH, LETTER_N]
  {
    assert [SPACE, CR, LF][1..] == [CR, LF];
    assert [CR, LF][1..] == [LF];
    assert Escaped([LF], includeNonASCII) == [BACKSLASH, LETTER_N];
  }

  /** "mdash " as code units. */
  const MDASH: Text := [0x6D, 0x64, 0x61, 0x73, 0x68, SPACE]

  /** "mdash " is printable ASCII without quotes or backslashes, so it escapes to itself. */
  lemma EscapedMdash(includeNonASCII: bool)
    ensures Escaped(MDASH, includeNonASCII) == MDASH
  {
    EscapedPlain(MDASH, includeNonASCII);
  }

  /** The escaped form of the em dash, a space, a carriage return and a line feed. */
  lemma EscapedEmDashTail(includeNonASCII: bool)
    ensures Escaped([EM_DASH, SPACE, CR, LF], includeNonASCII)
      == AppendChar(EM_DASH, includeNonASCII) + [SPACE, BACKSLASH, LETTER_R, BACKSLASH, LETTER_N]
  {
    assert [EM_DASH, SPACE, CR, LF][1..] == [SPACE, CR, LF];
    EscapedSpaceCrLf(includeNonASCII);
  }

  /** The escaped form of "mdash \u2014 \r\n": only the em dash depends on the flag. */
  lemma EscapedEmDashLine(includeNonASCII: bool)
    ensures Escaped(MDASH + [EM_DASH, SPACE, CR, LF], includeNonASCII)
      == MDASH + AppendChar(EM_DASH, includeNonASCII) + [SPACE, BACKSLASH, LETTER_R, BACKSLASH, LETTER_N]
  {
    EscapedMdash(includeNonASCII);
    EscapedEmDashTail(includeNonASCII);
    EscapedConcat(MDASH, [EM_DASH, SPACE, CR, LF], includeNonASCII);
  }

  /** appendString of "mdash \u2014 \r\n" without and with includeNonASCII. */
  lemma AppendStringEmDashCases()
    ensures Quoted(MDASH + [EM_DASH, SPACE, CR, LF], false)
      == [QUOTE] + MDASH + [BACKSLASH, LETTER_U, ZERO + 2, ZERO, ZERO + 1, ZERO + 4]
         + [SPACE, BACKSLASH, LETTER_R, BACKSLASH, LETTER_N, QUOTE]
    ensures Quoted(MDASH + [EM_DASH, SPACE, CR, LF], true)
      == [QUOTE] + MDASH + [EM_DASH, SPACE, BACKSLASH, LETTER_R, BACKSLASH, LETTER_N, QUOTE]
  {
    AppendCharEmDashCases();
    EscapedEmDashLine(false);
    EscapedEmDashLine(true);
  }

  /** "simple" parses to its content, with the cursor at the end of the input. */
  lemma ParseSimpleCase()
    ensures ParseString(Ascii("\"simple\""), 1) == Success(Ascii("simple"), 8)
  {
    var text := Ascii("\"simple\"");
    FirstStopDecides(text, 1, 7);
    assert text[1..7] == Ascii("simple");
  }

  /** "mdash \u2014" parses to the text with the em dash, the cursor at the end. */
  lemma ParseUnicodeEscapeCase()
    ensures ParseString(Ascii("\"mdash \\u2014\""), 1) == Success(Ascii("mdash ") + [EM_DASH], 14)
  {
    var text := Ascii("\"mdash \\u2014\"");
    FirstStopDecides(text, 1, 7);
    EscapeDecodes(text, 7, text[1..7]);
    assert text[9..13] == Ascii("2014");
    assert text[1..7] == Ascii("mdash ");
  }

  /**
    The test input "tab\tnewline\nquote\" " with its quotes, as code units:
    the quote at 0, "tab" at 1..3, \t at 4, "newline" at 6..12, \n at 13,
    "quote" at 15..19, \" at 20, a space at 22 and the closing quote at 23.
   */
  const NAMED_ESCAPES_TEXT: Text :=
    [QUOTE, 0x74, 0x61, 0x62, BACKSLASH, LETTER_T, 0x6E, 0x65, 0x77, 0x6C, 0x69, 0x6E, 0x65,
     BACKSLASH, LETTER_N, 0x71, 0x75, 0x6F, 0x74, 0x65, BACKSLASH, QUOTE, SPACE, QUOTE]

  lemma NamedEscapesTab()
    ensures ParseString(NAMED_ESCAPES_TEXT, 1) == ParseRaw(NAMED_ESCAPES_TEXT, 6, [0x74, 0x61, 0x62, TAB])
  {
    var text := NAMED_ESCAPES_TEXT;
    assert text[1..4] == [0x74, 0x61, 0x62] by {
      assert text[1] == 0x74 && text[2] == 0x61 && text[3] == 0x62;
    }
    FirstStopDecides(text, 1, 4);
    EscapeDecodes(text, 4, [0x74, 0x61, 0x62]);
    assert [0x74, 0x61, 0x62] + [TAB] == [0x74, 0x61, 0x62, TAB];
  }

  lemma NamedEscapesNewline(acc: Text)
    ensures ParseRaw(NAMED_ESCAPES_TEXT, 6, acc)
      == ParseRaw(NAMED_ESCAPES_TEXT, 15, acc + [0x6E, 0x65, 0x77, 0x6C, 0x69, 0x6E, 0x65, LF])
  {
    var text := NAMED_ESCAPES_TEXT;
    var word := text[6..13];
    assert word == [0x6E, 0x65, 0x77, 0x6C, 0x69, 0x6E, 0x65];
    RawRun(text, 6, 13, acc);
    EscapeDecodes(text, 13, acc + word);
    assert acc + word + [LF] == acc + [0x6E, 0x65, 0x77, 0x6C, 0x69, 0x6E, 0x65, LF];
  }

  lemma NamedEscapesQuote(acc: Text)
    ensures ParseRaw(NAMED_ESCAPES_TEXT, 15, acc)
      == ParseRaw(NAMED_ESCAPES_TEXT, 22, acc + [0x71, 0x75, 0x6F, 0x74, 0x65, QUOTE])
  {
    var text := NAMED_ESCAPES_TEXT;
    var word := text[15..20];
    assert word == [0x71, 0x75, 0x6F, 0x74, 0x65];
    RawRun(text, 15, 20, acc);
    EscapeDecodes(text, 20, acc + word);
    assert acc + word + [QUOTE] == acc + [0x71, 0x75, 0x6F, 0x74, 0x65, QUOTE];
  }

  lemma NamedEscapesEnd(acc: Text)
    ensures ParseRaw(NAMED_ESCAPES_TEXT, 22, acc) == Success(acc + [SPACE], 24)
  {
    var text := NAMED_ESCAPES_TEXT;
    assert text[22] == SPACE && text[23] == QUOTE && |text| == 24;
  }

  /** The named escapes \t, \n and \" decode to a tab, a line feed and a quote. */
  lemma ParseNamedEscapesCase()
    ensures ParseString(NAMED_ESCAPES_TEXT, 1)
      == Success([0x74, 0x61, 0x62, TAB] + [0x6E, 0x65, 0x77, 0x6C, 0x69, 0x6E, 0x65, LF]
                 + [0x71, 0x75, 0x6F, 0x74, 0x65, QUOTE] + [SPACE], 24)
  {
    var a2: Text := [0x74, 0x61, 0x62, TAB];
    var a4 := a2 + [0x6E, 0x65, 0x77, 0x6C, 0x69, 0x6E, 0x65, LF];
    var a6 := a4 + [0x71, 0x75, 0x6F, 0x74, 0x65, QUOTE];
    NamedEscapesTab();
    NamedEscapesNewline(a2);
    NamedEscapesQuote(a4);
    NamedEscapesEnd(a6);
  }

  /** The four failures of the test suite, each with its message. */
  lemma ParseErrorCases()
    ensures ParseString(Ascii("\"abc"), 1) == Error(UnterminatedString)
    ensures ParseString(Ascii("\"ab\\c\""), 1) == Error(IllegalEscapeSequence)
    ensures ParseString(Ascii("\"ab\\uxxxx\""), 1) == Error(IllegalUnicodeSequence)
    ensures ParseString(Ascii("\"ab") + [0x01, QUOTE], 1) == Error(IllegalCharacter)
    ensures Message(IllegalCharacter) == "Illegal character in JSON string"
  {
    FirstStopDecides(Ascii("\"abc"), 1, 4);
    var badEscape := Ascii("\"ab\\c\"");
    FirstStopDecides(badEscape, 1, 3);
    EscapeDecodes(badEscape, 3, badEscape[1..3]);
    var badUnicode := Ascii("\"ab\\uxxxx\"");
    FirstStopDecides(badUnicode, 1, 3);
    EscapeDecodes(badUnicode, 3, badUnicode[1..3]);
    FirstStopDecides(Ascii("\"ab") + [0x01, QUOTE], 1, 3);
  }
}
