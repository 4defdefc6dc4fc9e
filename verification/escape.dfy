/**
  The JSON string escaper (JSONFunctions.appendChar and appendString): each
  code unit is written as itself, as a two-unit named escape, or as a six-unit
  \uXXXX escape, and appendString wraps the result in quotation marks.
 */
module Escape {
  import opened CodeUnits
  import opened EscapeTable

  /** ch is recovered from its four hex digits, most significant nibble first. */
  lemma NibblesRecompose(ch: CodeUnit)
    ensures (ch / 0x1000 % 16) * 0x1000 + (ch / 0x100 % 16) * 0x100 + (ch / 0x10 % 16) * 0x10 + ch % 16 == ch
  {
    assert ch / 0x1000 % 16 == ch / 0x1000;
    assert ch / 0x100 == (ch / 0x1000) * 16 + ch / 0x100 % 16;
    assert ch / 0x10 == (ch / 0x100) * 16 + ch / 0x10 % 16;
    assert ch == (ch / 0x10) * 16 + ch % 16;
  }

  /**
    The \uXXXX escape of ch: reverse solidus, u, then the hex digits of
    (ch >> 12) & 0xF, (ch >> 8) & 0xF, (ch >> 4) & 0xF and ch & 0xF, which for a
    16-bit unit are the quotients below taken modulo 16.
   */
  function HexEscape(ch: CodeUnit): (r: Text)
    ensures |r| == 6 && r[0] == BACKSLASH && r[1] == LETTER_U
    ensures forall k | 2 <= k < 6 :: IsUpperHexDigit(r[k])
    ensures HexQuad(r[2..]) == Some(ch)
  {
    NibblesRecompose(ch);
    [BACKSLASH, LETTER_U,
     HexDigit(ch / 0x1000 % 16), HexDigit(ch / 0x100 % 16), HexDigit(ch / 0x10 % 16), HexDigit(ch % 16)]
  }

  /**
    appendChar: the escaped form of one unit. The checks run in the order of
    JSONFunctions.appendChar, and the hex condition groups as
    ch < 0x20 || (ch >= 0x7F && !includeNonASCII), so with includeNonASCII
    set, DEL and 0x80..0x9F are written as themselves.
   */
  function AppendChar(ch: CodeUnit, includeNonASCII: bool): (r: Text)
    ensures r == [ch] <==> IsUnescaped(ch) && (ch < 0x7F || includeNonASCII)
    ensures |r| == 2 <==> HasNamedEscape(ch)
    ensures |r| == 2 ==> r[0] == BACKSLASH && UnescapeLetter(r[1]) == Some(ch)
    ensures |r| == 6 <==> !HasNamedEscape(ch) && (ch < 0x20 || (ch >= 0x7F && !includeNonASCII))
    ensures |r| == 6 ==> r == HexEscape(ch)
    ensures |r| == 1 || |r| == 2 || |r| == 6
    ensures forall k | 0 <= k < |r| :: r[k] >= 0x20
    ensures !includeNonASCII ==> forall k | 0 <= k < |r| :: IsPrintableAscii(r[k])
  {
    if ch == QUOTE || ch == BACKSLASH then
      [BACKSLASH, ch]
    else if ch == BS then
      [BACKSLASH, LETTER_B]
    else if ch == FF then
      [BACKSLASH, LETTER_F]
    else if ch == LF then
      [BACKSLASH, LETTER_N]
    else if ch == CR then
      [BACKSLASH, LETTER_R]
    else if ch == TAB then
      [BACKSLASH, LETTER_T]
    else if ch < 0x20 || (ch >= 0x7F && !includeNonASCII) then
      HexEscape(ch)
    else
      [ch]
  }

  /** The escaped form of every unit of s, in order, without the enclosing quotes. */
  function Escaped(s: Text, includeNonASCII: bool): (r: Text)
    ensures |s| <= |r| <= 6 * |s|
    decreases |s|
  {
    if s == [] then [] else AppendChar(s[0], includeNonASCII) + Escaped(s[1..], includeNonASCII)
  }

  /**
    No unit of the escaped form is a control character, and without
    includeNonASCII every unit is printable ASCII.
   */
  lemma {:induction false} EscapedUnits(s: Text, includeNonASCII: bool)
    ensures forall k | 0 <= k < |Escaped(s, includeNonASCII)| :: Escaped(s, includeNonASCII)[k] >= 0x20
    ensures !includeNonASCII ==>
      forall k | 0 <= k < |Escaped(s, includeNonASCII)| :: IsPrintableAscii(Escaped(s, includeNonASCII)[k])
    decreases |s|
  {
    if s != [] {
      EscapedUnits(s[1..], includeNonASCII);
      var p := AppendChar(s[0], includeNonASCII);
      var rest := Escaped(s[1..], includeNonASCII);
      var e := Escaped(s, includeNonASCII);
      assert e == p + rest;
      forall k | 0 <= k < |e|
        ensures e[k] >= 0x20 && (!includeNonASCII ==> IsPrintableAscii(e[k]))
      {
        if k < |p| {
          assert e[k] == p[k];
        } else {
          assert e[k] == rest[k - |p|];
        }
      }
    }
  }

  lemma {:induction false} EscapedConcat(a: Text, b: Text, includeNonASCII: bool)
    ensures Escaped(a + b, includeNonASCII) == Escaped(a, includeNonASCII) + Escaped(b, includeNonASCII)
    decreases |a|
  {
    if a == [] {
      assert a + b == b;
    } else {
      assert (a + b)[0] == a[0] && (a + b)[1..] == a[1..] + b;
      EscapedConcat(a[1..], b, includeNonASCII);
    }
  }

  /**
    A string of printable ASCII units that stand for themselves needs no
    escaping: its escaped form is the string itself, whatever the flag.
   */
  lemma {:induction false} EscapedPlain(s: Text, includeNonASCII: bool)
    requires forall k | 0 <= k < |s| :: IsUnescaped(s[k]) && s[k] < 0x7F
    ensures Escaped(s, includeNonASCII) == s
    decreases |s|
  {
    if s != [] {
      EscapedPlain(s[1..], includeNonASCII);
      assert [s[0]] + s[1..] == s;
    }
  }

  /** Extending the input by one unit extends the escaped form by that unit's escape. */
  lemma EscapedSnoc(s: Text, i: nat, includeNonASCII: bool)
    requires i < |s|
    ensures Escaped(s[..i + 1], includeNonASCII) == Escaped(s[..i], includeNonASCII) + AppendChar(s[i], includeNonASCII)
  {
    assert Escaped([s[i]], includeNonASCII) == AppendChar(s[i], includeNonASCII) by {
      assert [s[i]][1..] == [];
    }
    assert s[..i + 1] == s[..i] + [s[i]];
    EscapedConcat(s[..i], [s[i]], includeNonASCII);
  }

  /** The quoted string literal appendString writes for s. */
  function Quoted(s: Text, includeNonASCII: bool): (r: Text)
    ensures 2 + |s| <= |r| <= 2 + 6 * |s|
    ensures r[0] == QUOTE && r[|r| - 1] == QUOTE
    ensures !includeNonASCII ==> forall k | 0 <= k < |r| :: IsPrintableAscii(r[k])
  {
    var e := Escaped(s, includeNonASCII);
    var r := [QUOTE] + e + [QUOTE];
    EscapedUnits(s, includeNonASCII);
    assert forall k | 1 <= k < |r| - 1 :: r[k] == e[k - 1];
    r
  }

  /**
    appendString: a quotation mark, the escaped form of each unit of s in
    turn, and a closing quotation mark.
   */
  method AppendString(s: Text, includeNonASCII: bool) returns (out: Text)
    ensures out == Quoted(s, includeNonASCII)
  {
    var body: Text := [];
    for i := 0 to |s|
      invariant body == Escaped(s[..i], includeNonASCII)
    {
      EscapedSnoc(s, i, includeNonASCII);
      body := body + AppendChar(s[i], includeNonASCII);
    }
    assert s[..|s|] == s;
    out := [QUOTE] + body + [QUOTE];
  }
}
