/**
  The JSON whitespace predicate (JSONFunctions.isSpaceCharacter): the four
  characters the "ws" rule of section 2 of RFC 8259 allows between tokens.
 */
module Whitespace {
  import opened CodeUnits
  import opened EscapeTable
  import opened Escape
  import opened Unescape

  /**
    isSpaceCharacter: space, line feed, tab and carriage return. The form feed
    and NUL are not whitespace in JSON. Every whitespace character but the
    space is a control character with a two-unit named escape.
   */
  function IsSpaceCharacter(ch: int): (r: bool)
    ensures r <==> ch == SPACE || (ch < 0x20 && HasNamedEscape(ch) && ch != BS && ch != FF)
    ensures r ==> TAB <= ch <= SPACE
    ensures r && ch != SPACE ==> ch < 0x20 && HasNamedEscape(ch)
    ensures ch == FF || ch == NUL ==> !r
  {
    ch == SPACE || ch == LF || ch == TAB || ch == CR
  }

  /**
    The only whitespace appendString ever writes is the space itself: line
    breaks and tabs in the input come out as named escapes.
   */
  lemma QuotedWhitespaceIsSpace(s: Text, includeNonASCII: bool)
    ensures var r := Quoted(s, includeNonASCII);
      forall k | 0 <= k < |r| :: IsSpaceCharacter(r[k]) ==> r[k] == SPACE
  {
    var e := Escaped(s, includeNonASCII);
    var r := Quoted(s, includeNonASCII);
    EscapedUnits(s, includeNonASCII);
    assert forall k | 1 <= k < |r| - 1 :: r[k] == e[k - 1];
  }

  /**
    A raw whitespace character other than the space, met by parseString
    before the string ends, makes it fail with the illegal-character error.
   */
  lemma RawLineBreakRejected(text: Text, start: nat, j: nat)
    requires start <= j < |text| && AllUnescaped(text, start, j)
    requires IsSpaceCharacter(text[j]) && text[j] != SPACE
    ensures ParseString(text, start) == Error(IllegalCharacter)
  {
    FirstStopDecides(text, start, j);
  }
}
