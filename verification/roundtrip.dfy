/**
  The escaper and the unescaper are inverse: parsing what appendString wrote
  gives back the original code units, for either setting of includeNonASCII,
  and leaves the cursor just past the closing quote. Every code-unit sequence
  qualifies, lone surrogates included, since neither side looks at pairs.
 */
module RoundTrip {
  import opened CodeUnits
  import opened EscapeTable
  import opened Escape
  import opened Unescape

  /** The units of w occur in text starting at index i. */
  predicate OccursAt(text: Text, i: nat, w: Text) {
    i + |w| <= |text| && forall k | 0 <= k < |w| :: text[i + k] == w[k]
  }

  lemma HeadTail(acc: Text, s: Text)
    requires s != []
    ensures acc + [s[0]] + s[1..] == acc + s
  {
    assert [s[0]] + s[1..] == s;
  }

  lemma Regroup(a: Text, b: Text, c: Text)
    ensures a + b + c == a + (b + c)
  {
  }

  /** An occurrence of a + b is an occurrence of a followed by one of b. */
  lemma OccursSplit(text: Text, i: nat, a: Text, b: Text)
    requires OccursAt(text, i, a + b)
    ensures OccursAt(text, i, a) && OccursAt(text, i + |a|, b)
  {
    assert forall k | 0 <= k < |a| :: (a + b)[k] == a[k];
    assert forall k | 0 <= k < |b| :: (a + b)[|a| + k] == b[k];
  }

  /**
    How many units appendChar writes for ch, decided from ch alone. It repeats
    AppendChar's case split on purpose: the induction below speaks of this
    number, which keeps AppendChar's contract out of its proof context.
   */
  function EscapeWidth(ch: CodeUnit, includeNonASCII: bool): (n: nat)
    ensures n == |AppendChar(ch, includeNonASCII)|
  {
    if IsUnescaped(ch) && (ch < 0x7F || includeNonASCII) then 1
    else if HasNamedEscape(ch) then 2
    else 6
  }

  /** The escape of one unit, found in the text at i, is decoded back to that unit. */
  lemma AppendCharParses(text: Text, i: nat, c: CodeUnit, acc: Text, includeNonASCII: bool)
    requires OccursAt(text, i, AppendChar(c, includeNonASCII))
    ensures ParseRaw(text, i, acc) == ParseRaw(text, i + |AppendChar(c, includeNonASCII)|, acc + [c])
  {
    var p := AppendChar(c, includeNonASCII);
    assert text[i] == p[0];
    if |p| == 2 {
      assert text[i + 1] == p[1];
    } else if |p| == 6 {
      assert text[i + 1] == p[1];
      assert text[i + 2..i + 6] == p[2..];
    }
  }

  /**
    Where the escaped form of a nonempty s and a quote occur, the escape of its
    first unit is decoded, and the escaped rest and the quote follow it.
   */
  lemma FirstEscapeParses(text: Text, i: nat, s: Text, acc: Text, includeNonASCII: bool)
    requires s != [] && OccursAt(text, i, Escaped(s, includeNonASCII) + [QUOTE])
    ensures var n := EscapeWidth(s[0], includeNonASCII);
      && ParseRaw(text, i, acc) == ParseRaw(text, i + n, acc + [s[0]])
      && OccursAt(text, i + n, Escaped(s[1..], includeNonASCII) + [QUOTE])
      && |Escaped(s, includeNonASCII)| == n + |Escaped(s[1..], includeNonASCII)|
  {
    var p := AppendChar(s[0], includeNonASCII);
    var rest := Escaped(s[1..], includeNonASCII);
    assert Escaped(s, includeNonASCII) == p + rest;
    Regroup(p, rest, [QUOTE]);
    OccursSplit(text, i, p, rest + [QUOTE]);
    AppendCharParses(text, i, s[0], acc, includeNonASCII);
  }

  /**
    The escaped form of s followed by a quote, found in the text at i, is
    decoded to s after whatever the buffer already holds, and the cursor stops
    just past that quote.
   */
  lemma {:induction false} EscapedParses(text: Text, i: nat, s: Text, acc: Text, includeNonASCII: bool)
    requires OccursAt(text, i, Escaped(s, includeNonASCII) + [QUOTE])
    ensures ParseRaw(text, i, acc) == Success(acc + s, i + |Escaped(s, includeNonASCII)| + 1)
    decreases |s|
  {
    if s == [] {
      assert text[i + 0] == (Escaped(s, includeNonASCII) + [QUOTE])[0];
      assert acc + s == acc;
    } else {
      FirstEscapeParses(text, i, s, acc, includeNonASCII);
      EscapedParses(text, i + EscapeWidth(s[0], includeNonASCII), s[1..], acc + [s[0]], includeNonASCII);
      HeadTail(acc, s);
    }
  }

  /** Inside appendString's output, after its opening quote, come the escaped units and a quote. */
  lemma QuotedOccurs(s: Text, includeNonASCII: bool, after: Text)
    ensures OccursAt(Quoted(s, includeNonASCII) + after, 1, Escaped(s, includeNonASCII) + [QUOTE])
  {
    var w := Escaped(s, includeNonASCII) + [QUOTE];
    var text := Quoted(s, includeNonASCII) + after;
    assert text == [QUOTE] + w + after;
    assert forall k | 0 <= k < |w| :: text[1 + k] == w[k];
  }

  /**
    Parsing the output of appendString, with the cursor just after its opening
    quote and anything at all after its closing quote, yields the original
    units and leaves the cursor at the end of the literal.
   */
  lemma AppendStringRoundTrip(s: Text, includeNonASCII: bool, after: Text)
    ensures ParseString(Quoted(s, includeNonASCII) + after, 1)
      == Success(s, |Quoted(s, includeNonASCII)|)
  {
    var text := Quoted(s, includeNonASCII) + after;
    QuotedOccurs(s, includeNonASCII, after);
    ParseStringIsBuffered(text, 1);
    EscapedParses(text, 1, s, [], includeNonASCII);
    assert [] + s == s;
  }
}
