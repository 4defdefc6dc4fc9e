/**
  Decimal rendering of Java `int` and `long` values, most significant digit
  first, two digits per step through a pair of 100-entry lookup tables
  (JSONFunctions.appendInt, appendPositiveInt, appendLong, appendPositiveLong).
 */
module Decimal {
  import opened CodeUnits

  /** Java `int` and `long`. */
  type Int32 = x: int | -0x8000_0000 <= x < 0x8000_0000
  type Int64 = x: int | -0x8000_0000_0000_0000 <= x < 0x8000_0000_0000_0000

  const IntMin: Int32 := -0x8000_0000
  const LongMin: Int64 := -0x8000_0000_0000_0000

  /** The literals written for the two minimum values, whose negation overflows. */
  const IntMinLiteral: Text := Ascii("-2147483648")
  const LongMinLiteral: Text := Ascii("-9223372036854775808")

  /**
    The two 100-entry lookup tables: entry j holds the units digit and the
    tens digit of j. Each is kept as the ten rows of ten in which the Java
    arrays are laid out; `Entry` reads the flat index.
   */
  const Digits: seq<string> := [
    "0123456789", "0123456789", "0123456789", "0123456789", "0123456789",
    "0123456789", "0123456789", "0123456789", "0123456789", "0123456789"]

  const TensDigits: seq<string> := [
    "0000000000", "1111111111", "2222222222", "3333333333", "4444444444",
    "5555555555", "6666666666", "7777777777", "8888888888", "9999999999"]

  /** Entry j of a table read as one flat array of 100 entries. */
  function Entry(table: seq<string>, j: int): int
    requires 0 <= j < 100
    requires |table| == 10 && forall r | 0 <= r < 10 :: |table[r]| == 10
  {
    table[j / 10][j % 10] as int
  }

  /** The decimal numeral of n: digits only, no leading zero unless n == 0. */
  function DecimalNumeral(n: nat): Text
    decreases n
  {
    if n < 10 then [ZERO + n] else DecimalNumeral(n / 10) + [ZERO + n % 10]
  }

  /** The value of a string of decimal digits, read most significant first. */
  function NumeralValue(s: Text): int
    decreases |s|
  {
    if s == [] then 0 else NumeralValue(s[..|s| - 1]) * 10 + (s[|s| - 1] - ZERO)
  }

  /** A non-empty digit string with no superfluous leading zero. */
  predicate IsCanonicalNumeral(s: Text) {
    && |s| > 0
    && (forall k | 0 <= k < |s| :: IsDecimalDigit(s[k]))
    && (s[0] != ZERO || |s| == 1)
  }

  /** A signed decimal numeral: an optional minus sign before the digits of |n|. */
  function SignedNumeral(n: int): Text {
    if n < 0 then [MINUS] + DecimalNumeral(-n) else DecimalNumeral(n)
  }

  /** Entry j of the two tables is the tens digit and the units digit of j. */
  lemma TablesCorrect()
    ensures |Digits| == 10 && forall r | 0 <= r < 10 :: |Digits[r]| == 10
    ensures |TensDigits| == 10 && forall r | 0 <= r < 10 :: |TensDigits[r]| == 10
    ensures forall j | 0 <= j < 100 ::
      Entry(TensDigits, j) == ZERO + j / 10 && Entry(Digits, j) == ZERO + j % 10
  {
  }

  /** The two digits the tables give for one index 0 <= j < 100. */
  function TableDigits(j: int): (r: Text)
    requires 0 <= j < 100
    ensures r == [ZERO + j / 10, ZERO + j % 10]
  {
    TablesCorrect();
    [Entry(TensDigits, j), Entry(Digits, j)]
  }

  lemma NumeralValueSnoc(s: Text, d: CodeUnit)
    ensures NumeralValue(s + [d]) == NumeralValue(s) * 10 + (d - ZERO)
  {
    assert (s + [d])[..|s|] == s;
  }

  /** A canonical numeral whose value is at least one does not start with '0'. */
  lemma CanonicalSnoc(s: Text, d: CodeUnit)
    requires IsCanonicalNumeral(s) && NumeralValue(s) >= 1 && IsDecimalDigit(d)
    ensures IsCanonicalNumeral(s + [d])
    ensures NumeralValue(s + [d]) == NumeralValue(s) * 10 + (d - ZERO)
  {
    NumeralValueSnoc(s, d);
  }

  /** The decimal numeral of n is canonical and denotes n. */
  lemma {:induction false} DecimalNumeralDenotes(n: nat)
    ensures IsCanonicalNumeral(DecimalNumeral(n))
    ensures NumeralValue(DecimalNumeral(n)) == n
    decreases n
  {
    if n >= 10 {
      DecimalNumeralDenotes(n / 10);
      CanonicalSnoc(DecimalNumeral(n / 10), ZERO + n % 10);
    }
  }

  lemma {:induction false} CanonicalValueNonNegative(s: Text)
    requires forall k | 0 <= k < |s| :: IsDecimalDigit(s[k])
    ensures NumeralValue(s) >= 0
    ensures |s| > 0 && s[0] != ZERO ==> NumeralValue(s) >= 1
    decreases |s|
  {
    if s != [] {
      CanonicalValueNonNegative(s[..|s| - 1]);
      if |s| > 1 {
        assert s[..|s| - 1][0] == s[0];
      }
    }
  }

  /**
    A canonical numeral is the decimal numeral of its own value, so the
    numeral of n is the only canonical digit string that denotes n.
   */
  lemma {:induction false} CanonicalNumeralUnique(s: Text)
    requires IsCanonicalNumeral(s)
    ensures NumeralValue(s) >= 0
    ensures s == DecimalNumeral(NumeralValue(s))
    decreases |s|
  {
    CanonicalValueNonNegative(s);
    if |s| > 1 {
      var p := s[..|s| - 1];
      assert p[0] == s[0];
      CanonicalValueNonNegative(p);
      CanonicalNumeralUnique(p);
      var v := NumeralValue(s);
      assert v == NumeralValue(p) * 10 + (s[|s| - 1] - ZERO);
      assert v / 10 == NumeralValue(p) && v % 10 == s[|s| - 1] - ZERO;
      assert s == p + [s[|s| - 1]];
    }
  }

  /** Peeling two digits at once: the numeral of n is that of n / 100 and then the two low digits. */
  lemma DecimalStep(n: nat)
    requires n >= 100
    ensures DecimalNumeral(n) == DecimalNumeral(n / 100) + [ZERO + (n % 100) / 10, ZERO + (n % 100) % 10]
  {
    assert (n / 10) / 10 == n / 100;
    assert (n / 10) % 10 == (n % 100) / 10;
    assert n % 10 == (n % 100) % 10;
  }

  /**
    appendPositiveInt: for a non-negative int, recurse on i / 100 to emit the
    high digits first, then the two low digits from the tables; below 100 emit
    one or two digits without a leading zero.
   */
  function AppendPositiveInt(i: Int32): (r: Text)
    requires 0 <= i
    ensures r == DecimalNumeral(i)
    decreases i
  {
    if i >= 100 then
      var n := i / 100;
      var j := i - n * 100;
      assert j == i % 100;
      DecimalStep(i);
      AppendPositiveInt(n) + TableDigits(j)
    else if i >= 10 then
      TableDigits(i)
    else
      [TableDigits(i)[1]]
  }

  /**
    appendPositiveLong: as appendPositiveInt for a non-negative long; the two
    low digits are indexed by the int (n - m * 100), and below 100 the tens
    digit is emitted only when the value is at least 10.
   */
  function AppendPositiveLong(n: Int64): (r: Text)
    requires 0 <= n
    ensures r == DecimalNumeral(n)
    decreases n
  {
    if n >= 100 then
      var m := n / 100;
      var i: Int32 := n - m * 100;
      assert i == n % 100;
      DecimalStep(n);
      AppendPositiveLong(m) + TableDigits(i)
    else
      var i: Int32 := n;
      (if i >= 10 then [TableDigits(i)[0]] else []) + [TableDigits(i)[1]]
  }

  lemma IntMinDigits()
    ensures DecimalNumeral(2147483648) == [ZERO + 2, ZERO + 1, ZERO + 4, ZERO + 7, ZERO + 4, ZERO + 8, ZERO + 3, ZERO + 6, ZERO + 4, ZERO + 8]
  {
    assert DecimalNumeral(21) == [ZERO + 2, ZERO + 1];
    assert DecimalNumeral(2147) == [ZERO + 2, ZERO + 1, ZERO + 4, ZERO + 7] by { DecimalStep(2147); }
    assert DecimalNumeral(214748) == [ZERO + 2, ZERO + 1, ZERO + 4, ZERO + 7, ZERO + 4, ZERO + 8] by { DecimalStep(214748); }
    assert DecimalNumeral(21474836) == [ZERO + 2, ZERO + 1, ZERO + 4, ZERO + 7, ZERO + 4, ZERO + 8, ZERO + 3, ZERO + 6] by { DecimalStep(21474836); }
    assert DecimalNumeral(2147483648) == [ZERO + 2, ZERO + 1, ZERO + 4, ZERO + 7, ZERO + 4, ZERO + 8, ZERO + 3, ZERO + 6, ZERO + 4, ZERO + 8] by { DecimalStep(2147483648); }
  }

  /** The Integer.MIN_VALUE literal is the signed numeral of -2^31. */
  lemma IntMinLiteralCorrect()
    ensures IntMinLiteral == SignedNumeral(IntMin)
  {
    assert IntMinLiteral == [MINUS, ZERO + 2, ZERO + 1, ZERO + 4, ZERO + 7, ZERO + 4, ZERO + 8, ZERO + 3, ZERO + 6, ZERO + 4, ZERO + 8];
    IntMinDigits();
  }

  lemma LongMinHighDigits()
    ensures DecimalNumeral(922337203) == [ZERO + 9, ZERO + 2, ZERO + 2, ZERO + 3, ZERO + 3, ZERO + 7, ZERO + 2, ZERO + 0, ZERO + 3]
  {
    assert DecimalNumeral(9) == [ZERO + 9];
    assert DecimalNumeral(922) == [ZERO + 9, ZERO + 2, ZERO + 2] by { DecimalStep(922); }
    assert DecimalNumeral(92233) == [ZERO + 9, ZERO + 2, ZERO + 2, ZERO + 3, ZERO + 3] by { DecimalStep(92233); }
    assert DecimalNumeral(9223372) == [ZERO + 9, ZERO + 2, ZERO + 2, ZERO + 3, ZERO + 3, ZERO + 7, ZERO + 2] by { DecimalStep(9223372); }
    assert DecimalNumeral(922337203) == [ZERO + 9, ZERO + 2, ZERO + 2, ZERO + 3, ZERO + 3, ZERO + 7, ZERO + 2, ZERO + 0, ZERO + 3] by { DecimalStep(922337203); }
  }

  lemma LongMinDigits()
    ensures DecimalNumeral(9223372036854775808) == [ZERO + 9, ZERO + 2, ZERO + 2, ZERO + 3, ZERO + 3, ZERO + 7, ZERO + 2, ZERO + 0, ZERO + 3, ZERO + 6, ZERO + 8, ZERO + 5, ZERO + 4, ZERO + 7, ZERO + 7, ZERO + 5, ZERO + 8, ZERO + 0, ZERO + 8]
  {
    LongMinHighDigits();
    assert DecimalNumeral(92233720368) == [ZERO + 9, ZERO + 2, ZERO + 2, ZERO + 3, ZERO + 3, ZERO + 7, ZERO + 2, ZERO + 0, ZERO + 3, ZERO + 6, ZERO + 8] by { DecimalStep(92233720368); }
    assert DecimalNumeral(9223372036854) == [ZERO + 9, ZERO + 2, ZERO + 2, ZERO + 3, ZERO + 3, ZERO + 7, ZERO + 2, ZERO + 0, ZERO + 3, ZERO + 6, ZERO + 8, ZERO + 5, ZERO + 4] by { DecimalStep(9223372036854); }
    assert DecimalNumeral(922337203685477) == [ZERO + 9, ZERO + 2, ZERO + 2, ZERO + 3, ZERO + 3, ZERO + 7, ZERO + 2, ZERO + 0, ZERO + 3, ZERO + 6, ZERO + 8, ZERO + 5, ZERO + 4, ZERO + 7, ZERO + 7] by { DecimalStep(922337203685477); }
    assert DecimalNumeral(92233720368547758) == [ZERO + 9, ZERO + 2, ZERO + 2, ZERO + 3, ZERO + 3, ZERO + 7, ZERO + 2, ZERO + 0, ZERO + 3, ZERO + 6, ZERO + 8, ZERO + 5, ZERO + 4, ZERO + 7, ZERO + 7, ZERO + 5, ZERO + 8] by { DecimalStep(92233720368547758); }
    assert DecimalNumeral(9223372036854775808) == [ZERO + 9, ZERO + 2, ZERO + 2, ZERO + 3, ZERO + 3, ZERO + 7, ZERO + 2, ZERO + 0, ZERO + 3, ZERO + 6, ZERO + 8, ZERO + 5, ZERO + 4, ZERO + 7, ZERO + 7, ZERO + 5, ZERO + 8, ZERO + 0, ZERO + 8] by { DecimalStep(9223372036854775808); }
  }

  /** The Long.MIN_VALUE literal is the signed numeral of -2^63. */
  lemma LongMinLiteralCorrect()
    ensures LongMinLiteral == SignedNumeral(LongMin)
  {
    assert LongMinLiteral[..10] == [MINUS, ZERO + 9, ZERO + 2, ZERO + 2, ZERO + 3, ZERO + 3, ZERO + 7, ZERO + 2, ZERO + 0, ZERO + 3];
    assert LongMinLiteral[10..] == [ZERO + 6, ZERO + 8, ZERO + 5, ZERO + 4, ZERO + 7, ZERO + 7, ZERO + 5, ZERO + 8, ZERO + 0, ZERO + 8];
    assert LongMinLiteral == LongMinLiteral[..10] + LongMinLiteral[10..];
    LongMinDigits();
  }

  /**
    appendInt: a minus sign and the digits of -i for negative i, the literal
    for Integer.MIN_VALUE (whose negation overflows), and the plain digits
    otherwise.
   */
  function AppendInt(i: Int32): (r: Text)
    ensures r == SignedNumeral(i)
    ensures (r[0] == MINUS) == (i < 0)
    ensures i < 0 ==> IsCanonicalNumeral(r[1..]) && NumeralValue(r[1..]) == -(i as int)
    ensures i >= 0 ==> IsCanonicalNumeral(r) && NumeralValue(r) == i
  {
    DecimalNumeralDenotes(if i < 0 then -(i as int) else i);
    if i < 0 then
      if i == IntMin then
        IntMinLiteralCorrect();
        IntMinLiteral
      else
        [MINUS] + AppendPositiveInt(-i)
    else
      AppendPositiveInt(i)
  }

  /** appendLong: as appendInt for a long, with the literal for Long.MIN_VALUE. */
  function AppendLong(n: Int64): (r: Text)
    ensures r == SignedNumeral(n)
    ensures (r[0] == MINUS) == (n < 0)
    ensures n < 0 ==> IsCanonicalNumeral(r[1..]) && NumeralValue(r[1..]) == -(n as int)
    ensures n >= 0 ==> IsCanonicalNumeral(r) && NumeralValue(r) == n
  {
    DecimalNumeralDenotes(if n < 0 then -(n as int) else n);
    if n < 0 then
      if n == LongMin then
        LongMinLiteralCorrect();
        LongMinLiteral
      else
        [MINUS] + AppendPositiveLong(-n)
    else
      AppendPositiveLong(n)
  }
}
