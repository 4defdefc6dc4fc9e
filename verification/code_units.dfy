/**
  Text as the Java side sees it: a sequence of UTF-16 code units, each an
  integer in 0..0xFFFF. Surrogate pairs are two independent units; nothing in
  this model combines or validates them.
 */
module CodeUnits {

  /** A Java `char`. */
  type CodeUnit = x: int | 0 <= x < 0x1_0000

  /** A Java `CharSequence` or `String`. */
  type Text = seq<CodeUnit>

  datatype Option<+T> = None | Some(value: T)

  const QUOTE: CodeUnit := 0x22      // "
  const BACKSLASH: CodeUnit := 0x5C  // \
  const SLASH: CodeUnit := 0x2F      // /
  const MINUS: CodeUnit := 0x2D      // -
  const SPACE: CodeUnit := 0x20
  const BS: CodeUnit := 0x08         // \b
  const TAB: CodeUnit := 0x09        // \t
  const LF: CodeUnit := 0x0A         // \n
  const FF: CodeUnit := 0x0C         // \f
  const CR: CodeUnit := 0x0D         // \r
  const ZERO: CodeUnit := 0x30       // 0
  const NUL: CodeUnit := 0x00
  const LETTER_B: CodeUnit := 0x62   // b
  const LETTER_F: CodeUnit := 0x66   // f
  const LETTER_N: CodeUnit := 0x6E   // n
  const LETTER_R: CodeUnit := 0x72   // r
  const LETTER_T: CodeUnit := 0x74   // t
  const LETTER_U: CodeUnit := 0x75   // u

  /** The units of an ASCII string literal. */
  function Ascii(s: string): (r: Text)
    requires forall k | 0 <= k < |s| :: s[k] as int < 0x80
    ensures |r| == |s|
    ensures forall k | 0 <= k < |r| :: r[k] == s[k] as int
  {
    seq(|s|, k requires 0 <= k < |s| => s[k] as int)
  }

  predicate IsDecimalDigit(c: int) {
    ZERO <= c <= ZERO + 9
  }

  /** True for the units 0x20..0x7E, the printable ASCII range. */
  predicate IsPrintableAscii(c: int) {
    0x20 <= c <= 0x7E
  }
}
