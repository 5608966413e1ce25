/** What the scanner's bytes and numbers are: ASCII characters, hex digits worth their
    place, and code points in UTF-8 (section 3 of RFC 3629). */
module CssBytes {
  import opened Options
  import opened CssNames

  /** The ASCII character a byte stands for. */
  function Ascii(b: Byte): char
    requires b < 0x80
  {
    b as int as char
  }

  /** The punctuation the scanner looks for. */
  lemma PunctuationIs()
    ensures Ascii(BACKSLASH) == '\\' && Ascii(QUOTE) == '"' && Ascii(APOSTROPHE) == '\''
    ensures Ascii(OPEN) == '[' && Ascii(CLOSE) == ']' && Ascii(DOT) == '.' && Ascii(BAR) == '|'
    ensures Ascii(STAR) == '*' && Ascii(EQUALS) == '='
  {
  }

  /** White space is the space, the tab and the three that end a line; a name is made of
      letters, digits, hyphens, underscores and everything above ASCII. */
  lemma ClassesAre(b: Byte)
    ensures IsSpace(b) <==> b < 0x80 && Ascii(b) in {' ', '\t', '\n', '\r', '\U{0C}'}
    ensures IsNewline(b) <==> b < 0x80 && Ascii(b) in {'\n', '\r', '\U{0C}'}
    ensures IsQuote(b) <==> b < 0x80 && Ascii(b) in {'"', '\''}
    ensures IsIdentByte(b) <==> b >= 0x80 || 'a' <= Ascii(b) <= 'z' || 'A' <= Ascii(b) <= 'Z' || '0' <= Ascii(b) <= '9' || Ascii(b) in {'-', '_'}
  {
  }

  const LOWER_DIGITS := "0123456789abcdef"
  const UPPER_DIGITS := "0123456789ABCDEF"

  /** A hex digit is worth its place among the sixteen, in either case, and nothing else is
      a digit. */
  lemma DigitsAreWorth(b: Byte)
    ensures IsHex(b) ==> HexDigit(b) < 16 && b < 0x80
    ensures IsHex(b) ==> Ascii(b) == LOWER_DIGITS[HexDigit(b)] || Ascii(b) == UPPER_DIGITS[HexDigit(b)]
    ensures b < 0x80 && !IsHex(b) ==> Ascii(b) !in LOWER_DIGITS && Ascii(b) !in UPPER_DIGITS
  {
    if IsHex(b) {
      if IsDigit(b) { TenDigits(b); } else { SixLetters(b); }
    }
  }

  lemma TenDigits(b: Byte)
    requires IsDigit(b)
    ensures b < 0x80 && IsHex(b) && Ascii(b) == LOWER_DIGITS[HexDigit(b)]
  {
    assert b in {0x30, 0x31, 0x32, 0x33, 0x34, 0x35, 0x36, 0x37, 0x38, 0x39};
  }

  lemma SixLetters(b: Byte)
    requires IsHex(b) && !IsDigit(b)
    ensures b < 0x80 && (Ascii(b) == LOWER_DIGITS[HexDigit(b)] || Ascii(b) == UPPER_DIGITS[HexDigit(b)])
  {
    assert b in {0x61, 0x62, 0x63, 0x64, 0x65, 0x66, 0x41, 0x42, 0x43, 0x44, 0x45, 0x46};
  }

  const LOWER_LETTERS := "abcdefghijklmnopqrstuvwxyz"
  const UPPER_LETTERS := "ABCDEFGHIJKLMNOPQRSTUVWXYZ"

  /** Folding takes each capital letter to its small one and leaves every other byte. */
  lemma FoldingIs(b: Byte)
    ensures 0x41 <= b <= 0x5A ==> Ascii(b) == UPPER_LETTERS[b as int - 0x41] && Lower(b) < 0x80 && Ascii(Lower(b)) == LOWER_LETTERS[b as int - 0x41]
    ensures !(0x41 <= b <= 0x5A) ==> Lower(b) == b && (b < 0x80 ==> Ascii(b) !in UPPER_LETTERS)
  {
    if 0x41 <= b <= 0x4D {
      assert b in {0x41, 0x42, 0x43, 0x44, 0x45, 0x46, 0x47, 0x48, 0x49, 0x4A, 0x4B, 0x4C, 0x4D};
    } else if 0x4D < b <= 0x5A {
      assert b in {0x4E, 0x4F, 0x50, 0x51, 0x52, 0x53, 0x54, 0x55, 0x56, 0x57, 0x58, 0x59, 0x5A};
    }
  }

  // ---------------------------------------------------------------------- UTF-8

  predicate IsTrail(b: Byte) { 0x80 <= b < 0xC0 }

  /** A code point that is one character: no surrogate, none past the last. */
  predicate IsScalar(v: int) { 0 <= v < 0xD800 || 0xE000 <= v <= 0x10FFFF }

  /** The scalar value a text of UTF-8 encodes, if it is exactly one, in its shortest
      form. */
  function Decoded(t: Text): (v: Option<nat>)
    ensures v.Some? ==> IsScalar(v.value)
  {
    if |t| == 1 && t[0] < 0x80 then Some(t[0] as int)
    else if |t| == 2 && 0xC0 <= t[0] < 0xE0 && IsTrail(t[1]) then
      InRange((t[0] as int - 0xC0) * 64 + (t[1] as int - 0x80), 0x80)
    else if |t| == 3 && 0xE0 <= t[0] < 0xF0 && IsTrail(t[1]) && IsTrail(t[2]) then
      InRange(((t[0] as int - 0xE0) * 64 + (t[1] as int - 0x80)) * 64 + (t[2] as int - 0x80), 0x800)
    else if |t| == 4 && 0xF0 <= t[0] < 0xF8 && IsTrail(t[1]) && IsTrail(t[2]) && IsTrail(t[3]) then
      InRange((((t[0] as int - 0xF0) * 64 + (t[1] as int - 0x80)) * 64 + (t[2] as int - 0x80)) * 64 + (t[3] as int - 0x80), 0x10000)
    else None
  }

  /** A scalar value that needs this many bytes. */
  function InRange(v: int, least: nat): (r: Option<nat>) {
    if v >= least && IsScalar(v) then Some(v) else None
  }

  lemma Digits64(v: nat)
    ensures v == (v / 64) * 64 + v % 64
    ensures v / 4096 == v / 64 / 64 && v / 262144 == v / 64 / 64 / 64
  {
  }

  /** The bytes of a code point decode to it; what is no character is U+FFFD, and zero is
      left as it is. */
  lemma RuneDecodes(v: nat)
    ensures Decoded(Rune(v)) == Some(if IsScalar(v) then v else 0xFFFD)
  {
    Digits64(v);
    Digits64(v / 64);
    Digits64(v / 4096);
  }
}
