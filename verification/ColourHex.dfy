/** Colours as the `#rrggbb` literals a theme stores, and the opaque blend. */
module ColourHex {
  import opened Colours
  import ColourGraph
  import ColourSpace

  /** Rounds half away from zero. */
  function Round(x: real): int {
    if x >= 0.0 then (x + 0.5).Floor else -(0.5 - x).Floor
  }

  function ByteOf(channel: real): (n: nat)
    requires InUnit(channel)
    ensures n < 256
  {
    Round(channel * 255.0)
  }

  function LowerDigit(n: nat): (c: char)
    requires n < 16
    ensures IsHexChar(c) && HexOf(c) == n && !('A' <= c <= 'F')
  {
    "0123456789abcdef"[n]
  }

  function TwoDigits(n: nat): (s: string)
    requires n < 256
    ensures |s| == 2
  {
    [LowerDigit(n / 16), LowerDigit(n % 16)]
  }

  /** The literal of an opaque colour. */
  function HexColor(c: SRGBA): (s: string)
    requires Valid(c)
    ensures |s| == 7
  {
    "#" + TwoDigits(ByteOf(c.r)) + TwoDigits(ByteOf(c.g)) + TwoDigits(ByteOf(c.b))
  }

  // -------------------------------------------------------------------- round trips

  /** The byte a channel rounds to is nearer than any other. */
  predicate Nearest(channel: real, n: nat) {
    forall k: nat {:trigger k as real} :: k < 256 ==> ColourSpace.Abs(channel - n as real / 255.0) <= ColourSpace.Abs(channel - k as real / 255.0)
  }

  lemma RoundsNearest(channel: real)
    requires InUnit(channel)
    ensures Nearest(channel, ByteOf(channel))
  {
    var n := ByteOf(channel);
    assert -0.5 <= channel * 255.0 - n as real <= 0.5;
    forall k: nat {:trigger k as real} | k < 256
      ensures ColourSpace.Abs(channel - n as real / 255.0) <= ColourSpace.Abs(channel - k as real / 255.0)
    {
      if k < n { assert k as real <= n as real - 1.0; }
      if k > n { assert k as real >= n as real + 1.0; }
    }
  }

  /** Half-way between two bytes the upper one is stored. */
  lemma HalvesGoUp(n: nat)
    requires n < 255
    ensures InUnit((n as real + 0.5) / 255.0) && ByteOf((n as real + 0.5) / 255.0) == n + 1
  {
    assert (n as real + 0.5) / 255.0 * 255.0 == n as real + 0.5;
  }

  lemma HexColorReads(c: SRGBA)
    requires Valid(c)
    ensures IsHexLiteral(HexColor(c))
    ensures ColourOf(HexColor(c)) == SRGBA(ByteOf(c.r) as real / 255.0, ByteOf(c.g) as real / 255.0, ByteOf(c.b) as real / 255.0, 1.0)
  {
    var s := HexColor(c);
    var digits := s[1..];
    assert digits == TwoDigits(ByteOf(c.r)) + TwoDigits(ByteOf(c.g)) + TwoDigits(ByteOf(c.b));
    assert digits == [LowerDigit(ByteOf(c.r) / 16), LowerDigit(ByteOf(c.r) % 16), LowerDigit(ByteOf(c.g) / 16),
                      LowerDigit(ByteOf(c.g) % 16), LowerDigit(ByteOf(c.b) / 16), LowerDigit(ByteOf(c.b) % 16)];
    assert AllHexChars(digits);
    assert s[0] == '#';
  }

  /** Storing a colour and reading it back gives the nearest colour a theme can store. */
  lemma StoredIsNearest(c: SRGBA)
    requires Valid(c)
    ensures IsLiteral(HexColor(c)) && ColourOf(HexColor(c)).a == 1.0
    ensures exists r: nat, g: nat, b: nat {:trigger r as real, g as real, b as real} ::
      ColourOf(HexColor(c)) == SRGBA(r as real / 255.0, g as real / 255.0, b as real / 255.0, 1.0)
      && Nearest(c.r, r) && Nearest(c.g, g) && Nearest(c.b, b)
  {
    HexColorReads(c);
    RoundsNearest(c.r);
    RoundsNearest(c.g);
    RoundsNearest(c.b);
  }

  /** A lower-case literal of six digits. */
  predicate IsStored(s: string) {
    IsHexLiteral(s) && |s| == 7 && forall i :: 1 <= i < 7 ==> !('A' <= s[i] <= 'F')
  }

  /** Every colour is stored in that form. */
  lemma HexColorIsStored(c: SRGBA)
    requires Valid(c)
    ensures IsStored(HexColor(c))
  {
    HexColorReads(c);
    var s := HexColor(c);
    assert s == "#" + TwoDigits(ByteOf(c.r)) + TwoDigits(ByteOf(c.g)) + TwoDigits(ByteOf(c.b));
    assert s[1..] == [LowerDigit(ByteOf(c.r) / 16), LowerDigit(ByteOf(c.r) % 16), LowerDigit(ByteOf(c.g) / 16),
                      LowerDigit(ByteOf(c.g) % 16), LowerDigit(ByteOf(c.b) / 16), LowerDigit(ByteOf(c.b) % 16)];
    forall i | 1 <= i < 7 ensures !('A' <= s[i] <= 'F') {
      assert s[i] == s[1..][i - 1];
    }
  }

  lemma DigitReturns(c: char)
    requires IsHexChar(c) && !('A' <= c <= 'F')
    ensures LowerDigit(HexOf(c)) == c
  {
  }

  lemma ByteReturns(n: nat)
    requires n < 256
    ensures InUnit(n as real / 255.0) && ByteOf(n as real / 255.0) == n
  {
    assert (n as real / 255.0) * 255.0 == n as real;
  }

  lemma PairReturns(n: nat, hi: char, lo: char)
    requires IsHexChar(hi) && IsHexChar(lo) && !('A' <= hi <= 'F') && !('A' <= lo <= 'F')
    requires n == 16 * HexOf(hi) + HexOf(lo)
    ensures n < 256 && TwoDigits(n) == [hi, lo]
  {
    DigitReturns(hi);
    DigitReturns(lo);
    assert n / 16 == HexOf(hi) && n % 16 == HexOf(lo);
  }

  lemma ChannelReturns(s: string, k: nat, hi: char, lo: char) returns (n: nat)
    requires IsStored(s) && k < 3 && hi == s[1..][2 * k] && lo == s[1..][2 * k + 1]
    requires !('A' <= hi <= 'F') && !('A' <= lo <= 'F')
    ensures n < 256 && TwoDigits(n) == [hi, lo] && ByteOf(Channel(s, k)) == n
  {
    n := ChannelByte(s, k);
    PairReturns(n, hi, lo);
    ByteReturns(n);
  }

  lemma SevenChars(s: string)
    requires |s| == 7 && s[0] == '#'
    ensures s == "#" + [s[1], s[2]] + [s[3], s[4]] + [s[5], s[6]]
  {
  }

  /** Reading a stored literal and storing it again gives the same literal. */
  lemma StoredReturns(s: string)
    requires IsStored(s)
    ensures HexColor(ColourOf(s)) == s
  {
    var r := ChannelReturns(s, 0, s[1], s[2]);
    var g := ChannelReturns(s, 1, s[3], s[4]);
    var b := ChannelReturns(s, 2, s[5], s[6]);
    SevenChars(s);
  }

  // -------------------------------------------------------------------------- blend

  /** `percent` of one opaque colour in another. */
  function OpaqueBlend(over: SRGBA, percent: real, into: SRGBA): SRGBA {
    var weight := percent / 100.0;
    SRGBA(over.r * weight + into.r * (1.0 - weight), over.g * weight + into.g * (1.0 - weight),
          over.b * weight + into.b * (1.0 - weight), 1.0)
  }

  lemma WholeChannel(x: real, p: real, y: real, q: real)
    requires p + q == 1.0
    ensures ColourGraph.MixedChannel(x, p, y, q) == x * p + y * q
  {
  }

  /** On opaque operands the blend is the mix a resolved layer computes. */
  lemma BlendIsTheMix(over: SRGBA, percent: real, into: SRGBA)
    requires over.a == 1.0 && into.a == 1.0
    ensures OpaqueBlend(over, percent, into) == ColourGraph.Premixed(over, into, percent / 100.0)
  {
    var p, q := percent / 100.0, 1.0 - percent / 100.0;
    ColourGraph.SharesCombine(over, into, p, p, q);
    WholeChannel(over.r, p, into.r, q);
    WholeChannel(over.g, p, into.g, q);
    WholeChannel(over.b, p, into.b, q);
  }
}
