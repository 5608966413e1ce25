/** Colours as bytes and as hue, saturation and value, over the reals. */
module ColourSpace {
  import opened Colours
  import ColourGraph

  // ---------------------------------------------------------- hue, saturation, value

  function Truncated(x: real): int {
    if x >= 0.0 then x.Floor else -(-x).Floor
  }

  /** The floating-point remainder: it takes the sign of its first argument. */
  function Mod(x: real, y: real): real
    requires y > 0.0
  {
    x - y * Truncated(x / y) as real
  }

  function Abs(x: real): real { if x < 0.0 then -x else x }

  function Max(x: real, y: real): real { if x < y then y else x }

  function Min(x: real, y: real): real { if x < y then x else y }

  /** Which of the three channels hold the chroma and the middle value, by sector. */
  function Sector(h: real, c: real, x: real): (real, real, real) {
    if h < 1.0 then (c, x, 0.0)
    else if h < 2.0 then (x, c, 0.0)
    else if h < 3.0 then (0.0, c, x)
    else if h < 4.0 then (0.0, x, c)
    else if h < 5.0 then (x, 0.0, c)
    else (c, 0.0, x)
  }

  function HsvRgb(hue: real, saturation: real, value: real): SRGBA {
    var turned := Mod(hue, 360.0) / 60.0;
    var h := if turned < 0.0 then turned + 6.0 else turned;
    var c := value * saturation;
    var x := c * (1.0 - Abs(Mod(h, 2.0) - 1.0));
    var m := value - c;
    var (r, g, b) := Sector(h, c, x);
    SRGBA(r + m, g + m, b + m, 1.0)
  }

  function Top(c: SRGBA): real { Max(c.r, Max(c.g, c.b)) }

  function Low(c: SRGBA): real { Min(c.r, Min(c.g, c.b)) }

  /** The hue before the negative half is turned round, in degrees. */
  function RawHue(c: SRGBA): real {
    var delta := Top(c) - Low(c);
    if delta == 0.0 then 0.0
    else if Top(c) == c.r then Mod((c.g - c.b) / delta, 6.0) * 60.0
    else if Top(c) == c.g then ((c.b - c.r) / delta + 2.0) * 60.0
    else ((c.r - c.g) / delta + 4.0) * 60.0
  }

  function RgbToHsv(c: SRGBA): (real, real, real) {
    var delta := Top(c) - Low(c);
    var hue := if RawHue(c) < 0.0 then RawHue(c) + 360.0 else RawHue(c);
    if Top(c) == 0.0 then (hue, 0.0, 0.0) else (hue, delta / Top(c), Top(c))
  }

  /** Opaque, in the unit cube. */
  predicate Opaque(c: SRGBA) { Valid(c) && c.a == 1.0 }

  lemma ModIsIdentity(x: real, y: real)
    requires y > 0.0 && -y < x < y
    ensures Mod(x, y) == x
  {
    if x >= 0.0 { SmallQuotient(x, y); } else { SmallQuotient(-x, y); assert -(x / y) == (-x) / y; }
  }

  lemma SmallQuotient(x: real, y: real)
    requires 0.0 <= x < y
    ensures 0.0 <= x / y < 1.0 && (x / y).Floor == 0
  {
    var q := x / y;
    assert q * y == x;
    if q < 0.0 { ColourGraph.Negative(q, y); }
    if q >= 1.0 { ColourGraph.Product(q - 1.0, y); }
  }

  /** A fraction of chroma: `part / delta` times `delta`. */
  lemma Fraction(part: real, delta: real)
    requires delta > 0.0 && -delta <= part <= delta
    ensures (part / delta) * delta == part && -1.0 <= part / delta <= 1.0
    ensures part >= 0.0 <==> part / delta >= 0.0
    ensures part == delta <==> part / delta == 1.0
  {
    var q := part / delta;
    assert q * delta == part;
    if q > 1.0 { Positive(q - 1.0, delta); }
    if q < -1.0 { Positive(-1.0 - q, delta); }
    if part >= 0.0 && q < 0.0 { ColourGraph.Negative(q, delta); }
    if q >= 0.0 { ColourGraph.Product(q, delta); }
  }

  lemma Positive(a: real, b: real)
    requires a > 0.0 && b > 0.0
    ensures a * b > 0.0
  {
  }

  /** What the middle channel comes back as, by where the hue lies in its pair of
      sectors. */
  lemma Middle(h: real, c: real)
    requires 0.0 <= h < 6.0
    ensures var x := c * (1.0 - Abs(Mod(h, 2.0) - 1.0));
            && (h < 1.0 ==> x == c * h)
            && (1.0 <= h < 2.0 ==> x == c * (2.0 - h))
            && (2.0 <= h < 3.0 ==> x == c * (h - 2.0))
            && (3.0 <= h < 4.0 ==> x == c * (4.0 - h))
            && (4.0 <= h < 5.0 ==> x == c * (h - 4.0))
            && (5.0 <= h ==> x == c * (6.0 - h))
  {
    assert (h / 2.0).Floor == if h < 2.0 then 0 else if h < 4.0 then 1 else 2;
  }

  /** A hue of `h` sectors, chroma `c` and middle value `x` over a low of `m`. */
  lemma AtHue(h: real, saturation: real, value: real, c: real, x: real)
    requires 0.0 <= h < 6.0 && c == value * saturation && x == c * (1.0 - Abs(Mod(h, 2.0) - 1.0))
    ensures var (r, g, b) := Sector(h, c, x);
            HsvRgb(h * 60.0, saturation, value) == SRGBA(r + (value - c), g + (value - c), b + (value - c), 1.0)
  {
    ModIsIdentity(h * 60.0, 360.0);
  }

  lemma Chroma(delta: real, top: real)
    requires top > 0.0
    ensures top * (delta / top) == delta
  {
  }

  /** The hue of a colour that is not grey, as sectors, and the middle channel above the
      low one. */
  function HueOf(c: SRGBA): real
    requires Top(c) > Low(c)
  {
    var delta := Top(c) - Low(c);
    if Top(c) == c.r then (if c.g >= c.b then (c.g - c.b) / delta else (c.g - c.b) / delta + 6.0)
    else if Top(c) == c.g then (c.b - c.r) / delta + 2.0
    else (c.r - c.g) / delta + 4.0
  }

  lemma HueRead(c: SRGBA)
    requires Top(c) > Low(c)
    ensures RgbToHsv(c).0 == HueOf(c) * 60.0 && 0.0 <= HueOf(c) < 6.0
  {
    var delta := Top(c) - Low(c);
    Fraction(c.g - c.b, delta);
    Fraction(c.b - c.r, delta);
    Fraction(c.r - c.g, delta);
    ModIsIdentity((c.g - c.b) / delta, 6.0);
  }

  lemma RedOnTop(c: SRGBA, x: real)
    requires Top(c) > Low(c) && Top(c) == c.r && 0.0 <= HueOf(c) < 6.0
    requires x == (Top(c) - Low(c)) * (1.0 - Abs(Mod(HueOf(c), 2.0) - 1.0))
    ensures var (r, g, b) := Sector(HueOf(c), Top(c) - Low(c), x);
            r + Low(c) == c.r && g + Low(c) == c.g && b + Low(c) == c.b
  {
    var delta := Top(c) - Low(c);
    Fraction(c.g - c.b, delta);
    Middle(HueOf(c), delta);
    assert delta * ((c.g - c.b) / delta) == c.g - c.b;
  }

  lemma GreenOnTop(c: SRGBA, x: real)
    requires Top(c) > Low(c) && Top(c) != c.r && Top(c) == c.g && 0.0 <= HueOf(c) < 6.0
    requires x == (Top(c) - Low(c)) * (1.0 - Abs(Mod(HueOf(c), 2.0) - 1.0))
    ensures var (r, g, b) := Sector(HueOf(c), Top(c) - Low(c), x);
            r + Low(c) == c.r && g + Low(c) == c.g && b + Low(c) == c.b
  {
    var delta := Top(c) - Low(c);
    Fraction(c.b - c.r, delta);
    Middle(HueOf(c), delta);
    assert delta * ((c.b - c.r) / delta) == c.b - c.r;
  }

  lemma BlueOnTop(c: SRGBA, x: real)
    requires Top(c) > Low(c) && Top(c) != c.r && Top(c) != c.g && 0.0 <= HueOf(c) < 6.0
    requires x == (Top(c) - Low(c)) * (1.0 - Abs(Mod(HueOf(c), 2.0) - 1.0))
    ensures var (r, g, b) := Sector(HueOf(c), Top(c) - Low(c), x);
            r + Low(c) == c.r && g + Low(c) == c.g && b + Low(c) == c.b
  {
    var delta := Top(c) - Low(c);
    Fraction(c.r - c.g, delta);
    Middle(HueOf(c), delta);
    assert delta * ((c.r - c.g) / delta) == c.r - c.g;
  }

  lemma Assemble(c: SRGBA, hue: real, saturation: real, value: real, h: real, chroma: real, x: real)
    requires 0.0 <= h < 6.0 && hue == h * 60.0 && chroma == value * saturation && c.a == 1.0
    requires x == chroma * (1.0 - Abs(Mod(h, 2.0) - 1.0))
    requires var (r, g, b) := Sector(h, chroma, x);
             r + (value - chroma) == c.r && g + (value - chroma) == c.g && b + (value - chroma) == c.b
    ensures HsvRgb(hue, saturation, value) == c
  {
    AtHue(h, saturation, value, chroma, x);
  }

  lemma SectorOf(c: SRGBA, delta: real, h: real, x: real)
    requires Top(c) > Low(c) && delta == Top(c) - Low(c) && h == HueOf(c) && 0.0 <= h < 6.0
    requires x == delta * (1.0 - Abs(Mod(h, 2.0) - 1.0))
    ensures var (r, g, b) := Sector(h, delta, x);
            r + (Top(c) - delta) == c.r && g + (Top(c) - delta) == c.g && b + (Top(c) - delta) == c.b
  {
    if Top(c) == c.r { RedOnTop(c, x); } else if Top(c) == c.g { GreenOnTop(c, x); } else { BlueOnTop(c, x); }
  }

  lemma SaturationRead(c: SRGBA)
    requires Valid(c) && Top(c) > Low(c)
    ensures RgbToHsv(c).2 == Top(c) && RgbToHsv(c).2 * RgbToHsv(c).1 == Top(c) - Low(c)
  {
    Chroma(Top(c) - Low(c), Top(c));
  }

  /** What a colour that is not grey reads as. */
  lemma ReadColoured(c: SRGBA) returns (saturation: real)
    requires Valid(c) && Top(c) > Low(c)
    ensures 0.0 <= HueOf(c) < 6.0 && RgbToHsv(c) == (HueOf(c) * 60.0, saturation, Top(c))
    ensures Top(c) * saturation == Top(c) - Low(c)
  {
    HueRead(c);
    SaturationRead(c);
    saturation := RgbToHsv(c).1;
  }

  lemma ColouredRoundTrip(c: SRGBA)
    requires Opaque(c) && Top(c) > Low(c)
    ensures var (hue, saturation, value) := RgbToHsv(c); HsvRgb(hue, saturation, value) == c
  {
    var saturation := ReadColoured(c);
    RenderColoured(c, saturation);
  }

  lemma RenderColoured(c: SRGBA, saturation: real)
    requires Opaque(c) && Top(c) > Low(c) && 0.0 <= HueOf(c) < 6.0 && Top(c) * saturation == Top(c) - Low(c)
    ensures HsvRgb(HueOf(c) * 60.0, saturation, Top(c)) == c
  {
    var delta, h := Top(c) - Low(c), HueOf(c);
    var x := delta * (1.0 - Abs(Mod(h, 2.0) - 1.0));
    SectorOf(c, delta, h, x);
    Assemble(c, h * 60.0, saturation, Top(c), h, delta, x);
  }

  /** Reading a colour as hue, saturation and value and rendering it again gives the
      colour back, in every sector and for greys and black. */
  lemma HsvRoundTrip(c: SRGBA)
    requires Opaque(c)
    ensures var (hue, saturation, value) := RgbToHsv(c); HsvRgb(hue, saturation, value) == c
  {
    if Top(c) == Low(c) { GreyRoundTrip(c); } else { ColouredRoundTrip(c); }
  }

  lemma GreyRoundTrip(c: SRGBA)
    requires Opaque(c) && Top(c) == Low(c)
    ensures var (hue, saturation, value) := RgbToHsv(c); HsvRgb(hue, saturation, value) == c
  {
    assert RgbToHsv(c) == (0.0, 0.0, Top(c));
    AtHue(0.0, 0.0, Top(c), 0.0, 0.0);
  }

  /** The hue says which channel is on top, the value is that channel, and the saturation
      how far below it the lowest one is. */
  lemma HueNamesTheTop(c: SRGBA)
    requires Opaque(c) && Top(c) > Low(c)
    ensures var (hue, saturation, value) := RgbToHsv(c);
            && 0.0 <= hue < 360.0 && value == Top(c) && value * (1.0 - saturation) == Low(c)
            && (Top(c) == c.r ==> hue <= 60.0 || hue >= 300.0)
            && (Top(c) == c.g ==> 60.0 <= hue <= 180.0)
            && (Top(c) == c.b ==> 180.0 <= hue <= 300.0)
  {
    var saturation := ReadColoured(c);
    assert Top(c) * (1.0 - saturation) == Top(c) - Top(c) * saturation;
    HueSide(c);
  }

  lemma HueSide(c: SRGBA)
    requires Top(c) > Low(c)
    ensures Top(c) == c.r ==> HueOf(c) <= 1.0 || HueOf(c) >= 5.0
    ensures Top(c) == c.g ==> 1.0 <= HueOf(c) <= 3.0
    ensures Top(c) == c.b ==> 3.0 <= HueOf(c) <= 5.0
  {
    var delta := Top(c) - Low(c);
    Fraction(c.g - c.b, delta);
    Fraction(c.b - c.r, delta);
    Fraction(c.r - c.g, delta);
    Whole(delta);
    assert Top(c) == c.r == c.g ==> c.g - c.b == delta;
    assert Top(c) == c.r == c.b && c.g < c.b ==> c.g - c.b == -delta;
    assert Top(c) == c.g == c.b && c.r < c.g ==> c.b - c.r == delta;
  }

  lemma Whole(delta: real)
    requires delta > 0.0
    ensures delta / delta == 1.0 && (-delta) / delta == -1.0
  {
  }
}
