/** Contrast ratios (WCAG 2.2, relative luminance and contrast ratio) over any channel
    linearisation that keeps 0, 1 and the unit interval. */
module ContrastRatios {
  import opened Colours
  import ColourGraph
  import opened ColourSpace

  ghost predicate Linearises(f: real -> real) {
    f(0.0) == 0.0 && f(1.0) == 1.0 && forall x {:trigger f(x)} :: InUnit(x) ==> InUnit(f(x))
  }

  function LuminanceOf(f: real -> real, c: SRGBA): real {
    0.2126 * f(c.r) + 0.7152 * f(c.g) + 0.0722 * f(c.b)
  }

  function RatioOf(la: real, lb: real): real
    requires la >= 0.0 && lb >= 0.0
  {
    (Max(la, lb) + 0.05) / (Min(la, lb) + 0.05)
  }

  function ContrastOf(f: real -> real, a: SRGBA, b: SRGBA): real
    requires LuminanceOf(f, a) >= 0.0 && LuminanceOf(f, b) >= 0.0
  {
    RatioOf(LuminanceOf(f, a), LuminanceOf(f, b))
  }

  lemma LuminanceInUnit(f: real -> real, c: SRGBA)
    requires Linearises(f) && Valid(c)
    ensures InUnit(LuminanceOf(f, c))
  {
  }

  /** What each primary weighs, and that the weights are all there is to a grey. */
  lemma PrimariesWeigh(f: real -> real, x: real, alpha: real)
    requires Linearises(f)
    ensures LuminanceOf(f, SRGBA(1.0, 0.0, 0.0, alpha)) == 0.2126
    ensures LuminanceOf(f, SRGBA(0.0, 1.0, 0.0, alpha)) == 0.7152
    ensures LuminanceOf(f, SRGBA(0.0, 0.0, 1.0, alpha)) == 0.0722
    ensures LuminanceOf(f, SRGBA(x, x, x, alpha)) == f(x)
  {
  }

  const WHITE := SRGBA(1.0, 1.0, 1.0, 1.0)
  const BLACK := SRGBA(0.0, 0.0, 0.0, 1.0)
  const GREY := SRGBA(0.5, 0.5, 0.5, 1.0)

  /** The weighted sum over the three channels. */
  method Luminance(f: real -> real, c: SRGBA) returns (sum: real)
    ensures sum == LuminanceOf(f, c)
  {
    var weights, channels := [0.2126, 0.7152, 0.0722], [c.r, c.g, c.b];
    sum := 0.0;
    for i := 0 to 3
      invariant sum == (if i > 0 then 0.2126 * f(c.r) else 0.0) + (if i > 1 then 0.7152 * f(c.g) else 0.0)
                       + (if i > 2 then 0.0722 * f(c.b) else 0.0)
    {
      sum := sum + weights[i] * f(channels[i]);
    }
  }

  method Contrast(f: real -> real, a: SRGBA, b: SRGBA) returns (ratio: real)
    requires Linearises(f) && Valid(a) && Valid(b)
    ensures LuminanceOf(f, a) >= 0.0 && LuminanceOf(f, b) >= 0.0
    ensures ratio == ContrastOf(f, a, b)
  {
    LuminanceInUnit(f, a);
    LuminanceInUnit(f, b);
    var la := Luminance(f, a);
    var lb := Luminance(f, b);
    if lb > la {
      la, lb := lb, la;
    }
    ratio := (la + 0.05) / (lb + 0.05);
  }

  // ------------------------------------------------------------------------- bounds

  /** A ratio reaches a floor exactly when the lighter end is the floor times the darker. */
  lemma Reaches(la: real, lb: real, floor: real)
    requires la >= 0.0 && lb >= 0.0
    ensures RatioOf(la, lb) >= floor <==> Max(la, lb) + 0.05 >= floor * (Min(la, lb) + 0.05)
  {
    var hi, lo := Max(la, lb) + 0.05, Min(la, lb) + 0.05;
    var q := hi / lo;
    assert q * lo == hi;
    if q >= floor { ColourGraph.Product(q - floor, lo); } else { ColourGraph.Negative(q - floor, lo); }
  }

  /** Contrast is symmetric, 1 between equals and 21 between black and white, and never
      outside those. */
  lemma ContrastBounds(f: real -> real, a: SRGBA, b: SRGBA)
    requires Linearises(f) && Valid(a) && Valid(b)
    ensures LuminanceOf(f, a) >= 0.0 && LuminanceOf(f, b) >= 0.0
    ensures ContrastOf(f, a, b) == ContrastOf(f, b, a)
    ensures 1.0 <= ContrastOf(f, a, b) <= 21.0
    ensures ContrastOf(f, a, a) == 1.0
  {
    LuminanceInUnit(f, a);
    LuminanceInUnit(f, b);
    var la, lb := LuminanceOf(f, a), LuminanceOf(f, b);
    Reaches(la, lb, 1.0);
    AtMost21(la, lb);
    ColourSpace.Fraction(la + 0.05, la + 0.05);
  }

  lemma AtMost21(la: real, lb: real)
    requires InUnit(la) && InUnit(lb)
    ensures RatioOf(la, lb) <= 21.0
  {
    var hi, lo := Max(la, lb) + 0.05, Min(la, lb) + 0.05;
    var q := hi / lo;
    assert q * lo == hi;
    assert (21.0 - q) * lo == 21.0 * lo - hi;
    assert hi <= 1.05 && 21.0 * lo >= 1.05;
    ColourGraph.Factor(21.0 - q, lo);
  }

  /** White's and black's contrasts on one ground multiply to 21, so the better of the
      two reaches every floor up to the square root of 21. */
  lemma PolesMultiply(f: real -> real, ground: SRGBA)
    requires Linearises(f) && Valid(ground)
    ensures LuminanceOf(f, WHITE) == 1.0 && LuminanceOf(f, BLACK) == 0.0 && InUnit(LuminanceOf(f, ground))
    ensures ContrastOf(f, WHITE, ground) * ContrastOf(f, BLACK, ground) == 21.0
    ensures ContrastOf(f, WHITE, BLACK) == 21.0
  {
    LuminanceInUnit(f, ground);
    var l := LuminanceOf(f, ground) + 0.05;
    assert ContrastOf(f, WHITE, ground) == 1.05 / l;
    assert ContrastOf(f, BLACK, ground) == l / 0.05;
    assert (1.05 / l) * l == 1.05;
    assert (1.05 / l) * (l / 0.05) == ((1.05 / l) * l) / 0.05;
  }

  /** Against a ground, whichever end of the scale reads better reaches every floor up to
      the square root of 21. */
  lemma BetterEnd(l: real, floor: real)
    requires InUnit(l) && floor * floor <= 21.0
    ensures RatioOf(1.0, l) >= RatioOf(0.0, l) ==> RatioOf(1.0, l) >= floor
    ensures RatioOf(1.0, l) < RatioOf(0.0, l) ==> RatioOf(0.0, l) >= floor
  {
    var m := l + 0.05;
    assert RatioOf(0.0, l) == 20.0 * m;
    Reaches(1.0, l, 20.0 * m);
    Reaches(1.0, l, floor);
    Reaches(0.0, l, floor);
    if 1.05 >= 20.0 * m * m { WhiteEnd(m, floor); } else { BlackEnd(m, floor); }
  }

  lemma WhiteEnd(m: real, floor: real)
    requires m > 0.0 && 1.05 >= 20.0 * m * m && floor * floor <= 21.0
    ensures floor * m <= 1.05
  {
    if floor * m > 1.05 {
      var p := floor * m;
      Positive(p - 1.05, p);
      assert p * p == (floor * floor) * (m * m);
      ColourGraph.Product(21.0 - floor * floor, m * m);
    }
  }

  lemma BlackEnd(m: real, floor: real)
    requires m > 0.0 && 20.0 * m * m >= 1.05 && floor * floor <= 21.0
    ensures floor <= 20.0 * m
  {
    var p := 20.0 * m;
    assert p * p == 20.0 * (20.0 * m * m);
    if floor > p {
      Positive(floor - p, p);
      Positive(floor - p, floor);
    }
  }

  // ------------------------------------------------------------------- two canvases

  /** A luminance reaches 4.5:1 on both canvases. */
  predicate ReadsOnBoth(x: real, light: real, dark: real)
    requires x >= 0.0 && light >= 0.0 && dark >= 0.0
  {
    RatioOf(x, light) >= 4.5 && RatioOf(x, dark) >= 4.5
  }

  predicate FarEnough(light: real, dark: real)
    requires light >= 0.0 && dark >= 0.0
  {
    RatioOf(light, dark) >= 20.25 || dark >= 0.175 || light <= 11.0 / 60.0
  }

  /** Some luminance reads at 4.5:1 on a light and a dark canvas exactly when the two are
      at least 20.25:1 apart, or the dark one is light enough for black, or the light one
      dark enough for white. */
  lemma OneColourForBoth(light: real, dark: real)
    requires InUnit(light) && InUnit(dark) && dark <= light
    ensures FarEnough(light, dark) <==> exists x :: 0.0 <= x <= 1.0 && ReadsOnBoth(x, light, dark)
  {
    Reaches(light, dark, 20.25);
    if FarEnough(light, dark) {
      var x := if dark >= 0.175 then 0.0 else if light <= 11.0 / 60.0 then 1.0 else (light + 0.05) / 4.5 - 0.05;
      Reaches(x, light, 4.5);
      Reaches(x, dark, 4.5);
      assert 0.0 <= x <= 1.0 && ReadsOnBoth(x, light, dark);
    }
    forall x | 0.0 <= x <= 1.0 && ReadsOnBoth(x, light, dark) ensures FarEnough(light, dark) {
      NeedsDistance(x, light, dark);
    }
  }

  lemma NeedsDistance(x: real, light: real, dark: real)
    requires InUnit(x) && InUnit(light) && InUnit(dark) && dark <= light && ReadsOnBoth(x, light, dark)
    ensures FarEnough(light, dark)
  {
    Reaches(light, dark, 20.25);
    Reaches(x, light, 4.5);
    Reaches(x, dark, 4.5);
  }
}
