/** Where a repair's walk goes: along the candidate's own hue, the same distance at every
    step, lighter or darker and never more saturated. */
module WalkSteps {
  import opened Colours
  import ColourGraph
  import opened ColourSpace
  import opened ColourHex
  import opened ContrastRatios
  import opened Settling

  /** A grey has no hue. */
  predicate Grey(c: SRGBA) { c.r == c.g && c.g == c.b }

  function ChromaOf(c: SRGBA): real { Top(c) - Low(c) }

  /** The channels of both stand apart in the same proportions. */
  predicate Proportional(c: SRGBA, d: SRGBA) {
    && (c.r - c.g) * ChromaOf(d) == (d.r - d.g) * ChromaOf(c)
    && (c.g - c.b) * ChromaOf(d) == (d.g - d.b) * ChromaOf(c)
    && (c.b - c.r) * ChromaOf(d) == (d.b - d.r) * ChromaOf(c)
  }

  // ------------------------------------------------------------------- hue profiles

  /** What each channel holds of the chroma at a hue of `h` sectors. */
  function Profile(h: real): (real, real, real) {
    Sector(h, 1.0, 1.0 - Abs(Mod(h, 2.0) - 1.0))
  }

  /** One channel holds it all, one nothing, the third a part. */
  predicate IsProfile(p: (real, real, real)) {
    && InUnit(p.0) && InUnit(p.1) && InUnit(p.2)
    && (p.0 == 1.0 || p.1 == 1.0 || p.2 == 1.0) && (p.0 == 0.0 || p.1 == 0.0 || p.2 == 0.0)
  }

  predicate Follows(c: SRGBA, low: real, chroma: real, p: (real, real, real)) {
    c.r == low + chroma * p.0 && c.g == low + chroma * p.1 && c.b == low + chroma * p.2
  }

  function ProfileHue(p: (real, real, real)): real {
    if p.0 == 1.0 then Mod(p.1 - p.2, 6.0) * 60.0
    else if p.1 == 1.0 then (p.2 - p.0 + 2.0) * 60.0
    else (p.0 - p.1 + 4.0) * 60.0
  }

  lemma ProfileOk(h: real)
    requires 0.0 <= h < 6.0
    ensures IsProfile(Profile(h))
  {
    Middle(h, 1.0);
  }

  lemma SectorScales(h: real, c: real, x: real)
    ensures var (r, g, b) := Sector(h, c, c * x);
            var (p, q, s) := Sector(h, 1.0, x);
            r == c * p && g == c * q && b == c * s
  {
  }

  /** The profile of a hue in degrees. */
  function AtDegrees(hue: real): (real, real, real) { Profile(hue / 60.0) }

  /** The low and the channels above it. */
  function Over(h: real, chroma: real, y: real, low: real): SRGBA {
    SRGBA(Sector(h, chroma, y).0 + low, Sector(h, chroma, y).1 + low, Sector(h, chroma, y).2 + low, 1.0)
  }

  lemma SectorFollows(h: real, chroma: real, low: real, x: real, y: real)
    requires y == chroma * x
    ensures Follows(Over(h, chroma, y, low), low, chroma, Sector(h, 1.0, x))
  {
    SectorScales(h, chroma, x);
  }

  /** The chroma of a saturation and a value. */
  function Chromatic(saturation: real, value: real): real { value * saturation }

  /** A rendered colour follows its hue's profile. */
  lemma RenderedFollows(hue: real, saturation: real, value: real) returns (low: real, chroma: real)
    requires HsvOk(hue, saturation, value)
    ensures chroma == Chromatic(saturation, value) && low == value - chroma && 0.0 <= chroma
    ensures IsProfile(AtDegrees(hue)) && Follows(HsvRgb(hue, saturation, value), low, chroma, AtDegrees(hue))
  {
    chroma := Chromatic(saturation, value);
    low := value - chroma;
    ChromaInRange(saturation, value);
    ProfileOk(hue / 60.0);
    RendersAs(hue, saturation, value, low, chroma, hue / 60.0);
  }

  lemma RendersAs(hue: real, saturation: real, value: real, low: real, chroma: real, h: real)
    requires 0.0 <= h < 6.0 && hue == h * 60.0 && chroma == Chromatic(saturation, value) && low == value - chroma
    ensures Follows(HsvRgb(hue, saturation, value), low, chroma, Profile(h))
  {
    var x := 1.0 - Abs(Mod(h, 2.0) - 1.0);
    var y := chroma * x;
    RendersOver(hue, saturation, value, low, chroma, h, y);
    SectorFollows(h, chroma, low, x, y);
    FollowsToo(Over(h, chroma, y, low), HsvRgb(hue, saturation, value), low, chroma, Profile(h));
  }

  lemma RendersOver(hue: real, saturation: real, value: real, low: real, chroma: real, h: real, y: real)
    requires 0.0 <= h < 6.0 && hue == h * 60.0 && chroma == value * saturation && low == value - chroma
    requires y == chroma * (1.0 - Abs(Mod(h, 2.0) - 1.0))
    ensures HsvRgb(hue, saturation, value) == Over(h, chroma, y, low)
  {
    AtHue(h, saturation, value, chroma, y);
  }

  lemma FollowsToo(c: SRGBA, d: SRGBA, low: real, chroma: real, p: (real, real, real))
    requires Follows(c, low, chroma, p) && c == d
    ensures Follows(d, low, chroma, p)
  {
  }

  lemma PartOf(chroma: real, p: real) returns (part: real)
    requires chroma >= 0.0 && InUnit(p)
    ensures part == chroma * p && 0.0 <= part <= chroma
    ensures p == 1.0 ==> part == chroma
    ensures p == 0.0 ==> part == 0.0
    ensures chroma > 0.0 && p != 1.0 ==> part < chroma
  {
    part := chroma * p;
    ColourGraph.Product(chroma, p);
    ColourGraph.Product(chroma, 1.0 - p);
    assert chroma * (1.0 - p) == chroma - part;
    if chroma > 0.0 && p != 1.0 { Positive(chroma, 1.0 - p); }
  }

  /** The ends of a colour that follows a profile. */
  lemma EndsOf(c: SRGBA, low: real, chroma: real, p: (real, real, real))
    requires IsProfile(p) && chroma >= 0.0 && Follows(c, low, chroma, p)
    ensures Top(c) == low + chroma && Low(c) == low && ChromaOf(c) == chroma
    ensures chroma > 0.0 ==> (Top(c) == c.r <==> p.0 == 1.0) && (Top(c) == c.g <==> p.1 == 1.0)
  {
    var r := PartOf(chroma, p.0);
    var g := PartOf(chroma, p.1);
    var b := PartOf(chroma, p.2);
    EndsAt(c, low, chroma, r, g, b);
  }

  lemma EndsAt(c: SRGBA, low: real, chroma: real, r: real, g: real, b: real)
    requires c.r == low + r && c.g == low + g && c.b == low + b
    requires 0.0 <= r <= chroma && 0.0 <= g <= chroma && 0.0 <= b <= chroma
    requires (r == chroma || g == chroma || b == chroma) && (r == 0.0 || g == 0.0 || b == 0.0)
    ensures Top(c) == low + chroma && Low(c) == low && ChromaOf(c) == chroma
  {
  }

  lemma Apart(low: real, chroma: real, p: real, q: real)
    requires chroma > 0.0
    ensures ((low + chroma * p) - (low + chroma * q)) / chroma == p - q
  {
    assert (low + chroma * p) - (low + chroma * q) == (p - q) * chroma;
    Quotient(p - q, chroma);
  }

  lemma Quotient(q: real, d: real)
    requires d > 0.0
    ensures (q * d) / d == q
  {
  }

  lemma Differences(c: SRGBA, low: real, chroma: real, p: (real, real, real), x: real, y: real, z: real)
    requires chroma > 0.0 && Follows(c, low, chroma, p)
    requires x == (c.g - c.b) / chroma && y == (c.b - c.r) / chroma && z == (c.r - c.g) / chroma
    ensures x == p.1 - p.2 && y == p.2 - p.0 && z == p.0 - p.1
  {
    Apart(low, chroma, p.1, p.2);
    Apart(low, chroma, p.2, p.0);
    Apart(low, chroma, p.0, p.1);
  }

  /** Its hue is the profile's alone. */
  lemma HueFollows(c: SRGBA, low: real, chroma: real, p: (real, real, real))
    requires IsProfile(p) && chroma > 0.0 && Follows(c, low, chroma, p)
    ensures RawHue(c) == ProfileHue(p)
  {
    var x, y, z := (c.g - c.b) / chroma, (c.b - c.r) / chroma, (c.r - c.g) / chroma;
    EndsOf(c, low, chroma, p);
    Differences(c, low, chroma, p, x, y, z);
    HueAt(c, chroma, p, x, y, z);
  }

  lemma HueAt(c: SRGBA, chroma: real, p: (real, real, real), x: real, y: real, z: real)
    requires ChromaOf(c) == chroma > 0.0 && x == (c.g - c.b) / chroma && y == (c.b - c.r) / chroma && z == (c.r - c.g) / chroma
    requires x == p.1 - p.2 && y == p.2 - p.0 && z == p.0 - p.1
    requires (Top(c) == c.r <==> p.0 == 1.0) && (Top(c) == c.g <==> p.1 == 1.0)
    ensures RawHue(c) == ProfileHue(p)
  {
  }

  lemma ProportionsFollow(c: SRGBA, low: real, chroma: real, d: SRGBA, low2: real, chroma2: real, p: (real, real, real))
    requires IsProfile(p) && chroma >= 0.0 && chroma2 >= 0.0
    requires Follows(c, low, chroma, p) && Follows(d, low2, chroma2, p)
    ensures Proportional(c, d)
  {
    EndsOf(c, low, chroma, p);
    EndsOf(d, low2, chroma2, p);
    Crossed(low, chroma, low2, chroma2, p.0, p.1);
    Crossed(low, chroma, low2, chroma2, p.1, p.2);
    Crossed(low, chroma, low2, chroma2, p.2, p.0);
  }

  lemma Crossed(low: real, chroma: real, low2: real, chroma2: real, p: real, q: real)
    ensures ((low + chroma * p) - (low + chroma * q)) * chroma2 == ((low2 + chroma2 * p) - (low2 + chroma2 * q)) * chroma
  {
    assert ((low + chroma * p) - (low + chroma * q)) == chroma * (p - q);
    assert ((low2 + chroma2 * p) - (low2 + chroma2 * q)) == chroma2 * (p - q);
    assert (chroma * (p - q)) * chroma2 == (chroma2 * (p - q)) * chroma;
  }

  // ---------------------------------------------------------------------- the colour

  /** Any colour follows the profile of the hue it reads as. */
  lemma ReadFollows(raw: SRGBA) returns (low: real, chroma: real)
    requires Valid(raw)
    ensures chroma == Chromatic(RgbToHsv(raw).1, RgbToHsv(raw).2) && 0.0 <= chroma
    ensures IsProfile(AtDegrees(RgbToHsv(raw).0)) && Follows(raw, low, chroma, AtDegrees(RgbToHsv(raw).0))
  {
    var solid := SRGBA(raw.r, raw.g, raw.b, 1.0);
    AlphaIsNotRead(raw, solid);
    HsvReadOk(raw);
    HsvRoundTrip(solid);
    low, chroma := ReadAs(raw, solid, RgbToHsv(raw).0, RgbToHsv(raw).1, RgbToHsv(raw).2);
  }

  lemma ReadAs(raw: SRGBA, solid: SRGBA, hue: real, saturation: real, value: real) returns (low: real, chroma: real)
    requires HsvOk(hue, saturation, value) && HsvRgb(hue, saturation, value) == solid
    requires solid.r == raw.r && solid.g == raw.g && solid.b == raw.b
    ensures chroma == Chromatic(saturation, value) && 0.0 <= chroma
    ensures IsProfile(AtDegrees(hue)) && Follows(raw, low, chroma, AtDegrees(hue))
  {
    low, chroma := RenderedFollows(hue, saturation, value);
    FollowsAlike(solid, raw, low, chroma, AtDegrees(hue));
  }

  lemma FollowsAlike(c: SRGBA, d: SRGBA, low: real, chroma: real, p: (real, real, real))
    requires Follows(c, low, chroma, p) && c.r == d.r && c.g == d.g && c.b == d.b
    ensures Follows(d, low, chroma, p)
  {
  }

  lemma AlphaIsNotRead(c: SRGBA, d: SRGBA)
    requires c.r == d.r && c.g == d.g && c.b == d.b
    ensures RgbToHsv(c) == RgbToHsv(d)
  {
  }

  /** A point of the walk follows the same profile. */
  lemma TowardFollows(raw: SRGBA, light: bool, t: real, hsv: (real, real, real)) returns (low: real, chroma: real)
    requires Valid(raw) && InUnit(t) && hsv == Walked(raw, light, t)
    ensures HsvOk(hsv.0, hsv.1, hsv.2)
    ensures chroma == Chromatic(hsv.1, hsv.2) && low == hsv.2 - chroma && 0.0 <= chroma
    ensures IsProfile(AtDegrees(hsv.0)) && Follows(Toward(raw, light, t), low, chroma, AtDegrees(hsv.0))
  {
    WalkedOk(raw, light, t);
    low, chroma := RenderedFollows(hsv.0, hsv.1, hsv.2);
  }

  /** How much of a saturation is left. */
  function Left(saturation: real, t: real): real { saturation * (1.0 - t) }

  lemma WalkedIs(raw: SRGBA, light: bool, t: real)
    ensures Walked(raw, light, t).0 == RgbToHsv(raw).0
    ensures Walked(raw, light, t).1 == Left(RgbToHsv(raw).1, t)
    ensures Walked(raw, light, t).2 == Moved(RgbToHsv(raw).2, light, t)
  {
  }

  /** Two colours on one profile: the same proportions, and the same hue unless grey. */
  lemma OneProfile(c: SRGBA, low: real, chroma: real, d: SRGBA, low2: real, chroma2: real, p: (real, real, real))
    requires IsProfile(p) && chroma >= 0.0 && chroma2 >= 0.0 && (chroma > 0.0 ==> chroma2 > 0.0)
    requires Follows(c, low, chroma, p) && Follows(d, low2, chroma2, p)
    ensures Proportional(c, d)
    ensures !Grey(c) ==> !Grey(d) && RgbToHsv(c).0 == RgbToHsv(d).0
  {
    ProportionsFollow(c, low, chroma, d, low2, chroma2, p);
    EndsOf(c, low, chroma, p);
    EndsOf(d, low2, chroma2, p);
    if !Grey(c) {
      ColouredHasChroma(c);
      HueFollows(c, low, chroma, p);
      HueFollows(d, low2, chroma2, p);
      SameRawHue(c, d);
    }
  }

  lemma ColouredHasChroma(c: SRGBA)
    ensures Grey(c) <==> ChromaOf(c) == 0.0
  {
  }

  lemma SameRawHue(c: SRGBA, d: SRGBA)
    requires RawHue(c) == RawHue(d)
    ensures RgbToHsv(c).0 == RgbToHsv(d).0
  {
  }

  /** The walk keeps the candidate's hue wherever there is one to see, and the channels
      their proportions everywhere. */
  lemma WalkKeepsTheHue(raw: SRGBA, light: bool, t: real)
    requires Valid(raw) && InUnit(t)
    ensures Valid(Toward(raw, light, t)) && Toward(raw, light, t).a == 1.0
    ensures Proportional(Toward(raw, light, t), raw)
    ensures !Grey(Toward(raw, light, t)) ==> !Grey(raw) && RgbToHsv(Toward(raw, light, t)).0 == RgbToHsv(raw).0
  {
    TowardValid(raw, light, t);
    var hsv := RgbToHsv(raw);
    var low2, chroma2 := ReadFollows(raw);
    WalkedIs(raw, light, t);
    var low, chroma := TowardFollows(raw, light, t, Walked(raw, light, t));
    HsvReadOk(raw);
    ValueRead(raw);
    if chroma > 0.0 { StillColoured(hsv.1, hsv.2, light, t); }
    OneProfile(Toward(raw, light, t), low, chroma, raw, low2, chroma2, AtDegrees(hsv.0));
  }

  /** A walk that has colour left started with some. */
  lemma StillColoured(saturation: real, value: real, light: bool, t: real)
    requires InUnit(saturation) && InUnit(value) && InUnit(t) && (value == 0.0 ==> saturation == 0.0)
    requires Chromatic(Left(saturation, t), Moved(value, light, t)) > 0.0
    ensures Chromatic(saturation, value) > 0.0
  {
    if saturation == 0.0 {
      NothingIsLeft(Moved(value, light, t), 1.0 - t);
      assert false;
    }
    Positive(value, saturation);
  }

  lemma NothingIsLeft(value: real, rest: real)
    ensures Chromatic(0.0 * rest, value) == 0.0
  {
  }

  // ------------------------------------------------------------------------- the pace

  /** How saturated a colour is; black is not. */
  function SaturationOf(c: SRGBA): real { RgbToHsv(c).1 }

  lemma SaturationReads(c: SRGBA, saturation: real, value: real)
    requires Top(c) == value && ChromaOf(c) == Chromatic(saturation, value) && (value == 0.0 ==> saturation == 0.0)
    requires value >= 0.0
    ensures SaturationOf(c) == saturation
  {
    if value > 0.0 {
      Quotient(saturation, value);
      assert value * saturation == saturation * value;
    }
  }

  lemma BlackOnlyUnsaturated(saturation: real, value: real, light: bool, t: real)
    requires InUnit(value) && InUnit(t) && (value == 0.0 ==> saturation == 0.0) && Moved(value, light, t) == 0.0
    ensures Left(saturation, t) == 0.0
  {
    if value > 0.0 {
      ColourGraph.Product(1.0 - value, t);
      if t < 1.0 { Positive(value, 1.0 - t); }
    }
  }

  /** A fraction `t` of the way from one number to another. */
  function Along(from: real, to: real, t: real): real { from + t * (to - from) }

  /** The value of the pole. */
  function End(light: bool): real { if light then 1.0 else 0.0 }

  /** A fraction `t` of the walk is that fraction of the way to the pole in value, and that
      fraction of the way to no saturation. */
  lemma WalkIsLinear(raw: SRGBA, light: bool, t: real)
    requires Valid(raw) && InUnit(t)
    ensures Top(Toward(raw, light, t)) == Along(Top(raw), End(light), t)
    ensures SaturationOf(Toward(raw, light, t)) == Along(SaturationOf(raw), 0.0, t)
  {
    var hsv := RgbToHsv(raw);
    WalkedIs(raw, light, t);
    var low, chroma := TowardFollows(raw, light, t, Walked(raw, light, t));
    HsvReadOk(raw);
    ValueRead(raw);
    PointReads(Toward(raw, light, t), low, chroma, AtDegrees(hsv.0), hsv.1, hsv.2, light, t);
  }

  lemma PointReads(c: SRGBA, low: real, chroma: real, p: (real, real, real), saturation: real, value: real, light: bool, t: real)
    requires IsProfile(p) && chroma >= 0.0 && Follows(c, low, chroma, p)
    requires InUnit(value) && InUnit(t) && (value == 0.0 ==> saturation == 0.0)
    requires chroma == Chromatic(Left(saturation, t), Moved(value, light, t)) && low == Moved(value, light, t) - chroma
    ensures Top(c) == Along(value, End(light), t) && SaturationOf(c) == Along(saturation, 0.0, t)
  {
    EndsOf(c, low, chroma, p);
    MovedIs(value, light, t);
    if Moved(value, light, t) == 0.0 { BlackOnlyUnsaturated(saturation, value, light, t); }
    MovedInUnit(value, light, t);
    SaturationReads(c, Left(saturation, t), Moved(value, light, t));
    assert Left(saturation, t) == Along(saturation, 0.0, t);
  }

  lemma MovedInUnit(value: real, light: bool, t: real)
    requires InUnit(value) && InUnit(t)
    ensures InUnit(Moved(value, light, t))
  {
    MovedOk(0.0, 0.0, value, light, t);
  }

  lemma MovedIs(value: real, light: bool, t: real)
    ensures Moved(value, light, t) == Along(value, End(light), t)
  {
  }

  lemma ValueRead(raw: SRGBA)
    ensures RgbToHsv(raw).2 == Top(raw)
    ensures RgbToHsv(raw).2 == 0.0 ==> RgbToHsv(raw).1 == 0.0
  {
  }

  /** Toward white the value never falls, toward black it never rises, and the saturation
      never rises. */
  lemma WalkNeverTurnsBack(raw: SRGBA, light: bool, t: real, u: real)
    requires Valid(raw) && 0.0 <= t <= u <= 1.0
    ensures light ==> Top(raw) <= Top(Toward(raw, light, t)) <= Top(Toward(raw, light, u))
    ensures !light ==> Top(Toward(raw, light, u)) <= Top(Toward(raw, light, t)) <= Top(raw)
    ensures SaturationOf(Toward(raw, light, u)) <= SaturationOf(Toward(raw, light, t)) <= SaturationOf(raw)
  {
    WalkIsLinear(raw, light, t);
    WalkIsLinear(raw, light, u);
    HsvReadOk(raw);
    ValueRead(raw);
    Onward(Top(raw), Top(Toward(raw, light, t)), Top(Toward(raw, light, u)), light, t, u);
    Further(SaturationOf(raw), 0.0, t, u);
  }

  lemma Onward(v: real, x: real, y: real, light: bool, t: real, u: real)
    requires InUnit(v) && 0.0 <= t <= u
    requires x == Along(v, End(light), t) && y == Along(v, End(light), u)
    ensures if light then v <= x <= y else y <= x <= v
  {
    if light { Further(1.0, v, t, u); } else { Further(v, 0.0, t, u); }
  }

  lemma Scaled(d: real, t: real, u: real)
    requires d >= 0.0 && 0.0 <= t <= u
    ensures 0.0 <= t * d <= u * d
  {
    ColourGraph.Product(t, d);
    ColourGraph.Product(u - t, d);
    assert (u - t) * d == u * d - t * d;
  }

  lemma Opposite(t: real, d: real)
    ensures t * (-d) == -(t * d)
  {
  }

  lemma Further(a: real, b: real, t: real, u: real)
    requires b <= a && 0.0 <= t <= u
    ensures Along(a, b, u) <= Along(a, b, t) <= a
    ensures b <= Along(b, a, t) <= Along(b, a, u)
  {
    var d := a - b;
    Scaled(d, t, u);
    Opposite(t, d);
    Opposite(u, d);
    assert b - a == -d;
  }

  /** The walk starts at the candidate. */
  lemma WalkStartsAtTheCandidate(raw: SRGBA, light: bool)
    requires Opaque(raw)
    ensures Toward(raw, light, 0.0) == raw
  {
    HsvRoundTrip(raw);
  }

  /** The colour of step `k` of the 255. */
  function StepColour(raw: SRGBA, light: bool, k: nat): SRGBA { Toward(raw, light, Share(k)) }

  lemma OneShare(k: nat)
    requires k < 255
    ensures InUnit(Share(k)) && InUnit(Share(k + 1)) && Share(k + 1) == Share(k) + Share(1) && Share(0) == 0.0 && Share(255) == 1.0
  {
  }

  /** Each of the 255 steps moves the value and the saturation by the same amount: a 255th
      of the way to the pole, a 255th of the saturation. */
  lemma StepsAreEven(raw: SRGBA, light: bool, k: nat)
    requires Valid(raw) && k < 255
    ensures EvenStep(Top(StepColour(raw, light, k)), Top(StepColour(raw, light, k + 1)), Top(raw), End(light))
    ensures EvenStep(SaturationOf(StepColour(raw, light, k)), SaturationOf(StepColour(raw, light, k + 1)), SaturationOf(raw), 0.0)
  {
    OneShare(k);
    WalkIsLinear(raw, light, Share(k));
    WalkIsLinear(raw, light, Share(k + 1));
    OneMore(Top(raw), End(light), Share(k), Share(1), Share(k + 1));
    OneMore(SaturationOf(raw), 0.0, Share(k), Share(1), Share(k + 1));
  }

  /** A 255th of the way from one end to the other. */
  predicate EvenStep(x: real, y: real, from: real, to: real) {
    255.0 * (y - x) == to - from
  }

  lemma OneMore(from: real, to: real, t: real, step: real, u: real)
    requires 255.0 * step == 1.0 && u == t + step
    ensures EvenStep(Along(from, to, t), Along(from, to, u), from, to)
  {
    assert u * (to - from) - t * (to - from) == step * (to - from);
    assert 255.0 * (step * (to - from)) == (255.0 * step) * (to - from);
  }

  /** The first step starts from the candidate's own value and saturation. */
  lemma StepsStartAtTheCandidate(raw: SRGBA, light: bool)
    requires Valid(raw)
    ensures Top(StepColour(raw, light, 0)) == Top(raw) && SaturationOf(StepColour(raw, light, 0)) == SaturationOf(raw)
  {
    OneShare(0);
    WalkIsLinear(raw, light, 0.0);
  }

  /** What a repair answers lies on that line: the candidate itself, the pole, or the
      nearest literal to the colour of one of the steps. */
  lemma AnswerIsOnTheLine(f: real -> real, candidate: string, grounds: seq<Ground>, floor: real, light: bool, answer: string)
    requires Linearises(f) && GroundsOk(grounds) && SettledToward(f, candidate, grounds, floor, light, answer)
    ensures answer == candidate || answer == PoleLit(light) ||
      exists k :: 1 <= k < 255 && IsStep(MustParse(candidate), light, k, answer)
  {
    var raw := MustParse(candidate);
    if answer != candidate && !NoStep(Passing(f, raw, grounds, floor, light)) {
      var k :| First(Passing(f, raw, grounds, floor, light), k) && answer == StepLit(raw, light, k);
      if k == 255 {
        LastStepIsThePole(raw, light);
      } else {
        StepIsOnTheLine(raw, light, k);
      }
    }
  }

  lemma StepIsOnTheLine(raw: SRGBA, light: bool, k: nat)
    requires Valid(raw) && k <= 255
    ensures IsStep(raw, light, k, StepLit(raw, light, k))
  {
    WalkKeepsTheHue(raw, light, Share(k));
    WalkIsLinear(raw, light, Share(k));
  }

  /** The literal stored for a colour of the candidate's hue, `k` 255ths of the way. */
  predicate IsStep(raw: SRGBA, light: bool, k: nat, answer: string)
    requires Valid(raw)
  {
    var c := StepColour(raw, light, k);
    && Opaque(c) && answer == HexColor(c)
    && Proportional(c, raw) && (!Grey(c) ==> RgbToHsv(c).0 == RgbToHsv(raw).0)
    && Top(c) == Along(Top(raw), End(light), Share(k)) && SaturationOf(c) == Along(SaturationOf(raw), 0.0, Share(k))
  }

  // ---------------------------------------------------------------------- the ground

  /** A plain ground is its base whatever stands on it; a tinted one holds that many
      hundredths of the colour itself and the rest of its base, and is opaque. */
  lemma WhatStandsUnder(g: Ground, c: SRGBA)
    ensures g.tint <= 0.0 ==> Under(g, c) == g.base
    ensures g.tint > 0.0 ==> Under(g, c).a == 1.0
    ensures g.tint > 0.0 ==> 100.0 * Under(g, c).r == g.tint * c.r + (100.0 - g.tint) * g.base.r
    ensures g.tint > 0.0 ==> 100.0 * Under(g, c).g == g.tint * c.g + (100.0 - g.tint) * g.base.g
    ensures g.tint > 0.0 ==> 100.0 * Under(g, c).b == g.tint * c.b + (100.0 - g.tint) * g.base.b
    ensures g.tint == 100.0 ==> Under(g, c) == SRGBA(c.r, c.g, c.b, 1.0)
  {
    if g.tint > 0.0 {
      Tinted(c.r, g.base.r, g.tint, g.tint / 100.0);
      Tinted(c.g, g.base.g, g.tint, g.tint / 100.0);
      Tinted(c.b, g.base.b, g.tint, g.tint / 100.0);
    }
  }

  lemma Tinted(x: real, y: real, tint: real, w: real)
    requires tint == 100.0 * w
    ensures 100.0 * (x * w + y * (1.0 - w)) == tint * x + (100.0 - tint) * y
    ensures tint == 100.0 ==> x * w + y * (1.0 - w) == x
  {
    assert 100.0 * (x * w) == (100.0 * w) * x;
    assert 100.0 * (y * (1.0 - w)) == (100.0 - 100.0 * w) * y;
    if tint == 100.0 { assert w == 1.0; }
  }
}
