/** Repairing a colour: it walks from where it is toward white or black until it clears
    every ground it is painted on.  The walk's steps are 1/255 of the way each; over the
    reals the last one is the pole itself. */
module Settling {
  import opened Options
  import opened Colours
  import ColourGraph
  import opened ColourSpace
  import opened ColourHex
  import opened ContrastRatios

  /** A background: fixed, or `tint` percent of the candidate over a base. */
  datatype Ground = Ground(base: SRGBA, tint: real)

  predicate GroundOk(g: Ground) { Valid(g.base) && g.tint <= 100.0 }

  predicate GroundsOk(grounds: seq<Ground>) { forall i :: 0 <= i < |grounds| ==> GroundOk(grounds[i]) }

  function Under(g: Ground, candidate: SRGBA): SRGBA {
    if g.tint <= 0.0 then g.base else OpaqueBlend(candidate, g.tint, g.base)
  }

  lemma AverageInUnit(x: real, y: real, w: real)
    requires InUnit(x) && InUnit(y) && InUnit(w)
    ensures InUnit(x * w + y * (1.0 - w))
  {
    ColourGraph.AlphaBetween(x, y, w);
  }

  lemma UnderValid(g: Ground, c: SRGBA)
    requires GroundOk(g) && Valid(c)
    ensures Valid(Under(g, c))
  {
    if g.tint > 0.0 {
      AverageInUnit(c.r, g.base.r, g.tint / 100.0);
      AverageInUnit(c.g, g.base.g, g.tint / 100.0);
      AverageInUnit(c.b, g.base.b, g.tint / 100.0);
    }
  }

  /** A literal read back; what is none is mid grey. */
  function MustParse(value: string): (c: SRGBA)
    ensures Valid(c)
  {
    if IsLiteral(value) then ColourOf(value) else GREY
  }

  /** The colour reaches the floor on the ground it makes. */
  ghost predicate ClearsGround(f: real -> real, c: SRGBA, g: Ground, floor: real)
    requires Linearises(f) && Valid(c) && GroundOk(g)
  {
    UnderValid(g, c);
    LuminanceInUnit(f, c);
    LuminanceInUnit(f, Under(g, c));
    ContrastOf(f, c, Under(g, c)) >= floor
  }

  ghost predicate Clears(f: real -> real, c: SRGBA, grounds: seq<Ground>, floor: real)
    requires Linearises(f) && Valid(c) && GroundsOk(grounds)
  {
    forall i :: 0 <= i < |grounds| ==> ClearsGround(f, c, grounds[i], floor)
  }

  method ReachesAll(f: real -> real, c: SRGBA, grounds: seq<Ground>, floor: real) returns (ok: bool)
    requires Linearises(f) && Valid(c) && GroundsOk(grounds)
    ensures ok <==> Clears(f, c, grounds, floor)
  {
    for i := 0 to |grounds|
      invariant forall j :: 0 <= j < i ==> ClearsGround(f, c, grounds[j], floor)
    {
      UnderValid(grounds[i], c);
      var ratio := Contrast(f, c, Under(grounds[i], c));
      if ratio < floor {
        assert !ClearsGround(f, c, grounds[i], floor);
        return false;
      }
    }
    return true;
  }

  // ----------------------------------------------------------------------- the walk

  predicate HsvOk(hue: real, saturation: real, value: real) {
    0.0 <= hue < 360.0 && InUnit(saturation) && InUnit(value)
  }

  lemma HsvReadOk(c: SRGBA)
    requires Valid(c)
    ensures var (hue, saturation, value) := RgbToHsv(c); HsvOk(hue, saturation, value)
  {
    if Top(c) > Low(c) {
      HueRead(c);
      Fraction(Top(c) - Low(c), Top(c));
    }
  }

  lemma MiddleInRange(h: real, c: real)
    requires 0.0 <= h < 6.0 && c >= 0.0
    ensures 0.0 <= c * (1.0 - Abs(Mod(h, 2.0) - 1.0)) <= c
  {
    var s := 1.0 - Abs(Mod(h, 2.0) - 1.0);
    assert (h / 2.0).Floor == if h < 2.0 then 0 else if h < 4.0 then 1 else 2;
    assert InUnit(s);
    ColourGraph.Product(c, s);
    ColourGraph.Product(c, 1.0 - s);
    assert c * (1.0 - s) == c - c * s;
  }

  lemma ChromaInRange(saturation: real, value: real)
    requires InUnit(saturation) && InUnit(value)
    ensures 0.0 <= value * saturation <= value
  {
    ColourGraph.Product(value, saturation);
    ColourGraph.Product(value, 1.0 - saturation);
    assert value * (1.0 - saturation) == value - value * saturation;
  }

  lemma SectorValid(h: real, c: real, x: real, value: real)
    requires 0.0 <= x <= c <= value <= 1.0
    ensures var (r, g, b) := Sector(h, c, x);
            InUnit(r + (value - c)) && InUnit(g + (value - c)) && InUnit(b + (value - c))
  {
  }

  lemma SixthsValid(h: real, saturation: real, value: real, c: real, x: real)
    requires 0.0 <= h < 6.0 && c == value * saturation && x == c * (1.0 - Abs(Mod(h, 2.0) - 1.0))
    requires 0.0 <= x <= c <= value <= 1.0
    ensures Valid(HsvRgb(h * 60.0, saturation, value))
  {
    AtHue(h, saturation, value, c, x);
    SectorValid(h, c, x, value);
  }

  lemma HsvRgbValid(hue: real, saturation: real, value: real)
    requires HsvOk(hue, saturation, value)
    ensures Valid(HsvRgb(hue, saturation, value))
  {
    var h, c := hue / 60.0, value * saturation;
    ChromaInRange(saturation, value);
    MiddleInRange(h, c);
    SixthsValid(h, saturation, value, c, c * (1.0 - Abs(Mod(h, 2.0) - 1.0)));
    assert hue == h * 60.0;
  }

  /** Where the walk is, as value: up toward one, or down toward zero. */
  function Moved(value: real, light: bool, t: real): real {
    if light then value + (1.0 - value) * t else value * (1.0 - t)
  }

  lemma MovedOk(hue: real, saturation: real, value: real, light: bool, t: real)
    requires HsvOk(hue, saturation, value) && InUnit(t)
    ensures HsvOk(hue, saturation * (1.0 - t), Moved(value, light, t))
  {
    AverageInUnit(saturation, 0.0, 1.0 - t);
    AverageInUnit(1.0, value, t);
    AverageInUnit(value, 0.0, 1.0 - t);
  }

  /** Saturation lost and value moved, a fraction of the way to the pole. */
  function Walked(raw: SRGBA, light: bool, t: real): (real, real, real) {
    var (hue, saturation, value) := RgbToHsv(raw);
    (hue, saturation * (1.0 - t), Moved(value, light, t))
  }

  function Rendered(hsv: (real, real, real)): SRGBA { HsvRgb(hsv.0, hsv.1, hsv.2) }

  function Toward(raw: SRGBA, light: bool, t: real): SRGBA { Rendered(Walked(raw, light, t)) }

  lemma WalkedOk(raw: SRGBA, light: bool, t: real)
    requires Valid(raw) && InUnit(t)
    ensures HsvOk(Walked(raw, light, t).0, Walked(raw, light, t).1, Walked(raw, light, t).2)
  {
    HsvReadOk(raw);
    var (hue, saturation, value) := RgbToHsv(raw);
    MovedOk(hue, saturation, value, light, t);
  }

  lemma RenderedValid(hsv: (real, real, real))
    requires HsvOk(hsv.0, hsv.1, hsv.2)
    ensures Valid(Rendered(hsv))
  {
    HsvRgbValid(hsv.0, hsv.1, hsv.2);
  }

  lemma TowardValid(raw: SRGBA, light: bool, t: real)
    requires Valid(raw) && InUnit(t)
    ensures Valid(Toward(raw, light, t))
  {
    WalkedOk(raw, light, t);
    RenderedValid(Walked(raw, light, t));
  }

  /** A point of the walk, as the literal a theme would store. */
  function LitAt(raw: SRGBA, light: bool, t: real): string
    requires Valid(raw) && InUnit(t)
  {
    TowardValid(raw, light, t);
    HexColor(Toward(raw, light, t))
  }

  /** How far along the walk step `k` of 255 is. */
  function Share(k: nat): (t: real)
    ensures k <= 255 ==> InUnit(t)
  {
    k as real / 255.0
  }

  function StepLit(raw: SRGBA, light: bool, k: nat): string
    requires Valid(raw) && k <= 255
  {
    LitAt(raw, light, Share(k))
  }

  /** Step `k` clears every ground, read back as a theme stores it. */
  ghost predicate StepClears(f: real -> real, raw: SRGBA, grounds: seq<Ground>, floor: real, light: bool, k: nat)
    requires Linearises(f) && Valid(raw) && GroundsOk(grounds) && k <= 255
  {
    Clears(f, MustParse(StepLit(raw, light, k)), grounds, floor)
  }

  /** Which steps clear every ground. */
  ghost function Passing(f: real -> real, raw: SRGBA, grounds: seq<Ground>, floor: real, light: bool): nat -> bool
    requires Linearises(f) && Valid(raw) && GroundsOk(grounds)
  {
    (k: nat) => k <= 255 && StepClears(f, raw, grounds, floor, light, k)
  }

  ghost predicate NoneBefore(passes: nat -> bool, k: nat) {
    forall j: nat :: 1 <= j < k ==> !passes(j)
  }

  /** The first of the 255 steps that passes. */
  ghost predicate First(passes: nat -> bool, k: nat) {
    1 <= k <= 255 && passes(k) && NoneBefore(passes, k)
  }

  ghost predicate NoStep(passes: nat -> bool) { NoneBefore(passes, 256) }

  lemma OneMoreFails(passes: nat -> bool, k: nat)
    requires NoneBefore(passes, k) && !passes(k)
    ensures NoneBefore(passes, k + 1)
  {
  }

  method Store(raw: SRGBA, light: bool, t: real, ghost k: nat) returns (stored: string)
    requires Valid(raw) && k <= 255 && t == k as real / 255.0
    ensures stored == StepLit(raw, light, k)
  {
    assert t == Share(k);
    stored := LitAt(raw, light, t);
  }

  /** One step, stored as a theme would and measured. */
  method TryStep(f: real -> real, raw: SRGBA, grounds: seq<Ground>, floor: real, light: bool, t: real, ghost k: nat)
    returns (ok: bool, stored: string)
    requires Linearises(f) && Valid(raw) && GroundsOk(grounds) && k <= 255 && t == k as real / 255.0
    ensures stored == StepLit(raw, light, k)
    ensures ok <==> Passing(f, raw, grounds, floor, light)(k)
  {
    stored := Store(raw, light, t, k);
    ok := ReachesAll(f, MustParse(stored), grounds, floor);
  }

  method WalkTowardPole(f: real -> real, raw: SRGBA, grounds: seq<Ground>, floor: real, light: bool)
    returns (lit: Option<string>, ghost k: nat)
    requires Linearises(f) && Valid(raw) && GroundsOk(grounds)
    ensures lit.Some? ==> First(Passing(f, raw, grounds, floor, light), k) && lit.value == StepLit(raw, light, k)
    ensures lit.None? ==> NoStep(Passing(f, raw, grounds, floor, light))
  {
    ghost var passes := Passing(f, raw, grounds, floor, light);
    var step := 1.0 / 255.0;
    var t := step;
    k := 1;
    while t <= 1.0
      invariant 1 <= k <= 256 && t == k as real / 255.0
      invariant NoneBefore(passes, k)
      decreases 256 - k
    {
      var ok, stored := TryStep(f, raw, grounds, floor, light, t, k);
      if ok {
        return Some(stored), k;
      }
      OneMoreFails(passes, k);
      t := t + step;
      k := k + 1;
    }
    return None, k;
  }

  const WHITE_LITERAL := "#ffffff"
  const BLACK_LITERAL := "#000000"

  function PoleLit(light: bool): string { if light then WHITE_LITERAL else BLACK_LITERAL }

  function PoleOf(light: bool): SRGBA { if light then WHITE else BLACK }

  lemma PolesParse(light: bool)
    ensures MustParse(PoleLit(light)) == PoleOf(light)
  {
    assert AllHexChars(WHITE_LITERAL[1..]) && AllHexChars(BLACK_LITERAL[1..]);
    assert IsHexLiteral(WHITE_LITERAL) && IsHexLiteral(BLACK_LITERAL);
  }

  /** Without saturation every hue is grey. */
  lemma GreyAtEveryHue(hue: real, value: real)
    ensures HsvRgb(hue, 0.0, value) == SRGBA(value, value, value, 1.0)
  {
  }

  /** The pole that reads better on the ground. */
  ghost predicate WhiteReadsBetter(f: real -> real, ground: SRGBA)
    requires Linearises(f) && Valid(ground)
  {
    LuminanceInUnit(f, ground);
    LuminanceInUnit(f, WHITE);
    LuminanceInUnit(f, BLACK);
    ContrastOf(f, WHITE, ground) >= ContrastOf(f, BLACK, ground)
  }

  /** What settling toward a pole may answer: the candidate when it clears every ground,
      else the first step that does, else the pole. */
  ghost predicate SettledToward(f: real -> real, candidate: string, grounds: seq<Ground>, floor: real, light: bool, answer: string)
    requires Linearises(f) && GroundsOk(grounds)
  {
    var raw := MustParse(candidate);
    if Clears(f, raw, grounds, floor) then answer == candidate
    else if NoStep(Passing(f, raw, grounds, floor, light)) then answer == PoleLit(light)
    else exists k :: First(Passing(f, raw, grounds, floor, light), k) && answer == StepLit(raw, light, k)
  }

  /** The same toward whichever pole reads better on the first ground. */
  ghost predicate Settled(f: real -> real, candidate: string, grounds: seq<Ground>, floor: real, answer: string)
    requires Linearises(f) && GroundsOk(grounds)
  {
    var raw := MustParse(candidate);
    if Clears(f, raw, grounds, floor) then answer == candidate
    else
      grounds != [] &&
      (UnderValid(grounds[0], raw);
       SettledToward(f, candidate, grounds, floor, WhiteReadsBetter(f, Under(grounds[0], raw)), answer))
  }

  /** Repairs a candidate; with no ground there is nothing to repair, so the first ground
      is only looked at when there is one. */
  method Settle(f: real -> real, candidate: string, grounds: seq<Ground>, floor: real) returns (answer: string)
    requires Linearises(f) && GroundsOk(grounds)
    ensures Settled(f, candidate, grounds, floor, answer)
  {
    var raw := MustParse(candidate);
    var ok := ReachesAll(f, raw, grounds, floor);
    if ok {
      return candidate;
    }
    var (hue, _, _) := RgbToHsv(raw);
    UnderValid(grounds[0], raw);
    GreyAtEveryHue(hue, 1.0);
    GreyAtEveryHue(hue, 0.0);
    var white := Contrast(f, HsvRgb(hue, 0.0, 1.0), Under(grounds[0], raw));
    var black := Contrast(f, HsvRgb(hue, 0.0, 0.0), Under(grounds[0], raw));
    var light := white >= black;
    var lit, k := WalkTowardPole(f, raw, grounds, floor, light);
    answer := if lit.Some? then lit.value else if light then WHITE_LITERAL else BLACK_LITERAL;
  }

  method SettleDarker(f: real -> real, candidate: string, grounds: seq<Ground>, floor: real) returns (answer: string)
    requires Linearises(f) && GroundsOk(grounds)
    ensures SettledToward(f, candidate, grounds, floor, false, answer)
  {
    var raw := MustParse(candidate);
    var ok := ReachesAll(f, raw, grounds, floor);
    if ok {
      return candidate;
    }
    var lit, k := WalkTowardPole(f, raw, grounds, floor, false);
    answer := if lit.Some? then lit.value else BLACK_LITERAL;
  }

  // ----------------------------------------------------------------- what it promises

  lemma ByteEnds()
    ensures ByteOf(1.0) == 255 && ByteOf(0.0) == 0 && TwoDigits(255) == "ff" && TwoDigits(0) == "00"
  {
  }

  /** The last step of the walk is the pole. */
  lemma LastStepIsThePole(raw: SRGBA, light: bool)
    requires Valid(raw)
    ensures StepLit(raw, light, 255) == PoleLit(light)
  {
    ByteEnds();
    var (hue, saturation, value) := RgbToHsv(raw);
    assert 255 as real / 255.0 == 1.0;
    var end := if light then 1.0 else 0.0;
    assert Walked(raw, light, 1.0) == (hue, 0.0, end);
    GreyAtEveryHue(hue, end);
  }

  /** Whatever the grounds, the answer clears them all unless the pole walked toward does
      not: settling fails only where nothing on its line succeeds. */
  lemma SettlingFailsOnlyWithItsPole(f: real -> real, candidate: string, grounds: seq<Ground>, floor: real, light: bool, answer: string)
    requires Linearises(f) && GroundsOk(grounds) && SettledToward(f, candidate, grounds, floor, light, answer)
    ensures Clears(f, PoleOf(light), grounds, floor) ==> Clears(f, MustParse(answer), grounds, floor)
    ensures !Clears(f, MustParse(answer), grounds, floor) ==>
      NoStep(Passing(f, MustParse(candidate), grounds, floor, light)) && answer == PoleLit(light)
  {
    PolesParse(light);
    LastStepIsThePole(MustParse(candidate), light);
    assert Passing(f, MustParse(candidate), grounds, floor, light)(255) <==> Clears(f, PoleOf(light), grounds, floor);
  }

  /** On one plain ground the answer reaches every floor up to the square root of 21. */
  lemma SettleReachesOneGround(f: real -> real, candidate: string, base: SRGBA, floor: real, answer: string)
    requires Linearises(f) && Valid(base) && floor * floor <= 21.0
    requires Settled(f, candidate, [Ground(base, 0.0)], floor, answer)
    ensures LuminanceOf(f, MustParse(answer)) >= 0.0 && LuminanceOf(f, base) >= 0.0
    ensures ContrastOf(f, MustParse(answer), base) >= floor
  {
    var grounds := [Ground(base, 0.0)];
    var light := WhiteReadsBetter(f, base);
    OnePlainGround(f, MustParse(answer), base, floor);
    OnePlainGround(f, PoleOf(light), base, floor);
    if !Clears(f, MustParse(candidate), grounds, floor) {
      assert Under(grounds[0], MustParse(candidate)) == base;
      BetterPoleReaches(f, base, floor);
      SettlingFailsOnlyWithItsPole(f, candidate, grounds, floor, light, answer);
    }
  }

  lemma OnePlainGround(f: real -> real, c: SRGBA, base: SRGBA, floor: real)
    requires Linearises(f) && Valid(base) && Valid(c)
    ensures LuminanceOf(f, c) >= 0.0 && LuminanceOf(f, base) >= 0.0
    ensures Clears(f, c, [Ground(base, 0.0)], floor) <==> ContrastOf(f, c, base) >= floor
  {
    LuminanceInUnit(f, c);
    LuminanceInUnit(f, base);
    var g := Ground(base, 0.0);
    assert [g][0] == g;
    assert ClearsGround(f, c, g, floor) <==> ContrastOf(f, c, base) >= floor;
  }

  lemma BetterPoleReaches(f: real -> real, base: SRGBA, floor: real)
    requires Linearises(f) && Valid(base) && floor * floor <= 21.0
    ensures LuminanceOf(f, PoleOf(WhiteReadsBetter(f, base))) >= 0.0 && LuminanceOf(f, base) >= 0.0
    ensures ContrastOf(f, PoleOf(WhiteReadsBetter(f, base)), base) >= floor
  {
    LuminanceInUnit(f, base);
    assert LuminanceOf(f, WHITE) == 1.0 && LuminanceOf(f, BLACK) == 0.0;
    BetterEnd(LuminanceOf(f, base), floor);
  }
}
