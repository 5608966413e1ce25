/** The one colour a person can choose, and the colour a pair of themes may paint for
    it: the asked one when the gate clears it, else the first colour on its own line that
    the gate clears, else none. */
module Accent {
  import opened Options
  import opened Colours
  import ColourSpace
  import ColourHex
  import opened ContrastRatios
  import opened Gate
  import opened Settling

  const ACCENT := "accent-default"
  const CANVAS := "surface-canvas"
  const TEXT := "text-primary"

  /** The tables measure the accent on the canvas as text, as WCAG 2.2 SC 1.4.3 asks. */
  predicate GatesAccent(g: Tables) {
    ACCENT in g.fields && CANVAS in g.fields && TEXT in g.fields && Pair(ACCENT, CANVAS, 4.5) in g.pairs
  }

  /** The theme with its accent replaced; a value that is no literal changes nothing. */
  function WithAccent(t: Theme, value: string): Theme {
    if IsLiteral(value) then t[ACCENT := value] else t
  }

  /** The theme would pass the whole gate with this accent. */
  ghost predicate GatedWith(f: real -> real, g: Tables, t: Theme, value: string)
    requires Linearises(f) && TablesOk(g) && ThemeOk(g, t)
  {
    Gated(f, g, WithAccent(t, value))
  }

  function LowerChar(c: char): char { if 'A' <= c <= 'Z' then 'a' + (c - 'A') else c }

  function ToLower(s: string): (r: string)
    ensures |r| == |s| && forall i :: 0 <= i < |s| ==> r[i] == LowerChar(s[i])
  {
    seq(|s|, i requires 0 <= i < |s| => LowerChar(s[i]))
  }

  lemma DigitLowers(c: char)
    ensures IsHexChar(LowerChar(c)) <==> IsHexChar(c)
    ensures IsHexChar(c) ==> HexOf(LowerChar(c)) == HexOf(c)
  {
  }

  /** Lower case is the same colour. */
  lemma SameColourLowered(s: string)
    requires IsHexLiteral(s)
    ensures IsHexLiteral(ToLower(s)) && ColourOf(ToLower(s)) == ColourOf(s)
  {
    var r := ToLower(s);
    forall i | 0 <= i < |s| - 1
      ensures r[1..][i] == LowerChar(s[1..][i]) && IsHexChar(r[1..][i]) && HexOf(r[1..][i]) == HexOf(s[1..][i])
    {
      DigitLowers(s[1..][i]);
    }
  }

  /** The pole of the theme: light copy on a dark canvas is walked toward white. */
  ghost predicate PaintsLight(f: real -> real, t: Theme)
    requires TEXT in t && CANVAS in t
  {
    LuminanceOf(f, MustParse(t[TEXT])) > LuminanceOf(f, MustParse(t[CANVAS]))
  }

  /** So a theme of lighter copy than canvas, read against black, is walked toward white;
      white copy on black is, and black copy on white is not. */
  lemma LighterCopyGoesLighter(f: real -> real, t: Theme)
    requires Linearises(f) && TEXT in t && CANVAS in t
    ensures LuminanceOf(f, BLACK) >= 0.0 && LuminanceOf(f, MustParse(t[TEXT])) >= 0.0 && LuminanceOf(f, MustParse(t[CANVAS])) >= 0.0
    ensures PaintsLight(f, t) <==> ContrastOf(f, MustParse(t[TEXT]), BLACK) > ContrastOf(f, MustParse(t[CANVAS]), BLACK)
    ensures t[TEXT] == WHITE_LITERAL && t[CANVAS] == BLACK_LITERAL ==> PaintsLight(f, t)
    ensures t[TEXT] == BLACK_LITERAL && t[CANVAS] == WHITE_LITERAL ==> !PaintsLight(f, t)
  {
    LuminanceInUnit(f, MustParse(t[TEXT]));
    LuminanceInUnit(f, MustParse(t[CANVAS]));
    PolesParse(true);
    PolesParse(false);
    AgainstBlack(LuminanceOf(f, MustParse(t[TEXT])));
    AgainstBlack(LuminanceOf(f, MustParse(t[CANVAS])));
  }

  lemma AgainstBlack(l: real)
    requires l >= 0.0
    ensures RatioOf(l, 0.0) == 20.0 * l + 1.0
  {
  }

  /** Which steps of the accent's line the gate clears. */
  ghost function GatedSteps(f: real -> real, g: Tables, t: Theme, candidate: string): nat -> bool
    requires Linearises(f) && TablesOk(g) && ThemeOk(g, t) && TEXT in t && CANVAS in t
  {
    (k: nat) => k <= 255 && GatedWith(f, g, t, StepLit(MustParse(candidate), PaintsLight(f, t), k))
  }

  method TryAccent(f: real -> real, g: Tables, t: Theme, number: real -> string, raw: SRGBA, light: bool, step: real, ghost k: nat)
    returns (ok: bool, stored: string)
    requires Linearises(f) && TablesOk(g) && ThemeOk(g, t) && Valid(raw) && k <= 255 && step == k as real / 255.0
    ensures stored == StepLit(raw, light, k) && (ok <==> GatedWith(f, g, t, stored))
  {
    stored := Store(raw, light, step, k);
    ok := IsGated(f, g, WithAccent(t, stored), number);
  }

  /** The walk runs a hair past one, so that its last step is the pole even where the
      steps do not add up exactly. */
  method SettleAccent(f: real -> real, g: Tables, t: Theme, number: real -> string, candidate: string)
    returns (lit: Option<string>, ghost k: nat)
    requires Linearises(f) && TablesOk(g) && ThemeOk(g, t) && TEXT in t && CANVAS in t
    ensures lit.Some? ==> First(GatedSteps(f, g, t, candidate), k)
    ensures lit.Some? ==> k <= 255 && lit.value == StepLit(MustParse(candidate), PaintsLight(f, t), k)
    ensures lit.None? ==> NoStep(GatedSteps(f, g, t, candidate))
  {
    var text := Luminance(f, MustParse(t[TEXT]));
    var canvas := Luminance(f, MustParse(t[CANVAS]));
    var light := text > canvas;
    var step := 1.0 / 255.0;
    var at := step;
    k := 1;
    ghost var passes := GatedSteps(f, g, t, candidate);
    while at <= 1.0 + 0.000000001
      invariant 1 <= k <= 256 && at == k as real / 255.0 && NoneBefore(passes, k)
      decreases 256 - k
    {
      var ok, stored := TryAccent(f, g, t, number, MustParse(candidate), light, at, k);
      if ok {
        return Some(stored), k;
      }
      OneMoreFails(passes, k);
      at := at + step;
      k := k + 1;
    }
    return None, k;
  }

  /** What the pair answers: paint nothing of your own, paint this, or a refusal. */
  datatype Answer = Refused | Paint(colour: string)

  predicate IsTheme(name: string) { name == "light" || name == "dark" }

  function Target(light: Theme, dark: Theme, name: string): Theme
    requires IsTheme(name)
  {
    if name == "light" then light else dark
  }

  /** The answers in their order: nothing for nothing; a refusal for an unknown theme or a
      colour with no ratio; the colour itself, lower-case, when the gate clears it; the
      first colour of its line that the gate clears; a refusal when none does. */
  ghost predicate Answers(f: real -> real, g: Tables, light: Theme, dark: Theme, name: string, value: string, answer: Answer)
    requires Linearises(f) && TablesOk(g) && ThemeOk(g, light) && ThemeOk(g, dark) && GatesAccent(g)
  {
    if value == "" then answer == Paint("")
    else if !IsTheme(name) || !OpaqueLiteral(value) then answer == Refused
    else
      var t, candidate := Target(light, dark, name), ToLower(value);
      if GatedWith(f, g, t, candidate) then answer == Paint(candidate)
      else if NoStep(GatedSteps(f, g, t, candidate)) then answer == Refused
      else exists k :: First(GatedSteps(f, g, t, candidate), k)
                       && answer == Paint(StepLit(MustParse(candidate), PaintsLight(f, t), k))
  }

  method LegibleAccent(f: real -> real, g: Tables, number: real -> string, light: Theme, dark: Theme, name: string, value: string)
    returns (answer: Answer)
    requires Linearises(f) && TablesOk(g) && ThemeOk(g, light) && ThemeOk(g, dark) && GatesAccent(g)
    ensures Answers(f, g, light, dark, name, value, answer)
  {
    if value == "" {
      return Paint("");
    }
    if !IsTheme(name) {
      return Refused;
    }
    var target := if name == "light" then light else dark;
    var raw := ParseColor(value);
    if raw.None? {
      return Refused;
    }
    if raw.value.a != 1.0 {
      return Refused;
    }
    var candidate := ToLower(value);
    var ok := IsGated(f, g, WithAccent(target, candidate), number);
    if ok {
      return Paint(candidate);
    }
    var lit, k := SettleAccent(f, g, target, number, candidate);
    answer := if lit.Some? then Paint(lit.value) else Refused;
  }

  // ----------------------------------------------------------------- what it promises

  lemma StepIsLiteral(raw: SRGBA, light: bool, k: nat)
    requires Valid(raw) && k <= 255
    ensures IsLiteral(StepLit(raw, light, k)) && StepLit(raw, light, k) != ""
  {
    LitIsLiteral(raw, light, Share(k));
  }

  lemma LitIsLiteral(raw: SRGBA, light: bool, t: real)
    requires Valid(raw) && InUnit(t)
    ensures IsLiteral(LitAt(raw, light, t)) && LitAt(raw, light, t) != ""
  {
    TowardValid(raw, light, t);
    ColourHex.HexColorReads(Toward(raw, light, t));
  }

  lemma OpaqueIsHex(value: string)
    requires OpaqueLiteral(value)
    ensures IsHexLiteral(value)
  {
  }

  /** A colour that is painted is one the whole gate clears, asked for or repaired. */
  lemma PaintedIsGated(f: real -> real, g: Tables, light: Theme, dark: Theme, name: string, value: string, colour: string)
    requires Linearises(f) && TablesOk(g) && ThemeOk(g, light) && ThemeOk(g, dark) && GatesAccent(g)
    requires Answers(f, g, light, dark, name, value, Paint(colour)) && colour != ""
    ensures IsTheme(name) && IsLiteral(colour) && GatedWith(f, g, Target(light, dark, name), colour)
    ensures OpaqueLiteral(value)
    ensures GatedWith(f, g, Target(light, dark, name), ToLower(value)) ==> IsHexLiteral(value) && ColourOf(colour) == ColourOf(value)
  {
    var t, candidate := Target(light, dark, name), ToLower(value);
    OpaqueIsHex(value);
    SameColourLowered(value);
    if !GatedWith(f, g, t, candidate) {
      var k :| First(GatedSteps(f, g, t, candidate), k) && colour == StepLit(MustParse(candidate), PaintsLight(f, t), k);
      StepIsLiteral(MustParse(candidate), PaintsLight(f, t), k);
    }
  }

  /** An accent the gate clears reads at 4.5:1 on the theme's canvas. */
  lemma AccentReadsOnCanvas(f: real -> real, g: Tables, t: Theme, colour: string)
    requires Linearises(f) && TablesOk(g) && ThemeOk(g, t) && GatesAccent(g)
    requires IsLiteral(colour) && GatedWith(f, g, t, colour)
    ensures IsLiteral(t[CANVAS]) && Reads(f, ColourOf(colour), ColourOf(t[CANVAS]), 4.5)
  {
    var painted := WithAccent(t, colour);
    assert ACCENT[0] == 'a' && CANVAS[0] == 's';
    assert painted[ACCENT] == colour && painted[CANVAS] == t[CANVAS];
    var i :| 0 <= i < |g.pairs| && g.pairs[i] == Pair(ACCENT, CANVAS, 4.5);
    assert PairReads(f, painted, g.pairs[i]);
  }

  /** The canvases of a pair are far enough apart for one colour to read on both. */
  ghost predicate CanvasesFarEnough(f: real -> real, light: Theme, dark: Theme)
    requires Linearises(f) && CANVAS in light && CANVAS in dark
  {
    var a, b := MustParse(light[CANVAS]), MustParse(dark[CANVAS]);
    LuminanceInUnit(f, a);
    LuminanceInUnit(f, b);
    FarEnough(ColourSpace.Max(LuminanceOf(f, a), LuminanceOf(f, b)), ColourSpace.Min(LuminanceOf(f, a), LuminanceOf(f, b)))
  }

  lemma SameColourFarCanvases(f: real -> real, c: SRGBA, a: SRGBA, b: SRGBA)
    requires Linearises(f) && Valid(c) && Valid(a) && Valid(b) && Reads(f, c, a, 4.5) && Reads(f, c, b, 4.5)
    ensures LuminanceOf(f, a) >= 0.0 && LuminanceOf(f, b) >= 0.0
    ensures FarEnough(ColourSpace.Max(LuminanceOf(f, a), LuminanceOf(f, b)), ColourSpace.Min(LuminanceOf(f, a), LuminanceOf(f, b)))
  {
    LuminanceInUnit(f, c);
    LuminanceInUnit(f, a);
    LuminanceInUnit(f, b);
    var x, la, lb := LuminanceOf(f, c), LuminanceOf(f, a), LuminanceOf(f, b);
    if la >= lb { NeedsDistance(x, la, lb); } else { NeedsDistance(x, lb, la); }
  }

  /** A pair whose canvases are not that far apart never paints one colour in both themes:
      whatever was asked for in each, the two answers are different colours. */
  lemma PairPaintsTwoColours(f: real -> real, g: Tables, light: Theme, dark: Theme, asked: string, askedToo: string, c: string, d: string)
    requires Linearises(f) && TablesOk(g) && ThemeOk(g, light) && ThemeOk(g, dark) && GatesAccent(g)
    requires Answers(f, g, light, dark, "light", asked, Paint(c)) && c != ""
    requires Answers(f, g, light, dark, "dark", askedToo, Paint(d)) && d != ""
    requires !CanvasesFarEnough(f, light, dark)
    ensures IsLiteral(c) && IsLiteral(d) && ColourOf(c) != ColourOf(d)
  {
    PaintedIsGated(f, g, light, dark, "light", asked, c);
    PaintedIsGated(f, g, light, dark, "dark", askedToo, d);
    AccentReadsOnCanvas(f, g, light, c);
    AccentReadsOnCanvas(f, g, dark, d);
    if ColourOf(c) == ColourOf(d) {
      SameColourFarCanvases(f, ColourOf(c), ColourOf(light[CANVAS]), ColourOf(dark[CANVAS]));
    }
  }
}
