/** Colour literals and authored colour values.  A value is one literal, one reference or
    one mix; a mix is reached through a pointer, so values may share mixes and a careless
    author may close a loop of them.  Arithmetic is over the reals. */
module Colours {
  import opened Options

  /** Non-premultiplied sRGB, each channel in [0,1]. */
  datatype SRGBA = SRGBA(r: real, g: real, b: real, a: real)

  predicate InUnit(x: real) { 0.0 <= x <= 1.0 }

  predicate Valid(c: SRGBA) { InUnit(c.r) && InUnit(c.g) && InUnit(c.b) && InUnit(c.a) }

  const CLEAR := SRGBA(0.0, 0.0, 0.0, 0.0)

  // ----------------------------------------------------------------------- literals

  predicate IsHexChar(c: char) { '0' <= c <= '9' || 'a' <= c <= 'f' || 'A' <= c <= 'F' }

  function HexOf(c: char): (v: nat)
    requires IsHexChar(c)
    ensures v < 16
  {
    if '0' <= c <= '9' then (c - '0') as int
    else if 'a' <= c <= 'f' then (c - 'a') as int + 10
    else (c - 'A') as int + 10
  }

  predicate AllHexChars(s: string) { forall i :: 0 <= i < |s| ==> IsHexChar(s[i]) }

  /** A literal the parser reads other than `transparent`: a hash and three, four, six or
      eight hex digits. */
  predicate IsHexLiteral(s: string) {
    |s| in {4, 5, 7, 9} && s[0] == '#' && AllHexChars(s[1..])
  }

  predicate IsLiteral(s: string) { s == "transparent" || IsHexLiteral(s) }

  /** The byte of a channel: two digits of a long literal, one digit twice of a short
      one. */
  function ChannelByte(s: string, channel: nat): (v: nat)
    requires IsHexLiteral(s) && (if |s| < 6 then channel + 1 < |s| else 2 * channel + 2 < |s|)
    ensures v < 256
  {
    if |s| < 6 then 17 * HexOf(s[1..][channel]) else 16 * HexOf(s[1..][2 * channel]) + HexOf(s[1..][2 * channel + 1])
  }

  function Channel(s: string, channel: nat): (v: real)
    requires IsHexLiteral(s) && (if |s| < 6 then channel + 1 < |s| else 2 * channel + 2 < |s|)
    ensures InUnit(v)
  {
    ChannelByte(s, channel) as real / 255.0
  }

  /** The colour a literal names; one without an alpha is opaque. */
  function ColourOf(s: string): (c: SRGBA)
    requires IsLiteral(s)
    ensures Valid(c)
  {
    if s == "transparent" then CLEAR
    else SRGBA(Channel(s, 0), Channel(s, 1), Channel(s, 2), if |s| in {5, 9} then Channel(s, 3) else 1.0)
  }

  /** The bytes of an even run of hex digits, or none when one is no digit. */
  function Decoded(digits: string): (bytes: Option<seq<nat>>)
    requires |digits| % 2 == 0
    ensures bytes.Some? <==> AllHexChars(digits)
    ensures bytes.Some? ==> |bytes.value| == |digits| / 2
    ensures bytes.Some? ==>
      forall i :: 0 <= i < |digits| / 2 ==>
        bytes.value[i] == 16 * HexOf(digits[2 * i]) + HexOf(digits[2 * i + 1]) < 256
  {
    if AllHexChars(digits) then
      Some(seq(|digits| / 2, i requires 0 <= i < |digits| / 2 => 16 * HexOf(digits[2 * i]) + HexOf(digits[2 * i + 1])))
    else None
  }

  lemma DoublingKeepsHex(digits: string, expanded: string)
    requires |expanded| == 2 * |digits|
    requires forall k :: 0 <= k < |digits| ==> expanded[2 * k] == digits[k] && expanded[2 * k + 1] == digits[k]
    ensures AllHexChars(expanded) <==> AllHexChars(digits)
  {
    if AllHexChars(digits) {
      forall i | 0 <= i < |expanded| ensures IsHexChar(expanded[i]) {
        assert i == 2 * (i / 2) || i == 2 * (i / 2) + 1;
        assert IsHexChar(digits[i / 2]);
      }
    }
    if AllHexChars(expanded) {
      forall k | 0 <= k < |digits| ensures IsHexChar(digits[k]) { assert IsHexChar(expanded[2 * k]); }
    }
  }

  /** Every digit twice. */
  method Expand(digits: string) returns (expanded: string)
    ensures |expanded| == 2 * |digits| && (AllHexChars(expanded) <==> AllHexChars(digits))
    ensures forall k :: 0 <= k < |digits| ==> expanded[2 * k] == digits[k] && expanded[2 * k + 1] == digits[k]
  {
    expanded := "";
    for i := 0 to |digits|
      invariant |expanded| == 2 * i
      invariant forall k :: 0 <= k < i ==> expanded[2 * k] == digits[k] && expanded[2 * k + 1] == digits[k]
    {
      expanded := expanded + [digits[i], digits[i]];
    }
    DoublingKeepsHex(digits, expanded);
  }

  /** Channels from bytes, opaque unless a fourth byte says otherwise. */
  method FillChannels(bytes: seq<nat>) returns (c: SRGBA)
    requires |bytes| in {3, 4}
    ensures c.r == bytes[0] as real / 255.0 && c.g == bytes[1] as real / 255.0 && c.b == bytes[2] as real / 255.0
    ensures c.a == if |bytes| == 4 then bytes[3] as real / 255.0 else 1.0
  {
    var out := new real[4];
    out[0], out[1], out[2], out[3] := 0.0, 0.0, 0.0, 1.0;
    for i := 0 to |bytes|
      invariant forall k :: 0 <= k < i ==> out[k] == bytes[k] as real / 255.0
      invariant i <= 3 ==> out[3] == 1.0
    {
      out[i] := bytes[i] as real / 255.0;
    }
    return SRGBA(out[0], out[1], out[2], out[3]);
  }

  method ParseColor(value: string) returns (colour: Option<SRGBA>)
    ensures colour.Some? <==> IsLiteral(value)
    ensures colour.Some? ==> colour.value == ColourOf(value)
  {
    if value == "transparent" {
      return Some(CLEAR);
    }
    if value == "" || value[0] != '#' || |value| - 1 !in {3, 4, 6, 8} {
      return None;
    }
    var digits := value[1..];
    if |digits| < 5 {
      digits := Expand(digits);
    }
    var bytes := Decoded(digits);
    if bytes.None? {
      return None;
    }
    var out := FillChannels(bytes.value);
    return Some(out);
  }

  // ----------------------------------------------------------------- authored values

  /** A percentage as floating point holds it. */
  datatype Float = NaN | Infinite(negative: bool) | Finite(r: real)

  type MixId = nat

  datatype ColorValue = ColorValue(literal: string, reference: string, mix: Option<MixId>)

  datatype ColorMix = ColorMix(first: ColorValue, percent: Float, second: ColorValue)

  /** The mixes in memory, by pointer. */
  type Mixes = map<MixId, ColorMix>

  predicate Pointed(h: Mixes, v: ColorValue) { v.mix.Some? ==> v.mix.value in h }

  /** No pointer dangles. */
  predicate Sound(h: Mixes) {
    forall m :: m in h ==> Pointed(h, h[m].first) && Pointed(h, h[m].second)
  }

  function Count(b: bool): nat { if b then 1 else 0 }

  function Forms(v: ColorValue): nat {
    Count(v.literal != "") + Count(v.reference != "") + Count(v.mix.Some?)
  }

  predicate IsNameChar(c: char) {
    'a' <= c <= 'z' || 'A' <= c <= 'Z' || '0' <= c <= '9' || c == '_' || c == '-'
  }

  /** `--` and at least one name character. */
  predicate IsColorName(s: string) {
    |s| >= 3 && s[0] == '-' && s[1] == '-' && forall i :: 2 <= i < |s| ==> IsNameChar(s[i])
  }

  predicate PercentOk(p: Float) { p.Finite? && 0.0 <= p.r <= 100.0 }

  /** A finite colour expression: what a value is once its mixes are followed. */
  datatype Expr = Literal(text: string) | Reference(name: string) | Blend(first: Expr, percent: real, second: Expr)

  /** The value is exactly the expression, every part of it well formed. */
  predicate Unfolds(h: Mixes, v: ColorValue, e: Expr)
    decreases e
  {
    Forms(v) == 1 &&
    match e
    case Literal(text) => v.literal == text != "" && IsLiteral(text)
    case Reference(name) => v.reference == name != "" && IsColorName(name)
    case Blend(a, p, b) =>
      v.mix.Some? && v.mix.value in h &&
      var m := h[v.mix.value];
      m.percent == Finite(p) && 0.0 <= p <= 100.0 && Unfolds(h, m.first, a) && Unfolds(h, m.second, b)
  }

  /** The mixes met on the way. */
  function Met(h: Mixes, v: ColorValue, e: Expr): set<MixId>
    requires Unfolds(h, v, e)
    decreases e
  {
    match e
    case Literal(_) => {}
    case Reference(_) => {}
    case Blend(a, _, b) =>
      {v.mix.value} + Met(h, h[v.mix.value].first, a) + Met(h, h[v.mix.value].second, b)
  }

  /** A value is at most one expression. */
  lemma {:induction false} OneUnfolding(h: Mixes, v: ColorValue, e: Expr, f: Expr)
    requires Unfolds(h, v, e) && Unfolds(h, v, f)
    ensures e == f
    decreases e
  {
    if e.Blend? {
      var m := h[v.mix.value];
      assert f.Blend?;
      OneUnfolding(h, m.first, e.first, f.first);
      OneUnfolding(h, m.second, e.second, f.second);
    }
  }

  function Weight(e: Expr): (n: nat)
    ensures n > 0
  {
    if e.Blend? then 1 + Weight(e.first) + Weight(e.second) else 1
  }

  /** A mix met inside an expression is the expression's own mix or a smaller expression. */
  lemma {:induction false} MetIsSmaller(h: Mixes, v: ColorValue, e: Expr, m: MixId, w: ColorValue, f: Expr)
    requires Unfolds(h, v, e) && m in Met(h, v, e)
    requires w.mix == Some(m) && Unfolds(h, w, f)
    ensures if m == v.mix.value then f == e else Weight(f) < Weight(e)
    decreases e
  {
    var n := h[v.mix.value];
    if m == v.mix.value {
      assert Unfolds(h, v, f);
      OneUnfolding(h, v, e, f);
    } else if m in Met(h, n.first, e.first) {
      MetIsSmaller(h, n.first, e.first, m, w, f);
    } else {
      MetIsSmaller(h, n.second, e.second, m, w, f);
    }
  }

  /** So no mix is met inside itself. */
  lemma NotInsideItself(h: Mixes, v: ColorValue, e: Expr)
    requires Unfolds(h, v, e) && e.Blend?
    ensures v.mix.value !in Met(h, h[v.mix.value].first, e.first)
    ensures v.mix.value !in Met(h, h[v.mix.value].second, e.second)
  {
    var m := v.mix.value;
    if m in Met(h, h[m].first, e.first) { MetIsSmaller(h, h[m].first, e.first, m, v, e); }
    if m in Met(h, h[m].second, e.second) { MetIsSmaller(h, h[m].second, e.second, m, v, e); }
  }

  /** The set of mixes being rendered, shared down the recursion. */
  class ActiveMixes {
    var on: set<MixId>

    constructor ()
      ensures on == {}
    {
      on := {};
    }
  }

  /** The CSS text of an expression; how a number is written is left to the formatter. */
  function Rendered(e: Expr, number: real -> string): string {
    match e
    case Literal(text) => text
    case Reference(name) => "var(" + name + ")"
    case Blend(a, p, b) =>
      "color-mix(in srgb, " + Rendered(a, number) + " " + number(p) + "%, " + Rendered(b, number) + ")"
  }

  /** The value is the expression and meets none of the mixes. */
  predicate Clear(h: Mixes, v: ColorValue, e: Expr, active: set<MixId>) {
    Unfolds(h, v, e) && Met(h, v, e) !! active
  }

  lemma ChildClear(h: Mixes, v: ColorValue, e: Expr, active: set<MixId>)
    requires Clear(h, v, e, active) && e.Blend?
    ensures v.mix.value !in active
    ensures Clear(h, h[v.mix.value].first, e.first, active + {v.mix.value})
    ensures Clear(h, h[v.mix.value].second, e.second, active + {v.mix.value})
  {
    var m := v.mix.value;
    assert m in Met(h, v, e);
    NotInsideItself(h, v, e);
  }

  /** Renders a value, refusing a malformed one and one that loops; it ends whatever the
      mixes point at, and leaves the active set as it found it. */
  method Css(h: Mixes, v: ColorValue, active: ActiveMixes, number: real -> string)
    returns (text: Option<string>, ghost e: Expr)
    requires Sound(h) && Pointed(h, v) && active.on <= h.Keys
    modifies active
    ensures active.on == old(active.on)
    ensures text.Some? ==> Clear(h, v, e, active.on) && text.value == Rendered(e, number)
    ensures text.None? ==> forall f :: !Clear(h, v, f, active.on)
    decreases |h.Keys - active.on|
  {
    e := Literal("");
    if Forms(v) != 1 {
      return None, e;
    }
    if v.literal != "" {
      var colour := ParseColor(v.literal);
      if colour.None? {
        return None, e;
      }
      return Some(v.literal), Literal(v.literal);
    }
    if v.reference != "" {
      if !IsColorName(v.reference) {
        return None, e;
      }
      return Some("var(" + v.reference + ")"), Reference(v.reference);
    }
    var m := v.mix.value;
    if m in active.on || !PercentOk(h[m].percent) {
      forall f ensures !Clear(h, v, f, active.on) {
        if Clear(h, v, f, active.on) { ChildClear(h, v, f, active.on); }
      }
      return None, e;
    }
    ghost var before := active.on;
    assert h.Keys - (before + {m}) < h.Keys - before by { assert m in h.Keys - before; }
    SmallerSet(h.Keys - (before + {m}), h.Keys - before);
    active.on := active.on + {m};
    var a, ea := Css(h, h[m].first, active, number);
    if a.None? {
      active.on := active.on - {m};
      assert active.on == before;
      forall f ensures !Clear(h, v, f, before) {
        if Clear(h, v, f, before) { ChildClear(h, v, f, before); }
      }
      return None, e;
    }
    var b, eb := Css(h, h[m].second, active, number);
    active.on := active.on - {m};
    assert active.on == before;
    if b.None? {
      forall f ensures !Clear(h, v, f, before) {
        if Clear(h, v, f, before) { ChildClear(h, v, f, before); }
      }
      return None, e;
    }
    e := Blend(ea, h[m].percent.r, eb);
    text := Some("color-mix(in srgb, " + a.value + " " + number(h[m].percent.r) + "%, " + b.value + ")");
  }

  lemma SmallerSet<T>(a: set<T>, b: set<T>)
    requires a < b
    ensures |a| < |b|
  {
    var x :| x in b && x !in a;
    assert a <= b - {x};
    SubsetSize(a, b - {x});
  }

  lemma {:induction false} SubsetSize<T>(a: set<T>, b: set<T>)
    requires a <= b
    ensures |a| <= |b|
    decreases a
  {
    if a != {} {
      var x :| x in a;
      SubsetSize(a - {x}, b - {x});
    }
  }

  /** The public rendering: it accepts exactly the values with a finite, well-formed
      unfolding, and prints that unfolding. */
  method CssText(h: Mixes, v: ColorValue, number: real -> string) returns (text: Option<string>, ghost e: Expr)
    requires Sound(h) && Pointed(h, v)
    ensures text.None? ==> forall f :: !Unfolds(h, v, f)
    ensures text.Some? ==> Unfolds(h, v, e) && text.value == Rendered(e, number)
  {
    var active := new ActiveMixes();
    text, e := Css(h, v, active, number);
    if text.Some? {
      assert Unfolds(h, v, e);
    } else {
      forall f ensures !Unfolds(h, v, f) {
        if Unfolds(h, v, f) { assert Clear(h, v, f, active.on); }
      }
    }
  }
}
