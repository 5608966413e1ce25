/** What a resolved name's colour is, by the form its author gave it: a literal's own
    colour, the colour of the name it refers to, or the mix of what its two operands
    evaluate to, the percentage going to the first. */
module ColourMixing {
  import opened Options
  import opened Colours
  import opened ColourGraph
  import opened ColourResolution

  /** Plain evaluation of an expression comes to the colour. */
  ghost predicate Evaluates(env: Env, e: Expr, c: SRGBA) {
    exists t :: Gives(env, e, t, c)
  }

  /** One premultiplied channel: so many hundredths of the first, the rest of the second. */
  predicate ShareOf(c: real, alpha: real, x: real, alphaX: real, y: real, alphaY: real, percent: real) {
    100.0 * c * alpha == percent * x * alphaX + (100.0 - percent) * y * alphaY
  }

  /** `percent` hundredths of the first and the rest of the second, each channel weighed
      by its own alpha; nothing of a mix that is transparent. */
  predicate MixedAt(c: SRGBA, a: SRGBA, b: SRGBA, percent: real) {
    && 100.0 * c.a == percent * a.a + (100.0 - percent) * b.a
    && ShareOf(c.r, c.a, a.r, a.a, b.r, b.a, percent)
    && ShareOf(c.g, c.a, a.g, a.a, b.g, b.a, percent)
    && ShareOf(c.b, c.a, a.b, a.a, b.b, b.a, percent)
    && (c.a == 0.0 ==> c.r == 0.0 && c.g == 0.0 && c.b == 0.0)
  }

  lemma Hundredths(c: real, alpha: real, x: real, alphaX: real, y: real, alphaY: real, w: real, percent: real)
    requires percent == 100.0 * w && c * alpha == x * (alphaX * w) + y * (alphaY * (1.0 - w))
    ensures ShareOf(c, alpha, x, alphaX, y, alphaY, percent)
  {
    calc {
      100.0 * c * alpha;
      100.0 * (c * alpha);
      100.0 * (x * (alphaX * w)) + 100.0 * (y * (alphaY * (1.0 - w)));
      (100.0 * w) * x * alphaX + (100.0 * (1.0 - w)) * y * alphaY;
      percent * x * alphaX + (100.0 - percent) * y * alphaY;
    }
  }

  lemma CombinedAt(c: SRGBA, a: SRGBA, b: SRGBA, w: real, percent: real)
    requires percent == 100.0 * w && AllInterpolated(c, a, a.a * w, b, b.a * (1.0 - w))
    requires c.a == 0.0 ==> c.r == 0.0 && c.g == 0.0 && c.b == 0.0
    ensures MixedAt(c, a, b, percent)
  {
    Hundredths(c.r, c.a, a.r, a.a, b.r, b.a, w, percent);
    Hundredths(c.g, c.a, a.g, a.a, b.g, b.a, w, percent);
    Hundredths(c.b, c.a, a.b, a.a, b.b, b.a, w, percent);
    Hundredths(1.0, c.a, 1.0, a.a, 1.0, b.a, w, percent);
  }

  lemma TransparentIsNothing(a: SRGBA, alphaA: real, b: SRGBA, alphaB: real)
    requires alphaA + alphaB == 0.0
    ensures Combined(a, alphaA, b, alphaB) == SRGBA(0.0, 0.0, 0.0, 0.0)
  {
  }

  lemma PremixedAt(a: SRGBA, b: SRGBA, percent: real)
    requires Valid(a) && Valid(b) && 0.0 <= percent <= 100.0
    ensures MixedAt(Premixed(a, b, percent / 100.0), a, b, percent)
  {
    var w := percent / 100.0;
    var c := Premixed(a, b, w);
    MixInterpolates(a, b, w, a.a * w, b.a * (1.0 - w));
    if c.a == 0.0 { TransparentIsNothing(a, a.a * w, b, b.a * (1.0 - w)); }
    CombinedAt(c, a, b, w, percent);
  }

  lemma OneValue(env: Env, e: Expr, c: SRGBA, d: SRGBA)
    requires Evaluates(env, e, c) && Evaluates(env, e, d)
    ensures c == d
  {
    var t :| Gives(env, e, t, c);
    var u :| Gives(env, e, u, d);
    OneExpansion(env, e, t, u);
  }

  /** A mix evaluates when its operands do, and to their mix. */
  lemma BlendEvaluates(env: Env, e: Expr, c: SRGBA)
    requires e.Blend? && Evaluates(env, e, c)
    ensures exists a, b :: OperandsGive(env, e, a, b) && MixedAt(c, a, b, e.percent)
  {
    var t :| Gives(env, e, t, c);
    var a, b := Value(t.first), Value(t.second);
    assert Gives(env, e.first, t.first, a) && Gives(env, e.second, t.second, b);
    ValuesAreValid(t.first);
    ValuesAreValid(t.second);
    PremixedAt(a, b, e.percent);
    assert OperandsGive(env, e, a, b);
  }

  ghost predicate OperandsGive(env: Env, e: Expr, a: SRGBA, b: SRGBA)
    requires e.Blend?
  {
    Evaluates(env, e.first, a) && Evaluates(env, e.second, b)
  }

  lemma NameEvaluates(env: Env, name: string, c: SRGBA)
    requires Denotes(env, name, c)
    ensures name in env && Evaluates(env, env[name], c) && Evaluates(env, Reference(name), c)
  {
    var t :| Gives(env, Reference(name), t, c);
    assert Gives(env, env[name], t.body, c);
  }

  // -------------------------------------------------------------- the resolved answer

  lemma ResolvedEvaluates(h: Mixes, values: map<string, ColorValue>, env: Env, resolved: map<string, SRGBA>, name: string)
    requires IsResolved(h, values, resolved) && Elaborates(h, values, env) && name in values
    ensures name in resolved && name in env && Unfolds(h, values[name], env[name]) && Evaluates(env, env[name], resolved[name])
  {
    NameEvaluates(env, name, resolved[name]);
  }

  /** A literal resolves to its own colour. */
  lemma ResolvedLiteral(h: Mixes, values: map<string, ColorValue>, env: Env, resolved: map<string, SRGBA>, name: string)
    requires IsResolved(h, values, resolved) && Elaborates(h, values, env) && name in values && values[name].literal != ""
    ensures name in resolved && IsLiteral(values[name].literal) && resolved[name] == ColourOf(values[name].literal)
  {
    ResolvedEvaluates(h, values, env, resolved, name);
  }

  /** A reference resolves to the colour of the name it gives. */
  lemma ResolvedReference(h: Mixes, values: map<string, ColorValue>, env: Env, resolved: map<string, SRGBA>, name: string)
    requires IsResolved(h, values, resolved) && Elaborates(h, values, env) && name in values && values[name].reference != ""
    ensures name in resolved && values[name].reference in resolved && resolved[name] == resolved[values[name].reference]
  {
    ResolvedEvaluates(h, values, env, resolved, name);
    var other := values[name].reference;
    var t :| Gives(env, env[name], t, resolved[name]);
    assert other in env && other in values;
    NameEvaluates(env, other, resolved[other]);
    OneValue(env, env[name], resolved[name], resolved[other]);
  }

  /** The mix as its author pointed at it. */
  predicate Mixed(h: Mixes, v: ColorValue) {
    v.literal == "" && v.reference == "" && v.mix.Some? && v.mix.value in h
  }

  lemma MixUnfolds(h: Mixes, v: ColorValue, e: Expr)
    requires Unfolds(h, v, e) && Mixed(h, v)
    ensures e.Blend? && h[v.mix.value].percent == Finite(e.percent) && 0.0 <= e.percent <= 100.0
    ensures Unfolds(h, h[v.mix.value].first, e.first) && Unfolds(h, h[v.mix.value].second, e.second)
  {
  }

  /** A mix's operands evaluate, and the name's colour is their mix: `percent` hundredths
      of whatever the first operand evaluates to, the rest of the second's. */
  lemma ResolvedMix(h: Mixes, values: map<string, ColorValue>, env: Env, resolved: map<string, SRGBA>, name: string, first: Expr, second: Expr)
    requires IsResolved(h, values, resolved) && Elaborates(h, values, env) && name in values && Mixed(h, values[name])
    requires Unfolds(h, h[values[name].mix.value].first, first) && Unfolds(h, h[values[name].mix.value].second, second)
    ensures name in resolved && h[values[name].mix.value].percent.Finite?
    ensures exists a :: Evaluates(env, first, a)
    ensures exists b :: Evaluates(env, second, b)
    ensures forall a, b :: Evaluates(env, first, a) && Evaluates(env, second, b) ==>
              MixedAt(resolved[name], a, b, h[values[name].mix.value].percent.r)
  {
    ResolvedEvaluates(h, values, env, resolved, name);
    var e := env[name];
    MixUnfolds(h, values[name], e);
    OneUnfolding(h, h[values[name].mix.value].first, first, e.first);
    OneUnfolding(h, h[values[name].mix.value].second, second, e.second);
    BlendEvaluates(env, e, resolved[name]);
    var a, b :| OperandsGive(env, e, a, b) && MixedAt(resolved[name], a, b, e.percent);
    forall c, d | Evaluates(env, first, c) && Evaluates(env, second, d)
      ensures MixedAt(resolved[name], c, d, h[values[name].mix.value].percent.r)
    {
      OneValue(env, first, a, c);
      OneValue(env, second, b, d);
    }
  }

  /** At a hundred percent an opaque first operand is the whole colour, at zero an opaque
      second one. */
  lemma WholeOfOneOperand(h: Mixes, values: map<string, ColorValue>, env: Env, resolved: map<string, SRGBA>, name: string,
      first: Expr, second: Expr, a: SRGBA, b: SRGBA)
    requires IsResolved(h, values, resolved) && Elaborates(h, values, env) && name in values && Mixed(h, values[name])
    requires Unfolds(h, h[values[name].mix.value].first, first) && Unfolds(h, h[values[name].mix.value].second, second)
    requires Evaluates(env, first, a) && Evaluates(env, second, b)
    ensures name in resolved
    ensures h[values[name].mix.value].percent == Finite(100.0) && a.a == 1.0 ==> resolved[name] == a
    ensures h[values[name].mix.value].percent == Finite(0.0) && b.a == 1.0 ==> resolved[name] == b
  {
    ResolvedMix(h, values, env, resolved, name, first, second);
    var c := resolved[name];
    assert MixedAt(c, a, b, h[values[name].mix.value].percent.r);
    if h[values[name].mix.value].percent == Finite(100.0) && a.a == 1.0 { AllFirst(c, a, b); }
    if h[values[name].mix.value].percent == Finite(0.0) && b.a == 1.0 { AllSecond(c, a, b); }
  }

  lemma AllFirst(c: SRGBA, a: SRGBA, b: SRGBA)
    requires MixedAt(c, a, b, 100.0) && a.a == 1.0
    ensures c == a
  {
    assert (100.0 - 100.0) * b.a == 0.0;
    OnlyOne(c.r, a.r, b.r, b.a);
    OnlyOne(c.g, a.g, b.g, b.a);
    OnlyOne(c.b, a.b, b.b, b.a);
  }

  lemma OnlyOne(c: real, x: real, y: real, alpha: real)
    requires ShareOf(c, 1.0, x, 1.0, y, alpha, 100.0)
    ensures c == x
  {
    assert (100.0 - 100.0) * y * alpha == 0.0;
  }

  lemma AllSecond(c: SRGBA, a: SRGBA, b: SRGBA)
    requires MixedAt(c, a, b, 0.0) && b.a == 1.0
    ensures c == b
  {
    assert 0.0 * a.a == 0.0;
    OnlyOther(c.r, a.r, a.a, b.r);
    OnlyOther(c.g, a.g, a.a, b.g);
    OnlyOther(c.b, a.b, a.a, b.b);
  }

  lemma OnlyOther(c: real, x: real, alpha: real, y: real)
    requires ShareOf(c, 1.0, x, alpha, y, 1.0, 0.0)
    ensures c == y
  {
    assert 0.0 * x * alpha == 0.0;
  }

  // -------------------------------------------------------------------- token by token

  predicate BaseOk(t: Token) { IsColorName(t.name) && t.kind != "" }

  predicate NamesDiffer(base: seq<Token>, derived: seq<ColorToken>) {
    && (forall i, j :: 0 <= i < j < |base| ==> base[i].name != base[j].name)
    && (forall i, j :: 0 <= i < j < |derived| ==> derived[i].name != derived[j].name)
    && (forall i, j :: 0 <= i < |base| && 0 <= j < |derived| ==> base[i].name != derived[j].name)
  }

  /** The lists are well formed exactly when every name is a colour name, every base token
      has a type, and no name is given twice. */
  lemma ListedWellExactly(base: seq<Token>, derived: seq<ColorToken>)
    ensures WellListed(Listing(base, derived)) <==>
      && (forall i :: 0 <= i < |base| ==> BaseOk(base[i]))
      && (forall j :: 0 <= j < |derived| ==> IsColorName(derived[j].name))
      && NamesDiffer(base, derived)
  {
    var ds := Listing(base, derived);
    if WellListed(ds) {
      forall i | 0 <= i < |base| ensures BaseOk(base[i]) { assert Fresh(ds, i); }
      forall j | 0 <= j < |derived| ensures IsColorName(derived[j].name) { DerivedStands(ds, base, derived, j); }
      forall i, j | 0 <= i < j < |base| ensures base[i].name != base[j].name { assert Fresh(ds, j); }
      forall i, j | 0 <= i < j < |derived| ensures derived[i].name != derived[j].name {
        DerivedStands(ds, base, derived, j);
        assert ds[|base| + i] == OfDerived(derived[|base| + i - |base|]);
      }
      forall i, j | 0 <= i < |base| && 0 <= j < |derived| ensures base[i].name != derived[j].name {
        DerivedStands(ds, base, derived, j);
      }
    }
    if (forall i :: 0 <= i < |base| ==> BaseOk(base[i])) && (forall j :: 0 <= j < |derived| ==> IsColorName(derived[j].name))
      && NamesDiffer(base, derived)
    {
      forall k | 0 <= k < |ds| ensures Fresh(ds, k) {
        if k < |base| { assert BaseOk(base[k]); }
        forall l | 0 <= l < k ensures ds[l].name != ds[k].name {
        }
      }
    }
  }

  lemma DerivedStands(ds: seq<Entry>, base: seq<Token>, derived: seq<ColorToken>, j: nat)
    requires ds == Listing(base, derived) && WellListed(ds) && j < |derived|
    ensures ds[|base| + j] == OfDerived(derived[j]) && Fresh(ds, |base| + j)
    ensures derived[j].name in ColoursOf(ds) && ColoursOf(ds)[derived[j].name] == derived[j].value
  {
    assert ds[|base| + j] == OfDerived(derived[|base| + j - |base|]);
    ListedColour(ds, |base| + j);
  }

  /** A base token of type `color` is on record with the colour its value spells. */
  lemma BaseColour(h: Mixes, base: seq<Token>, derived: seq<ColorToken>, resolved: map<string, SRGBA>, i: nat)
    requires Resolves(h, base, derived) && IsResolved(h, ColoursOf(Listing(base, derived)), resolved)
    requires i < |base| && base[i].kind == "color"
    ensures base[i].name in resolved && IsLiteral(base[i].value) && resolved[base[i].name] == ColourOf(base[i].value)
  {
    var ds := Listing(base, derived);
    ListedColour(ds, i);
    var env :| Ordered(h, ColoursOf(ds), env);
    assert Unfolds(h, ColoursOf(ds)[base[i].name], env[base[i].name]);
    ResolvedLiteral(h, ColoursOf(ds), env, resolved, base[i].name);
  }

  /** A derived token is on record with the colour of what its value unfolds to. */
  lemma DerivedColour(h: Mixes, base: seq<Token>, derived: seq<ColorToken>, env: Env, resolved: map<string, SRGBA>, j: nat)
    requires Resolves(h, base, derived) && IsResolved(h, ColoursOf(Listing(base, derived)), resolved)
    requires Elaborates(h, ColoursOf(Listing(base, derived)), env) && j < |derived|
    ensures derived[j].name in resolved && derived[j].name in env
    ensures Unfolds(h, derived[j].value, env[derived[j].name]) && Evaluates(env, env[derived[j].name], resolved[derived[j].name])
  {
    DerivedStands(Listing(base, derived), base, derived, j);
    ResolvedEvaluates(h, ColoursOf(Listing(base, derived)), env, resolved, derived[j].name);
  }

  /** And nothing else is: tokens of other types are not output. */
  lemma OnlyColours(h: Mixes, base: seq<Token>, derived: seq<ColorToken>, resolved: map<string, SRGBA>, name: string)
    requires Resolves(h, base, derived) && IsResolved(h, ColoursOf(Listing(base, derived)), resolved)
    ensures name in resolved <==>
      || (exists i :: 0 <= i < |base| && base[i].name == name && base[i].kind == "color")
      || (exists j :: 0 <= j < |derived| && derived[j].name == name)
  {
    var ds := Listing(base, derived);
    if name in resolved {
      var i := ColourIsListed(ds, name);
      if i >= |base| { assert ds[i] == OfDerived(derived[i - |base|]); }
    }
    if i :| 0 <= i < |base| && base[i].name == name && base[i].kind == "color" {
      BaseColour(h, base, derived, resolved, i);
    }
    if j :| 0 <= j < |derived| && derived[j].name == name {
      DerivedStands(ds, base, derived, j);
    }
  }
}
