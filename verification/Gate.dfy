/** The legibility gate: a theme's own tokens measured pair by pair, and the role layer a
    browser paints measured on top of them. */
module Gate {
  import opened Options
  import opened Colours
  import opened ColourGraph
  import opened ColourLayers
  import opened ColourResolution
  import opened ContrastRatios

  /** A foreground, a background, and the floor between them. */
  datatype Pair = Pair(foreground: string, background: string, floor: real)

  /** The package's tables: the colour fields of a theme, its other tokens, the token
      pairs, the role layer and the role pairs. */
  datatype Tables = Tables(fields: seq<string>, others: seq<Token>, pairs: seq<Pair>,
                           mixes: Mixes, roles: seq<ColorToken>, rolePairs: seq<Pair>)

  /** A theme: a literal for every colour field. */
  type Theme = map<string, string>

  const COLOUR_PREFIX := "--pk-color-"
  const ROLE_PREFIX := "--pk-role-"

  predicate TablesOk(g: Tables) {
    && AllPointed(g.mixes, g.roles)
    && forall i :: 0 <= i < |g.pairs| ==> g.pairs[i].foreground in g.fields && g.pairs[i].background in g.fields
  }

  predicate ThemeOk(g: Tables, t: Theme) { forall n :: n in g.fields ==> n in t }

  function FieldTokens(g: Tables, t: Theme): (ts: seq<Token>)
    requires ThemeOk(g, t)
    ensures |ts| == |g.fields|
    ensures forall i :: 0 <= i < |ts| ==> ts[i] == Token(COLOUR_PREFIX + g.fields[i], "color", t[g.fields[i]])
  {
    seq(|g.fields|, i requires 0 <= i < |g.fields| => Token(COLOUR_PREFIX + g.fields[i], "color", t[g.fields[i]]))
  }

  function AllTokens(g: Tables, t: Theme): seq<Token>
    requires ThemeOk(g, t)
  {
    FieldTokens(g, t) + g.others
  }

  // ------------------------------------------------------------------- the two halves

  predicate OpaqueLiteral(s: string) { IsLiteral(s) && ColourOf(s).a == 1.0 }

  ghost predicate Reads(f: real -> real, a: SRGBA, b: SRGBA, floor: real)
    requires Linearises(f) && Valid(a) && Valid(b)
  {
    LuminanceInUnit(f, a);
    LuminanceInUnit(f, b);
    ContrastOf(f, a, b) >= floor
  }

  ghost predicate PairReads(f: real -> real, t: Theme, p: Pair)
    requires Linearises(f) && p.foreground in t && p.background in t
    requires IsLiteral(t[p.foreground]) && IsLiteral(t[p.background])
  {
    Reads(f, ColourOf(t[p.foreground]), ColourOf(t[p.background]), p.floor)
  }

  /** The token half: every colour parses and is opaque, and every pair reaches its
      floor. */
  ghost predicate Checks(f: real -> real, g: Tables, t: Theme)
    requires Linearises(f) && TablesOk(g) && ThemeOk(g, t)
  {
    && WellListed(Listing(FieldTokens(g, t), []))
    && (forall n :: n in g.fields ==> OpaqueLiteral(t[n]))
    && forall i :: 0 <= i < |g.pairs| ==> PairReads(f, t, g.pairs[i])
  }

  /** A literal resolves to the colour it names. */
  lemma LiteralResolves(h: Mixes, values: map<string, ColorValue>, resolved: map<string, SRGBA>, env: Env, name: string, text: string)
    requires Elaborates(h, values, env) && Known(env, resolved) && name in values && name in resolved
    requires values[name] == ColorValue(text, "", None)
    ensures IsLiteral(text) && resolved[name] == ColourOf(text)
  {
    assert Denotes(env, name, resolved[name]);
    var t :| Gives(env, Reference(name), t, resolved[name]);
    assert Unfolds(h, values[name], env[name]);
    assert env[name] == Literal(text);
    OneExpansion(env, env[name], t.body, Leaf(text));
    assert Value(t) == Value(t.body) == ColourOf(text);
  }

  lemma FieldListed(g: Tables, t: Theme, i: nat)
    requires ThemeOk(g, t) && i < |g.fields| && WellListed(Listing(FieldTokens(g, t), []))
    ensures var values := ColoursOf(Listing(FieldTokens(g, t), []));
            var name := COLOUR_PREFIX + g.fields[i];
            name in values && values[name] == ColorValue(t[g.fields[i]], "", None)
  {
    ListedColour(Listing(FieldTokens(g, t), []), i);
  }

  /** Resolved on their own, the theme's fields are the colours their literals name. */
  lemma FieldsResolve(g: Tables, t: Theme, resolved: map<string, SRGBA>, n: string)
    requires ThemeOk(g, t) && Resolves(g.mixes, FieldTokens(g, t), []) && n in g.fields
    requires IsResolved(g.mixes, ColoursOf(Listing(FieldTokens(g, t), [])), resolved)
    ensures COLOUR_PREFIX + n in resolved && IsLiteral(t[n]) && resolved[COLOUR_PREFIX + n] == ColourOf(t[n])
  {
    var values := ColoursOf(Listing(FieldTokens(g, t), []));
    var env :| Ordered(g.mixes, values, env);
    var i :| 0 <= i < |g.fields| && g.fields[i] == n;
    FieldListed(g, t, i);
    LiteralResolves(g.mixes, values, resolved, env, COLOUR_PREFIX + n, t[n]);
  }

  lemma EveryFieldParses(g: Tables, t: Theme, i: nat)
    requires ThemeOk(g, t) && Resolves(g.mixes, FieldTokens(g, t), []) && i < |g.fields|
    ensures IsLiteral(t[g.fields[i]])
  {
    var values := ColoursOf(Listing(FieldTokens(g, t), []));
    var env :| Ordered(g.mixes, values, env);
    FieldListed(g, t, i);
    assert Unfolds(g.mixes, values[COLOUR_PREFIX + g.fields[i]], env[COLOUR_PREFIX + g.fields[i]]);
  }

  /** The fields resolve exactly when they are well listed and each parses. */
  lemma FieldsParse(g: Tables, t: Theme)
    requires ThemeOk(g, t)
    ensures Resolves(g.mixes, FieldTokens(g, t), []) <==>
      WellListed(Listing(FieldTokens(g, t), [])) && forall i :: 0 <= i < |g.fields| ==> IsLiteral(t[g.fields[i]])
  {
    var base := FieldTokens(g, t);
    if Resolves(g.mixes, base, []) {
      forall i | 0 <= i < |g.fields| ensures IsLiteral(t[g.fields[i]]) { EveryFieldParses(g, t, i); }
    }
    if WellListed(Listing(base, [])) && forall i :: 0 <= i < |g.fields| ==> IsLiteral(t[g.fields[i]]) {
      assert ThemeParses(base);
      LayerResolves(g.mixes, base, []);
    }
  }

  /** Every field's colour, by the name it is exported under. */
  ghost predicate FieldColours(g: Tables, t: Theme, values: map<string, SRGBA>)
    requires ThemeOk(g, t)
  {
    forall n :: n in g.fields ==> FieldColour(t, values, n)
  }

  ghost predicate FieldColour(t: Theme, values: map<string, SRGBA>, n: string)
    requires n in t
  {
    COLOUR_PREFIX + n in values && IsLiteral(t[n]) && values[COLOUR_PREFIX + n] == ColourOf(t[n])
  }

  method ColourValues(g: Tables, t: Theme, number: real -> string) returns (values: Option<map<string, SRGBA>>)
    requires TablesOk(g) && ThemeOk(g, t)
    ensures values.Some? <==> WellListed(Listing(FieldTokens(g, t), [])) && forall n :: n in g.fields ==> IsLiteral(t[n])
    ensures values.Some? ==> FieldColours(g, t, values.value)
  {
    FieldsParse(g, t);
    values := ResolveColors(g.mixes, FieldTokens(g, t), [], number);
    if values.Some? {
      forall n | n in g.fields ensures FieldColour(t, values.value, n) { FieldsResolve(g, t, values.value, n); }
    }
  }

  /** Whether one colour reaches its floor on another. */
  method Measure(f: real -> real, a: SRGBA, b: SRGBA, floor: real) returns (ok: bool)
    requires Linearises(f) && Valid(a) && Valid(b)
    ensures ok <==> Reads(f, a, b, floor)
  {
    var got := Contrast(f, a, b);
    ok := got >= floor;
  }

  method Check(f: real -> real, g: Tables, t: Theme, number: real -> string) returns (ok: bool)
    requires Linearises(f) && TablesOk(g) && ThemeOk(g, t)
    ensures ok <==> Checks(f, g, t)
  {
    var values := ColourValues(g, t, number);
    if values.None? {
      return false;
    }
    for i := 0 to |g.fields|
      invariant forall j :: 0 <= j < i ==> OpaqueLiteral(t[g.fields[j]])
    {
      assert FieldColour(t, values.value, g.fields[i]);
      if values.value[COLOUR_PREFIX + g.fields[i]].a != 1.0 {
        assert !OpaqueLiteral(t[g.fields[i]]);
        return false;
      }
    }
    ok := CheckPairs(f, g, t, values.value);
  }

  method MeasurePair(f: real -> real, g: Tables, t: Theme, values: map<string, SRGBA>, p: Pair) returns (ok: bool)
    requires Linearises(f) && ThemeOk(g, t) && FieldColours(g, t, values)
    requires p.foreground in g.fields && p.background in g.fields
    ensures FieldColour(t, values, p.foreground) && FieldColour(t, values, p.background)
    ensures ok <==> PairReads(f, t, p)
  {
    assert FieldColour(t, values, p.foreground) && FieldColour(t, values, p.background);
    ok := Measure(f, values[COLOUR_PREFIX + p.foreground], values[COLOUR_PREFIX + p.background], p.floor);
  }

  method CheckPairs(f: real -> real, g: Tables, t: Theme, values: map<string, SRGBA>) returns (ok: bool)
    requires Linearises(f) && TablesOk(g) && ThemeOk(g, t) && FieldColours(g, t, values)
    requires forall n :: n in g.fields ==> OpaqueLiteral(t[n])
    ensures ok <==> forall i :: 0 <= i < |g.pairs| ==> PairReads(f, t, g.pairs[i])
  {
    for i := 0 to |g.pairs|
      invariant forall j :: 0 <= j < i ==> PairReads(f, t, g.pairs[j])
    {
      ok := MeasurePair(f, g, t, values, g.pairs[i]);
      if !ok {
        return;
      }
    }
    return true;
  }

  // ---------------------------------------------------------------------- role pairs

  function RoleCSSName(name: string): string {
    if |name| >= |ROLE_PREFIX| && name[..|ROLE_PREFIX|] == ROLE_PREFIX then name else ROLE_PREFIX + name
  }

  /** The translation into the emitted spelling is done once: a name already in it is
      kept. */
  lemma EmittedOnce(name: string)
    ensures RoleCSSName(RoleCSSName(name)) == RoleCSSName(name)
  {
    assert (ROLE_PREFIX + name)[..|ROLE_PREFIX|] == ROLE_PREFIX;
  }

  /** The name a role is resolved under: as given, or as emitted. */
  function Resolved(values: map<string, SRGBA>, name: string): Option<string> {
    if name in values then Some(name) else if RoleCSSName(name) in values then Some(RoleCSSName(name)) else None
  }

  /** A role pair reads: it names a floor a ratio can have and two opaque colours of the
      layer that reach it. */
  ghost predicate RolePairReads(f: real -> real, values: map<string, SRGBA>, p: Pair)
    requires Linearises(f) && AllValid(values)
  {
    && 0.0 < p.floor <= 21.0
    && match (Resolved(values, p.foreground), Resolved(values, p.background))
       case (Some(a), Some(b)) => values[a].a == 1.0 && values[b].a == 1.0 && Reads(f, values[a], values[b], p.floor)
       case _ => false
  }

  /** A role may be named as declared or as emitted: over a layer that carries emitted names
      only, either spelling of either role is the same pair. */
  lemma EitherSpellingIsThePair(f: real -> real, values: map<string, SRGBA>, p: Pair)
    requires Linearises(f) && AllValid(values) && forall n :: n in values ==> RoleCSSName(n) == n
    ensures RolePairReads(f, values, p) <==> RolePairReads(f, values, p.(foreground := RoleCSSName(p.foreground)))
    ensures RolePairReads(f, values, p) <==> RolePairReads(f, values, p.(background := RoleCSSName(p.background)))
  {
    EmittedOnce(p.foreground);
    EmittedOnce(p.background);
  }

  /** The role the layer carries under the name itself or, failing that, its emitted form. */
  predicate CarriedAs(values: map<string, SRGBA>, name: string, role: string) {
    role in values && (role == name || (name !in values && role == RoleCSSName(name)))
  }

  ghost predicate OpaqueAndRead(f: real -> real, values: map<string, SRGBA>, p: Pair, a: string, b: string)
    requires Linearises(f) && AllValid(values)
  {
    CarriedAs(values, p.foreground, a) && CarriedAs(values, p.background, b) &&
    values[a].a == 1.0 && values[b].a == 1.0 && Reads(f, values[a], values[b], p.floor)
  }

  /** A role the layer does not carry, or one that is not opaque, has no ratio, whatever the
      floor; nor has a floor no ratio can have. */
  lemma ReadsTwoOpaqueRoles(f: real -> real, values: map<string, SRGBA>, p: Pair)
    requires Linearises(f) && AllValid(values)
    ensures RolePairReads(f, values, p) <==> 0.0 < p.floor <= 21.0 && exists a, b :: OpaqueAndRead(f, values, p, a, b)
  {
    if RolePairReads(f, values, p) {
      var a, b := Resolved(values, p.foreground).value, Resolved(values, p.background).value;
      assert OpaqueAndRead(f, values, p, a, b);
    }
  }

  predicate AllValid(values: map<string, SRGBA>) { forall n :: n in values ==> Valid(values[n]) }

  /** The colours of the layer over the theme. */
  ghost predicate Painted(g: Tables, t: Theme, values: map<string, SRGBA>)
    requires ThemeOk(g, t)
  {
    Resolves(g.mixes, AllTokens(g, t), g.roles) && IsResolved(g.mixes, ColoursOf(Listing(AllTokens(g, t), g.roles)), values)
  }

  /** The role half: there is a pair to measure, the layer resolves over the theme, and
      every pair reads in the colours a browser paints. */
  ghost predicate RolesCheck(f: real -> real, g: Tables, t: Theme)
    requires Linearises(f) && ThemeOk(g, t)
  {
    exists values :: RolesRead(f, g, t, values)
  }

  ghost predicate RolesRead(f: real -> real, g: Tables, t: Theme, values: map<string, SRGBA>)
    requires Linearises(f) && ThemeOk(g, t)
  {
    g.rolePairs != [] && Painted(g, t, values) && AllValid(values) && AllRolePairsRead(f, values, g.rolePairs)
  }

  ghost predicate AllRolePairsRead(f: real -> real, values: map<string, SRGBA>, pairs: seq<Pair>)
    requires Linearises(f) && AllValid(values)
  {
    forall i :: 0 <= i < |pairs| ==> RolePairReads(f, values, pairs[i])
  }

  /** What the layer paints is one set of colours, all valid. */
  lemma OnePainting(g: Tables, t: Theme, values: map<string, SRGBA>, other: map<string, SRGBA>)
    requires ThemeOk(g, t) && Painted(g, t, values) && Painted(g, t, other)
    ensures values == other && AllValid(values)
  {
    var declared := ColoursOf(Listing(AllTokens(g, t), g.roles));
    var env :| Ordered(g.mixes, declared, env);
    assert Known(env, values) && Known(env, other);
    assert values.Keys == other.Keys;
    forall n | n in values ensures values[n] == other[n] && Valid(values[n]) {
      OneColour(env, values, other, n);
    }
  }

  lemma OneColour(env: Env, values: map<string, SRGBA>, other: map<string, SRGBA>, n: string)
    requires Known(env, values) && Known(env, other) && n in values && n in other
    ensures values[n] == other[n] && Valid(values[n])
  {
    assert Denotes(env, n, values[n]) && Denotes(env, n, other[n]);
    OneMeaning(env, n, values[n], other[n]);
    var tree :| Gives(env, Reference(n), tree, values[n]);
    ValuesAreValid(tree);
  }

  method MeasureRolePair(f: real -> real, values: map<string, SRGBA>, p: Pair) returns (ok: bool)
    requires Linearises(f) && AllValid(values)
    ensures ok <==> RolePairReads(f, values, p)
  {
    if p.floor <= 0.0 || p.floor > 21.0 {
      return false;
    }
    var foreground, background := Resolved(values, p.foreground), Resolved(values, p.background);
    if foreground.None? || background.None? {
      return false;
    }
    if values[foreground.value].a != 1.0 || values[background.value].a != 1.0 {
      return false;
    }
    ok := Measure(f, values[foreground.value], values[background.value], p.floor);
  }

  method CheckRoles(f: real -> real, g: Tables, t: Theme, number: real -> string) returns (ok: bool)
    requires Linearises(f) && TablesOk(g) && ThemeOk(g, t)
    ensures ok <==> RolesCheck(f, g, t)
  {
    if |g.rolePairs| == 0 {
      return false;
    }
    var values := ResolveColors(g.mixes, AllTokens(g, t), g.roles, number);
    if values.None? {
      return false;
    }
    OnePainting(g, t, values.value, values.value);
    ok := CheckRolePairs(f, values.value, g.rolePairs);
    if ok {
      assert RolesRead(f, g, t, values.value);
    } else {
      OnlyPainting(f, g, t, values.value);
    }
  }

  method CheckRolePairs(f: real -> real, values: map<string, SRGBA>, pairs: seq<Pair>) returns (ok: bool)
    requires Linearises(f) && AllValid(values)
    ensures ok <==> AllRolePairsRead(f, values, pairs)
  {
    for i := 0 to |pairs|
      invariant forall j :: 0 <= j < i ==> RolePairReads(f, values, pairs[j])
    {
      ok := MeasureRolePair(f, values, pairs[i]);
      if !ok {
        return;
      }
    }
    return true;
  }

  lemma OnlyPainting(f: real -> real, g: Tables, t: Theme, values: map<string, SRGBA>)
    requires Linearises(f) && ThemeOk(g, t) && Painted(g, t, values) && AllValid(values)
    requires !AllRolePairsRead(f, values, g.rolePairs)
    ensures !RolesCheck(f, g, t)
  {
    forall other ensures !RolesRead(f, g, t, other) {
      if Painted(g, t, other) { OnePainting(g, t, values, other); }
    }
  }

  /** Both halves. */
  ghost predicate Gated(f: real -> real, g: Tables, t: Theme)
    requires Linearises(f) && TablesOk(g) && ThemeOk(g, t)
  {
    Checks(f, g, t) && RolesCheck(f, g, t)
  }

  method IsGated(f: real -> real, g: Tables, t: Theme, number: real -> string) returns (ok: bool)
    requires Linearises(f) && TablesOk(g) && ThemeOk(g, t)
    ensures ok <==> Gated(f, g, t)
  {
    ok := Check(f, g, t, number);
    if ok {
      ok := CheckRoles(f, g, t, number);
    }
  }
}
