/** The spelling an accent is answered in: the six-digit literal a theme stores, except
    when a shorter or longer one was asked for and passes as it stands. */
module AccentForm {
  import opened Options
  import opened Colours
  import opened ColourGraph
  import opened ColourResolution
  import opened ColourHex
  import opened ContrastRatios
  import opened Settling
  import opened Gate
  import opened Accent
  import opened WalkSteps

  lemma LoweredIsStored(value: string)
    requires OpaqueLiteral(value)
    ensures IsStored(ToLower(value)) <==> |value| == 7
  {
    OpaqueIsHex(value);
    SameColourLowered(value);
  }

  /** A repaired colour is a step of the line, and every step is stored. */
  lemma StepIsStored(raw: SRGBA, light: bool, k: nat)
    requires Valid(raw) && k <= 255
    ensures IsStored(StepLit(raw, light, k))
  {
    LitIsStored(raw, light, Share(k));
  }

  lemma LitIsStored(raw: SRGBA, light: bool, t: real)
    requires Valid(raw) && InUnit(t)
    ensures IsStored(LitAt(raw, light, t))
  {
    TowardValid(raw, light, t);
    HexColorIsStored(Toward(raw, light, t));
  }

  lemma RepairIsStored(f: real -> real, g: Tables, t: Theme, candidate: string, k: nat)
    requires Linearises(f) && TablesOk(g) && ThemeOk(g, t) && TEXT in t && CANVAS in t
    requires First(GatedSteps(f, g, t, candidate), k)
    ensures k <= 255 && IsStored(StepLit(MustParse(candidate), PaintsLight(f, t), k))
  {
    StepIsStored(MustParse(candidate), PaintsLight(f, t), k);
  }

  lemma AsAskedOrRepaired(f: real -> real, g: Tables, light: Theme, dark: Theme, name: string, value: string, colour: string)
    requires Linearises(f) && TablesOk(g) && ThemeOk(g, light) && ThemeOk(g, dark) && GatesAccent(g)
    requires Answers(f, g, light, dark, name, value, Paint(colour)) && colour != ""
    ensures IsTheme(name) && OpaqueLiteral(value)
    ensures var t := Target(light, dark, name);
            if GatedWith(f, g, t, ToLower(value)) then colour == ToLower(value) else IsStored(colour)
  {
    var t, candidate := Target(light, dark, name), ToLower(value);
    if !GatedWith(f, g, t, candidate) {
      var k :| First(GatedSteps(f, g, t, candidate), k) && colour == StepLit(MustParse(candidate), PaintsLight(f, t), k);
      RepairIsStored(f, g, t, candidate, k);
    }
  }

  /** The answer is a six-digit lower-case literal exactly when six digits were asked for
      or the colour asked for had to be repaired. */
  lemma StoredFormExactly(f: real -> real, g: Tables, light: Theme, dark: Theme, name: string, value: string, colour: string)
    requires Linearises(f) && TablesOk(g) && ThemeOk(g, light) && ThemeOk(g, dark) && GatesAccent(g)
    requires Answers(f, g, light, dark, name, value, Paint(colour)) && colour != ""
    ensures IsTheme(name)
    ensures IsStored(colour) <==> |value| == 7 || !GatedWith(f, g, Target(light, dark, name), ToLower(value))
  {
    AsAskedOrRepaired(f, g, light, dark, name, value, colour);
    LoweredIsStored(value);
  }

  /** A painted colour is the one asked for, in lower case, or a colour of its hue some
      255ths of the way to the pole the theme's copy stands at. */
  lemma PaintedIsOnTheLine(f: real -> real, g: Tables, light: Theme, dark: Theme, name: string, value: string, colour: string)
    requires Linearises(f) && TablesOk(g) && ThemeOk(g, light) && ThemeOk(g, dark) && GatesAccent(g)
    requires Answers(f, g, light, dark, name, value, Paint(colour)) && colour != ""
    ensures IsTheme(name)
    ensures colour == ToLower(value) ||
      exists k :: 1 <= k <= 255 && IsStep(MustParse(ToLower(value)), PaintsLight(f, Target(light, dark, name)), k, colour)
  {
    var t, candidate := Target(light, dark, name), ToLower(value);
    if colour != candidate {
      var k :| First(GatedSteps(f, g, t, candidate), k) && colour == StepLit(MustParse(candidate), PaintsLight(f, t), k);
      StepIsOnTheLine(MustParse(candidate), PaintsLight(f, t), k);
    }
  }

  // ------------------------------------------------------------- a theme asked for #FFF

  /** White text on black, gated by one pair and one role pair. */
  const NIGHT: Theme := map[ACCENT := "#000000", CANVAS := "#000000", TEXT := "#ffffff"]
  const NIGHT_TABLES: Tables :=
    Tables([ACCENT, CANVAS, TEXT], [], [Pair(ACCENT, CANVAS, 4.5)], map[], [],
           [Pair(COLOUR_PREFIX + ACCENT, COLOUR_PREFIX + CANVAS, 4.5)])

  lemma NightNames()
    ensures TablesOk(NIGHT_TABLES) && ThemeOk(NIGHT_TABLES, NIGHT) && GatesAccent(NIGHT_TABLES)
    ensures ACCENT != CANVAS && ACCENT != TEXT && CANVAS != TEXT
    ensures IsColorName(COLOUR_PREFIX + ACCENT) && IsColorName(COLOUR_PREFIX + CANVAS) && IsColorName(COLOUR_PREFIX + TEXT)
  {
    assert ACCENT[0] == 'a' && CANVAS[0] == 's' && TEXT[0] == 't';
    assert NIGHT_TABLES.pairs[0] == Pair(ACCENT, CANVAS, 4.5);
    Prefixed(ACCENT);
    Prefixed(CANVAS);
    Prefixed(TEXT);
  }

  lemma Prefixed(name: string)
    requires forall i :: 0 <= i < |name| ==> IsNameChar(name[i])
    ensures IsColorName(COLOUR_PREFIX + name)
  {
    var s := COLOUR_PREFIX + name;
    forall i | 2 <= i < |s| ensures IsNameChar(s[i]) {
      assert i < |COLOUR_PREFIX| || s[i] == name[i - |COLOUR_PREFIX|];
    }
  }

  lemma PrefixedDiffer(a: string, b: string)
    requires a != b
    ensures COLOUR_PREFIX + a != COLOUR_PREFIX + b
  {
    assert (COLOUR_PREFIX + a)[|COLOUR_PREFIX|..] == a && (COLOUR_PREFIX + b)[|COLOUR_PREFIX|..] == b;
  }

  lemma NightListed(t: Theme)
    requires t.Keys == NIGHT.Keys
    ensures ThemeOk(NIGHT_TABLES, t) && WellListed(Listing(FieldTokens(NIGHT_TABLES, t), []))
  {
    NightNames();
    PrefixedDiffer(ACCENT, CANVAS);
    PrefixedDiffer(ACCENT, TEXT);
    PrefixedDiffer(CANVAS, TEXT);
    var ds := Listing(FieldTokens(NIGHT_TABLES, t), []);
    assert |ds| == 3 && ds[0].name == COLOUR_PREFIX + ACCENT && ds[1].name == COLOUR_PREFIX + CANVAS && ds[2].name == COLOUR_PREFIX + TEXT;
    assert Fresh(ds, 0) && Fresh(ds, 1) && Fresh(ds, 2);
  }

  lemma LiteralMeans(env: Env, n: string, text: string)
    requires n in env && env[n] == Literal(text) && IsLiteral(text)
    ensures Denotes(env, n, ColourOf(text))
  {
    var leaf := Leaf(text);
    var via := Via(n, leaf);
    assert Expands(env, env[n], leaf) && TreeOk(leaf);
    assert Expands(env, Reference(n), via) && TreeOk(via) && Value(via) == Value(leaf);
    assert Gives(env, Reference(n), via, ColourOf(text));
  }

  /** Colours that are all literals resolve to what they name. */
  lemma LiteralsResolve(h: Mixes, values: map<string, ColorValue>)
    requires forall n :: n in values ==> IsLiteral(values[n].literal) && values[n] == ColorValue(values[n].literal, "", None)
    ensures IsResolved(h, values, map n | n in values :: ColourOf(values[n].literal))
  {
    var resolved := map n | n in values :: ColourOf(values[n].literal);
    forall env | Elaborates(h, values, env) ensures Known(env, resolved) {
      forall n | n in resolved ensures n in env && Denotes(env, n, resolved[n]) {
        assert Unfolds(h, values[n], env[n]) && env[n] == Literal(values[n].literal);
        LiteralMeans(env, n, values[n].literal);
      }
    }
  }

  lemma FieldsAreLiterals(g: Tables, t: Theme)
    requires ThemeOk(g, t) && WellListed(Listing(FieldTokens(g, t), []))
    ensures forall n :: n in ColoursOf(Listing(FieldTokens(g, t), [])) ==>
      exists field :: field in g.fields && ColoursOf(Listing(FieldTokens(g, t), []))[n] == ColorValue(t[field], "", None)
  {
    var ds := Listing(FieldTokens(g, t), []);
    forall n | n in ColoursOf(ds)
      ensures exists field :: field in g.fields && ColoursOf(ds)[n] == ColorValue(t[field], "", None)
    {
      var i := ColourIsListed(ds, n);
      ListedColour(ds, i);
      assert g.fields[i] in g.fields;
    }
  }

  /** White on black reads at any floor a theme asks for. */
  lemma WhiteOnBlackReads(f: real -> real)
    requires Linearises(f)
    ensures IsLiteral("#fff") && IsLiteral("#000000") && ColourOf("#fff") == WHITE && ColourOf("#000000") == BLACK
    ensures Reads(f, WHITE, BLACK, 4.5)
  {
    assert HexOf('f') == 15;
    LuminanceInUnit(f, WHITE);
    LuminanceInUnit(f, BLACK);
    assert LuminanceOf(f, WHITE) == 1.0 && LuminanceOf(f, BLACK) == 0.0;
    Reaches(1.0, 0.0, 4.5);
  }

  /** With no role of its own, a layer paints the theme's fields. */
  lemma FieldsArePainted(g: Tables, t: Theme, values: map<string, SRGBA>)
    requires TablesOk(g) && ThemeOk(g, t) && g.others == [] && g.roles == []
    requires WellListed(Listing(FieldTokens(g, t), [])) && forall n :: n in g.fields ==> OpaqueLiteral(t[n])
    requires var declared := ColoursOf(Listing(FieldTokens(g, t), []));
             && (forall n :: n in declared ==> IsLiteral(declared[n].literal))
             && values == map n | n in declared :: ColourOf(declared[n].literal)
    ensures Painted(g, t, values)
  {
    FieldsParse(g, t);
    FieldsAreLiterals(g, t);
    LiteralsResolve(g.mixes, ColoursOf(Listing(FieldTokens(g, t), [])));
    assert AllTokens(g, t) == FieldTokens(g, t);
  }

  /** One role pair over two fields asks of the layer what a token pair asks of the theme. */
  lemma FieldPairReads(f: real -> real, g: Tables, t: Theme, a: string, b: string)
    requires Linearises(f) && TablesOk(g) && ThemeOk(g, t) && g.others == [] && g.roles == []
    requires WellListed(Listing(FieldTokens(g, t), [])) && forall n :: n in g.fields ==> OpaqueLiteral(t[n])
    requires a in g.fields && b in g.fields && g.rolePairs == [Pair(COLOUR_PREFIX + a, COLOUR_PREFIX + b, 4.5)]
    requires OpaqueLiteral(t[a]) && OpaqueLiteral(t[b]) && Reads(f, ColourOf(t[a]), ColourOf(t[b]), 4.5)
    ensures RolesCheck(f, g, t)
  {
    FieldsAreLiterals(g, t);
    var declared := ColoursOf(Listing(FieldTokens(g, t), []));
    var values := map n | n in declared :: ColourOf(declared[n].literal);
    FieldsArePainted(g, t, values);
    assert AllTokens(g, t) == FieldTokens(g, t);
    FieldsResolve(g, t, values, a);
    FieldsResolve(g, t, values, b);
    PaintedPairReads(f, g, t, values, a, b);
  }

  lemma PaintedPairReads(f: real -> real, g: Tables, t: Theme, values: map<string, SRGBA>, a: string, b: string)
    requires Linearises(f) && ThemeOk(g, t) && Painted(g, t, values) && AllValid(values)
    requires g.rolePairs == [Pair(COLOUR_PREFIX + a, COLOUR_PREFIX + b, 4.5)]
    requires COLOUR_PREFIX + a in values && COLOUR_PREFIX + b in values
    requires values[COLOUR_PREFIX + a].a == 1.0 && values[COLOUR_PREFIX + b].a == 1.0
    requires Reads(f, values[COLOUR_PREFIX + a], values[COLOUR_PREFIX + b], 4.5)
    ensures RolesCheck(f, g, t)
  {
    assert RolePairReads(f, values, g.rolePairs[0]);
    assert RolesRead(f, g, t, values);
  }

  lemma NightChecks(f: real -> real, t: Theme)
    requires Linearises(f) && t == NIGHT[ACCENT := "#fff"]
    ensures TablesOk(NIGHT_TABLES) && ThemeOk(NIGHT_TABLES, t) && Checks(f, NIGHT_TABLES, t)
  {
    WhiteOnBlackReads(f);
    NightNames();
    NightListed(t);
    assert t[ACCENT] == "#fff" && t[CANVAS] == "#000000" && t[TEXT] == "#ffffff";
    forall n | n in NIGHT_TABLES.fields ensures OpaqueLiteral(t[n]) {
    }
    assert PairReads(f, t, Pair(ACCENT, CANVAS, 4.5));
  }

  lemma NightIsGated(f: real -> real)
    requires Linearises(f)
    ensures TablesOk(NIGHT_TABLES) && ThemeOk(NIGHT_TABLES, NIGHT) && GatedWith(f, NIGHT_TABLES, NIGHT, "#fff")
  {
    var t := NIGHT[ACCENT := "#fff"];
    NightNames();
    NightChecks(f, t);
    WhiteOnBlackReads(f);
    FieldPairReads(f, NIGHT_TABLES, t, ACCENT, CANVAS);
    assert WithAccent(NIGHT, "#fff") == t;
  }

  lemma AskedInCapitals()
    ensures ToLower("#FFF") == "#fff" && OpaqueLiteral("#FFF") && !IsStored("#fff")
  {
    assert HexOf('F') == 15;
    assert "#FFF"[1..] == "FFF";
  }

  /** A gated theme asked for `#FFF` answers `#fff`, which no theme stores. */
  lemma ShortAnswer(f: real -> real)
    requires Linearises(f)
    ensures TablesOk(NIGHT_TABLES) && ThemeOk(NIGHT_TABLES, NIGHT) && GatesAccent(NIGHT_TABLES)
    ensures Answers(f, NIGHT_TABLES, NIGHT, NIGHT, "dark", "#FFF", Paint("#fff")) && !IsStored("#fff")
  {
    NightNames();
    NightIsGated(f);
    AskedInCapitals();
    GatedIsPainted(f, NIGHT_TABLES, NIGHT, "#FFF");
  }

  lemma GatedIsPainted(f: real -> real, g: Tables, t: Theme, value: string)
    requires Linearises(f) && TablesOk(g) && ThemeOk(g, t) && GatesAccent(g)
    requires OpaqueLiteral(value) && value != "" && GatedWith(f, g, t, ToLower(value))
    ensures Answers(f, g, t, t, "dark", value, Paint(ToLower(value)))
  {
  }
}
