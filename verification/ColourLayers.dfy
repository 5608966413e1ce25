/** What the resolution promises its callers: the listing order does not matter, a layer
    that reads only a theme's colours resolves over every theme that parses, and a
    detached value can be edited without moving the table it was copied from. */
module ColourLayers {
  import opened Options
  import opened Colours
  import opened ColourGraph
  import opened ColourResolution

  // ------------------------------------------------------------------ listing order

  lemma TwiceIn<T>(s: seq<T>, i: nat, j: nat)
    requires i < j < |s| && s[i] == s[j]
    ensures multiset(s)[s[i]] >= 2
  {
    assert s == s[..j] + [s[j]] + s[j + 1..];
    assert s[..j][i] == s[i];
    assert s[i] in multiset(s[..j]);
  }

  lemma {:induction false} OnceIn(ds: seq<Entry>, x: Entry)
    requires WellListed(ds)
    ensures multiset(ds)[x] <= 1
    decreases |ds|
  {
    if ds != [] {
      var last := |ds| - 1;
      var init := ds[..last];
      assert ds == init + [ds[last]];
      forall i | 0 <= i < last ensures Fresh(init, i) { assert Fresh(ds, i); }
      OnceIn(init, x);
      if x == ds[last] {
        assert Fresh(ds, last);
        forall i | 0 <= i < last ensures init[i] != x { assert ds[i].name != ds[last].name; }
        assert x !in init;
      }
    }
  }

  lemma SameEntries(ds: seq<Entry>, es: seq<Entry>, i: nat) returns (j: nat)
    requires multiset(ds) == multiset(es) && i < |es|
    ensures j < |ds| && ds[j] == es[i]
  {
    assert es[i] in multiset(es);
    assert es[i] in ds;
    j :| j < |ds| && ds[j] == es[i];
  }

  lemma StillWellListed(ds: seq<Entry>, es: seq<Entry>)
    requires WellListed(ds) && multiset(ds) == multiset(es)
    ensures WellListed(es)
  {
    forall i | 0 <= i < |es| ensures Fresh(es, i) {
      var a := SameEntries(ds, es, i);
      assert Fresh(ds, a);
      forall j | 0 <= j < i ensures es[j].name != es[i].name {
        var b := SameEntries(ds, es, j);
        assert Fresh(ds, b);
        if es[j] == es[i] {
          TwiceIn(es, j, i);
          OnceIn(ds, es[i]);
        }
      }
    }
  }

  lemma SameColours(ds: seq<Entry>, es: seq<Entry>)
    requires WellListed(ds) && WellListed(es) && multiset(ds) == multiset(es)
    ensures ColoursOf(ds) == ColoursOf(es)
  {
    forall n | n in ColoursOf(ds) ensures n in ColoursOf(es) && ColoursOf(es)[n] == ColoursOf(ds)[n] {
      var i := ColourIsListed(ds, n);
      var j := SameEntries(es, ds, i);
      ListedColour(es, j);
    }
    forall n | n in ColoursOf(es) ensures n in ColoursOf(ds) {
      var i := ColourIsListed(es, n);
      var j := SameEntries(ds, es, i);
      ListedColour(ds, j);
    }
  }

  function Mapped<A, B>(f: A -> B, s: seq<A>): seq<B> {
    seq(|s|, i requires 0 <= i < |s| => f(s[i]))
  }

  lemma MappedWithout<A, B>(f: A -> B, s: seq<A>, k: nat)
    requires k < |s|
    ensures multiset(Mapped(f, s)) == multiset(Mapped(f, s[..k] + s[k + 1..])) + multiset{f(s[k])}
  {
    var front, back := s[..k], s[k + 1..];
    assert Mapped(f, s) == Mapped(f, front) + [f(s[k])] + Mapped(f, back);
    assert Mapped(f, front + back) == Mapped(f, front) + Mapped(f, back);
  }

  lemma Without<A>(s: seq<A>, k: nat)
    requires k < |s|
    ensures multiset(s) == multiset(s[..k] + s[k + 1..]) + multiset{s[k]}
  {
    assert s == s[..k] + [s[k]] + s[k + 1..];
  }

  lemma {:induction false} MappedTogether<A, B>(f: A -> B, a: seq<A>, b: seq<A>)
    requires multiset(a) == multiset(b)
    ensures multiset(Mapped(f, a)) == multiset(Mapped(f, b))
    decreases |a|
  {
    if a == [] {
      assert |multiset(b)| == 0;
    } else {
      assert a[0] in multiset(b);
      var k :| 0 <= k < |b| && b[k] == a[0];
      Without(a, 0);
      Without(b, k);
      MappedWithout(f, a, 0);
      MappedWithout(f, b, k);
      var a', b' := a[..0] + a[1..], b[..k] + b[k + 1..];
      OneTakenOut(multiset(a'), multiset(b'), a[0]);
      MappedTogether(f, a', b');
    }
  }

  lemma OneTakenOut<T>(a: multiset<T>, b: multiset<T>, x: T)
    requires a + multiset{x} == b + multiset{x}
    ensures a == b
  {
    assert a == (a + multiset{x}) - multiset{x} && b == (b + multiset{x}) - multiset{x};
  }

  lemma ListingTogether(base: seq<Token>, derived: seq<ColorToken>, base': seq<Token>, derived': seq<ColorToken>)
    requires multiset(base) == multiset(base') && multiset(derived) == multiset(derived')
    ensures multiset(Listing(base, derived)) == multiset(Listing(base', derived'))
  {
    MappedTogether(OfBase, base, base');
    MappedTogether(OfDerived, derived, derived');
    assert Listing(base, derived) == Mapped(OfBase, base) + Mapped(OfDerived, derived);
    assert Listing(base', derived') == Mapped(OfBase, base') + Mapped(OfDerived, derived');
  }

  /** Whatever order the two lists are written in, resolution succeeds or fails alike and
      every name has the same colour. */
  lemma OrderDoesNotMatter(h: Mixes, base: seq<Token>, derived: seq<ColorToken>, base': seq<Token>, derived': seq<ColorToken>,
                           resolved: map<string, SRGBA>)
    requires multiset(base) == multiset(base') && multiset(derived) == multiset(derived')
    ensures Resolves(h, base, derived) <==> Resolves(h, base', derived')
    ensures Resolves(h, base, derived) ==>
      (IsResolved(h, ColoursOf(Listing(base, derived)), resolved) <==> IsResolved(h, ColoursOf(Listing(base', derived')), resolved))
  {
    var ds, es := Listing(base, derived), Listing(base', derived');
    ListingTogether(base, derived, base', derived');
    if WellListed(ds) || WellListed(es) {
      if WellListed(ds) { StillWellListed(ds, es); } else { StillWellListed(es, ds); }
      SameColours(ds, es);
    }
  }

  // ----------------------------------------------------------------- the role layer

  ghost predicate HasExpr(h: Mixes, v: ColorValue) { exists e :: Unfolds(h, v, e) }

  ghost function ExprOf(h: Mixes, v: ColorValue): (e: Expr)
    requires HasExpr(h, v)
    ensures Unfolds(h, v, e)
  {
    var e :| Unfolds(h, v, e);
    e
  }

  /** The theme sets the colour. */
  predicate SetsColour(base: seq<Token>, n: string) {
    exists i :: 0 <= i < |base| && base[i].name == n && base[i].kind == "color"
  }

  predicate ThemeParses(base: seq<Token>) {
    forall i :: 0 <= i < |base| && base[i].kind == "color" ==> IsLiteral(base[i].value)
  }

  /** A derived value that is well formed and reads only colours the theme sets. */
  ghost predicate ReadsTheme(h: Mixes, base: seq<Token>, v: ColorValue) {
    HasExpr(h, v) && forall n :: n in Refs(ExprOf(h, v)) ==> SetsColour(base, n)
  }

  lemma ThemeColourIsLiteral(h: Mixes, base: seq<Token>, derived: seq<ColorToken>, i: nat)
    requires WellListed(Listing(base, derived)) && ThemeParses(base)
    requires i < |base| && base[i].kind == "color"
    ensures base[i].name in ColoursOf(Listing(base, derived))
    ensures Unfolds(h, ColoursOf(Listing(base, derived))[base[i].name], Literal(base[i].value))
  {
    ListedColour(Listing(base, derived), i);
  }

  /** Every listed colour is well formed and reads only the theme. */
  lemma LayerColour(h: Mixes, base: seq<Token>, derived: seq<ColorToken>, n: string)
    requires WellListed(Listing(base, derived)) && ThemeParses(base)
    requires forall i :: 0 <= i < |derived| ==> ReadsTheme(h, base, derived[i].value)
    requires n in ColoursOf(Listing(base, derived))
    ensures ReadsTheme(h, base, ColoursOf(Listing(base, derived))[n])
    ensures SetsColour(base, n) ==> Refs(ExprOf(h, ColoursOf(Listing(base, derived))[n])) == {}
  {
    var ds := Listing(base, derived);
    var v := ColoursOf(ds)[n];
    var i := ColourIsListed(ds, n);
    if SetsColour(base, n) {
      var j :| 0 <= j < |base| && base[j].name == n && base[j].kind == "color";
      ThemeColourIsLiteral(h, base, derived, j);
      OneUnfolding(h, v, ExprOf(h, v), Literal(base[j].value));
    } else {
      assert i >= |base| ==> ds[i] == OfDerived(derived[i - |base|]);
    }
  }

  /** The layer and the theme under it: well listed, every theme colour a literal, every
      derived value reading only the theme. */
  ghost predicate LayerOverTheme(h: Mixes, base: seq<Token>, derived: seq<ColorToken>) {
    && WellListed(Listing(base, derived)) && ThemeParses(base)
    && forall i :: 0 <= i < |derived| ==> ReadsTheme(h, base, derived[i].value)
  }

  ghost predicate OneStep(env: Env) {
    forall n, m :: n in env && m in Refs(env[n]) ==> m in env && Refs(env[m]) == {}
  }

  ghost predicate AllHaveExpr(h: Mixes, values: map<string, ColorValue>) {
    forall n :: n in values ==> HasExpr(h, values[n])
  }

  /** The expressions of values that all have one. */
  ghost function Chosen(h: Mixes, values: map<string, ColorValue>): (env: Env)
    requires AllHaveExpr(h, values)
    ensures Elaborates(h, values, env) && forall n :: n in values ==> env[n] == ExprOf(h, values[n])
  {
    map n | n in values :: ExprOf(h, values[n])
  }

  lemma AllHaveExprs(h: Mixes, base: seq<Token>, derived: seq<ColorToken>)
    requires LayerOverTheme(h, base, derived)
    ensures AllHaveExpr(h, ColoursOf(Listing(base, derived)))
  {
    var values := ColoursOf(Listing(base, derived));
    forall n | n in values ensures HasExpr(h, values[n]) { LayerColour(h, base, derived, n); }
  }

  lemma LayerRef(h: Mixes, base: seq<Token>, derived: seq<ColorToken>, values: map<string, ColorValue>, n: string, m: string)
    requires LayerOverTheme(h, base, derived) && values == ColoursOf(Listing(base, derived)) && AllHaveExpr(h, values)
    requires n in values && m in Refs(ExprOf(h, values[n]))
    ensures m in values && Refs(ExprOf(h, values[m])) == {}
  {
    LayerColour(h, base, derived, n);
    assert SetsColour(base, m);
    var j :| 0 <= j < |base| && base[j].name == m && base[j].kind == "color";
    ThemeColourIsLiteral(h, base, derived, j);
    LayerColour(h, base, derived, m);
  }

  /** What a value refers to refers to nothing. */
  ghost predicate ReadsLiterals(h: Mixes, values: map<string, ColorValue>, n: string)
    requires AllHaveExpr(h, values) && n in values
  {
    forall m :: m in Refs(ExprOf(h, values[n])) ==> m in values && Refs(ExprOf(h, values[m])) == {}
  }

  lemma LayerReadsLiterals(h: Mixes, base: seq<Token>, derived: seq<ColorToken>, values: map<string, ColorValue>, n: string)
    requires LayerOverTheme(h, base, derived) && values == ColoursOf(Listing(base, derived)) && AllHaveExpr(h, values)
    requires n in values
    ensures ReadsLiterals(h, values, n)
  {
    forall m | m in Refs(ExprOf(h, values[n])) ensures m in values && Refs(ExprOf(h, values[m])) == {} {
      LayerRef(h, base, derived, values, n, m);
    }
  }

  lemma ChosenNeverLoops(h: Mixes, values: map<string, ColorValue>)
    requires AllHaveExpr(h, values) && forall n :: n in values ==> ReadsLiterals(h, values, n)
    ensures Ordered(h, values, Chosen(h, values))
  {
    var env := Chosen(h, values);
    forall n, m | n in env && m in Refs(env[n]) ensures m in env && Refs(env[m]) == {} {
      assert ReadsLiterals(h, values, n);
    }
    OneStepNeverLoops(env);
  }

  lemma OneStepNeverLoops(env: Env)
    requires OneStep(env)
    ensures ClosedRefs(env) && LoopFree(env)
  {
    forall w ensures !LoopOf(env, w) {
      if |w| >= 2 {
        var k := |w| - 2;
        assert WalkOf(env, w) ==> StepOf(env, w, k) && StepOf(env, w, 0);
      }
    }
  }

  /** A layer whose values are well formed and read only colours the theme sets resolves
      over every theme that parses. */
  lemma LayerResolves(h: Mixes, base: seq<Token>, derived: seq<ColorToken>)
    requires LayerOverTheme(h, base, derived)
    ensures Resolves(h, base, derived)
  {
    AllHaveExprs(h, base, derived);
    var values := ColoursOf(Listing(base, derived));
    forall n | n in values ensures ReadsLiterals(h, values, n) {
      LayerReadsLiterals(h, base, derived, values, n);
    }
    ChosenNeverLoops(h, values);
  }

  // ------------------------------------------------------------------------- detach

  /** Memory with room left: every mix in it was allocated before the next one. */
  class Memory {
    var mixes: Mixes
    var next: MixId

    constructor ()
      ensures Valid() && mixes == map[]
    {
      mixes, next := map[], 0;
    }

    ghost predicate Valid()
      reads this
    {
      forall m :: m in mixes ==> m < next
    }
  }

  /** The mixes of both memories agree wherever the first has one. */
  ghost predicate Extends(after: Mixes, before: Mixes) {
    before.Keys <= after.Keys && forall m :: m in before ==> after[m] == before[m]
  }

  lemma {:induction false} UnfoldingKept(before: Mixes, after: Mixes, v: ColorValue, e: Expr)
    requires Extends(after, before) && Unfolds(before, v, e)
    ensures Unfolds(after, v, e) && Met(after, v, e) == Met(before, v, e) <= before.Keys
    decreases e
  {
    if e.Blend? {
      var m := before[v.mix.value];
      UnfoldingKept(before, after, m.first, e.first);
      UnfoldingKept(before, after, m.second, e.second);
    }
  }

  /** Copies a value, mixes included: what comes back means the same and shares no mix
      with anything there was. */
  method Detach(memory: Memory, v: ColorValue, ghost e: Expr) returns (w: ColorValue)
    requires memory.Valid() && Unfolds(memory.mixes, v, e)
    modifies memory
    ensures memory.Valid() && Extends(memory.mixes, old(memory.mixes))
    ensures Unfolds(memory.mixes, w, e) && Met(memory.mixes, w, e) !! old(memory.mixes).Keys
    decreases e
  {
    w := v;
    if v.mix.Some? {
      ghost var before := memory.mixes;
      var embedded := memory.mixes[v.mix.value];
      var first := Detach(memory, embedded.first, e.first);
      ghost var half := memory.mixes;
      UnfoldingKept(before, half, embedded.second, e.second);
      var second := Detach(memory, embedded.second, e.second);
      UnfoldingKept(half, memory.mixes, first, e.first);
      ghost var both := memory.mixes;
      var id := memory.next;
      memory.mixes := memory.mixes[id := ColorMix(first, embedded.percent, second)];
      memory.next := id + 1;
      UnfoldingKept(both, memory.mixes, first, e.first);
      UnfoldingKept(both, memory.mixes, second, e.second);
      w := v.(mix := Some(id));
    }
  }

  /** Whatever is rewritten outside the mixes a value meets, the value means the same. */
  lemma {:induction false} EditsStayOut(h: Mixes, edited: Mixes, v: ColorValue, e: Expr)
    requires Unfolds(h, v, e)
    requires forall id :: id in h && id in Met(h, v, e) ==> id in edited && edited[id] == h[id]
    ensures Unfolds(edited, v, e)
    decreases e
  {
    if e.Blend? {
      var m := h[v.mix.value];
      EditsStayOut(h, edited, m.first, e.first);
      EditsStayOut(h, edited, m.second, e.second);
    }
  }

  /** However many writes a detached copy's mixes take, what they hold afterwards, and
      whatever else was written since, the table's own value keeps its meaning. */
  lemma TableSurvivesEdits(before: Mixes, after: Mixes, edited: Mixes, v: ColorValue, w: ColorValue, e: Expr)
    requires Unfolds(before, v, e) && Extends(after, before)
    requires Unfolds(after, w, e) && Met(after, w, e) !! before.Keys
    requires forall id :: id in after && id !in Met(after, w, e) ==> id in edited && edited[id] == after[id]
    ensures Unfolds(edited, v, e)
  {
    UnfoldingKept(before, after, v, e);
    EditsStayOut(after, edited, v, e);
  }
}
