/** Resolving a theme's tokens and a derived layer into colours: a memoised depth-first
    walk that agrees with plain recursive evaluation, and that succeeds exactly when the
    names are valid and distinct, every value is well formed, and the references are
    closed over colours and free of loops. */
module ColourResolution {
  import opened Options
  import opened Colours
  import opened ColourGraph

  datatype Token = Token(name: string, kind: string, value: string)

  datatype ColorToken = ColorToken(name: string, value: ColorValue)

  // --------------------------------------------------------------------- the listing

  /** One declaration of either list: its name, its colour if it is one, and whether it
      is well formed on its own. */
  datatype Entry = Entry(name: string, colour: Option<ColorValue>, ok: bool)

  function OfBase(t: Token): Entry {
    Entry(t.name, if t.kind == "color" then Some(ColorValue(t.value, "", None)) else None,
          IsColorName(t.name) && t.kind != "")
  }

  function OfDerived(t: ColorToken): Entry {
    Entry(t.name, Some(t.value), IsColorName(t.name))
  }

  function Listing(base: seq<Token>, derived: seq<ColorToken>): (ds: seq<Entry>)
    ensures |ds| == |base| + |derived|
    ensures forall i :: 0 <= i < |base| ==> ds[i] == OfBase(base[i])
    ensures forall i :: |base| <= i < |ds| ==> ds[i] == OfDerived(derived[i - |base|])
  {
    seq(|base|, i requires 0 <= i < |base| => OfBase(base[i])) +
    seq(|derived|, i requires 0 <= i < |derived| => OfDerived(derived[i]))
  }

  predicate Fresh(ds: seq<Entry>, i: nat)
    requires i < |ds|
  {
    ds[i].ok && forall j :: 0 <= j < i ==> ds[j].name != ds[i].name
  }

  /** Every declaration is well formed and no name is declared twice. */
  predicate WellListed(ds: seq<Entry>) {
    forall i :: 0 <= i < |ds| ==> Fresh(ds, i)
  }

  /** The colours a listing declares. */
  function ColoursOf(ds: seq<Entry>): map<string, ColorValue> {
    if ds == [] then map[]
    else
      var last := ds[|ds| - 1];
      if last.colour.Some? then ColoursOf(ds[..|ds| - 1])[last.name := last.colour.value] else ColoursOf(ds[..|ds| - 1])
  }

  predicate Names(ds: seq<Entry>, n: string) { exists i :: 0 <= i < |ds| && ds[i].name == n }

  /** In a well-listed listing a colour is what its one declaration says. */
  lemma {:induction false} ListedColour(ds: seq<Entry>, i: nat)
    requires WellListed(ds) && i < |ds| && ds[i].colour.Some?
    ensures ds[i].name in ColoursOf(ds) && ColoursOf(ds)[ds[i].name] == ds[i].colour.value
    decreases |ds|
  {
    var init, last := ds[..|ds| - 1], |ds| - 1;
    if i < last {
      forall k | 0 <= k < |init| ensures Fresh(init, k) { assert Fresh(ds, k); }
      ListedColour(init, i);
      assert Fresh(ds, last);
    }
  }

  lemma {:induction false} ColourIsListed(ds: seq<Entry>, n: string) returns (i: nat)
    requires n in ColoursOf(ds)
    ensures i < |ds| && ds[i].name == n && ds[i].colour == Some(ColoursOf(ds)[n])
    decreases |ds|
  {
    i := |ds| - 1;
    if ds[i].name != n || ds[i].colour.None? { i := ColourIsListed(ds[..i], n); }
  }

  // ------------------------------------------------------------------- gathering names

  /** What the lists have given so far. */
  ghost predicate Gathered(ds: seq<Entry>, values: map<string, ColorValue>, kinds: map<string, string>, names: seq<string>) {
    && WellListed(ds)
    && values == ColoursOf(ds)
    && (forall n :: n in kinds <==> Names(ds, n))
    && (forall n :: n in values <==> n in kinds && kinds[n] == "color")
    && (forall n :: n in names <==> n in values)
  }

  lemma GatherOne(ds: seq<Entry>, i: nat, values: map<string, ColorValue>, kinds: map<string, string>, names: seq<string>, kind: string)
    requires i < |ds| && Gathered(ds[..i], values, kinds, names)
    requires ds[i].colour.Some? <==> kind == "color"
    ensures ds[i].ok && ds[i].name !in kinds <==> Fresh(ds, i)
    ensures ds[i].ok && ds[i].name !in kinds ==>
      Gathered(ds[..i + 1],
        if ds[i].colour.Some? then values[ds[i].name := ds[i].colour.value] else values,
        kinds[ds[i].name := kind],
        if ds[i].colour.Some? then names + [ds[i].name] else names)
  {
    var name := ds[i].name;
    if Names(ds[..i], name) {
      var j :| 0 <= j < i && ds[..i][j].name == name;
      assert ds[j].name == name;
    } else {
      forall j | 0 <= j < i ensures ds[j].name != name { assert ds[..i][j] == ds[j]; }
    }
    if ds[i].ok && name !in kinds { GatherMore(ds, i, values, kinds, names, kind); }
  }

  lemma GatherMore(ds: seq<Entry>, i: nat, values: map<string, ColorValue>, kinds: map<string, string>, names: seq<string>, kind: string)
    requires i < |ds| && Gathered(ds[..i], values, kinds, names) && Fresh(ds, i)
    requires ds[i].colour.Some? <==> kind == "color"
    requires ds[i].name !in kinds
    ensures Gathered(ds[..i + 1],
        if ds[i].colour.Some? then values[ds[i].name := ds[i].colour.value] else values,
        kinds[ds[i].name := kind],
        if ds[i].colour.Some? then names + [ds[i].name] else names)
  {
    var now := ds[..i + 1];
    assert now[..i] == ds[..i] && now[i] == ds[i] && |now| - 1 == i;
    forall k | 0 <= k < |now| ensures Fresh(now, k) {
      if k < i { assert Fresh(ds[..i], k); }
      forall j | 0 <= j < k ensures now[j].name != now[k].name { assert k < i ==> ds[..i][j].name != ds[..i][k].name; }
    }
    forall n ensures n in kinds[ds[i].name := kind] <==> Names(now, n) {
      if Names(ds[..i], n) {
        var j :| 0 <= j < i && ds[..i][j].name == n;
        assert now[j].name == n;
      }
      if Names(now, n) && n != ds[i].name {
        var j :| 0 <= j < i + 1 && now[j].name == n;
        assert ds[..i][j].name == n;
      }
      assert now[i].name == ds[i].name;
    }
  }

  method GatherBase(base: seq<Token>, ghost ds: seq<Entry>)
    returns (ok: bool, values: map<string, ColorValue>, kinds: map<string, string>, names: seq<string>)
    requires |base| <= |ds| && forall i :: 0 <= i < |base| ==> ds[i] == OfBase(base[i])
    ensures ok ==> Gathered(ds[..|base|], values, kinds, names)
    ensures !ok ==> !WellListed(ds)
  {
    values, kinds, names := map[], map[], [];
    for i := 0 to |base|
      invariant Gathered(ds[..i], values, kinds, names)
    {
      var token := base[i];
      GatherOne(ds, i, values, kinds, names, token.kind);
      if !IsColorName(token.name) || token.name in kinds || token.kind == "" {
        assert !Fresh(ds, i);
        return false, values, kinds, names;
      }
      kinds := kinds[token.name := token.kind];
      if token.kind == "color" {
        values := values[token.name := ColorValue(token.value, "", None)];
        names := names + [token.name];
      }
    }
    return true, values, kinds, names;
  }

  method GatherDerived(derived: seq<ColorToken>, ghost ds: seq<Entry>, ghost from: nat,
                       values0: map<string, ColorValue>, kinds0: map<string, string>, names0: seq<string>)
    returns (ok: bool, values: map<string, ColorValue>, kinds: map<string, string>, names: seq<string>)
    requires |ds| == from + |derived| && forall i :: from <= i < |ds| ==> ds[i] == OfDerived(derived[i - from])
    requires Gathered(ds[..from], values0, kinds0, names0)
    ensures ok ==> Gathered(ds, values, kinds, names)
    ensures !ok ==> !WellListed(ds)
  {
    values, kinds, names := values0, kinds0, names0;
    for i := 0 to |derived|
      invariant Gathered(ds[..from + i], values, kinds, names)
    {
      var token := derived[i];
      assert ds[from + i] == OfDerived(derived[from + i - from]);
      GatherOne(ds, from + i, values, kinds, names, "color");
      if !IsColorName(token.name) || token.name in kinds {
        assert !Fresh(ds, from + i);
        return false, values, kinds, names;
      }
      kinds := kinds[token.name := "color"];
      values := values[token.name := token.value];
      names := names + [token.name];
    }
    assert ds[..from + |derived|] == ds;
    return true, values, kinds, names;
  }

  /** The colours and kinds of both lists, or a refusal when a name is malformed, untyped
      or taken. */
  method Gather(base: seq<Token>, derived: seq<ColorToken>)
    returns (ok: bool, values: map<string, ColorValue>, kinds: map<string, string>, names: seq<string>)
    ensures ok <==> WellListed(Listing(base, derived))
    ensures ok ==> Gathered(Listing(base, derived), values, kinds, names)
  {
    ghost var ds := Listing(base, derived);
    ok, values, kinds, names := GatherBase(base, ds);
    if ok {
      ok, values, kinds, names := GatherDerived(derived, ds, |base|, values, kinds, names);
    }
  }

  // ---------------------------------------------------------------- the memoised walk

  /** The expressions behind the colours. */
  ghost predicate Elaborates(h: Mixes, values: map<string, ColorValue>, env: Env) {
    env.Keys == values.Keys && forall n :: n in env ==> Unfolds(h, values[n], env[n])
  }

  /** Why a set of colours has no meaning: a reference that names none, or a loop. */
  datatype Fault = NoFault | Dangling(from: string, to: string) | Loop(walk: seq<string>)

  ghost predicate Faulty(env: Env, f: Fault) {
    match f
    case NoFault => false
    case Dangling(from, to) => Edge(env, from, to) && to !in env
    case Loop(walk) => LoopOf(env, walk)
  }

  lemma FaultsForbid(env: Env, f: Fault)
    requires Faulty(env, f)
    ensures !(ClosedRefs(env) && LoopFree(env))
  {
    if f.Dangling? { assert f.to in Refs(env[f.from]); }
  }

  /** The names being resolved, from the first asked to the last: each refers to the
      next. */
  ghost predicate Stack(env: Env, stack: seq<string>, active: set<string>) {
    && WalkOf(env, stack)
    && (forall n {:trigger OnStack(stack, n)} :: OnStack(stack, n) <==> n in active)
    && active <= env.Keys
  }

  predicate OnStack(stack: seq<string>, n: string) { n in stack }

  /** The walk may go on to the name: it is asked for, or the last name refers to it. */
  ghost predicate MayAsk(env: Env, stack: seq<string>, name: string) {
    if stack == [] then name in env else Edge(env, stack[|stack| - 1], name)
  }

  lemma Push(env: Env, stack: seq<string>, active: set<string>, name: string)
    requires Stack(env, stack, active) && MayAsk(env, stack, name) && name in env && name !in active
    ensures Stack(env, stack + [name], active + {name}) && (stack + [name])[|stack|] == name
    ensures |env.Keys - (active + {name})| < |env.Keys - active|
  {
    forall i: nat | i < |stack + [name]| - 1 ensures StepOf(env, stack + [name], i) {
      if i < |stack| - 1 { assert StepOf(env, stack, i); }
    }
    forall n ensures OnStack(stack + [name], n) <==> n in active + {name} {
      assert OnStack(stack, n) <==> n in active;
    }
    assert name in env.Keys - active;
    SmallerSet(env.Keys - (active + {name}), env.Keys - active);
  }

  lemma ClosesLoop(env: Env, stack: seq<string>, active: set<string>, name: string) returns (f: Fault)
    requires Stack(env, stack, active) && MayAsk(env, stack, name) && name in active
    ensures Faulty(env, f)
  {
    assert OnStack(stack, name);
    var k :| 0 <= k < |stack| && stack[k] == name;
    var walk := stack[k..] + [name];
    forall i: nat | i < |walk| - 1 ensures StepOf(env, walk, i) {
      if k + i < |stack| - 1 { assert StepOf(env, stack, k + i); }
    }
    f := Loop(walk);
  }

  ghost predicate Known(env: Env, resolved: map<string, SRGBA>) {
    forall n {:trigger Denotes(env, n, resolved[n])} :: n in resolved ==> n in env && Denotes(env, n, resolved[n])
  }

  /** A name's answer: its colour, now on record, or a fault. */
  ghost predicate Answered(env: Env, resolved: map<string, SRGBA>, name: string, colour: Option<SRGBA>, fault: Fault) {
    match colour
    case None => Faulty(env, fault)
    case Some(c) => name in resolved && resolved[name] == c && Denotes(env, name, c)
  }

  lemma AddedRemoved<T>(s: set<T>, x: T)
    requires x !in s
    ensures (s + {x}) - {x} == s
  {
  }

  lemma Learns(env: Env, before: map<string, SRGBA>, after: map<string, SRGBA>, name: string, tree: Tree, c: SRGBA)
    requires Known(env, before) && name in env && Gives(env, env[name], tree, c) && after == before[name := c]
    ensures Known(env, after) && before.Keys <= after.Keys && Denotes(env, name, c)
  {
    assert Gives(env, Reference(name), Via(name, tree), c);
    forall n | n in after ensures n in env && Denotes(env, n, after[n]) {
      if n != name { assert Denotes(env, n, before[n]); }
    }
  }

  /** The mix of two evaluated operands. */
  method MixOperands(a: SRGBA, b: SRGBA, percent: real, ghost env: Env, ghost e: Expr, ghost ta: Tree, ghost tb: Tree)
    returns (c: SRGBA)
    requires e.Blend? && e.percent == percent && 0.0 <= percent <= 100.0
    requires Gives(env, e.first, ta, a) && Gives(env, e.second, tb, b)
    ensures Gives(env, e, Join(ta, percent, tb), c)
  {
    assert Expands(env, e, Join(ta, percent, tb)) && TreeOk(Join(ta, percent, tb));
    assert Value(ta) == a && Value(tb) == b;
    c := Premixed(a, b, percent / 100.0);
    assert Value(Join(ta, percent, tb)) == c;
  }

  /** The colours resolved so far and the names being resolved. */
  class Memo {
    const h: Mixes
    const values: map<string, ColorValue>
    const kinds: map<string, string>
    ghost const env: Env
    var resolved: map<string, SRGBA>
    var active: set<string>

    constructor (h: Mixes, values: map<string, ColorValue>, kinds: map<string, string>, ghost env: Env)
      ensures this.h == h && this.values == values && this.kinds == kinds && this.env == env
      ensures resolved == map[] && active == {}
    {
      this.h, this.values, this.kinds, this.env := h, values, kinds, env;
      resolved, active := map[], {};
    }

    ghost predicate Valid()
      reads this
    {
      && Elaborates(h, values, env)
      && (forall n :: n in values <==> n in kinds && kinds[n] == "color")
      && Known(env, resolved)
    }

    /** One name.  A name already resolved is looked up; one that names no colour or is
        already being resolved is refused with the fault that shows it. */
    method Resolve(name: string, ghost stack: seq<string>) returns (colour: Option<SRGBA>, ghost fault: Fault)
      requires Valid() && Stack(env, stack, active) && MayAsk(env, stack, name)
      modifies this
      ensures Valid() && active == old(active) && old(resolved.Keys) <= resolved.Keys
      ensures Answered(env, resolved, name, colour, fault)
      decreases |env.Keys - active|, 1
    {
      fault := NoFault;
      if name in resolved {
        return Some(resolved[name]), fault;
      }
      if name !in kinds || kinds[name] != "color" || name in active {
        fault := Refused(stack, name);
        return None, fault;
      }
      colour, fault := ResolveAfresh(name, stack);
    }

    /** A colour name met for the first time on this walk: it is active while its value
        is evaluated, and on record once it has a colour. */
    method ResolveAfresh(name: string, ghost stack: seq<string>) returns (colour: Option<SRGBA>, ghost fault: Fault)
      requires Valid() && Stack(env, stack, active) && MayAsk(env, stack, name)
      requires name in values && name !in active
      modifies this
      ensures Valid() && active == old(active) && old(resolved.Keys) <= resolved.Keys
      ensures Answered(env, resolved, name, colour, fault)
      decreases |env.Keys - active|, 0
    {
      ghost var before, tree := active, Leaf("");
      Push(env, stack, active, name);
      active := active + {name};
      colour, tree, fault := Evaluate(values[name], stack + [name], env[name]);
      AddedRemoved(before, name);
      active := active - {name};
      if colour.Some? {
        Record(name, colour.value, tree);
      }
    }

    /** Puts a name's colour on record. */
    method Record(name: string, c: SRGBA, ghost tree: Tree)
      requires Valid() && name in env && Gives(env, env[name], tree, c)
      modifies this`resolved
      ensures Valid() && old(resolved.Keys) <= resolved.Keys
      ensures name in resolved && resolved[name] == c && Denotes(env, name, c)
    {
      var known := resolved[name := c];
      Learns(env, resolved, known, name, tree, c);
      resolved := known;
    }

    lemma Refused(stack: seq<string>, name: string) returns (fault: Fault)
      requires Valid() && Stack(env, stack, active) && MayAsk(env, stack, name)
      requires name !in kinds || kinds[name] != "color" || name in active
      ensures Faulty(env, fault)
    {
      if name in active {
        fault := ClosesLoop(env, stack, active, name);
      } else {
        fault := Dangling(stack[|stack| - 1], name);
      }
    }

    /** One value, inside the name last asked for. */
    method Evaluate(v: ColorValue, ghost stack: seq<string>, ghost e: Expr)
      returns (colour: Option<SRGBA>, ghost tree: Tree, ghost fault: Fault)
      requires Valid() && Stack(env, stack, active) && stack != [] && stack[|stack| - 1] in env
      requires Unfolds(h, v, e) && Refs(e) <= Refs(env[stack[|stack| - 1]])
      modifies this
      ensures Valid() && active == old(active) && old(resolved.Keys) <= resolved.Keys
      ensures colour.Some? ==> Gives(env, e, tree, colour.value)
      ensures colour.None? ==> Faulty(env, fault)
      decreases |env.Keys - active|, 1 + Weight(e)
    {
      tree, fault := Leaf(""), NoFault;
      if v.literal != "" {
        colour := ParseColor(v.literal);
        tree := Leaf(v.literal);
        return;
      }
      if v.reference != "" {
        colour, fault := Resolve(v.reference, stack);
        if colour.Some? {
          tree :| Gives(env, Reference(v.reference), tree, colour.value);
        }
        return;
      }
      var mix := h[v.mix.value];
      ghost var ta, tb;
      var a, b;
      a, ta, fault := Evaluate(mix.first, stack, e.first);
      if a.None? {
        return None, tree, fault;
      }
      b, tb, fault := Evaluate(mix.second, stack, e.second);
      if b.None? {
        return None, tree, fault;
      }
      tree := Join(ta, e.percent, tb);
      var c := MixOperands(a.value, b.value, mix.percent.r, env, e, ta, tb);
      colour := Some(c);
    }
  }

  // ------------------------------------------------------------------ the whole answer

  /** No mix pointer dangles. */
  predicate AllPointed(h: Mixes, derived: seq<ColorToken>) {
    Sound(h) && forall i :: 0 <= i < |derived| ==> Pointed(h, derived[i].value)
  }

  /** The values are well formed, and their references are closed over colours and never
      loop. */
  ghost predicate Ordered(h: Mixes, values: map<string, ColorValue>, env: Env) {
    Elaborates(h, values, env) && ClosedRefs(env) && LoopFree(env)
  }

  ghost predicate Resolves(h: Mixes, base: seq<Token>, derived: seq<ColorToken>) {
    WellListed(Listing(base, derived)) && exists env :: Ordered(h, ColoursOf(Listing(base, derived)), env)
  }

  /** The result holds every colour's one meaning, and nothing else. */
  ghost predicate IsResolved(h: Mixes, values: map<string, ColorValue>, resolved: map<string, SRGBA>) {
    resolved.Keys == values.Keys &&
    forall env :: Elaborates(h, values, env) ==> Known(env, resolved)
  }

  lemma OneElaboration(h: Mixes, values: map<string, ColorValue>, env: Env, other: Env)
    requires Elaborates(h, values, env) && Elaborates(h, values, other)
    ensures env == other
  {
    forall n | n in env ensures env[n] == other[n] { OneUnfolding(h, values[n], env[n], other[n]); }
  }

  lemma NoElaboration(h: Mixes, values: map<string, ColorValue>, name: string)
    requires name in values && forall f :: !Unfolds(h, values[name], f)
    ensures forall other :: !Elaborates(h, values, other)
  {
    forall other ensures !Elaborates(h, values, other) {
      assert name in other ==> !Unfolds(h, values[name], other[name]);
    }
  }

  /** The expression behind every listed colour, or the one that has none. */
  method ElaborateAll(h: Mixes, values: map<string, ColorValue>, names: seq<string>, number: real -> string)
    returns (ok: bool, ghost env: Env)
    requires Sound(h) && (forall n :: n in values ==> Pointed(h, values[n])) && forall n :: n in names <==> n in values
    ensures ok ==> Elaborates(h, values, env)
    ensures !ok ==> forall other :: !Elaborates(h, values, other)
  {
    env := map[];
    for i := 0 to |names|
      invariant forall n :: n in env <==> n in names[..i]
      invariant forall n :: n in env ==> n in values && Unfolds(h, values[n], env[n])
    {
      var text, e := CssText(h, values[names[i]], number);
      if text.None? {
        NoElaboration(h, values, names[i]);
        return false, env;
      }
      env := env[names[i] := e];
      assert names[..i + 1] == names[..i] + [names[i]];
    }
    assert names[..|names|] == names;
    return true, env;
  }

  lemma AllKnownIsResolved(h: Mixes, values: map<string, ColorValue>, env: Env, resolved: map<string, SRGBA>)
    requires Elaborates(h, values, env) && Known(env, resolved) && resolved.Keys == values.Keys
    ensures IsResolved(h, values, resolved) && Ordered(h, values, env)
  {
    forall other | Elaborates(h, values, other) ensures Known(other, resolved) { OneElaboration(h, values, env, other); }
    forall n {:trigger Meaningful(env, n)} | n in env ensures Meaningful(env, n) {
      assert Denotes(env, n, resolved[n]);
      var t :| Gives(env, Reference(n), t, resolved[n]);
      assert Expands(env, Reference(n), t);
    }
    MeaningNeedsOrder(env);
  }

  lemma FaultyNeverOrdered(h: Mixes, values: map<string, ColorValue>, env: Env, fault: Fault)
    requires Elaborates(h, values, env) && Faulty(env, fault)
    ensures forall other :: !Ordered(h, values, other)
  {
    forall other ensures !Ordered(h, values, other) {
      if Ordered(h, values, other) {
        OneElaboration(h, values, env, other);
        FaultsForbid(env, fault);
      }
    }
  }

  /** The whole answer: it succeeds exactly when the lists resolve, and then holds plain
      evaluation's colour for every colour name. */
  method ResolveColors(h: Mixes, base: seq<Token>, derived: seq<ColorToken>, number: real -> string)
    returns (out: Option<map<string, SRGBA>>)
    requires AllPointed(h, derived)
    ensures out.Some? <==> Resolves(h, base, derived)
    ensures out.Some? ==> IsResolved(h, ColoursOf(Listing(base, derived)), out.value)
  {
    var ok, values, kinds, names := Gather(base, derived);
    if !ok {
      return None;
    }
    ListedArePointed(h, base, derived);
    ghost var env;
    ok, env := ElaborateAll(h, values, names, number);
    if !ok {
      return None;
    }
    var memo := new Memo(h, values, kinds, env);
    out := ResolveAll(memo, names);
    if out.Some? {
      AllKnownIsResolved(h, values, env, out.value);
    }
  }

  /** Every name in turn. */
  method ResolveAll(memo: Memo, names: seq<string>) returns (out: Option<map<string, SRGBA>>)
    requires memo.Valid() && memo.active == {} && forall n :: n in names <==> n in memo.values
    modifies memo
    ensures out.Some? ==> Known(memo.env, out.value) && out.value.Keys == memo.values.Keys
    ensures out.None? ==> forall other :: !Ordered(memo.h, memo.values, other)
  {
    for i := 0 to |names|
      invariant memo.Valid() && memo.active == {}
      invariant forall k :: 0 <= k < i ==> names[k] in memo.resolved
    {
      var colour, fault := memo.Resolve(names[i], []);
      if colour.None? {
        FaultyNeverOrdered(memo.h, memo.values, memo.env, fault);
        return None;
      }
    }
    forall n ensures n in memo.values <==> n in memo.resolved {
      if n in memo.resolved { assert Denotes(memo.env, n, memo.resolved[n]); }
    }
    return Some(memo.resolved);
  }

  lemma ListedArePointed(h: Mixes, base: seq<Token>, derived: seq<ColorToken>)
    requires AllPointed(h, derived)
    ensures forall n :: n in ColoursOf(Listing(base, derived)) ==> Pointed(h, ColoursOf(Listing(base, derived))[n])
  {
    var ds := Listing(base, derived);
    forall n | n in ColoursOf(ds) ensures Pointed(h, ColoursOf(ds)[n]) {
      var i := ColourIsListed(ds, n);
      if i >= |base| { assert ds[i] == OfDerived(derived[i - |base|]); }
    }
  }
}
