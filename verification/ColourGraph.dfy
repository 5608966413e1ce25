/** What a set of named colour expressions means: plain recursive evaluation, as a finite
    tree of literals, references and mixes.  Every name has a tree exactly when the
    references are closed and do not loop. */
module ColourGraph {
  import opened Colours

  type Env = map<string, Expr>

  // ------------------------------------------------------------------------- mixing

  /** One premultiplied channel taken back out; zero when the mix is transparent. */
  function MixedChannel(x: real, alphaX: real, y: real, alphaY: real): real {
    if alphaX + alphaY == 0.0 then 0.0 else (x * alphaX + y * alphaY) / (alphaX + alphaY)
  }

  /** Two colours combined, each with the share of alpha it brings. */
  function Combined(a: SRGBA, alphaA: real, b: SRGBA, alphaB: real): SRGBA {
    SRGBA(MixedChannel(a.r, alphaA, b.r, alphaB), MixedChannel(a.g, alphaA, b.g, alphaB),
          MixedChannel(a.b, alphaA, b.b, alphaB), alphaA + alphaB)
  }

  /** Two colours mixed with premultiplied alpha. */
  function Premixed(a: SRGBA, b: SRGBA, weight: real): SRGBA {
    Combined(a, a.a * weight, b, b.a * (1.0 - weight))
  }

  predicate Between(x: real, a: real, b: real) { a <= x <= b || b <= x <= a }

  lemma Product(a: real, b: real)
    requires a >= 0.0 && b >= 0.0
    ensures a * b >= 0.0
  {
  }

  lemma Factor(a: real, b: real)
    requires a * b >= 0.0 && b > 0.0
    ensures a >= 0.0
  {
    if a < 0.0 { Negative(a, b); }
  }

  lemma Negative(a: real, b: real)
    requires a < 0.0 && b > 0.0
    ensures a * b < 0.0
  {
  }

  lemma AverageBetween(x: real, p: real, y: real, q: real, m: real)
    requires p >= 0.0 && q >= 0.0 && p + q > 0.0 && x <= y && m * (p + q) == x * p + y * q
    ensures x <= m <= y
  {
    assert (m - x) * (p + q) == (y - x) * q;
    Product(y - x, q);
    Factor(m - x, p + q);
    assert (y - m) * (p + q) == (y - x) * p;
    Product(y - x, p);
    Factor(y - m, p + q);
  }

  lemma Averages(x: real, p: real, y: real, q: real)
    requires p >= 0.0 && q >= 0.0 && p + q > 0.0
    ensures Between((x * p + y * q) / (p + q), x, y)
    ensures ((x * p + y * q) / (p + q)) * (p + q) == x * p + y * q
  {
    var m := (x * p + y * q) / (p + q);
    assert m * (p + q) == x * p + y * q;
    if x <= y { AverageBetween(x, p, y, q, m); } else { AverageBetween(y, q, x, p, m); }
  }

  /** A channel of a combination: between the operands' unless the result is
      transparent, and the sum of theirs once each is multiplied by its alpha. */
  predicate Interpolated(c: real, x: real, p: real, y: real, q: real) {
    && InUnit(c)
    && (p + q != 0.0 ==> Between(c, x, y))
    && c * (p + q) == x * p + y * q
  }

  predicate AllInterpolated(c: SRGBA, a: SRGBA, p: real, b: SRGBA, q: real) {
    && Interpolated(c.r, a.r, p, b.r, q)
    && Interpolated(c.g, a.g, p, b.g, q)
    && Interpolated(c.b, a.b, p, b.b, q)
    && c.a == p + q
  }

  lemma Combines(a: SRGBA, p: real, b: SRGBA, q: real)
    requires Valid(a) && Valid(b) && p >= 0.0 && q >= 0.0 && p + q <= 1.0
    ensures Valid(Combined(a, p, b, q)) && AllInterpolated(Combined(a, p, b, q), a, p, b, q)
  {
    ChannelBetween(a.r, p, b.r, q);
    ChannelBetween(a.g, p, b.g, q);
    ChannelBetween(a.b, p, b.b, q);
  }

  lemma SharesCombine(a: SRGBA, b: SRGBA, w: real, p: real, q: real)
    requires p == a.a * w && q == b.a * (1.0 - w)
    ensures Premixed(a, b, w) == Combined(a, p, b, q)
  {
  }

  lemma SharesOk(a: real, b: real, w: real, p: real, q: real)
    requires InUnit(a) && InUnit(b) && InUnit(w) && p == a * w && q == b * (1.0 - w)
    ensures p >= 0.0 && q >= 0.0 && Between(p + q, a, b)
  {
    Product(a, w);
    Product(b, 1.0 - w);
    AlphaBetween(a, b, w);
  }

  lemma AlphaBetween(a: real, b: real, w: real)
    requires InUnit(w)
    ensures Between(a * w + b * (1.0 - w), a, b)
  {
    var m := a * w + b * (1.0 - w);
    assert m * (w + (1.0 - w)) == m;
    if a <= b { AverageBetween(a, w, b, 1.0 - w, m); } else { AverageBetween(b, 1.0 - w, a, w, m); }
  }

  lemma ChannelBetween(x: real, p: real, y: real, q: real)
    requires InUnit(x) && InUnit(y) && p >= 0.0 && q >= 0.0
    ensures Interpolated(MixedChannel(x, p, y, q), x, p, y, q)
  {
    if p + q != 0.0 {
      Averages(x, p, y, q);
    } else {
      assert p == 0.0 && q == 0.0;
    }
  }

  // --------------------------------------------------------------- plain evaluation

  /** An expression with its references followed: finite by construction. */
  datatype Tree = Leaf(text: string) | Via(name: string, body: Tree) | Join(first: Tree, percent: real, second: Tree)

  predicate Expands(env: Env, e: Expr, t: Tree)
    decreases t
  {
    match t
    case Leaf(text) => e == Literal(text) && IsLiteral(text)
    case Via(name, body) => e == Reference(name) && name in env && Expands(env, env[name], body)
    case Join(a, p, b) =>
      e.Blend? && e.percent == p && 0.0 <= p <= 100.0 && Expands(env, e.first, a) && Expands(env, e.second, b)
  }

  predicate TreeOk(t: Tree) {
    match t
    case Leaf(text) => IsLiteral(text)
    case Via(_, body) => TreeOk(body)
    case Join(a, p, b) => 0.0 <= p <= 100.0 && TreeOk(a) && TreeOk(b)
  }

  /** Plain recursive evaluation. */
  function Value(t: Tree): SRGBA
    requires TreeOk(t)
  {
    match t
    case Leaf(text) => ColourOf(text)
    case Via(_, body) => Value(body)
    case Join(a, p, b) => Premixed(Value(a), Value(b), p / 100.0)
  }

  lemma {:induction false} ExpandsOk(env: Env, e: Expr, t: Tree)
    requires Expands(env, e, t)
    ensures TreeOk(t)
    decreases t
  {
    match t
    case Leaf(_) =>
    case Via(name, body) => ExpandsOk(env, env[name], body);
    case Join(a, _, b) => ExpandsOk(env, e.first, a); ExpandsOk(env, e.second, b);
  }

  /** The expression evaluates to the colour. */
  ghost predicate Gives(env: Env, e: Expr, t: Tree, c: SRGBA) {
    Expands(env, e, t) && TreeOk(t) && Value(t) == c
  }

  ghost predicate Denotes(env: Env, name: string, c: SRGBA) {
    exists t :: Gives(env, Reference(name), t, c)
  }

  lemma {:induction false} OneExpansion(env: Env, e: Expr, t: Tree, u: Tree)
    requires Expands(env, e, t) && Expands(env, e, u)
    ensures t == u
    decreases t
  {
    match t
    case Leaf(_) => assert u.Leaf?;
    case Via(name, body) =>
      assert u.Via?;
      OneExpansion(env, env[name], body, u.body);
    case Join(a, _, b) =>
      assert u.Join?;
      OneExpansion(env, e.first, a, u.first);
      OneExpansion(env, e.second, b, u.second);
  }

  /** A name means one colour. */
  lemma OneMeaning(env: Env, name: string, c: SRGBA, d: SRGBA)
    requires Denotes(env, name, c) && Denotes(env, name, d)
    ensures c == d
  {
    var t :| Gives(env, Reference(name), t, c);
    var u :| Gives(env, Reference(name), u, d);
    OneExpansion(env, Reference(name), t, u);
  }

  /** A mix of valid colours is valid: alpha is interpolated, each channel lies between
      the operands' unless the mix is entirely transparent, and the premultiplied channels
      are the operands' premultiplied channels interpolated (section 12.3 of CSS Color
      Module Level 4). */
  lemma MixInterpolates(a: SRGBA, b: SRGBA, w: real, p: real, q: real)
    requires Valid(a) && Valid(b) && InUnit(w)
    requires p == a.a * w && q == b.a * (1.0 - w)
    ensures Valid(Premixed(a, b, w)) && Between(Premixed(a, b, w).a, a.a, b.a)
    ensures AllInterpolated(Premixed(a, b, w), a, p, b, q)
  {
    SharesOk(a.a, b.a, w, p, q);
    Combines(a, p, b, q);
    SharesCombine(a, b, w, p, q);
  }

  lemma JoinValid(a: SRGBA, b: SRGBA, w: real)
    requires Valid(a) && Valid(b) && InUnit(w)
    ensures Valid(Premixed(a, b, w))
  {
    MixInterpolates(a, b, w, a.a * w, b.a * (1.0 - w));
  }

  /** Every resolved colour passes the channel check. */
  lemma {:induction false} ValuesAreValid(t: Tree)
    requires TreeOk(t)
    ensures Valid(Value(t))
  {
    match t
    case Leaf(_) =>
    case Via(_, body) => ValuesAreValid(body);
    case Join(a, p, b) =>
      ValuesAreValid(a);
      ValuesAreValid(b);
      JoinValid(Value(a), Value(b), p / 100.0);
  }

  // ------------------------------------------------------------------ the references

  function Refs(e: Expr): set<string> {
    match e
    case Literal(_) => {}
    case Reference(name) => {name}
    case Blend(a, _, b) => Refs(a) + Refs(b)
  }

  predicate Edge(env: Env, a: string, b: string) { a in env && b in Refs(env[a]) }

  /** Every reference names a colour. */
  predicate ClosedRefs(env: Env) { forall n :: n in env ==> Refs(env[n]) <= env.Keys }

  predicate StepOf(env: Env, w: seq<string>, i: nat)
    requires i < |w| - 1
  {
    Edge(env, w[i], w[i + 1])
  }

  /** A walk along references. */
  predicate WalkOf(env: Env, w: seq<string>) {
    forall i: nat :: i < |w| - 1 ==> StepOf(env, w, i)
  }

  predicate LoopOf(env: Env, w: seq<string>) {
    |w| >= 2 && w[0] == w[|w| - 1] && WalkOf(env, w)
  }

  ghost predicate LoopFree(env: Env) { forall w :: !LoopOf(env, w) }

  function Bulk(t: Tree): (n: nat)
    ensures n > 0
  {
    match t
    case Leaf(_) => 1
    case Via(_, body) => 1 + Bulk(body)
    case Join(a, _, b) => 1 + Bulk(a) + Bulk(b)
  }

  /** What a reference inside an expression expands to is part of its expansion. */
  lemma {:induction false} RefExpands(env: Env, e: Expr, t: Tree, name: string) returns (u: Tree)
    requires Expands(env, e, t) && name in Refs(e)
    ensures Expands(env, Reference(name), u) && Bulk(u) <= Bulk(t)
    decreases t
  {
    match t
    case Leaf(_) => assert false;
    case Via(_, _) => u := t;
    case Join(a, _, b) =>
      if name in Refs(e.first) { u := RefExpands(env, e.first, a, name); }
      else { u := RefExpands(env, e.second, b, name); }
  }

  /** Along a walk the expansions only get smaller. */
  lemma {:induction false} WalkShrinks(env: Env, w: seq<string>, t: Tree) returns (u: Tree)
    requires |w| >= 2 && WalkOf(env, w) && Expands(env, Reference(w[0]), t)
    ensures Expands(env, Reference(w[|w| - 1]), u) && Bulk(u) < Bulk(t)
    decreases |w|
  {
    assert StepOf(env, w, 0);
    u := RefExpands(env, env[w[0]], t.body, w[1]);
    if |w| > 2 {
      forall i: nat | i < |w[1..]| - 1 ensures StepOf(env, w[1..], i) {
        assert StepOf(env, w, i + 1);
      }
      u := WalkShrinks(env, w[1..], u);
    }
  }

  ghost predicate Meaningful(env: Env, name: string) {
    exists t :: Expands(env, Reference(name), t)
  }

  ghost predicate AllMeaningful(env: Env) {
    forall n {:trigger Meaningful(env, n)} :: n in env ==> Meaningful(env, n)
  }

  /** When every name has a meaning, the references are closed and never loop. */
  lemma MeaningNeedsOrder(env: Env)
    requires AllMeaningful(env)
    ensures ClosedRefs(env) && LoopFree(env)
  {
    forall n, m | n in env && m in Refs(env[n]) ensures m in env {
      assert Meaningful(env, n);
      var t :| Expands(env, Reference(n), t);
      var u := RefExpands(env, env[n], t.body, m);
    }
    forall w ensures !LoopOf(env, w) {
      if LoopOf(env, w) {
        assert StepOf(env, w, 0);
        assert Meaningful(env, w[0]);
        var t :| Expands(env, Reference(w[0]), t);
        var u := WalkShrinks(env, w, t);
        OneExpansion(env, Reference(w[0]), t, u);
      }
    }
  }
}
