/** The cut of a client's text that a browser makes, and when it is the gate's.  To a
    browser no url begins inside a longer name, and no string runs over a bare newline. */
module SheetCuts {
  import opened Options
  import opened CssNames
  import opened CssSpellings
  import opened ClientSheet
  import opened SheetPromise
  import opened SheetTokens

  const HASH: Byte := 0x23
  const AT_SIGN: Byte := 0x40

  /** A name goes on, or begins, after the unit: after `#` and `@` the next name is theirs. */
  predicate NameGoesOn(u: Unit) {
    match u
    case Plain(b) => IsIdentByte(b) || b == 0 || b == HASH || b == AT_SIGN
    case Escaped(c) => !IsNewline(c)
    case Hex(_, _) => true
    case AtEnd => true
  }

  /** The unit a browser remembers: the line feed after an escape ended by a carriage return
      is part of that escape. */
  function Remembered(before: Option<Unit>, u: Unit): Option<Unit> {
    if u == Plain(LF) && before.Some? && before.value.Hex? && before.value.ending == Space(CR) then before else Some(u)
  }

  predicate InName(before: Option<Unit>) { before.Some? && NameGoesOn(before.value) }

  predicate OneLineBody(us: seq<Unit>) {
    us == [] || (!(us[0].Plain? && IsNewline(us[0].b)) && OneLineBody(us[1..]))
  }

  /** A string or url to a browser. */
  predicate IsSpan(before: Option<Unit>, t: Token) {
    match t
    case Loose(_) => false
    case Str(_, body) => OneLineBody(body)
    case Link(_, _) => !InName(before)
  }

  ghost predicate NoSpan(raw: Text, at: nat, before: Option<Unit>) {
    forall t :: TokenAt(raw, at, t) ==> !IsSpan(before, t)
  }

  function After(before: Option<Unit>, t: Token): Option<Unit> {
    if t.Loose? then Remembered(before, t.u) else None
  }

  /** A browser's cut: its strings and urls wherever one starts, loose units elsewhere. */
  ghost predicate BrowserCut(raw: Text, at: nat, before: Option<Unit>, ts: seq<Token>)
    decreases |ts|
  {
    if ts == [] then at == |raw|
    else
      && TokenAt(raw, at, ts[0]) && (if ts[0].Loose? then NoSpan(raw, at, before) else IsSpan(before, ts[0]))
      && BrowserCut(raw, PastToken(at, ts[0]), After(before, ts[0]), ts[1..])
  }

  lemma {:induction false} BrowserCutIsCut(raw: Text, at: nat, before: Option<Unit>, ts: seq<Token>)
    requires BrowserCut(raw, at, before, ts)
    ensures CutAs(raw, at, ts)
    decreases |ts|
  {
    if ts != [] { BrowserCutIsCut(raw, PastToken(at, ts[0]), After(before, ts[0]), ts[1..]); }
  }

  lemma SpanHere(raw: Text, at: nat, before: Option<Unit>) returns (t: Token)
    requires at < |raw|
    ensures TokenAt(raw, at, t) && (if t.Loose? then NoSpan(raw, at, before) else IsSpan(before, t))
    ensures at < PastToken(at, t) <= |raw|
  {
    if !NoSpan(raw, at, before) {
      t :| TokenAt(raw, at, t) && IsSpan(before, t);
    } else if raw[at] == BACKSLASH {
      var u := UnitHere(raw, at);
      t := Loose(u);
    } else {
      t := Loose(Plain(raw[at]));
    }
  }

  /** A browser cuts up every text. */
  lemma {:induction false} BrowserCuts(raw: Text, at: nat, before: Option<Unit>) returns (ts: seq<Token>)
    requires at <= |raw|
    ensures BrowserCut(raw, at, before, ts)
    decreases |raw| - at
  {
    if at == |raw| {
      ts := [];
    } else {
      var t := SpanHere(raw, at, before);
      var rest := BrowserCuts(raw, PastToken(at, t), After(before, t));
      ts := [t] + rest;
      assert ts[1..] == rest;
    }
  }

  /** No url of the cut runs on from a name, and no string of it holds a bare newline. */
  predicate AllSpans(before: Option<Unit>, ts: seq<Token>)
    decreases |ts|
  {
    ts == [] || ((ts[0].Loose? || IsSpan(before, ts[0])) && AllSpans(After(before, ts[0]), ts[1..]))
  }

  /** The gate's cut is a browser's exactly then. */
  lemma {:induction false} CutsAgreeExactly(raw: Text, at: nat, before: Option<Unit>, ts: seq<Token>)
    requires Written(raw, at, ts)
    ensures BrowserCut(raw, at, before, ts) <==> AllSpans(before, ts)
    decreases |ts|
  {
    if ts != [] { CutsAgreeExactly(raw, PastToken(at, ts[0]), After(before, ts[0]), ts[1..]); }
  }

  /** What the mask hides is what a browser finds inside strings and urls exactly when the
      tokens of a browser's cut are calm. */
  lemma MaskIsABrowsersExactly(raw: Text, ts: seq<Token>)
    requires BrowserCut(raw, 0, None, ts)
    ensures ResolveFrom(raw, 0, []) == NormAll(HeardAll(ts)) && Follows(NormAll(HeardAll(ts)), 0, HeardAll(ts))
    ensures Kept(NormAll(HeardAll(ts)), 0, HeardAll(ts)) <==> Calm(NormAll(HeardAll(ts)), 0, HeardAll(ts))
  {
    BrowserCutIsCut(raw, 0, None, ts);
    MaskIsFaithfulExactly(raw, ts);
  }

  // ---------------------------------------------------------------------- at an input

  /** Every byte of the text by itself. */
  function Bytewise(raw: Text, at: nat): (ts: seq<Token>)
    requires at <= |raw|
    decreases |raw| - at
  {
    if at == |raw| then [] else [Loose(Plain(raw[at]))] + Bytewise(raw, at + 1)
  }

  /** No quote, no escape, and no `u` that does not run on from a name. */
  predicate OnlyNames(raw: Text) {
    forall i :: 0 <= i < |raw| ==> NoSpanByte(raw, i)
  }

  predicate NoSpanByte(raw: Text, i: nat)
    requires i < |raw|
  {
    && !IsQuote(raw[i]) && raw[i] != BACKSLASH && raw[i] != LF
    && (raw[i] == 0x75 || raw[i] == 0x55 ==> InName(Preceding(raw, i)))
  }

  function Preceding(raw: Text, i: nat): Option<Unit>
    requires i <= |raw|
  {
    if i == 0 then None else Some(Plain(raw[i - 1]))
  }

  lemma NoSpanInNames(raw: Text, at: nat)
    requires at < |raw| && NoSpanByte(raw, at)
    ensures NoSpan(raw, at, Preceding(raw, at))
  {
    forall t | TokenAt(raw, at, t) ensures !IsSpan(Preceding(raw, at), t) {
      if t.Str? { StrStarts(raw, at, t); }
      if t.Link? { LinkStarts(raw, at, t); }
    }
  }

  lemma StrStarts(raw: Text, at: nat, t: Token)
    requires TokenAt(raw, at, t) && t.Str?
    ensures IsQuote(raw[at])
  {
  }

  lemma NextByte(raw: Text, at: nat)
    requires at < |raw| && NoSpanByte(raw, at)
    ensures TokenAt(raw, at, Loose(Plain(raw[at])))
    ensures After(Preceding(raw, at), Loose(Plain(raw[at]))) == Preceding(raw, at + 1)
  {
  }

  lemma {:induction false} NamesAreLoose(raw: Text, at: nat)
    requires at <= |raw| && OnlyNames(raw)
    ensures BrowserCut(raw, at, Preceding(raw, at), Bytewise(raw, at))
    decreases |raw| - at
  {
    if at < |raw| {
      assert NoSpanByte(raw, at);
      NoSpanInNames(raw, at);
      NextByte(raw, at);
      NamesAreLoose(raw, at + 1);
      CutOn(raw, at, Preceding(raw, at), Loose(Plain(raw[at])), Bytewise(raw, at + 1));
    }
  }

  lemma CutOn(raw: Text, at: nat, before: Option<Unit>, t: Token, rest: seq<Token>)
    requires TokenAt(raw, at, t) && t.Loose? && NoSpan(raw, at, before)
    requires BrowserCut(raw, PastToken(at, t), After(before, t), rest)
    ensures BrowserCut(raw, at, before, [t] + rest)
  {
    assert ([t] + rest)[1..] == rest;
  }

  lemma {:induction false} NothingInside(raw: Text, at: nat, p: nat, i: int)
    requires at <= |raw|
    ensures !InTokens(p, HeardAll(Bytewise(raw, at)), i)
    decreases |raw| - at
  {
    if at < |raw| {
      var ts := Bytewise(raw, at);
      assert ts[1..] == Bytewise(raw, at + 1);
      HeardFirst(ts);
      NothingInside(raw, at + 1, p + |Norm(Heard(ts[0]))|, i);
    }
  }

  lemma {:induction false} BytesSound(raw: Text, at: nat)
    requires at <= |raw| && forall i :: 0 <= i < |raw| ==> raw[i] != BACKSLASH && Lower(raw[i]) == raw[i]
    ensures NormAll(HeardAll(Bytewise(raw, at))) == raw[at..]
    decreases |raw| - at
  {
    if at < |raw| {
      var ts := Bytewise(raw, at);
      assert ts[1..] == Bytewise(raw, at + 1);
      HeardFirst(ts);
      ByteSounds(raw[at]);
      BytesSound(raw, at + 1);
      assert raw[at..] == [raw[at]] + raw[at + 1..];
    }
  }

  lemma ByteSounds(b: Byte)
    requires b != BACKSLASH && Lower(b) == b
    ensures Norm(Heard(Loose(Plain(b)))) == [b]
  {
    assert Fold([b]) == [Lower(b)];
  }

  /** `my-url(#f)` is no url to a browser, and its `#f` is hidden. */
  lemma LongerNameHides()
    ensures var raw := [0x6D, 0x79, 0x2D, 0x75, 0x72, 0x6C, 0x28, HASH, 0x66, 0x29];
            && ResolveFrom(raw, 0, []) == raw && Covered(raw, 0, 7) && Covered(raw, 0, 8)
            && BrowserCut(raw, 0, None, Bytewise(raw, 0)) && !InTokens(0, HeardAll(Bytewise(raw, 0)), 7)
  {
    var raw := [0x6D, 0x79, 0x2D, 0x75, 0x72, 0x6C, 0x28, HASH, 0x66, 0x29];
    NamesAreLoose(raw, 0);
    MaskIsABrowsersExactly(raw, Bytewise(raw, 0));
    BytesSound(raw, 0);
    NothingInside(raw, 0, 0, 7);
    assert ParenFrom(raw, 7) == ParenFrom(raw, 8) == ParenFrom(raw, 9) == Some(9);
    assert StepAt(raw, 3) == Mask(7, 9, 10);
    assert StepAt(raw, 0) == Next && StepAt(raw, 1) == Next && StepAt(raw, 2) == Next;
    HiddenLater(raw, 7);
    HiddenLater(raw, 8);
  }

  lemma HiddenLater(s: Text, i: int)
    requires |s| > 3 && StepAt(s, 0) == Next && StepAt(s, 1) == Next && StepAt(s, 2) == Next && Covered(s, 3, i)
    ensures Covered(s, 0, i)
  {
    assert Covered(s, 2, i) && Covered(s, 1, i);
  }
}
