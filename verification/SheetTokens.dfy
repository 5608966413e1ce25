/** The mask read against the text a client wrote.  The gate normalizes that text first,
    so a string's escapes are decoded before the mask looks for its end. */
module SheetTokens {
  import opened Options
  import opened CssNames
  import opened CssSpellings
  import opened ClientSheet
  import opened SheetPromise

  // ------------------------------------------------------------------ the written text

  predicate Readable(u: Unit) {
    if u.Plain? then u.b != BACKSLASH else UnitOk(u)
  }

  /** What a byte of the text, or one escape, is normalized to. */
  function Sound(u: Unit): (t: Text)
    ensures Readable(u) ==> t != []
  {
    if !Readable(u) then [] else if u.AtEnd? then [BACKSLASH] else Fold(Means(u))
  }

  function Sounds(us: seq<Unit>): Text {
    if us == [] then [] else Sound(us[0]) + Sounds(us[1..])
  }

  predicate AllReadable(us: seq<Unit>) {
    us == [] || (Readable(us[0]) && AllReadable(us[1..]))
  }

  /** A piece of a client's text: a closed string, a `url(` argument up to the parenthesis
      that closes it, or a unit that is in neither.  How a text is cut into them is up to
      its reader. */
  datatype Token = Loose(u: Unit) | Str(quote: Byte, body: seq<Unit>) | Link(head: seq<Unit>, body: seq<Unit>)

  /** A parenthesis ends the argument unless it stands in a string or an escape. */
  predicate ArgumentOk(us: seq<Unit>, within: Option<Byte>) {
    if us == [] then within.None?
    else if within.Some? then ArgumentOk(us[1..], if us[0] == Plain(within.value) then None else within)
    else us[0] != Plain(CLOSE_PAREN) && ArgumentOk(us[1..], if us[0].Plain? && IsQuote(us[0].b) then Some(us[0].b) else None)
  }

  /** No unit is the bare quote. */
  predicate Without(us: seq<Unit>, quote: Byte) {
    us == [] || (us[0] != Plain(quote) && Without(us[1..], quote))
  }

  predicate TokenOk(t: Token) {
    match t
    case Loose(u) => Readable(u)
    case Str(quote, body) => IsQuote(quote) && AllReadable(body) && Without(body, quote)
    case Link(_, body) => ArgumentOk(body, None)
  }

  predicate TokenAt(raw: Text, at: nat, t: Token) {
    at < |raw| && TokenOk(t) &&
    match t
    case Loose(u) => UnitAt(raw, at, u)
    case Str(quote, body) =>
      raw[at] == quote && SpelledAt(raw, at + 1, body) && ByteAt(raw, EndOf(at + 1, body), quote)
    case Link(head, body) => HeadAt(raw, at, head) && ArgumentAt(raw, EndOf(at, head) + 1, body)
  }

  /** A spelling of `url` and the opening parenthesis. */
  predicate HeadAt(raw: Text, at: nat, head: seq<Unit>) {
    AllReadable(head) && Sounds(head) == URL && SpelledAt(raw, at, head) && ByteAt(raw, EndOf(at, head), OPEN_PAREN)
  }

  predicate ArgumentAt(raw: Text, at: nat, body: seq<Unit>) {
    AllReadable(body) && SpelledAt(raw, at, body) && ByteAt(raw, EndOf(at, body), CLOSE_PAREN)
  }

  function PastToken(at: nat, t: Token): (past: nat) {
    match t
    case Loose(u) => at + Size(u)
    case Str(_, body) => EndOf(at + 1, body) + 1
    case Link(head, body) => EndOf(EndOf(at, head) + 1, body) + 1
  }

  /** The text is these tokens, one after another. */
  predicate CutAs(raw: Text, at: nat, ts: seq<Token>)
    decreases |ts|
  {
    if ts == [] then at == |raw| else TokenAt(raw, at, ts[0]) && CutAs(raw, PastToken(at, ts[0]), ts[1..])
  }

  /** Neither a string nor a url that closes starts here. */
  ghost predicate NothingCloses(raw: Text, at: nat) {
    forall t :: TokenAt(raw, at, t) ==> t.Loose?
  }

  /** The gate's own cut: every string and every spelling of `url(` that closes. */
  ghost predicate Written(raw: Text, at: nat, ts: seq<Token>)
    decreases |ts|
  {
    if ts == [] then at == |raw|
    else
      && TokenAt(raw, at, ts[0]) && (ts[0].Loose? ==> NothingCloses(raw, at))
      && Written(raw, PastToken(at, ts[0]), ts[1..])
  }

  lemma {:induction false} WrittenIsCut(raw: Text, at: nat, ts: seq<Token>)
    requires Written(raw, at, ts)
    ensures CutAs(raw, at, ts)
    decreases |ts|
  {
    if ts != [] { WrittenIsCut(raw, PastToken(at, ts[0]), ts[1..]); }
  }

  lemma TokenHere(raw: Text, at: nat) returns (t: Token)
    requires at < |raw|
    ensures TokenAt(raw, at, t) && (t.Loose? ==> NothingCloses(raw, at))
    ensures at < PastToken(at, t) <= |raw|
  {
    if !NothingCloses(raw, at) {
      t :| TokenAt(raw, at, t) && !t.Loose?;
    } else if raw[at] == BACKSLASH {
      var u := UnitHere(raw, at);
      t := Loose(u);
    } else {
      t := Loose(Plain(raw[at]));
    }
  }

  /** Every text is written in such tokens. */
  lemma {:induction false} CutUp(raw: Text, at: nat) returns (ts: seq<Token>)
    requires at <= |raw|
    ensures Written(raw, at, ts)
    decreases |raw| - at
  {
    if at == |raw| {
      ts := [];
    } else {
      var t := TokenHere(raw, at);
      var rest := CutUp(raw, PastToken(at, t));
      ts := [t] + rest;
      assert ts[1..] == rest;
    }
  }

  // -------------------------------------------------------------- what it normalizes to

  /** A token with its escapes decoded. */
  function Heard(t: Token): (d: Decoded)
    ensures TokenOk(t) ==> DecodedOk(d)
  {
    match t
    case Loose(u) => Bytes(Sound(u))
    case Str(quote, body) => Chars(quote, Sounds(body))
    case Link(_, body) => Argument(Sounds(body))
  }

  function HeardAll(ts: seq<Token>): seq<Decoded> {
    if ts == [] then [] else [Heard(ts[0])] + HeardAll(ts[1..])
  }

  lemma HeardFirst(ts: seq<Token>)
    requires ts != []
    ensures HeardAll(ts)[0] == Heard(ts[0]) && HeardAll(ts)[1..] == HeardAll(ts[1..])
    ensures NormAll(HeardAll(ts)) == Norm(Heard(ts[0])) + NormAll(HeardAll(ts[1..]))
  {
  }

  /** A reader that takes a unit for its sound. */
  predicate Takes(r: (nat, Text) -> Text, s: Text, at: nat, u: Unit, out: Text) {
    Readable(u) && UnitAt(s, at, u) ==> r(at, out) == r(at + Size(u), out + Sound(u))
  }

  ghost predicate Reader(r: (nat, Text) -> Text, s: Text) {
    && (forall at: nat, u, out {:trigger Takes(r, s, at, u, out)} :: Takes(r, s, at, u, out))
    && forall out {:trigger Stops(r, s, out)} :: Stops(r, s, out)
  }

  predicate Stops(r: (nat, Text) -> Text, s: Text, out: Text) { r(|s|, out) == out }

  /** The reader takes the units one after another. */
  predicate TakesAll(r: (nat, Text) -> Text, at: nat, us: seq<Unit>, out: Text)
    decreases |us|
  {
    us == [] ||
    (r(at, out) == r(at + Size(us[0]), out + Sound(us[0])) && TakesAll(r, at + Size(us[0]), us[1..], out + Sound(us[0])))
  }

  lemma TakesUnit(r: (nat, Text) -> Text, s: Text, at: nat, u: Unit, out: Text)
    requires Reader(r, s) && Readable(u) && UnitAt(s, at, u)
    ensures r(at, out) == r(at + Size(u), out + Sound(u))
  {
    assert Takes(r, s, at, u, out);
  }

  lemma {:induction false} SpelledIsTaken(r: (nat, Text) -> Text, s: Text, at: nat, us: seq<Unit>, out: Text)
    requires Reader(r, s) && AllReadable(us) && SpelledAt(s, at, us)
    ensures TakesAll(r, at, us, out)
    decreases |us|
  {
    if us != [] {
      TakesUnit(r, s, at, us[0], out);
      SpelledIsTaken(r, s, at + Size(us[0]), us[1..], out + Sound(us[0]));
    }
  }

  lemma SoundsAfter(out: Text, us: seq<Unit>)
    requires us != []
    ensures (out + Sound(us[0])) + Sounds(us[1..]) == out + Sounds(us)
  {
    Joins(out, Sound(us[0]), Sounds(us[1..]));
  }

  lemma {:induction false} TakenGoes(r: (nat, Text) -> Text, at: nat, us: seq<Unit>, out: Text)
    requires TakesAll(r, at, us, out)
    ensures r(at, out) == r(EndOf(at, us), out + Sounds(us))
    decreases |us|
  {
    if us == [] {
      assert out + [] == out;
    } else {
      TakenGoes(r, at + Size(us[0]), us[1..], out + Sound(us[0]));
      SoundsAfter(out, us);
    }
  }

  lemma SpelledGoes(r: (nat, Text) -> Text, s: Text, at: nat, us: seq<Unit>, out: Text)
    requires Reader(r, s) && AllReadable(us) && SpelledAt(s, at, us)
    ensures r(at, out) == r(EndOf(at, us), out + Sounds(us))
  {
    SpelledIsTaken(r, s, at, us, out);
    TakenGoes(r, at, us, out);
  }

  lemma ByteGoes(r: (nat, Text) -> Text, s: Text, at: nat, b: Byte, out: Text)
    requires Reader(r, s) && ByteAt(s, at, b) && b != BACKSLASH && Lower(b) == b
    ensures r(at, out) == r(at + 1, out + [b])
  {
    assert Takes(r, s, at, Plain(b), out);
    assert Fold([b]) == [b];
  }

  lemma StrText(out: Text, quote: Byte, d: Text)
    ensures ((out + [quote]) + d) + [quote] == out + Norm(Chars(quote, d))
  {
  }

  lemma LinkText(out: Text, d: Text)
    ensures (((out + URL) + [OPEN_PAREN]) + d) + [CLOSE_PAREN] == out + Norm(Argument(d))
  {
  }

  lemma HeadGoes(r: (nat, Text) -> Text, s: Text, at: nat, head: seq<Unit>, out: Text)
    requires Reader(r, s) && HeadAt(s, at, head)
    ensures r(at, out) == r(EndOf(at, head) + 1, (out + URL) + [OPEN_PAREN])
  {
    SpelledGoes(r, s, at, head, out);
    ByteGoes(r, s, EndOf(at, head), OPEN_PAREN, out + URL);
  }

  lemma ArgumentGoes(r: (nat, Text) -> Text, s: Text, at: nat, body: seq<Unit>, out: Text)
    requires Reader(r, s) && ArgumentAt(s, at, body)
    ensures r(at, out) == r(EndOf(at, body) + 1, (out + Sounds(body)) + [CLOSE_PAREN])
  {
    BodyGoes(r, s, at, body, CLOSE_PAREN, out);
  }

  lemma BodyGoes(r: (nat, Text) -> Text, s: Text, at: nat, body: seq<Unit>, close: Byte, out: Text)
    requires Reader(r, s) && AllReadable(body) && SpelledAt(s, at, body)
    requires ByteAt(s, EndOf(at, body), close) && close != BACKSLASH && Lower(close) == close
    ensures r(at, out) == r(EndOf(at, body) + 1, (out + Sounds(body)) + [close])
  {
    SpelledGoes(r, s, at, body, out);
    ByteGoes(r, s, EndOf(at, body), close, out + Sounds(body));
  }

  lemma StrGoes(r: (nat, Text) -> Text, s: Text, at: nat, quote: Byte, body: seq<Unit>, out: Text)
    requires Reader(r, s) && TokenAt(s, at, Str(quote, body))
    ensures Moves(r, at, out, EndOf(at + 1, body) + 1, Chars(quote, Sounds(body)))
  {
    ByteGoes(r, s, at, quote, out);
    BodyGoes(r, s, at + 1, body, quote, out + [quote]);
    StrText(out, quote, Sounds(body));
  }

  lemma LinkTaken(r: (nat, Text) -> Text, s: Text, at: nat, head: seq<Unit>, open: nat, body: seq<Unit>, out: Text)
    requires Reader(r, s) && HeadAt(s, at, head) && open == EndOf(at, head) + 1 && ArgumentAt(s, open, body)
    ensures r(at, out) == r(EndOf(open, body) + 1, (((out + URL) + [OPEN_PAREN]) + Sounds(body)) + [CLOSE_PAREN])
  {
    HeadGoes(r, s, at, head, out);
    ArgumentGoes(r, s, open, body, (out + URL) + [OPEN_PAREN]);
  }

  lemma LinkGoes(r: (nat, Text) -> Text, s: Text, at: nat, head: seq<Unit>, open: nat, body: seq<Unit>, past: nat,
                 d: Text, out: Text)
    requires Reader(r, s) && HeadAt(s, at, head) && open == EndOf(at, head) + 1 && ArgumentAt(s, open, body)
    requires past == EndOf(open, body) + 1 && d == Sounds(body)
    ensures Moves(r, at, out, past, Argument(d))
  {
    LinkTaken(r, s, at, head, open, body, out);
    LinkText(out, d);
  }

  /** Past the token, with how it sounds. */
  predicate Moves(r: (nat, Text) -> Text, at: nat, out: Text, past: nat, d: Decoded) {
    r(at, out) == r(past, out + Norm(d))
  }

  lemma LooseGoes(r: (nat, Text) -> Text, s: Text, at: nat, u: Unit, out: Text)
    requires Reader(r, s) && Readable(u) && UnitAt(s, at, u)
    ensures Moves(r, at, out, at + Size(u), Bytes(Sound(u)))
  {
    TakesUnit(r, s, at, u, out);
  }

  lemma LooseTokenGoes(r: (nat, Text) -> Text, s: Text, at: nat, t: Token, out: Text)
    requires Reader(r, s) && TokenAt(s, at, t) && t.Loose?
    ensures Moves(r, at, out, PastToken(at, t), Heard(t))
  {
    LooseGoes(r, s, at, t.u, out);
  }

  lemma StrTokenGoes(r: (nat, Text) -> Text, s: Text, at: nat, t: Token, out: Text)
    requires Reader(r, s) && TokenAt(s, at, t) && t.Str?
    ensures Moves(r, at, out, PastToken(at, t), Heard(t))
  {
    StrGoes(r, s, at, t.quote, t.body, out);
  }

  lemma LinkTokenGoes(r: (nat, Text) -> Text, s: Text, at: nat, t: Token, past: nat, d: Text, out: Text)
    requires Reader(r, s) && TokenAt(s, at, t) && t.Link? && past == PastToken(at, t) && d == Sounds(t.body)
    ensures Moves(r, at, out, past, Argument(d))
  {
    LinkGoes(r, s, at, t.head, EndOf(at, t.head) + 1, t.body, past, d, out);
  }

  lemma TokenGoes(r: (nat, Text) -> Text, s: Text, at: nat, t: Token, out: Text)
    requires Reader(r, s) && TokenAt(s, at, t)
    ensures Moves(r, at, out, PastToken(at, t), Heard(t))
  {
    match t
    case Loose(_) => LooseTokenGoes(r, s, at, t, out);
    case Str(_, _) => StrTokenGoes(r, s, at, t, out);
    case Link(_, body) => LinkTokenGoes(r, s, at, t, PastToken(at, t), Sounds(body), out);
  }

  lemma {:induction false} TokensGo(r: (nat, Text) -> Text, s: Text, at: nat, ts: seq<Token>, out: Text)
    requires Reader(r, s) && CutAs(s, at, ts)
    ensures r(at, out) == out + NormAll(HeardAll(ts))
    decreases |ts|
  {
    if ts == [] {
      assert out + [] == out && Stops(r, s, out);
    } else {
      TokenGoes(r, s, at, ts[0], out);
      TokensGo(r, s, PastToken(at, ts[0]), ts[1..], out + Norm(Heard(ts[0])));
      HeardFirst(ts);
      Joins(out, Norm(Heard(ts[0])), NormAll(HeardAll(ts[1..])));
    }
  }

  lemma UnitGoes(s: Text, at: nat, u: Unit, out: Text)
    requires Readable(u) && UnitAt(s, at, u)
    ensures ResolveFrom(s, at, out) == ResolveFrom(s, at + Size(u), out + Sound(u))
  {
    if u.Plain? { assert Fold([s[at]]) == [Lower(s[at])]; } else { EscapeGoes(s, at, u, out); }
  }

  lemma EscapeGoes(s: Text, at: nat, u: Unit, out: Text)
    requires Readable(u) && UnitAt(s, at, u) && !u.Plain?
    ensures ResolveFrom(s, at, out) == ResolveFrom(s, at + Size(u), out + Sound(u))
  {
    EscapeReads(s, at, u);
  }

  lemma ResolveTakes(r: (nat, Text) -> Text, s: Text, at: nat, u: Unit, out: Text)
    requires forall i: nat, t {:trigger r(i, t)} :: r(i, t) == ResolveFrom(s, i, t)
    ensures Takes(r, s, at, u, out)
  {
    if Readable(u) && UnitAt(s, at, u) { UnitGoes(s, at, u, out); }
  }

  /** However a text is cut, it normalizes token by token. */
  lemma NormalizesTo(raw: Text, ts: seq<Token>)
    requires CutAs(raw, 0, ts)
    ensures ResolveFrom(raw, 0, []) == NormAll(HeardAll(ts))
  {
    var r := (at: nat, out: Text) => ResolveFrom(raw, at, out);
    forall at: nat, u, out ensures Takes(r, raw, at, u, out) {
      ResolveTakes(r, raw, at, u, out);
    }
    forall out ensures Stops(r, raw, out) {
    }
    assert Reader(r, raw);
    TokensGo(r, raw, 0, ts, []);
    assert [] + NormAll(HeardAll(ts)) == NormAll(HeardAll(ts));
    assert r(0, []) == ResolveFrom(raw, 0, []);
  }

  // -------------------------------------------------------------------------- the promise

  lemma {:induction false} CutIsOk(raw: Text, at: nat, ts: seq<Token>)
    requires CutAs(raw, at, ts)
    ensures AllOk(HeardAll(ts))
    decreases |ts|
  {
    if ts != [] {
      HeardFirst(ts);
      CutIsOk(raw, PastToken(at, ts[0]), ts[1..]);
    }
  }

  /** Masking a normalized text hides exactly what a reader of the text finds inside strings
      and urls, however that reader cuts it, exactly when every token is calm: each string, decoded, still ends at its own quote
      (or, at the end of the text, swallows it), no decoded url argument holds a closing
      parenthesis, and nothing outside them is decoded into an opening the scan follows. */
  lemma MaskIsFaithfulExactly(raw: Text, ts: seq<Token>)
    requires CutAs(raw, 0, ts)
    ensures ResolveFrom(raw, 0, []) == NormAll(HeardAll(ts)) && Follows(NormAll(HeardAll(ts)), 0, HeardAll(ts))
    ensures Kept(NormAll(HeardAll(ts)), 0, HeardAll(ts)) <==> Calm(NormAll(HeardAll(ts)), 0, HeardAll(ts))
  {
    var ds := HeardAll(ts);
    NormalizesTo(raw, ts);
    CutIsOk(raw, 0, ts);
    assert [] + NormAll(ds) == NormAll(ds);
    NormFollows(NormAll(ds), [], ds);
    KeptExactly(NormAll(ds), 0, ds);
  }

  lemma LinkStarts(raw: Text, at: nat, t: Token)
    requires TokenAt(raw, at, t) && t.Link?
    ensures raw[at] == 0x75 || raw[at] == 0x55 || raw[at] == BACKSLASH
  {
    var u := t.head[0];
    assert Sounds(t.head) == Sound(u) + Sounds(t.head[1..]);
    assert Sound(u)[0] == URL[0];
    if u.Plain? { assert Sound(u) == [Lower(u.b)]; }
  }

  lemma LooseByte(raw: Text, at: nat, b: Byte)
    requires ByteAt(raw, at, b) && !IsQuote(b) && b != BACKSLASH && b != 0x75 && b != 0x55
    ensures TokenAt(raw, at, Loose(Plain(b))) && NothingCloses(raw, at)
  {
    forall t | TokenAt(raw, at, t) ensures t.Loose? {
      if t.Link? { LinkStarts(raw, at, t); }
    }
  }

  /** A string of one escaped backslash, `#f`, and a string of one letter. */
  const HIDING: Text := [QUOTE, BACKSLASH, BACKSLASH, QUOTE, 0x23, 0x66, QUOTE, 0x78, QUOTE]
  const HIDING_TOKENS: seq<Token> :=
    [Str(QUOTE, [Escaped(BACKSLASH)]), Loose(Plain(0x23)), Loose(Plain(0x66)), Str(QUOTE, [Plain(0x78)])]

  /** A string of one unit. */
  lemma ShortStr(raw: Text, at: nat, quote: Byte, u: Unit)
    requires ByteAt(raw, at, quote) && IsQuote(quote) && Readable(u) && u != Plain(quote)
    requires UnitAt(raw, at + 1, u) && ByteAt(raw, at + 1 + Size(u), quote)
    ensures TokenAt(raw, at, Str(quote, [u])) && PastToken(at, Str(quote, [u])) == at + 2 + Size(u)
  {
    var body, end := [u], at + 1 + Size(u);
    assert body[1..] == [];
    assert SpelledAt(raw, end, []) && EndOf(end, []) == end;
    assert SpelledAt(raw, at + 1, body) && EndOf(at + 1, body) == end;
  }

  lemma HidingIsWritten()
    ensures Written(HIDING, 0, HIDING_TOKENS)
  {
    var raw := HIDING;
    ShortStr(raw, 0, QUOTE, Escaped(BACKSLASH));
    ShortStr(raw, 6, QUOTE, Plain(0x78));
    LooseByte(raw, 4, 0x23);
    LooseByte(raw, 5, 0x66);
    var four := HIDING_TOKENS;
    var three, two, one := four[1..], four[2..], four[3..];
    assert three[1..] == two && two[1..] == one && one[1..] == [];
    assert Written(raw, 9, []) && Written(raw, 6, one) && Written(raw, 5, two) && Written(raw, 4, three);
  }

  lemma HidingNormalizes()
    ensures NormAll(HeardAll(HIDING_TOKENS)) == [QUOTE, BACKSLASH, QUOTE, 0x23, 0x66, QUOTE, 0x78, QUOTE]
    ensures HeardAll(HIDING_TOKENS) == [Chars(QUOTE, [BACKSLASH]), Bytes([0x23]), Bytes([0x66]), Chars(QUOTE, [0x78])]
  {
    var four := HIDING_TOKENS;
    var three, two, one := four[1..], four[2..], four[3..];
    assert three[1..] == two && two[1..] == one && one[1..] == [];
    assert Sound(Escaped(BACKSLASH)) == [BACKSLASH] && Sound(Plain(0x78)) == [0x78];
    var a, b := [Escaped(BACKSLASH)], [Plain(0x78)];
    assert Sounds(a) == Sound(a[0]) + Sounds(a[1..]) == [BACKSLASH] && Sounds(b) == Sound(b[0]) + Sounds(b[1..]) == [0x78];
    assert Sound(Plain(0x23)) == [0x23] && Sound(Plain(0x66)) == [0x66];
    assert HeardAll(one) == [Chars(QUOTE, [0x78])];
    assert HeardAll(two) == [Bytes([0x66])] + HeardAll(one);
    assert HeardAll(three) == [Bytes([0x23])] + HeardAll(two);
    assert HeardAll(four) == [Chars(QUOTE, [BACKSLASH])] + HeardAll(three);
    assert HeardAll(four) == [Chars(QUOTE, [BACKSLASH]), Bytes([0x23]), Bytes([0x66]), Chars(QUOTE, [0x78])];
    HidingText();
  }

  lemma HidingText()
    ensures NormAll([Chars(QUOTE, [BACKSLASH]), Bytes([0x23]), Bytes([0x66]), Chars(QUOTE, [0x78])])
              == [QUOTE, BACKSLASH, QUOTE, 0x23, 0x66, QUOTE, 0x78, QUOTE]
  {
    var four := [Chars(QUOTE, [BACKSLASH]), Bytes([0x23]), Bytes([0x66]), Chars(QUOTE, [0x78])];
    var three, two, one := four[1..], four[2..], four[3..];
    assert three[1..] == two && two[1..] == one && one[1..] == [];
    assert NormAll(one) == [QUOTE, 0x78, QUOTE];
    assert NormAll(two) == [0x66] + NormAll(one);
    assert NormAll(three) == [0x23] + NormAll(two);
  }

  /** The promise fails there: the decoded backslash swallows the first string's quote, the
      scan runs on to the second string's, and `#f` is hidden outside every string. */
  lemma MaskMayHideOutside()
    ensures Written(HIDING, 0, HIDING_TOKENS)
    ensures var s := ResolveFrom(HIDING, 0, []);
            s == [QUOTE, BACKSLASH, QUOTE, 0x23, 0x66, QUOTE, 0x78, QUOTE] && Covered(s, 0, 3) && Covered(s, 0, 4)
    ensures !InTokens(0, HeardAll(HIDING_TOKENS), 3) && !InTokens(0, HeardAll(HIDING_TOKENS), 4)
  {
    HidingIsWritten();
    WrittenIsCut(HIDING, 0, HIDING_TOKENS);
    HidingNormalizes();
    MaskIsFaithfulExactly(HIDING, HIDING_TOKENS);
    var s := [QUOTE, BACKSLASH, QUOTE, 0x23, 0x66, QUOTE, 0x78, QUOTE];
    assert StringTail(s, 1, QUOTE) == StringTail(s, 3, QUOTE) == StringTail(s, 4, QUOTE) == StringTail(s, 5, QUOTE) == 6;
    assert StepAt(s, 0) == Mask(1, 6, 6);
    NotAmong(3);
    NotAmong(4);
  }

  lemma NotAmong(i: int)
    requires 3 <= i <= 4
    ensures !InTokens(0, [Chars(QUOTE, [BACKSLASH]), Bytes([0x23]), Bytes([0x66]), Chars(QUOTE, [0x78])], i)
  {
    var four := [Chars(QUOTE, [BACKSLASH]), Bytes([0x23]), Bytes([0x66]), Chars(QUOTE, [0x78])];
    var three, two, one := four[1..], four[2..], four[3..];
    assert three[1..] == two && two[1..] == one && one[1..] == [];
    assert !InTokens(5, one, i) && !InTokens(4, two, i) && !InTokens(3, three, i);
  }
}
