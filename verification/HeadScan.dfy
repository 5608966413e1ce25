/** Whether a rule's head carries a byte outside strings and brackets, as the scan of
    `ui/client_sheet.go` asks, and when that is what a browser sees.  The scan steps over
    strings and brackets; it has no case for an escape. */
module HeadScan {
  import opened CssNames
  import opened CssSpellings
  import opened CssStandard
  import opened CssSelectors
  import opened CssClasses
  import opened CssAttributes

  const SEMICOLON: Byte := 0x3B

  /** A string or a bracket starts with the byte. */
  predicate Opens(c: Byte) { c == OPEN || IsQuote(c) }

  function PastOpening(s: Text, at: nat): (past: nat)
    requires at < |s| && Opens(s[at])
    ensures past > at
  {
    if s[at] == OPEN then BracketEnd(s, at) else StringEnd(s, at)
  }

  /** The scan from the offset comes to the byte. */
  predicate ComesTo(s: Text, at: nat, c: Byte)
    decreases |s| - at
  {
    at < |s| && (s[at] == c || ComesTo(s, if Opens(s[at]) then PastOpening(s, at) else at + 1, c))
  }

  method Unbraced(text: Text, c: Byte) returns (found: bool)
    ensures found == ComesTo(text, 0, c)
  {
    var at := 0;
    while at < |text|
      invariant ComesTo(text, at, c) == ComesTo(text, 0, c)
      decreases |text| - at
    {
      if text[at] == c {
        return true;
      } else if text[at] == OPEN {
        at := EndOfBracket(text, at);
      } else if IsQuote(text[at]) {
        at := SkipQuoted(text, at);
      } else {
        at := at + 1;
      }
    }
    return false;
  }

  /** The offsets at which the scan steps over a string or a bracket. */
  function SteppedOver(s: Text, at: nat): (offsets: seq<nat>)
    ensures forall i :: 0 <= i < |offsets| ==> offsets[i] >= at
    decreases |s| - at
  {
    if at >= |s| then []
    else if Opens(s[at]) then [at] + SteppedOver(s, PastOpening(s, at))
    else SteppedOver(s, at + 1)
  }

  // -------------------------------------------------------- what a browser steps over

  predicate IsSpan(p: Piece) { p.Bracketed? || p.Str? }

  /** The offsets of the strings and brackets of a layout, one nothing closes among them. */
  ghost function Spans(s: Text, at: nat, ps: seq<Piece>): seq<nat>
    requires StandardLaid(s, at, ps)
    decreases |ps|
  {
    if ps == [] then if at < |s| then [at] else []
    else (if IsSpan(ps[0]) then [at] else []) + Spans(s, PastPiece(at, ps[0]), ps[1..])
  }

  /** No piece outside strings and brackets escapes a quote or a `[`. */
  ghost predicate NoOpeningEscaped(ps: seq<Piece>) {
    forall i :: 0 <= i < |ps| ==> !EscapesOpening(ps[i])
  }

  predicate EscapesOpening(p: Piece) {
    EscapesByte(p, OPEN) || EscapesByte(p, QUOTE) || EscapesByte(p, APOSTROPHE)
  }

  predicate NoneOpens(s: Text, from: nat, to: nat) {
    forall i :: from <= i < to && i < |s| ==> !Opens(s[i])
  }

  lemma OpeningsStand(s: Text, at: nat, p: Piece)
    requires StandardPieceAt(s, at, p) && !IsSpan(p)
    ensures NoneOpens(s, at, PastPiece(at, p)) <==> !EscapesOpening(p)
  {
    WhereByteStands(s, at, p, OPEN);
    WhereByteStands(s, at, p, QUOTE);
    WhereByteStands(s, at, p, APOSTROPHE);
    ByThree(s, at, PastPiece(at, p));
  }

  lemma ByThree(s: Text, from: nat, to: nat)
    ensures NoneOpens(s, from, to) <==> NoByte(s, from, to, OPEN) && NoByte(s, from, to, QUOTE) && NoByte(s, from, to, APOSTROPHE)
  {
  }

  lemma {:induction false} StepsOn(s: Text, from: nat, to: nat)
    requires from <= to && NoneOpens(s, from, to)
    ensures SteppedOver(s, from) == SteppedOver(s, to)
    decreases (to - from)
  {
    if from < to { StepsOn(s, from + 1, to); }
  }

  lemma {:induction false} StepsInto(s: Text, from: nat, to: nat)
    requires from <= to && !NoneOpens(s, from, to)
    ensures SteppedOver(s, from) != [] && SteppedOver(s, from)[0] < to
    decreases (to - from)
  {
    if !Opens(s[from]) { StepsInto(s, from + 1, to); }
  }

  lemma {:induction false} SpansStand(s: Text, at: nat, ps: seq<Piece>)
    requires StandardLaid(s, at, ps)
    ensures forall i :: 0 <= i < |Spans(s, at, ps)| ==> Spans(s, at, ps)[i] >= at
    decreases |ps|
  {
    if ps != [] { SpansStand(s, PastPiece(at, ps[0]), ps[1..]); }
  }

  /** Past a span of the layout the scan is where a browser is. */
  lemma SpanPassed(s: Text, at: nat, p: Piece)
    requires StandardPieceAt(s, at, p) && IsSpan(p)
    ensures Opens(s[at]) && PastOpening(s, at) == PastPiece(at, p)
  {
    match p
    case Bracketed(items) =>
      assert BracketEnd(s, at) == BracketEnd(s, at + 1);
      ItemsSkip(s, at + 1, items);
    case Str(chunks) => StringSkips(s, at, chunks);
  }

  /** What nothing closes the scan steps over to the end. */
  lemma TailPassed(s: Text, at: nat)
    requires OpenString(s, at) || OpenBracket(s, at)
    ensures Opens(s[at]) && PastOpening(s, at) >= |s|
  {
    if s[at] == OPEN {
      NeverClosesRuns(s, at + 1);
      assert BracketEnd(s, at) == BracketEnd(s, at + 1);
    } else {
      OpenStringRuns(s, at);
    }
  }

  lemma FirstAndRest(ps: seq<Piece>)
    requires ps != []
    ensures NoOpeningEscaped(ps) <==> !EscapesOpening(ps[0]) && NoOpeningEscaped(ps[1..])
  {
    assert ps == [ps[0]] + ps[1..];
    if !EscapesOpening(ps[0]) && NoOpeningEscaped(ps[1..]) {
      forall i | 0 <= i < |ps| ensures !EscapesOpening(ps[i]) { assert i > 0 ==> ps[i] == ps[1..][i - 1]; }
    }
    if NoOpeningEscaped(ps) {
      forall i | 0 <= i < |ps| - 1 ensures !EscapesOpening(ps[1..][i]) { assert ps[1..][i] == ps[i + 1]; }
    }
  }

  /** The scan steps over the strings and brackets of a browser, and over nothing else,
      exactly when nothing outside them escapes a quote or a `[`. */
  lemma {:induction false} SpansAgreeExactly(s: Text, at: nat, ps: seq<Piece>)
    requires StandardLaid(s, at, ps)
    ensures SteppedOver(s, at) == Spans(s, at, ps) <==> NoOpeningEscaped(ps)
    decreases |ps|
  {
    if ps == [] {
      if at < |s| { TailPassed(s, at); }
    } else {
      var past, rest := PastPiece(at, ps[0]), ps[1..];
      SpansAgreeExactly(s, past, rest);
      FirstAndRest(ps);
      if IsSpan(ps[0]) {
        SpanPassed(s, at, ps[0]);
        OneHead(at, SteppedOver(s, past), Spans(s, past, rest));
      } else {
        OpeningsStand(s, at, ps[0]);
        if NoneOpens(s, at, past) {
          StepsOn(s, at, past);
        } else {
          StepsInto(s, at, past);
          SpansStand(s, past, rest);
        }
      }
    }
  }

  // ------------------------------------------------------------------ what it answers

  /** The byte stands outside strings and brackets, by itself or escaped. */
  predicate StandsOutside(ps: seq<Piece>, c: Byte) {
    exists i :: 0 <= i < |ps| && Shows(ps[i], c)
  }

  predicate Shows(p: Piece, c: Byte) { p == Other(c) || EscapesByte(p, c) }

  lemma {:induction false} ComesOn(s: Text, from: nat, to: nat, c: Byte)
    requires from <= to && NoneOpens(s, from, to)
    ensures ComesTo(s, from, c) <==> !NoByte(s, from, to, c) || ComesTo(s, to, c)
    decreases (to - from)
  {
    if from < to {
      ComesOn(s, from + 1, to, c);
      ByteSplits(s, from, from + 1, to, c);
    }
  }

  lemma ShowsFirstOrLater(ps: seq<Piece>, c: Byte)
    requires ps != []
    ensures StandsOutside(ps, c) <==> Shows(ps[0], c) || StandsOutside(ps[1..], c)
  {
    if StandsOutside(ps, c) {
      var i :| 0 <= i < |ps| && Shows(ps[i], c);
      assert i > 0 ==> ps[1..][i - 1] == ps[i];
    }
    if StandsOutside(ps[1..], c) {
      var i :| 0 <= i < |ps[1..]| && Shows(ps[1..][i], c);
      assert ps[i + 1] == ps[1..][i];
    }
  }

  /** Then the scan finds the byte exactly when it stands outside strings and brackets: every
      one a browser acts on, and besides those only escaped ones. */
  lemma {:induction false} FindsWhatStandsOutside(s: Text, at: nat, ps: seq<Piece>, c: Byte)
    requires StandardLaid(s, at, ps) && NoOpeningEscaped(ps) && IsSyntax(c) && !Opens(c) && c != DOT
    ensures ComesTo(s, at, c) <==> StandsOutside(ps, c)
    decreases |ps|
  {
    if ps == [] {
      if at < |s| { TailPassed(s, at); }
    } else {
      var past, rest := PastPiece(at, ps[0]), ps[1..];
      FirstAndRest(ps);
      ShowsFirstOrLater(ps, c);
      FindsWhatStandsOutside(s, past, rest, c);
      if IsSpan(ps[0]) {
        SpanPassed(s, at, ps[0]);
      } else {
        OpeningsStand(s, at, ps[0]);
        WhereByteStands(s, at, ps[0], c);
        ComesOn(s, at, past, c);
      }
    }
  }

  /** `.a\";` ends its rule for a browser, and the scan finds no `;`: it takes the escaped
      quote for a string that nothing closes. */
  lemma EscapedQuoteHides()
    ensures var s := [DOT, 0x61, BACKSLASH, QUOTE, SEMICOLON];
            var ps := [Class([Plain(0x61), Escaped(QUOTE)]), Other(SEMICOLON)];
            StandardLaid(s, 0, ps) && StandsOutside(ps, SEMICOLON) && !ComesTo(s, 0, SEMICOLON)
  {
    var s := [DOT, 0x61, BACKSLASH, QUOTE, SEMICOLON];
    var us := [Plain(0x61), Escaped(QUOTE)];
    var ps := [Class(us), Other(SEMICOLON)];
    var one := us[1..];
    assert one[1..] == [] && ps[1..] == [Other(SEMICOLON)] && ps[1..][1..] == [];
    assert StandardSpelled(s, 4, []) && EndOf(4, []) == 4;
    assert StandardAt(s, 2, one[0]) && StandardSpelled(s, 2, one) && EndOf(2, one) == 4;
    assert StandardAt(s, 1, us[0]) && StandardSpelled(s, 1, us) && EndOf(1, us) == 4;
    assert StandardPieceAt(s, 0, ps[0]) && StandardPieceAt(s, 4, ps[1]);
    assert StandardLaid(s, 5, []) && StandardLaid(s, 4, ps[1..]);
    assert Shows(ps[1], SEMICOLON);
    assert StringTail(s, 4, QUOTE) == StringTail(s, 5, QUOTE) == 5;
    assert !ComesTo(s, 5, SEMICOLON) && !ComesTo(s, 3, SEMICOLON) && !ComesTo(s, 2, SEMICOLON) && !ComesTo(s, 1, SEMICOLON);
  }
}
