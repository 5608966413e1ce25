/** The mask the colour check reads a client declaration through: closed strings and URL
    arguments become spaces.  A string left open by a lone backslash runs one byte past
    the text, and the mask then looks at a byte that is not there. */
module ClientSheet {
  import opened Options
  import opened CssNames
  import opened CssSelectors

  const SPACE: Byte := 0x20
  const CLOSE_PAREN: Byte := 0x29

  /** `url(` stands at the offset. */
  predicate IsUrl(s: Text, at: nat) {
    at + 4 <= |s| && s[at] == 0x75 && s[at + 1] == 0x72 && s[at + 2] == 0x6C && s[at + 3] == 0x28
  }

  /** The first closing parenthesis from the offset on. */
  function ParenFrom(s: Text, at: nat): (r: Option<nat>)
    requires at <= |s|
    ensures r.Some? ==> at <= r.value < |s| && s[r.value] == CLOSE_PAREN
    ensures forall i :: at <= i < (if r.Some? then r.value else |s|) ==> s[i] != CLOSE_PAREN
    decreases |s| - at
  {
    if at == |s| then None else if s[at] == CLOSE_PAREN then Some(at) else ParenFrom(s, at + 1)
  }

  method IndexParen(s: Text, at: nat) returns (r: Option<nat>)
    requires at <= |s|
    ensures r == ParenFrom(s, at)
  {
    var i := at;
    while i < |s|
      invariant at <= i <= |s| && ParenFrom(s, i) == ParenFrom(s, at)
    {
      if s[i] == CLOSE_PAREN {
        return Some(i);
      }
      i := i + 1;
    }
    return None;
  }

  /** What the scan does at an offset: masks a span and goes on after it, steps on, or
      reads past the end. */
  datatype Step = Mask(from: nat, to: nat, next: nat) | Next | Panic

  function StepAt(s: Text, at: nat): (r: Step)
    requires at < |s|
    ensures r.Mask? ==> at < r.from <= r.to <= r.next <= |s|
  {
    if IsQuote(s[at]) then
      var end := StringEnd(s, at);
      if end > |s| then Panic
      else if s[end - 1] == s[at] then Mask(at + 1, end, end)
      else Next
    else if IsUrl(s, at) then
      var close := ParenFrom(s, at + 4);
      if close.Some? then Mask(at + 4, close.value, close.value + 1) else Next
    else Next
  }

  /** The scan from the offset masks the byte. */
  predicate Covered(s: Text, at: nat, i: int)
    decreases |s| - at
  {
    at < |s| &&
    match StepAt(s, at)
    case Mask(from, to, next) => from <= i < to || Covered(s, next, i)
    case Next => Covered(s, at + 1, i)
    case Panic => false
  }

  /** The scan from the offset reads past the end. */
  predicate Panics(s: Text, at: nat)
    decreases |s| - at
  {
    at < |s| &&
    match StepAt(s, at)
    case Mask(_, _, next) => Panics(s, next)
    case Next => Panics(s, at + 1)
    case Panic => true
  }

  predicate Blanked(before: Text, from: nat, until: nat, after: Text) {
    |after| == |before| &&
    forall i :: 0 <= i < |after| ==> after[i] == if from <= i < until then SPACE else before[i]
  }

  method Blank(out: array<Byte>, from: nat, until: nat)
    requires from <= until <= out.Length
    modifies out
    ensures Blanked(old(out[..]), from, until, out[..])
  {
    var i := from;
    while i < until
      invariant from <= i <= until
      invariant forall j :: 0 <= j < out.Length ==> out[j] == if from <= j < i then SPACE else old(out[j])
    {
      out[i] := SPACE;
      i := i + 1;
    }
  }

  /** What the text still needs from the offset on turns what is shown so far into the
      whole mask. */
  predicate MaskedUpTo(s: Text, at: nat, shown: Text) {
    && at <= |s| == |shown|
    && Panics(s, at) == Panics(s, 0)
    && forall i :: 0 <= i < |s| ==>
      (if Covered(s, at, i) then SPACE else shown[i]) == (if Covered(s, 0, i) then SPACE else s[i])
  }

  /** What one turn of the scan does to what is shown. */
  predicate Turned(step: Step, at: nat, shown: Text, next: nat, after: Text) {
    match step
    case Mask(from, to, past) => next == past && Blanked(shown, from, to, after)
    case Next => next == at + 1 && after == shown
    case Panic => false
  }

  lemma TurnGoesOn(s: Text, at: nat, shown: Text, next: nat, after: Text)
    requires at < |s| && MaskedUpTo(s, at, shown) && Turned(StepAt(s, at), at, shown, next, after)
    ensures MaskedUpTo(s, next, after)
  {
    forall i | 0 <= i < |s|
      ensures (if Covered(s, next, i) then SPACE else after[i]) == if Covered(s, 0, i) then SPACE else s[i]
    {
      assert (if Covered(s, at, i) then SPACE else shown[i]) == (if Covered(s, 0, i) then SPACE else s[i]);
    }
  }

  /** The text with the covered bytes blanked; None is the read past the end. */
  method OutsideValues(text: Text) returns (masked: Option<Text>)
    ensures masked.None? <==> Panics(text, 0)
    ensures masked.Some? ==> |masked.value| == |text|
    ensures masked.Some? ==>
      forall i :: 0 <= i < |text| ==> masked.value[i] == if Covered(text, 0, i) then SPACE else text[i]
  {
    var out := new Byte[|text|](i requires 0 <= i < |text| => text[i]);
    var at := 0;
    while at < |text|
      invariant MaskedUpTo(text, at, out[..])
      decreases |text| - at
    {
      ghost var shown := out[..];
      var next := at + 1;
      if IsQuote(text[at]) {
        var end := SkipQuoted(text, at);
        if end > |text| {
          return None;
        }
        if text[end - 1] == text[at] {
          Blank(out, at + 1, end);
          next := end;
        }
      } else if IsUrl(text, at) {
        var close := IndexParen(text, at + 4);
        if close.Some? {
          Blank(out, at + 4, close.value);
          next := close.value + 1;
        }
      }
      assert Turned(StepAt(text, at), at, shown, next, out[..]);
      TurnGoesOn(text, at, shown, next, out[..]);
      at := next;
    }
    return Some(out[..]);
  }

  // --------------------------------------------------- when the read is out of range

  /** No quote that is not escaped closes the string entered at the offset. */
  predicate Open(s: Text, at: nat, quote: Byte)
    decreases |s| - at
  {
    at >= |s| || (if s[at] == BACKSLASH then Open(s, at + 2, quote) else s[at] != quote && Open(s, at + 1, quote))
  }

  /** The backslashes that end the text. */
  function Trailing(s: Text): (n: nat)
    ensures n <= |s|
    ensures forall i :: |s| - n <= i < |s| ==> s[i] == BACKSLASH
    ensures n < |s| ==> s[|s| - n - 1] != BACKSLASH
  {
    if s == [] || s[|s| - 1] != BACKSLASH then 0 else 1 + Trailing(s[..|s| - 1])
  }

  predicate LoneBackslash(s: Text) { Trailing(s) % 2 == 1 }

  /** Among the backslashes that end the text, the string scan steps by two. */
  lemma {:induction false} InTheTail(s: Text, at: nat, quote: Byte)
    requires |s| - Trailing(s) <= at <= |s|
    ensures Open(s, at, quote) && StringTail(s, at, quote) == |s| + (|s| - at) % 2
    decreases |s| - at
  {
    if at + 2 <= |s| { InTheTail(s, at + 2, quote); }
  }

  /** A string is open exactly when its scan ends at the end of the text or, after a lone
      backslash, one byte past it; otherwise the scan ends past a closing quote. */
  lemma {:induction false} StringRuns(s: Text, at: nat, quote: Byte)
    requires at <= |s| - Trailing(s) && quote != BACKSLASH
    ensures Open(s, at, quote) ==> StringTail(s, at, quote) == |s| + Trailing(s) % 2
    ensures !Open(s, at, quote) ==> at < StringTail(s, at, quote) <= |s| && s[StringTail(s, at, quote) - 1] == quote
    decreases |s| - at
  {
    if at == |s| - Trailing(s) {
      InTheTail(s, at, quote);
    } else if s[at] == BACKSLASH {
      StringRuns(s, at + 2, quote);
    } else if s[at] != quote {
      StringRuns(s, at + 1, quote);
    }
  }

  /** The scan from the offset comes to a quote that nothing closes. */
  predicate MeetsOpen(s: Text, at: nat)
    decreases |s| - at
  {
    at < |s| &&
    if IsQuote(s[at]) && Open(s, at + 1, s[at]) then true
    else match StepAt(s, at)
         case Mask(_, _, next) => MeetsOpen(s, next)
         case Next => MeetsOpen(s, at + 1)
         case Panic => false
  }

  lemma QuoteSteps(s: Text, at: nat)
    requires at < |s| && IsQuote(s[at])
    ensures StepAt(s, at) == Panic <==> Open(s, at + 1, s[at]) && LoneBackslash(s)
    ensures StepAt(s, at) == Next <==> Open(s, at + 1, s[at]) && !LoneBackslash(s) && s[|s| - 1] != s[at]
  {
    StringRuns(s, at + 1, s[at]);
  }

  /** The mask reads past the end exactly when the text ends in a lone backslash and the
      scan meets an open string. */
  lemma {:induction false} PanicsExactly(s: Text, at: nat)
    ensures Panics(s, at) <==> MeetsOpen(s, at) && LoneBackslash(s)
    decreases |s| - at
  {
    if at < |s| {
      if IsQuote(s[at]) { QuoteSteps(s, at); }
      match StepAt(s, at)
      case Mask(_, _, next) => PanicsExactly(s, next);
      case Next => PanicsExactly(s, at + 1);
      case Panic =>
    }
  }

  /** Not every normalized text is safe: a quote and an escaped backslash normalize to a
      quote and a lone backslash. */
  lemma NormalizedTextMayPanic()
    ensures ResolveFrom([QUOTE, BACKSLASH, BACKSLASH], 0, []) == [QUOTE, BACKSLASH]
    ensures Panics([QUOTE, BACKSLASH], 0)
  {
    var s := [QUOTE, BACKSLASH, BACKSLASH];
    assert [] + [Lower(QUOTE)] == [QUOTE];
    assert ResolveFrom(s, 0, []) == ResolveFrom(s, 1, [] + [Lower(QUOTE)]);
    assert EscapeAt(s, 1) == (Some([BACKSLASH]), 3);
    assert Fold([BACKSLASH]) == [BACKSLASH];
    assert ResolveFrom(s, 1, [QUOTE]) == ResolveFrom(s, 3, [QUOTE] + [BACKSLASH]);
    assert StringTail([QUOTE, BACKSLASH], 1, QUOTE) == 3;
  }

  /** Open spans stay visible, except that a text whose last byte is the quote, escaped
      or not, is masked to its end. */
  lemma MaskedExactly(s: Text, at: nat)
    requires at < |s| && IsQuote(s[at]) && StepAt(s, at) != Panic
    ensures StepAt(s, at).Mask? <==> !Open(s, at + 1, s[at]) || s[|s| - 1] == s[at]
    ensures Open(s, at + 1, s[at]) && s[|s| - 1] == s[at] ==> StepAt(s, at) == Mask(at + 1, |s|, |s|)
  {
    StringRuns(s, at + 1, s[at]);
  }

  /** Such a text: a quote, a letter and an escaped quote.  Nothing closes the string, and
      all of it is masked; a fragment with two backslashes normalizes to it. */
  lemma OpenStringMasked()
    ensures var s := [QUOTE, 0x61, BACKSLASH, QUOTE];
            && Open(s, 1, QUOTE) && StepAt(s, 0) == Mask(1, 4, 4)
            && ResolveFrom([QUOTE, 0x61, BACKSLASH, BACKSLASH, QUOTE], 0, []) == s
  {
    var raw, s := [QUOTE, 0x61, BACKSLASH, BACKSLASH, QUOTE], [QUOTE, 0x61, BACKSLASH, QUOTE];
    assert StringTail(s, 1, QUOTE) == StringTail(s, 2, QUOTE) == StringTail(s, 4, QUOTE) == 4;
    assert Open(s, 4, QUOTE) && Open(s, 2, QUOTE);
    var a: Text, b: Text, c: Text := [QUOTE], [QUOTE, 0x61], [QUOTE, 0x61, BACKSLASH];
    assert [] + [Lower(QUOTE)] == a && a + [Lower(0x61)] == b && b + Fold([BACKSLASH]) == c && c + [Lower(QUOTE)] == s;
    assert EscapeAt(raw, 2) == (Some([BACKSLASH]), 4);
    assert ResolveFrom(raw, 0, []) == ResolveFrom(raw, 1, a) == ResolveFrom(raw, 2, b);
    assert ResolveFrom(raw, 2, b) == ResolveFrom(raw, 4, c) == ResolveFrom(raw, 5, s);
  }

  // ------------------------------------------------------------ what the mask covers

  /** A text as a reader sees it: closed strings, closed `url(` arguments, a string that
      runs open to the end and ends in its own quote, and bytes that begin none of them. */
  datatype Span = Quote(ks: seq<Chunk>) | Url(n: nat) | ToTheEnd | Shown

  ghost predicate SpanAt(s: Text, at: nat, p: Span) {
    at < |s| &&
    match p
    case Quote(ks) => StringAt(s, at, ks)
    case Url(n) => IsUrl(s, at) && FirstParen(s, at + 4, n)
    case ToTheEnd => OpenString(s, at) && s[|s| - 1] == s[at]
    case Shown => Unquoted(s, at) && (IsUrl(s, at) ==> NoParen(s, at + 4))
  }

  /** A quote stands here only if nothing closes it and the text ends in some other byte. */
  ghost predicate Unquoted(s: Text, at: nat)
    requires at < |s|
  {
    IsQuote(s[at]) ==> OpenString(s, at) && s[|s| - 1] != s[at]
  }

  predicate FirstParen(s: Text, at: nat, n: nat) {
    at + n < |s| && s[at + n] == CLOSE_PAREN && forall i :: at <= i < at + n ==> s[i] != CLOSE_PAREN
  }

  ghost predicate NoParen(s: Text, at: nat) {
    forall n :: !FirstParen(s, at, n)
  }

  function PastSpan(s: Text, at: nat, p: Span): (past: nat)
    requires at < |s|
    ensures past > at
  {
    match p
    case Quote(ks) => EndOfChunks(at + 1, ks) + 1
    case Url(n) => at + 4 + n + 1
    case ToTheEnd => |s|
    case Shown => at + 1
  }

  /** A string's characters and its closing quote, and a url's argument. */
  predicate InSpan(s: Text, at: nat, p: Span, i: int)
    requires at < |s|
  {
    match p
    case Quote(ks) => at + 1 <= i < PastSpan(s, at, p)
    case Url(n) => at + 4 <= i < at + 4 + n
    case ToTheEnd => at + 1 <= i < |s|
    case Shown => false
  }

  ghost predicate Spanned(s: Text, at: nat, ps: seq<Span>)
    decreases |ps|
  {
    if ps == [] then at == |s| else SpanAt(s, at, ps[0]) && Spanned(s, PastSpan(s, at, ps[0]), ps[1..])
  }

  ghost predicate InSpans(s: Text, at: nat, ps: seq<Span>, i: int)
    requires Spanned(s, at, ps)
    decreases |ps|
  {
    ps != [] && (InSpan(s, at, ps[0], i) || InSpans(s, PastSpan(s, at, ps[0]), ps[1..], i))
  }

  lemma {:induction false} FindsParen(s: Text, at: nat, n: nat)
    requires FirstParen(s, at, n)
    ensures ParenFrom(s, at) == Some(at + n)
    decreases n
  {
    if n > 0 { FindsParen(s, at + 1, n - 1); }
  }

  lemma FindsNoParen(s: Text, at: nat)
    requires at <= |s| && NoParen(s, at)
    ensures ParenFrom(s, at).None?
  {
    var close := ParenFrom(s, at);
    if close.Some? { assert FirstParen(s, at, close.value - at); }
  }

  /** What the scan does at a span. */
  lemma SpanSteps(s: Text, at: nat, p: Span)
    requires SpanAt(s, at, p) && StepAt(s, at) != Panic
    ensures PastSpan(s, at, p) <= |s|
    ensures match p
            case Quote(_) => StepAt(s, at) == Mask(at + 1, PastSpan(s, at, p), PastSpan(s, at, p))
            case Url(n) => StepAt(s, at) == Mask(at + 4, at + 4 + n, PastSpan(s, at, p))
            case ToTheEnd => StepAt(s, at) == Mask(at + 1, |s|, |s|)
            case Shown => StepAt(s, at) == Next
  {
    match p
    case Quote(ks) => StringSkips(s, at, ks);
    case Url(n) => FindsParen(s, at + 4, n);
    case ToTheEnd => OpenStringRuns(s, at);
    case Shown =>
      if IsQuote(s[at]) { OpenStringRuns(s, at); }
      if IsUrl(s, at) { FindsNoParen(s, at + 4); }
  }

  /** The mask covers exactly what is inside the strings and the urls. */
  lemma {:induction false} CoveredIsInside(s: Text, at: nat, ps: seq<Span>, i: int)
    requires Spanned(s, at, ps) && !Panics(s, at)
    ensures Covered(s, at, i) <==> InSpans(s, at, ps, i)
    decreases |ps|
  {
    if ps != [] {
      SpanSteps(s, at, ps[0]);
      CoveredIsInside(s, PastSpan(s, at, ps[0]), ps[1..], i);
    }
  }

  lemma SpanHere(s: Text, at: nat) returns (p: Span)
    requires at < |s|
    ensures SpanAt(s, at, p)
  {
    if IsQuote(s[at]) {
      if ks :| StringAt(s, at, ks) {
        p := Quote(ks);
      } else {
        p := if s[|s| - 1] == s[at] then ToTheEnd else Shown;
      }
    } else if IsUrl(s, at) && !NoParen(s, at + 4) {
      var argument := at + 4;
      var n :| FirstParen(s, argument, n);
      p := Url(n);
    } else {
      p := Shown;
    }
  }

  /** Every text falls into such spans. */
  lemma {:induction false} SpanOut(s: Text, at: nat) returns (ps: seq<Span>)
    requires at <= |s|
    ensures Spanned(s, at, ps)
    decreases |s| - at
  {
    if at == |s| {
      ps := [];
    } else {
      var p := SpanHere(s, at);
      if p.Quote? { StringSkips(s, at, p.ks); }
      var rest := SpanOut(s, PastSpan(s, at, p));
      ps := [p] + rest;
      assert ps[1..] == rest;
    }
  }
}
