/** What the mask does to a text of strings, url arguments and bytes between them, once
    their escapes are decoded: it hides exactly the strings' characters and the arguments
    exactly when every one of them is calm. */
module SheetPromise {
  import opened Options
  import opened CssNames
  import opened ClientSheet

  const URL: Text := [0x75, 0x72, 0x6C]
  const OPEN_PAREN: Byte := 0x28

  /** A piece of a client's text with its escapes decoded: bytes outside strings and urls,
      the characters of a string, or a url's argument. */
  datatype Decoded = Bytes(d: Text) | Chars(quote: Byte, d: Text) | Argument(d: Text)

  predicate DecodedOk(t: Decoded) {
    match t
    case Bytes(d) => d != []
    case Chars(quote, _) => IsQuote(quote)
    case Argument(_) => true
  }

  /** How the piece stands in the normalized text. */
  function Norm(t: Decoded): (n: Text)
    ensures DecodedOk(t) ==> n != []
  {
    match t
    case Bytes(d) => d
    case Chars(quote, d) => [quote] + d + [quote]
    case Argument(d) => URL + [OPEN_PAREN] + d + [CLOSE_PAREN]
  }

  function NormAll(ts: seq<Decoded>): Text {
    if ts == [] then [] else Norm(ts[0]) + NormAll(ts[1..])
  }

  predicate ByteAt(s: Text, at: nat, b: Byte) { at < |s| && s[at] == b }

  lemma TextsJoin(a: Text, b: Text, c: Text)
    ensures (a + b) + c == a + (b + c)
  {
  }

  // ----------------------------------------------------------- the promise, position by position

  predicate Has(s: Text, at: nat, t: Text) {
    at + |t| <= |s| && forall i :: 0 <= i < |t| ==> s[at + i] == t[i]
  }

  /** From the offset on, the normalized text is that of the tokens. */
  predicate Follows(s: Text, at: nat, ts: seq<Decoded>)
    decreases |ts|
  {
    if ts == [] then at == |s|
    else DecodedOk(ts[0]) && Has(s, at, Norm(ts[0])) && Follows(s, at + |Norm(ts[0])|, ts[1..])
  }

  predicate AllOk(ts: seq<Decoded>) {
    ts == [] || (DecodedOk(ts[0]) && AllOk(ts[1..]))
  }

  lemma HasMiddle(a: Text, b: Text, c: Text)
    ensures Has(a + (b + c), |a|, b)
  {
  }

  lemma {:induction false} NormFollows(s: Text, before: Text, ts: seq<Decoded>)
    requires AllOk(ts) && s == before + NormAll(ts)
    ensures Follows(s, |before|, ts)
    decreases |ts|
  {
    if ts != [] {
      NormSplits(s, before, ts);
      NormFollows(s, before + Norm(ts[0]), ts[1..]);
      FollowsOn(s, |before|, ts);
    }
  }

  lemma NormSplits(s: Text, before: Text, ts: seq<Decoded>)
    requires ts != [] && s == before + NormAll(ts)
    ensures Has(s, |before|, Norm(ts[0])) && s == (before + Norm(ts[0])) + NormAll(ts[1..])
  {
    HasMiddle(before, Norm(ts[0]), NormAll(ts[1..]));
    TextsJoin(before, Norm(ts[0]), NormAll(ts[1..]));
  }

  lemma FollowsOn(s: Text, p: nat, ts: seq<Decoded>)
    requires ts != [] && DecodedOk(ts[0]) && Has(s, p, Norm(ts[0])) && Follows(s, p + |Norm(ts[0])|, ts[1..])
    ensures Follows(s, p, ts)
  {
  }

  /** Inside a token of the written text: a string's characters and its closing quote, or
      a url's argument. */
  predicate InToken(at: nat, t: Decoded, i: int) {
    match t
    case Bytes(_) => false
    case Chars(_, _) => at + 1 <= i < at + |Norm(t)|
    case Argument(_) => at + 4 <= i < at + |Norm(t)| - 1
  }

  predicate InTokens(at: nat, ts: seq<Decoded>, i: int)
    decreases |ts|
  {
    ts != [] && (InToken(at, ts[0], i) || InTokens(at + |Norm(ts[0])|, ts[1..], i))
  }

  lemma {:induction false} InsideIsAfter(at: nat, ts: seq<Decoded>, i: int)
    requires InTokens(at, ts, i)
    ensures i > at
    decreases |ts|
  {
    if !InToken(at, ts[0], i) { InsideIsAfter(at + |Norm(ts[0])|, ts[1..], i); }
  }

  lemma {:induction false} CoveredIsAfter(s: Text, at: nat, i: int)
    requires Covered(s, at, i)
    ensures i > at
    decreases |s| - at
  {
    match StepAt(s, at)
    case Mask(from, to, next) => if !(from <= i < to) { CoveredIsAfter(s, next, i); }
    case Next => CoveredIsAfter(s, at + 1, i);
    case Panic =>
  }

  /** The scan from one offset covers what is inside the tokens from another. */
  ghost predicate Agree(s: Text, at: nat, from: nat, ts: seq<Decoded>) {
    !Panics(s, at) && forall i {:trigger AgreeAt(s, at, from, ts, i)} :: AgreeAt(s, at, from, ts, i)
  }

  predicate AgreeAt(s: Text, at: nat, from: nat, ts: seq<Decoded>, i: int) {
    Covered(s, at, i) <==> InTokens(from, ts, i)
  }

  /** The scan covers exactly what is inside the written strings and urls, and reads no
      byte past the end. */
  ghost predicate Kept(s: Text, at: nat, ts: seq<Decoded>) { Agree(s, at, at, ts) }

  lemma Disagrees(s: Text, at: nat, from: nat, ts: seq<Decoded>, i: int)
    requires Covered(s, at, i) != InTokens(from, ts, i)
    ensures !Agree(s, at, from, ts)
  {
    assert !AgreeAt(s, at, from, ts, i);
  }

  // ---------------------------------------------------------------------------- strings

  /** Read from inside a string: its decoded characters hold no quote of its own, and no
      backslash that would swallow the one that closes it. */
  predicate EndsItself(d: Text, at: nat, quote: Byte)
    decreases |d| - at
  {
    at == |d| ||
    (at < |d| && if d[at] == BACKSLASH then at + 1 < |d| && EndsItself(d, at + 2, quote)
                 else d[at] != quote && EndsItself(d, at + 1, quote))
  }

  /** They hold no quote of its own, and a last backslash swallows the closing one. */
  predicate Swallows(d: Text, at: nat, quote: Byte)
    decreases |d| - at
  {
    at < |d| && if d[at] == BACKSLASH then at + 1 == |d| || Swallows(d, at + 2, quote)
                else d[at] != quote && Swallows(d, at + 1, quote)
  }

  lemma {:induction false} TailRuns(s: Text, p: nat, d: Text, at: nat, quote: Byte)
    requires Has(s, p, d) && ByteAt(s, p + |d|, quote) && at <= |d| && quote != BACKSLASH
    ensures StringTail(s, p + at, quote) == p + |d| + 1 <==>
              EndsItself(d, at, quote) || (p + |d| + 1 == |s| && Swallows(d, at, quote))
    decreases |d| - at
  {
    if at < |d| {
      assert s[p + at] == d[at];
      if d[at] == BACKSLASH {
        if at + 1 < |d| { TailRuns(s, p, d, at + 2, quote); } else { assert p + at + 2 == p + |d| + 1; }
      } else if d[at] != quote {
        TailRuns(s, p, d, at + 1, quote);
      }
    }
  }

  lemma NormOfStr(s: Text, p: nat, quote: Byte, d: Text)
    requires Has(s, p, [quote] + d + [quote])
    ensures s[p] == quote && Has(s, p + 1, d) && ByteAt(s, p + 1 + |d|, quote)
  {
    var n := [quote] + d + [quote];
    assert s[p + 0] == n[0] && s[p + (|d| + 1)] == n[|d| + 1];
    forall i | 0 <= i < |d| ensures s[p + 1 + i] == d[i] { assert s[p + (i + 1)] == n[i + 1] == d[i]; }
  }

  /** A span masked as the first token has it leaves the rest of the promise. */
  lemma SameVerdict(s: Text, p: nat, from: nat, to: nat, end: nat, ts: seq<Decoded>, rest: seq<Decoded>)
    requires p < |s| && StepAt(s, p) == Mask(from, to, end) && to <= end
    requires forall i {:trigger InTokens(p, ts, i)} :: InTokens(p, ts, i) <==> from <= i < to || InTokens(end, rest, i)
    ensures Kept(s, p, ts) <==> Kept(s, end, rest)
  {
    if Kept(s, p, ts) {
      forall i ensures AgreeAt(s, end, end, rest, i) {
        assert AgreeAt(s, p, p, ts, i);
        OnlyAfter(s, end, rest, i);
      }
    }
    if Kept(s, end, rest) {
      forall i ensures AgreeAt(s, p, p, ts, i) {
        assert AgreeAt(s, end, end, rest, i);
      }
    }
  }

  lemma OnlyAfter(s: Text, end: nat, ts: seq<Decoded>, i: int)
    ensures Covered(s, end, i) || InTokens(end, ts, i) ==> i > end
  {
    if Covered(s, end, i) { CoveredIsAfter(s, end, i); }
    if InTokens(end, ts, i) { InsideIsAfter(end, ts, i); }
  }

  /** The mask keeps a string's part of the promise exactly when the scan of it ends where
      the string does. */
  lemma StrKept(s: Text, p: nat, ts: seq<Decoded>, end: nat, calm: bool)
    requires StrFrom(s, p, ts, end)
    requires calm <==> StringEnd(s, p) == end
    ensures Kept(s, p, ts) <==> calm && Kept(s, end, ts[1..])
  {
    if calm {
      assert StepAt(s, p) == Mask(p + 1, end, end);
      forall i ensures InTokens(p, ts, i) <==> p + 1 <= i < end || InTokens(end, ts[1..], i) { InStr(p, ts, end, i); }
      SameVerdict(s, p, p + 1, end, end, ts, ts[1..]);
    } else {
      StrLost(s, p, ts, end);
    }
  }

  /** The first token is a string, and its two quotes stand in the text. */
  predicate StrFrom(s: Text, p: nat, ts: seq<Decoded>, end: nat) {
    && ts != [] && ts[0].Chars? && end == p + |Norm(ts[0])| && p + 2 <= end <= |s|
    && IsQuote(s[p]) && s[end - 1] == s[p]
  }

  lemma InStr(p: nat, ts: seq<Decoded>, end: nat, i: int)
    requires ts != [] && ts[0].Chars? && end == p + |Norm(ts[0])|
    ensures InTokens(p, ts, i) <==> p + 1 <= i < end || InTokens(end, ts[1..], i)
  {
  }

  /** A string that closes early shows its next character; one that closes late hides the
      byte after it. */
  lemma MaskLost(s: Text, p: nat, ts: seq<Decoded>, from: nat, to: nat, end: nat)
    requires p < |s| && StepAt(s, p) == Mask(from, to, to) && from <= end && to != end
    requires to < end ==> InTokens(p, ts, to)
    requires to > end ==> !InTokens(p, ts, end)
    ensures !Kept(s, p, ts)
  {
    if to < end {
      OnlyAfter(s, to, ts, to);
      Disagrees(s, p, p, ts, to);
    } else {
      Disagrees(s, p, p, ts, end);
    }
  }

  lemma StrLost(s: Text, p: nat, ts: seq<Decoded>, end: nat)
    requires StrFrom(s, p, ts, end)
    requires StringEnd(s, p) != end
    ensures !Kept(s, p, ts)
  {
    match StepAt(s, p)
    case Panic =>
    case Next =>
      OnlyAfter(s, p + 1, ts, p + 1);
      InStr(p, ts, end, p + 1);
      Disagrees(s, p, p, ts, p + 1);
    case Mask(from, to, next) =>
      InStr(p, ts, end, to);
      InStr(p, ts, end, end);
      OnlyAfter(s, end, ts[1..], end);
      MaskLost(s, p, ts, from, to, end);
  }

  // ------------------------------------------------------------------------------- urls

  lemma NormOfLink(s: Text, p: nat, d: Text)
    requires Has(s, p, URL + [OPEN_PAREN] + d + [CLOSE_PAREN])
    ensures IsUrl(s, p) && Has(s, p + 4, d) && ByteAt(s, p + 4 + |d|, CLOSE_PAREN)
  {
    var n := URL + [OPEN_PAREN] + d + [CLOSE_PAREN];
    assert s[p + 0] == n[0] && s[p + 1] == n[1] && s[p + 2] == n[2] && s[p + 3] == n[3] && s[p + (|d| + 4)] == n[|d| + 4];
    forall i | 0 <= i < |d| ensures s[p + 4 + i] == d[i] { assert s[p + (i + 4)] == n[i + 4] == d[i]; }
  }

  lemma ParenOf(s: Text, at: nat, d: Text)
    requires Has(s, at, d) && ByteAt(s, at + |d|, CLOSE_PAREN)
    ensures ParenFrom(s, at).Some? && ParenFrom(s, at).value <= at + |d|
    ensures ParenFrom(s, at).value == at + |d| <==> CLOSE_PAREN !in d
  {
    var close := ParenFrom(s, at).value;
    if close < at + |d| { assert s[at + (close - at)] == d[close - at]; }
    forall i | 0 <= i < |d| && close == at + |d| ensures d[i] != CLOSE_PAREN { assert s[at + i] == d[i]; }
  }

  lemma LinkScans(s: Text, p: nat, t: Decoded) returns (close: nat)
    requires DecodedOk(t) && t.Argument? && Has(s, p, Norm(t))
    ensures p < |s| && StepAt(s, p) == Mask(p + 4, close, close + 1) && close <= p + 4 + |t.d|
    ensures close == p + 4 + |t.d| <==> CLOSE_PAREN !in t.d
  {
    var d := t.d;
    NormOfLink(s, p, d);
    ParenOf(s, p + 4, d);
    close := ParenFrom(s, p + 4).value;
  }

  lemma LinkKept(s: Text, p: nat, ts: seq<Decoded>)
    requires ts != [] && DecodedOk(ts[0]) && Has(s, p, Norm(ts[0])) && ts[0].Argument?
    ensures Kept(s, p, ts) <==> CLOSE_PAREN !in ts[0].d && Kept(s, p + |Norm(ts[0])|, ts[1..])
  {
    var close := LinkScans(s, p, ts[0]);
    ScannedLinkKept(s, p, ts, close, p + |Norm(ts[0])|);
  }

  lemma ScannedLinkKept(s: Text, p: nat, ts: seq<Decoded>, close: nat, end: nat)
    requires ts != [] && ts[0].Argument? && end == p + |Norm(ts[0])| && close < end
    requires p < |s| && StepAt(s, p) == Mask(p + 4, close, close + 1)
    ensures Kept(s, p, ts) <==> close + 1 == end && Kept(s, end, ts[1..])
  {
    if close + 1 == end {
      forall i ensures InTokens(p, ts, i) <==> p + 4 <= i < close || InTokens(end, ts[1..], i) { InLink(p, ts, end, i); }
      SameVerdict(s, p, p + 4, close, end, ts, ts[1..]);
    } else {
      InLink(p, ts, end, close);
      UrlCut(s, p, p + 4, close, ts);
    }
  }

  lemma InLink(p: nat, ts: seq<Decoded>, end: nat, i: int)
    requires ts != [] && ts[0].Argument? && end == p + |Norm(ts[0])|
    ensures InTokens(p, ts, i) <==> p + 4 <= i < end - 1 || InTokens(end, ts[1..], i)
  {
  }

  /** An argument masked up to an earlier parenthesis leaves that one showing. */
  lemma UrlCut(s: Text, p: nat, from: nat, close: nat, ts: seq<Decoded>)
    requires p < |s| && StepAt(s, p) == Mask(from, close, close + 1) && InTokens(p, ts, close)
    ensures !Kept(s, p, ts)
  {
    if Covered(s, close + 1, close) { CoveredIsAfter(s, close + 1, close); }
    Disagrees(s, p, p, ts, close);
  }

  // ------------------------------------------------------------- everything between them

  /** Nothing at the offset opens a string that the scan masks, or a url with an argument. */
  predicate OpensNothing(s: Text, j: nat)
    requires j < |s|
  {
    && (IsQuote(s[j]) ==> j + 1 == |s| || (Open(s, j + 1, s[j]) && !LoneBackslash(s) && s[|s| - 1] != s[j]))
    && (IsUrl(s, j) ==> ParenFrom(s, j + 4).None? || s[j + 4] == CLOSE_PAREN)
  }

  /** Bytes that open nothing start no string and no url of the text. */
  lemma {:induction false} NotYetInside(s: Text, p: nat, ts: seq<Decoded>, to: nat, i: int)
    requires Follows(s, p, ts) && i <= to && p <= to <= |s|
    requires forall x :: p <= x < to ==> !IsQuote(s[x]) && s[x] != 0x75
    ensures !InTokens(p, ts, i)
    decreases |ts|
  {
    if InTokens(p, ts, i) {
      InsideIsAfter(p, ts, i);
      var n := Norm(ts[0]);
      assert s[p + 0] == n[0];
      var mid := p + |n|;
      if mid <= to { NotYetInside(s, mid, ts[1..], to, i); } else { InsideIsAfter(mid, ts[1..], i); }
    }
  }

  /** An empty url is stepped over byte by byte as well as at once. */
  lemma EmptyUrl(s: Text, j: nat, i: int)
    requires IsUrl(s, j) && j + 4 < |s| && s[j + 4] == CLOSE_PAREN
    ensures Covered(s, j, i) == Covered(s, j + 1, i) && Panics(s, j) == Panics(s, j + 1)
  {
    assert ParenFrom(s, j + 4) == Some(j + 4);
    assert StepAt(s, j) == Mask(j + 4, j + 4, j + 5);
    assert StepAt(s, j + 1) == Next && StepAt(s, j + 2) == Next && StepAt(s, j + 3) == Next && StepAt(s, j + 4) == Next;
    assert Covered(s, j + 1, i) == Covered(s, j + 2, i) == Covered(s, j + 3, i) == Covered(s, j + 4, i) == Covered(s, j + 5, i);
    assert Panics(s, j + 1) == Panics(s, j + 2) == Panics(s, j + 3) == Panics(s, j + 4) == Panics(s, j + 5);
  }

  /** A byte the scan steps over changes nothing. */
  lemma StepsOver(s: Text, j: nat, end: nat, rest: seq<Decoded>)
    requires j < |s| && Panics(s, j) == Panics(s, j + 1) && forall i :: Covered(s, j, i) == Covered(s, j + 1, i)
    ensures Agree(s, j, end, rest) <==> Agree(s, j + 1, end, rest)
  {
    var next := j + 1;
    if Agree(s, j, end, rest) {
      forall i ensures AgreeAt(s, next, end, rest, i) { assert AgreeAt(s, j, end, rest, i); }
    }
    if Agree(s, next, end, rest) {
      forall i ensures AgreeAt(s, j, end, rest, i) { assert AgreeAt(s, next, end, rest, i); }
    }
  }

  lemma QuoteMasks(s: Text, j: nat, end: nat, rest: seq<Decoded>)
    requires j < end <= |s| && IsQuote(s[j]) && j + 1 < |s| && StepAt(s, j).Mask?
    ensures !Agree(s, j, end, rest) && !OpensNothing(s, j)
  {
    MaskedExactly(s, j);
    assert Covered(s, j, j + 1);
    if InTokens(end, rest, j + 1) { InsideIsAfter(end, rest, j + 1); }
    Disagrees(s, j, end, rest, j + 1);
  }

  lemma LastByte(s: Text)
    requires s != [] && s[|s| - 1] != BACKSLASH
    ensures !LoneBackslash(s)
  {
  }

  lemma QuoteKept(s: Text, j: nat, end: nat, rest: seq<Decoded>)
    requires j < end <= |s| && Follows(s, end, rest) && IsQuote(s[j])
    ensures Agree(s, j, end, rest) <==> OpensNothing(s, j) && Agree(s, j + 1, end, rest)
  {
    QuoteSteps(s, j);
    if j + 1 == |s| {
      LastByte(s);
      StepsOver(s, j, end, rest);
    } else if StepAt(s, j).Mask? {
      QuoteMasks(s, j, end, rest);
    } else if StepAt(s, j).Next? {
      StepsOver(s, j, end, rest);
    }
  }

  lemma UrlBytes(s: Text, j: nat, end: nat)
    requires j < end && IsUrl(s, j)
    ensures forall x :: end <= x < j + 4 ==> !IsQuote(s[x]) && s[x] != 0x75
  {
    forall x | end <= x < j + 4 ensures !IsQuote(s[x]) && s[x] != 0x75 {
      assert x == j + 1 || x == j + 2 || x == j + 3;
    }
  }

  lemma AfterUrl(s: Text, j: nat, end: nat, rest: seq<Decoded>)
    requires j < end <= |s| && Follows(s, end, rest) && IsUrl(s, j)
    ensures !InTokens(end, rest, j + 4)
  {
    if end <= j + 4 {
      UrlBytes(s, j, end);
      NotYetInside(s, end, rest, j + 4, j + 4);
    } else if InTokens(end, rest, j + 4) {
      InsideIsAfter(end, rest, j + 4);
    }
  }

  lemma UrlKept(s: Text, j: nat, end: nat, rest: seq<Decoded>)
    requires j < end <= |s| && Follows(s, end, rest) && IsUrl(s, j)
    ensures Agree(s, j, end, rest) <==> OpensNothing(s, j) && Agree(s, j + 1, end, rest)
  {
    var close := ParenFrom(s, j + 4);
    if close.None? {
      assert StepAt(s, j) == Next;
      StepsOver(s, j, end, rest);
    } else if close.value == j + 4 {
      forall i ensures Covered(s, j, i) == Covered(s, j + 1, i) { EmptyUrl(s, j, i); }
      EmptyUrl(s, j, 0);
      StepsOver(s, j, end, rest);
    } else {
      assert Covered(s, j, j + 4);
      AfterUrl(s, j, end, rest);
      Disagrees(s, j, end, rest, j + 4);
    }
  }

  predicate Quiet(s: Text, from: nat, to: nat)
    requires to <= |s|
  {
    forall x :: from <= x < to ==> OpensNothing(s, x)
  }

  lemma QuietStep(s: Text, from: nat, to: nat)
    requires from < to <= |s|
    ensures Quiet(s, from, to) <==> OpensNothing(s, from) && Quiet(s, from + 1, to)
  {
    if OpensNothing(s, from) && Quiet(s, from + 1, to) {
      forall x | from <= x < to ensures OpensNothing(s, x) { assert x == from || OpensNothing(s, x); }
    }
  }

  lemma ByteKept(s: Text, j: nat, end: nat, rest: seq<Decoded>)
    requires j < end <= |s| && Follows(s, end, rest)
    ensures Agree(s, j, end, rest) <==> OpensNothing(s, j) && Agree(s, j + 1, end, rest)
  {
    if IsQuote(s[j]) {
      QuoteKept(s, j, end, rest);
    } else if IsUrl(s, j) {
      UrlKept(s, j, end, rest);
    } else {
      assert StepAt(s, j) == Next;
      StepsOver(s, j, end, rest);
    }
  }

  predicate ByteStep(holds: nat -> bool, s: Text, x: nat, end: nat) {
    x < end <= |s| ==> (holds(x) <==> OpensNothing(s, x) && holds(x + 1))
  }

  /** What turns on one byte at a time turns on all of them. */
  lemma {:induction false} ByteByByte(holds: nat -> bool, s: Text, j: nat, end: nat)
    requires j <= end <= |s|
    requires forall x: nat {:trigger ByteStep(holds, s, x, end)} :: ByteStep(holds, s, x, end)
    ensures holds(j) <==> Quiet(s, j, end) && holds(end)
    decreases end - j
  {
    if j < end {
      assert ByteStep(holds, s, j, end);
      ByteByByte(holds, s, j + 1, end);
      QuietStep(s, j, end);
    }
  }

  lemma LooseKept(s: Text, p: nat, ts: seq<Decoded>)
    requires ts != [] && DecodedOk(ts[0]) && Has(s, p, Norm(ts[0])) && ts[0].Bytes? && Follows(s, p + |Norm(ts[0])|, ts[1..])
    ensures Kept(s, p, ts) <==> Quiet(s, p, p + |Norm(ts[0])|) && Kept(s, p + |Norm(ts[0])|, ts[1..])
  {
    var end, rest := p + |Norm(ts[0])|, ts[1..];
    var holds := (x: nat) => Agree(s, x, end, rest);
    forall x: nat ensures ByteStep(holds, s, x, end) {
      AgreeSteps(holds, s, x, end, rest);
    }
    ByteByByte(holds, s, p, end);
    LooseAgrees(s, p, ts, end, rest);
  }

  lemma AgreeSteps(holds: nat -> bool, s: Text, j: nat, end: nat, rest: seq<Decoded>)
    requires forall x: nat {:trigger holds(x)} :: holds(x) == Agree(s, x, end, rest)
    requires end <= |s| ==> Follows(s, end, rest)
    ensures ByteStep(holds, s, j, end)
  {
    if j < end <= |s| { ByteKept(s, j, end, rest); }
  }

  lemma LooseAgrees(s: Text, p: nat, ts: seq<Decoded>, end: nat, rest: seq<Decoded>)
    requires ts != [] && ts[0].Bytes? && end == p + |Norm(ts[0])| && rest == ts[1..]
    ensures Kept(s, p, ts) <==> Agree(s, p, end, rest)
  {
    if Kept(s, p, ts) {
      forall i ensures AgreeAt(s, p, end, rest, i) { assert AgreeAt(s, p, p, ts, i); }
    }
    if Agree(s, p, end, rest) {
      forall i ensures AgreeAt(s, p, p, ts, i) { assert AgreeAt(s, p, end, rest, i); }
    }
  }

  // -------------------------------------------------------------------------- the promise

  /** A token is calm: what its escapes decode to opens and closes nothing. */
  predicate PieceCalm(s: Text, p: nat, t: Decoded, last: bool)
    requires p + |Norm(t)| <= |s|
  {
    match t
    case Bytes(_) => Quiet(s, p, p + |Norm(t)|)
    case Chars(quote, d) => EndsItself(d, 0, quote) || (last && Swallows(d, 0, quote))
    case Argument(d) => CLOSE_PAREN !in d
  }

  predicate Calm(s: Text, p: nat, ts: seq<Decoded>)
    requires Follows(s, p, ts)
    decreases |ts|
  {
    ts == [] || (PieceCalm(s, p, ts[0], ts[1..] == []) && Calm(s, p + |Norm(ts[0])|, ts[1..]))
  }

  lemma LastOne(s: Text, p: nat, rest: seq<Decoded>)
    requires Follows(s, p, rest)
    ensures rest == [] <==> p == |s|
  {
  }

  lemma StrCalm(s: Text, p: nat, t: Decoded, last: bool)
    requires DecodedOk(t) && t.Chars? && Has(s, p, Norm(t)) && (last <==> p + |Norm(t)| == |s|)
    ensures PieceCalm(s, p, t, last) <==> StringEnd(s, p) == p + |Norm(t)|
  {
    var d := t.d;
    NormOfStr(s, p, t.quote, d);
    TailRuns(s, p + 1, d, 0, t.quote);
  }

  lemma StrEnds(s: Text, p: nat, t: Decoded, last: bool, end: nat, calm: bool)
    requires DecodedOk(t) && t.Chars? && Has(s, p, Norm(t)) && end == p + |Norm(t)| && (last <==> end == |s|)
    requires calm == PieceCalm(s, p, t, last)
    ensures calm <==> StringEnd(s, p) == end
  {
    StrCalm(s, p, t, last);
  }

  lemma StrQuotes(s: Text, p: nat, ts: seq<Decoded>, t: Decoded, end: nat)
    requires ts != [] && t == ts[0] && t.Chars? && DecodedOk(t) && Has(s, p, Norm(t)) && end == p + |Norm(t)|
    ensures StrFrom(s, p, ts, end)
  {
    NormOfStr(s, p, t.quote, t.d);
  }

  lemma StrAlone(s: Text, p: nat, ts: seq<Decoded>, end: nat, last: bool, calm: bool)
    requires ts != [] && ts[0].Chars? && DecodedOk(ts[0]) && Has(s, p, Norm(ts[0]))
    requires end == p + |Norm(ts[0])| && (last <==> end == |s|) && calm == PieceCalm(s, p, ts[0], last)
    ensures Kept(s, p, ts) <==> calm && Kept(s, end, ts[1..])
  {
    StrEnds(s, p, ts[0], last, end, calm);
    StrQuotes(s, p, ts, ts[0], end);
    StrKept(s, p, ts, end, calm);
  }

  lemma StrFirst(s: Text, p: nat, ts: seq<Decoded>, end: nat, calm: bool)
    requires ts != [] && ts[0].Chars? && Follows(s, p, ts) && calm == PieceCalm(s, p, ts[0], ts[1..] == [])
    requires end == p + |Norm(ts[0])|
    ensures Kept(s, p, ts) <==> calm && Kept(s, end, ts[1..])
  {
    LastOne(s, end, ts[1..]);
    StrAlone(s, p, ts, end, ts[1..] == [], calm);
  }

  /** The promise is kept from a token on exactly when the token is calm and it is kept
      after it. */
  lemma FirstKept(s: Text, p: nat, ts: seq<Decoded>)
    requires ts != [] && Follows(s, p, ts)
    ensures p + |Norm(ts[0])| <= |s|
    ensures Kept(s, p, ts) <==> PieceCalm(s, p, ts[0], ts[1..] == []) && Kept(s, p + |Norm(ts[0])|, ts[1..])
  {
    var last := ts[1..] == [];
    match ts[0]
    case Bytes(_) =>
      LooseKept(s, p, ts);
    case Chars(_, _) =>
      StrFirst(s, p, ts, p + |Norm(ts[0])|, PieceCalm(s, p, ts[0], last));
    case Argument(_) =>
      LinkKept(s, p, ts);
  }

  lemma NothingKept(s: Text, p: nat)
    requires p == |s|
    ensures Kept(s, p, [])
  {
    forall i ensures AgreeAt(s, p, p, [], i) {
    }
  }

  lemma FirstCalm(s: Text, p: nat, ts: seq<Decoded>)
    requires ts != [] && Follows(s, p, ts)
    ensures Calm(s, p, ts) <==> PieceCalm(s, p, ts[0], ts[1..] == []) && Calm(s, p + |Norm(ts[0])|, ts[1..])
  {
  }

  /** The mask keeps its promise over the whole text exactly when every piece is calm. */
  lemma {:induction false} KeptExactly(s: Text, p: nat, ts: seq<Decoded>)
    requires Follows(s, p, ts)
    ensures Kept(s, p, ts) <==> Calm(s, p, ts)
    decreases |ts|
  {
    if ts == [] {
      NothingKept(s, p);
    } else {
      FirstKept(s, p, ts);
      FirstCalm(s, p, ts);
      KeptExactly(s, p + |Norm(ts[0])|, ts[1..]);
    }
  }

  /** A string with no escaped quote of its own and no escaped backslash is calm. */
  lemma {:induction false} UnescapedIsCalm(d: Text, at: nat, quote: Byte)
    requires at <= |d| && forall i :: at <= i < |d| ==> d[i] != quote && d[i] != BACKSLASH
    ensures EndsItself(d, at, quote)
    decreases |d| - at
  {
    if at < |d| { UnescapedIsCalm(d, at + 1, quote); }
  }
}
