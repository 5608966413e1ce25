/** Colour values as text, both ways: what a literal's digits are worth and which channel
    they set, and a reader of printed values that gets back the very expression printed. */
module ColourText {
  import opened Options
  import opened Colours

  // ----------------------------------------------------------------------- literals

  const LOWER_DIGITS := "0123456789abcdef"
  const UPPER_DIGITS := "0123456789ABCDEF"

  /** A digit is worth its place among the sixteen, whichever case it is written in. */
  lemma DigitIsWorth(i: nat)
    requires i < 16
    ensures IsHexChar(LOWER_DIGITS[i]) && HexOf(LOWER_DIGITS[i]) == i
    ensures IsHexChar(UPPER_DIGITS[i]) && HexOf(UPPER_DIGITS[i]) == i
  {
    if i < 8 { assert i in {0, 1, 2, 3, 4, 5, 6, 7}; } else { assert i in {8, 9, 10, 11, 12, 13, 14, 15}; }
  }

  /** Nothing else is a digit. */
  lemma DigitsAreThese(c: char)
    requires IsHexChar(c)
    ensures c == LOWER_DIGITS[HexOf(c)] || c == UPPER_DIGITS[HexOf(c)]
  {
    if '0' <= c <= '9' { assert c in {'0', '1', '2', '3', '4', '5', '6', '7', '8', '9'}; }
    else if 'a' <= c <= 'f' { assert c in {'a', 'b', 'c', 'd', 'e', 'f'}; }
    else { assert c in {'A', 'B', 'C', 'D', 'E', 'F'}; }
  }

  function Byte(high: char, low: char): (v: nat)
    requires IsHexChar(high) && IsHexChar(low)
  {
    16 * HexOf(high) + HexOf(low)
  }

  /** The pairs of a long literal are red, green, blue and, where there is a fourth, alpha;
      a short literal is the long one with every digit twice; `transparent` is zero in
      every channel. */
  lemma LiteralsMean(a: char, b: char, c: char, d: char, e: char, f: char, g: char, h: char)
    requires IsHexChar(a) && IsHexChar(b) && IsHexChar(c) && IsHexChar(d)
    requires IsHexChar(e) && IsHexChar(f) && IsHexChar(g) && IsHexChar(h)
    ensures IsLiteral(['#', a, b, c, d, e, f]) && IsLiteral(['#', a, b, c, d, e, f, g, h])
    ensures ColourOf(['#', a, b, c, d, e, f]) ==
      SRGBA(Byte(a, b) as real / 255.0, Byte(c, d) as real / 255.0, Byte(e, f) as real / 255.0, 1.0)
    ensures ColourOf(['#', a, b, c, d, e, f, g, h]) ==
      SRGBA(Byte(a, b) as real / 255.0, Byte(c, d) as real / 255.0, Byte(e, f) as real / 255.0, Byte(g, h) as real / 255.0)
    ensures IsLiteral(['#', a, b, c]) && ColourOf(['#', a, b, c]) == ColourOf(['#', a, a, b, b, c, c])
    ensures IsLiteral(['#', a, b, c, d]) && ColourOf(['#', a, b, c, d]) == ColourOf(['#', a, a, b, b, c, c, d, d])
    ensures IsLiteral("transparent") && ColourOf("transparent") == SRGBA(0.0, 0.0, 0.0, 0.0)
  {
    LongMeans(a, b, c, d, e, f, g, h);
    LongMeans(a, a, b, b, c, c, d, d);
    ShortMeans(a, b, c, d);
  }

  lemma LongMeans(a: char, b: char, c: char, d: char, e: char, f: char, g: char, h: char)
    requires IsHexChar(a) && IsHexChar(b) && IsHexChar(c) && IsHexChar(d)
    requires IsHexChar(e) && IsHexChar(f) && IsHexChar(g) && IsHexChar(h)
    ensures IsLiteral(['#', a, b, c, d, e, f]) && IsLiteral(['#', a, b, c, d, e, f, g, h])
    ensures ColourOf(['#', a, b, c, d, e, f]) ==
      SRGBA(Byte(a, b) as real / 255.0, Byte(c, d) as real / 255.0, Byte(e, f) as real / 255.0, 1.0)
    ensures ColourOf(['#', a, b, c, d, e, f, g, h]) ==
      SRGBA(Byte(a, b) as real / 255.0, Byte(c, d) as real / 255.0, Byte(e, f) as real / 255.0, Byte(g, h) as real / 255.0)
  {
    var six, eight := ['#', a, b, c, d, e, f], ['#', a, b, c, d, e, f, g, h];
    assert six[1..] == [a, b, c, d, e, f] && eight[1..] == [a, b, c, d, e, f, g, h];
    assert IsHexLiteral(six) && IsHexLiteral(eight);
    assert six != "transparent" && eight != "transparent" by { assert "transparent"[0] == 't'; }
  }

  lemma ShortMeans(a: char, b: char, c: char, d: char)
    requires IsHexChar(a) && IsHexChar(b) && IsHexChar(c) && IsHexChar(d)
    ensures IsLiteral(['#', a, b, c]) && IsLiteral(['#', a, b, c, d])
    ensures ColourOf(['#', a, b, c]) ==
      SRGBA(Byte(a, a) as real / 255.0, Byte(b, b) as real / 255.0, Byte(c, c) as real / 255.0, 1.0)
    ensures ColourOf(['#', a, b, c, d]) ==
      SRGBA(Byte(a, a) as real / 255.0, Byte(b, b) as real / 255.0, Byte(c, c) as real / 255.0, Byte(d, d) as real / 255.0)
  {
    var three, four := ['#', a, b, c], ['#', a, b, c, d];
    assert three[1..] == [a, b, c] && four[1..] == [a, b, c, d];
    assert IsHexLiteral(three) && IsHexLiteral(four);
    assert three != "transparent" && four != "transparent" by { assert "transparent"[0] == 't'; }
  }

  // ----------------------------------------------------------------- reading values back

  /** The text up to the first of a character, or all of it. */
  function Before(text: string, stop: set<char>): (word: string)
    ensures |word| <= |text| && text[..|word|] == word
    ensures forall i :: 0 <= i < |word| ==> word[i] !in stop
    ensures |word| < |text| ==> text[|word|] in stop
  {
    if text == "" || text[0] in stop then "" else [text[0]] + Before(text[1..], stop)
  }

  predicate Leads(text: string, prefix: string) {
    |prefix| <= |text| && text[..|prefix|] == prefix
  }

  const MIX := "color-mix(in srgb, "

  /** A space, the text before a percent sign, and what follows `%, `. */
  function ReadAmount(text: string): (r: Option<(string, string)>)
    ensures r.Some? ==> |r.value.1| < |text|
  {
    if !Leads(text, " ") then None else
    var amount := Before(text[1..], {'%'});
    var after := text[1 + |amount|..];
    if Leads(after, "%, ") then Some((amount, after[3..])) else None
  }

  /** The colour value a text starts with, and what follows it: a reference in `var()`,
      a mix whose first operand carries the percentage, or a literal, which runs to the
      next space or closing bracket. */
  function ReadValue(text: string, parse: string -> Option<real>): (r: Option<(Expr, string)>)
    ensures r.Some? ==> |r.value.1| < |text|
    decreases |text|
  {
    if Leads(text, "var(") then
      var name := Before(text[4..], {')'});
      if 4 + |name| == |text| then None else Some((Reference(name), text[4 + |name| + 1..]))
    else if Leads(text, MIX) then
      var first := ReadValue(text[|MIX|..], parse);
      if first.None? then None else
      var amount := ReadAmount(first.value.1);
      if amount.None? then None else
      var second := ReadValue(amount.value.1, parse);
      if second.None? || !Leads(second.value.1, ")") || parse(amount.value.0).None? then None
      else Some((Blend(first.value.0, parse(amount.value.0).value, second.value.0), second.value.1[1..]))
    else
      var word := Before(text, {' ', ')'});
      if word == "" then None else Some((Literal(word), text[|word|..]))
  }

  /** The percentages of an expression are written so that they can be read back, none of
      them with a percent sign of its own. */
  predicate Legible(e: Expr, number: real -> string, parse: string -> Option<real>) {
    e.Blend? ==>
      && '%' !in number(e.percent) && parse(number(e.percent)) == Some(e.percent)
      && Legible(e.first, number, parse) && Legible(e.second, number, parse)
  }

  predicate WellFormed(e: Expr) {
    match e
    case Literal(text) => IsLiteral(text)
    case Reference(name) => IsColorName(name)
    case Blend(a, _, b) => WellFormed(a) && WellFormed(b)
  }

  lemma {:induction false} UnfoldedIsWellFormed(h: Mixes, v: ColorValue, e: Expr)
    requires Unfolds(h, v, e)
    ensures WellFormed(e)
    decreases e
  {
    if e.Blend? {
      UnfoldedIsWellFormed(h, h[v.mix.value].first, e.first);
      UnfoldedIsWellFormed(h, h[v.mix.value].second, e.second);
    }
  }

  lemma {:induction false} BeforeStops(word: string, rest: string, stop: set<char>)
    requires forall i :: 0 <= i < |word| ==> word[i] !in stop
    requires rest == "" || rest[0] in stop
    ensures Before(word + rest, stop) == word
  {
    if word == "" {
      assert word + rest == rest;
    } else {
      assert (word + rest)[0] == word[0] && (word + rest)[1..] == word[1..] + rest;
      BeforeStops(word[1..], rest, stop);
    }
  }

  lemma LiteralHasNoStop(text: string, i: nat)
    requires IsLiteral(text) && i < |text|
    ensures text[i] !in {' ', ')'} && text[0] in {'#', 't'}
  {
    if text != "transparent" && i > 0 { assert IsHexChar(text[1..][i - 1]); }
  }

  /** What follows a printed value where one ends. */
  predicate Ends(rest: string) { rest == "" || rest[0] in {' ', ')'} }

  lemma LiteralReads(text: string, rest: string, parse: string -> Option<real>)
    requires IsLiteral(text) && Ends(rest)
    ensures ReadValue(text + rest, parse) == Some((Literal(text), rest))
  {
    forall i | 0 <= i < |text| ensures text[i] !in {' ', ')'} { LiteralHasNoStop(text, i); }
    BeforeStops(text, rest, {' ', ')'});
    LiteralHasNoStop(text, 0);
    assert (text + rest)[0] == text[0];
    assert !Leads(text + rest, "var(") by { assert "var("[0] == 'v'; }
    assert !Leads(text + rest, MIX) by { assert MIX[0] == 'c'; }
    assert (text + rest)[|text|..] == rest;
  }

  lemma ReferenceReads(name: string, rest: string, parse: string -> Option<real>)
    requires IsColorName(name)
    ensures ReadValue("var(" + name + ")" + rest, parse) == Some((Reference(name), rest))
  {
    var text, tail := "var(" + name + ")" + rest, ")" + rest;
    assert text[4..] == name + tail;
    forall i | 0 <= i < |name| ensures name[i] !in {')'} { assert i < 2 || IsNameChar(name[i]); }
    BeforeStops(name, tail, {')'});
    assert text[..4] == "var(";
    assert text[4 + |name| + 1..] == rest;
  }

  lemma AmountReads(amount: string, t3: string)
    requires '%' !in amount
    ensures ReadAmount(" " + amount + "%, " + t3) == Some((amount, t3))
  {
    var text, after := " " + amount + "%, " + t3, "%, " + t3;
    assert text[1..] == amount + after;
    BeforeStops(amount, after, {'%'});
    assert text[1 + |amount|..] == after;
    assert after[3..] == t3 && after[..3] == "%, ";
    assert text[..1] == " ";
  }

  lemma MixLeads(inner: string)
    ensures Leads(MIX + inner, MIX) && (MIX + inner)[|MIX|..] == inner && !Leads(MIX + inner, "var(")
  {
    assert (MIX + inner)[0] == 'c';
  }

  /** The pieces of a printed mix, one read after the other. */
  lemma MixReads(inner: string, e: Expr, amount: string, rest: string, t1: string, t3: string, parse: string -> Option<real>)
    requires e.Blend?
    requires ReadValue(inner, parse) == Some((e.first, t1)) && ReadAmount(t1) == Some((amount, t3))
    requires parse(amount) == Some(e.percent) && ReadValue(t3, parse) == Some((e.second, ")" + rest))
    ensures ReadValue(MIX + inner, parse) == Some((e, rest))
  {
    MixLeads(inner);
    assert Leads(")" + rest, ")") && (")" + rest)[1..] == rest;
  }

  lemma MixPrinted(a: string, amount: string, b: string, rest: string)
    ensures "color-mix(in srgb, " + a + " " + amount + "%, " + b + ")" + rest ==
            MIX + (a + (" " + amount + "%, " + (b + (")" + rest))))
  {
  }

  /** A printed value reads back as the expression it prints. */
  lemma {:induction false} PrintedReadsBack(e: Expr, number: real -> string, parse: string -> Option<real>, rest: string)
    requires WellFormed(e) && Legible(e, number, parse) && Ends(rest)
    ensures ReadValue(Rendered(e, number) + rest, parse) == Some((e, rest))
    decreases e
  {
    match e
    case Literal(text) => LiteralReads(text, rest, parse);
    case Reference(name) => ReferenceReads(name, rest, parse);
    case Blend(a, p, b) =>
      var t3 := Rendered(b, number) + (")" + rest);
      var t1 := " " + number(p) + "%, " + t3;
      PrintedReadsBack(a, number, parse, t1);
      PrintedReadsBack(b, number, parse, ")" + rest);
      AmountReads(number(p), t3);
      MixReads(Rendered(a, number) + t1, e, number(p), rest, t1, t3, parse);
      MixPrinted(Rendered(a, number), number(p), Rendered(b, number), rest);
  }

  /** What the public rendering prints of a value is read back as the value's own
      expression, so two values that print alike are the same expression. */
  lemma PrintIsFaithful(h: Mixes, v: ColorValue, e: Expr, k: Mixes, w: ColorValue, f: Expr, number: real -> string, parse: string -> Option<real>)
    requires Unfolds(h, v, e) && Unfolds(k, w, f) && Legible(e, number, parse) && Legible(f, number, parse)
    ensures ReadValue(Rendered(e, number), parse) == Some((e, ""))
    ensures Rendered(e, number) == Rendered(f, number) ==> e == f
  {
    UnfoldedIsWellFormed(h, v, e);
    UnfoldedIsWellFormed(k, w, f);
    PrintedReadsBack(e, number, parse, "");
    PrintedReadsBack(f, number, parse, "");
    assert Rendered(e, number) + "" == Rendered(e, number) && Rendered(f, number) + "" == Rendered(f, number);
  }
}
