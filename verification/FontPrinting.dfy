/** Writing a list of families down again: generic names bare, literal names in a quote
    they do not hold.  Reading what was written gives the same list. */
module FontPrinting {
  import opened Options
  import opened FontStacks

  function QuoteFor(name: string): char { if NoneIn(name, '"') then '"' else '\'' }

  function PrintFamily(f: FontFamily): string {
    if f.generic then f.name else [QuoteFor(f.name)] + f.name + [QuoteFor(f.name)]
  }

  function Print(fs: seq<FontFamily>): string
    requires fs != []
    decreases |fs|, 0
  {
    PrintFamily(fs[0]) + PrintRest(fs[1..])
  }

  function PrintRest(fs: seq<FontFamily>): string
    decreases |fs|, 1
  {
    if fs == [] then "" else ", " + Print(fs)
  }

  /** Every generic keyword is a lower-case identifier and none of the others. */
  predicate KeywordsOk(kw: Keywords) {
    forall g :: g in kw.generics ==> Keyword(g) == g && IsIdentifier(g) && g !in kw.contextual
  }

  // ---------------------------------------------------------------- cutting what is written

  lemma {:induction false} FirstAt(s: string, c: char, k: nat)
    requires k <= |s| && (k < |s| ==> s[k] == c) && forall i :: 0 <= i < k ==> s[i] != c
    ensures IndexOf(s, c) == k
    decreases k
  {
    if k > 0 { FirstAt(s[1..], c, k - 1); }
  }

  lemma {:induction false} NoWhiteAt(s: string)
    requires forall i :: 0 <= i < |s| ==> !IsWhite(s[i])
    ensures WhiteAt(s) == |s|
    decreases |s|
  {
    if s != "" { NoWhiteAt(s[1..]); }
  }

  lemma OneWord(name: string)
    requires IsIdentifier(name)
    ensures Words(name) == [name]
  {
    NoWhiteAt(name);
    assert TrimLeft(name) == name;
    assert name[..|name|] == name && name[|name|..] == "";
  }

  /** Text that starts and ends with something is its own trimming, with or without a
      space in front. */
  lemma Untrimmed(s: string)
    requires s != "" && !IsWhite(s[0]) && !IsWhite(s[|s| - 1])
    ensures Trim(s) == s && Trim(" " + s) == s
  {
    assert (" " + s)[1..] == s;
  }

  /** A printed family begins and ends with something. */
  lemma PrintedEnds(kw: Keywords, f: FontFamily)
    requires KeywordsOk(kw) && FamilyValid(kw, f)
    ensures PrintFamily(f) != "" && !IsWhite(PrintFamily(f)[0]) && !IsWhite(PrintFamily(f)[|PrintFamily(f)| - 1])
  {
    if f.generic { assert IsIdentifier(f.name); }
  }

  lemma {:induction false} ListEnds(kw: Keywords, fs: seq<FontFamily>)
    requires KeywordsOk(kw) && fs != [] && AllGood(kw, fs)
    ensures Print(fs) != "" && !IsWhite(Print(fs)[0]) && !IsWhite(Print(fs)[|Print(fs)| - 1])
    decreases |fs|
  {
    PrintedEnds(kw, fs[0]);
    if |fs| > 1 { ListEnds(kw, fs[1..]); }
  }

  lemma RestTrimmed(kw: Keywords, fs: seq<FontFamily>)
    requires KeywordsOk(kw) && AllGood(kw, fs)
    ensures Trim(PrintRest(fs)) == PrintRest(fs)
  {
    if fs == [] {
      assert PrintRest(fs) == "" && Trim("") == "";
    } else {
      ListEnds(kw, fs);
      RestIs(fs);
      AfterComma(Print(fs));
    }
  }

  lemma RestIs(fs: seq<FontFamily>)
    requires fs != []
    ensures PrintRest(fs) == ", " + Print(fs)
  {
  }

  lemma AfterComma(s: string)
    requires s != "" && !IsWhite(s[|s| - 1])
    ensures Trim(", " + s) == ", " + s
  {
    Untrimmed(", " + s);
  }

  lemma Around(name: string, q: char, rest: string)
    ensures var body := name + [q] + rest;
            |body| > |name| && body[|name|] == q && body[..|name|] == name && body[|name| + 1..] == rest
    ensures forall i :: 0 <= i < |name| ==> (name + [q] + rest)[i] == name[i]
  {
  }

  /** A literal family is cut off whole. */
  lemma LiteralReads(name: string, q: char, rest: string)
    requires name != "" && OneLine(name) && NoneIn(name, q) && Trim(rest) == rest
    ensures QuotedAt(name + [q] + rest, q) == Some((FontFamily(name, false), rest))
  {
    Around(name, q, rest);
    FirstAt(name + [q] + rest, q, |name|);
  }

  lemma Before(name: string, rest: string)
    ensures var v := name + rest; v[..|name|] == name && v[|name|..] == rest
    ensures forall i :: 0 <= i < |name| ==> (name + rest)[i] == name[i]
  {
  }

  /** A generic family is cut off whole. */
  lemma GenericReads(kw: Keywords, name: string, rest: string)
    requires IsIdentifier(name) && Keyword(name) == name && name in kw.generics && name !in kw.contextual
    requires rest == "" || rest[0] == ','
    ensures UnquotedAt(kw, name + rest) == Some((FontFamily(name, true), rest))
  {
    Before(name, rest);
    FirstAt(name + rest, ',', |name|);
    OneWord(name);
    assert WordOk(kw, name, true);
    assert Joined([name]) == name;
    assert WordsOk(kw, [name]);
  }

  lemma BareReads(kw: Keywords, name: string, rest: string)
    requires KeywordsOk(kw) && Keyword(name) == name && name in kw.generics && (rest == "" || rest[0] == ',')
    ensures name + rest != "" && FamilyAt(kw, name + rest) == Some((FontFamily(name, true), rest))
  {
    assert IsIdentifier(name);
    assert (name + rest)[0] == name[0] && !IsQuote(name[0]);
    GenericReads(kw, name, rest);
  }

  lemma InQuotes(q: char, name: string, rest: string)
    ensures var v := ([q] + name + [q]) + rest; v[0] == q && v[1..] == name + [q] + rest
  {
  }

  lemma InQuotesReads(kw: Keywords, name: string, q: char, rest: string)
    requires name != "" && OneLine(name) && NoneIn(name, q) && IsQuote(q) && Trim(rest) == rest
    ensures FamilyAt(kw, ([q] + name + [q]) + rest) == Some((FontFamily(name, false), rest))
  {
    InQuotes(q, name, rest);
    LiteralReads(name, q, rest);
  }

  predicate StartsRest(rest: string) { rest == "" || rest[0] == ',' }

  lemma LiteralFamilyReads(kw: Keywords, f: FontFamily, rest: string)
    requires FamilyValid(kw, f) && Printable(f) && !f.generic && Trim(rest) == rest
    ensures PrintFamily(f) != "" && FamilyAt(kw, PrintFamily(f) + rest) == Some((f, rest))
  {
    InQuotesReads(kw, f.name, QuoteFor(f.name), rest);
  }

  lemma FamilyReads(kw: Keywords, f: FontFamily, rest: string)
    requires KeywordsOk(kw) && FamilyValid(kw, f) && Printable(f) && Trim(rest) == rest && StartsRest(rest)
    ensures PrintFamily(f) != "" && FamilyAt(kw, PrintFamily(f) + rest) == Some((f, rest))
  {
    if f.generic { BareReads(kw, f.name, rest); } else { LiteralFamilyReads(kw, f, rest); }
  }

  // ----------------------------------------------------------------------- round trip

  /** What a trimmed value reads as, one family in. */
  lemma OneFamilyIn(kw: Keywords, value: string, f: FontFamily, rest: string, out: seq<FontFamily>)
    requires Trim(value) != "" && FamilyAt(kw, Trim(value)) == Some((f, rest)) && (rest == "" || rest[0] == ',')
    ensures FamiliesFrom(kw, value, out) ==
            if rest == "" then Some(out + [f]) else FamiliesFrom(kw, rest[1..], out + [f])
  {
  }

  lemma TailGood(kw: Keywords, fs: seq<FontFamily>)
    requires fs != [] && AllGood(kw, fs)
    ensures FamilyValid(kw, fs[0]) && Printable(fs[0]) && AllGood(kw, fs[1..])
  {
  }

  /** The first family of a printed list is cut off whole, and what is left is the rest of
      the list. */
  lemma HeadReads(kw: Keywords, fs: seq<FontFamily>)
    requires KeywordsOk(kw) && fs != [] && AllGood(kw, fs)
    ensures Print(fs) != "" && FamilyAt(kw, Print(fs)) == Some((fs[0], PrintRest(fs[1..])))
  {
    TailGood(kw, fs);
    RestTrimmed(kw, fs[1..]);
    FamilyReads(kw, fs[0], PrintRest(fs[1..]));
  }

  lemma TailTrims(kw: Keywords, fs: seq<FontFamily>)
    requires KeywordsOk(kw) && fs != [] && AllGood(kw, fs)
    ensures Trim(Print(fs)) == Print(fs) && PrintRest(fs) != "" && PrintRest(fs)[0] == ','
    ensures Trim(PrintRest(fs)[1..]) == Print(fs)
  {
    ListEnds(kw, fs);
    Untrimmed(Print(fs));
    CommaSpace(Print(fs));
  }

  lemma CommaSpace(s: string)
    ensures (", " + s)[0] == ',' && (", " + s)[1..] == " " + s
  {
  }

  lemma ListsJoin<T>(a: seq<T>, b: seq<T>)
    requires b != []
    ensures (a + [b[0]]) + b[1..] == a + b
    ensures b[1..] == [] ==> a + [b[0]] == a + b
  {
  }

  /** A printed list reads back as itself, after whatever was read before. */
  lemma {:induction false} PrintedReads(kw: Keywords, fs: seq<FontFamily>, value: string, out: seq<FontFamily>)
    requires KeywordsOk(kw) && fs != [] && AllGood(kw, fs) && Trim(value) == Print(fs)
    ensures FamiliesFrom(kw, value, out) == Some(out + fs)
    decreases |fs|
  {
    HeadReads(kw, fs);
    TailGood(kw, fs);
    ListsJoin(out, fs);
    if fs[1..] != [] {
      TailTrims(kw, fs[1..]);
      PrintedReads(kw, fs[1..], PrintRest(fs[1..])[1..], out + [fs[0]]);
    }
    OneFamilyIn(kw, value, fs[0], PrintRest(fs[1..]), out);
  }

  lemma {:induction false} PrintedUnescaped(kw: Keywords, fs: seq<FontFamily>)
    requires fs != [] && AllGood(kw, fs)
    ensures Unescaped(Print(fs))
    decreases |fs|
  {
    if |fs| > 1 { PrintedUnescaped(kw, fs[1..]); }
  }

  lemma PrintedAlone(kw: Keywords, fs: seq<FontFamily>)
    requires KeywordsOk(kw) && fs != [] && AllGood(kw, fs)
    ensures FamiliesFrom(kw, Print(fs), []) == Some(fs)
  {
    TailTrims(kw, fs);
    PrintedReads(kw, fs, Print(fs), []);
    NothingInFront(fs);
  }

  lemma NothingInFront<T>(s: seq<T>)
    ensures [] + s == s
  {
  }

  /** Writing a list of families and reading it gives the same list. */
  lemma PrintThenParse(kw: Keywords, fs: seq<FontFamily>)
    requires KeywordsOk(kw) && fs != [] && AllGood(kw, fs)
    ensures Families(kw, Print(fs)) == Some(fs)
  {
    PrintedUnescaped(kw, fs);
    PrintedAlone(kw, fs);
  }

  /** So whatever is read once is read again the same from its canonical form. */
  lemma CanonicalForm(kw: Keywords, value: string)
    requires KeywordsOk(kw) && Families(kw, value).Some?
    ensures Families(kw, value).value != []
    ensures Families(kw, Print(Families(kw, value).value)) == Families(kw, value)
  {
    ParsedFamiliesAreValid(kw, value);
    PrintThenParse(kw, Families(kw, value).value);
  }

  /** Lower-case letters and hyphens, a letter first. */
  predicate LowerWord(s: string) {
    s != "" && 'a' <= s[0] <= 'z' && forall i :: 0 <= i < |s| ==> 'a' <= s[i] <= 'z' || s[i] == '-'
  }

  lemma LowerWordIsKeyword(s: string)
    requires LowerWord(s)
    ensures Keyword(s) == s && IsIdentifier(s)
  {
  }

  /** How each contextual keyword begins: its length and first letters. */
  predicate BeginsContextual(s: string) {
    |s| >= 2 &&
    match s[0]
    case 'i' => |s| == 7 || |s| == 4
    case 'u' => |s| == 5
    case 'r' => |s| == 6 || |s| == 12
    case 'd' => |s| == 7
    case 'c' => |s| == 7 && s[1] == 'a'
    case 'm' => |s| == 11 || (|s| == 4 && s[1] == 'e')
    case 's' => |s| == 13 || (|s| == 10 && s[1] == 't')
    case 'e' => |s| == 5
    case 'f' => |s| == 8
    case _ => false
  }

  lemma ContextualBegins(s: string)
    requires s in CSS_FONTS.contextual
    ensures BeginsContextual(s)
  {
  }

  predicate PlainGeneric(g: string) { LowerWord(g) && !BeginsContextual(g) }

  lemma TextGenerics()
    ensures PlainGeneric("serif") && PlainGeneric("sans-serif") && PlainGeneric("monospace")
    ensures PlainGeneric("cursive") && PlainGeneric("fantasy") && PlainGeneric("math")
  {
  }

  lemma InterfaceGenerics()
    ensures PlainGeneric("system-ui") && PlainGeneric("ui-serif") && PlainGeneric("ui-sans-serif")
    ensures PlainGeneric("ui-monospace") && PlainGeneric("ui-rounded")
  {
  }

  lemma AllPlain(g: string)
    requires g in CSS_FONTS.generics
    ensures PlainGeneric(g)
  {
    TextGenerics();
    InterfaceGenerics();
  }

  /** The keywords of CSS fonts are such a table. */
  lemma CssFontsOk()
    ensures KeywordsOk(CSS_FONTS)
  {
    forall g | g in CSS_FONTS.generics ensures Keyword(g) == g && IsIdentifier(g) && g !in CSS_FONTS.contextual {
      AllPlain(g);
      LowerWordIsKeyword(g);
      if g in CSS_FONTS.contextual { ContextualBegins(g); }
    }
  }
}
