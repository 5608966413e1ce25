/** A CSS font stack read into typed families: quoted names are literal, unquoted ones are
    identifiers or the generic keywords of CSS Fonts Module Level 4. */
module FontStacks {
  import opened Options

  datatype FontFamily = FontFamily(name: string, generic: bool)

  predicate IsWhite(c: char) { c == ' ' || c == '\t' || c == '\n' || c == '\r' || c == '\U{0C}' }

  predicate BreaksLine(c: char) { c == '\n' || c == '\r' || c == '\U{0C}' }

  const NUL: char := '\U{00}'

  /** The keywords a font stack knows: the generic families, and the words that name no
      family unless they are quoted. */
  datatype Keywords = Keywords(generics: seq<string>, contextual: seq<string>)

  const CSS_FONTS := Keywords(
    ["serif", "sans-serif", "monospace", "cursive", "fantasy", "system-ui", "ui-serif", "ui-sans-serif", "ui-monospace",
     "ui-rounded", "math"],
    ["inherit", "initial", "unset", "revert", "revert-layer", "default", "caption", "icon", "menu", "message-box",
     "small-caption", "status-bar", "emoji", "fangsong"])

  /** ASCII case folding, one character at a time. */
  function KeywordChar(c: char): char { if 'A' <= c <= 'Z' then 'a' + (c - 'A') else c }

  function Keyword(name: string): (k: string)
    ensures |k| == |name| && forall i :: 0 <= i < |k| ==> k[i] == KeywordChar(name[i])
  {
    seq(|name|, i requires 0 <= i < |name| => KeywordChar(name[i]))
  }

  predicate IsGeneric(kw: Keywords, name: string) { Keyword(name) in kw.generics }

  predicate IsContextual(kw: Keywords, name: string) { Keyword(name) in kw.contextual }

  predicate NoneIn(s: string, c: char) { forall i :: 0 <= i < |s| ==> s[i] != c }

  predicate OneLine(s: string) { forall i :: 0 <= i < |s| ==> !BreaksLine(s[i]) }

  /** A typed family means something: it has a name without line breaks or NUL, and a
      generic one is a keyword in its canonical case. */
  predicate FamilyValid(kw: Keywords, f: FontFamily) {
    && f.name != "" && OneLine(f.name) && NoneIn(f.name, NUL)
    && (f.generic ==> IsGeneric(kw, f.name) && Keyword(f.name) == f.name)
  }

  // ------------------------------------------------------------------------- cutting

  function TrimLeft(s: string): (r: string)
    ensures |r| <= |s| && r == s[|s| - |r|..]
    ensures r != "" ==> !IsWhite(r[0])
  {
    if s != "" && IsWhite(s[0]) then TrimLeft(s[1..]) else s
  }

  function TrimRight(s: string): (r: string)
    ensures |r| <= |s| && r == s[..|r|]
    ensures r != "" ==> !IsWhite(r[|r| - 1])
  {
    if s != "" && IsWhite(s[|s| - 1]) then TrimRight(s[..|s| - 1]) else s
  }

  function Trim(s: string): (r: string)
    ensures |r| <= |s|
  {
    TrimRight(TrimLeft(s))
  }

  /** Where the character first stands, or the length when it does not. */
  function IndexOf(s: string, c: char): (k: nat)
    ensures k <= |s| && (k < |s| ==> s[k] == c)
    ensures forall i :: 0 <= i < k ==> s[i] != c
  {
    if s == "" || s[0] == c then 0 else 1 + IndexOf(s[1..], c)
  }

  function WhiteAt(s: string): (k: nat)
    ensures k <= |s| && (k < |s| ==> IsWhite(s[k]))
    ensures s != "" && !IsWhite(s[0]) ==> k > 0
    ensures forall i :: 0 <= i < k ==> !IsWhite(s[i])
  {
    if s == "" || IsWhite(s[0]) then 0 else 1 + WhiteAt(s[1..])
  }

  /** The words between the white space. */
  function Words(s: string): seq<string>
    decreases |s|
  {
    var t := TrimLeft(s);
    if t == "" then [] else [t[..WhiteAt(t)]] + Words(t[WhiteAt(t)..])
  }

  function Joined(ws: seq<string>): string
    requires ws != []
  {
    if |ws| == 1 then ws[0] else ws[0] + " " + Joined(ws[1..])
  }

  // --------------------------------------------------------------------- one family

  predicate IsStart(c: char) { 'a' <= c <= 'z' || 'A' <= c <= 'Z' || c == '_' || c as int >= 0x80 }

  predicate IsIdentChar(c: char) { IsStart(c) || '0' <= c <= '9' || c == '-' }

  predicate IsIdentifier(w: string) {
    && w != ""
    && (IsStart(w[0]) || (|w| >= 2 && w[0] == '-' && (w[1] == '-' || IsStart(w[1]))))
    && forall i :: 0 <= i < |w| ==> IsIdentChar(w[i])
  }

  /** A word of an unquoted name: an identifier, generic only when it stands alone, and
      none of the keywords that must be quoted. */
  predicate WordOk(kw: Keywords, word: string, alone: bool) {
    IsIdentifier(word) && !(IsGeneric(kw, word) && !alone) && !IsContextual(kw, word)
  }

  predicate WordsOk(kw: Keywords, ws: seq<string>) {
    ws != [] && forall i :: 0 <= i < |ws| ==> WordOk(kw, ws[i], |ws| == 1)
  }

  predicate IsQuote(c: char) { c == '\'' || c == '"' }

  function Unquoted(kw: Keywords, ws: seq<string>): FontFamily
    requires ws != []
  {
    var name := Joined(ws);
    if IsGeneric(kw, name) then FontFamily(Keyword(name), true) else FontFamily(name, false)
  }

  /** A quoted family, from inside its opening quote, and what is left after it. */
  function QuotedAt(body: string, quote: char): (r: Option<(FontFamily, string)>)
    ensures r.Some? ==> |r.value.1| < |body|
  {
    var k := IndexOf(body, quote);
    var name := body[..k];
    if k == |body| || name == "" || !OneLine(name) then None
    else Some((FontFamily(name, false), Trim(body[k + 1..])))
  }

  /** An unquoted family, up to the comma or the end, and what is left from there. */
  function UnquotedAt(kw: Keywords, v: string): (r: Option<(FontFamily, string)>)
    ensures r.Some? ==> |r.value.1| < |v|
  {
    var k := IndexOf(v, ',');
    var ws := Words(v[..k]);
    if WordsOk(kw, ws) then Some((Unquoted(kw, ws), v[k..])) else None
  }

  /** The family at the front of a trimmed value, and what is left after it. */
  function FamilyAt(kw: Keywords, v: string): (r: Option<(FontFamily, string)>)
    requires v != ""
    ensures r.Some? ==> |r.value.1| < |v|
  {
    if IsQuote(v[0]) then QuotedAt(v[1..], v[0]) else UnquotedAt(kw, v)
  }

  /** The families of a value, after what was read before. */
  function FamiliesFrom(kw: Keywords, value: string, out: seq<FontFamily>): Option<seq<FontFamily>>
    decreases |value|
  {
    var v := Trim(value);
    if v == "" || FamilyAt(kw, v).None? then None
    else
      var (family, rest) := FamilyAt(kw, v).value;
      if rest == "" then Some(out + [family])
      else if rest[0] != ',' then None
      else FamiliesFrom(kw, rest[1..], out + [family])
  }

  predicate Unescaped(s: string) { NoneIn(s, '\\') && NoneIn(s, NUL) }

  function Families(kw: Keywords, value: string): Option<seq<FontFamily>> {
    if Unescaped(value) then FamiliesFrom(kw, value, []) else None
  }

  method CheckWords(kw: Keywords, ws: seq<string>) returns (ok: bool)
    ensures ok <==> WordsOk(kw, ws)
  {
    if |ws| == 0 {
      return false;
    }
    for i := 0 to |ws|
      invariant forall j :: 0 <= j < i ==> WordOk(kw, ws[j], |ws| == 1)
    {
      var word := ws[i];
      if !IsIdentifier(word) {
        return false;
      }
      if (IsGeneric(kw, word) && |ws| != 1) || IsContextual(kw, word) {
        return false;
      }
    }
    return true;
  }

  method CutQuoted(body: string, quote: char) returns (r: Option<(FontFamily, string)>)
    ensures r == QuotedAt(body, quote)
  {
    var k := IndexOf(body, quote);
    var name := body[..k];
    if k == |body| || name == "" || !OneLine(name) {
      return None;
    }
    r := Some((FontFamily(name, false), Trim(body[k + 1..])));
  }

  method CutUnquoted(kw: Keywords, v: string) returns (r: Option<(FontFamily, string)>)
    ensures r == UnquotedAt(kw, v)
  {
    var k := IndexOf(v, ',');
    var ws := Words(v[..k]);
    var ok := CheckWords(kw, ws);
    r := if ok then Some((Unquoted(kw, ws), v[k..])) else None;
  }

  /** Cuts families off the front until nothing is left, or refuses the whole value. */
  method ParseFontFamilies(kw: Keywords, text: string) returns (out: Option<seq<FontFamily>>)
    ensures out == Families(kw, text)
  {
    if !Unescaped(text) {
      return None;
    }
    var value, families := text, [];
    while true
      invariant FamiliesFrom(kw, value, families) == FamiliesFrom(kw, text, [])
      decreases |value|
    {
      var v := Trim(value);
      if v == "" {
        return None;
      }
      var cut;
      if IsQuote(v[0]) {
        cut := CutQuoted(v[1..], v[0]);
      } else {
        cut := CutUnquoted(kw, v);
      }
      if cut.None? {
        return None;
      }
      var (family, rest) := cut.value;
      families := families + [family];
      if rest == "" {
        return Some(families);
      }
      if rest[0] != ',' {
        return None;
      }
      value := rest[1..];
    }
  }

  // -------------------------------------------------------------- what is returned

  /** A family that can be written down again: free of escapes, and not holding both
      quotes. */
  predicate Printable(f: FontFamily) {
    Unescaped(f.name) && (NoneIn(f.name, '"') || NoneIn(f.name, '\''))
  }

  predicate AllGood(kw: Keywords, fs: seq<FontFamily>) {
    forall i :: 0 <= i < |fs| ==> FamilyValid(kw, fs[i]) && Printable(fs[i])
  }

  /** A character of a name read from words. */
  predicate IsNameChar(c: char) { IsIdentChar(c) || c == ' ' }

  predicate AllNameChars(s: string) { forall i :: 0 <= i < |s| ==> IsNameChar(s[i]) }

  lemma {:induction false} JoinedIsName(ws: seq<string>)
    requires ws != [] && forall i :: 0 <= i < |ws| ==> IsIdentifier(ws[i])
    ensures Joined(ws) != "" && AllNameChars(Joined(ws))
    decreases |ws|
  {
    if |ws| > 1 { JoinedIsName(ws[1..]); }
  }

  lemma NameCharsAreTame(kw: Keywords, s: string)
    requires s != "" && AllNameChars(s)
    ensures FamilyValid(kw, FontFamily(s, false)) && Printable(FontFamily(s, false))
    ensures IsGeneric(kw, s) ==> FamilyValid(kw, FontFamily(Keyword(s), true)) && Printable(FontFamily(Keyword(s), true))
  {
    assert Keyword(Keyword(s)) == Keyword(s);
  }

  lemma TrimKeeps(s: string)
    requires Unescaped(s)
    ensures Unescaped(Trim(s))
  {
    var left := TrimLeft(s);
    forall i | 0 <= i < |left| ensures left[i] != '\\' && left[i] != NUL { assert left[i] == s[|s| - |left| + i]; }
    forall i | 0 <= i < |Trim(s)| ensures Trim(s)[i] != '\\' && Trim(s)[i] != NUL { assert Trim(s)[i] == left[i]; }
  }

  predicate CutGood(kw: Keywords, cut: (FontFamily, string)) {
    FamilyValid(kw, cut.0) && Printable(cut.0) && Unescaped(cut.1)
  }

  lemma TailUnescaped(v: string)
    requires v != "" && Unescaped(v)
    ensures Unescaped(v[1..])
  {
  }

  lemma QuotedGood(kw: Keywords, body: string, quote: char)
    requires IsQuote(quote) && Unescaped(body) && QuotedAt(body, quote).Some?
    ensures CutGood(kw, QuotedAt(body, quote).value)
  {
    var k := QuotedIs(body, quote);
    Parts(body, quote, k);
    PartsGood(kw, body[..k], body[k + 1..], quote);
  }

  lemma QuotedIs(body: string, quote: char) returns (k: nat)
    requires QuotedAt(body, quote).Some?
    ensures k < |body| && body[..k] != "" && OneLine(body[..k]) && forall i :: 0 <= i < k ==> body[i] != quote
    ensures QuotedAt(body, quote).value == (FontFamily(body[..k], false), Trim(body[k + 1..]))
  {
    k := IndexOf(body, quote);
  }

  lemma PartsGood(kw: Keywords, name: string, rest: string, quote: char)
    requires IsQuote(quote) && name != "" && OneLine(name) && NoneIn(name, quote) && Unescaped(name) && Unescaped(rest)
    ensures CutGood(kw, (FontFamily(name, false), Trim(rest)))
  {
    TrimKeeps(rest);
    CutName(kw, name, quote);
  }

  lemma Parts(body: string, quote: char, k: nat)
    requires Unescaped(body) && k < |body| && forall i :: 0 <= i < k ==> body[i] != quote
    ensures NoneIn(body[..k], quote) && Unescaped(body[..k]) && Unescaped(body[k + 1..])
  {
  }

  lemma CutName(kw: Keywords, name: string, quote: char)
    requires IsQuote(quote) && name != "" && OneLine(name) && NoneIn(name, quote) && Unescaped(name)
    ensures FamilyValid(kw, FontFamily(name, false)) && Printable(FontFamily(name, false))
  {
  }

  lemma UnquotedGood(kw: Keywords, v: string)
    requires Unescaped(v) && UnquotedAt(kw, v).Some?
    ensures CutGood(kw, UnquotedAt(kw, v).value)
  {
    var ws := Words(v[..IndexOf(v, ',')]);
    JoinedIsName(ws);
    NameCharsAreTame(kw, Joined(ws));
  }

  lemma FamilyGood(kw: Keywords, v: string)
    requires v != "" && Unescaped(v) && FamilyAt(kw, v).Some?
    ensures CutGood(kw, FamilyAt(kw, v).value)
  {
    if IsQuote(v[0]) {
      TailUnescaped(v);
      QuotedGood(kw, v[1..], v[0]);
    } else {
      UnquotedGood(kw, v);
    }
  }

  lemma OneMoreGood(kw: Keywords, fs: seq<FontFamily>, f: FontFamily)
    requires AllGood(kw, fs) && FamilyValid(kw, f) && Printable(f)
    ensures AllGood(kw, fs + [f])
  {
  }

  /** Every family returned is valid and can be written down again. */
  lemma {:induction false} ReadGood(kw: Keywords, value: string, out: seq<FontFamily>)
    requires Unescaped(value) && AllGood(kw, out) && FamiliesFrom(kw, value, out).Some?
    ensures AllGood(kw, FamiliesFrom(kw, value, out).value) && FamiliesFrom(kw, value, out).value != []
    decreases |value|
  {
    var v := Trim(value);
    TrimKeeps(value);
    var (family, rest) := FamilyAt(kw, v).value;
    FamilyGood(kw, v);
    OneMoreGood(kw, out, family);
    if rest != "" { ReadGood(kw, rest[1..], out + [family]); }
  }

  lemma ParsedFamiliesAreValid(kw: Keywords, value: string)
    requires Families(kw, value).Some?
    ensures AllGood(kw, Families(kw, value).value) && Families(kw, value).value != []
  {
    ReadGood(kw, value, []);
  }
}
