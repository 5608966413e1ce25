/** Unquoted names as words: the words of a text are what stands between its white space,
    and the name read from them has the same words, one space apart. */
module FontWords {
  import opened Options
  import opened FontStacks

  /** A word: something, and no white space. */
  predicate IsWord(w: string) { w != "" && forall i :: 0 <= i < |w| ==> !IsWhite(w[i]) }

  // ------------------------------------------------------- what the words of a text are

  lemma WhiteBefore(c: char, s: string)
    requires IsWhite(c)
    ensures Words([c] + s) == Words(s)
  {
    assert ([c] + s)[1..] == s;
  }

  lemma {:induction false} WhiteAtAppend(a: string, c: char, b: string)
    requires IsWhite(c)
    ensures WhiteAt(a + [c] + b) == WhiteAt(a + [c]) == WhiteAt(a) <= |a|
  {
    if a == "" {
      assert (a + [c] + b)[0] == c && (a + [c])[0] == c;
    } else {
      assert (a + [c] + b)[1..] == a[1..] + [c] + b && (a + [c])[1..] == a[1..] + [c];
      WhiteAtAppend(a[1..], c, b);
    }
  }

  lemma CutInside(a: string, c: char, b: string, k: nat)
    requires k <= |a|
    ensures (a + [c] + b)[..k] == a[..k] && (a + [c] + b)[k..] == a[k..] + [c] + b
  {
  }

  lemma ListsChain<T>(x: T, a: seq<T>, b: seq<T>)
    ensures [x] + (a + b) == ([x] + a) + b
  {
  }

  /** A text that begins with a word, and the white space after it. */
  lemma WordThenParts(a: string, c: char, b: string, k: nat)
    requires IsWhite(c) && a != "" && !IsWhite(a[0]) && k == WhiteAt(a)
    requires Words(a[k..] + [c] + b) == Words(a[k..]) + Words(b)
    ensures Words(a + [c] + b) == Words(a) + Words(b)
  {
    WhiteAtAppend(a, c, b);
    CutInside(a, c, b, k);
    FirstWord(a);
    FirstWord(a + [c] + b);
    ListsChain(a[..k], Words(a[k..]), Words(b));
  }

  lemma Associates<T>(x: T, tail: seq<T>, c: T, b: seq<T>)
    ensures ([x] + tail) + [c] + b == [x] + (tail + [c] + b)
  {
  }

  lemma WhiteThenParts(x: char, tail: string, c: char, b: string)
    requires IsWhite(x) && Words(tail + [c] + b) == Words(tail) + Words(b)
    ensures Words(([x] + tail) + [c] + b) == Words([x] + tail) + Words(b)
  {
    Associates(x, tail, c, b);
    WhiteBefore(x, tail + [c] + b);
    WhiteBefore(x, tail);
  }

  lemma HeadAndTail<T>(s: seq<T>)
    requires s != []
    ensures s == [s[0]] + s[1..]
  {
  }

  lemma NothingFirst<T>(c: T, b: seq<T>)
    ensures [] + [c] + b == [c] + b && [] + b == b
  {
  }

  lemma NoWords()
    ensures Words("") == []
  {
  }

  lemma WhiteFirst(c: char, b: string)
    requires IsWhite(c)
    ensures Words([] + [c] + b) == Words([]) + Words(b)
  {
    NothingFirst(c, b);
    WhiteBefore(c, b);
    NoWords();
    NothingFirst("", Words(b));
  }

  /** White space parts a text: its words are those on the left and then those on the
      right. */
  lemma {:induction false} WhiteParts(a: string, c: char, b: string)
    requires IsWhite(c)
    ensures Words(a + [c] + b) == Words(a) + Words(b)
    decreases |a|
  {
    if a == "" {
      WhiteFirst(c, b);
    } else if IsWhite(a[0]) {
      WhiteParts(a[1..], c, b);
      WhiteThenParts(a[0], a[1..], c, b);
      HeadAndTail(a);
    } else {
      var k := WhiteAt(a);
      WhiteParts(a[k..], c, b);
      WordThenParts(a, c, b, k);
    }
  }

  lemma FirstWord(s: string)
    requires s != "" && !IsWhite(s[0])
    ensures Words(s) == [s[..WhiteAt(s)]] + Words(s[WhiteAt(s)..])
  {
    assert TrimLeft(s) == s;
  }

  /** A text without white space is one word, an empty one none. */
  lemma WordAlone(w: string)
    requires IsWord(w)
    ensures Words(w) == [w] && Words("") == []
  {
    NoWhite(w);
    FirstWord(w);
    assert w[..|w|] == w && w[|w|..] == "";
  }

  lemma {:induction false} NoWhite(w: string)
    requires forall i :: 0 <= i < |w| ==> !IsWhite(w[i])
    ensures WhiteAt(w) == |w|
  {
    if w != "" { NoWhite(w[1..]); }
  }

  const SMALL_LETTERS := "abcdefghijklmnopqrstuvwxyz"
  const CAPITALS := "ABCDEFGHIJKLMNOPQRSTUVWXYZ"

  /** Keywords are compared with each capital letter made small and nothing else changed. */
  lemma FoldedLetters(c: char)
    ensures 'A' <= c <= 'Z' ==> c == CAPITALS[c as int - 'A' as int] && KeywordChar(c) == SMALL_LETTERS[c as int - 'A' as int]
    ensures !('A' <= c <= 'Z') ==> KeywordChar(c) == c
  {
    if 'A' <= c <= 'M' {
      assert c in {'A', 'B', 'C', 'D', 'E', 'F', 'G', 'H', 'I', 'J', 'K', 'L', 'M'};
    } else if 'M' < c <= 'Z' {
      assert c in {'N', 'O', 'P', 'Q', 'R', 'S', 'T', 'U', 'V', 'W', 'X', 'Y', 'Z'};
    }
  }

  // --------------------------------------------------------------- the name read of them

  predicate AllWords(ws: seq<string>) { forall i :: 0 <= i < |ws| ==> IsWord(ws[i]) }

  /** How long the words are together. */
  function Length(ws: seq<string>): nat {
    if ws == [] then 0 else |ws[0]| + Length(ws[1..])
  }

  /** The name has these words, one character between each two. */
  predicate JoinsTo(ws: seq<string>, name: string) {
    && Words(name) == ws && |name| == Length(ws) + |ws| - 1
    && (|ws| > 1 ==> |ws[0]| < |name| && name[|ws[0]|] == ' ')
  }

  /** One more word in front. */
  lemma JoinedOneMore(w: string, rest: string, ws: seq<string>, name: string)
    requires IsWord(w) && ws != [] && Words(rest) == ws && |rest| == Length(ws) + |ws| - 1 && name == w + [' '] + rest
    ensures JoinsTo([w] + ws, name)
  {
    WhiteParts(w, ' ', rest);
    WordAlone(w);
    assert ([w] + ws)[1..] == ws;
  }

  lemma OneJoined(w: string)
    requires IsWord(w)
    ensures Joined([w]) == w && JoinsTo([w], w)
  {
    WordAlone(w);
    assert [w][1..] == [];
  }

  lemma JoinedIs(ws: seq<string>)
    requires |ws| > 1
    ensures Joined(ws) == ws[0] + [' '] + Joined(ws[1..]) && ws == [ws[0]] + ws[1..]
  {
  }

  /** Words joined have the same words, and one character between each two. */
  lemma {:induction false} JoinedHasTheWords(ws: seq<string>)
    requires ws != [] && AllWords(ws)
    ensures JoinsTo(ws, Joined(ws))
    decreases |ws|
  {
    if |ws| == 1 {
      assert ws == [ws[0]];
      OneJoined(ws[0]);
    } else {
      JoinedHasTheWords(ws[1..]);
      JoinedIs(ws);
      JoinedOneMore(ws[0], Joined(ws[1..]), ws[1..], Joined(ws));
    }
  }

  lemma IdentifierIsWord(w: string)
    requires IsIdentifier(w)
    ensures IsWord(w)
  {
    forall i | 0 <= i < |w| ensures !IsWhite(w[i]) { assert IsIdentChar(w[i]); }
  }

  lemma WordsOkAreWords(kw: Keywords, ws: seq<string>)
    requires WordsOk(kw, ws)
    ensures AllWords(ws)
  {
    forall i | 0 <= i < |ws| ensures IsWord(ws[i]) { IdentifierIsWord(ws[i]); }
  }

  /** Two or more words are never a generic name. */
  lemma SeveralAreLiteral(kw: Keywords, ws: seq<string>)
    requires |ws| > 1 && AllWords(ws) && forall g :: g in kw.generics ==> IsIdentifier(g)
    ensures !IsGeneric(kw, Joined(ws))
  {
    JoinedHasTheWords(ws);
    var name := Joined(ws);
    if IsGeneric(kw, name) { NoSpaceInside(Keyword(name), |ws[0]|); }
  }

  lemma NoSpaceInside(g: string, i: nat)
    requires IsIdentifier(g) && i < |g|
    ensures g[i] != ' '
  {
    assert IsIdentChar(g[i]);
  }

  /** An unquoted family, wherever it stands: it runs to the first comma or the end, a
      single generic word is that keyword in lower case, and any other name has the words
      that were written, one space apart. */
  lemma NameHasTheWords(kw: Keywords, v: string)
    requires UnquotedAt(kw, v).Some? && forall g :: g in kw.generics ==> IsIdentifier(g)
    ensures var (family, rest) := UnquotedAt(kw, v).value;
      && |rest| <= |v| && v[|v| - |rest|..] == rest && (rest == "" || rest[0] == ',') && ',' !in v[..|v| - |rest|]
      && var ws := Words(v[..|v| - |rest|]);
         ws != [] && NamedBy(kw, family, ws)
  {
    var k := IndexOf(v, ',');
    assert |v| - |v[k..]| == k && v[k..] == v[|v| - |v[k..]|..];
    NameIs(kw, Words(v[..k]));
  }

  /** The family a list of words names. */
  predicate NamedBy(kw: Keywords, family: FontFamily, ws: seq<string>) {
    if |ws| == 1 && IsGeneric(kw, ws[0]) then family == FontFamily(Keyword(ws[0]), true)
    else !family.generic && Words(family.name) == ws && |family.name| == Length(ws) + |ws| - 1 && AllNameChars(family.name)
  }

  lemma OneWordNames(kw: Keywords, w: string)
    requires IsWord(w) && IsIdentifier(w)
    ensures NamedBy(kw, Unquoted(kw, [w]), [w])
  {
    OneJoined(w);
  }

  lemma SeveralName(kw: Keywords, ws: seq<string>)
    requires |ws| > 1 && AllWords(ws) && !IsGeneric(kw, Joined(ws)) && AllNameChars(Joined(ws))
    ensures NamedBy(kw, Unquoted(kw, ws), ws)
  {
    JoinedHasTheWords(ws);
  }

  lemma NameIs(kw: Keywords, ws: seq<string>)
    requires WordsOk(kw, ws) && forall g :: g in kw.generics ==> IsIdentifier(g)
    ensures NamedBy(kw, Unquoted(kw, ws), ws)
  {
    WordsOkAreWords(kw, ws);
    if |ws| > 1 {
      SeveralAreLiteral(kw, ws);
      JoinedIsName(ws);
      SeveralName(kw, ws);
    } else {
      OneWordNames(kw, ws[0]);
      assert ws == [ws[0]];
    }
  }

  /** So a name may be spread over any white space: the same words are the same family. */
  lemma SameWordsSameFamily(kw: Keywords, v: string, u: string)
    requires UnquotedAt(kw, v).Some? && Words(u[..IndexOf(u, ',')]) == Words(v[..IndexOf(v, ',')])
    ensures UnquotedAt(kw, u).Some? && UnquotedAt(kw, u).value.0 == UnquotedAt(kw, v).value.0
  {
  }
}
