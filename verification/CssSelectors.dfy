/** What a selector names, whatever its spelling: a selector is laid out in pieces, and
    the scanners find the class and attribute names of exactly the pieces that have
    them. */
module CssSelectors {
  import opened Options
  import opened CssNames
  import opened CssSpellings

  // ------------------------------------------------------------ strings and brackets

  /** A step inside a string or a bracket: one byte, or a `\` with the byte after it. */
  datatype Chunk = Bare(b: Byte) | Pair(c: Byte)

  predicate ChunkAt(s: Text, at: nat, k: Chunk) {
    match k
    case Bare(b) => at < |s| && s[at] == b && b != BACKSLASH
    case Pair(c) => at + 1 < |s| && s[at] == BACKSLASH && s[at + 1] == c
  }

  function Width(k: Chunk): nat { if k.Bare? then 1 else 2 }

  /** The chunks stand at the offset, none of them the quote that would close them. */
  predicate ChunksAt(s: Text, at: nat, ks: seq<Chunk>, quote: Byte)
    decreases |ks|
  {
    ks == [] || (ChunkAt(s, at, ks[0]) && ks[0] != Bare(quote) && ChunksAt(s, at + Width(ks[0]), ks[1..], quote))
  }

  function EndOfChunks(at: nat, ks: seq<Chunk>): (end: nat)
    ensures end >= at
    decreases |ks|
  {
    if ks == [] then at else EndOfChunks(at + Width(ks[0]), ks[1..])
  }

  lemma {:induction false} ChunksSkip(s: Text, at: nat, ks: seq<Chunk>, quote: Byte)
    requires ChunksAt(s, at, ks, quote)
    ensures StringTail(s, at, quote) == StringTail(s, EndOfChunks(at, ks), quote)
    decreases |ks|
  {
    if ks != [] { ChunksSkip(s, at + Width(ks[0]), ks[1..], quote); }
  }

  /** A string at the offset: its quote, its chunks, its quote. */
  predicate StringAt(s: Text, at: nat, ks: seq<Chunk>) {
    at < |s| && IsQuote(s[at]) && ChunksAt(s, at + 1, ks, s[at]) &&
    var close := EndOfChunks(at + 1, ks);
    close < |s| && s[close] == s[at]
  }

  lemma StringSkips(s: Text, at: nat, ks: seq<Chunk>)
    requires StringAt(s, at, ks)
    ensures StringEnd(s, at) == EndOfChunks(at + 1, ks) + 1 <= |s|
  {
    ChunksSkip(s, at + 1, ks, s[at]);
  }

  /** A step inside a bracket: a chunk that opens no string and closes no bracket, or a
      whole string. */
  datatype Item = Loose(k: Chunk) | Quoted(ks: seq<Chunk>)

  predicate ItemAt(s: Text, at: nat, i: Item) {
    match i
    case Loose(k) => ChunkAt(s, at, k) && (k.Bare? ==> k.b != CLOSE && !IsQuote(k.b))
    case Quoted(ks) => StringAt(s, at, ks)
  }

  function PastItem(at: nat, i: Item): (end: nat)
    ensures end > at
  {
    match i
    case Loose(k) => at + Width(k)
    case Quoted(ks) => EndOfChunks(at + 1, ks) + 1
  }

  predicate ItemsAt(s: Text, at: nat, es: seq<Item>)
    decreases |es|
  {
    es == [] || (ItemAt(s, at, es[0]) && ItemsAt(s, PastItem(at, es[0]), es[1..]))
  }

  function EndOfItems(at: nat, es: seq<Item>): (end: nat)
    ensures end >= at
    decreases |es|
  {
    if es == [] then at else EndOfItems(PastItem(at, es[0]), es[1..])
  }

  /** The bracket closes after the items. */
  predicate ClosesAfter(s: Text, at: nat, es: seq<Item>) {
    ItemsAt(s, at, es) && EndOfItems(at, es) < |s| && s[EndOfItems(at, es)] == CLOSE
  }

  lemma {:induction false} ItemsSkip(s: Text, at: nat, es: seq<Item>)
    requires ItemsAt(s, at, es)
    ensures BracketEnd(s, at) == BracketEnd(s, EndOfItems(at, es))
    decreases |es|
  {
    if es != [] {
      if es[0].Quoted? { StringSkips(s, at, es[0].ks); }
      ItemsSkip(s, PastItem(at, es[0]), es[1..]);
    }
  }

  // ------------------------------------------------------------- what nothing closes

  ghost predicate OpenString(s: Text, at: nat) {
    at < |s| && IsQuote(s[at]) && forall ks :: !StringAt(s, at, ks)
  }

  /** No items lead from the offset to a closing bracket. */
  ghost predicate NeverCloses(s: Text, at: nat) {
    forall items :: !ClosesAfter(s, at, items)
  }

  ghost predicate OpenBracket(s: Text, at: nat) {
    at < |s| && s[at] == OPEN && NeverCloses(s, at + 1)
  }

  lemma {:induction false} ChunksHere(s: Text, at: nat, quote: Byte) returns (ks: seq<Chunk>)
    requires quote != BACKSLASH
    ensures ChunksAt(s, at, ks, quote)
    ensures var close := EndOfChunks(at, ks);
            (close < |s| && s[close] == quote) || StringTail(s, at, quote) >= |s|
    decreases |s| - at
  {
    if at >= |s| || s[at] == quote || (s[at] == BACKSLASH && at + 1 == |s|) {
      ks := [];
    } else {
      var k := if s[at] == BACKSLASH then Pair(s[at + 1]) else Bare(s[at]);
      var rest := ChunksHere(s, at + Width(k), quote);
      ks := [k] + rest;
      assert ks[1..] == rest;
    }
  }

  /** A string nothing closes runs to the end of the text. */
  lemma OpenStringRuns(s: Text, at: nat)
    requires OpenString(s, at)
    ensures StringEnd(s, at) >= |s|
  {
    var ks := ChunksHere(s, at + 1, s[at]);
    assert !StringAt(s, at, ks);
  }

  lemma ItemHere(s: Text, at: nat) returns (item: Option<Item>)
    requires at < |s| && s[at] != CLOSE
    ensures item.Some? ==> ItemAt(s, at, item.value) && BracketEnd(s, at) == BracketEnd(s, PastItem(at, item.value))
    ensures item.None? ==> BracketEnd(s, at) >= |s|
  {
    if IsQuote(s[at]) {
      var ks := ChunksHere(s, at + 1, s[at]);
      if StringAt(s, at, ks) {
        StringSkips(s, at, ks);
        item := Some(Quoted(ks));
      } else {
        item := None;
      }
    } else if s[at] == BACKSLASH {
      item := if at + 1 == |s| then None else Some(Loose(Pair(s[at + 1])));
    } else {
      item := Some(Loose(Bare(s[at])));
    }
  }

  lemma {:induction false} ItemsHere(s: Text, at: nat) returns (es: seq<Item>)
    ensures ClosesAfter(s, at, es) || BracketEnd(s, at) >= |s|
    decreases |s| - at
  {
    es := [];
    if at < |s| && s[at] != CLOSE {
      var item := ItemHere(s, at);
      if item.Some? {
        var rest := ItemsHere(s, PastItem(at, item.value));
        es := [item.value] + rest;
        assert es[1..] == rest;
      }
    }
  }

  /** And so does a bracket nothing closes. */
  lemma NeverClosesRuns(s: Text, at: nat)
    requires NeverCloses(s, at)
    ensures BracketEnd(s, at) >= |s|
  {
    var es := ItemsHere(s, at);
    assert !ClosesAfter(s, at, es);
  }

  // ------------------------------------------------------------------------- classes

  /** A piece of a selector, as the class reader sees it. */
  datatype Piece =
    | Other(b: Byte)
    | Escape(u: Unit)
    | Class(us: seq<Unit>)
    | Bracketed(items: seq<Item>)
    | Str(chunks: seq<Chunk>)

  predicate PieceAt(s: Text, at: nat, p: Piece) {
    at < |s| &&
    match p
    case Other(b) => s[at] == b && !IsQuote(b) && b != OPEN && b != BACKSLASH && b != DOT
    case Escape(u) => UnitOk(u) && !u.Plain? && UnitAt(s, at, u)
    case Class(us) => s[at] == DOT && Spellable(us) && SpelledAt(s, at + 1, us) && IdentEnds(s, EndOf(at + 1, us))
    case Bracketed(items) => s[at] == OPEN && ClosesAfter(s, at + 1, items)
    case Str(chunks) => StringAt(s, at, chunks)
  }

  function PastPiece(at: nat, p: Piece): (end: nat)
    ensures end > at
  {
    match p
    case Other(_) => at + 1
    case Escape(u) => at + Size(u)
    case Class(us) => EndOf(at + 1, us)
    case Bracketed(items) => EndOfItems(at + 1, items) + 1
    case Str(chunks) => EndOfChunks(at + 1, chunks) + 1
  }

  /** The pieces fill the selector from the offset to its end, or to a string or a bracket
      that nothing closes. */
  ghost predicate Laid(s: Text, at: nat, ps: seq<Piece>)
    decreases |ps|
  {
    if ps == [] then at == |s| || OpenString(s, at) || OpenBracket(s, at) else PieceAt(s, at, ps[0]) && Laid(s, PastPiece(at, ps[0]), ps[1..])
  }

  /** The name a piece adds: only a class piece has one. */
  function NameOf(p: Piece): seq<Text>
    requires p.Class? ==> Spellable(p.us)
  {
    if p.Class? && Name(p.us) != [] then [Name(p.us)] else []
  }

  predicate PiecesOk(ps: seq<Piece>) {
    forall p :: p in ps ==> p.Class? ==> Spellable(p.us)
  }

  /** The class names of the pieces, in order. */
  function Classes(ps: seq<Piece>): seq<Text>
    requires PiecesOk(ps)
  {
    if ps == [] then [] else NameOf(ps[0]) + Classes(ps[1..])
  }

  lemma ClassPieceReads(s: Text, at: nat, us: seq<Unit>, out: seq<Text>)
    requires PieceAt(s, at, Class(us))
    ensures ClassesFrom(s, at, out) == ClassesFrom(s, EndOf(at + 1, us), out + NameOf(Class(us)))
  {
    IdentReads(s, at + 1, us, []);
    assert [] + Name(us) == Name(us);
    assert out + [] == out;
  }

  lemma BracketPieceReads(s: Text, at: nat, items: seq<Item>, out: seq<Text>)
    requires at < |s| && s[at] == OPEN && ClosesAfter(s, at + 1, items)
    ensures ClassesFrom(s, at, out) == ClassesFrom(s, EndOfItems(at + 1, items) + 1, out)
  {
    assert BracketEnd(s, at) == BracketEnd(s, at + 1);
    ItemsSkip(s, at + 1, items);
  }

  lemma EscapePieceReads(s: Text, at: nat, u: Unit, out: seq<Text>)
    requires UnitOk(u) && !u.Plain? && UnitAt(s, at, u)
    ensures ClassesFrom(s, at, out) == ClassesFrom(s, at + Size(u), out)
  {
    EscapeReads(s, at, u);
  }

  lemma OtherPieceReads(s: Text, at: nat, p: Piece, out: seq<Text>)
    requires PieceAt(s, at, p) && !p.Class?
    ensures ClassesFrom(s, at, out) == ClassesFrom(s, PastPiece(at, p), out)
  {
    match p
    case Other(_) =>
    case Escape(u) => EscapePieceReads(s, at, u, out);
    case Bracketed(items) => BracketPieceReads(s, at, items, out);
    case Str(chunks) => StringSkips(s, at, chunks);
  }

  lemma PieceReads(s: Text, at: nat, p: Piece, out: seq<Text>)
    requires PieceAt(s, at, p)
    ensures ClassesFrom(s, at, out) == ClassesFrom(s, PastPiece(at, p), out + NameOf(p))
  {
    if p.Class? {
      ClassPieceReads(s, at, p.us, out);
    } else {
      OtherPieceReads(s, at, p, out);
      assert out + NameOf(p) == out;
    }
  }

  lemma ListsJoin<T>(a: seq<T>, b: seq<T>, c: seq<T>)
    ensures (a + b) + c == a + (b + c)
  {
  }

  lemma TailHasNone(s: Text, at: nat, out: seq<Text>)
    requires at == |s| || OpenString(s, at) || OpenBracket(s, at)
    ensures ClassesFrom(s, at, out) == out
  {
    if at < |s| && IsQuote(s[at]) {
      OpenStringRuns(s, at);
    } else if at < |s| {
      NeverClosesRuns(s, at + 1);
      assert BracketEnd(s, at) == BracketEnd(s, at + 1);
    }
  }

  /** The class names a selector addresses are those of its class pieces, in order and
      decoded: a dot in a bracket, in a string or in an escape makes none, and no
      spelling changes one. */
  lemma {:induction false} ClassesRead(s: Text, at: nat, ps: seq<Piece>, out: seq<Text>)
    requires PiecesOk(ps) && Laid(s, at, ps)
    ensures ClassesFrom(s, at, out) == out + Classes(ps)
    decreases |ps|
  {
    if ps == [] {
      assert out + [] == out;
      TailHasNone(s, at, out);
    } else {
      PieceReads(s, at, ps[0], out);
      ClassesRead(s, PastPiece(at, ps[0]), ps[1..], out + NameOf(ps[0]));
      ListsJoin(out, NameOf(ps[0]), Classes(ps[1..]));
    }
  }

  /** Two selectors whose class pieces spell the same names in the same order address
      the same classes, whatever else stands between and however each is spelled. */
  lemma SameClassesHoweverSpelled(s: Text, ps: seq<Piece>, t: Text, qs: seq<Piece>)
    requires PiecesOk(ps) && Laid(s, 0, ps) && PiecesOk(qs) && Laid(t, 0, qs)
    requires Classes(ps) == Classes(qs)
    ensures ClassesFrom(s, 0, []) == ClassesFrom(t, 0, []) == Classes(ps)
  {
    ClassesRead(s, 0, ps, []);
    ClassesRead(t, 0, qs, []);
    assert [] + Classes(ps) == Classes(ps);
  }

  lemma PieceHere(s: Text, at: nat) returns (p: Piece)
    requires at < |s| && !OpenString(s, at) && !OpenBracket(s, at)
    ensures PieceAt(s, at, p) && PiecesOk([p]) && PastPiece(at, p) <= |s|
  {
    if s[at] == OPEN {
      var items :| ClosesAfter(s, at + 1, items);
      p := Bracketed(items);
    } else if IsQuote(s[at]) {
      var ks :| StringAt(s, at, ks);
      p := Str(ks);
    } else if s[at] == BACKSLASH {
      var u := UnitHere(s, at);
      p := Escape(u);
    } else if s[at] == DOT {
      var us := ReadIsSpelled(s, at + 1, []);
      p := Class(us);
    } else {
      p := Other(s[at]);
    }
  }

  /** Every selector is laid out in pieces. */
  lemma {:induction false} LayOut(s: Text, at: nat) returns (ps: seq<Piece>)
    requires at <= |s|
    ensures PiecesOk(ps) && Laid(s, at, ps)
    decreases |s| - at
  {
    if at == |s| || OpenString(s, at) || OpenBracket(s, at) {
      ps := [];
    } else {
      var p := PieceHere(s, at);
      var rest := LayOut(s, PastPiece(at, p));
      ps := [p] + rest;
      assert p in [p] && ps[1..] == rest;
    }
  }

  // ---------------------------------------------------------------------- attributes

  /** A namespace prefix: the wildcard, or a name, which may be empty. */
  datatype Prefix = Wildcard | Named(us: seq<Unit>)

  function BarOf(at: nat, p: Prefix): (bar: nat)
    ensures bar >= at
  {
    if p.Wildcard? then at + 1 else EndOf(at, p.us)
  }

  /** A `|` at the offset that is no `|=`. */
  predicate IsBar(s: Text, at: nat) {
    at < |s| && s[at] == BAR && !(at + 1 < |s| && s[at + 1] == EQUALS)
  }

  predicate PrefixAt(s: Text, at: nat, p: Prefix) {
    && IsBar(s, BarOf(at, p))
    && if p.Wildcard? then s[at] == STAR else Spellable(p.us) && SpelledAt(s, at, p.us)
  }

  /** The prefixes, with any space after each bar. */
  predicate PrefixesAt(s: Text, at: nat, ps: seq<Prefix>)
    decreases |ps|
  {
    ps == [] || (PrefixAt(s, at, ps[0]) && PrefixesAt(s, SpaceEnd(s, BarOf(at, ps[0]) + 1), ps[1..]))
  }

  function AfterPrefixes(s: Text, at: nat, ps: seq<Prefix>): (start: nat)
    requires at <= |s| && PrefixesAt(s, at, ps)
    ensures at <= start <= |s|
    decreases |ps|
  {
    if ps == [] then at else AfterPrefixes(s, SpaceEnd(s, BarOf(at, ps[0]) + 1), ps[1..])
  }

  lemma PrefixReads(s: Text, at: nat, p: Prefix)
    requires at <= |s| && PrefixAt(s, at, p)
    ensures PrefixEnd(s, at) == BarOf(at, p) + 1
  {
    if p.Named? { IdentReads(s, at, p.us, []); } else { assert IdentFrom(s, at, []).1 == at; }
  }

  /** The reader steps over every prefix, to the local name. */
  lemma {:induction false} PrefixesRead(s: Text, at: nat, ps: seq<Prefix>)
    requires at <= |s| && PrefixesAt(s, at, ps)
    ensures LocalStart(s, at) == LocalStart(s, AfterPrefixes(s, at, ps))
    decreases |ps|
  {
    if ps != [] {
      PrefixReads(s, at, ps[0]);
      PrefixesRead(s, SpaceEnd(s, BarOf(at, ps[0]) + 1), ps[1..]);
    }
  }

  /** No prefix stands at the offset: the local name starts there. */
  ghost predicate NoPrefixAt(s: Text, at: nat) {
    forall p :: !PrefixAt(s, at, p)
  }

  lemma NoPrefix(s: Text, at: nat)
    requires at <= |s| && NoPrefixAt(s, at)
    ensures PrefixEnd(s, at) == at
  {
    var us := ReadIsSpelled(s, at, []);
    assert !PrefixAt(s, at, Named(us)) && !PrefixAt(s, at, Wildcard);
  }

  /** Every offset has its prefixes, and a local name, empty or not, after them. */
  lemma {:induction false} PrefixesHere(s: Text, at: nat) returns (ps: seq<Prefix>)
    requires at <= |s|
    ensures PrefixesAt(s, at, ps) && NoPrefixAt(s, AfterPrefixes(s, at, ps))
    decreases |s| - at
  {
    if p :| PrefixAt(s, at, p) {
      var rest := PrefixesHere(s, SpaceEnd(s, BarOf(at, p) + 1));
      ps := [p] + rest;
      assert ps[1..] == rest;
    } else {
      ps := [];
    }
  }

  /** A bracket: space, prefixes, the spelled local name, and the items up to the closing
      bracket, or None when nothing closes it. */
  datatype Attr = Attr(prefixes: seq<Prefix>, local: seq<Unit>, tail: Option<seq<Item>>)

  function NameStart(s: Text, at: nat, a: Attr): (start: nat)
    requires at < |s| && PrefixesAt(s, SpaceEnd(s, at + 1), a.prefixes)
    ensures at < start <= |s|
  {
    AfterPrefixes(s, SpaceEnd(s, at + 1), a.prefixes)
  }

  ghost predicate EndedBy(s: Text, after: nat, tail: Option<seq<Item>>) {
    if tail.Some? then ClosesAfter(s, after, tail.value) else NeverCloses(s, after)
  }

  ghost predicate AttrAt(s: Text, at: nat, a: Attr) {
    && at < |s| && s[at] == OPEN
    && PrefixesAt(s, SpaceEnd(s, at + 1), a.prefixes)
    && NoPrefixAt(s, NameStart(s, at, a))
    && LocalAt(s, NameStart(s, at, a), a)
  }

  ghost predicate LocalAt(s: Text, start: nat, a: Attr) {
    && Spellable(a.local) && SpelledAt(s, start, a.local)
    && EndOf(start, a.local) <= |s| && IdentEnds(s, EndOf(start, a.local)) && EndedBy(s, EndOf(start, a.local), a.tail)
  }

  ghost function AfterName(s: Text, at: nat, a: Attr): (after: nat)
    requires AttrAt(s, at, a)
    ensures at < after <= |s|
  {
    EndOf(NameStart(s, at, a), a.local)
  }

  ghost function PastAttr(s: Text, at: nat, a: Attr): (past: nat)
    requires AttrAt(s, at, a)
    ensures AfterName(s, at, a) <= past <= |s|
    ensures if a.tail.Some? then AfterName(s, at, a) < past && s[past - 1] == CLOSE else past == |s|
  {
    if a.tail.Some? then EndOfItems(AfterName(s, at, a), a.tail.value) + 1 else |s|
  }

  ghost function Matched(s: Text, at: nat, a: Attr): AttrMatch
    requires AttrAt(s, at, a)
  {
    AttrMatch(Fold(Name(a.local)), Compares(s, AfterName(s, at, a)))
  }

  lemma LocalReads(s: Text, at: nat, a: Attr)
    requires AttrAt(s, at, a)
    ensures LocalStart(s, SpaceEnd(s, at + 1)) == NameStart(s, at, a)
    ensures IdentFrom(s, NameStart(s, at, a), []) == (Name(a.local), AfterName(s, at, a))
  {
    var start := NameStart(s, at, a);
    PrefixesRead(s, SpaceEnd(s, at + 1), a.prefixes);
    IdentReads(s, start, a.local, []);
    assert [] + Name(a.local) == Name(a.local);
    NoPrefix(s, start);
  }

  /** The attribute a bracket names, if its local name is one at all. */
  ghost function MatchOf(s: Text, at: nat, a: Attr): seq<AttrMatch>
    requires AttrAt(s, at, a)
  {
    if Name(a.local) != [] then [Matched(s, at, a)] else []
  }

  lemma TailSkips(s: Text, at: nat, a: Attr, out: seq<AttrMatch>)
    requires AttrAt(s, at, a)
    ensures AttrsFrom(s, BracketEnd(s, AfterName(s, at, a)), out) == AttrsFrom(s, PastAttr(s, at, a), out)
  {
    if a.tail.Some? {
      ItemsSkip(s, AfterName(s, at, a), a.tail.value);
    } else {
      NeverClosesRuns(s, AfterName(s, at, a));
    }
  }

  /** A bracket yields the one attribute it names, decoded, folded and without its
      prefixes, and whether its value is compared. */
  lemma AttrReads(s: Text, at: nat, a: Attr, out: seq<AttrMatch>)
    requires AttrAt(s, at, a)
    ensures AttrsFrom(s, at, out) == AttrsFrom(s, PastAttr(s, at, a), out + MatchOf(s, at, a))
  {
    LocalReads(s, at, a);
    TailSkips(s, at, a, out + MatchOf(s, at, a));
    assert out + [] == out;
  }

  /** A selector as the attribute reader cuts it: a bracket at every `[` byte it comes to, in
      an escape or a string too, and bytes outside them. */
  datatype Part = Outside(b: Byte) | Inside(a: Attr)

  ghost predicate PartAt(s: Text, at: nat, p: Part) {
    if p.Inside? then AttrAt(s, at, p.a) else at < |s| && s[at] == p.b != OPEN
  }

  ghost function PastPart(s: Text, at: nat, p: Part): (past: nat)
    requires PartAt(s, at, p)
    ensures at < past <= |s|
  {
    if p.Inside? then PastAttr(s, at, p.a) else at + 1
  }

  ghost predicate Parted(s: Text, at: nat, ps: seq<Part>)
    decreases |ps|
  {
    if ps == [] then at == |s| else PartAt(s, at, ps[0]) && Parted(s, PastPart(s, at, ps[0]), ps[1..])
  }

  lemma PartHere(s: Text, at: nat) returns (p: Part)
    requires at < |s|
    ensures PartAt(s, at, p)
  {
    if s[at] != OPEN {
      p := Outside(s[at]);
    } else {
      var prefixes := PrefixesHere(s, SpaceEnd(s, at + 1));
      var start := AfterPrefixes(s, SpaceEnd(s, at + 1), prefixes);
      var local := ReadIsSpelled(s, start, []);
      var after := EndOf(start, local);

      if tail :| ClosesAfter(s, after, tail) {
        p := Inside(Attr(prefixes, local, Some(tail)));
      } else {
        p := Inside(Attr(prefixes, local, None));
      }
    }
  }

  /** Every selector falls into such parts. */
  lemma {:induction false} PartOut(s: Text, at: nat) returns (ps: seq<Part>)
    requires at <= |s|
    ensures Parted(s, at, ps)
    decreases |s| - at
  {
    if at == |s| {
      ps := [];
    } else {
      var p := PartHere(s, at);
      var rest := PartOut(s, PastPart(s, at, p));
      ps := [p] + rest;
      assert ps[1..] == rest;
    }
  }

  ghost function PartMatch(s: Text, at: nat, p: Part): seq<AttrMatch>
    requires PartAt(s, at, p)
  {
    if p.Inside? then MatchOf(s, at, p.a) else []
  }

  ghost function Matches(s: Text, at: nat, ps: seq<Part>): seq<AttrMatch>
    requires Parted(s, at, ps)
    decreases |ps|
  {
    if ps == [] then [] else PartMatch(s, at, ps[0]) + Matches(s, PastPart(s, at, ps[0]), ps[1..])
  }

  lemma PartReads(s: Text, at: nat, p: Part, out: seq<AttrMatch>)
    requires PartAt(s, at, p)
    ensures AttrsFrom(s, at, out) == AttrsFrom(s, PastPart(s, at, p), out + PartMatch(s, at, p))
  {
    if p.Inside? { AttrReads(s, at, p.a, out); } else { assert out + PartMatch(s, at, p) == out; }
  }

  /** The attributes found are those of the brackets the reader opens, in order. */
  lemma {:induction false} AttrsRead(s: Text, at: nat, ps: seq<Part>, out: seq<AttrMatch>)
    requires Parted(s, at, ps)
    ensures AttrsFrom(s, at, out) == out + Matches(s, at, ps)
    decreases |ps|
  {
    if ps == [] {
      assert out + [] == out;
    } else {
      var first, past := PartMatch(s, at, ps[0]), PastPart(s, at, ps[0]);
      PartReads(s, at, ps[0], out);
      AttrsRead(s, past, ps[1..], out + first);
      ListsJoin(out, first, Matches(s, past, ps[1..]));
    }
  }

  /** The operators that compare a value: `=` and the five that put one byte before it. */
  const OPERATORS: set<Text> := {[EQUALS], [0x7E, EQUALS], [STAR, EQUALS], [0x5E, EQUALS], [0x24, EQUALS], [BAR, EQUALS]}

  predicate Stands(s: Text, at: nat, t: Text) {
    at + |t| <= |s| && forall i :: 0 <= i < |t| ==> s[at + i] == t[i]
  }

  /** Space is what is skipped, and all that is skipped. */
  lemma {:induction false} SpaceSkipped(s: Text, at: nat)
    requires at <= |s|
    ensures forall i :: at <= i < SpaceEnd(s, at) ==> IsSpace(s[i])
    ensures SpaceEnd(s, at) < |s| ==> !IsSpace(s[SpaceEnd(s, at)])
    decreases |s| - at
  {
    if at < |s| && IsSpace(s[at]) { SpaceSkipped(s, at + 1); }
  }

  /** The value is compared exactly when an operator stands after the space; space inside
      an operator makes it none. */
  lemma ComparesIsAnOperator(s: Text, at: nat)
    requires at <= |s|
    ensures Compares(s, at) <==> exists op :: op in OPERATORS && Stands(s, SpaceEnd(s, at), op)
  {
    var p := SpaceEnd(s, at);
    if Compares(s, at) {
      var op := if s[p] == EQUALS then [EQUALS] else [s[p], EQUALS];
      assert op in OPERATORS && Stands(s, p, op);
    }
    forall op | op in OPERATORS && Stands(s, p, op) ensures Compares(s, at) {
      assert s[p + 0] == op[0];
      if |op| == 2 { assert s[p + 1] == op[1]; }
    }
  }

  /** The same bytes stand in both texts. */
  predicate SameBytes(s: Text, at: nat, t: Text, bt: nat, n: nat) {
    at + n <= |s| && bt + n <= |t| && forall i :: at <= i < at + n ==> s[i] == t[i + (bt - at)]
  }

  /** What stands after the name decides whether the value is compared: the same bytes up
      to the closing bracket give the same answer. */
  lemma SameTailSameAnswer(s: Text, at: nat, t: Text, bt: nat, n: nat)
    requires n > 0 && SameBytes(s, at, t, bt, n) && s[at + n - 1] == CLOSE
    ensures Compares(s, at) == Compares(t, bt)
  {
    SameSpace(s, at, t, bt, n);
    var p := SpaceEnd(s, at);
    assert s[p] == t[p + (bt - at)];
    if p + 1 < at + n { assert s[p + 1] == t[p + 1 + (bt - at)]; }
  }

  lemma {:induction false} SameSpace(s: Text, at: nat, t: Text, bt: nat, n: nat)
    requires n > 0 && SameBytes(s, at, t, bt, n) && s[at + n - 1] == CLOSE
    ensures SpaceEnd(s, at) - at == SpaceEnd(t, bt) - bt < n
    decreases n
  {
    assert s[at] == t[at + (bt - at)];
    if IsSpace(s[at]) { SameSpace(s, at + 1, t, bt + 1, n - 1); }
  }

  lemma TailsAgree(s: Text, from: nat, to: nat, t: Text, bfrom: nat, bto: nat)
    requires from < to <= |s| && bfrom <= bto <= |t| && s[from..to] == t[bfrom..bto] && s[to - 1] == CLOSE
    ensures Compares(s, from) == Compares(t, bfrom)
  {
    assert |s[from..to]| == |t[bfrom..bto]|;
    forall i | from <= i < to ensures s[i] == t[i + (bfrom - from)] {
      assert s[from..to][i - from] == t[bfrom..bto][i - from];
    }
    SameTailSameAnswer(s, from, t, bfrom, to - from);
  }

  lemma {:induction false} SuffixSpace(s: Text, from: nat, i: nat)
    requires from + i <= |s|
    ensures SpaceEnd(s[from..], i) == SpaceEnd(s, from + i) - from
    decreases |s| - from - i
  {
    if from + i < |s| && IsSpace(s[from + i]) { SuffixSpace(s, from, i + 1); }
  }

  /** The text after the name answers by itself. */
  lemma TailAnswers(s: Text, at: nat, a: Attr)
    requires AttrAt(s, at, a)
    ensures Compares(s, AfterName(s, at, a)) == Compares(s[AfterName(s, at, a)..PastAttr(s, at, a)], 0)
  {
    var from, to := AfterName(s, at, a), PastAttr(s, at, a);
    var tail := s[from..to];
    if a.tail.Some? {
      assert tail[0..to - from] == tail;
      TailsAgree(s, from, to, tail, 0, to - from);
    } else {
      assert tail == s[from..];
      SuffixSpace(s, from, 0);
      var p := SpaceEnd(s, from);
      assert p < |s| ==> s[p] == tail[p - from];
      assert p + 1 < |s| ==> s[p + 1] == tail[p + 1 - from];
    }
  }

  /** Two brackets that spell one local name and end alike are one attribute match,
      however the name is spelled and whatever namespace is in front. */
  lemma SameAttrHoweverSpelled(s: Text, at: nat, a: Attr, t: Text, bt: nat, b: Attr)
    requires AttrAt(s, at, a) && AttrAt(t, bt, b) && Fold(Name(a.local)) == Fold(Name(b.local))
    requires s[AfterName(s, at, a)..PastAttr(s, at, a)] == t[AfterName(t, bt, b)..PastAttr(t, bt, b)]
    ensures Matched(s, at, a) == Matched(t, bt, b)
  {
    TailAnswers(s, at, a);
    TailAnswers(t, bt, b);
  }

  /** What a named bracket says: its folded local name, and the text after it. */
  datatype Saying = Saying(name: Text, rest: Text)

  ghost function SayingOf(s: Text, at: nat, p: Part): seq<Saying>
    requires PartAt(s, at, p)
  {
    if p.Inside? && Name(p.a.local) != [] then
      [Saying(Fold(Name(p.a.local)), s[AfterName(s, at, p.a)..PastAttr(s, at, p.a)])]
    else []
  }

  ghost function Sayings(s: Text, at: nat, ps: seq<Part>): seq<Saying>
    requires Parted(s, at, ps)
    decreases |ps|
  {
    if ps == [] then [] else SayingOf(s, at, ps[0]) + Sayings(s, PastPart(s, at, ps[0]), ps[1..])
  }

  function Answers(says: seq<Saying>): seq<AttrMatch> {
    seq(|says|, i requires 0 <= i < |says| => AttrMatch(says[i].name, Compares(says[i].rest, 0)))
  }

  lemma AnswersJoin(a: seq<Saying>, b: seq<Saying>)
    ensures Answers(a + b) == Answers(a) + Answers(b)
  {
  }

  lemma PartAnswers(s: Text, at: nat, p: Part)
    requires PartAt(s, at, p)
    ensures PartMatch(s, at, p) == Answers(SayingOf(s, at, p))
  {
    if p.Inside? { TailAnswers(s, at, p.a); }
  }

  lemma {:induction false} MatchesAnswer(s: Text, at: nat, ps: seq<Part>)
    requires Parted(s, at, ps)
    ensures Matches(s, at, ps) == Answers(Sayings(s, at, ps))
    decreases |ps|
  {
    if ps != [] {
      var past := PastPart(s, at, ps[0]);
      PartAnswers(s, at, ps[0]);
      MatchesAnswer(s, past, ps[1..]);
      AnswersJoin(SayingOf(s, at, ps[0]), Sayings(s, past, ps[1..]));
    }
  }

  /** Two selectors in which the brackets the reader opens say the same, in order, have the
      same attribute matches, however the names are spelled and whatever namespaces are in
      front. */
  lemma SameAttrsHoweverSpelled(s: Text, ps: seq<Part>, t: Text, qs: seq<Part>)
    requires Parted(s, 0, ps) && Parted(t, 0, qs) && Sayings(s, 0, ps) == Sayings(t, 0, qs)
    ensures AttrsFrom(s, 0, []) == AttrsFrom(t, 0, []) == Answers(Sayings(s, 0, ps))
  {
    AttrsRead(s, 0, ps, []);
    AttrsRead(t, 0, qs, []);
    MatchesAnswer(s, 0, ps);
    MatchesAnswer(t, 0, qs);
    assert [] + Matches(s, 0, ps) == Matches(s, 0, ps) && [] + Matches(t, 0, qs) == Matches(t, 0, qs);
  }
}
