/** Which attributes a browser reads in a whole selector, and when the attribute reader
    finds the same.  The reader opens a bracket at every `[` byte it comes to; a browser
    opens none in a string or an escape. */
module CssAttributes {
  import opened Options
  import opened CssNames
  import opened CssSpellings
  import opened CssStandard
  import opened CssSelectors
  import opened CssClasses

  // ------------------------------------------------------ where the reader opens brackets

  /** Where the reader goes on after the bracket at the offset. */
  function PastBracket(s: Text, at: nat): (past: nat)
    requires at < |s| && s[at] == OPEN
    ensures past > at
  {
    BracketEnd(s, IdentFrom(s, LocalStart(s, SpaceEnd(s, at + 1)), []).1)
  }

  /** The attribute the reader takes from the bracket, if it has a name. */
  function ReadAttr(s: Text, at: nat): seq<AttrMatch>
    requires at < |s|
  {
    var (name, after) := IdentFrom(s, LocalStart(s, SpaceEnd(s, at + 1)), []);
    if name == [] then [] else [AttrMatch(Fold(name), Compares(s, after))]
  }

  /** The offsets at which the reader opens a bracket. */
  function Opened(s: Text, at: nat): (offsets: seq<nat>)
    ensures InText(s, at, offsets)
    decreases |s| - at
  {
    if at >= |s| then []
    else if s[at] != OPEN then Opened(s, at + 1)
    else [at] + Opened(s, PastBracket(s, at))
  }

  predicate InText(s: Text, at: nat, offsets: seq<nat>) {
    forall i :: 0 <= i < |offsets| ==> at <= offsets[i] < |s| && s[offsets[i]] == OPEN
  }

  function AttrsAt(s: Text, offsets: seq<nat>): seq<AttrMatch>
    requires InText(s, 0, offsets)
  {
    if offsets == [] then [] else ReadAttr(s, offsets[0]) + AttrsAt(s, offsets[1..])
  }

  /** The attributes found are those read at these offsets. */
  lemma {:induction false} ReadAtOffsets(s: Text, at: nat, out: seq<AttrMatch>)
    ensures AttrsFrom(s, at, out) == out + AttrsAt(s, Opened(s, at))
    decreases |s| - at
  {
    if at >= |s| {
      assert out + [] == out;
    } else if s[at] != OPEN {
      ReadAtOffsets(s, at + 1, out);
    } else {
      var past, first := PastBracket(s, at), ReadAttr(s, at);
      BracketStep(s, at, out);
      ReadAtOffsets(s, past, out + first);
      assert ([at] + Opened(s, past))[1..] == Opened(s, past);
      ListsJoin(out, first, AttrsAt(s, Opened(s, past)));
    }
  }

  lemma BracketStep(s: Text, at: nat, out: seq<AttrMatch>)
    requires at < |s| && s[at] == OPEN
    ensures AttrsFrom(s, at, out) == AttrsFrom(s, PastBracket(s, at), out + ReadAttr(s, at))
  {
    assert out + [] == out;
  }

  // ------------------------------------------------------- where the bracket ends for it

  /** One end, or both past the end of the text. */
  predicate SameEnd(s: Text, a: nat, b: nat) { a == b || (a >= |s| && b >= |s|) }

  /** Neither a bracket's end, nor a string, nor an escape. */
  predicate IsInner(c: Byte) { c != CLOSE && !IsQuote(c) && c != BACKSLASH }

  lemma {:induction false} InnerRun(s: Text, from: nat, to: nat)
    requires from <= to <= |s| && forall i :: from <= i < to ==> IsInner(s[i])
    ensures BracketEnd(s, from) == BracketEnd(s, to)
    decreases (to - from)
  {
    if from < to { InnerRun(s, from + 1, to); }
  }

  lemma SpaceInside(s: Text, at: nat)
    requires at <= |s|
    ensures BracketEnd(s, at) == BracketEnd(s, SpaceEnd(s, at))
  {
    SpaceSkipped(s, at);
    InnerRun(s, at, SpaceEnd(s, at));
  }

  lemma HexInside(s: Text, at: nat, u: Unit)
    requires UnitOk(u) && UnitAt(s, at, u) && u.Hex?
    ensures BracketEnd(s, at) == BracketEnd(s, at + Size(u))
  {
    HexTaken(s, at, u);
    var end := at + Size(u);
    forall i | at + 2 <= i < end ensures IsInner(s[i]) {
      if i < at + 1 + |u.digits| { assert s[at + 1 + (i - at - 1)] == u.digits[i - at - 1]; }
    }
    InnerRun(s, at + 2, end);
  }

  lemma UnitInside(s: Text, at: nat, u: Unit)
    requires UnitOk(u) && UnitAt(s, at, u)
    ensures SameEnd(s, BracketEnd(s, at), BracketEnd(s, at + Size(u)))
  {
    if u.Hex? { HexInside(s, at, u); }
  }

  lemma {:induction false} SpelledInside(s: Text, at: nat, us: seq<Unit>)
    requires Spellable(us) && SpelledAt(s, at, us)
    ensures SameEnd(s, BracketEnd(s, at), BracketEnd(s, EndOf(at, us)))
    decreases |us|
  {
    if us != [] {
      UnitInside(s, at, us[0]);
      SpelledInside(s, at + Size(us[0]), us[1..]);
    }
  }

  lemma NameInside(s: Text, at: nat)
    requires at <= |s|
    ensures SameEnd(s, BracketEnd(s, at), BracketEnd(s, IdentFrom(s, at, []).1))
  {
    var us := ReadIsSpelled(s, at, []);
    SpelledInside(s, at, us);
  }

  lemma PrefixInside(s: Text, at: nat)
    requires at <= |s|
    ensures SameEnd(s, BracketEnd(s, at), BracketEnd(s, PrefixEnd(s, at)))
  {
    var end := PrefixEnd(s, at);
    if end != at {
      var ident := IdentFrom(s, at, []).1;
      NameInside(s, at);
      InnerRun(s, ident, end);
    }
  }

  lemma {:induction false} PrefixesInside(s: Text, at: nat)
    requires at <= |s|
    ensures SameEnd(s, BracketEnd(s, at), BracketEnd(s, LocalStart(s, at)))
    decreases |s| - at
  {
    var end := PrefixEnd(s, at);
    if end != at {
      PrefixInside(s, at);
      SpaceInside(s, end);
      PrefixesInside(s, SpaceEnd(s, end));
    }
  }

  /** From inside the bracket it ends where it ends from after the local name. */
  lemma SameBracket(s: Text, at: nat)
    requires at < |s| && s[at] == OPEN
    ensures SameEnd(s, BracketEnd(s, at + 1), PastBracket(s, at))
  {
    var from := SpaceEnd(s, at + 1);
    SpaceInside(s, at + 1);
    PrefixesInside(s, from);
    NameInside(s, LocalStart(s, from));
  }

  lemma OpenedNext(s: Text, at: nat)
    requires at < |s| && s[at] == OPEN
    ensures Opened(s, at) == [at] + Opened(s, BracketEnd(s, at + 1))
  {
    SameBracket(s, at);
  }

  // ------------------------------------------------------- the brackets a browser opens

  /** The offsets of the brackets of a layout, one that nothing closes at the end among
      them. */
  ghost function Brackets(s: Text, at: nat, ps: seq<Piece>): seq<nat>
    requires StandardLaid(s, at, ps)
    decreases |ps|
  {
    if ps == [] then if OpenBracket(s, at) then [at] else []
    else (if ps[0].Bracketed? then [at] else []) + Brackets(s, PastPiece(at, ps[0]), ps[1..])
  }

  predicate NoByte(s: Text, from: nat, to: nat, b: Byte) {
    forall i :: from <= i < to && i < |s| ==> s[i] != b
  }

  predicate NoOpen(s: Text, from: nat, to: nat) { NoByte(s, from, to, OPEN) }

  /** No `[` byte stands in a piece that is no bracket, nor after a quote nothing closes. */
  ghost predicate NoOpenElsewhere(s: Text, at: nat, ps: seq<Piece>)
    requires StandardLaid(s, at, ps)
    decreases |ps|
  {
    if ps == [] then OpenBracket(s, at) || NoOpen(s, at, |s|)
    else
      && (ps[0].Bracketed? || NoOpen(s, at, PastPiece(at, ps[0])))
      && NoOpenElsewhere(s, PastPiece(at, ps[0]), ps[1..])
  }

  lemma {:induction false} OpenedSkips(s: Text, from: nat, to: nat)
    requires from <= to && NoOpen(s, from, to)
    ensures Opened(s, from) == Opened(s, to)
    decreases (to - from)
  {
    if from < to { OpenedSkips(s, from + 1, to); }
  }

  lemma {:induction false} OpenedFirst(s: Text, from: nat, to: nat)
    requires from <= to && !NoOpen(s, from, to)
    ensures Opened(s, from) != [] && Opened(s, from)[0] < to
    decreases (to - from)
  {
    if s[from] != OPEN { OpenedFirst(s, from + 1, to); }
  }

  lemma {:induction false} BracketsStand(s: Text, at: nat, ps: seq<Piece>)
    requires StandardLaid(s, at, ps)
    ensures InText(s, at, Brackets(s, at, ps))
    decreases |ps|
  {
    if ps != [] { BracketsStand(s, PastPiece(at, ps[0]), ps[1..]); }
  }

  lemma TailOpened(s: Text, at: nat)
    requires StandardLaid(s, at, [])
    ensures Opened(s, at) == Brackets(s, at, []) <==> NoOpenElsewhere(s, at, [])
  {
    if OpenBracket(s, at) {
      OpenedNext(s, at);
      NeverClosesRuns(s, at + 1);
    } else if NoOpen(s, at, |s|) {
      if at <= |s| { OpenedSkips(s, at, |s|); }
    } else {
      OpenedFirst(s, at, |s|);
    }
  }

  lemma BracketOpened(s: Text, at: nat, items: seq<Item>)
    requires at < |s| && s[at] == OPEN && ClosesAfter(s, at + 1, items)
    ensures Opened(s, at) == [at] + Opened(s, EndOfItems(at + 1, items) + 1)
  {
    OpenedNext(s, at);
    ItemsSkip(s, at + 1, items);
  }

  lemma OneHead(at: nat, a: seq<nat>, b: seq<nat>)
    ensures [at] + a == [at] + b <==> a == b
  {
    HeadsAndTails([at], a, [at], b);
  }

  /** The reader opens the brackets a browser opens, at every one of them and nowhere else,
      exactly when no `[` byte stands in an escape or a string. */
  lemma {:induction false} BracketsAgreeExactly(s: Text, at: nat, ps: seq<Piece>)
    requires StandardLaid(s, at, ps)
    ensures Opened(s, at) == Brackets(s, at, ps) <==> NoOpenElsewhere(s, at, ps)
    decreases |ps|
  {
    if ps == [] {
      TailOpened(s, at);
    } else {
      var past, rest := PastPiece(at, ps[0]), ps[1..];
      BracketsAgreeExactly(s, past, rest);
      if ps[0].Bracketed? {
        BracketOpened(s, at, ps[0].items);
        OneHead(at, Opened(s, past), Brackets(s, past, rest));
      } else if NoOpen(s, at, past) {
        OpenedSkips(s, at, past);
      } else {
        OpenedFirst(s, at, past);
        BracketsStand(s, past, rest);
      }
    }
  }

  // ------------------------------------------------------------ where else one can stand

  predicate HoldsOpen(ks: seq<Chunk>) { Bare(OPEN) in ks || Pair(OPEN) in ks }

  lemma {:induction false} ChunksHold(s: Text, at: nat, ks: seq<Chunk>, quote: Byte)
    requires ChunksAt(s, at, ks, quote)
    ensures HoldsOpen(ks) <==> !NoOpen(s, at, EndOfChunks(at, ks))
    decreases |ks|
  {
    if ks != [] {
      var next := at + Width(ks[0]);
      assert ks == [ks[0]] + ks[1..];
      ChunksHold(s, next, ks[1..], quote);
      NoOpenSplits(s, at, next, EndOfChunks(at, ks));
    }
  }

  lemma NoOpenSplits(s: Text, from: nat, mid: nat, to: nat)
    requires from <= mid <= to
    ensures NoOpen(s, from, to) <==> NoOpen(s, from, mid) && NoOpen(s, mid, to)
  {
  }

  /** A byte that no name and no hex escape holds. */
  predicate IsSyntax(b: Byte) { !IsIdentByte(b) && !IsSpace(b) && b != BACKSLASH && b != 0 }

  lemma ByteSplits(s: Text, from: nat, mid: nat, to: nat, b: Byte)
    requires from <= mid <= to
    ensures NoByte(s, from, to, b) <==> NoByte(s, from, mid, b) && NoByte(s, mid, to, b)
  {
  }

  lemma UnitHolds(s: Text, at: nat, u: Unit, b: Byte)
    requires StandardAt(s, at, u) && IsSyntax(b)
    ensures u == Escaped(b) <==> !NoByte(s, at, at + Size(u), b)
  {
    if u.Hex? {
      forall i | at <= i < at + Size(u) ensures s[i] != b {
        if at + 1 <= i < at + 1 + |u.digits| { assert s[at + 1 + (i - at - 1)] == u.digits[i - at - 1]; }
      }
    } else if u.Escaped? {
      assert s[at + 1] == u.c;
    }
  }

  lemma {:induction false} UnitsHold(s: Text, at: nat, us: seq<Unit>, b: Byte)
    requires StandardSpelled(s, at, us) && IsSyntax(b)
    ensures Escaped(b) in us <==> !NoByte(s, at, EndOf(at, us), b)
    decreases |us|
  {
    if us != [] {
      var next := at + Size(us[0]);
      assert us == [us[0]] + us[1..];
      UnitHolds(s, at, us[0], b);
      UnitsHold(s, next, us[1..], b);
      ByteSplits(s, at, next, EndOf(at, us), b);
    }
  }

  /** The piece is an escape of the byte, or a class name that holds one. */
  predicate EscapesByte(p: Piece, b: Byte) {
    p == Escape(Escaped(b)) || (p.Class? && Escaped(b) in p.us)
  }

  /** Outside strings and brackets the byte stands by itself or in an escape of it. */
  lemma WhereByteStands(s: Text, at: nat, p: Piece, b: Byte)
    requires StandardPieceAt(s, at, p) && !p.Bracketed? && !p.Str? && IsSyntax(b) && b != DOT
    ensures !NoByte(s, at, PastPiece(at, p), b) <==> p == Other(b) || EscapesByte(p, b)
  {
    match p
    case Other(_) =>
    case Escape(u) => UnitHolds(s, at, u, b);
    case Class(us) =>
      UnitsHold(s, at + 1, us, b);
      ByteSplits(s, at, at + 1, EndOf(at + 1, us), b);
  }

  /** What holds a `[` byte is a string that holds one, or an escape of it, by itself or in
      a class name. */
  lemma WhereItStands(s: Text, at: nat, p: Piece)
    requires StandardPieceAt(s, at, p) && !p.Bracketed?
    ensures !NoOpen(s, at, PastPiece(at, p)) <==>
              || EscapesByte(p, OPEN)
              || (p.Str? && HoldsOpen(p.chunks))
  {
    if p.Str? {
      var close := EndOfChunks(at + 1, p.chunks);
      ChunksHold(s, at + 1, p.chunks, s[at]);
      NoOpenSplits(s, at, at + 1, close + 1);
      NoOpenSplits(s, at + 1, close, close + 1);
    } else {
      WhereByteStands(s, at, p, OPEN);
    }
  }

  // --------------------------------------------------------- the attribute of a bracket

  /** What stands before a local name: nothing, `*|`, or a name, which may be empty, and `|`. */
  datatype Namespace = Unqualified | AnyNamespace | InNamespace(us: seq<Unit>)

  datatype Attribute = Attribute(space: Namespace, local: seq<Unit>)

  function LocalOf(from: nat, space: Namespace): (start: nat)
    ensures start >= from
  {
    match space
    case Unqualified => from
    case AnyNamespace => from + 2
    case InNamespace(us) => EndOf(from, us) + 1
  }

  predicate NamespaceAt(s: Text, from: nat, space: Namespace) {
    match space
    case Unqualified => true
    case AnyNamespace => from < |s| && s[from] == STAR && IsBar(s, from + 1)
    case InNamespace(us) => IsStandard(s, from, us) && IsBar(s, EndOf(from, us))
  }

  /** After the name, and any space, the bracket or the text ends or an operator stands. */
  predicate NameDone(s: Text, after: nat) {
    after <= |s| &&
    var p := SpaceEnd(s, after);
    p == |s| || s[p] == CLOSE || Compares(s, after)
  }

  /** A browser reads this attribute in the bracket. */
  predicate AttributeAt(s: Text, at: nat, a: Attribute) {
    at < |s| && s[at] == OPEN &&
    var from := SpaceEnd(s, at + 1);
    var start := LocalOf(from, a.space);
    && NamespaceAt(s, from, a.space)
    && StartsName(s, start) && IsStandard(s, start, a.local) && NameDone(s, EndOf(start, a.local))
  }

  function StartOf(s: Text, at: nat, a: Attribute): nat
    requires at < |s|
  {
    LocalOf(SpaceEnd(s, at + 1), a.space)
  }

  /** What a browser reads: the folded local name, and whether its value is compared. */
  ghost function AttrOf(s: Text, at: nat, a: Attribute): AttrMatch
    requires AttributeAt(s, at, a)
  {
    SpelledIsStandard(s, StartOf(s, at, a), a.local);
    AttrMatch(Fold(StandardName(a.local)), Compares(s, EndOf(StartOf(s, at, a), a.local)))
  }

  /** The reader steps over the namespace: nothing in its name cuts it short. */
  predicate NamespaceRead(a: Attribute) {
    a.space.InNamespace? ==> Spellable(a.space.us)
  }

  ghost predicate LocalAlike(s: Text, at: nat, a: Attribute)
    requires AttributeAt(s, at, a)
  {
    SpelledIsStandard(s, StartOf(s, at, a), a.local);
    AlikeFrom(s, StartOf(s, at, a), a.local)
  }

  lemma DoneIsNoBar(s: Text, after: nat)
    requires NameDone(s, after)
    ensures !IsBar(s, after) && !(after < |s| && s[after] == BACKSLASH)
  {
    if after < |s| && !IsSpace(s[after]) { assert SpaceEnd(s, after) == after; }
  }

  lemma StopsAtLineFeed(s: Text, at: nat, u: Unit, name: Text)
    requires StandardAt(s, at, u) && u.Hex? && u.ending.CrLf?
    ensures IdentFrom(s, at, name).1 == at + Size(u) - 1 && s[at + Size(u) - 1] == LF
  {
    var cut := Hex(u.digits, Space(CR));
    assert UnitAt(s, at, cut);
    UnitReads(s, at, cut, name);
    assert s[at + Size(cut)] == LF;
  }

  /** A name a unit cuts short ends at no bar. */
  lemma {:induction false} CutAtNoBar(s: Text, at: nat, us: seq<Unit>, name: Text)
    requires at <= |s| && StandardSpelled(s, at, us) && !Spellable(us)
    ensures !IsBar(s, IdentFrom(s, at, name).1)
    decreases |us|
  {
    if UnitOk(us[0]) {
      UnitReads(s, at, us[0], name);
      CutAtNoBar(s, at + Size(us[0]), us[1..], name + Means(us[0]));
    } else if us[0].Hex? {
      StopsAtLineFeed(s, at, us[0], name);
    }
  }

  /** Where the scanner stops in a name no bar follows, none stands either. */
  lemma StopsAtNoBar(s: Text, at: nat, us: seq<Unit>)
    requires IsStandard(s, at, us) && NameDone(s, EndOf(at, us))
    ensures !IsBar(s, IdentFrom(s, at, []).1)
  {
    DoneIsNoBar(s, EndOf(at, us));
    if Spellable(us) {
      SpelledIsStandard(s, at, us);
      IdentReads(s, at, us, []);
    } else {
      CutAtNoBar(s, at, us, []);
    }
  }

  /** No prefix stands where the local name does. */
  lemma LocalStands(s: Text, at: nat, a: Attribute)
    requires AttributeAt(s, at, a)
    ensures LocalStart(s, StartOf(s, at, a)) == StartOf(s, at, a)
  {
    var start := StartOf(s, at, a);
    StopsAtNoBar(s, start, a.local);
    assert s[start] != STAR;
  }

  lemma NamespaceSteps(s: Text, from: nat, space: Namespace)
    requires from <= |s| && NamespaceAt(s, from, space) && StartsName(s, LocalOf(from, space))
    requires space.InNamespace? ==> Spellable(space.us)
    ensures LocalStart(s, from) == LocalStart(s, LocalOf(from, space))
  {
    var start := LocalOf(from, space);
    assert SpaceEnd(s, start) == start;
    match space
    case Unqualified =>
    case AnyNamespace => assert PrefixEnd(s, from) == start;
    case InNamespace(us) =>
      SpelledIsStandard(s, from, us);
      IdentReads(s, from, us, []);
      assert PrefixEnd(s, from) == start;
  }

  lemma NamespaceCut(s: Text, at: nat, a: Attribute)
    requires AttributeAt(s, at, a) && !NamespaceRead(a)
    ensures LocalStart(s, SpaceEnd(s, at + 1)) == SpaceEnd(s, at + 1) < StartOf(s, at, a)
  {
    var from, us := SpaceEnd(s, at + 1), a.space.us;
    CutAtNoBar(s, from, us, []);
    KindOf(s, from, us[0]);
    assert s[from] != STAR;
  }

  /** The reader's local name starts where a browser's does exactly when nothing cuts the
      namespace's name short. */
  lemma StartIsReadExactly(s: Text, at: nat, a: Attribute)
    requires AttributeAt(s, at, a)
    ensures LocalStart(s, SpaceEnd(s, at + 1)) == StartOf(s, at, a) <==> NamespaceRead(a)
  {
    if NamespaceRead(a) {
      NamespaceSteps(s, SpaceEnd(s, at + 1), a.space);
      LocalStands(s, at, a);
    } else {
      NamespaceCut(s, at, a);
    }
  }

  /** A name read alike is units the scanner knows, and perhaps one ended by CR LF. */
  lemma {:induction false} AlikeShape(s: Text, at: nat, us: seq<Unit>) returns (known: seq<Unit>, last: Option<Unit>)
    requires IsStandard(s, at, us) && AllStandard(us) && AlikeFrom(s, at, us)
    ensures Spellable(known) && SpelledAt(s, at, known)
    ensures last.None? ==> EndOf(at, us) == EndOf(at, known) && IdentEnds(s, EndOf(at, known))
    ensures last.Some? ==>
              && StandardAt(s, EndOf(at, known), last.value) && last.value.Hex? && last.value.ending.CrLf?
              && EndOf(at, us) == EndOf(at, known) + Size(last.value)
    decreases |us|
  {
    if us == [] {
      known, last := [], None;
    } else if us[0].Hex? && us[0].ending.CrLf? {
      known, last := [], Some(us[0]);
    } else {
      assert us[0] in us && us == [us[0]] + us[1..];
      known, last := AlikeShape(s, at + Size(us[0]), us[1..]);
      OneMoreUnit(s, at, us[0], known);
      known := [us[0]] + known;
    }
  }

  /** A name read alike ends where a browser's does, or before the line feed that ends it. */
  lemma AlikeEnds(s: Text, at: nat, us: seq<Unit>)
    requires IsStandard(s, at, us) && AllStandard(us) && AlikeFrom(s, at, us)
    ensures var end, read := EndOf(at, us), IdentFrom(s, at, []).1;
            end <= |s| && (read == end || (end > 0 && read == end - 1 && s[end - 1] == LF))
  {
    var known, last := AlikeShape(s, at, us);
    if last.None? {
      IdentReads(s, at, known, []);
    } else {
      KnownThenCut(s, at, known, last.value);
    }
  }

  lemma KnownThenCut(s: Text, at: nat, known: seq<Unit>, u: Unit)
    requires at <= |s| && Spellable(known) && SpelledAt(s, at, known)
    requires StandardAt(s, EndOf(at, known), u) && u.Hex? && u.ending.CrLf?
    ensures var end := EndOf(at, known) + Size(u); 0 < end <= |s| && IdentFrom(s, at, []).1 == end - 1 && s[end - 1] == LF
  {
    SpelledReads(s, at, known, []);
    StopsAtLineFeed(s, EndOf(at, known), u, [] + Name(known));
  }

  /** A name read from the offset adds at most a browser's length, and all of it only when
      it is read alike. */
  predicate Bounded(s: Text, at: nat, us: seq<Unit>, added: int)
    requires AllStandard(us)
  {
    added <= |StandardName(us)| && (added == |StandardName(us)| ==> AlikeFrom(s, at, us))
  }

  lemma KnownBounded(s: Text, at: nat, us: seq<Unit>, added: int)
    requires IsStandard(s, at, us) && AllStandard(us) && us != [] && UnitOk(us[0])
    requires AllStandard(us[1..]) && Bounded(s, at + Size(us[0]), us[1..], added)
    ensures Bounded(s, at, us, |Means(us[0])| + added)
  {
    assert us[0] in us;
    MeansAlike(us[0]);
  }

  lemma CutBounded(s: Text, at: nat, us: seq<Unit>)
    requires IsStandard(s, at, us) && AllStandard(us) && us != [] && us[0].Hex? && us[0].ending.CrLf?
    requires DigitsOk(us[0].digits)
    ensures Bounded(s, at, us, |Rune(Number(us[0].digits))|)
  {
    var u, rest := us[0], us[1..];
    assert u in us && StandardName(us) == StandardMeans(u) + StandardName(rest);
    ZeroIsTheDifference(Number(u.digits));
    if rest != [] { SomeName(rest); }
  }

  lemma RestOf(s: Text, at: nat, us: seq<Unit>)
    requires IsStandard(s, at, us) && AllStandard(us) && us != []
    ensures AllStandard(us[1..]) && IsStandard(s, at + Size(us[0]), us[1..]) && EndOf(at, us) == EndOf(at + Size(us[0]), us[1..])
    ensures StandardAt(s, at, us[0])
  {
    assert us == [us[0]] + us[1..];
    SpelledIsStandard(s, at, us);
  }

  /** A misread name is shorter than a browser's, or as long and not the same. */
  lemma {:induction false} NameLengths(s: Text, at: nat, us: seq<Unit>, name: Text)
    requires IsStandard(s, at, us) && AllStandard(us)
    requires !(EndOf(at, us) < |s| && s[EndOf(at, us)] == BACKSLASH)
    ensures Bounded(s, at, us, |IdentFrom(s, at, name).0| - |name|)
    decreases |us|
  {
    if us != [] {
      var u := us[0];
      RestOf(s, at, us);
      if UnitOk(u) {
        NameLengths(s, at + Size(u), us[1..], name + Means(u));
        UnitReads(s, at, u, name);
        KnownBounded(s, at, us, |IdentFrom(s, at, name).0| - |name + Means(u)|);
      } else if u.Hex? {
        CutReads(s, at, u, name);
        CutBounded(s, at, us);
      } else {
        SomeName(us);
      }
    }
  }

  lemma SameAnswer(s: Text, end: nat, after: nat)
    requires end <= |s| && (after == end || (end > 0 && after == end - 1 && s[after] == LF))
    ensures Compares(s, after) == Compares(s, end)
  {
  }

  /** Folded, a misread name is still another one. */
  lemma FoldedExactly(s: Text, start: nat, us: seq<Unit>)
    requires IsStandard(s, start, us) && AllStandard(us) && NameDone(s, EndOf(start, us))
    ensures Fold(IdentFrom(s, start, []).0) == Fold(StandardName(us)) <==> AlikeFrom(s, start, us)
  {
    DoneIsNoBar(s, EndOf(start, us));
    NameLengths(s, start, us, []);
    NameReadExactly(s, start, us, []);
    assert [] + StandardName(us) == StandardName(us);
  }

  lemma AlikeAnswers(s: Text, start: nat, us: seq<Unit>)
    requires IsStandard(s, start, us) && AllStandard(us) && AlikeFrom(s, start, us)
    ensures IdentFrom(s, start, []).1 <= |s| && EndOf(start, us) <= |s|
    ensures Compares(s, IdentFrom(s, start, []).1) == Compares(s, EndOf(start, us))
  {
    AlikeEnds(s, start, us);
    SameAnswer(s, EndOf(start, us), IdentFrom(s, start, []).1);
  }

  /** The reader finds the attribute of a bracket exactly when its local name is read
      alike. */
  lemma AttributeReadExactly(s: Text, at: nat, a: Attribute)
    requires AttributeAt(s, at, a) && NamespaceRead(a)
    ensures |ReadAttr(s, at)| <= 1
    ensures ReadAttr(s, at) == [AttrOf(s, at, a)] <==> LocalAlike(s, at, a)
  {
    var start := StartOf(s, at, a);
    StartIsReadExactly(s, at, a);
    SpelledIsStandard(s, start, a.local);
    FoldedExactly(s, start, a.local);
    assert a.local != [];
    SomeName(a.local);
    if LocalAlike(s, at, a) { AlikeAnswers(s, start, a.local); }
  }

  // -------------------------------------------------------------- the whole selector

  /** Each bracket names the attribute at its place in the list. */
  predicate Named(s: Text, offsets: seq<nat>, attrs: seq<Attribute>) {
    |attrs| == |offsets| && forall i :: 0 <= i < |offsets| ==> AttributeAt(s, offsets[i], attrs[i])
  }

  ghost predicate AllLocalsAlike(s: Text, offsets: seq<nat>, attrs: seq<Attribute>)
    requires Named(s, offsets, attrs)
  {
    forall i :: 0 <= i < |offsets| ==> LocalAlike(s, offsets[i], attrs[i])
  }

  predicate AllNamespacesRead(attrs: seq<Attribute>) {
    forall i :: 0 <= i < |attrs| ==> NamespaceRead(attrs[i])
  }

  /** The attributes a browser reads. */
  ghost function BrowserAttrs(s: Text, offsets: seq<nat>, attrs: seq<Attribute>): seq<AttrMatch>
    requires Named(s, offsets, attrs)
  {
    if offsets == [] then [] else [AttrOf(s, offsets[0], attrs[0])] + BrowserAttrs(s, offsets[1..], attrs[1..])
  }

  lemma FirstAndRest(s: Text, offsets: seq<nat>, attrs: seq<Attribute>)
    requires Named(s, offsets, attrs) && offsets != []
    ensures AllLocalsAlike(s, offsets, attrs) <==>
              LocalAlike(s, offsets[0], attrs[0]) && AllLocalsAlike(s, offsets[1..], attrs[1..])
  {
    if LocalAlike(s, offsets[0], attrs[0]) && AllLocalsAlike(s, offsets[1..], attrs[1..]) {
      forall i | 0 <= i < |offsets| ensures LocalAlike(s, offsets[i], attrs[i]) {
        assert i > 0 ==> offsets[i] == offsets[1..][i - 1] && attrs[i] == attrs[1..][i - 1];
      }
    }
    if AllLocalsAlike(s, offsets, attrs) {
      forall i | 0 <= i < |offsets| - 1 ensures LocalAlike(s, offsets[1..][i], attrs[1..][i]) {
        assert LocalAlike(s, offsets[i + 1], attrs[i + 1]);
      }
    }
  }

  lemma {:induction false} ListsAgreeExactly(s: Text, offsets: seq<nat>, attrs: seq<Attribute>)
    requires InText(s, 0, offsets) && Named(s, offsets, attrs) && AllNamespacesRead(attrs)
    ensures |AttrsAt(s, offsets)| <= |BrowserAttrs(s, offsets, attrs)|
    ensures AttrsAt(s, offsets) == BrowserAttrs(s, offsets, attrs) <==> AllLocalsAlike(s, offsets, attrs)
    decreases |offsets|
  {
    if offsets != [] {
      var first, named := ReadAttr(s, offsets[0]), AttrOf(s, offsets[0], attrs[0]);
      AttributeReadExactly(s, offsets[0], attrs[0]);
      ListsAgreeExactly(s, offsets[1..], attrs[1..]);
      FirstAndRest(s, offsets, attrs);
      if |first| == 1 {
        HeadsAndTails(first, AttrsAt(s, offsets[1..]), [named], BrowserAttrs(s, offsets[1..], attrs[1..]));
      }
    }
  }

  /** With no `[` byte in an escape or a string the attributes found are those of a
      browser's brackets, one that nothing closes among them, in order. */
  lemma AttrsOfBrackets(s: Text, ps: seq<Piece>)
    requires StandardLaid(s, 0, ps) && NoOpenElsewhere(s, 0, ps)
    ensures InText(s, 0, Brackets(s, 0, ps)) && AttrsFrom(s, 0, []) == AttrsAt(s, Brackets(s, 0, ps))
  {
    BracketsStand(s, 0, ps);
    BracketsAgreeExactly(s, 0, ps);
    ReadAtOffsets(s, 0, []);
    assert [] + AttrsAt(s, Opened(s, 0)) == AttrsAt(s, Opened(s, 0));
  }

  /** And they are the attributes a browser reads, in order and no others, exactly when every
      local name is read alike. */
  lemma AttrsAsABrowser(s: Text, ps: seq<Piece>, attrs: seq<Attribute>)
    requires StandardLaid(s, 0, ps) && NoOpenElsewhere(s, 0, ps)
    requires Named(s, Brackets(s, 0, ps), attrs) && AllNamespacesRead(attrs)
    ensures AttrsFrom(s, 0, []) == BrowserAttrs(s, Brackets(s, 0, ps), attrs) <==> AllLocalsAlike(s, Brackets(s, 0, ps), attrs)
  {
    AttrsOfBrackets(s, ps);
    ListsAgreeExactly(s, Brackets(s, 0, ps), attrs);
  }

  /** Nothing of a selector stands in the way of its attributes. */
  ghost predicate Readable(s: Text, ps: seq<Piece>, attrs: seq<Attribute>)
    requires StandardLaid(s, 0, ps)
  {
    && NoOpenElsewhere(s, 0, ps)
    && Named(s, Brackets(s, 0, ps), attrs) && AllNamespacesRead(attrs) && AllLocalsAlike(s, Brackets(s, 0, ps), attrs)
  }

  /** Two spellings of a selector in which a browser reads the same attributes are the same
      to the reader, whatever else they hold. */
  lemma SameAttrsToABrowser(s: Text, ps: seq<Piece>, attrs: seq<Attribute>, t: Text, qs: seq<Piece>, others: seq<Attribute>)
    requires StandardLaid(s, 0, ps) && Readable(s, ps, attrs)
    requires StandardLaid(t, 0, qs) && Readable(t, qs, others)
    requires BrowserAttrs(s, Brackets(s, 0, ps), attrs) == BrowserAttrs(t, Brackets(t, 0, qs), others)
    ensures AttrsFrom(s, 0, []) == AttrsFrom(t, 0, []) == BrowserAttrs(s, Brackets(s, 0, ps), attrs)
  {
    AttrsAsABrowser(s, ps, attrs);
    AttrsAsABrowser(t, qs, others);
  }

  // ----------------------------------------------------------------------- at inputs

  const PAREN: Byte := 0x28
  const END_PAREN: Byte := 0x29
  const LETTER_B: Byte := 0x62

  lemma Parenthesis(s: Text, at: nat)
    requires at <= |s| && (at < |s| ==> s[at] == END_PAREN)
    ensures SpaceEnd(s, at) == at && IdentFrom(s, at, []) == ([], at) && LocalStart(s, at) == at
  {
  }

  predicate EndsInB(s: Text, at: nat) {
    at + 3 == |s| && s[at] == OPEN && s[at + 1] == LETTER_B && s[at + 2] == CLOSE
  }

  /** A bracket that names `b`. */
  lemma NamesB(s: Text, at: nat)
    requires EndsInB(s, at)
    ensures AttributeAt(s, at, Attribute(Unqualified, [Plain(LETTER_B)]))
  {
    var us := [Plain(LETTER_B)];
    assert us[1..] == [];
    assert StandardSpelled(s, at + 2, []) && EndOf(at + 2, []) == at + 2;
    assert StandardAt(s, at + 1, us[0]) && StandardSpelled(s, at + 1, us) && EndOf(at + 1, us) == at + 2;
    assert SpaceEnd(s, at + 1) == at + 1 && SpaceEnd(s, at + 2) == at + 2;
  }

  lemma BracketB(s: Text, at: nat)
    requires EndsInB(s, at)
    ensures var p := Bracketed([Loose(Bare(LETTER_B))]); StandardPieceAt(s, at, p) && PastPiece(at, p) == |s|
  {
    var items := [Loose(Bare(LETTER_B))];
    assert items[1..] == [];
    assert ItemsAt(s, at + 2, []) && EndOfItems(at + 2, []) == at + 2;
    assert ItemsAt(s, at + 1, items) && EndOfItems(at + 1, items) == at + 2;
  }

  lemma ReadsB(s: Text, at: nat)
    requires EndsInB(s, at)
    ensures AttrsFrom(s, at, []) == [AttrMatch([LETTER_B], false)]
  {
    UnitReads(s, at + 1, Plain(LETTER_B), []);
    assert [] + [LETTER_B] == [LETTER_B];
    assert IdentFrom(s, at + 1, []) == ([LETTER_B], at + 2);
    assert SpaceEnd(s, at + 1) == at + 1 && LocalStart(s, at + 1) == at + 1;
    FoldB();
    assert ReadAttr(s, at) == [AttrMatch([LETTER_B], false)];
    BracketStep(s, at, []);
    assert PastBracket(s, at) == BracketEnd(s, at + 2) == at + 3;
    assert [] + ReadAttr(s, at) == ReadAttr(s, at);
  }

  lemma FoldB()
    ensures Fold([LETTER_B]) == [LETTER_B]
  {
  }

  const ESCAPED: Text := [PAREN, DOT, BACKSLASH, OPEN, END_PAREN, OPEN, LETTER_B, CLOSE]
  const QUOTED: Text := [PAREN, QUOTE, OPEN, QUOTE, END_PAREN, OPEN, LETTER_B, CLOSE]

  /** A parenthesis, one piece, a parenthesis, and a bracket that names `b`. */
  function Around(p: Piece): seq<Piece> {
    [Other(PAREN), p, Other(END_PAREN), Bracketed([Loose(Bare(LETTER_B))])]
  }

  lemma AroundLaid(s: Text, p: Piece)
    requires |s| == 8 && s[0] == PAREN && s[4] == END_PAREN && EndsInB(s, 5)
    requires StandardPieceAt(s, 1, p) && PastPiece(1, p) == 4 && !p.Bracketed?
    ensures StandardLaid(s, 0, Around(p)) && Brackets(s, 0, Around(p)) == [5]
  {
    var four := Around(p);
    var three, two, one := four[1..], four[2..], four[3..];
    assert three[1..] == two && two[1..] == one && one[1..] == [];
    BracketB(s, 5);
    assert StandardLaid(s, 8, []) && Brackets(s, 8, []) == [];
    assert StandardLaid(s, 5, one) && Brackets(s, 5, one) == [5];
    assert StandardLaid(s, 4, two) && Brackets(s, 4, two) == [5];
    assert StandardLaid(s, 1, three) && Brackets(s, 1, three) == [5];
  }

  lemma EscapedLaid()
    ensures StandardLaid(ESCAPED, 0, Around(Class([Escaped(OPEN)]))) && Brackets(ESCAPED, 0, Around(Class([Escaped(OPEN)]))) == [5]
  {
    var s, u := ESCAPED, Escaped(OPEN);
    var us := [u];
    assert us[1..] == [];
    assert StandardAt(s, 2, u) && StandardSpelled(s, 4, []) && EndOf(2, us) == EndOf(4, []) == 4;
    AroundLaid(s, Class(us));
  }

  /** `(.\[)[b]`: the bracket is unseen. */
  lemma EscapedBracketHides()
    ensures StandardLaid(ESCAPED, 0, Around(Class([Escaped(OPEN)]))) && Brackets(ESCAPED, 0, Around(Class([Escaped(OPEN)]))) == [5]
    ensures AttributeAt(ESCAPED, 5, Attribute(Unqualified, [Plain(LETTER_B)]))
    ensures AttrsFrom(ESCAPED, 0, []) == []
  {
    var s := ESCAPED;
    EscapedLaid();
    NamesB(s, 5);
    Parenthesis(s, 4);
    assert BracketEnd(s, 4) == BracketEnd(s, 5) == BracketEnd(s, 6) == BracketEnd(s, 7) == 8;
    BracketStep(s, 3, []);
    assert AttrsFrom(s, 0, []) == AttrsFrom(s, 1, []) == AttrsFrom(s, 2, []) == AttrsFrom(s, 3, []);
  }

  /** `(.\5b )[b]`: the same selector respelled, and the bracket is seen. */
  lemma RespelledBracketShows()
    ensures var s := [PAREN, DOT, BACKSLASH, 0x35, LETTER_B, 0x20, END_PAREN, OPEN, LETTER_B, CLOSE];
            AttrsFrom(s, 0, []) == [AttrMatch([LETTER_B], false)]
  {
    var s := [PAREN, DOT, BACKSLASH, 0x35, LETTER_B, 0x20, END_PAREN, OPEN, LETTER_B, CLOSE];
    ReadsB(s, 7);
    assert AttrsFrom(s, 0, []) == AttrsFrom(s, 1, []) == AttrsFrom(s, 2, []) == AttrsFrom(s, 3, []) == AttrsFrom(s, 4, []);
    assert AttrsFrom(s, 4, []) == AttrsFrom(s, 5, []) == AttrsFrom(s, 6, []) == AttrsFrom(s, 7, []);
  }

  lemma QuotedLaid()
    ensures StandardLaid(QUOTED, 0, Around(Str([Bare(OPEN)]))) && Brackets(QUOTED, 0, Around(Str([Bare(OPEN)]))) == [5]
  {
    var s, ks := QUOTED, [Bare(OPEN)];
    assert ks[1..] == [];
    assert ChunksAt(s, 3, [], QUOTE) && EndOfChunks(3, []) == 3 && EndOfChunks(2, ks) == 3 && StringAt(s, 1, ks);
    AroundLaid(s, Str(ks));
  }

  /** `("[")[b]`: a string hides it as well. */
  lemma QuotedBracketHides()
    ensures StandardLaid(QUOTED, 0, Around(Str([Bare(OPEN)]))) && Brackets(QUOTED, 0, Around(Str([Bare(OPEN)]))) == [5]
    ensures AttributeAt(QUOTED, 5, Attribute(Unqualified, [Plain(LETTER_B)]))
    ensures AttrsFrom(QUOTED, 0, []) == []
  {
    var s := QUOTED;
    QuotedLaid();
    NamesB(s, 5);
    assert IdentFrom(s, 3, []) == ([], 3) && LocalStart(s, 3) == 3 && SpaceEnd(s, 3) == 3;
    assert StringTail(s, 4, QUOTE) == StringTail(s, 5, QUOTE) == StringTail(s, 6, QUOTE) == StringTail(s, 7, QUOTE) == StringTail(s, 8, QUOTE) == 8;
    assert BracketEnd(s, 3) == 8;
    BracketStep(s, 2, []);
    assert AttrsFrom(s, 0, []) == AttrsFrom(s, 1, []) == AttrsFrom(s, 2, []);
  }
}
