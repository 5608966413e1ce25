/** Which classes a browser reads in a whole selector, and exactly when the class reader
    finds the same.  A name starts only where section 4.3.9 of CSS Syntax Module Level 3
    lets an identifier start; strings and brackets are laid out as the reader lays them. */
module CssClasses {
  import opened Options
  import opened CssNames
  import opened CssSpellings
  import opened CssStandard
  import opened CssSelectors

  const HYPHEN: Byte := 0x2D

  // ------------------------------------------------------------ where a name may start

  predicate IsNameStart(c: Byte) { c == 0 || c == 0x5F || IsLetter(c) || c >= 0x80 }

  /** A `\` that does not stand before a newline. */
  predicate EscapeStarts(s: Text, at: nat) {
    at < |s| && s[at] == BACKSLASH && !(at + 1 < |s| && IsNewline(s[at + 1]))
  }

  predicate StartsName(s: Text, at: nat) {
    at < |s| &&
    if s[at] == HYPHEN then at + 1 < |s| && (IsNameStart(s[at + 1]) || s[at + 1] == HYPHEN || EscapeStarts(s, at + 1))
    else IsNameStart(s[at]) || EscapeStarts(s, at)
  }

  lemma KeepsName(s: Text, at: nat, name: Text)
    requires at <= |s|
    ensures |IdentFrom(s, at, name).0| >= |name| && IdentFrom(s, at, name).0[..|name|] == name
  {
    var us := ReadIsSpelled(s, at, name);
  }

  /** Where no identifier starts the scanner still reads a name exactly when a digit, a
      hyphen or a `\` stands there. */
  lemma ReadsWhereNoneStarts(s: Text, at: nat)
    requires at <= |s| && !StartsName(s, at)
    ensures var name := IdentFrom(s, at, []).0;
            && (name != [] <==> at < |s| && (IsDigit(s[at]) || s[at] == HYPHEN || s[at] == BACKSLASH))
            && (name != [] ==> name[0] != 0xEF)
  {
    if at < |s| && s[at] == BACKSLASH {
      assert EscapeAt(s, at) == (Some([s[at + 1]]), at + 2);
      assert [] + [s[at + 1]] == [s[at + 1]];
      KeepsName(s, at + 2, [s[at + 1]]);
    } else if at < |s| && IsIdentByte(s[at]) {
      assert [] + [s[at]] == [s[at]];
      KeepsName(s, at + 1, [s[at]]);
    }
  }

  /** `.5a` addresses no class, and the class reader finds one. */
  lemma ClassOfADigit()
    ensures !StartsName([DOT, 0x35, 0x61], 1) && ClassesFrom([DOT, 0x35, 0x61], 0, []) == [[0x35, 0x61]]
  {
    var s := [DOT, 0x35, 0x61];
    UnitReads(s, 1, Plain(0x35), []);
    UnitReads(s, 2, Plain(0x61), [0x35]);
    assert [] + [0x35 as Byte] == [0x35] && [0x35 as Byte] + [0x61] == [0x35, 0x61];
    assert IdentFrom(s, 1, []) == ([0x35, 0x61], 3);
    var none: seq<Text> := [];
    assert none + [[0x35, 0x61]] == [[0x35, 0x61]];
  }

  // ---------------------------------------------------------------------- the layout

  /** A piece of a selector as a browser reads it. */
  predicate StandardPieceAt(s: Text, at: nat, p: Piece) {
    at < |s| &&
    match p
    case Other(b) =>
      s[at] == b && !IsQuote(b) && b != OPEN && (b == DOT ==> !StartsName(s, at + 1)) && !EscapeStarts(s, at)
    case Escape(u) => StandardAt(s, at, u) && !u.Plain?
    case Class(us) => s[at] == DOT && StartsName(s, at + 1) && IsStandard(s, at + 1, us)
    case Bracketed(items) => s[at] == OPEN && ClosesAfter(s, at + 1, items)
    case Str(chunks) => StringAt(s, at, chunks)
  }

  ghost predicate StandardLaid(s: Text, at: nat, ps: seq<Piece>)
    decreases |ps|
  {
    if ps == [] then at == |s| || OpenString(s, at) || OpenBracket(s, at)
    else StandardPieceAt(s, at, ps[0]) && StandardLaid(s, PastPiece(at, ps[0]), ps[1..])
  }

  lemma EscapeHere(s: Text, at: nat) returns (u: Unit)
    requires EscapeStarts(s, at)
    ensures StandardAt(s, at, u) && !u.Plain?
  {
    u := StandardHere(s, at);
  }

  lemma StandardPieceHere(s: Text, at: nat) returns (p: Piece)
    requires at < |s| && !OpenString(s, at) && !OpenBracket(s, at)
    ensures StandardPieceAt(s, at, p) && PastPiece(at, p) <= |s|
  {
    if s[at] == OPEN {
      var items :| ClosesAfter(s, at + 1, items);
      p := Bracketed(items);
    } else if IsQuote(s[at]) {
      var ks :| StringAt(s, at, ks);
      p := Str(ks);
    } else if EscapeStarts(s, at) {
      var u := EscapeHere(s, at);
      p := Escape(u);
    } else if s[at] == DOT && StartsName(s, at + 1) {
      var us := NameHere(s, at + 1);
      SpelledIsStandard(s, at + 1, us);
      p := Class(us);
    } else {
      p := Other(s[at]);
    }
  }

  /** A browser reads every selector in such pieces. */
  lemma {:induction false} StandardLayOut(s: Text, at: nat) returns (ps: seq<Piece>)
    requires at <= |s|
    ensures StandardLaid(s, at, ps)
    decreases |s| - at
  {
    if at == |s| || OpenString(s, at) || OpenBracket(s, at) {
      ps := [];
    } else {
      var p := StandardPieceHere(s, at);
      var rest := StandardLayOut(s, PastPiece(at, p));
      ps := [p] + rest;
      assert ps[1..] == rest;
    }
  }

  // ------------------------------------------------------- what the class reader finds

  /** What the reader adds at a piece: a name read after a dot, if there is one. */
  function Found(s: Text, at: nat): seq<Text>
    requires at < |s|
  {
    if s[at] == DOT && IdentFrom(s, at + 1, []).0 != [] then [IdentFrom(s, at + 1, []).0] else []
  }

  ghost function FoundAll(s: Text, at: nat, ps: seq<Piece>): seq<Text>
    requires StandardLaid(s, at, ps)
    decreases |ps|
  {
    if ps == [] then [] else Found(s, at) + FoundAll(s, PastPiece(at, ps[0]), ps[1..])
  }

  lemma UnitSkips(s: Text, at: nat, u: Unit, out: seq<Text>)
    requires UnitOk(u) && UnitAt(s, at, u)
    ensures ClassesFrom(s, at, out) == ClassesFrom(s, at + Size(u), out)
  {
    if !u.Plain? { EscapeReads(s, at, u); }
  }

  lemma {:induction false} SpelledSkips(s: Text, at: nat, us: seq<Unit>, out: seq<Text>)
    requires Spellable(us) && SpelledAt(s, at, us)
    ensures ClassesFrom(s, at, out) == ClassesFrom(s, EndOf(at, us), out)
    decreases |us|
  {
    if us != [] {
      UnitSkips(s, at, us[0], out);
      SpelledSkips(s, at + Size(us[0]), us[1..], out);
    }
  }

  /** A unit only a browser knows is skipped as well, by two steps. */
  lemma StandardUnitSkips(s: Text, at: nat, u: Unit, out: seq<Text>)
    requires StandardAt(s, at, u)
    ensures ClassesFrom(s, at, out) == ClassesFrom(s, at + Size(u), out)
  {
    if UnitOk(u) {
      UnitSkips(s, at, u, out);
    } else if u.Hex? {
      var cut := Hex(u.digits, Space(CR));
      assert UnitAt(s, at, cut);
      UnitSkips(s, at, cut, out);
    }
  }

  lemma {:induction false} StandardSkips(s: Text, at: nat, us: seq<Unit>, out: seq<Text>)
    requires StandardSpelled(s, at, us)
    ensures ClassesFrom(s, at, out) == ClassesFrom(s, EndOf(at, us), out)
    decreases |us|
  {
    if us != [] {
      StandardUnitSkips(s, at, us[0], out);
      StandardSkips(s, at + Size(us[0]), us[1..], out);
    }
  }

  /** After a dot the reader goes on as if it had read no name at all. */
  lemma DotReads(s: Text, at: nat, out: seq<Text>)
    requires at < |s| && s[at] == DOT
    ensures ClassesFrom(s, at, out) == ClassesFrom(s, at + 1, out + Found(s, at))
  {
    var us := ReadIsSpelled(s, at + 1, []);
    SpelledSkips(s, at + 1, us, out + Found(s, at));
    assert out + [] == out;
  }

  lemma PlainPieceReads(s: Text, at: nat, b: Byte, out: seq<Text>)
    requires StandardPieceAt(s, at, Other(b))
    ensures ClassesFrom(s, at, out) == ClassesFrom(s, at + 1, out + Found(s, at))
  {
    if b == DOT {
      DotReads(s, at, out);
    } else {
      assert out + Found(s, at) == out;
      if b == BACKSLASH {
        assert ClassesFrom(s, at, out) == ClassesFrom(s, at + 2, out) == ClassesFrom(s, at + 1, out);
      }
    }
  }

  lemma StandardPieceReads(s: Text, at: nat, p: Piece, out: seq<Text>)
    requires StandardPieceAt(s, at, p)
    ensures ClassesFrom(s, at, out) == ClassesFrom(s, PastPiece(at, p), out + Found(s, at))
  {
    match p
    case Other(b) => PlainPieceReads(s, at, b, out);
    case Class(us) =>
      DotReads(s, at, out);
      StandardSkips(s, at + 1, us, out + Found(s, at));
    case Escape(u) =>
      assert out + Found(s, at) == out;
      StandardUnitSkips(s, at, u, out);
    case Bracketed(items) =>
      assert out + Found(s, at) == out;
      BracketPieceReads(s, at, items, out);
    case Str(chunks) =>
      assert out + Found(s, at) == out;
      StringSkips(s, at, chunks);
  }

  lemma {:induction false} FindsAll(s: Text, at: nat, ps: seq<Piece>, out: seq<Text>)
    requires StandardLaid(s, at, ps)
    ensures ClassesFrom(s, at, out) == out + FoundAll(s, at, ps)
    decreases |ps|
  {
    if ps == [] {
      assert out + [] == out;
      TailHasNone(s, at, out);
    } else {
      var past := PastPiece(at, ps[0]);
      StandardPieceReads(s, at, ps[0], out);
      FindsAll(s, past, ps[1..], out + Found(s, at));
      ListsJoin(out, Found(s, at), FoundAll(s, past, ps[1..]));
    }
  }

  // ------------------------------------------------------------ when a name is the same

  /** The scanner reads the name a browser reads: every unit alike, except that an escape
      ended by CR LF may be the last, and no `\` before a newline follows. */
  predicate AlikeFrom(s: Text, at: nat, us: seq<Unit>)
    requires AllStandard(us)
    decreases |us|
  {
    if us == [] then !(at < |s| && s[at] == BACKSLASH)
    else
      assert us[0] in us;
      if us[0].Hex? && us[0].ending.CrLf? then Number(us[0].digits) != 0 && us[1..] == []
      else ReadAlike(us[0]) && AlikeFrom(s, at + Size(us[0]), us[1..])
  }

  lemma SomeName(us: seq<Unit>)
    requires AllStandard(us) && us != []
    ensures StandardName(us) != []
  {
    assert us[0] in us;
  }

  /** A unit read as something else is U+FFFD for a browser, and a zero byte or nothing for
      the scanner. */
  lemma UnlikeMeans(u: Unit)
    requires StandardOk(u) && !ReadAlike(u) && !(u.Hex? && u.ending.CrLf?)
    ensures StandardMeans(u) == REPLACEMENT
    ensures u == Plain(0) || (UnitOk(u) && (if u.AtEnd? then Means(u) == [] else Means(u) == [0]))
  {
    assert StandardRune(0) == REPLACEMENT;
  }

  lemma UnlikeReads(s: Text, at: nat, us: seq<Unit>, name: Text)
    requires at <= |s| && StandardSpelled(s, at, us) && us != [] && AllStandard(us)
    requires !ReadAlike(us[0]) && !(us[0].Hex? && us[0].ending.CrLf?)
    ensures IdentFrom(s, at, name).0 != name + StandardName(us)
  {
    var u, rest := us[0], StandardName(us[1..]);
    assert u in us;
    UnlikeMeans(u);
    assert StandardName(us) == REPLACEMENT + rest;
    if u == Plain(0) || u.AtEnd? {
      NothingRead(s, at, u, name);
      assert |name + (REPLACEMENT + rest)| > |name|;
    } else {
      ZeroRead(s, at, u, name);
      NotTheSame(name, [0], REPLACEMENT, rest, IdentFrom(s, at, name).0);
    }
  }

  lemma NothingRead(s: Text, at: nat, u: Unit, name: Text)
    requires StandardAt(s, at, u) && (u == Plain(0) || u.AtEnd?)
    ensures IdentFrom(s, at, name).0 == name
  {
    if u.AtEnd? {
      UnitReads(s, at, u, name);
      assert name + [] == name;
    }
  }

  lemma ZeroRead(s: Text, at: nat, u: Unit, name: Text)
    requires UnitOk(u) && UnitAt(s, at, u) && Means(u) == [0]
    ensures var read := IdentFrom(s, at, name).0;
            |read| >= |name + [0]| && read[..|name + [0]|] == name + [0]
  {
    UnitReads(s, at, u, name);
    KeepsName(s, at + Size(u), name + [0]);
  }

  lemma NotTheSame(name: Text, means: Text, standard: Text, rest: Text, read: Text)
    requires |read| >= |name + means| && read[..|name + means|] == name + means
    requires standard != [] && means != [] ==> means[0] != standard[0]
    ensures standard != [] && means != [] ==> read != name + (standard + rest)
  {
    if standard != [] && means != [] {
      assert read[|name|] == (name + means)[|name|] == means[0];
      assert (name + (standard + rest))[|name|] == standard[0];
    }
  }

  lemma CutReads(s: Text, at: nat, u: Unit, name: Text)
    requires StandardAt(s, at, u) && u.Hex? && u.ending.CrLf?
    ensures IdentFrom(s, at, name).0 == name + Rune(Number(u.digits))
  {
    var cut := Hex(u.digits, Space(CR));
    assert UnitAt(s, at, cut);
    UnitReads(s, at, cut, name);
    assert s[at + Size(cut)] == LF;
  }

  lemma CutExactly(s: Text, at: nat, us: seq<Unit>, name: Text)
    requires at <= |s| && StandardSpelled(s, at, us) && us != [] && AllStandard(us)
    requires us[0].Hex? && us[0].ending.CrLf?
    ensures IdentFrom(s, at, name).0 == name + StandardName(us) <==> Number(us[0].digits) != 0 && us[1..] == []
  {
    var u, rest := us[0], us[1..];
    var v := Number(u.digits);
    assert u in us;
    CutReads(s, at, u, name);
    ZeroIsTheDifference(v);
    assert StandardName(us) == StandardRune(v) + StandardName(rest);
    if rest != [] { SomeName(rest); }
  }

  lemma EndExactly(s: Text, at: nat, name: Text)
    requires at <= |s| && StandardEnds(s, at)
    ensures IdentFrom(s, at, name).0 == name <==> !(at < |s| && s[at] == BACKSLASH)
  {
    if at < |s| && s[at] == BACKSLASH {
      assert EscapeAt(s, at) == (Some([s[at + 1]]), at + 2);
      KeepsName(s, at + 2, name + [s[at + 1]]);
    }
  }

  /** The scanner reads a browser's name, after what it read before. */
  predicate ReadAsName(s: Text, at: nat, us: seq<Unit>, name: Text)
    requires at <= |s| && AllStandard(us)
  {
    IdentFrom(s, at, name).0 == name + StandardName(us)
  }

  /** The scanner's name is a browser's exactly then. */
  lemma {:induction false} NameReadExactly(s: Text, at: nat, us: seq<Unit>, name: Text)
    requires IsStandard(s, at, us) && AllStandard(us)
    ensures ReadAsName(s, at, us, name) <==> AlikeFrom(s, at, us)
    decreases |us|
  {
    if us == [] {
      assert name + [] == name;
      EndExactly(s, at, name);
    } else if us[0].Hex? && us[0].ending.CrLf? {
      CutExactly(s, at, us, name);
    } else if !ReadAlike(us[0]) {
      UnlikeReads(s, at, us, name);
    } else {
      AlikeReads(s, at, us, name);
      NameReadExactly(s, at + Size(us[0]), us[1..], name + Means(us[0]));
    }
  }

  lemma AlikeReads(s: Text, at: nat, us: seq<Unit>, name: Text)
    requires IsStandard(s, at, us) && AllStandard(us) && us != [] && ReadAlike(us[0])
    ensures AllStandard(us[1..]) && IsStandard(s, at + Size(us[0]), us[1..])
    ensures ReadAsName(s, at, us, name) <==> ReadAsName(s, at + Size(us[0]), us[1..], name + Means(us[0]))
    ensures AlikeFrom(s, at, us) <==> AlikeFrom(s, at + Size(us[0]), us[1..])
  {
    assert us == [us[0]] + us[1..];
    MeansAlike(us[0]);
    UnitReads(s, at, us[0], name);
    Joins(name, Means(us[0]), StandardName(us[1..]));
  }

  // --------------------------------------------------------------- the whole selector

  /** The classes a browser reads. */
  ghost function StandardClasses(s: Text, at: nat, ps: seq<Piece>): seq<Text>
    requires StandardLaid(s, at, ps)
    decreases |ps|
  {
    if ps == [] then [] else ClassOf(s, at, ps[0]) + StandardClasses(s, PastPiece(at, ps[0]), ps[1..])
  }

  ghost function ClassOf(s: Text, at: nat, p: Piece): seq<Text>
    requires StandardPieceAt(s, at, p)
  {
    if p.Class? then SpelledIsStandard(s, at + 1, p.us); [StandardName(p.us)] else []
  }

  /** Every class name is read as a browser reads it. */
  ghost predicate NamesAlike(s: Text, at: nat, ps: seq<Piece>)
    requires StandardLaid(s, at, ps)
    decreases |ps|
  {
    ps == [] || (NameAlike(s, at, ps[0]) && NamesAlike(s, PastPiece(at, ps[0]), ps[1..]))
  }

  ghost predicate NameAlike(s: Text, at: nat, p: Piece)
    requires StandardPieceAt(s, at, p)
  {
    if p.Class? then SpelledIsStandard(s, at + 1, p.us); AlikeFrom(s, at + 1, p.us) else true
  }

  /** No dot stands before a digit, a hyphen or a `\` that starts no name. */
  ghost predicate NoStrayNames(s: Text, at: nat, ps: seq<Piece>)
    requires StandardLaid(s, at, ps)
    decreases |ps|
  {
    ps == [] || (!Stray(s, at, ps[0]) && NoStrayNames(s, PastPiece(at, ps[0]), ps[1..]))
  }

  predicate Stray(s: Text, at: nat, p: Piece) {
    p == Other(DOT) && at + 1 < |s| && (IsDigit(s[at + 1]) || s[at + 1] == HYPHEN || s[at + 1] == BACKSLASH)
  }

  /** How many names begin with the first byte of U+FFFD. */
  function Marked(names: seq<Text>): nat {
    if names == [] then 0 else (if names[0] != [] && names[0][0] == 0xEF then 1 else 0) + Marked(names[1..])
  }

  lemma {:induction false} MarkedJoins(a: seq<Text>, b: seq<Text>)
    ensures Marked(a + b) == Marked(a) + Marked(b)
  {
    if a == [] {
      assert a + b == b;
    } else {
      assert (a + b)[1..] == a[1..] + b;
      MarkedJoins(a[1..], b);
    }
  }

  /** A class the scanner reads no name for begins with U+FFFD for a browser; one it reads
      a name for that begins so does as well. */
  lemma ClassMarks(s: Text, at: nat, us: seq<Unit>)
    requires StandardPieceAt(s, at, Class(us))
    ensures var found, named := Found(s, at), ClassOf(s, at, Class(us));
            && |named| == 1 && |found| <= 1
            && Marked(found) + (1 - |found|) <= Marked(named)
            && (found == named <==> NameAlike(s, at, Class(us)))
  {
    SpelledIsStandard(s, at + 1, us);
    NameReadExactly(s, at + 1, us, []);
    assert [] + StandardName(us) == StandardName(us);
    assert us != [];
    SomeName(us);
    FirstByte(s, at + 1, us);
    var found, named := Found(s, at), [StandardName(us)];
    assert Marked(named) == if StandardName(us)[0] == 0xEF then 1 else 0;
    if found != [] {
      assert Marked(found) == if found[0][0] == 0xEF then 1 else 0;
    }
  }

  lemma FirstUnit(us: seq<Unit>)
    requires AllStandard(us) && us != []
    ensures StandardOk(us[0]) && StandardMeans(us[0]) != [] && StandardName(us)[0] == StandardMeans(us[0])[0]
  {
    assert us[0] in us;
  }

  /** The first byte of a name is a browser's, or a browser's begins with U+FFFD. */
  lemma FirstByte(s: Text, at: nat, us: seq<Unit>)
    requires IsStandard(s, at, us) && AllStandard(us) && us != []
    ensures StandardName(us) != []
    ensures var name := IdentFrom(s, at, []).0; (name != [] && name[0] == StandardName(us)[0]) || StandardName(us)[0] == 0xEF
  {
    var u := us[0];
    FirstUnit(us);
    if u.Hex? && u.ending.CrLf? {
      FirstOfCut(s, at, u);
    } else if ReadAlike(u) {
      MeansAlike(u);
      UnitReads(s, at, u, []);
      KeepsName(s, at + Size(u), [] + Means(u));
      HeadOf(IdentFrom(s, at, []).0, Means(u));
    } else {
      UnlikeMeans(u);
    }
  }

  lemma FirstOfCut(s: Text, at: nat, u: Unit)
    requires StandardAt(s, at, u) && u.Hex? && u.ending.CrLf?
    ensures var name := IdentFrom(s, at, []).0; (name != [] && name[0] == StandardMeans(u)[0]) || StandardMeans(u)[0] == 0xEF
  {
    var v := Number(u.digits);
    CutReads(s, at, u, []);
    assert [] + Rune(v) == Rune(v);
    ZeroIsTheDifference(v);
    assert StandardRune(0) == REPLACEMENT;
  }

  lemma HeadOf(read: Text, means: Text)
    requires |read| >= |means| > 0 && read[..|means|] == [] + means
    ensures read[0] == means[0]
  {
    assert read[..|means|][0] == read[0];
  }

  /** What is found and what a browser reads at the other pieces. */
  lemma OtherMarks(s: Text, at: nat, p: Piece)
    requires StandardPieceAt(s, at, p) && !p.Class?
    ensures ClassOf(s, at, p) == [] && Marked(Found(s, at)) == 0
    ensures |Found(s, at)| == if Stray(s, at, p) then 1 else 0
  {
    if p == Other(DOT) { ReadsWhereNoneStarts(s, at + 1); }
  }

  ghost function Strays(s: Text, at: nat, ps: seq<Piece>): nat
    requires StandardLaid(s, at, ps)
    decreases |ps|
  {
    if ps == [] then 0 else (if Stray(s, at, ps[0]) then 1 else 0) + Strays(s, PastPiece(at, ps[0]), ps[1..])
  }

  /** How many classes the reader finds no name for. */
  ghost function Missed(s: Text, at: nat, ps: seq<Piece>): nat
    requires StandardLaid(s, at, ps)
    decreases |ps|
  {
    if ps == [] then 0
    else (if ps[0].Class? && Found(s, at) == [] then 1 else 0) + Missed(s, PastPiece(at, ps[0]), ps[1..])
  }

  lemma {:induction false} Counts(s: Text, at: nat, ps: seq<Piece>)
    requires StandardLaid(s, at, ps)
    ensures |FoundAll(s, at, ps)| + Missed(s, at, ps) == |StandardClasses(s, at, ps)| + Strays(s, at, ps)
    ensures Marked(FoundAll(s, at, ps)) + Missed(s, at, ps) <= Marked(StandardClasses(s, at, ps))
    ensures NoStrayNames(s, at, ps) <==> Strays(s, at, ps) == 0
    decreases |ps|
  {
    if ps != [] {
      var p, past := ps[0], PastPiece(at, ps[0]);
      Counts(s, past, ps[1..]);
      if p.Class? { ClassMarks(s, at, p.us); } else { OtherMarks(s, at, p); }
      MarkedJoins(Found(s, at), FoundAll(s, past, ps[1..]));
      MarkedJoins(ClassOf(s, at, p), StandardClasses(s, past, ps[1..]));
    }
  }

  lemma HeadsAndTails<T>(a: seq<T>, b: seq<T>, c: seq<T>, d: seq<T>)
    requires |a| == |c|
    ensures a + b == c + d <==> a == c && b == d
  {
    if a + b == c + d {
      assert (a + b)[..|a|] == a && (c + d)[..|c|] == c;
      assert (a + b)[|a|..] == b && (c + d)[|c|..] == d;
    }
  }

  /** With nothing missed and nothing stray the two lists go in step. */
  lemma {:induction false} InStep(s: Text, at: nat, ps: seq<Piece>)
    requires StandardLaid(s, at, ps) && Strays(s, at, ps) == 0 && Missed(s, at, ps) == 0
    ensures FoundAll(s, at, ps) == StandardClasses(s, at, ps) <==> NamesAlike(s, at, ps)
    decreases |ps|
  {
    if ps != [] {
      var p, past := ps[0], PastPiece(at, ps[0]);
      InStep(s, past, ps[1..]);
      if p.Class? { ClassMarks(s, at, p.us); } else { OtherMarks(s, at, p); }
      HeadsAndTails(Found(s, at), FoundAll(s, past, ps[1..]), ClassOf(s, at, p), StandardClasses(s, past, ps[1..]));
    }
  }

  lemma {:induction false} AlikeMissesNone(s: Text, at: nat, ps: seq<Piece>)
    requires StandardLaid(s, at, ps) && NamesAlike(s, at, ps)
    ensures Missed(s, at, ps) == 0
    decreases |ps|
  {
    if ps != [] {
      if ps[0].Class? { ClassMarks(s, at, ps[0].us); }
      AlikeMissesNone(s, PastPiece(at, ps[0]), ps[1..]);
    }
  }

  /** The class reader finds the classes a browser reads, in order and no others, exactly
      when every class name is read alike and no dot stands before a digit, a hyphen or a
      `\` where no name starts. */
  lemma ClassesAsABrowser(s: Text, ps: seq<Piece>)
    requires StandardLaid(s, 0, ps)
    ensures ClassesFrom(s, 0, []) == StandardClasses(s, 0, ps) <==> NamesAlike(s, 0, ps) && NoStrayNames(s, 0, ps)
  {
    FindsAll(s, 0, ps, []);
    assert [] + FoundAll(s, 0, ps) == FoundAll(s, 0, ps);
    Counts(s, 0, ps);
    if NamesAlike(s, 0, ps) { AlikeMissesNone(s, 0, ps); }
    if Strays(s, 0, ps) == 0 && Missed(s, 0, ps) == 0 { InStep(s, 0, ps); }
  }

  /** Every class a browser reads is among those found when every class name is read
      alike, whatever is found besides. */
  lemma {:induction false} NoneUnseen(s: Text, at: nat, ps: seq<Piece>, name: Text)
    requires StandardLaid(s, at, ps) && NamesAlike(s, at, ps) && name in StandardClasses(s, at, ps)
    ensures name in FoundAll(s, at, ps)
    decreases |ps|
  {
    if ps[0].Class? { ClassMarks(s, at, ps[0].us); }
    if name !in ClassOf(s, at, ps[0]) {
      NoneUnseen(s, PastPiece(at, ps[0]), ps[1..], name);
    }
  }

  lemma NoClassUnseen(s: Text, ps: seq<Piece>, name: Text)
    requires StandardLaid(s, 0, ps) && NamesAlike(s, 0, ps) && name in StandardClasses(s, 0, ps)
    ensures name in ClassesFrom(s, 0, [])
  {
    FindsAll(s, 0, ps, []);
    NoneUnseen(s, 0, ps, name);
  }
}
