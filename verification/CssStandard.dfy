/** What a browser reads for a name (sections 3.3, 4.3.7, 4.3.8 and 4.3.11 of CSS Syntax
    Module Level 3), and exactly when the scanner reads the same.  The text is read as one
    of its own: after its last byte nothing follows. */
module CssStandard {
  import opened CssNames
  import opened CssSpellings

  const REPLACEMENT: Text := [0xEF, 0xBF, 0xBD]

  /** The code point an escape of hex digits stands for. */
  function CodePoint(v: nat): nat {
    if v == 0 || 0xD800 <= v <= 0xDFFF || v > 0x10FFFF then 0xFFFD else v
  }

  function StandardRune(v: nat): Text { Rune(CodePoint(v)) }

  /** The scanner's reading of a number differs on zero and nowhere else. */
  lemma ZeroIsTheDifference(v: nat)
    ensures Rune(v) == StandardRune(v) <==> v != 0
    ensures |Rune(v)| <= |StandardRune(v)| && (|Rune(v)| == |StandardRune(v)| ==> v != 0)
  {
    assert Rune(0xFFFD) == REPLACEMENT;
  }

  /** A byte for byte; a zero byte was replaced before anything is read. */
  function Itself(b: Byte): Text { if b == 0 then REPLACEMENT else [b] }

  function StandardMeans(u: Unit): Text
    requires StandardOk(u)
  {
    match u
    case Plain(b) => Itself(b)
    case Escaped(c) => Itself(c)
    case Hex(digits, _) => StandardRune(Number(digits))
    case AtEnd => REPLACEMENT
  }

  /** The units a browser knows: no `\` before a newline, and an escape may be ended by a
      carriage return and a line feed. */
  predicate StandardOk(u: Unit) {
    match u
    case Plain(b) => IsIdentByte(b) || b == 0
    case Escaped(c) => !IsHex(c) && !IsNewline(c)
    case Hex(digits, ending) => DigitsOk(digits) && (ending.Space? ==> IsSpace(ending.b))
    case AtEnd => true
  }

  /** A carriage return that ends an escape is not half of a newline. */
  predicate StandardAt(s: Text, at: nat, u: Unit) {
    StandardOk(u) && UnitAt(s, at, u) &&
    (u.Hex? && u.ending == Space(CR) && at + Size(u) < |s| ==> s[at + Size(u)] != LF)
  }

  predicate StandardSpelled(s: Text, at: nat, us: seq<Unit>)
    decreases |us|
  {
    us == [] || (StandardAt(s, at, us[0]) && StandardSpelled(s, at + Size(us[0]), us[1..]))
  }

  predicate AllStandard(us: seq<Unit>) { forall u :: u in us ==> StandardOk(u) }

  lemma {:induction false} SpelledIsStandard(s: Text, at: nat, us: seq<Unit>)
    requires StandardSpelled(s, at, us)
    ensures AllStandard(us) && SpelledAt(s, at, us) && (at <= |s| ==> EndOf(at, us) <= |s|)
    decreases |us|
  {
    if us != [] {
      assert us == [us[0]] + us[1..];
      SpelledIsStandard(s, at + Size(us[0]), us[1..]);
    }
  }

  function StandardName(us: seq<Unit>): Text
    requires AllStandard(us)
  {
    if us == [] then [] else StandardMeans(us[0]) + StandardName(us[1..])
  }

  /** No name goes on at the offset: a `\` before a newline does not carry it on. */
  predicate StandardEnds(s: Text, at: nat) {
    at >= |s| ||
    (!IsIdentByte(s[at]) && s[at] != 0 && (s[at] == BACKSLASH ==> at + 1 < |s| && IsNewline(s[at + 1])))
  }

  /** The units are the name a browser reads at the offset. */
  predicate IsStandard(s: Text, at: nat, us: seq<Unit>) {
    at <= |s| && StandardSpelled(s, at, us) && StandardEnds(s, EndOf(at, us))
  }

  // ------------------------------------------------------- there is one, everywhere

  lemma StandardHere(s: Text, at: nat) returns (u: Unit)
    requires !StandardEnds(s, at)
    ensures StandardAt(s, at, u)
  {
    if IdentEnds(s, at) {
      u := Plain(0);
    } else {
      u := UnitHere(s, at);
      var past := at + Size(u);
      if u.Hex? && u.ending == Space(CR) && past < |s| && s[past] == LF {
        u := Hex(u.digits, CrLf);
      }
    }
  }

  /** At every offset of every text a browser reads some name, empty or not. */
  lemma {:induction false} NameHere(s: Text, at: nat) returns (us: seq<Unit>)
    requires at <= |s|
    ensures IsStandard(s, at, us)
    decreases |s| - at
  {
    if StandardEnds(s, at) {
      us := [];
    } else {
      var u := StandardHere(s, at);
      var rest := NameHere(s, at + Size(u));
      us := [u] + rest;
      assert us[0] == u && us[1..] == rest;
    }
  }

  lemma DigitsAgree(s: Text, at: nat, ds: Text, d: Ending, es: Text, e: Ending)
    requires StandardAt(s, at, Hex(ds, d)) && StandardAt(s, at, Hex(es, e))
    ensures |ds| >= |es| && (|ds| == |es| ==> ds == es)
  {
    ghost var next := if |ds| < |es| then |ds| else 0;
    assert s[at + 1 + next] == es[next] && IsHex(es[next]);
    if |ds| == |es| {
      forall i | 0 <= i < |ds| ensures ds[i] == es[i] { assert s[at + 1 + i] == ds[i]; }
    }
  }

  /** The first two bytes tell the kinds of unit apart. */
  lemma KindOf(s: Text, at: nat, u: Unit)
    requires StandardAt(s, at, u)
    ensures at < |s| && (u.Plain? <==> s[at] != BACKSLASH) && (u.AtEnd? <==> s[at] == BACKSLASH && at + 1 == |s|)
    ensures u.Hex? <==> s[at] == BACKSLASH && at + 1 < |s| && IsHex(s[at + 1])
    ensures !StandardEnds(s, at)
  {
    if u.Hex? { assert s[at + 1 + 0] == u.digits[0]; }
  }

  lemma OneUnit(s: Text, at: nat, u: Unit, v: Unit)
    requires StandardAt(s, at, u) && StandardAt(s, at, v)
    ensures u == v
  {
    KindOf(s, at, u);
    KindOf(s, at, v);
    if u.Hex? {
      DigitsAgree(s, at, u.digits, u.ending, v.digits, v.ending);
      DigitsAgree(s, at, v.digits, v.ending, u.digits, u.ending);
    }
  }

  /** And only one. */
  lemma {:induction false} OneName(s: Text, at: nat, us: seq<Unit>, vs: seq<Unit>)
    requires IsStandard(s, at, us) && IsStandard(s, at, vs)
    ensures us == vs
    decreases |us|
  {
    if us != [] { KindOf(s, at, us[0]); }
    if vs != [] { KindOf(s, at, vs[0]); }
    if us != [] {
      OneUnit(s, at, us[0], vs[0]);
      OneName(s, at + Size(us[0]), us[1..], vs[1..]);
      assert us == [us[0]] + us[1..] && vs == [vs[0]] + vs[1..];
    }
  }

  // -------------------------------------------------- when the scanner reads the same

  /** The scanner and a browser read the unit alike. */
  predicate ReadAlike(u: Unit)
    requires StandardOk(u)
  {
    match u
    case Plain(b) => b != 0
    case Escaped(c) => c != 0
    case Hex(digits, ending) => Number(digits) != 0 && !ending.CrLf?
    case AtEnd => false
  }

  predicate AllAlike(us: seq<Unit>)
    requires AllStandard(us)
  {
    forall u :: u in us ==> ReadAlike(u)
  }

  lemma MeansAlike(u: Unit)
    requires StandardOk(u) && UnitOk(u)
    ensures |Means(u)| <= |StandardMeans(u)|
    ensures |Means(u)| == |StandardMeans(u)| ==> ReadAlike(u)
    ensures ReadAlike(u) ==> Means(u) == StandardMeans(u)
  {
    if u.Hex? { ZeroIsTheDifference(Number(u.digits)); }
  }

  lemma {:induction false} NamesAlike(us: seq<Unit>)
    requires AllStandard(us) && Spellable(us)
    ensures |Name(us)| <= |StandardName(us)|
    ensures |Name(us)| == |StandardName(us)| ==> AllAlike(us)
    ensures AllAlike(us) ==> Name(us) == StandardName(us)
  {
    if us != [] {
      assert us == [us[0]] + us[1..];
      MeansAlike(us[0]);
      NamesAlike(us[1..]);
    }
  }

  lemma {:induction false} AlikeIsSpellable(us: seq<Unit>)
    requires AllStandard(us)
    ensures AllAlike(us) ==> Spellable(us)
  {
    if us != [] {
      assert us == [us[0]] + us[1..];
      AlikeIsSpellable(us[1..]);
      assert us[0] in us && StandardOk(us[0]);
      if AllAlike(us) { assert ReadAlike(us[0]) && UnitOk(us[0]); }
    }
  }

  lemma CutAtTheReturn(s: Text, at: nat, u: Unit, name: Text)
    requires StandardAt(s, at, u) && !UnitOk(u)
    ensures IdentFrom(s, at, name).1 < at + Size(u)
  {
    if u.Hex? {
      var cut := Hex(u.digits, Space(CR));
      assert UnitAt(s, at, cut);
      UnitReads(s, at, cut, name);
      assert s[at + Size(cut)] == LF;
    }
  }

  /** A unit the scanner does not know cuts the name short. */
  lemma {:induction false} StopsShort(s: Text, at: nat, us: seq<Unit>, name: Text)
    requires at <= |s| && StandardSpelled(s, at, us) && !Spellable(us)
    ensures IdentFrom(s, at, name).1 < EndOf(at, us)
    decreases |us|
  {
    if UnitOk(us[0]) {
      UnitReads(s, at, us[0], name);
      StopsShort(s, at + Size(us[0]), us[1..], name + Means(us[0]));
    } else {
      CutAtTheReturn(s, at, us[0], name);
    }
  }

  predicate Known(u: Unit) { u != Plain(0) && !(u.Hex? && u.ending.CrLf?) }

  /** A spelling is read whole, for what the scanner takes its units for, exactly when no
      escape in it is ended by a carriage return and a line feed, and no byte of it is zero. */
  lemma ReadWholeExactly(s: Text, at: nat, us: seq<Unit>)
    requires IsStandard(s, at, us) && IdentEnds(s, EndOf(at, us))
    ensures AllStandard(us)
    ensures IdentFrom(s, at, []).1 == EndOf(at, us) <==> forall u :: u in us ==> Known(u)
    ensures IdentFrom(s, at, []).1 == EndOf(at, us) <==> Spellable(us) && IdentFrom(s, at, []) == (Name(us), EndOf(at, us))
  {
    SpelledIsStandard(s, at, us);
    KnownUnits(us);
    if Spellable(us) {
      IdentReads(s, at, us, []);
      assert [] + Name(us) == Name(us);
    } else {
      StopsShort(s, at, us, []);
    }
  }

  lemma {:induction false} KnownUnits(us: seq<Unit>)
    requires AllStandard(us)
    ensures Spellable(us) <==> forall u :: u in us ==> Known(u)
  {
    if us != [] {
      assert us == [us[0]] + us[1..];
      KnownUnits(us[1..]);
      assert us[0] in us && StandardOk(us[0]);
      assert UnitOk(us[0]) <==> Known(us[0]);
    }
  }

  /** The scanner reads the name a browser reads, and stops where it stops, exactly when
      no unit is an escape of zero, an escape ended by a carriage return and a line feed, a
      zero byte or a `\` at the end of the text, and no `\` before a newline follows. */
  lemma ReadsAsABrowser(s: Text, at: nat, us: seq<Unit>)
    requires IsStandard(s, at, us)
    ensures AllStandard(us)
    ensures IdentFrom(s, at, []) == (StandardName(us), EndOf(at, us)) <==>
              AllAlike(us) && !(EndOf(at, us) < |s| && s[EndOf(at, us)] == BACKSLASH)
  {
    SpelledIsStandard(s, at, us);
    AlikeIsSpellable(us);
    var end := EndOf(at, us);
    if !Spellable(us) {
      StopsShort(s, at, us, []);
    } else {
      SpelledReads(s, at, us, []);
      assert [] + Name(us) == Name(us);
      NamesAlike(us);
      if end < |s| && s[end] == BACKSLASH {
        assert EscapeAt(s, end).1 == end + 2;
      }
    }
  }

  /** Two spellings of one name, read as a browser reads them, are one name here too. */
  lemma SameNameToABrowser(s: Text, at: nat, us: seq<Unit>, t: Text, bt: nat, vs: seq<Unit>)
    requires IsStandard(s, at, us) && IsStandard(t, bt, vs)
    requires AllStandard(us) && AllAlike(us) && IdentEnds(s, EndOf(at, us))
    requires AllStandard(vs) && AllAlike(vs) && IdentEnds(t, EndOf(bt, vs))
    requires StandardName(us) == StandardName(vs)
    ensures IdentFrom(s, at, []).0 == IdentFrom(t, bt, []).0 == StandardName(us)
  {
    ReadsAsABrowser(s, at, us);
    ReadsAsABrowser(t, bt, vs);
  }

  /** Where nothing but escapes of digits is in question, zero alone is: the name is the
      standard's exactly when no escape is one of zero. */
  lemma NameExactly(s: Text, at: nat, us: seq<Unit>)
    requires IsStandard(s, at, us) && IdentEnds(s, EndOf(at, us)) && Spellable(us)
    requires AtEnd !in us && Escaped(0) !in us
    ensures AllStandard(us)
    ensures IdentFrom(s, at, []).0 == StandardName(us) <==> forall u :: u in us && u.Hex? ==> Number(u.digits) != 0
  {
    SpelledIsStandard(s, at, us);
    IdentReads(s, at, us, []);
    assert [] + Name(us) == Name(us);
    NamesAlike(us);
    KnownUnits(us);
  }

  // ------------------------------------------------------------------------ at inputs

  /** `\0`: a zero byte for the scanner, U+FFFD for a browser. */
  lemma EscapeOfZero()
    ensures var s := [BACKSLASH, 0x30];
            var us := [Hex([0x30], Unended)];
            IdentFrom(s, 0, []) == ([0], 2) && IsStandard(s, 0, us) && StandardName(us) == REPLACEMENT
  {
    var s, u := [BACKSLASH, 0x30], Hex([0x30], Unended);
    assert Number([0x30]) == 0 by { assert [0x30 as Byte][..0] == []; }
    assert StandardAt(s, 0, u) && [u][1..] == [];
    assert EndOf(0, [u]) == 2;
    UnitReads(s, 0, u, []);
    assert [] + Means(u) == [0 as Byte];
    assert StandardName([u]) == StandardMeans(u) + StandardName([]);
  }

  /** The name `fl` with its `f` spelled by an escape that a carriage return and a line
      feed end: the scanner reads `f` and stops between the two. */
  lemma EscapeEndedByCrLf()
    ensures var s := [BACKSLASH, 0x36, 0x36, CR, LF, 0x6C];
            var us := [Hex([0x36, 0x36], CrLf), Plain(0x6C)];
            IdentFrom(s, 0, []) == ([0x66], 4) && IsStandard(s, 0, us) && StandardName(us) == [0x66, 0x6C] && EndOf(0, us) == 6
  {
    var s := [BACKSLASH, 0x36, 0x36, CR, LF, 0x6C];
    var u, v := Hex([0x36, 0x36], CrLf), Plain(0x6C);
    SixtySix();
    assert StandardAt(s, 0, u) && StandardAt(s, 5, v);
    assert [u, v][1..] == [v] && [v][1..] == [];
    assert EndOf(0, [u, v]) == EndOf(5, [v]) == EndOf(6, []) == 6;
    assert StandardSpelled(s, 5, [v]);
    assert StandardMeans(u) == [0x66] && StandardMeans(v) == [0x6C];
    assert StandardName([v]) == [0x6C] + StandardName([]) == [0x6C];
    assert StandardName([u, v]) == [0x66] + StandardName([v]);
    var cut := Hex([0x36, 0x36], Space(CR));
    assert UnitAt(s, 0, cut);
    UnitReads(s, 0, cut, []);
    assert [] + Means(cut) == [0x66];
  }

  lemma SixtySix()
    ensures AllHex([0x36, 0x36]) && Number([0x36, 0x36]) == 0x66
  {
    var six: Text := [0x36];
    assert [0x36 as Byte, 0x36][..1] == six && six[..0] == [];
    assert Number(six) == 6;
  }

  /** A `\` before a newline begins no escape for a browser; the scanner takes it for one. */
  lemma BackslashBeforeNewline()
    ensures var s := [0x61, BACKSLASH, LF];
            IdentFrom(s, 0, []) == ([0x61, LF], 3) && IsStandard(s, 0, [Plain(0x61)]) && EndOf(0, [Plain(0x61)]) == 1
  {
    var s, u := [0x61, BACKSLASH, LF], Plain(0x61);
    assert StandardAt(s, 0, u) && [u][1..] == [];
    UnitReads(s, 0, u, []);
    UnitReads(s, 1, Escaped(LF), [0x61]);
    assert [] + Means(u) == [0x61] && [0x61] + Means(Escaped(LF)) == [0x61, LF];
  }

  /** A `\` with nothing after it stands for nothing, where a browser reads U+FFFD. */
  lemma BackslashAtTheEnd()
    ensures var s := [0x61, BACKSLASH];
            var us := [Plain(0x61), AtEnd];
            IdentFrom(s, 0, []) == ([0x61], 2) && IsStandard(s, 0, us) && StandardName(us) == [0x61] + REPLACEMENT
  {
    var s, u := [0x61, BACKSLASH], Plain(0x61);
    assert StandardAt(s, 0, u) && StandardAt(s, 1, AtEnd);
    assert [u, AtEnd][1..] == [AtEnd] && [AtEnd][1..] == [];
    assert StandardSpelled(s, 1, [AtEnd]) && EndOf(0, [u, AtEnd]) == EndOf(1, [AtEnd]) == 2;
    assert StandardName([u, AtEnd]) == [0x61] + (REPLACEMENT + []);
    UnitReads(s, 0, u, []);
    UnitReads(s, 1, AtEnd, [0x61]);
    assert [] + Means(u) == [0x61] && [0x61] + Means(AtEnd) == [0x61];
  }

  /** A zero byte ends a name here; a browser has U+FFFD in its place and reads on. */
  lemma ZeroByte()
    ensures var s := [0x61, 0, 0x62];
            var us := [Plain(0x61), Plain(0), Plain(0x62)];
            IdentFrom(s, 0, []) == ([0x61], 1) && IsStandard(s, 0, us) && StandardName(us) == [0x61] + (REPLACEMENT + [0x62])
  {
    var s, u, z, v := [0x61, 0, 0x62], Plain(0x61), Plain(0), Plain(0x62);
    assert StandardAt(s, 0, u) && StandardAt(s, 1, z) && StandardAt(s, 2, v);
    assert [u, z, v][1..] == [z, v] && [z, v][1..] == [v] && [v][1..] == [];
    assert StandardSpelled(s, 2, [v]) && StandardSpelled(s, 1, [z, v]);
    assert EndOf(0, [u, z, v]) == EndOf(1, [z, v]) == EndOf(2, [v]) == 3;
    assert StandardName([v]) == [0x62] + StandardName([]) == [0x62];
    assert StandardName([z, v]) == REPLACEMENT + StandardName([v]);
    assert StandardName([u, z, v]) == [0x61] + StandardName([z, v]);
    UnitReads(s, 0, u, []);
    assert [] + Means(u) == [0x61];
  }

  /** So a class selector can be addressed unseen: the selector below addresses `fl`, and
      the class reader finds `f`. */
  lemma ClassUnseen()
    ensures ClassesFrom([DOT, BACKSLASH, 0x36, 0x36, CR, LF, 0x6C], 0, []) == [[0x66]]
  {
    var s := [DOT, BACKSLASH, 0x36, 0x36, CR, LF, 0x6C];
    SixtySix();
    var cut := Hex([0x36, 0x36], Space(CR));
    assert UnitAt(s, 1, cut);
    UnitReads(s, 1, cut, []);
    assert [] + Means(cut) == [0x66];
    assert IdentFrom(s, 1, []) == ([0x66], 5);
    var found: seq<Text> := [];
    assert found + [[0x66]] == [[0x66]];
    assert ClassesFrom(s, 0, found) == ClassesFrom(s, 5, found + [[0x66]]);
    assert ClassesFrom(s, 5, [[0x66]]) == ClassesFrom(s, 6, [[0x66]]) == ClassesFrom(s, 7, [[0x66]]);
  }
}
