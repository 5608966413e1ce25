/** One name has many spellings.  The scanner reads exactly the spelled names, so what a
    selector names does not depend on how its author spelled it. */
module CssSpellings {
  import opened Options
  import opened CssNames

  /** What ends a hex escape: nothing, one space, or a carriage return and the line feed
      after it, which a browser reads as one newline. */
  datatype Ending = Unended | Space(b: Byte) | CrLf

  /** One unit of a spelled name: a byte that stands for itself, a `\` before a byte
      that is no hex digit, a `\` with one to six digits and what ends them, or a `\`
      with nothing after it. */
  datatype Unit = Plain(b: Byte) | Escaped(c: Byte) | Hex(digits: Text, ending: Ending) | AtEnd

  /** The units the scanner knows. */
  predicate UnitOk(u: Unit) {
    match u
    case Plain(b) => IsIdentByte(b)
    case Escaped(c) => !IsHex(c)
    case Hex(digits, ending) => DigitsOk(digits) && !ending.CrLf? && (ending.Space? ==> IsSpace(ending.b))
    case AtEnd => true
  }

  predicate DigitsOk(digits: Text) { 1 <= |digits| <= 6 && AllHex(digits) }

  predicate AllHex(t: Text) { forall i :: 0 <= i < |t| ==> IsHex(t[i]) }

  /** How many bytes a unit is written with. */
  function Size(u: Unit): (n: nat)
    ensures n > 0
  {
    match u
    case Plain(_) => 1
    case Escaped(_) => 2
    case Hex(digits, ending) => 1 + |digits| + Length(ending)
    case AtEnd => 1
  }

  function Length(ending: Ending): nat {
    match ending
    case Unended => 0
    case Space(_) => 1
    case CrLf => 2
  }

  function Number(digits: Text): nat
    requires AllHex(digits)
  {
    if digits == [] then 0 else Number(digits[..|digits| - 1]) * 16 + HexDigit(digits[|digits| - 1])
  }

  /** The bytes the scanner takes a unit for. */
  function Means(u: Unit): Text
    requires u.Hex? ==> DigitsOk(u.digits)
  {
    match u
    case Plain(b) => [b]
    case Escaped(c) => [c]
    case Hex(digits, _) => Rune(Number(digits))
    case AtEnd => []
  }

  predicate DigitsAt(s: Text, at: nat, digits: Text) {
    at + |digits| <= |s| && forall i :: 0 <= i < |digits| ==> s[at + i] == digits[i]
  }

  /** The unit is written at the offset; a hex escape without its own space is followed
      by nothing it would have taken. */
  predicate UnitAt(s: Text, at: nat, u: Unit) {
    at + Size(u) <= |s| &&
    match u
    case Plain(b) => s[at] == b
    case Escaped(c) => s[at] == BACKSLASH && s[at + 1] == c
    case Hex(digits, ending) => s[at] == BACKSLASH && DigitsAt(s, at + 1, digits) && EndedAt(s, at + 1 + |digits|, |digits|, ending)
    case AtEnd => s[at] == BACKSLASH && at + 1 == |s|
  }

  /** After `n` digits stands what ends them. */
  predicate EndedAt(s: Text, end: nat, n: nat, ending: Ending)
    requires end + Length(ending) <= |s|
  {
    match ending
    case Unended => end < |s| ==> !IsSpace(s[end]) && (n < 6 ==> !IsHex(s[end]))
    case Space(b) => s[end] == b
    case CrLf => s[end] == CR && s[end + 1] == LF
  }

  predicate SpelledAt(s: Text, at: nat, us: seq<Unit>)
    decreases |us|
  {
    us == [] || (UnitAt(s, at, us[0]) && SpelledAt(s, at + Size(us[0]), us[1..]))
  }

  function EndOf(at: nat, us: seq<Unit>): (end: nat)
    ensures end >= at
    decreases |us|
  {
    if us == [] then at else EndOf(at + Size(us[0]), us[1..])
  }

  predicate Spellable(us: seq<Unit>) {
    us == [] || (UnitOk(us[0]) && Spellable(us[1..]))
  }

  /** The name a list of units spells. */
  function Name(us: seq<Unit>): Text
    requires Spellable(us)
  {
    if us == [] then [] else Means(us[0]) + Name(us[1..])
  }

  /** No identifier goes on at the offset. */
  predicate IdentEnds(s: Text, at: nat) {
    at >= |s| || (!IsIdentByte(s[at]) && s[at] != BACKSLASH)
  }

  // --------------------------------------------------- what the scanner makes of it

  lemma {:induction false} HexEndIs(s: Text, at: nat, n: nat, max: nat)
    requires at + n <= |s| && n <= max && forall i :: at <= i < at + n ==> IsHex(s[i])
    requires n == max || at + n == |s| || !IsHex(s[at + n])
    ensures HexEnd(s, at, max) == at + n
    decreases n
  {
    if n > 0 { HexEndIs(s, at + 1, n - 1, max - 1); }
  }

  lemma {:induction false} NumberAt(s: Text, at: nat, digits: Text)
    requires DigitsAt(s, at, digits) && AllHex(digits)
    ensures forall i :: at <= i < at + |digits| ==> IsHex(s[i])
    ensures HexValue(s, at, at + |digits|) == Number(digits)
    decreases |digits|
  {
    if digits != [] {
      var last := |digits| - 1;
      NumberAt(s, at, digits[..last]);
      assert s[at + last] == digits[last];
    }
  }

  lemma HexTaken(s: Text, at: nat, u: Unit)
    requires UnitOk(u) && UnitAt(s, at, u) && u.Hex?
    ensures var end := at + 1 + |u.digits|;
            && end <= |s| && s[at] == BACKSLASH && IsHex(s[at + 1]) && HexEnd(s, at + 1, 6) == end
            && HexValue(s, at + 1, end) == Number(u.digits)
            && (u.ending.Space? <==> end < |s| && IsSpace(s[end]))
  {
    assert s[at + 1 + 0] == u.digits[0];
    NumberAt(s, at + 1, u.digits);
    HexEndIs(s, at + 1, |u.digits|, 6);
  }

  /** An escape is read whole, and stands for what it spells; a `\` with nothing after it
      stands for nothing. */
  lemma EscapeReads(s: Text, at: nat, u: Unit)
    requires UnitOk(u) && UnitAt(s, at, u) && !u.Plain?
    ensures at < |s| && s[at] == BACKSLASH
    ensures EscapeAt(s, at) == (if u.AtEnd? then None else Some(Means(u)), at + Size(u))
  {
    if u.Hex? { HexTaken(s, at, u); }
  }

  /** One unit read: the scan goes on past it with what it stands for. */
  lemma UnitReads(s: Text, at: nat, u: Unit, name: Text)
    requires UnitOk(u) && UnitAt(s, at, u)
    ensures at < at + Size(u) <= |s|
    ensures IdentFrom(s, at, name) == IdentFrom(s, at + Size(u), name + Means(u))
  {
    if !u.Plain? { EscapeReads(s, at, u); }
    if u.AtEnd? { assert name + [] == name; }
  }

  lemma Joins(a: Text, b: Text, c: Text)
    ensures (a + b) + c == a + (b + c)
  {
  }

  /** What is spelled is read, whatever follows it. */
  lemma {:induction false} SpelledReads(s: Text, at: nat, us: seq<Unit>, name: Text)
    requires at <= |s| && Spellable(us) && SpelledAt(s, at, us)
    ensures EndOf(at, us) <= |s|
    ensures IdentFrom(s, at, name) == IdentFrom(s, EndOf(at, us), name + Name(us))
    decreases |us|
  {
    if us == [] {
      assert name + [] == name;
    } else {
      var first, mid := Means(us[0]), at + Size(us[0]);
      UnitReads(s, at, us[0], name);
      SpelledReads(s, mid, us[1..], name + first);
      Joins(name, first, Name(us[1..]));
      assert Name(us) == first + Name(us[1..]);
    }
  }

  /** The scanner decodes every spelling of a name to that name, and stops just past
      it; what was read before stays in front. */
  lemma IdentReads(s: Text, at: nat, us: seq<Unit>, name: Text)
    requires at <= |s| && Spellable(us) && SpelledAt(s, at, us) && IdentEnds(s, EndOf(at, us))
    ensures EndOf(at, us) <= |s|
    ensures IdentFrom(s, at, name) == (name + Name(us), EndOf(at, us))
  {
    SpelledReads(s, at, us, name);
  }

  lemma OneMoreUnit(s: Text, at: nat, u: Unit, rest: seq<Unit>)
    requires UnitOk(u) && UnitAt(s, at, u) && Spellable(rest) && SpelledAt(s, at + Size(u), rest)
    ensures Spellable([u] + rest) && SpelledAt(s, at, [u] + rest) && EndOf(at, [u] + rest) == EndOf(at + Size(u), rest)
  {
    assert ([u] + rest)[1..] == rest;
  }

  /** Every offset has a spelling that ends where no identifier goes on. */
  lemma {:induction false} SpelledHere(s: Text, at: nat) returns (us: seq<Unit>)
    requires at <= |s|
    ensures Spellable(us) && SpelledAt(s, at, us) && IdentEnds(s, EndOf(at, us))
    decreases |s| - at
  {
    if IdentEnds(s, at) {
      us := [];
    } else {
      var u := UnitHere(s, at);
      var rest := SpelledHere(s, at + Size(u));
      us := [u] + rest;
      OneMoreUnit(s, at, u, rest);
    }
  }

  /** And nothing else is ever read: whatever the scanner took is a spelling that ends
      where no identifier goes on. */
  lemma ReadIsSpelled(s: Text, at: nat, name: Text) returns (us: seq<Unit>)
    requires at <= |s|
    ensures Spellable(us) && SpelledAt(s, at, us) && IdentEnds(s, EndOf(at, us))
    ensures IdentFrom(s, at, name) == (name + Name(us), EndOf(at, us))
  {
    us := SpelledHere(s, at);
    IdentReads(s, at, us, name);
  }

  /** The unit that stands at an offset where an identifier goes on. */
  lemma UnitHere(s: Text, at: nat) returns (u: Unit)
    requires !IdentEnds(s, at)
    ensures UnitOk(u) && UnitAt(s, at, u)
    ensures s[at] == BACKSLASH ==> !u.Plain?
  {
    if s[at] != BACKSLASH {
      u := Plain(s[at]);
    } else if at + 1 == |s| {
      u := AtEnd;
    } else if !IsHex(s[at + 1]) {
      u := Escaped(s[at + 1]);
    } else {
      u := HexHere(s, at);
    }
  }

  lemma HexHere(s: Text, at: nat) returns (u: Unit)
    requires at + 1 < |s| && s[at] == BACKSLASH && IsHex(s[at + 1])
    ensures UnitOk(u) && UnitAt(s, at, u) && u.Hex?
  {
    var end := HexEnd(s, at + 1, 6);
    HexEndStops(s, at + 1, 6);
    var digits := s[at + 1..end];
    u := Hex(digits, if end < |s| && IsSpace(s[end]) then Space(s[end]) else Unended);
    SliceHex(s, at + 1, end);
  }

  lemma SliceHex(s: Text, from: nat, to: nat)
    requires from <= to <= |s| && forall i :: from <= i < to ==> IsHex(s[i])
    ensures AllHex(s[from..to]) && DigitsAt(s, from, s[from..to])
  {
    forall i | 0 <= i < to - from ensures IsHex(s[from..to][i]) { assert s[from..to][i] == s[from + i]; }
  }

  lemma {:induction false} HexEndStops(s: Text, at: nat, max: nat)
    requires at <= |s|
    ensures var end := HexEnd(s, at, max);
            end == at + max || end == |s| || !IsHex(s[end])
    ensures max > 0 && at < |s| && IsHex(s[at]) ==> HexEnd(s, at, max) > at
    decreases max
  {
    if max > 0 && at < |s| && IsHex(s[at]) { HexEndStops(s, at + 1, max - 1); }
  }

  /** Two spellings of one name, wherever they stand, are read as that one name. */
  lemma SameNameHoweverSpelled(s: Text, at: nat, us: seq<Unit>, t: Text, bt: nat, vs: seq<Unit>)
    requires at <= |s| && Spellable(us) && SpelledAt(s, at, us) && IdentEnds(s, EndOf(at, us))
    requires bt <= |t| && Spellable(vs) && SpelledAt(t, bt, vs) && IdentEnds(t, EndOf(bt, vs))
    requires Name(us) == Name(vs)
    ensures IdentFrom(s, at, []).0 == IdentFrom(t, bt, []).0
    ensures IdentFrom(s, at, []).1 == EndOf(at, us) && IdentFrom(t, bt, []).1 == EndOf(bt, vs)
  {
    IdentReads(s, at, us, []);
    IdentReads(t, bt, vs, []);
  }

  lemma EscapeResolves(s: Text, at: nat, u: Unit, out: Text)
    requires UnitOk(u) && UnitAt(s, at, u) && !u.Plain? && !u.AtEnd?
    ensures ResolveFrom(s, at, out) == ResolveFrom(s, at + Size(u), out + Fold(Means(u)))
  {
    EscapeReads(s, at, u);
  }

  lemma UnitResolves(s: Text, at: nat, u: Unit, out: Text)
    requires UnitOk(u) && UnitAt(s, at, u) && !u.AtEnd?
    ensures ResolveFrom(s, at, out) == ResolveFrom(s, at + Size(u), out + Fold(Means(u)))
  {
    if u.Plain? {
      assert Fold([s[at]]) == [Lower(s[at])];
    } else {
      EscapeResolves(s, at, u, out);
    }
  }

  lemma FoldAfter(out: Text, us: seq<Unit>)
    requires us != [] && Spellable(us)
    ensures (out + Fold(Means(us[0]))) + Fold(Name(us[1..])) == out + Fold(Name(us))
  {
    FoldJoins(Means(us[0]), Name(us[1..]));
    Joins(out, Fold(Means(us[0])), Fold(Name(us[1..])));
  }

  /** No unit of the list is a `\` that ends the text. */
  predicate NoneAtEnd(us: seq<Unit>) {
    us == [] || (!us[0].AtEnd? && NoneAtEnd(us[1..]))
  }

  /** A reader that takes a unit for its folded meaning. */
  predicate FoldsUnit(r: (nat, Text) -> Text, s: Text, at: nat, u: Unit, out: Text) {
    UnitOk(u) && UnitAt(s, at, u) && !u.AtEnd? ==> r(at, out) == r(at + Size(u), out + Fold(Means(u)))
  }

  ghost predicate FoldsUnits(r: (nat, Text) -> Text, s: Text) {
    forall at: nat, u, out {:trigger FoldsUnit(r, s, at, u, out)} :: FoldsUnit(r, s, at, u, out)
  }

  /** The reader takes the units one after another. */
  predicate FoldsAlong(r: (nat, Text) -> Text, at: nat, us: seq<Unit>, out: Text)
    requires Spellable(us)
    decreases |us|
  {
    us == [] ||
    var next, more := at + Size(us[0]), out + Fold(Means(us[0]));
    r(at, out) == r(next, more) && FoldsAlong(r, next, us[1..], more)
  }

  lemma {:induction false} SpelledFolds(r: (nat, Text) -> Text, s: Text, at: nat, us: seq<Unit>, out: Text)
    requires FoldsUnits(r, s) && Spellable(us) && SpelledAt(s, at, us) && NoneAtEnd(us)
    ensures FoldsAlong(r, at, us, out)
    decreases |us|
  {
    if us != [] {
      assert FoldsUnit(r, s, at, us[0], out);
      SpelledFolds(r, s, at + Size(us[0]), us[1..], out + Fold(Means(us[0])));
    }
  }

  lemma {:induction false} FoldsToName(r: (nat, Text) -> Text, at: nat, us: seq<Unit>, out: Text)
    requires Spellable(us) && FoldsAlong(r, at, us, out)
    ensures r(at, out) == r(EndOf(at, us), out + Fold(Name(us)))
    decreases |us|
  {
    if us == [] {
      assert out + [] == out;
    } else {
      FoldsToName(r, at + Size(us[0]), us[1..], out + Fold(Means(us[0])));
      FoldAfter(out, us);
    }
  }

  lemma ResolveFolds(r: (nat, Text) -> Text, s: Text, at: nat, u: Unit, out: Text)
    requires forall i: nat, t {:trigger r(i, t)} :: r(i, t) == ResolveFrom(s, i, t)
    ensures FoldsUnit(r, s, at, u, out)
  {
    if UnitOk(u) && UnitAt(s, at, u) && !u.AtEnd? { UnitResolves(s, at, u, out); }
  }

  /** A spelled name resolves to its folded self inside any fragment. */
  lemma ResolveReads(s: Text, at: nat, us: seq<Unit>, out: Text)
    requires Spellable(us) && SpelledAt(s, at, us) && NoneAtEnd(us)
    ensures ResolveFrom(s, at, out) == ResolveFrom(s, EndOf(at, us), out + Fold(Name(us)))
  {
    var r := (i: nat, t: Text) => ResolveFrom(s, i, t);
    forall i: nat, u, t ensures FoldsUnit(r, s, i, u, t) { ResolveFolds(r, s, i, u, t); }
    SpelledFolds(r, s, at, us, out);
    FoldsToName(r, at, us, out);
    assert r(at, out) == ResolveFrom(s, at, out);
  }
}
