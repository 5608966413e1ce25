/** The CSS name scanner: byte cursors that decode a name however it was spelled
    (sections 4.3.7 and 4.3.11 of CSS Syntax Module Level 3).  Each specification
    function starts at an offset and says where it stopped; each method is the source's
    cursor loop, proved to answer the same. */
module CssNames {
  import opened Options

  newtype Byte = b: int | 0 <= b < 256
  type Text = seq<Byte>

  const BACKSLASH: Byte := 0x5C
  const QUOTE: Byte := 0x22
  const APOSTROPHE: Byte := 0x27
  const OPEN: Byte := 0x5B
  const CLOSE: Byte := 0x5D
  const DOT: Byte := 0x2E
  const BAR: Byte := 0x7C
  const STAR: Byte := 0x2A
  const EQUALS: Byte := 0x3D

  const LF: Byte := 0x0A
  const FF: Byte := 0x0C
  const CR: Byte := 0x0D

  predicate IsDigit(c: Byte) { 0x30 <= c <= 0x39 }

  predicate IsLetter(c: Byte) { 0x41 <= c <= 0x5A || 0x61 <= c <= 0x7A }

  predicate IsHex(c: Byte) { IsDigit(c) || 0x61 <= c <= 0x66 || 0x41 <= c <= 0x46 }

  predicate IsNewline(c: Byte) { c == LF || c == CR || c == FF }

  predicate IsSpace(c: Byte) { c == 0x20 || c == 0x09 || IsNewline(c) }

  /** Letters, digits, hyphen, underscore and every byte above ASCII. */
  predicate IsIdentByte(c: Byte) { c == 0x2D || c == 0x5F || IsLetter(c) || IsDigit(c) || c >= 0x80 }

  predicate IsQuote(c: Byte) { c == QUOTE || c == APOSTROPHE }

  function HexDigit(c: Byte): (v: nat)
    requires IsHex(c)
    ensures v < 16
  {
    var v := c as int;
    if IsDigit(c) then v - 0x30 else if 0x61 <= c <= 0x66 then v - 0x61 + 10 else v - 0x41 + 10
  }

  function Lower(c: Byte): Byte {
    if 0x41 <= c <= 0x5A then c + 0x20 else c
  }

  function Fold(t: Text): (r: Text)
    ensures |r| == |t|
  {
    if t == [] then [] else [Lower(t[0])] + Fold(t[1..])
  }

  lemma {:induction false} FoldJoins(a: Text, b: Text)
    ensures Fold(a + b) == Fold(a) + Fold(b)
  {
    if a == [] {
      assert a + b == b;
    } else {
      assert (a + b)[1..] == a[1..] + b;
      FoldJoins(a[1..], b);
    }
  }

  /** The UTF-8 bytes of a code point; what is none is U+FFFD.  Zero stays zero. */
  function Rune(v: nat): (r: Text)
    ensures 1 <= |r| <= 4
  {
    if v < 0x80 then [v as Byte]
    else if v < 0x800 then [(0xC0 + v / 64) as Byte, Trail(v)]
    else if v > 0x10FFFF || 0xD800 <= v <= 0xDFFF then [0xEF, 0xBF, 0xBD]
    else if v < 0x10000 then [(0xE0 + v / 4096) as Byte, Trail(v / 64), Trail(v)]
    else [(0xF0 + v / 262144) as Byte, Trail(v / 4096), Trail(v / 64), Trail(v)]
  }

  function Trail(v: nat): Byte {
    (0x80 + v % 64) as Byte
  }

  // --------------------------------------------------------------------- escapes

  /** Past the hex digits at the offset, six at most in all. */
  function HexEnd(s: Text, at: nat, max: nat): (end: nat)
    requires at <= |s|
    ensures at <= end <= |s| && end <= at + max
    ensures forall i :: at <= i < end ==> IsHex(s[i])
    decreases max
  {
    if max == 0 || at >= |s| || !IsHex(s[at]) then at else HexEnd(s, at + 1, max - 1)
  }

  function HexValue(s: Text, from: nat, to: nat): nat
    requires from <= to <= |s| && forall i :: from <= i < to ==> IsHex(s[i])
  {
    if from == to then 0 else HexValue(s, from, to - 1) * 16 + HexDigit(s[to - 1])
  }

  /** What the escape at the offset stands for, and where it ends; a `\` with nothing
      after it stands for nothing. */
  function EscapeAt(s: Text, at: nat): (r: (Option<Text>, nat))
    requires at < |s| && s[at] == BACKSLASH
    ensures at < r.1 <= |s|
    ensures r.0.None? <==> at + 1 == |s|
    ensures r.0.Some? ==> r.0.value != []
  {
    if at + 1 == |s| then (None, at + 1)
    else if !IsHex(s[at + 1]) then (Some([s[at + 1]]), at + 2)
    else
      var end := HexEnd(s, at + 1, 6);
      (Some(Rune(HexValue(s, at + 1, end))), if end < |s| && IsSpace(s[end]) then end + 1 else end)
  }

  method ScanEscape(s: Text, at: nat) returns (decoded: Option<Text>, past: nat)
    requires at < |s| && s[at] == BACKSLASH
    ensures (decoded, past) == EscapeAt(s, at)
  {
    past := at + 1;
    if past >= |s| {
      return None, past;
    }
    if !IsHex(s[past]) {
      return Some([s[past]]), past + 1;
    }
    var value := 0;
    var start := past;
    while past < |s| && past - start < 6 && IsHex(s[past])
      invariant start <= past <= |s| && past - start <= 6
      invariant forall i :: start <= i < past ==> IsHex(s[i])
      invariant value == HexValue(s, start, past)
      invariant HexEnd(s, start, 6) == HexEnd(s, past, 6 - (past - start))
    {
      value := value * 16 + HexDigit(s[past]);
      past := past + 1;
    }
    decoded := Some(Rune(value));
    if past < |s| && IsSpace(s[past]) {
      past := past + 1;
    }
  }

  // ----------------------------------------------------------------- identifiers

  /** The name read from the offset on, after what was read before, and where it ends. */
  function IdentFrom(s: Text, at: nat, name: Text): (r: (Text, nat))
    requires at <= |s|
    ensures at <= r.1 <= |s|
    decreases |s| - at
  {
    if at == |s| then (name, at)
    else if s[at] == BACKSLASH then
      var (decoded, past) := EscapeAt(s, at);
      if decoded.None? then (name, past) else IdentFrom(s, past, name + decoded.value)
    else if IsIdentByte(s[at]) then IdentFrom(s, at + 1, name + [s[at]])
    else (name, at)
  }

  method ScanIdent(s: Text, at: nat) returns (name: Text, past: nat)
    requires at <= |s|
    ensures (name, past) == IdentFrom(s, at, [])
  {
    name, past := [], at;
    while past < |s|
      invariant at <= past <= |s|
      invariant IdentFrom(s, past, name) == IdentFrom(s, at, [])
      decreases |s| - past
    {
      var c := s[past];
      if c == BACKSLASH {
        var decoded, next := ScanEscape(s, past);
        if decoded.None? {
          return name, next;
        }
        name, past := name + decoded.value, next;
      } else if IsIdentByte(c) {
        name, past := name + [c], past + 1;
      } else {
        return name, past;
      }
    }
  }

  // --------------------------------------------------------- strings and brackets

  function SpaceEnd(s: Text, at: nat): (end: nat)
    requires at <= |s|
    ensures at <= end <= |s|
    decreases |s| - at
  {
    if at == |s| || !IsSpace(s[at]) then at else SpaceEnd(s, at + 1)
  }

  method SkipSpace(s: Text, at: nat) returns (past: nat)
    requires at <= |s|
    ensures past == SpaceEnd(s, at)
  {
    past := at;
    while past < |s| && IsSpace(s[past])
      invariant at <= past <= |s|
      invariant SpaceEnd(s, past) == SpaceEnd(s, at)
    {
      past := past + 1;
    }
  }

  /** From inside a string: past the closing quote, or past the end of the text, one
      byte further when a lone backslash is the last. */
  function StringTail(s: Text, at: nat, quote: Byte): (end: nat)
    ensures at <= end && (at <= |s| ==> end <= |s| + 1)
    decreases |s| - at
  {
    if at >= |s| then at
    else if s[at] == BACKSLASH then StringTail(s, at + 2, quote)
    else if s[at] == quote then at + 1
    else StringTail(s, at + 1, quote)
  }

  function StringEnd(s: Text, at: nat): (end: nat)
    requires at < |s|
    ensures at < end <= |s| + 1
  {
    StringTail(s, at + 1, s[at])
  }

  method SkipQuoted(s: Text, at: nat) returns (past: nat)
    requires at < |s|
    ensures past == StringEnd(s, at)
  {
    var quote := s[at];
    past := at + 1;
    while past < |s|
      invariant at < past
      invariant StringTail(s, past, quote) == StringEnd(s, at)
      decreases |s| - past
    {
      if s[past] == BACKSLASH {
        past := past + 2;
      } else if s[past] == quote {
        return past + 1;
      } else {
        past := past + 1;
      }
    }
  }

  /** Past the bracket that closes, stepping over strings and escapes. */
  function BracketEnd(s: Text, at: nat): (end: nat)
    ensures at <= end && (at <= |s| ==> end <= |s| + 1)
    ensures at < |s| ==> at < end
    decreases |s| - at
  {
    if at >= |s| then at
    else if s[at] == CLOSE then at + 1
    else if IsQuote(s[at]) then BracketEnd(s, StringEnd(s, at))
    else if s[at] == BACKSLASH then BracketEnd(s, at + 2)
    else BracketEnd(s, at + 1)
  }

  method EndOfBracket(s: Text, at: nat) returns (past: nat)
    ensures past == BracketEnd(s, at)
  {
    past := at;
    while past < |s|
      invariant BracketEnd(s, past) == BracketEnd(s, at)
      decreases |s| - past
    {
      if s[past] == CLOSE {
        return past + 1;
      } else if IsQuote(s[past]) {
        past := SkipQuoted(s, past);
      } else if s[past] == BACKSLASH {
        past := past + 2;
      } else {
        past := past + 1;
      }
    }
  }

  // --------------------------------------------------------- what a selector names

  /** Every class name a selector addresses, escapes decoded and case kept. */
  function ClassesFrom(s: Text, at: nat, out: seq<Text>): seq<Text>
    decreases |s| - at
  {
    if at >= |s| then out
    else if s[at] == OPEN then ClassesFrom(s, BracketEnd(s, at), out)
    else if IsQuote(s[at]) then ClassesFrom(s, StringEnd(s, at), out)
    else if s[at] == BACKSLASH then ClassesFrom(s, EscapeAt(s, at).1, out)
    else if s[at] == DOT then
      var (name, past) := IdentFrom(s, at + 1, []);
      ClassesFrom(s, past, if name == [] then out else out + [name])
    else ClassesFrom(s, at + 1, out)
  }

  method ClassNames(selector: Text) returns (out: seq<Text>)
    ensures out == ClassesFrom(selector, 0, [])
  {
    out := [];
    var at := 0;
    while at < |selector|
      invariant ClassesFrom(selector, at, out) == ClassesFrom(selector, 0, [])
      decreases |selector| - at
    {
      var c := selector[at];
      if c == OPEN {
        at := EndOfBracket(selector, at);
      } else if IsQuote(c) {
        at := SkipQuoted(selector, at);
      } else if c == BACKSLASH {
        var _, past := ScanEscape(selector, at);
        at := past;
      } else if c == DOT {
        var name, past := ScanIdent(selector, at + 1);
        if name != [] {
          out := out + [name];
        }
        at := past;
      } else {
        at := at + 1;
      }
    }
  }

  /** Whether what follows the name compares the attribute's value. */
  predicate Compares(s: Text, at: nat)
    requires at <= |s|
  {
    var p := SpaceEnd(s, at);
    p < |s| && (s[p] == EQUALS || (p + 1 < |s| && s[p + 1] == EQUALS && s[p] in {0x7E, STAR, 0x5E, 0x24, BAR}))
  }

  method ComparesValue(s: Text, at: nat) returns (r: bool)
    requires at <= |s|
    ensures r == Compares(s, at)
  {
    var p := SkipSpace(s, at);
    if p >= |s| {
      return false;
    }
    if s[p] == EQUALS {
      return true;
    }
    if p + 1 >= |s| || s[p + 1] != EQUALS {
      return false;
    }
    return s[p] in {0x7E, STAR, 0x5E, 0x24, BAR};
  }

  datatype AttrMatch = AttrMatch(name: Text, value: bool)

  /** Past a namespace prefix and its `|`, or where it stood when there is none: `|=`
      is an operator, and a wildcard prefix is what stops before it. */
  function PrefixEnd(s: Text, at: nat): (end: nat)
    requires at <= |s|
    ensures at <= end <= |s|
  {
    var ident := IdentFrom(s, at, []).1;
    var after := if ident == at && at < |s| && s[at] == STAR then at + 1 else ident;
    if after >= |s| || s[after] != BAR || (after + 1 < |s| && s[after + 1] == EQUALS) then at else after + 1
  }

  /** Where the local name starts. */
  function LocalStart(s: Text, at: nat): (start: nat)
    requires at <= |s|
    ensures at <= start <= |s|
    decreases |s| - at
  {
    if PrefixEnd(s, at) == at then at else LocalStart(s, SpaceEnd(s, PrefixEnd(s, at)))
  }

  method SkipNamespaces(s: Text, start: nat) returns (at: nat)
    requires start <= |s|
    ensures at == LocalStart(s, start)
  {
    at := start;
    while true
      invariant start <= at <= |s| && LocalStart(s, at) == LocalStart(s, start)
      decreases |s| - at
    {
      var _, after := ScanIdent(s, at);
      if after == at && at < |s| && s[at] == STAR {
        after := after + 1;
      }
      if after >= |s| || s[after] != BAR || (after + 1 < |s| && s[after + 1] == EQUALS) {
        return;
      }
      at := SkipSpace(s, after + 1);
    }
  }

  /** Every attribute a selector addresses, by its local name with the case folded. */
  function AttrsFrom(s: Text, at: nat, out: seq<AttrMatch>): seq<AttrMatch>
    decreases |s| - at
  {
    if at >= |s| then out
    else if s[at] != OPEN then AttrsFrom(s, at + 1, out)
    else
      var start := LocalStart(s, SpaceEnd(s, at + 1));
      var (name, after) := IdentFrom(s, start, []);
      AttrsFrom(s, BracketEnd(s, after), if name == [] then out else out + [AttrMatch(Fold(name), Compares(s, after))])
  }

  method AttrMatches(selector: Text) returns (out: seq<AttrMatch>)
    ensures out == AttrsFrom(selector, 0, [])
  {
    out := [];
    var at := 0;
    while at < |selector|
      invariant AttrsFrom(selector, at, out) == AttrsFrom(selector, 0, [])
      decreases |selector| - at
    {
      if selector[at] != OPEN {
        at := at + 1;
        continue;
      }
      at := SkipSpace(selector, at + 1);
      at := SkipNamespaces(selector, at);
      var name, after := ScanIdent(selector, at);
      if name != [] {
        var value := ComparesValue(selector, after);
        out := out + [AttrMatch(Fold(name), value)];
      }
      at := EndOfBracket(selector, after);
    }
  }

  /** A fragment as a browser resolves it: escapes decoded, ASCII case folded. */
  function ResolveFrom(s: Text, at: nat, out: Text): Text
    decreases |s| - at
  {
    if at >= |s| then out
    else if s[at] != BACKSLASH then ResolveFrom(s, at + 1, out + [Lower(s[at])])
    else
      var (decoded, past) := EscapeAt(s, at);
      ResolveFrom(s, past, out + if decoded.None? then [BACKSLASH] else Fold(decoded.value))
  }

  method ResolveNames(text: Text) returns (out: Text)
    ensures out == ResolveFrom(text, 0, [])
  {
    out := [];
    var at := 0;
    while at < |text|
      invariant ResolveFrom(text, at, out) == ResolveFrom(text, 0, [])
      decreases |text| - at
    {
      if text[at] != BACKSLASH {
        out, at := out + [Lower(text[at])], at + 1;
        continue;
      }
      var decoded, past := ScanEscape(text, at);
      out, at := out + if decoded.None? then [BACKSLASH] else Fold(decoded.value), past;
    }
  }
}
