/** JSON.stringify of a string: surrogate-aware quoting, and an RFC 8259 string reader that undoes it. */
module QuotedText {
  import opened Texts
  import opened Wrappers

  newtype Unit = u: int | 0 <= u <= 0xFFFF
  type Units = seq<Unit>

  const QUOTE: CodePoint := 0x22
  const BACKSLASH: CodePoint := 0x5C
  const LOWER_U: CodePoint := 0x75

  // ----- UTF-16 -----

  predicate HighSurrogate(c: int) {
    0xD800 <= c <= 0xDBFF
  }

  predicate LowSurrogate(c: int) {
    0xDC00 <= c <= 0xDFFF
  }

  predicate Surrogate(c: int) {
    0xD800 <= c <= 0xDFFF
  }

  function UnitsOf(c: CodePoint): Units {
    if c < 0x10000 then [c as Unit]
    else [(0xD800 + (c as int - 0x10000) / 0x400) as Unit, (0xDC00 + (c as int - 0x10000) % 0x400) as Unit]
  }

  /** The JS string a Python string stands for. */
  function Utf16(text: Text): Units {
    if text == [] then [] else UnitsOf(text[0]) + Utf16(text[1..])
  }

  function Combine(high: int, low: int): CodePoint
    requires HighSurrogate(high) && LowSurrogate(low)
  {
    (0x10000 + (high - 0xD800) * 0x400 + (low - 0xDC00)) as CodePoint
  }

  lemma CombineSplits(high: int, low: int)
    requires HighSurrogate(high) && LowSurrogate(low)
    ensures UnitsOf(Combine(high, low)) == [high as Unit, low as Unit]
  {
  }

  lemma SplitCombines(c: CodePoint)
    requires c >= 0x10000
    ensures var units := UnitsOf(c);
            && |units| == 2 && HighSurrogate(units[0] as int) && LowSurrogate(units[1] as int)
            && Combine(units[0] as int, units[1] as int) == c
  {
  }

  // ----- Quoting -----

  function HexChar(n: nat): (c: CodePoint)
    requires n < 16
  {
    if n < 10 then 0x30 + n as CodePoint else 0x57 + n as CodePoint
  }

  /** A backslash escape: the short form where JSON has one, else \u and four lowercase hex digits. */
  function EscapeOne(c: int): Text
    requires 0 <= c <= 0xFFFF
  {
    if c == 0x22 then [BACKSLASH, QUOTE]
    else if c == 0x5C then [BACKSLASH, BACKSLASH]
    else if c == 0x08 then [BACKSLASH, 0x62]
    else if c == 0x0C then [BACKSLASH, 0x66]
    else if c == 0x0A then [BACKSLASH, 0x6E]
    else if c == 0x0D then [BACKSLASH, 0x72]
    else if c == 0x09 then [BACKSLASH, 0x74]
    else [BACKSLASH, LOWER_U, HexChar(c / 0x1000), HexChar(c / 0x100 % 16), HexChar(c / 16 % 16), HexChar(c % 16)]
  }

  predicate NeedsEscape(c: int) {
    c == 0x22 || c == 0x5C || c < 0x20 || Surrogate(c)
  }

  predicate StartsWithPair(text: Text) {
    |text| > 1 && HighSurrogate(text[0] as int) && LowSurrogate(text[1] as int)
  }

  /** The substitution of `quote`: at each position a surrogate pair is tried before a single character. */
  function Escaped(text: Text): Text
    decreases |text|
  {
    if text == [] then []
    else if StartsWithPair(text) then [Combine(text[0] as int, text[1] as int)] + Escaped(text[2..])
    else if NeedsEscape(text[0] as int) then EscapeOne(text[0] as int) + Escaped(text[1..])
    else [text[0]] + Escaped(text[1..])
  }

  function Quote(text: Text): Text {
    [QUOTE] + Escaped(text) + [QUOTE]
  }

  predicate StartsWithUnitPair(units: Units) {
    |units| > 1 && HighSurrogate(units[0] as int) && LowSurrogate(units[1] as int)
  }

  /** The same substitution on code units. */
  function EscapedUnits(units: Units): Text
    decreases |units|
  {
    if units == [] then []
    else if StartsWithUnitPair(units) then [Combine(units[0] as int, units[1] as int)] + EscapedUnits(units[2..])
    else if NeedsEscape(units[0] as int) then EscapeOne(units[0] as int) + EscapedUnits(units[1..])
    else [units[0] as CodePoint] + EscapedUnits(units[1..])
  }

  function QuoteUnits(units: Units): Text {
    [QUOTE] + EscapedUnits(units) + [QUOTE]
  }

  /** Quoting depends on the UTF-16 form alone. */
  lemma {:induction false} EscapesUtf16(text: Text)
    ensures Escaped(text) == EscapedUnits(Utf16(text))
    decreases |text|
  {
    if text == [] {
    } else if StartsWithPair(text) {
      assert Utf16(text) == UnitsOf(text[0]) + (UnitsOf(text[1]) + Utf16(text[1..][1..]));
      assert text[1..][1..] == text[2..];
      EscapesUtf16(text[2..]);
      assert Utf16(text)[2..] == Utf16(text[2..]);
    } else if text[0] >= 0x10000 {
      SplitCombines(text[0]);
      EscapesUtf16(text[1..]);
      assert Utf16(text)[2..] == Utf16(text[1..]);
    } else {
      EscapesUtf16(text[1..]);
      assert Utf16(text)[1..] == Utf16(text[1..]);
      if |text| > 1 {
        assert Utf16(text[1..])[0] == UnitsOf(text[1])[0];
        if text[1] >= 0x10000 {
          SplitCombines(text[1]);
        }
      }
    }
  }

  // ----- Reading (RFC 8259 section 7) -----

  predicate IsHex(c: CodePoint) {
    0x30 <= c <= 0x39 || 0x61 <= c <= 0x66 || 0x41 <= c <= 0x46
  }

  function HexValue(c: CodePoint): (n: nat)
    requires IsHex(c)
    ensures n < 16
  {
    if c <= 0x39 then (c - 0x30) as nat else if c >= 0x61 then (c - 0x57) as nat else (c - 0x37) as nat
  }

  function ShortEscape(c: CodePoint): Option<Unit> {
    if c == QUOTE || c == BACKSLASH || c == 0x2F then Some(c as Unit)
    else if c == 0x62 then Some(0x08)
    else if c == 0x66 then Some(0x0C)
    else if c == 0x6E then Some(0x0A)
    else if c == 0x72 then Some(0x0D)
    else if c == 0x74 then Some(0x09)
    else None
  }

  /** The units one character or escape stands for, and what follows it. */
  function ReadChar(t: Text): (r: Option<(Units, Text)>)
    ensures r.Some? ==> |r.value.1| < |t|
  {
    if t == [] || t[0] < 0x20 then None
    else if t[0] != BACKSLASH then Some((UnitsOf(t[0]), t[1..]))
    else if |t| < 2 then None
    else if t[1] != LOWER_U then
      var unit :- ShortEscape(t[1]);
      Some(([unit], t[2..]))
    else if |t| < 6 || !IsHex(t[2]) || !IsHex(t[3]) || !IsHex(t[4]) || !IsHex(t[5]) then None
    else
      var code := ((HexValue(t[2]) * 16 + HexValue(t[3])) * 16 + HexValue(t[4])) * 16 + HexValue(t[5]);
      Some(([code as Unit], t[6..]))
  }

  /** The characters up to the closing quotation mark, and what follows it. */
  function ReadChars(t: Text): (r: Option<(Units, Text)>)
    ensures r.Some? ==> |r.value.1| < |t|
    decreases |t|
  {
    if t != [] && t[0] == QUOTE then Some(([], t[1..]))
    else
      var (units, rest) :- ReadChar(t);
      var (more, after) :- ReadChars(rest);
      Some((units + more, after))
  }

  lemma HexIsRead(n: nat)
    requires n < 16
    ensures IsHex(HexChar(n)) && HexValue(HexChar(n)) == n
  {
  }

  lemma ReadsFourHex(a: nat, b: nat, c: nat, d: nat, rest: Text)
    requires a < 16 && b < 16 && c < 16 && d < 16
    ensures ReadChar([BACKSLASH, LOWER_U, HexChar(a), HexChar(b), HexChar(c), HexChar(d)] + rest)
            == Some(([(((a * 16 + b) * 16 + c) * 16 + d) as Unit], rest))
  {
    HexIsRead(a);
    HexIsRead(b);
    HexIsRead(c);
    HexIsRead(d);
    ReadsHexChars(HexChar(a), HexChar(b), HexChar(c), HexChar(d), rest);
  }

  lemma ReadsHexChars(a: CodePoint, b: CodePoint, c: CodePoint, d: CodePoint, rest: Text)
    requires IsHex(a) && IsHex(b) && IsHex(c) && IsHex(d)
    ensures ReadChar([BACKSLASH, LOWER_U, a, b, c, d] + rest)
            == Some(([(((HexValue(a) * 16 + HexValue(b)) * 16 + HexValue(c)) * 16 + HexValue(d)) as Unit], rest))
  {
    assert ([BACKSLASH, LOWER_U, a, b, c, d] + rest)[6..] == rest;
  }

  lemma HexDigitsOf(c: int)
    requires 0 <= c <= 0xFFFF
    ensures 0 <= c / 0x1000 < 16
    ensures ((c / 0x1000 * 16 + c / 0x100 % 16) * 16 + c / 16 % 16) * 16 + c % 16 == c
  {
  }

  lemma ReadsHex(c: int, rest: Text)
    requires 0 <= c <= 0xFFFF
    ensures var t := [BACKSLASH, LOWER_U, HexChar(c / 0x1000), HexChar(c / 0x100 % 16), HexChar(c / 16 % 16),
                      HexChar(c % 16)] + rest;
            ReadChar(t) == Some(([c as Unit], rest))
  {
    HexDigitsOf(c);
    ReadsFourHex(c / 0x1000, c / 0x100 % 16, c / 16 % 16, c % 16, rest);
  }

  lemma ReadsEscape(c: int, rest: Text)
    requires 0 <= c <= 0xFFFF && NeedsEscape(c)
    ensures ReadChar(EscapeOne(c) + rest) == Some(([c as Unit], rest))
    ensures (EscapeOne(c) + rest)[0] == BACKSLASH
  {
    if c == 0x22 || c == 0x5C || c == 0x08 || c == 0x0C || c == 0x0A || c == 0x0D || c == 0x09 {
      assert (EscapeOne(c) + rest)[2..] == rest;
    } else {
      ReadsHex(c, rest);
    }
  }

  lemma ReadsRawThen(c: CodePoint, tail: Text, more: Units, rest: Text)
    requires c >= 0x20 && c != QUOTE && c != BACKSLASH
    requires ReadChars(tail) == Some((more, rest))
    ensures ReadChars([c] + tail) == Some((UnitsOf(c) + more, rest))
  {
    assert ([c] + tail)[1..] == tail;
  }

  lemma ReadsEscapeThen(c: int, tail: Text, more: Units, rest: Text)
    requires 0 <= c <= 0xFFFF && NeedsEscape(c)
    requires ReadChars(tail) == Some((more, rest))
    ensures ReadChars(EscapeOne(c) + tail) == Some(([c as Unit] + more, rest))
  {
    ReadsEscape(c, tail);
  }

  lemma {:induction false} ReadsEscapedUnits(units: Units, rest: Text)
    ensures ReadChars(EscapedUnits(units) + ([QUOTE] + rest)) == Some((units, rest))
    decreases |units|
  {
    var close := [QUOTE] + rest;
    if units == [] {
      assert EscapedUnits(units) + close == close;
    } else if StartsWithUnitPair(units) {
      var c, tail := Combine(units[0] as int, units[1] as int), EscapedUnits(units[2..]);
      ReadsEscapedUnits(units[2..], rest);
      ReadsRawThen(c, tail + close, units[2..], rest);
      CombineSplits(units[0] as int, units[1] as int);
      assert [c] + tail + close == [c] + (tail + close);
      assert units == UnitsOf(c) + units[2..];
    } else {
      var c, tail := units[0], EscapedUnits(units[1..]);
      ReadsEscapedUnits(units[1..], rest);
      assert units == [c] + units[1..];
      if NeedsEscape(c as int) {
        ReadsEscapeThen(c as int, tail + close, units[1..], rest);
        assert EscapeOne(c as int) + tail + close == EscapeOne(c as int) + (tail + close);
      } else {
        ReadsRawThen(c as CodePoint, tail + close, units[1..], rest);
        assert [c as CodePoint] + tail + close == [c as CodePoint] + (tail + close);
      }
    }
  }

  lemma OpensQuote(inside: Text, rest: Text)
    ensures ([QUOTE] + inside + [QUOTE] + rest)[0] == QUOTE
    ensures ([QUOTE] + inside + [QUOTE] + rest)[1..] == inside + ([QUOTE] + rest)
  {
  }

  /** Reading a quoted string gives back its UTF-16 form and leaves what follows untouched. */
  lemma ReadsQuoted(text: Text, rest: Text)
    ensures var t := Quote(text) + rest;
            t[0] == QUOTE && ReadChars(t[1..]) == Some((Utf16(text), rest))
  {
    EscapesUtf16(text);
    ReadsEscapedUnits(Utf16(text), rest);
    OpensQuote(Escaped(text), rest);
    assert Escaped(text) == EscapedUnits(Utf16(text));
  }

  /** Two strings are quoted alike exactly when they are the same JS string. */
  lemma QuotesAlikeIffSameUtf16(a: Text, b: Text)
    ensures Quote(a) == Quote(b) <==> Utf16(a) == Utf16(b)
  {
    EscapesUtf16(a);
    EscapesUtf16(b);
    if Quote(a) == Quote(b) {
      ReadsQuoted(a, []);
      ReadsQuoted(b, []);
    }
  }

  /** Quoted text holds no surrogate and no control character, so it encodes as UTF-8 on one line. */
  lemma {:induction false} EscapedIsPlain(text: Text)
    ensures forall i :: 0 <= i < |Escaped(text)| ==> Escaped(text)[i] >= 0x20 && !Surrogate(Escaped(text)[i] as int)
    decreases |text|
  {
    if text != [] {
      EscapedIsPlain(if StartsWithPair(text) then text[2..] else text[1..]);
    }
  }
}
