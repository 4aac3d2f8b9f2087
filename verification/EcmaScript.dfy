/** JSON.stringify as ECMA-262 words it, and the proof that the Python printer writes the same text. */
module EcmaScript {
  import opened Decimals
  import opened Texts
  import opened Wrappers
  import opened NumberText
  import opened QuotedText
  import opened Serialize

  // ----- Number::toString, section 6.1.6.1.20 -----

  function Repeat(c: CodePoint, n: nat): Text {
    seq(n, _ => c)
  }

  const ZERO_DIGIT: CodePoint := 0x30

  /** The text of s * 10^(n - k), where s has k digits. */
  function PositiveToString(s: nat, n: int): Text {
    var digits := DigitText(OfNat(s));
    var k := |digits|;
    if -5 <= n <= 21 then
      if n >= k then digits + Repeat(ZERO_DIGIT, n - k)
      else if n > 0 then digits[..n] + [DOT] + digits[n..]
      else [ZERO_DIGIT, DOT] + Repeat(ZERO_DIGIT, -n) + digits
    else
      var exponent := [if n < 0 then MINUS else PLUS] + DigitText(OfNat(Abs(n - 1)));
      if k == 1 then digits + [E] + exponent else digits[..1] + [DOT] + digits[1..] + [E] + exponent
  }

  function NumberToText(d: Decimal): Text {
    if d.digits == [] then [ZERO_DIGIT]
    else (if d.negative then [MINUS] else []) + PositiveToString(ToNat(d.digits), d.point)
  }

  // ----- QuoteJSONString, section 25.5.2.3 -----

  /** StringToCodePoints, section 11.1.4: an unpaired surrogate stands for itself. */
  function CodePointsOf(units: Units): Text
    decreases |units|
  {
    if units == [] then []
    else if StartsWithUnitPair(units) then
      [Combine(units[0] as int, units[1] as int)] + CodePointsOf(units[2..])
    else [units[0] as CodePoint] + CodePointsOf(units[1..])
  }

  /** The code points of table 82 and the escapes listed for them. */
  function TableEscape(c: CodePoint): Option<CodePoint> {
    match c
    case 0x08 => Some(0x62)
    case 0x09 => Some(0x74)
    case 0x0A => Some(0x6E)
    case 0x0C => Some(0x66)
    case 0x0D => Some(0x72)
    case 0x22 => Some(0x22)
    case 0x5C => Some(0x5C)
    case _ => None
  }

  /** `n` in lowercase hexadecimal, padded to that many digits. */
  function Hex(n: nat, digits: nat): Text {
    if digits == 0 then [] else Hex(n / 16, digits - 1) + [HexChar(n % 16)]
  }

  function QuotePoint(c: CodePoint): Text {
    var escape := TableEscape(c);
    if escape.Some? then [BACKSLASH, escape.value]
    else if c < 0x20 || Surrogate(c as int) then [BACKSLASH, LOWER_U] + Hex(c as nat, 4)
    else [c]
  }

  function QuotePoints(points: Text): Text {
    if points == [] then [] else QuotePoint(points[0]) + QuotePoints(points[1..])
  }

  function QuoteJson(units: Units): Text {
    [QUOTE] + QuotePoints(CodePointsOf(units)) + [QUOTE]
  }

  // ----- SerializeJSONProperty, sections 25.5.2.2, 25.5.2.5 and 25.5.2.6 -----

  /** The last steps for objects and arrays alike: what is between the brackets, by the gap. */
  function Wrapped(open: CodePoint, partial: seq<Text>, close: CodePoint, gap: Text, indent: Text, stepback: Text): Text
  {
    if partial == [] then [open, close]
    else if gap == [] then [open] + Join([COMMA], partial) + [close]
    else
      var separator := [COMMA, NEWLINE] + indent;
      [open, NEWLINE] + indent + Join(separator, partial) + [NEWLINE] + stepback + [close]
  }

  function SerializeProperty(data: Data, gap: Text, stepback: Text): Text
    decreases data
  {
    var indent := stepback + gap;
    match data
    case DNull => Chars("null")
    case DBool(b) => if b then Chars("true") else Chars("false")
    case DNum(d) => NumberToText(d)
    case DStr(units) => QuoteJson(units)
    case DObj(members) => Wrapped(OPEN_BRACE, ObjectPartial(data, gap, indent), CLOSE_BRACE, gap, indent, stepback)
    case DArr(items) => Wrapped(OPEN_BRACKET, ArrayPartial(data, gap, indent), CLOSE_BRACKET, gap, indent, stepback)
  }

  function ObjectPartial(data: Data, gap: Text, indent: Text): seq<Text>
    requires data.DObj?
    decreases data, 0
  {
    var members := data.members;
    seq(|members|, i requires 0 <= i < |members| =>
      QuoteJson(members[i].key) + [COLON] + (if gap != [] then [SPACE] else [])
      + SerializeProperty(members[i].value, gap, indent))
  }

  function ArrayPartial(data: Data, gap: Text, indent: Text): seq<Text>
    requires data.DArr?
    decreases data, 0
  {
    seq(|data.items|, i requires 0 <= i < |data.items| => SerializeProperty(data.items[i], gap, indent))
  }

  // ----- The same numbers -----

  lemma DigitTextConcat(a: seq<Digit>, b: seq<Digit>)
    ensures DigitText(a + b) == DigitText(a) + DigitText(b)
  {
  }

  lemma ZerosText(n: nat)
    ensures DigitText(Zeros(n)) == Repeat(ZERO_DIGIT, n)
  {
  }

  lemma DigitTextSlice(digits: seq<Digit>, n: nat)
    requires n <= |digits|
    ensures DigitText(digits[..n]) == DigitText(digits)[..n] && DigitText(digits[n..]) == DigitText(digits)[n..]
  {
  }

  lemma LayoutIsEcma(digits: seq<Digit>, n: int)
    requires digits != [] && digits[0] != 0
    ensures Layout(digits, n) == PositiveToString(ToNat(digits), n)
  {
    ToNatRoundTrip(digits);
    var k := |digits|;
    if k <= n <= 21 {
      DigitTextConcat(digits, Zeros(n - k));
      ZerosText(n - k);
    } else if 0 < n <= 21 {
      DigitTextSlice(digits, n);
    } else if -6 < n <= 0 {
      DigitTextConcat(Zeros(-n), digits);
      ZerosText(-n);
      assert DigitText([0]) == [ZERO_DIGIT];
    } else {
      ExponentIsEcma(digits, n);
    }
  }

  lemma ExponentIsEcma(digits: seq<Digit>, n: int)
    requires digits != []
    ensures var text := DigitText(digits);
            var exponent := [if n - 1 >= 0 then PLUS else MINUS] + DigitText(OfNat(Abs(n - 1)));
            ExponentLayout(digits, n)
            == if |digits| == 1 then text + [E] + exponent else text[..1] + [DOT] + text[1..] + [E] + exponent
  {
    DigitTextSlice(digits, 1);
  }

  lemma NumberIsEcma(d: NormalDecimal)
    ensures Print(d) == NumberToText(d)
  {
    if d.digits != [] {
      LayoutIsEcma(d.digits, d.point);
    }
  }

  // ----- The same strings -----

  lemma HexOfUnit(c: int)
    requires 0 <= c <= 0xFFFF
    ensures Hex(c, 4) == [HexChar(c / 0x1000), HexChar(c / 0x100 % 16), HexChar(c / 16 % 16), HexChar(c % 16)]
  {
    var a, b := c / 0x1000, c / 0x100;
    HexStep(c, c / 16, 3);
    HexStep(c / 16, b, 2);
    HexStep(b, a, 1);
    HexStep(a, 0, 0);
    assert Hex(0, 0) == [];
  }

  lemma HexStep(n: nat, high: nat, digits: nat)
    requires high == n / 16
    ensures Hex(n, digits + 1) == Hex(high, digits) + [HexChar(n % 16)]
  {
  }

  lemma UnitIsEcma(c: int)
    requires 0 <= c <= 0xFFFF
    ensures QuotePoint(c as CodePoint) == if NeedsEscape(c) then EscapeOne(c) else [c as CodePoint]
  {
    HexOfUnit(c);
  }

  lemma {:induction false} StringIsEcma(units: Units)
    ensures EscapedUnits(units) == QuotePoints(CodePointsOf(units))
    decreases |units|
  {
    if units != [] {
      if StartsWithUnitPair(units) {
        StringIsEcma(units[2..]);
      } else {
        StringIsEcma(units[1..]);
        UnitIsEcma(units[0] as int);
      }
    }
  }

  // ----- The same layout -----

  function GapOf(indent: Option<Text>): Text {
    if indent.None? then [] else [SPACE, SPACE]
  }

  function StepbackOf(indent: Option<Text>): Text {
    if indent.None? then [] else indent.value
  }

  lemma {:induction false} JoinsIndented(inner: Text, parts: seq<Text>)
    requires parts != []
    ensures Join([COMMA, NEWLINE], Indented(inner, parts)) == inner + Join([COMMA, NEWLINE] + inner, parts)
  {
    if |parts| > 1 {
      JoinsIndented(inner, parts[1..]);
      assert Indented(inner, parts)[1..] == Indented(inner, parts[1..]);
    }
  }

  lemma LayoutOfParts(open: CodePoint, parts: seq<Text>, close: CodePoint, indent: Option<Text>)
    requires parts != []
    ensures var stepback, gap := StepbackOf(indent), GapOf(indent);
            Enclose(open, parts, close, indent) == Wrapped(open, parts, close, gap, stepback + gap, stepback)
  {
    if indent.Some? {
      var inner := indent.value + [SPACE, SPACE];
      JoinsIndented(inner, parts);
      assert Enclose(open, parts, close, indent)
          == [open, NEWLINE] + Join([COMMA, NEWLINE], Indented(inner, parts)) + [NEWLINE] + indent.value + [close];
    }
  }

  lemma DeeperIs(indent: Option<Text>)
    ensures GapOf(Deeper(indent)) == GapOf(indent)
    ensures StepbackOf(Deeper(indent)) == StepbackOf(indent) + GapOf(indent)
  {
  }

  lemma LiteralsAre()
    ensures Chars("null") == NULL_TEXT && Chars("true") == TRUE_TEXT && Chars("false") == FALSE_TEXT
  {
  }

  lemma {:induction false} RenderIsEcma(data: Data, indent: Option<Text>)
    ensures Render(data, indent) == SerializeProperty(data, GapOf(indent), StepbackOf(indent))
    decreases data
  {
    LiteralsAre();
    match data
    case DNum(d) => NumberIsEcma(d);
    case DStr(units) => StringIsEcma(units);
    case DArr(items) =>
      ItemsAreEcma(data, indent);
      if items != [] {
        LayoutOfParts(OPEN_BRACKET, RenderItems(data, indent), CLOSE_BRACKET, indent);
      }
    case DObj(members) =>
      MembersAreEcma(data, indent);
      if members != [] {
        LayoutOfParts(OPEN_BRACE, RenderMembers(data, indent), CLOSE_BRACE, indent);
      }
    case _ =>
  }

  lemma {:induction false} ItemsAreEcma(data: Data, indent: Option<Text>)
    requires data.DArr?
    ensures RenderItems(data, indent) == ArrayPartial(data, GapOf(indent), StepbackOf(indent) + GapOf(indent))
    decreases data, 0
  {
    DeeperIs(indent);
    forall i | 0 <= i < |data.items|
      ensures Render(data.items[i], Deeper(indent))
           == SerializeProperty(data.items[i], GapOf(indent), StepbackOf(indent) + GapOf(indent))
    {
      RenderIsEcma(data.items[i], Deeper(indent));
    }
  }

  lemma {:induction false} MembersAreEcma(data: Data, indent: Option<Text>)
    requires data.DObj?
    ensures RenderMembers(data, indent) == ObjectPartial(data, GapOf(indent), StepbackOf(indent) + GapOf(indent))
    decreases data, 0
  {
    DeeperIs(indent);
    var members := data.members;
    forall i | 0 <= i < |members|
      ensures RenderMembers(data, indent)[i]
           == ObjectPartial(data, GapOf(indent), StepbackOf(indent) + GapOf(indent))[i]
    {
      RenderIsEcma(members[i].value, Deeper(indent));
      StringIsEcma(members[i].key);
      assert QuoteUnits(members[i].key) == QuoteJson(members[i].key);
    }
  }

  /** `stringify` and `stringify_compact` write what ECMA-262 prescribes for the value, with a gap of two spaces and
      with none. */
  lemma StringifyIsEcma(value: Json)
    requires !value.Undefined?
    ensures StringifyIndented(value) == Some(SerializeProperty(Normal(value), [SPACE, SPACE], []))
    ensures StringifyCompact(value) == Some(SerializeProperty(Normal(value), [], []))
  {
    Serialize.PrintsNormalForm(value, Some([]));
    Serialize.PrintsNormalForm(value, None);
    RenderIsEcma(Normal(value), Some([]));
    RenderIsEcma(Normal(value), None);
  }
}
