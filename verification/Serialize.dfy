/** JSON.stringify over parsed-JSON-shaped values, and the JS value its text depends on. */
module Serialize {
  import Decimals
  import opened Texts
  import opened Wrappers
  import opened NumberText
  import opened QuotedText
  import opened KeyOrder

  /** A value as Python holds it; an object's entries are in insertion order. */
  datatype Json =
    | Undefined
    | Null
    | Bool(value: bool)
    | Num(number: Number)
    | Str(text: Text)
    | Arr(items: seq<Json>)
    | Obj(entries: seq<Entry>)

  datatype Entry = Entry(key: Text, value: Json)

  const NULL_TEXT: Text := [0x6E, 0x75, 0x6C, 0x6C]
  const TRUE_TEXT: Text := [0x74, 0x72, 0x75, 0x65]
  const FALSE_TEXT: Text := [0x66, 0x61, 0x6C, 0x73, 0x65]
  const COMMA: CodePoint := 0x2C
  const COLON: CodePoint := 0x3A
  const SPACE: CodePoint := 0x20
  const NEWLINE: CodePoint := 0x0A
  const OPEN_BRACE: CodePoint := 0x7B
  const CLOSE_BRACE: CodePoint := 0x7D
  const OPEN_BRACKET: CodePoint := 0x5B
  const CLOSE_BRACKET: CodePoint := 0x5D

  // ----- Printing (_stringify) -----

  function Keys(entries: seq<Entry>): seq<Text> {
    seq(|entries|, i requires 0 <= i < |entries| => entries[i].key)
  }

  function Lookup(entries: seq<Entry>, key: Text): (value: Json)
    requires key in Keys(entries)
    ensures exists i :: 0 <= i < |entries| && entries[i] == Entry(key, value)
  {
    if entries[0].key == key then
      assert entries[0] == Entry(key, entries[0].value);
      entries[0].value
    else
      assert Keys(entries)[1..] == Keys(entries[1..]);
      var value := Lookup(entries[1..], key);
      var i :| 0 <= i < |entries[1..]| && entries[1..][i] == Entry(key, value);
      assert entries[i + 1] == Entry(key, value);
      value
  }

  function Defined(entries: seq<Entry>, keys: seq<Text>): (r: seq<Text>)
    requires forall k :: k in keys ==> k in Keys(entries)
    ensures forall k :: k in r ==> k in Keys(entries)
  {
    if keys == [] then []
    else (if Lookup(entries, keys[0]).Undefined? then [] else [keys[0]]) + Defined(entries, keys[1..])
  }

  /** The keys of the members that are printed, in the order they are printed. */
  function PrintedKeys(entries: seq<Entry>): (r: seq<Text>)
    ensures forall k :: k in r ==> k in Keys(entries)
  {
    JsKeyOrderIsOwnKeyOrder(Keys(entries));
    assert forall k :: k in JsKeyOrder(Keys(entries)) ==> k in multiset(JsKeyOrder(Keys(entries)));
    Defined(entries, JsKeyOrder(Keys(entries)))
  }

  function Deeper(indent: Option<Text>): Option<Text> {
    if indent.None? then None else Some(indent.value + [SPACE, SPACE])
  }

  function Indented(inner: Text, parts: seq<Text>): seq<Text> {
    seq(|parts|, i requires 0 <= i < |parts| => inner + parts[i])
  }

  /** The two join layouts shared by arrays and objects: on one line, or one part per indented line. */
  function Enclose(open: CodePoint, parts: seq<Text>, close: CodePoint, indent: Option<Text>): Text {
    match indent
    case None => [open] + Join([COMMA], parts) + [close]
    case Some(outer) =>
      var inner := outer + [SPACE, SPACE];
      [open, NEWLINE] + Join([COMMA, NEWLINE], Indented(inner, parts)) + [NEWLINE] + outer + [close]
  }

  function MemberText(key: Text, value: Text, indent: Option<Text>): Text {
    key + (if indent.None? then [COLON] else [COLON, SPACE]) + value
  }

  function Stringify(value: Json, indent: Option<Text>): Text
    decreases value
  {
    match value
    case Undefined => NULL_TEXT
    case Null => NULL_TEXT
    case Bool(b) => if b then TRUE_TEXT else FALSE_TEXT
    case Num(n) => if n.Finite? then NumberToString(n) else NULL_TEXT
    case Str(text) => Quote(text)
    case Obj(entries) =>
      var keys := PrintedKeys(entries);
      if keys == [] then [OPEN_BRACE, CLOSE_BRACE]
      else
        Enclose(OPEN_BRACE, MemberTexts(value, indent), CLOSE_BRACE, indent)
    case Arr(items) =>
      if items == [] then [OPEN_BRACKET, CLOSE_BRACKET]
      else
        Enclose(OPEN_BRACKET, ItemTexts(value, indent), CLOSE_BRACKET, indent)
  }

  function ItemTexts(value: Json, indent: Option<Text>): seq<Text>
    requires value.Arr?
    decreases value, 0
  {
    seq(|value.items|, i requires 0 <= i < |value.items| => Stringify(value.items[i], Deeper(indent)))
  }

  function MemberTexts(value: Json, indent: Option<Text>): seq<Text>
    requires value.Obj?
    decreases value, 0
  {
    var keys := PrintedKeys(value.entries);
    seq(|keys|, i requires 0 <= i < |keys| =>
      MemberText(Quote(keys[i]), Stringify(Lookup(value.entries, keys[i]), Deeper(indent)), indent))
  }

  /** `stringify`: two-space indentation; `undefined` alone has no text. */
  function StringifyIndented(value: Json): Option<Text> {
    if value.Undefined? then None else Some(Stringify(value, Some([])))
  }

  /** `stringify_compact`. */
  function StringifyCompact(value: Json): Option<Text> {
    if value.Undefined? then None else Some(Stringify(value, None))
  }

  /** `part` is `whole` without some of its elements, the rest in their order. */
  predicate Subsequence(part: seq<Text>, whole: seq<Text>) {
    if part == [] then true
    else whole != [] && Subsequence(if part[0] == whole[0] then part[1..] else part, whole[1..])
  }

  lemma {:induction false} DefinedKeys(entries: seq<Entry>, keys: seq<Text>)
    requires forall k :: k in keys ==> k in Keys(entries)
    ensures Subsequence(Defined(entries, keys), keys)
    ensures forall k :: k in Defined(entries, keys) <==> k in keys && !Lookup(entries, k).Undefined?
  {
    if keys != [] {
      var rest := Defined(entries, keys[1..]);
      DefinedKeys(entries, keys[1..]);
      assert keys == [keys[0]] + keys[1..];
      if Lookup(entries, keys[0]).Undefined? {
        assert Defined(entries, keys) == rest;
        LaterSubsequence(rest, keys);
      } else {
        assert Defined(entries, keys) == [keys[0]] + rest;
      }
    }
  }

  lemma {:induction false} LaterSubsequence(part: seq<Text>, whole: seq<Text>)
    requires whole != [] && Subsequence(part, whole[1..])
    ensures Subsequence(part, whole)
    decreases |whole|, 0
  {
    if part != [] && part[0] == whole[0] {
      SubsequenceTail(part, whole[1..]);
    }
  }

  lemma {:induction false} SubsequenceTail(part: seq<Text>, whole: seq<Text>)
    requires part != [] && Subsequence(part, whole)
    ensures Subsequence(part[1..], whole)
    decreases |whole|, 1
  {
    if part[0] == whole[0] {
      if part[1..] != [] {
        LaterSubsequence(part[1..], whole);
      }
    } else {
      SubsequenceTail(part, whole[1..]);
      if part[1..] != [] {
        LaterSubsequence(part[1..], whole);
      }
    }
  }

  /** Exactly the members that are not undefined are printed, in JS own-key order. */
  lemma PrintedKeysAreDefined(entries: seq<Entry>)
    ensures Subsequence(PrintedKeys(entries), JsKeyOrder(Keys(entries)))
    ensures forall k :: k in PrintedKeys(entries) <==> k in Keys(entries) && !Lookup(entries, k).Undefined?
  {
    var ordered := JsKeyOrder(Keys(entries));
    JsKeyOrderIsOwnKeyOrder(Keys(entries));
    assert forall k :: k in ordered <==> k in multiset(ordered);
    assert forall k :: k in Keys(entries) <==> k in multiset(Keys(entries));
    DefinedKeys(entries, ordered);
  }

  // ----- What a text stands for -----

  type NormalDecimal = d: Decimal | d.Normal() witness ZERO

  /** A JSON value as JS sees it: UTF-16 strings, finite numbers, no undefined, members in own-key order. */
  datatype Data =
    | DNull
    | DBool(value: bool)
    | DNum(number: NormalDecimal)
    | DStr(units: Units)
    | DArr(items: seq<Data>)
    | DObj(members: seq<Member>)

  datatype Member = Member(key: Units, value: Data)

  function Normal(value: Json): Data
    decreases value
  {
    match value
    case Undefined => DNull
    case Null => DNull
    case Bool(b) => DBool(b)
    case Num(n) => if n.Finite? then DNum(NormalOf(n)) else DNull
    case Str(text) => DStr(Utf16(text))
    case Obj(entries) =>
      var keys := PrintedKeys(entries);
      DObj(seq(|keys|, i requires 0 <= i < |keys| => Member(Utf16(keys[i]), Normal(Lookup(entries, keys[i])))))
    case Arr(items) => DArr(seq(|items|, i requires 0 <= i < |items| => Normal(items[i])))
  }

  /** The printer's layout as a function of the normal form alone. */
  function Render(data: Data, indent: Option<Text>): Text
    decreases data
  {
    match data
    case DNull => NULL_TEXT
    case DBool(b) => if b then TRUE_TEXT else FALSE_TEXT
    case DNum(d) => Print(d)
    case DStr(units) => QuoteUnits(units)
    case DObj(members) =>
      if members == [] then [OPEN_BRACE, CLOSE_BRACE]
      else Enclose(OPEN_BRACE, RenderMembers(data, indent), CLOSE_BRACE, indent)
    case DArr(items) =>
      if items == [] then [OPEN_BRACKET, CLOSE_BRACKET]
      else Enclose(OPEN_BRACKET, RenderItems(data, indent), CLOSE_BRACKET, indent)
  }

  function RenderItems(data: Data, indent: Option<Text>): seq<Text>
    requires data.DArr?
    decreases data, 0
  {
    seq(|data.items|, i requires 0 <= i < |data.items| => Render(data.items[i], Deeper(indent)))
  }

  function RenderMembers(data: Data, indent: Option<Text>): seq<Text>
    requires data.DObj?
    decreases data, 0
  {
    seq(|data.members|, i requires 0 <= i < |data.members| =>
      MemberText(QuoteUnits(data.members[i].key), Render(data.members[i].value, Deeper(indent)), indent))
  }

  /** The Python printer prints exactly the text of the value's normal form. */
  lemma {:induction false} PrintsNormalForm(value: Json, indent: Option<Text>)
    ensures Stringify(value, indent) == Render(Normal(value), indent)
    decreases value
  {
    match value
    case Num(n) =>
      if n.Finite? {
        NumberText.PrintsNormalForm(n);
      }
    case Str(text) => EscapesUtf16(text);
    case Arr(items) => PrintsItems(value, indent);
    case Obj(entries) => PrintsMembers(value, indent);
    case _ =>
  }

  lemma {:induction false} PrintsItems(value: Json, indent: Option<Text>)
    requires value.Arr?
    ensures ItemTexts(value, indent) == RenderItems(Normal(value), indent)
    decreases value, 0
  {
    forall i | 0 <= i < |value.items|
      ensures Stringify(value.items[i], Deeper(indent)) == Render(Normal(value.items[i]), Deeper(indent))
    {
      PrintsNormalForm(value.items[i], Deeper(indent));
    }
  }

  lemma {:induction false} PrintsMembers(value: Json, indent: Option<Text>)
    requires value.Obj?
    ensures MemberTexts(value, indent) == RenderMembers(Normal(value), indent)
    decreases value, 0
  {
    var keys, members := PrintedKeys(value.entries), Normal(value).members;
    forall i | 0 <= i < |keys|
      ensures MemberTexts(value, indent)[i] == RenderMembers(Normal(value), indent)[i]
    {
      var item := Lookup(value.entries, keys[i]);
      PrintsNormalForm(item, Deeper(indent));
      EscapesUtf16(keys[i]);
      assert members[i] == Member(Utf16(keys[i]), Normal(item));
    }
  }

  // ----- The text can be encoded -----

  /** No surrogate code point, so the text encodes as UTF-8. */
  predicate Encodable(t: Text) {
    forall i :: 0 <= i < |t| ==> !Surrogate(t[i] as int)
  }

  lemma ConcatEncodable(a: Text, b: Text)
    requires Encodable(a) && Encodable(b)
    ensures Encodable(a + b)
  {
  }

  lemma {:induction false} JoinEncodable(separator: Text, parts: seq<Text>)
    requires Encodable(separator) && forall i :: 0 <= i < |parts| ==> Encodable(parts[i])
    ensures Encodable(Join(separator, parts))
  {
    if |parts| > 1 {
      JoinEncodable(separator, parts[1..]);
      ConcatEncodable(parts[0] + separator, Join(separator, parts[1..]));
    }
  }

  lemma EncloseEncodable(open: CodePoint, parts: seq<Text>, close: CodePoint, indent: Option<Text>)
    requires !Surrogate(open as int) && !Surrogate(close as int)
    requires indent.Some? ==> Encodable(indent.value)
    requires forall i :: 0 <= i < |parts| ==> Encodable(parts[i])
    ensures Encodable(Enclose(open, parts, close, indent))
  {
    match indent
    case None => JoinEncodable([COMMA], parts);
    case Some(outer) =>
      var inner := outer + [SPACE, SPACE];
      var lines := Indented(inner, parts);
      forall i | 0 <= i < |parts|
        ensures Encodable(lines[i])
      {
        ConcatEncodable(inner, parts[i]);
      }
      JoinEncodable([COMMA, NEWLINE], lines);
      ConcatEncodable([open, NEWLINE], Join([COMMA, NEWLINE], lines));
      ConcatEncodable([open, NEWLINE] + Join([COMMA, NEWLINE], lines) + [NEWLINE], outer);
  }

  lemma DigitsEncodable(digits: seq<Decimals.Digit>)
    ensures Encodable(DigitText(digits))
  {
  }

  lemma LayoutEncodable(digits: seq<Decimals.Digit>, n: int)
    requires digits != []
    ensures Encodable(Layout(digits, n))
  {
    var k := |digits|;
    if k <= n <= 21 {
      DigitsEncodable(digits + Zeros(n - k));
    } else if 0 < n <= 21 {
      DigitsEncodable(digits[..n]);
      DigitsEncodable(digits[n..]);
      ConcatEncodable(DigitText(digits[..n]) + [DOT], DigitText(digits[n..]));
    } else if -6 < n <= 0 {
      DigitsEncodable([0]);
      DigitsEncodable(Zeros(-n) + digits);
      ConcatEncodable(DigitText([0]) + [DOT], DigitText(Zeros(-n) + digits));
    } else {
      DigitsEncodable(digits[..1]);
      DigitsEncodable(digits[1..]);
      DigitsEncodable(Decimals.OfNat(Abs(n - 1)));
      ConcatEncodable(DigitText(digits[..1]), OptionalFraction(digits[1..]));
      ConcatEncodable(DigitText(digits[..1]) + OptionalFraction(digits[1..]), ExponentText(n - 1));
    }
  }

  lemma QuoteEncodable(text: Text)
    ensures Encodable(Quote(text))
  {
    EscapedIsPlain(text);
    assert Encodable(Escaped(text));
  }

  lemma FiniteEncodable(n: Number)
    requires n.Finite?
    ensures Encodable(NumberToString(n))
  {
    NumberText.PrintsNormalForm(n);
    var d := NormalOf(n);
    if d.digits != [] {
      LayoutEncodable(d.digits, d.point);
    }
  }

  lemma MemberEncodable(key: Text, value: Text, indent: Option<Text>)
    requires Encodable(key) && Encodable(value)
    ensures Encodable(MemberText(key, value, indent))
  {
    ConcatEncodable(key + (if indent.None? then [COLON] else [COLON, SPACE]), value);
  }

  /** The cache key's body always encodes as UTF-8, whatever strings the value holds. */
  lemma {:induction false} StringifyEncodable(value: Json, indent: Option<Text>)
    requires indent.Some? ==> Encodable(indent.value)
    ensures Encodable(Stringify(value, indent))
    decreases value
  {
    match value
    case Num(n) =>
      if n.Finite? {
        FiniteEncodable(n);
      }
    case Str(text) => QuoteEncodable(text);
    case Arr(items) =>
      ItemsEncodable(value, indent);
      EncloseEncodable(OPEN_BRACKET, ItemTexts(value, indent), CLOSE_BRACKET, indent);
    case Obj(entries) =>
      MembersEncodable(value, indent);
      EncloseEncodable(OPEN_BRACE, MemberTexts(value, indent), CLOSE_BRACE, indent);
    case _ =>
  }

  lemma {:induction false} ItemsEncodable(value: Json, indent: Option<Text>)
    requires value.Arr? && (indent.Some? ==> Encodable(indent.value))
    ensures forall i :: 0 <= i < |ItemTexts(value, indent)| ==> Encodable(ItemTexts(value, indent)[i])
    decreases value, 0
  {
    forall i | 0 <= i < |value.items|
      ensures Encodable(Stringify(value.items[i], Deeper(indent)))
    {
      StringifyEncodable(value.items[i], Deeper(indent));
    }
  }

  lemma {:induction false} MembersEncodable(value: Json, indent: Option<Text>)
    requires value.Obj? && (indent.Some? ==> Encodable(indent.value))
    ensures forall i :: 0 <= i < |MemberTexts(value, indent)| ==> Encodable(MemberTexts(value, indent)[i])
    decreases value, 0
  {
    var keys := PrintedKeys(value.entries);
    forall i | 0 <= i < |keys|
      ensures Encodable(MemberTexts(value, indent)[i])
    {
      var item := Lookup(value.entries, keys[i]);
      QuoteEncodable(keys[i]);
      StringifyEncodable(item, Deeper(indent));
      MemberEncodable(Quote(keys[i]), Stringify(item, Deeper(indent)), indent);
    }
  }
}
