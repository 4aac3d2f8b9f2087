/** An RFC 8259 reader, and the proof that it undoes the printer. */
module JsonReader {
  import opened Texts
  import opened Wrappers
  import opened NumberText
  import opened QuotedText
  import opened Serialize

  // ----- The reader -----

  predicate IsSpace(c: CodePoint) {
    c == 0x20 || c == 0x09 || c == 0x0A || c == 0x0D
  }

  function Skip(t: Text): (r: Text)
    ensures |r| <= |t|
    ensures r != [] ==> !IsSpace(r[0])
  {
    if t != [] && IsSpace(t[0]) then Skip(t[1..]) else t
  }

  /** `t` without the first character if that is `c` after optional white space. */
  function Expect(t: Text, c: CodePoint): (r: Option<Text>)
    ensures r.Some? ==> |r.value| < |t|
  {
    var s := Skip(t);
    if s != [] && s[0] == c then Some(s[1..]) else None
  }

  function ReadLiteral(t: Text, literal: Text, data: Data): (r: Option<(Data, Text)>)
    requires literal != []
    ensures r.Some? ==> |r.value.1| < |t|
  {
    if |literal| <= |t| && t[..|literal|] == literal then Some((data, t[|literal|..])) else None
  }

  function ReadValue(t: Text): (r: Option<(Data, Text)>)
    ensures r.Some? ==> |r.value.1| < |t|
    decreases |t|, 1
  {
    ReadToken(Skip(t))
  }

  function ReadToken(t: Text): (r: Option<(Data, Text)>)
    ensures r.Some? ==> |r.value.1| < |t|
    decreases |t|, 0
  {
    if t == [] then None
    else if t[0] == QUOTE then
      var (units, rest) :- ReadChars(t[1..]);
      Some((DStr(units), rest))
    else if t[0] == OPEN_BRACKET then ReadArray(t[1..])
    else if t[0] == OPEN_BRACE then ReadObject(t[1..])
    else if t[0] == NULL_TEXT[0] then ReadLiteral(t, NULL_TEXT, DNull)
    else if t[0] == TRUE_TEXT[0] then ReadLiteral(t, TRUE_TEXT, DBool(true))
    else if t[0] == FALSE_TEXT[0] then ReadLiteral(t, FALSE_TEXT, DBool(false))
    else
      var (number, rest) :- ReadNumber(t);
      Some((DNum(number), rest))
  }

  function ReadArray(t: Text): (r: Option<(Data, Text)>)
    ensures r.Some? ==> |r.value.1| < |t|
    decreases |t|, 3
  {
    var empty := Expect(t, CLOSE_BRACKET);
    if empty.Some? then Some((DArr([]), empty.value))
    else
      var (items, rest) :- ReadItems(t);
      Some((DArr(items), rest))
  }

  /** One or more items and the closing bracket. */
  function ReadItems(t: Text): (r: Option<(seq<Data>, Text)>)
    ensures r.Some? ==> |r.value.1| < |t|
    decreases |t|, 2
  {
    var (item, after) :- ReadValue(t);
    var end := Expect(after, CLOSE_BRACKET);
    if end.Some? then Some(([item], end.value))
    else
      var next :- Expect(after, COMMA);
      var (more, rest) :- ReadItems(next);
      Some(([item] + more, rest))
  }

  function ReadObject(t: Text): (r: Option<(Data, Text)>)
    ensures r.Some? ==> |r.value.1| < |t|
    decreases |t|, 3
  {
    var empty := Expect(t, CLOSE_BRACE);
    if empty.Some? then Some((DObj([]), empty.value))
    else
      var (members, rest) :- ReadMembers(t);
      Some((DObj(members), rest))
  }

  function ReadMember(t: Text): (r: Option<(Member, Text)>)
    ensures r.Some? ==> |r.value.1| < |t|
    decreases |t|, 1
  {
    var open :- Expect(t, QUOTE);
    var (key, afterKey) :- ReadChars(open);
    var afterColon :- Expect(afterKey, COLON);
    var (value, after) :- ReadValue(afterColon);
    Some((Member(key, value), after))
  }

  /** One or more members and the closing brace. */
  function ReadMembers(t: Text): (r: Option<(seq<Member>, Text)>)
    ensures r.Some? ==> |r.value.1| < |t|
    decreases |t|, 2
  {
    var (member, after) :- ReadMember(t);
    var end := Expect(after, CLOSE_BRACE);
    if end.Some? then Some(([member], end.value))
    else
      var next :- Expect(after, COMMA);
      var (more, rest) :- ReadMembers(next);
      Some(([member] + more, rest))
  }

  /** A whole JSON text: one value and nothing else but white space. */
  function Parse(t: Text): Option<Data> {
    var (data, rest) :- ReadValue(t);
    if Skip(rest) == [] then Some(data) else None
  }

  // ----- White space -----

  predicate AllSpace(t: Text) {
    forall i :: 0 <= i < |t| ==> IsSpace(t[i])
  }

  predicate Blank(indent: Option<Text>) {
    indent.Some? ==> AllSpace(indent.value)
  }

  lemma {:induction false} SkipsSpace(space: Text, t: Text)
    requires AllSpace(space)
    ensures Skip(space + t) == Skip(t)
  {
    if space == [] {
      assert space + t == t;
    } else {
      assert (space + t)[1..] == space[1..] + t;
      SkipsSpace(space[1..], t);
    }
  }

  /** The line break before a part, or before the closing bracket. */
  function Break(indent: Option<Text>): Text {
    if indent.None? then [] else [NEWLINE] + indent.value
  }

  lemma SkipsBreak(indent: Option<Text>, t: Text)
    requires Blank(indent)
    ensures Skip(Break(indent) + t) == Skip(t)
  {
    SkipsSpace(Break(indent), t);
  }

  lemma ExpectsAfterBreak(indent: Option<Text>, c: CodePoint, t: Text)
    requires Blank(indent) && !IsSpace(c)
    ensures Expect(Break(indent) + ([c] + t), c) == Some(t)
    ensures forall d :: d != c ==> Expect(Break(indent) + ([c] + t), d) == None
  {
    SkipsBreak(indent, [c] + t);
    assert Skip([c] + t) == [c] + t;
    assert ([c] + t)[1..] == t;
  }

  // ----- Both layouts as one: each part on its own line, comma between, close at the end -----

  /** The parts and the closing bracket, followed by `rest`. */
  function Body(parts: seq<Text>, close: CodePoint, indent: Option<Text>, rest: Text): Text {
    if parts == [] then Break(indent) + ([close] + rest)
    else if |parts| == 1 then Break(Deeper(indent)) + (parts[0] + (Break(indent) + ([close] + rest)))
    else Break(Deeper(indent)) + (parts[0] + ([COMMA] + Body(parts[1..], close, indent, rest)))
  }

  lemma {:induction false} CompactBody(parts: seq<Text>, close: CodePoint, rest: Text)
    requires parts != []
    ensures Join([COMMA], parts) + ([close] + rest) == Body(parts, close, None, rest)
  {
    if |parts| > 1 {
      CompactBody(parts[1..], close, rest);
      Regroup([], parts[0], [COMMA], Join([COMMA], parts[1..]));
      var tail := Join([COMMA], parts[1..]);
      assert parts[0] + [COMMA] + tail + ([close] + rest) == parts[0] + ([COMMA] + (tail + ([close] + rest)));
    }
    assert [] + (parts[0] + ([] + ([close] + rest))) == parts[0] + ([close] + rest);
  }

  lemma {:induction false} IndentedBody(parts: seq<Text>, close: CodePoint, outer: Text, rest: Text)
    requires parts != []
    ensures [NEWLINE] + (Join([COMMA, NEWLINE], Indented(outer + [SPACE, SPACE], parts))
                         + ([NEWLINE] + outer + ([close] + rest)))
         == Body(parts, close, Some(outer), rest)
  {
    var inner := outer + [SPACE, SPACE];
    var end := [NEWLINE] + outer + ([close] + rest);
    if |parts| == 1 {
      assert [NEWLINE] + ((inner + parts[0]) + end) == [NEWLINE] + inner + (parts[0] + end);
    } else {
      var tail := Join([COMMA, NEWLINE], Indented(inner, parts[1..]));
      IndentedBody(parts[1..], close, outer, rest);
      assert Indented(inner, parts)[1..] == Indented(inner, parts[1..]);
      IndentedStep(inner, parts[0], tail, end);
    }
  }

  lemma IndentedStep(inner: Text, part: Text, tail: Text, end: Text)
    ensures [NEWLINE] + ((inner + part) + [COMMA, NEWLINE] + tail + end)
         == [NEWLINE] + inner + (part + ([COMMA] + ([NEWLINE] + (tail + end))))
  {
    assert [COMMA, NEWLINE] == [COMMA] + [NEWLINE];
  }

  lemma EnclosesBody(open: CodePoint, parts: seq<Text>, close: CodePoint, indent: Option<Text>, rest: Text)
    requires parts != []
    ensures Enclose(open, parts, close, indent) + rest == [open] + Body(parts, close, indent, rest)
  {
    match indent
    case None =>
      CompactBody(parts, close, rest);
      assert [open] + Join([COMMA], parts) + [close] + rest == [open] + (Join([COMMA], parts) + ([close] + rest));
    case Some(outer) =>
      var joined := Join([COMMA, NEWLINE], Indented(outer + [SPACE, SPACE], parts));
      IndentedBody(parts, close, outer, rest);
      assert [open, NEWLINE] + joined + [NEWLINE] + outer + [close] + rest
          == [open] + ([NEWLINE] + (joined + ([NEWLINE] + outer + ([close] + rest))));
  }

  // ----- Reading what was printed -----

  /** `t` starts where a value may end. */
  predicate EndsValue(t: Text) {
    t == [] || IsSpace(t[0]) || t[0] == COMMA || t[0] == CLOSE_BRACKET || t[0] == CLOSE_BRACE
  }

  /** No rendered value starts with white space or a closing bracket. */
  lemma RenderStarts(data: Data, indent: Option<Text>)
    ensures var t := Render(data, indent);
            t != [] && !IsSpace(t[0]) && t[0] != CLOSE_BRACKET && t[0] != CLOSE_BRACE
  {
    match data
    case DNum(d) => PrintStarts(d);
    case _ =>
  }

  lemma ReadsNull(rest: Text)
    ensures ReadToken(NULL_TEXT + rest) == Some((DNull, rest))
  {
    var t := NULL_TEXT + rest;
    assert t[..4] == NULL_TEXT && t[4..] == rest;
  }

  lemma ReadsTrue(rest: Text)
    ensures ReadToken(TRUE_TEXT + rest) == Some((DBool(true), rest))
  {
    var t := TRUE_TEXT + rest;
    assert t[..4] == TRUE_TEXT && t[4..] == rest;
  }

  lemma ReadsFalse(rest: Text)
    ensures ReadToken(FALSE_TEXT + rest) == Some((DBool(false), rest))
  {
    var t := FALSE_TEXT + rest;
    assert t[..5] == FALSE_TEXT && t[5..] == rest;
  }

  lemma ReadsString(units: Units, rest: Text)
    ensures ReadToken(QuoteUnits(units) + rest) == Some((DStr(units), rest))
  {
    ReadsEscapedUnits(units, rest);
    OpensQuote(EscapedUnits(units), rest);
  }

  lemma {:induction false} ReadsRendered(data: Data, indent: Option<Text>, rest: Text)
    requires Blank(indent) && EndsValue(rest)
    ensures ReadToken(Render(data, indent) + rest) == Some((data, rest))
    decreases data, 2
  {
    match data
    case DNull => ReadsNull(rest);
    case DBool(b) =>
      if b {
        ReadsTrue(rest);
      } else {
        ReadsFalse(rest);
      }
    case DNum(d) => ReadsNumber(d, rest);
    case DStr(units) => ReadsString(units, rest);
    case DArr(items) => ReadsArray(data, indent, rest);
    case DObj(members) => ReadsObject(data, indent, rest);
  }

  lemma ReadsNumberToken(t: Text, d: NormalDecimal, rest: Text)
    requires t != [] && (IsDigit(t[0]) || t[0] == MINUS)
    requires ReadNumber(t) == Some((d, rest))
    ensures ReadToken(t) == Some((DNum(d), rest))
  {
    assert t[0] < 0x40 && t[0] != QUOTE;
  }

  lemma ReadsNumber(d: NormalDecimal, rest: Text)
    requires EndsValue(rest)
    ensures ReadToken(Print(d) + rest) == Some((DNum(d), rest))
  {
    PrintStarts(d);
    ReadsPrinted(d, rest);
    ReadsNumberToken(Print(d) + rest, d, rest);
  }

  lemma PrintStarts(d: Decimal)
    ensures Print(d) != [] && (IsDigit(Print(d)[0]) || Print(d)[0] == MINUS)
  {
    if d.digits != [] {
      LayoutStartsWithDigit(d.digits, d.point);
    }
  }

  /** A value printed on its own line is read from its first character. */
  lemma ReadsAfterBreak(indent: Option<Text>, part: Text, tail: Text)
    requires Blank(indent) && part != [] && !IsSpace(part[0])
    ensures Skip(Break(indent) + (part + tail)) == part + tail
  {
    SkipsBreak(indent, part + tail);
    assert (part + tail)[0] == part[0];
  }

  /** A body with a part does not start with the closing bracket. */
  lemma BodyIsNotEmpty(parts: seq<Text>, close: CodePoint, indent: Option<Text>, rest: Text)
    requires parts != [] && Blank(indent)
    requires parts[0] != [] && !IsSpace(parts[0][0]) && parts[0][0] != close
    ensures Expect(Body(parts, close, indent, rest), close) == None
  {
    var tail :=
      if |parts| == 1 then Break(indent) + ([close] + rest) else [COMMA] + Body(parts[1..], close, indent, rest);
    ReadsAfterBreak(Deeper(indent), parts[0], tail);
    assert (parts[0] + tail)[0] == parts[0][0];
  }

  /** Between two parts stands a comma and no closing bracket. */
  lemma ExpectsComma(t: Text, close: CodePoint)
    requires close != COMMA && !IsSpace(close)
    ensures Expect([COMMA] + t, close) == None && Expect([COMMA] + t, COMMA) == Some(t)
  {
    ExpectsAfterBreak(None, COMMA, t);
    assert Break(None) + ([COMMA] + t) == [COMMA] + t;
  }

  /** The tail of a sequence, taken apart. */
  lemma TailUnfolds<T>(s: seq<T>, k: nat)
    requires k < |s|
    ensures s[k..] == [s[k]] + s[k + 1..] && s[k..][0] == s[k] && s[k..][1..] == s[k + 1..]
    ensures k + 1 == |s| ==> s[k..] == [s[k]]
  {
  }

  lemma BodyUnfolds(parts: seq<Text>, close: CodePoint, indent: Option<Text>, rest: Text)
    requires |parts| > 1
    ensures Body(parts, close, indent, rest)
            == Break(Deeper(indent)) + (parts[0] + ([COMMA] + Body(parts[1..], close, indent, rest)))
  {
  }

  // ----- Arrays -----

  lemma ReadsLastItem(indent: Option<Text>, part: Text, item: Data, rest: Text)
    requires Blank(indent) && part != [] && !IsSpace(part[0])
    requires var end := Break(indent) + ([CLOSE_BRACKET] + rest); ReadToken(part + end) == Some((item, end))
    ensures ReadItems(Body([part], CLOSE_BRACKET, indent, rest)) == Some(([item], rest))
  {
    ReadsAfterBreak(Deeper(indent), part, Break(indent) + ([CLOSE_BRACKET] + rest));
    ExpectsAfterBreak(indent, CLOSE_BRACKET, rest);
  }

  lemma ReadsNextItem(indent: Option<Text>, part: Text, item: Data, next: Text, more: seq<Data>, rest: Text)
    requires Blank(indent) && part != [] && !IsSpace(part[0])
    requires ReadToken(part + ([COMMA] + next)) == Some((item, [COMMA] + next))
    requires ReadItems(next) == Some((more, rest))
    ensures ReadItems(Break(Deeper(indent)) + (part + ([COMMA] + next))) == Some(([item] + more, rest))
  {
    ReadsAfterBreak(Deeper(indent), part, [COMMA] + next);
    ExpectsComma(next, CLOSE_BRACKET);
  }

  lemma {:induction false} ReadsItems(data: Data, indent: Option<Text>, k: nat, rest: Text)
    requires data.DArr? && k < |data.items| && Blank(indent)
    ensures ReadItems(Body(RenderItems(data, indent)[k..], CLOSE_BRACKET, indent, rest))
         == Some((data.items[k..], rest))
    decreases data, 0, |data.items| - k
  {
    var parts, item := RenderItems(data, indent), data.items[k];
    RenderStarts(item, Deeper(indent));
    TailUnfolds(parts, k);
    TailUnfolds(data.items, k);
    if k + 1 == |data.items| {
      ReadsRendered(item, Deeper(indent), Break(indent) + ([CLOSE_BRACKET] + rest));
      ReadsLastItem(indent, parts[k], item, rest);
    } else {
      var next := Body(parts[k + 1..], CLOSE_BRACKET, indent, rest);
      ReadsRendered(item, Deeper(indent), [COMMA] + next);
      ReadsItems(data, indent, k + 1, rest);
      ReadsNextItem(indent, parts[k], item, next, data.items[k + 1..], rest);
      BodyUnfolds(parts[k..], CLOSE_BRACKET, indent, rest);
    }
  }

  lemma ReadsEmptyArray(rest: Text)
    ensures ReadToken([OPEN_BRACKET, CLOSE_BRACKET] + rest) == Some((DArr([]), rest))
  {
    var t := [OPEN_BRACKET, CLOSE_BRACKET] + rest;
    assert t[1..] == Break(None) + ([CLOSE_BRACKET] + rest);
    ExpectsAfterBreak(None, CLOSE_BRACKET, rest);
  }

  lemma ReadsArrayToken(body: Text, items: seq<Data>, rest: Text)
    requires Expect(body, CLOSE_BRACKET) == None && ReadItems(body) == Some((items, rest))
    ensures ReadToken([OPEN_BRACKET] + body) == Some((DArr(items), rest))
  {
    assert ([OPEN_BRACKET] + body)[1..] == body;
  }

  lemma {:induction false} ReadsArray(data: Data, indent: Option<Text>, rest: Text)
    requires data.DArr? && Blank(indent)
    ensures ReadToken(Render(data, indent) + rest) == Some((data, rest))
    decreases data, 1
  {
    if data.items == [] {
      ReadsEmptyArray(rest);
    } else {
      var parts := RenderItems(data, indent);
      RenderStarts(data.items[0], Deeper(indent));
      BodyIsNotEmpty(parts, CLOSE_BRACKET, indent, rest);
      ReadsItems(data, indent, 0, rest);
      assert parts[0..] == parts;
      ReadsArrayToken(Body(parts, CLOSE_BRACKET, indent, rest), data.items, rest);
      EnclosesBody(OPEN_BRACKET, parts, CLOSE_BRACKET, indent, rest);
    }
  }

  // ----- Objects -----

  lemma ReadsMemberParts(t: Text, key: Units, afterKey: Text, afterColon: Text, value: Data, after: Text)
    requires Expect(t, QUOTE).Some? && ReadChars(Expect(t, QUOTE).value) == Some((key, afterKey))
    requires Expect(afterKey, COLON) == Some(afterColon) && ReadValue(afterColon) == Some((value, after))
    ensures ReadMember(t) == Some((Member(key, value), after))
  {
  }

  lemma ExpectsFirst(t: Text, c: CodePoint, s: Text)
    requires Skip(t) == s && s != [] && s[0] == c
    ensures Expect(t, c) == Some(s[1..])
  {
  }

  lemma ReadsKey(indent: Option<Text>, key: Units, afterKey: Text)
    requires Blank(indent)
    ensures var t := Expect(Break(indent) + (QuoteUnits(key) + afterKey), QUOTE);
            t.Some? && ReadChars(t.value) == Some((key, afterKey))
  {
    ReadsAfterBreak(indent, QuoteUnits(key), afterKey);
    OpensQuote(EscapedUnits(key), afterKey);
    ExpectsFirst(Break(indent) + (QuoteUnits(key) + afterKey), QUOTE, QuoteUnits(key) + afterKey);
    ReadsEscapedUnits(key, afterKey);
  }

  lemma ReadsColon(indent: Option<Text>, value: Text, tail: Text)
    requires value != [] && !IsSpace(value[0])
    ensures var afterColon := Expect((if indent.None? then [COLON] else [COLON, SPACE]) + value + tail, COLON);
            afterColon.Some? && Skip(afterColon.value) == value + tail
  {
    var separator := if indent.None? then [COLON] else [COLON, SPACE];
    assert (separator + value + tail)[1..] == separator[1..] + (value + tail);
    SkipsSpace(separator[1..], value + tail);
    assert (value + tail)[0] == value[0];
  }

  lemma MemberTextSplits(indent: Option<Text>, key: Text, text: Text, tail: Text)
    ensures MemberText(key, text, indent) + tail
         == key + ((if indent.None? then [COLON] else [COLON, SPACE]) + text + tail)
  {
  }

  lemma ReadsMemberText(indent: Option<Text>, key: Units, text: Text, value: Data, tail: Text)
    requires Blank(indent) && text != [] && !IsSpace(text[0])
    requires ReadToken(text + tail) == Some((value, tail))
    ensures ReadMember(Break(Deeper(indent)) + (MemberText(QuoteUnits(key), text, indent) + tail))
         == Some((Member(key, value), tail))
  {
    var afterKey := (if indent.None? then [COLON] else [COLON, SPACE]) + text + tail;
    ReadsKey(Deeper(indent), key, afterKey);
    ReadsColon(indent, text, tail);
    ReadsMemberParts(Break(Deeper(indent)) + (QuoteUnits(key) + afterKey), key, afterKey,
                     Expect(afterKey, COLON).value, value, tail);
    MemberTextSplits(indent, QuoteUnits(key), text, tail);
  }

  lemma ReadsLastMember(indent: Option<Text>, part: Text, member: Member, rest: Text)
    requires Blank(indent)
    requires var end := Break(indent) + ([CLOSE_BRACE] + rest);
             ReadMember(Break(Deeper(indent)) + (part + end)) == Some((member, end))
    ensures ReadMembers(Body([part], CLOSE_BRACE, indent, rest)) == Some(([member], rest))
  {
    ExpectsAfterBreak(indent, CLOSE_BRACE, rest);
  }

  lemma ReadsNextMember(indent: Option<Text>, part: Text, member: Member, next: Text, more: seq<Member>, rest: Text)
    requires ReadMember(Break(Deeper(indent)) + (part + ([COMMA] + next))) == Some((member, [COMMA] + next))
    requires ReadMembers(next) == Some((more, rest))
    ensures ReadMembers(Break(Deeper(indent)) + (part + ([COMMA] + next))) == Some(([member] + more, rest))
  {
    ExpectsComma(next, CLOSE_BRACE);
  }

  lemma ReadsOneMember(indent: Option<Text>, member: Member, text: Text, rest: Text)
    requires Blank(indent) && text != [] && !IsSpace(text[0])
    requires var end := Break(indent) + ([CLOSE_BRACE] + rest); ReadToken(text + end) == Some((member.value, end))
    ensures ReadMembers(Body([MemberText(QuoteUnits(member.key), text, indent)], CLOSE_BRACE, indent, rest))
            == Some(([member], rest))
  {
    ReadsMemberText(indent, member.key, text, member.value, Break(indent) + ([CLOSE_BRACE] + rest));
    ReadsLastMember(indent, MemberText(QuoteUnits(member.key), text, indent), member, rest);
  }

  lemma ReadsMemberThen(indent: Option<Text>, member: Member, text: Text, next: Text, more: seq<Member>, rest: Text)
    requires Blank(indent) && text != [] && !IsSpace(text[0])
    requires ReadToken(text + ([COMMA] + next)) == Some((member.value, [COMMA] + next))
    requires ReadMembers(next) == Some((more, rest))
    ensures ReadMembers(Break(Deeper(indent)) + (MemberText(QuoteUnits(member.key), text, indent) + ([COMMA] + next)))
            == Some(([member] + more, rest))
  {
    ReadsMemberText(indent, member.key, text, member.value, [COMMA] + next);
    ReadsNextMember(indent, MemberText(QuoteUnits(member.key), text, indent), member, next, more, rest);
  }

  lemma {:induction false} ReadsMembers(data: Data, indent: Option<Text>, k: nat, rest: Text)
    requires data.DObj? && k < |data.members| && Blank(indent)
    ensures ReadMembers(Body(RenderMembers(data, indent)[k..], CLOSE_BRACE, indent, rest))
         == Some((data.members[k..], rest))
    decreases data, 0, |data.members| - k
  {
    var parts, member := RenderMembers(data, indent), data.members[k];
    var text := Render(member.value, Deeper(indent));
    RenderStarts(member.value, Deeper(indent));
    TailUnfolds(parts, k);
    TailUnfolds(data.members, k);
    if k + 1 == |data.members| {
      ReadsRendered(member.value, Deeper(indent), Break(indent) + ([CLOSE_BRACE] + rest));
      ReadsOneMember(indent, member, text, rest);
    } else {
      var next := Body(parts[k + 1..], CLOSE_BRACE, indent, rest);
      ReadsRendered(member.value, Deeper(indent), [COMMA] + next);
      ReadsMembers(data, indent, k + 1, rest);
      ReadsMemberThen(indent, member, text, next, data.members[k + 1..], rest);
      BodyUnfolds(parts[k..], CLOSE_BRACE, indent, rest);
    }
  }

  lemma ReadsEmptyObject(rest: Text)
    ensures ReadToken([OPEN_BRACE, CLOSE_BRACE] + rest) == Some((DObj([]), rest))
  {
    var t := [OPEN_BRACE, CLOSE_BRACE] + rest;
    assert t[1..] == Break(None) + ([CLOSE_BRACE] + rest);
    ExpectsAfterBreak(None, CLOSE_BRACE, rest);
  }

  lemma ReadsObjectToken(body: Text, members: seq<Member>, rest: Text)
    requires Expect(body, CLOSE_BRACE) == None && ReadMembers(body) == Some((members, rest))
    ensures ReadToken([OPEN_BRACE] + body) == Some((DObj(members), rest))
  {
    assert ([OPEN_BRACE] + body)[1..] == body;
  }

  lemma {:induction false} ReadsObject(data: Data, indent: Option<Text>, rest: Text)
    requires data.DObj? && Blank(indent)
    ensures ReadToken(Render(data, indent) + rest) == Some((data, rest))
    decreases data, 1
  {
    if data.members == [] {
      ReadsEmptyObject(rest);
    } else {
      var parts := RenderMembers(data, indent);
      assert parts[0][0] == QUOTE;
      BodyIsNotEmpty(parts, CLOSE_BRACE, indent, rest);
      ReadsMembers(data, indent, 0, rest);
      assert parts[0..] == parts;
      ReadsObjectToken(Body(parts, CLOSE_BRACE, indent, rest), data.members, rest);
      EnclosesBody(OPEN_BRACE, parts, CLOSE_BRACE, indent, rest);
    }
  }

  // ----- Main results -----

  /** Reading what was printed gives the value's normal form, on one line or indented. */
  lemma StringifyReadsBack(value: Json, indent: Option<Text>)
    requires Blank(indent)
    ensures Parse(Stringify(value, indent)) == Some(Normal(value))
  {
    var data := Normal(value);
    Serialize.PrintsNormalForm(value, indent);
    ReadsRendered(data, indent, []);
    RenderStarts(data, indent);
    assert Render(data, indent) + [] == Render(data, indent);
  }

  /** Two values print alike exactly when they have the same normal form. */
  lemma PrintsAlikeIffSameNormalForm(a: Json, b: Json, indent: Option<Text>)
    requires Blank(indent)
    ensures Stringify(a, indent) == Stringify(b, indent) <==> Normal(a) == Normal(b)
  {
    Serialize.PrintsNormalForm(a, indent);
    Serialize.PrintsNormalForm(b, indent);
    StringifyReadsBack(a, indent);
    StringifyReadsBack(b, indent);
  }
}
