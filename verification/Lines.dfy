/** Text split at a separator, and its inverse. */
module Lines {

  predicate OneLine(s: string) {
    forall i :: 0 <= i < |s| ==> s[i] != '\n'
  }

  predicate StartsWith(s: string, prefix: string) {
    |prefix| <= |s| && s[..|prefix|] == prefix
  }

  /** `text.split(separator)`. */
  function SplitOn(text: string, separator: string): (parts: seq<string>)
    requires separator != ""
    ensures parts != []
    decreases |text|
  {
    if StartsWith(text, separator) then [""] + SplitOn(text[|separator|..], separator)
    else if text == "" then [""]
    else PrependChar(text[0], SplitOn(text[1..], separator))
  }

  function PrependChar(c: char, parts: seq<string>): seq<string>
    requires parts != []
  {
    [[c] + parts[0]] + parts[1..]
  }

  /** `separator.join(parts)`. */
  function Rejoin(parts: seq<string>, separator: string): string
    requires parts != []
  {
    if |parts| == 1 then parts[0] else parts[0] + separator + Rejoin(parts[1..], separator)
  }

  lemma RejoinsPrepended(c: char, parts: seq<string>, separator: string)
    requires parts != []
    ensures Rejoin(PrependChar(c, parts), separator) == [c] + Rejoin(parts, separator)
  {
    assert PrependChar(c, parts)[1..] == parts[1..];
    if |parts| > 1 {
      var tail := Rejoin(parts[1..], separator);
      assert [c] + parts[0] + separator + tail == [c] + (parts[0] + separator + tail);
    }
  }

  /** Joining undoes splitting. */
  lemma {:induction false} RejoinsSplit(text: string, separator: string)
    requires separator != ""
    ensures Rejoin(SplitOn(text, separator), separator) == text
    decreases |text|
  {
    if StartsWith(text, separator) {
      var rest := SplitOn(text[|separator|..], separator);
      RejoinsSplit(text[|separator|..], separator);
      assert ([""] + rest)[1..] == rest;
      assert "" + separator + text[|separator|..] == text;
    } else if text != "" {
      RejoinsSplit(text[1..], separator);
      RejoinsPrepended(text[0], SplitOn(text[1..], separator), separator);
      assert text == [text[0]] + text[1..];
    }
  }

  lemma {:induction false} SplitsPart(part: string, rest: string, c: char)
    requires c !in part
    ensures SplitOn(part + [c] + rest, [c]) == [part] + SplitOn(rest, [c])
    ensures SplitOn(part, [c]) == [part]
    decreases |part|
  {
    if part == "" {
      assert (part + [c] + rest)[..1] == [c] && (part + [c] + rest)[1..] == rest;
    } else {
      var all := part + [c] + rest;
      assert all[1..] == part[1..] + [c] + rest && all[0] == part[0] && part[0] != c;
      assert all[..1] == [part[0]] == part[..1];
      SplitsPart(part[1..], rest, c);
      assert part == [part[0]] + part[1..];
    }
  }

  /** Splitting undoes joining when no part holds the separator. */
  lemma {:induction false} SplitsJoined(parts: seq<string>, c: char)
    requires parts != [] && forall p :: p in parts ==> c !in p
    ensures SplitOn(Rejoin(parts, [c]), [c]) == parts
  {
    if |parts| == 1 {
      SplitsPart(parts[0], "", c);
    } else {
      SplitsJoined(parts[1..], c);
      SplitsPart(parts[0], Rejoin(parts[1..], [c]), c);
      assert parts == [parts[0]] + parts[1..];
    }
  }

  predicate Contains(text: string, pattern: string) {
    StartsWith(text, pattern) || (text != "" && Contains(text[1..], pattern))
  }
}
