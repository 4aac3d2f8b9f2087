/** Whether a patch was trimmed by hand: the hunk-count machine, and exactly which documents it accepts. */
module Responses {
  import opened Decimals
  import opened DecimalText
  import opened Lines
  import opened Wrappers

  // ----- Hunk headers -----

  /** `\d+(?:,(\d+))?`: the count, 1 when it is not written, and what follows. */
  function ReadRange(s: string): Option<(nat, string)> {
    var (start, rest) := ReadDigits(s);
    if start == [] then None
    else if rest != [] && rest[0] == ',' then
      var (count, after) := ReadDigits(rest[1..]);
      if count == [] then None else Some((ToNat(count), after))
    else Some((1, rest))
  }

  function Expect(s: string, prefix: string): Option<string> {
    if StartsWith(s, prefix) then Some(s[|prefix|..]) else None
  }

  /** The old and new line counts of `@@ -a,b +c,d @@`. */
  function HunkCounts(line: string): Option<(nat, nat)> {
    var oldRange :- Expect(line, "@@ -");
    var (oldCount, afterOld) :- ReadRange(oldRange);
    var newRange :- Expect(afterOld, " +");
    var (newCount, afterNew) :- ReadRange(newRange);
    var _ :- Expect(afterNew, " @@");
    Some((oldCount, newCount))
  }

  // ----- The machine -----

  function StripCr(line: string): string {
    if line != "" && line[|line| - 1] == '\r' then line[..|line| - 1] else line
  }

  /** What one line inside a hunk takes from the old and the new count; None for a line that cannot stand there. */
  function Taken(line: string): Option<(nat, nat)> {
    if line == "" || line[0] == ' ' then Some((1, 1))
    else if line[0] == '\\' then Some((0, 0))
    else if line[0] == '-' then Some((1, 0))
    else if line[0] == '+' then Some((0, 1))
    else None
  }

  predicate IsOverrun(line: string) {
    StartsWith(line, "+") && !StartsWith(line, "+++ ")
  }

  /** The old and new lines the current hunk still announces, and whether a header was seen. */
  datatype Count = Count(before: nat, after: nat, seen: bool) {
    predicate Outside() {
      before == 0 && after == 0
    }
  }

  function StepOutside(line: string, seen: bool): Option<Count> {
    if StartsWith(line, "@@ ") then
      var (before, after) :- HunkCounts(line);
      Some(Count(before, after, true))
    else if seen && IsOverrun(line) then None
    else Some(Count(0, 0, seen))
  }

  function StepInside(line: string, c: Count): Option<Count> {
    var (before, after) :- Taken(line);
    if before > c.before || after > c.after then None else Some(Count(c.before - before, c.after - after, c.seen))
  }

  /** One line; None when it shows that the patch was trimmed. */
  function Step(c: Count, raw: string): Option<Count> {
    if c.Outside() then StepOutside(StripCr(raw), c.seen) else StepInside(StripCr(raw), c)
  }

  /** Whether the lines from here on show, or leave it, that the patch was trimmed. */
  function Scan(lines: seq<string>, c: Count): bool
    decreases |lines|
  {
    if lines == [] then !c.Outside()
    else
      var next := Step(c, lines[0]);
      next.None? || Scan(lines[1..], next.value)
  }

  const START := Count(0, 0, false)

  /** The branches of the loop body on one line inside a hunk. */
  method CountLine(line: string, c: Count) returns (r: Option<Count>)
    ensures r == StepInside(line, c)
  {
    var before: int, after: int := c.before, c.after;
    if line != "" && line[0] == '\\' {
      return Some(c);
    }
    if line == "" || line[0] == ' ' {
      before, after := before - 1, after - 1;
    } else if line[0] == '-' {
      before := before - 1;
    } else if line[0] == '+' {
      after := after - 1;
    } else {
      return None;
    }
    if before < 0 || after < 0 {
      return None;
    }
    r := Some(Count(before, after, c.seen));
  }

  /** `_trimmed`. */
  method Trimmed(patch: string) returns (trimmed: bool)
    ensures trimmed == Scan(SplitOn(patch, "\n"), START)
  {
    var c := START;
    var lines := SplitOn(patch, "\n");
    for i := 0 to |lines|
      invariant Scan(lines[i..], c) == Scan(lines, START)
    {
      var line := StripCr(lines[i]);
      assert lines[i..][1..] == lines[i + 1..];
      if c.before == 0 && c.after == 0 {
        if StartsWith(line, "@@ ") {
          var counts := HunkCounts(line);
          if counts.None? {
            return true;
          }
          c := Count(counts.value.0, counts.value.1, true);
        } else if c.seen && IsOverrun(line) {
          return true;
        }
        continue;
      }
      var next := CountLine(line, c);
      if next.None? {
        return true;
      }
      c := next.value;
    }
    trimmed := c.before != 0 || c.after != 0;
  }

  // ----- Documents in git's style -----

  /** Lines about a file, or one hunk: its header line and the lines under it. */
  datatype Part = Preamble(lines: seq<string>) | Hunk(header: string, body: seq<string>)

  /** A line that says nothing to the machine outside a hunk. */
  predicate Quiet(line: string) {
    !StartsWith(StripCr(line), "@@ ") && !IsOverrun(StripCr(line))
  }

  /** A line no hunk body can hold: what ends a hunk early. */
  predicate Foreign(line: string) {
    Taken(StripCr(line)).None?
  }

  predicate NoneForeign(body: seq<string>) {
    body == [] || (!Foreign(body[0]) && NoneForeign(body[1..]))
  }

  function OldLines(body: seq<string>): nat {
    if body == [] then 0
    else (var t := Taken(StripCr(body[0])); if t.None? then 0 else t.value.0) + OldLines(body[1..])
  }

  function NewLines(body: seq<string>): nat {
    if body == [] then 0
    else (var t := Taken(StripCr(body[0])); if t.None? then 0 else t.value.1) + NewLines(body[1..])
  }

  /** A preamble starts with a line like `diff --git`; a hunk has a readable header and keeps no more lines than it
      announces. */
  predicate GitStyle(part: Part) {
    match part
    case Preamble(lines) => lines != [] && Foreign(lines[0]) && forall l :: l in lines ==> Quiet(l)
    case Hunk(header, body) =>
      && StartsWith(StripCr(header), "@@ ")
      && HunkCounts(StripCr(header)).Some?
      && NoneForeign(body)
      && OldLines(body) <= HunkCounts(StripCr(header)).value.0
      && NewLines(body) <= HunkCounts(StripCr(header)).value.1
  }

  /** How many old and new lines the header announces that the body does not have. */
  function Residual(part: Part): (nat, nat)
    requires part.Hunk? && GitStyle(part)
  {
    var counts := HunkCounts(StripCr(part.header)).value;
    (counts.0 - OldLines(part.body), counts.1 - NewLines(part.body))
  }

  function PartLines(part: Part): seq<string> {
    match part
    case Preamble(lines) => lines
    case Hunk(header, body) => [header] + body
  }

  function DocumentLines(parts: seq<Part>): seq<string> {
    if parts == [] then [] else PartLines(parts[0]) + DocumentLines(parts[1..])
  }

  /** Every hunk has all its lines, except that the last part of newline-terminated text may miss one old and one
      new line: the empty string after the last newline counts as a context line. */
  predicate Complete(parts: seq<Part>, terminated: bool)
    requires forall p :: p in parts ==> GitStyle(p)
  {
    forall i :: 0 <= i < |parts| && parts[i].Hunk? ==>
      Residual(parts[i]) == (0, 0) || (terminated && i == |parts| - 1 && Residual(parts[i]) == (1, 1))
  }

  lemma QuietStep(line: string, seen: bool)
    requires Quiet(line)
    ensures Step(Count(0, 0, seen), line) == Some(Count(0, 0, seen))
  {
  }

  lemma {:induction false} ScansQuiet(lines: seq<string>, rest: seq<string>, seen: bool)
    requires forall l :: l in lines ==> Quiet(l)
    ensures Scan(lines + rest, Count(0, 0, seen)) == Scan(rest, Count(0, 0, seen))
  {
    if lines == [] {
      assert lines + rest == rest;
    } else {
      assert (lines + rest)[1..] == lines[1..] + rest && (lines + rest)[0] == lines[0];
      QuietStep(lines[0], seen);
      ScansQuiet(lines[1..], rest, seen);
    }
  }

  /** Only a "\\" line takes nothing, and outside a hunk it says nothing. */
  lemma BodyStep(line: string, c: Count)
    requires !Foreign(line)
    requires var taken := Taken(StripCr(line)).value; taken.0 <= c.before && taken.1 <= c.after && c.seen
    ensures var taken := Taken(StripCr(line)).value;
            Step(c, line) == Some(Count(c.before - taken.0, c.after - taken.1, true))
  {
    if c.Outside() {
      assert StripCr(line)[0] == '\\';
      QuietStep(line, true);
    }
  }

  lemma ScansFirst(line: string, rest: seq<string>, c: Count, next: Count)
    requires Step(c, line) == Some(next)
    ensures Scan([line] + rest, c) == Scan(rest, next)
  {
    assert ([line] + rest)[1..] == rest;
  }

  lemma CountsUnfold(body: seq<string>)
    requires body != [] && !Foreign(body[0])
    ensures var taken := Taken(StripCr(body[0])).value;
            OldLines(body) == taken.0 + OldLines(body[1..]) && NewLines(body) == taken.1 + NewLines(body[1..])
  {
  }

  lemma HeadApart<T>(s: seq<T>, rest: seq<T>)
    requires s != []
    ensures s + rest == [s[0]] + (s[1..] + rest)
  {
  }

  lemma {:induction false} ScansBody(body: seq<string>, rest: seq<string>, c: Count)
    requires NoneForeign(body)
    requires OldLines(body) <= c.before && NewLines(body) <= c.after && c.seen
    ensures Scan(body + rest, c) == Scan(rest, Count(c.before - OldLines(body), c.after - NewLines(body), true))
    decreases |body|
  {
    if body == [] {
      assert body + rest == rest;
    } else {
      var taken := Taken(StripCr(body[0])).value;
      var next := Count(c.before - taken.0, c.after - taken.1, true);
      CountsUnfold(body);
      BodyStep(body[0], c);
      ScansBody(body[1..], rest, next);
      ScansOneMore(body, rest, c, next);
    }
  }

  lemma ScansOneMore(body: seq<string>, rest: seq<string>, c: Count, next: Count)
    requires body != [] && Step(c, body[0]) == Some(next)
    ensures Scan(body + rest, c) == Scan(body[1..] + rest, next)
  {
    ScansFirst(body[0], body[1..] + rest, c, next);
    HeadApart(body, rest);
  }

  /** What may follow a part: nothing, the empty last line, or a part, which starts with a foreign line. */
  lemma EndsHunk(rest: seq<string>, c: Count)
    requires !c.Outside()
    requires rest == [] || rest == [""] || Foreign(rest[0])
    ensures Scan(rest, c) <==> !(rest == [""] && c.before == 1 && c.after == 1)
  {
    if rest == [""] {
      assert StripCr("") == "";
      assert rest[1..] == [];
    }
  }

  lemma PartStartsForeign(part: Part, rest: seq<string>)
    requires GitStyle(part)
    ensures Foreign((PartLines(part) + rest)[0])
  {
    if part.Hunk? {
      assert StripCr(part.header)[0] == '@';
    }
  }

  function Ending(terminated: bool): seq<string> {
    if terminated then [""] else []
  }

  lemma HeaderStep(header: string, seen: bool)
    requires StartsWith(StripCr(header), "@@ ") && HunkCounts(StripCr(header)).Some?
    ensures var counts := HunkCounts(StripCr(header)).value;
            Step(Count(0, 0, seen), header) == Some(Count(counts.0, counts.1, true))
  {
  }

  lemma ScansAnnounced(body: seq<string>, tail: seq<string>, c: Count)
    requires NoneForeign(body)
    requires OldLines(body) <= c.before && NewLines(body) <= c.after && c.seen
    requires tail == [] || tail == [""] || Foreign(tail[0])
    ensures var left := Count(c.before - OldLines(body), c.after - NewLines(body), true);
            Scan(body + tail, c) <==>
              if left.Outside() then Scan(tail, left) else !(tail == [""] && left.before == 1 && left.after == 1)
  {
    var left := Count(c.before - OldLines(body), c.after - NewLines(body), true);
    ScansBody(body, tail, c);
    if !left.Outside() {
      EndsHunk(tail, left);
    }
  }

  function Announced(part: Part): Count
    requires part.Hunk? && GitStyle(part)
  {
    var counts := HunkCounts(StripCr(part.header)).value;
    Count(counts.0, counts.1, true)
  }

  lemma ScansHeader(part: Part, tail: seq<string>, seen: bool)
    requires part.Hunk? && GitStyle(part)
    ensures Scan(PartLines(part) + tail, Count(0, 0, seen)) == Scan(part.body + tail, Announced(part))
  {
    HeaderStep(part.header, seen);
    ScansFirst(part.header, part.body + tail, Count(0, 0, seen), Announced(part));
    HunkLines(part, tail);
  }

  lemma ScansHunkBody(part: Part, tail: seq<string>)
    requires part.Hunk? && GitStyle(part)
    requires tail == [] || tail == [""] || Foreign(tail[0])
    ensures Scan(part.body + tail, Announced(part)) <==>
              if Residual(part) == (0, 0) then Scan(tail, Count(0, 0, true))
              else !(tail == [""] && Residual(part) == (1, 1))
  {
    AnnouncedLeft(part);
    ScansAnnounced(part.body, tail, Announced(part));
  }

  lemma AnnouncedLeft(part: Part)
    requires part.Hunk? && GitStyle(part)
    ensures var c, left := Announced(part), Residual(part);
            && c.seen && NoneForeign(part.body) && OldLines(part.body) <= c.before && NewLines(part.body) <= c.after
            && Count(c.before - OldLines(part.body), c.after - NewLines(part.body), true)
               == Count(left.0, left.1, true)
  {
  }

  /** One hunk and what follows it: complete and then the rest decides, or cut short. */
  lemma ScansHunk(part: Part, tail: seq<string>, seen: bool)
    requires part.Hunk? && GitStyle(part)
    requires tail == [] || tail == [""] || Foreign(tail[0])
    ensures Scan(PartLines(part) + tail, Count(0, 0, seen)) <==>
              if Residual(part) == (0, 0) then Scan(tail, Count(0, 0, true))
              else !(tail == [""] && Residual(part) == (1, 1))
  {
    ScansHeader(part, tail, seen);
    ScansHunkBody(part, tail);
  }

  lemma HunkLines(part: Part, tail: seq<string>)
    requires part.Hunk?
    ensures PartLines(part) + tail == [part.header] + (part.body + tail)
  {
  }

  lemma TailStartsForeign(parts: seq<Part>, terminated: bool)
    requires forall p :: p in parts ==> GitStyle(p)
    ensures var tail := DocumentLines(parts) + Ending(terminated);
            if parts == [] then tail == Ending(terminated) else tail != [] && Foreign(tail[0]) && tail != [""]
  {
    assert Taken(StripCr("")).Some? by {
      assert StripCr("") == "";
    }
    if parts != [] {
      assert parts[0] in parts;
      var rest := DocumentLines(parts[1..]) + Ending(terminated);
      PartStartsForeign(parts[0], rest);
      assert DocumentLines(parts) + Ending(terminated) == PartLines(parts[0]) + rest;
    }
  }

  lemma {:induction false} ScansDocument(parts: seq<Part>, terminated: bool, seen: bool)
    requires forall p :: p in parts ==> GitStyle(p)
    ensures Scan(DocumentLines(parts) + Ending(terminated), Count(0, 0, seen)) <==> !Complete(parts, terminated)
    decreases |parts|
  {
    if parts == [] {
      EmptyTail(terminated, seen);
    } else {
      var part := parts[0];
      var tail := DocumentLines(parts[1..]) + Ending(terminated);
      assert DocumentLines(parts) + Ending(terminated) == PartLines(part) + tail;
      assert part in parts;
      CompleteTail(parts, terminated);
      if part.Preamble? {
        ScansQuiet(part.lines, tail, seen);
        ScansDocument(parts[1..], terminated, seen);
      } else {
        TailStartsForeign(parts[1..], terminated);
        ScansHunk(part, tail, seen);
        ScansDocument(parts[1..], terminated, true);
      }
    }
  }

  lemma EmptyTail(terminated: bool, seen: bool)
    ensures !Scan(DocumentLines([]) + Ending(terminated), Count(0, 0, seen))
  {
    assert StripCr("") == "";
    if terminated {
      assert DocumentLines([]) + Ending(terminated) == [""];
      QuietStep("", seen);
      assert [""][1..] == [];
    }
  }

  lemma CompleteTail(parts: seq<Part>, terminated: bool)
    requires parts != [] && forall p :: p in parts ==> GitStyle(p)
    ensures forall p :: p in parts[1..] ==> GitStyle(p)
    ensures Complete(parts, terminated) <==>
              && Complete(parts[1..], terminated)
              && (parts[0].Hunk? ==> Residual(parts[0]) == (0, 0)
                                     || (terminated && |parts| == 1 && Residual(parts[0]) == (1, 1)))
  {
    var tail := parts[1..];
    assert forall i :: 0 <= i < |tail| ==> tail[i] == parts[i + 1];
    if Complete(parts, terminated) {
      forall i | 0 <= i < |tail| && tail[i].Hunk?
        ensures Residual(tail[i]) == (0, 0) || (terminated && i == |tail| - 1 && Residual(tail[i]) == (1, 1))
      {
        assert tail[i] == parts[i + 1];
      }
    }
    if Complete(tail, terminated) {
      forall i | 0 < i < |parts| && parts[i].Hunk?
        ensures Residual(parts[i]) == (0, 0) || (terminated && i == |parts| - 1 && Residual(parts[i]) == (1, 1))
      {
        assert parts[i] == tail[i - 1];
      }
    }
  }

  /** On any document in git's style, with body lines dropped anywhere, the machine answers "trimmed" exactly when
      a hunk misses lines, but for the one residual the last newline hides. */
  lemma TrimmedIffIncomplete(parts: seq<Part>, terminated: bool)
    requires parts != [] && forall p :: p in parts ==> GitStyle(p)
    requires forall l :: l in DocumentLines(parts) ==> OneLine(l)
    ensures DocumentLines(parts) != []
    ensures var text := Rejoin(DocumentLines(parts) + Ending(terminated), "\n");
            Scan(SplitOn(text, "\n"), START) <==> !Complete(parts, terminated)
  {
    PartStartsForeign(parts[0], DocumentLines(parts[1..]));
    SplitsJoined(DocumentLines(parts) + Ending(terminated), '\n');
    ScansDocument(parts, terminated, false);
  }

  // ----- Headers git writes -----

  /** A range as git prints it: the count is left out only when it is 1. */
  function RangeText(start: nat, count: nat, short: bool): string {
    StringOf(start) + if short then "" else "," + StringOf(count)
  }

  lemma ReadsRange(start: nat, count: nat, short: bool, rest: string)
    requires rest != "" && rest[0] == ' ' && (short ==> count == 1)
    ensures ReadRange(RangeText(start, count, short) + rest) == Some((count, rest))
  {
    if short {
      assert RangeText(start, count, short) + rest == StringOf(start) + rest;
      ReadsNumber(start, rest);
    } else {
      var tail := [','] + (StringOf(count) + rest);
      assert RangeText(start, count, short) + rest == StringOf(start) + tail;
      ReadsNumber(start, tail);
      assert tail[1..] == StringOf(count) + rest;
      ReadsNumber(count, rest);
    }
  }

  lemma ReadsNumber(n: nat, rest: string)
    requires rest == "" || !IsDigit(rest[0])
    ensures var r := ReadDigits(StringOf(n) + rest); r.0 != [] && ToNat(r.0) == n && r.1 == rest
  {
    OfNatRoundTrip(n);
    ReadsDigits(OfNat(n), rest);
  }

  lemma ExpectsPrefix(prefix: string, rest: string)
    ensures Expect(prefix + rest, prefix) == Some(rest)
  {
    assert (prefix + rest)[..|prefix|] == prefix && (prefix + rest)[|prefix|..] == rest;
  }

  lemma ReadsCounts(line: string, oldRange: string, before: nat, afterOld: string, newRange: string, after: nat,
                    afterNew: string)
    requires Expect(line, "@@ -") == Some(oldRange) && ReadRange(oldRange) == Some((before, afterOld))
    requires Expect(afterOld, " +") == Some(newRange) && ReadRange(newRange) == Some((after, afterNew))
    requires Expect(afterNew, " @@").Some?
    ensures HunkCounts(line) == Some((before, after))
  {
  }

  /** The scanner reads the counts of every header git writes, whatever the section text after it. */
  lemma ReadsGitHeader(
    oldStart: nat, oldCount: nat, oldShort: bool, newStart: nat, newCount: nat, newShort: bool, section: string
  )
    requires (oldShort ==> oldCount == 1) && (newShort ==> newCount == 1)
    ensures HunkCounts("@@ -" + (RangeText(oldStart, oldCount, oldShort)
                                 + (" +" + (RangeText(newStart, newCount, newShort) + (" @@" + section)))))
         == Some((oldCount, newCount))
  {
    var oldText, newText := RangeText(oldStart, oldCount, oldShort), RangeText(newStart, newCount, newShort);
    var afterNew := " @@" + section;
    var afterOld := " +" + (newText + afterNew);
    ExpectsPrefix("@@ -", oldText + afterOld);
    ReadsRange(oldStart, oldCount, oldShort, afterOld);
    ExpectsPrefix(" +", newText + afterNew);
    ReadsRange(newStart, newCount, newShort, afterNew);
    ExpectsPrefix(" @@", section);
    ReadsCounts("@@ -" + (oldText + afterOld), oldText + afterOld, oldCount, afterOld, newText + afterNew, newCount,
                afterNew);
  }

  // ----- The line that goes missing unnoticed -----

  predicate EndsInContext(parts: seq<Part>) {
    && parts != [] && parts[|parts| - 1].Hunk? && parts[|parts| - 1].body != []
    && var body := parts[|parts| - 1].body;
       Taken(StripCr(body[|body| - 1])) == Some((1, 1))
  }

  /** The document without its last line. */
  function Cut(parts: seq<Part>): seq<Part>
    requires EndsInContext(parts)
  {
    var last := parts[|parts| - 1];
    parts[..|parts| - 1] + [Hunk(last.header, last.body[..|last.body| - 1])]
  }

  lemma {:induction false} CutBody(body: seq<string>)
    requires body != [] && NoneForeign(body)
    ensures var front, taken := body[..|body| - 1], Taken(StripCr(body[|body| - 1]));
            && NoneForeign(front) && taken.Some?
            && OldLines(body) == OldLines(front) + taken.value.0
            && NewLines(body) == NewLines(front) + taken.value.1
  {
    if |body| > 1 {
      CutBody(body[1..]);
      assert body[..|body| - 1][1..] == body[1..][..|body| - 2];
    }
  }

  lemma CutPart(header: string, body: seq<string>)
    requires body != [] && GitStyle(Hunk(header, body))
    requires Taken(StripCr(body[|body| - 1])) == Some((1, 1)) && Residual(Hunk(header, body)) == (0, 0)
    ensures var part := Hunk(header, body[..|body| - 1]); GitStyle(part) && Residual(part) == (1, 1)
  {
    CutBody(body);
  }

  lemma CutOfTail(parts: seq<Part>)
    requires EndsInContext(parts) && |parts| > 1
    ensures EndsInContext(parts[1..]) && Cut(parts) == [parts[0]] + Cut(parts[1..])
  {
  }

  lemma LinesOfFirst(part: Part, parts: seq<Part>)
    ensures DocumentLines([part] + parts) == PartLines(part) + DocumentLines(parts)
  {
    assert ([part] + parts)[1..] == parts;
  }

  lemma FrontOfBoth<T>(a: seq<T>, b: seq<T>)
    requires b != []
    ensures (a + b)[..|a + b| - 1] == a + b[..|b| - 1]
  {
  }

  lemma CutOne(part: Part)
    requires EndsInContext([part])
    ensures DocumentLines([part]) == [part.header] + part.body
    ensures DocumentLines(Cut([part])) == [part.header] + part.body[..|part.body| - 1]
    ensures DocumentLines(Cut([part])) == DocumentLines([part])[..|part.body|]
  {
    var shorter := Hunk(part.header, part.body[..|part.body| - 1]);
    LinesOfFirst(part, []);
    LinesOfFirst(shorter, []);
    assert [part] + [] == [part] && Cut([part]) == [shorter] + [];
    FrontOfBoth([part.header], part.body);
  }

  lemma {:induction false} CutLines(parts: seq<Part>)
    requires EndsInContext(parts)
    ensures var lines := DocumentLines(parts); lines != [] && DocumentLines(Cut(parts)) == lines[..|lines| - 1]
    decreases |parts|
  {
    if |parts| == 1 {
      assert parts == [parts[0]];
      CutOne(parts[0]);
    } else {
      CutOfTail(parts);
      CutLines(parts[1..]);
      CutLater(parts);
    }
  }

  lemma CutLater(parts: seq<Part>)
    requires EndsInContext(parts) && |parts| > 1
    requires var lines := DocumentLines(parts[1..]);
             lines != [] && EndsInContext(parts[1..]) && DocumentLines(Cut(parts[1..])) == lines[..|lines| - 1]
    ensures var lines := DocumentLines(parts); lines != [] && DocumentLines(Cut(parts)) == lines[..|lines| - 1]
  {
    var first, rest := parts[0], parts[1..];
    CutOfTail(parts);
    LinesOfFirst(first, rest);
    assert parts == [first] + rest;
    LinesOfFirst(first, Cut(rest));
    FrontOfBoth(PartLines(first), DocumentLines(rest));
  }

  lemma CutIsGitStyle(parts: seq<Part>)
    requires EndsInContext(parts) && (forall p :: p in parts ==> GitStyle(p)) && Complete(parts, false)
    ensures forall p :: p in Cut(parts) ==> GitStyle(p)
    ensures Complete(Cut(parts), true) && !Complete(Cut(parts), false)
  {
    var last, left := |parts| - 1, Cut(parts);
    assert parts[last] in parts;
    CutPart(parts[last].header, parts[last].body);
    assert left[last] == Hunk(parts[last].header, parts[last].body[..|parts[last].body| - 1]);
    forall i | 0 <= i < last
      ensures left[i] == parts[i] && GitStyle(left[i])
    {
      assert parts[i] in parts;
    }
  }

  ghost predicate WholeWithContext(parts: seq<Part>) {
    && EndsInContext(parts) && (forall p :: p in parts ==> GitStyle(p)) && Complete(parts, false)
    && forall l :: l in DocumentLines(parts) ==> OneLine(l)
  }

  /** A complete document that loses the context line it ends with: missed exactly when a newline ends the text. */
  lemma CutContextIsMissedIff(parts: seq<Part>, terminated: bool)
    requires WholeWithContext(parts)
    ensures var left := DocumentLines(Cut(parts));
            left != [] && (Scan(SplitOn(Rejoin(left + Ending(terminated), "\n"), "\n"), START) <==> !terminated)
  {
    CutLines(parts);
    CutIsGitStyle(parts);
    var left := Cut(parts);
    assert Complete(left, terminated) <==> terminated;
    TrimmedIffIncomplete(left, terminated);
  }

  function GitHeader(start: nat): string {
    "@@ -" + (RangeText(start, 1, true) + (" +" + (RangeText(start, 1, true) + (" @@" + ""))))
  }

  lemma GitHeaderIsOneLine(start: nat)
    ensures OneLine(GitHeader(start)) && OneLine(" a")
    ensures StripCr(GitHeader(start)) == GitHeader(start) && StripCr(" a") == " a"
    ensures StartsWith(GitHeader(start), "@@ ")
    ensures Taken(" a") == Some((1, 1))
  {
    assert GitHeader(start)[..3] == "@@ -"[..3];
    assert GitHeader(start)[|GitHeader(start)| - 1] == '@';
  }

  lemma OneHunk(header: string, line: string)
    requires HunkCounts(StripCr(header)) == Some((1, 1)) && StartsWith(StripCr(header), "@@ ")
    requires Taken(StripCr(line)) == Some((1, 1)) && OneLine(header) && OneLine(line)
    ensures WholeWithContext([Hunk(header, [line])])
  {
    CountsUnfold([line]);
    assert NoneForeign([line][1..]);
    assert DocumentLines([Hunk(header, [line])]) == [header, line];
  }

  /** There is such a document: one hunk of one context line. */
  lemma SomeDocumentIsCut(start: nat) returns (parts: seq<Part>)
    ensures WholeWithContext(parts)
  {
    ReadsGitHeader(start, 1, true, start, 1, true, "");
    GitHeaderIsOneLine(start);
    OneHunk(GitHeader(start), " a");
    parts := [Hunk(GitHeader(start), [" a"])];
  }
}
