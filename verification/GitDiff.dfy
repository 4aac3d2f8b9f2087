/** Splitting a git diff into files: what the pieces add up to, and the path a header names. */
module GitDiff {
  import opened Lines
  import opened Wrappers

  datatype File = File(path: string, patch: string)

  const HEADER := "diff --git "

  function Parts(diff: string): (parts: seq<string>)
    ensures parts != []
  {
    SplitOn(diff, "\n" + HEADER)
  }

  /** `str.isspace` of one character. */
  predicate IsSpace(c: char) {
    var u := c as int;
    || 0x09 <= u <= 0x0D || 0x1C <= u <= 0x20 || u == 0x85 || u == 0xA0 || u == 0x1680 || 0x2000 <= u <= 0x200A
    || u == 0x2028 || u == 0x2029 || u == 0x202F || u == 0x205F || u == 0x3000
  }

  /** `not text.strip()`. */
  predicate Blank(text: string) {
    forall i :: 0 <= i < |text| ==> IsSpace(text[i])
  }

  predicate EndsLine(text: string) {
    text != "" && text[|text| - 1] == '\n'
  }

  // ----- The path a header names -----

  /** The characters `str.splitlines` breaks at. */
  predicate IsBreak(c: char) {
    var u := c as int;
    0x0A <= u <= 0x0D || 0x1C <= u <= 0x1E || u == 0x85 || u == 0x2028 || u == 0x2029
  }

  /** `text.splitlines()`; a carriage return and the newline after it are one break. */
  function SplitLines(text: string): seq<string>
    decreases |text|
  {
    if text == "" then []
    else if IsBreak(text[0]) then
      [""] + SplitLines(if StartsWith(text, "\r\n") then text[2..] else text[1..])
    else
      var rest := SplitLines(text[1..]);
      if rest == [] then [[text[0]]] else [[text[0]] + rest[0]] + rest[1..]
  }

  /** A path the splitter may hand out: relative and without a parent component. */
  predicate LegalPath(path: string) {
    path != "" && path[0] != '/' && ".." !in SplitOn(path, "/")
  }

  function RemovePrefix(s: string, prefix: string): string {
    if StartsWith(s, prefix) then s[|prefix|..] else s
  }

  /** `rest` split at its middle, when both halves name one path. */
  function HalfPath(rest: string): Option<string> {
    var middle := |rest| / 2;
    if |rest| % 2 == 1 && rest[middle] == ' ' then
      var left, right := rest[..middle], rest[middle + 1..];
      if StartsWith(left, "a/") && StartsWith(right, "b/") && left[2..] == right[2..] then Some(right[2..]) else None
    else None
  }

  function StripTabs(s: string): string {
    if s != "" && s[|s| - 1] == '\t' then StripTabs(s[..|s| - 1]) else s
  }

  function PlusPath(lines: seq<string>): Option<string> {
    if lines == [] then None
    else if StartsWith(lines[0], "+++ b/") then Some(StripTabs(lines[0][6..]))
    else PlusPath(lines[1..])
  }

  /** What follows the last ` b/`. */
  function AfterLastMarker(s: string): Option<string> {
    if s == "" then None
    else
      var later := AfterLastMarker(s[1..]);
      if later.Some? then later else if StartsWith(s, " b/") then Some(s[3..]) else None
  }

  function PathFromHeader(chunk: string): Option<string>
    requires SplitLines(chunk) != []
  {
    var lines := SplitLines(chunk);
    var rest := RemovePrefix(lines[0], HEADER);
    var half, plus := HalfPath(rest), PlusPath(lines[1..]);
    var path := if half.Some? then half else if plus.Some? then plus else AfterLastMarker(lines[0]);
    if path.Some? && LegalPath(path.value) then path else None
  }

  lemma HasLines(chunk: string)
    requires !Blank(chunk)
    ensures SplitLines(chunk) != []
  {
  }

  // ----- split_unified -----

  function Chunk(part: string, first: bool): string {
    if first then part else HEADER + part
  }

  function PatchOf(chunk: string): string {
    if EndsLine(chunk) then chunk else chunk + "\n"
  }

  /** The files of the parts from here on; None when a header cannot be read. */
  function FilesOf(parts: seq<string>, first: bool): Option<seq<File>>
    decreases |parts|
  {
    if parts == [] then Some([])
    else
      var chunk := Chunk(parts[0], first);
      if Blank(chunk) then FilesOf(parts[1..], false)
      else
        HasLines(chunk);
        var path :- PathFromHeader(chunk);
        var rest :- FilesOf(parts[1..], false);
        Some([File(path, PatchOf(chunk))] + rest)
  }

  function Unified(diff: string): Option<seq<File>> {
    if !Contains(diff, HEADER) then None
    else
      var files :- FilesOf(Parts(diff), true);
      if files == [] then None else Some(files)
  }

  /** `files` followed by the files of later parts. */
  function Then(files: seq<File>, rest: Option<seq<File>>): Option<seq<File>> {
    if rest.None? then None else Some(files + rest.value)
  }

  lemma ThenMoves(files: seq<File>, file: File, rest: Option<seq<File>>)
    ensures Then(files, Then([file], rest)) == Then(files + [file], rest)
  {
    if rest.Some? {
      assert files + ([file] + rest.value) == files + [file] + rest.value;
    }
  }

  lemma ThenNothing(rest: Option<seq<File>>)
    ensures Then([], rest) == rest
  {
    if rest.Some? {
      assert [] + rest.value == rest.value;
    }
  }

  /** What the part at `index` contributes. */
  lemma FilesFrom(parts: seq<string>, index: nat)
    requires index < |parts|
    ensures var chunk, rest := Chunk(parts[index], index == 0), FilesOf(parts[index + 1..], false);
            if Blank(chunk) then FilesOf(parts[index..], index == 0) == rest
            else
              SplitLines(chunk) != [] &&
              FilesOf(parts[index..], index == 0)
              == if PathFromHeader(chunk).None? then None
                 else Then([File(PathFromHeader(chunk).value, PatchOf(chunk))], rest)
  {
    assert parts[index..][1..] == parts[index + 1..];
    if !Blank(Chunk(parts[index], index == 0)) {
      HasLines(Chunk(parts[index], index == 0));
    }
  }

  method SplitUnified(diff: string) returns (r: Option<seq<File>>)
    ensures r == Unified(diff)
  {
    if !Contains(diff, HEADER) {
      return None;
    }
    var parts := Parts(diff);
    var files: seq<File> := [];
    assert parts[0..] == parts;
    ThenNothing(FilesOf(parts, true));
    for index := 0 to |parts|
      invariant FilesOf(parts, true) == Then(files, FilesOf(parts[index..], index == 0))
    {
      FilesFrom(parts, index);
      var chunk := if index == 0 then parts[index] else HEADER + parts[index];
      if Blank(chunk) {
        continue;
      }
      var path := PathFromHeader(chunk);
      if path.None? {
        return None;
      }
      var file := File(path.value, if EndsLine(chunk) then chunk else chunk + "\n");
      ThenMoves(files, file, FilesOf(parts[index + 1..], false));
      files := files + [file];
    }
    assert parts[|parts|..] == [] && files + [] == files;
    r := if files == [] then None else Some(files);
  }

  // ----- What the pieces add up to -----

  function Patches(files: seq<File>): string {
    if files == [] then "" else files[0].patch + Patches(files[1..])
  }

  /** Some part but the last ends in a newline of its own: a blank line before a later header. */
  predicate EndsLineEarly(parts: seq<string>) {
    parts != [] && |parts| > 1 && (EndsLine(parts[0]) || EndsLineEarly(parts[1..]))
  }

  /** The patches of the parts, the blank ones dropped; `first` parts carry their header, later ones get `header`. */
  function PatchText(parts: seq<string>, first: bool, header: string): string {
    if parts == [] then ""
    else
      var chunk := if first then parts[0] else header + parts[0];
      (if Blank(chunk) then "" else PatchOf(chunk)) + PatchText(parts[1..], false, header)
  }

  lemma {:induction false} FilesCarryPatches(parts: seq<string>, first: bool)
    requires FilesOf(parts, first).Some?
    ensures Patches(FilesOf(parts, first).value) == PatchText(parts, first, HEADER)
    decreases |parts|
  {
    if parts != [] {
      FilesCarryPatches(parts[1..], false);
      var chunk := Chunk(parts[0], first);
      if Blank(chunk) {
        assert "" + PatchText(parts[1..], false, HEADER) == PatchText(parts[1..], false, HEADER);
      } else {
        var files := FilesOf(parts, first).value;
        assert files[1..] == FilesOf(parts[1..], false).value;
      }
    }
  }

  /** What the proofs need of the header text: it starts with no space and does not end a line. */
  predicate HeaderText(header: string) {
    header != "" && !IsSpace(header[0]) && header[|header| - 1] != '\n'
  }

  lemma StartsWithHeader(header: string, parts: seq<string>)
    requires HeaderText(header) && parts != []
    ensures !Blank(header + parts[0])
    ensures PatchText(parts, false, header) == PatchOf(header + parts[0]) + PatchText(parts[1..], false, header)
    ensures PatchText(parts, false, header) != "" && PatchText(parts, false, header)[0] == header[0]
  {
    assert (header + parts[0])[0] == header[0];
  }

  lemma ChunkEndsLine(header: string, part: string)
    requires HeaderText(header)
    ensures EndsLine(header + part) <==> EndsLine(part)
  {
    if part == "" {
      assert header + part == header;
    }
  }

  /** The newline the splitter adds is the one the separator took, unless the chunk already ends its line. */
  lemma OneNewline(chunk: string, text: string, rest: string, c: char)
    requires text != "" && text[0] == c && rest != "" && rest[0] == c && c != '\n'
    ensures PatchOf(chunk) + text == chunk + "\n" + rest <==> !EndsLine(chunk) && text == rest
  {
    var a, b := PatchOf(chunk) + text, chunk + "\n" + rest;
    if EndsLine(chunk) {
      assert a[|chunk|] == c && b[|chunk|] == '\n';
    } else if a == b {
      assert a[|chunk| + 1..] == text && b[|chunk| + 1..] == rest;
    }
  }

  lemma OnlyPatch(chunk: string)
    ensures PatchOf(chunk) == chunk <==> EndsLine(chunk)
  {
    assert !EndsLine(chunk) ==> |PatchOf(chunk)| == |chunk| + 1;
  }

  lemma RejoinsWithHeader(header: string, part: string, tail: seq<string>)
    requires tail != []
    ensures Rejoin([part] + tail, "\n" + header) == part + "\n" + (header + Rejoin(tail, "\n" + header))
  {
    assert ([part] + tail)[1..] == tail;
  }

  /** One part before the later ones, which are put back together exactly when `fine` and the diff ends its line. */
  lemma RejoinsPart(chunk: string, text: string, rest: string, c: char, fine: bool)
    requires text != "" && text[0] == c && rest != "" && rest[0] == c && c != '\n'
    requires text == rest <==> fine && EndsLine(rest)
    ensures PatchOf(chunk) + text == chunk + "\n" + rest
            <==> !EndsLine(chunk) && fine && EndsLine(chunk + "\n" + rest)
  {
    OneNewline(chunk, text, rest, c);
    var all := chunk + "\n" + rest;
    assert all[|all| - 1] == rest[|rest| - 1];
  }

  /** Later parts: put back together exactly when no part but the last ends early and the last ends its line. */
  lemma {:induction false} TailPatches(parts: seq<string>, header: string)
    requires parts != [] && HeaderText(header)
    ensures var rest := header + Rejoin(parts, "\n" + header);
            PatchText(parts, false, header) == rest <==> !EndsLineEarly(parts) && EndsLine(rest)
  {
    var chunk, tail := header + parts[0], parts[1..];
    StartsWithHeader(header, parts);
    if |parts| == 1 {
      assert PatchText(parts, false, header) == PatchOf(chunk) + "" == PatchOf(chunk);
      OnlyPatch(chunk);
    } else {
      var rest := header + Rejoin(tail, "\n" + header);
      TailPatches(tail, header);
      StartsWithHeader(header, tail);
      ChunkEndsLine(header, parts[0]);
      RejoinsPart(chunk, PatchText(tail, false, header), rest, header[0], !EndsLineEarly(tail));
      RejoinsLater(header, parts, rest);
    }
  }

  lemma RejoinsLater(header: string, parts: seq<string>, rest: string)
    requires |parts| > 1 && rest == header + Rejoin(parts[1..], "\n" + header)
    ensures Rejoin(parts, "\n" + header) == parts[0] + "\n" + rest
    ensures header + Rejoin(parts, "\n" + header) == (header + parts[0]) + "\n" + rest
  {
    assert parts == [parts[0]] + parts[1..];
    RejoinsWithHeader(header, parts[0], parts[1..]);
    assert header + (parts[0] + "\n" + rest) == (header + parts[0]) + "\n" + rest;
  }

  lemma AllPatches(parts: seq<string>, header: string)
    requires parts != [] && HeaderText(header) && PatchText(parts, true, header) != ""
    ensures var diff := Rejoin(parts, "\n" + header);
            PatchText(parts, true, header) == diff <==> !Blank(parts[0]) && !EndsLineEarly(parts) && EndsLine(diff)
  {
    var part, tail := parts[0], parts[1..];
    if |parts| == 1 {
      assert PatchText(tail, false, header) == "";
      assert PatchOf(part) + "" == PatchOf(part);
      OnlyPatch(part);
    } else {
      var rest := header + Rejoin(tail, "\n" + header);
      var text := PatchText(tail, false, header);
      TailPatches(tail, header);
      StartsWithHeader(header, tail);
      RejoinsLater(header, parts, rest);
      if Blank(part) {
        assert PatchText(parts, true, header) == "" + text == text;
        BlankFirstDiffers(part, text, rest, header[0]);
      } else {
        RejoinsPart(part, text, rest, header[0], !EndsLineEarly(tail));
      }
    }
  }

  lemma BlankFirstDiffers(part: string, text: string, rest: string, c: char)
    requires Blank(part) && text != "" && text[0] == c && !IsSpace(c)
    ensures text != part + "\n" + rest
  {
    assert IsSpace((part + "\n" + rest)[0]);
  }

  /** Concatenating the patches gives back the diff exactly when something other than white space comes before
      the second header, no blank line precedes a later header, and the diff ends with a newline. */
  lemma PatchesRejoinIff(diff: string)
    requires Unified(diff).Some?
    ensures Patches(Unified(diff).value) == diff <==>
              !Blank(Parts(diff)[0]) && !EndsLineEarly(Parts(diff)) && EndsLine(diff)
  {
    RejoinsSplit(diff, "\n" + HEADER);
    FilesCarryPatches(Parts(diff), true);
    assert Patches(Unified(diff).value) != "";
    AllPatches(Parts(diff), HEADER);
  }

  // ----- One entry per header -----

  /** How often `header` stands at the start of a line. */
  function Headers(diff: string, header: string, atStart: bool): nat
    decreases |diff|
  {
    (if atStart && StartsWith(diff, header) then 1 else 0)
    + if diff == "" then 0 else Headers(diff[1..], header, diff[0] == '\n')
  }

  lemma {:induction false} HeaderLineHasNoMore(line: string, rest: string, header: string, atStart: bool)
    requires OneLine(line) && line != "" && header != "" && header[0] != '\n'
    ensures Headers(line + rest, header, atStart)
         == (if atStart && StartsWith(line + rest, header) then 1 else 0) + Headers(rest, header, false)
    decreases |line|
  {
    assert (line + rest)[1..] == line[1..] + rest;
    if |line| == 1 {
      assert line[1..] + rest == rest;
    } else {
      HeaderLineHasNoMore(line[1..], rest, header, false);
    }
  }

  /** The text is split once at each header that starts a line after the first. */
  lemma {:induction false} PartPerHeader(diff: string, header: string)
    requires header != "" && OneLine(header)
    ensures |SplitOn(diff, "\n" + header)| == 1 + Headers(diff, header, false)
    decreases |diff|
  {
    var separator := "\n" + header;
    if StartsWith(diff, separator) {
      var rest := diff[|separator|..];
      PartPerHeader(rest, header);
      assert diff[1..] == header + rest;
      assert (header + rest)[..|header|] == header;
      HeaderLineHasNoMore(header, rest, header, true);
    } else if diff != "" {
      PartPerHeader(diff[1..], header);
      if diff[0] == '\n' {
        assert diff == "\n" + diff[1..];
        assert !StartsWith(diff[1..], header);
      }
    }
  }

  lemma {:induction false} FilePerPart(parts: seq<string>, first: bool)
    requires FilesOf(parts, first).Some?
    requires first && parts != [] ==> !Blank(parts[0])
    ensures |FilesOf(parts, first).value| == |parts|
    decreases |parts|
  {
    if parts != [] {
      if !first {
        assert (HEADER + parts[0])[0] == 'd';
      }
      FilePerPart(parts[1..], false);
    }
  }

  lemma FirstPartKeepsStart(diff: string, header: string)
    requires header != "" && OneLine(header) && StartsWith(diff, header)
    ensures SplitOn(diff, "\n" + header)[0] != "" && SplitOn(diff, "\n" + header)[0][0] == header[0]
  {
    assert diff[0] == header[0];
  }

  /** A diff that starts with a header gives one file for every line that starts with a header. */
  lemma FilePerHeader(diff: string)
    requires StartsWith(diff, HEADER) && Unified(diff).Some?
    ensures |Unified(diff).value| == Headers(diff, HEADER, true)
  {
    FirstPartKeepsStart(diff, HEADER);
    assert !IsSpace(Parts(diff)[0][0]);
    FilePerPart(Parts(diff), true);
    PartPerHeader(diff, HEADER);
  }

  // ----- The path of a header that is not a rename -----

  predicate NoBreak(s: string) {
    forall i :: 0 <= i < |s| ==> !IsBreak(s[i])
  }

  lemma {:induction false} FirstLine(line: string, rest: string)
    requires NoBreak(line) && (line != "" || rest != "") && (rest == "" || IsBreak(rest[0]))
    ensures SplitLines(line + rest) != [] && SplitLines(line + rest)[0] == line
    decreases |line|
  {
    if line == "" {
      assert line + rest == rest;
    } else {
      assert (line + rest)[1..] == line[1..] + rest;
      if line[1..] + rest != "" {
        FirstLine(line[1..], rest);
      }
      assert line == [line[0]] + line[1..];
    }
  }

  lemma HalvesAgree(path: string)
    ensures HalfPath("a/" + path + " b/" + path) == Some(path)
  {
    var rest := "a/" + path + " b/" + path;
    var middle := |path| + 2;
    assert |rest| == 2 * |path| + 5 && |rest| / 2 == middle;
    assert rest[middle] == ' ';
    assert rest[..middle] == "a/" + path;
    assert rest[middle + 1..] == "b/" + path;
    assert ("a/" + path)[..2] == "a/" && ("b/" + path)[..2] == "b/";
    assert ("a/" + path)[2..] == path && ("b/" + path)[2..] == path;
  }

  /** The header `a/p b/p` gives p for every legal path on one line, whatever p contains and whatever follows. */
  lemma SamePathIsRead(path: string, rest: string)
    requires LegalPath(path) && NoBreak(path) && (rest == "" || IsBreak(rest[0]))
    ensures var chunk := HEADER + ("a/" + path + " b/" + path) + rest;
            SplitLines(chunk) != [] && PathFromHeader(chunk) == Some(path)
  {
    var names := "a/" + path + " b/" + path;
    var line := HEADER + names;
    assert NoBreak(HEADER) && NoBreak("a/") && NoBreak(" b/");
    FirstLine(line, rest);
    assert line[..|HEADER|] == HEADER && line[|HEADER|..] == names;
    HalvesAgree(path);
  }
}
