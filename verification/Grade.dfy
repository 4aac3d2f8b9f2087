/** Which edits of a test file count as changes: everything but added tests and added fresh imports. */
module Grade {
  import opened Lines
  import opened Listings
  import opened Sorting
  import opened StringOrder
  import opened Wrappers

  /** One `name as asname` of an import. */
  datatype Alias = Alias(name: string, asname: Option<string>)

  /** An import statement always names something. */
  type Aliases = s: seq<Alias> | s != [] witness [Alias("pytest", None)]

  /** A statement without positions and comments; `content` is all that is not named here. */
  datatype Stmt =
    | Function(name: string, content: string)
    | Import(aliases: Aliases, content: string)
    | Class(name: string, header: string, body: seq<Stmt>)
    | Assign(targets: set<string>, content: string)
    | Other(content: string)

  datatype Qualname = Top(name: string) | Method(owner: string, name: string)

  // ----- What a module binds -----

  function FirstPart(name: string): string {
    SplitOn(name, ".")[0]
  }

  function BoundName(alias: Alias): string {
    FirstPart(if alias.asname.Some? then alias.asname.value else alias.name)
  }

  /** `_bound`. */
  function Bound(s: Stmt): set<string>
    requires s.Import?
  {
    set i | 0 <= i < |s.aliases| :: BoundName(s.aliases[i])
  }

  function Binds(s: Stmt): set<string> {
    match s
    case Import(_, _) => Bound(s)
    case Function(name, _) => {name}
    case Class(name, _, _) => {name}
    case Assign(targets, _) => targets
    case Other(_) => {}
  }

  function Names(body: seq<Stmt>): set<string> {
    set i, x | 0 <= i < |body| && x in Binds(body[i]) :: x
  }

  /** `_names`. */
  method CollectNames(body: seq<Stmt>) returns (names: set<string>)
    ensures names == Names(body)
  {
    names := {};
    for i := 0 to |body|
      invariant names == Names(body[..i])
    {
      names := names + Binds(body[i]);
      assert body[..i + 1] == body[..i] + [body[i]];
      assert body[..i + 1][i] == body[i];
      assert forall k :: 0 <= k < i ==> body[..i + 1][k] == body[..i][k];
    }
    assert body[..|body|] == body;
  }

  function FunctionNames(body: seq<Stmt>): set<string> {
    set i | 0 <= i < |body| && body[i].Function? :: body[i].name
  }

  /** The functions of each class; the last class of a name decides, as in the source's dictionary. */
  function ClassTests(body: seq<Stmt>): map<string, set<string>> {
    if body == [] then map[]
    else
      var last := body[|body| - 1];
      var earlier := ClassTests(body[..|body| - 1]);
      if last.Class? then earlier[last.name := FunctionNames(last.body)] else earlier
  }

  /** What the snapshot already holds. */
  datatype Known = Known(top: set<string>, classes: map<string, set<string>>)

  function KnownOf(snapshot: seq<Stmt>): Known {
    Known(FunctionNames(snapshot), ClassTests(snapshot))
  }

  // ----- Stripping what may be added -----

  predicate IsNewTest(s: Stmt, known: set<string>) {
    s.Function? && StartsWith(s.name, "test_") && s.name !in known
  }

  function StripClass(body: seq<Stmt>, known: set<string>): seq<Stmt> {
    if body == [] then []
    else if IsNewTest(body[0], known) then StripClass(body[1..], known)
    else [body[0]] + StripClass(body[1..], known)
  }

  /** Whether the loop drops the statement. */
  predicate Addable(s: Stmt, known: Known, taken: set<string>) {
    IsNewTest(s, known.top) || (s.Import? && Bound(s) !! taken)
  }

  function Take(s: Stmt, taken: set<string>): set<string> {
    if s.Import? then taken + Bound(s) else taken
  }

  function KeptPart(s: Stmt, known: Known): Stmt {
    if s.Class? && s.name in known.classes then s.(body := StripClass(s.body, known.classes[s.name])) else s
  }

  function Strip(body: seq<Stmt>, known: Known, taken: set<string>): seq<Stmt> {
    if body == [] then []
    else if Addable(body[0], known, taken) then Strip(body[1..], known, Take(body[0], taken))
    else [KeptPart(body[0], known)] + Strip(body[1..], known, taken)
  }

  function AddedInClass(owner: string, body: seq<Stmt>, known: set<string>): seq<Qualname> {
    if body == [] then []
    else
      (if IsNewTest(body[0], known) then [Method(owner, body[0].name)] else [])
      + AddedInClass(owner, body[1..], known)
  }

  function AddedBy(s: Stmt, known: Known): seq<Qualname> {
    if IsNewTest(s, known.top) then [Top(s.name)]
    else if s.Class? && s.name in known.classes then AddedInClass(s.name, s.body, known.classes[s.name])
    else []
  }

  function Added(body: seq<Stmt>, known: Known): seq<Qualname> {
    if body == [] then [] else AddedBy(body[0], known) + Added(body[1..], known)
  }

  /** A name in the report. */
  function QualnameText(q: Qualname): string {
    match q
    case Top(name) => name
    case Method(owner, name) => owner + "." + name
  }

  function Texts(names: seq<Qualname>): seq<string> {
    seq(|names|, i requires 0 <= i < |names| => QualnameText(names[i]))
  }

  /** The added tests as they are reported. */
  function Report(edited: seq<Stmt>, snapshot: seq<Stmt>): seq<string> {
    Sorted(Texts(Added(edited, KnownOf(snapshot))))
  }

  /** What one statement contributes to the stripped module, and the names taken after it. */
  function Part(s: Stmt, known: Known, taken: set<string>): seq<Stmt> {
    if Addable(s, known, taken) then [] else [KeptPart(s, known)]
  }

  function TakenAfter(s: Stmt, known: Known, taken: set<string>): set<string> {
    if Addable(s, known, taken) then Take(s, taken) else taken
  }

  lemma StripStep(body: seq<Stmt>, i: nat, known: Known, taken: set<string>)
    requires i < |body|
    ensures Strip(body[i..], known, taken)
            == Part(body[i], known, taken) + Strip(body[i + 1..], known, TakenAfter(body[i], known, taken))
    ensures Added(body[i..], known) == AddedBy(body[i], known) + Added(body[i + 1..], known)
  {
    assert body[i..][0] == body[i] && body[i..][1..] == body[i + 1..];
  }

  lemma Moves<T>(done: seq<T>, part: seq<T>, rest: seq<T>, ahead: seq<T>, whole: seq<T>)
    requires done + ahead == whole && ahead == part + rest
    ensures done + part + rest == whole
  {
    assert done + part + rest == done + (part + rest);
  }

  /** `_strip_added`. */
  method StripAdded(edited: seq<Stmt>, snapshot: seq<Stmt>) returns (body: seq<Stmt>, report: seq<string>)
    ensures body == Strip(edited, KnownOf(snapshot), Names(snapshot))
    ensures report == Report(edited, snapshot)
  {
    var known := KnownOf(snapshot);
    var taken := CollectNames(snapshot);
    var added := [];
    body := [];
    for i := 0 to |edited|
      invariant body + Strip(edited[i..], known, taken) == Strip(edited, known, Names(snapshot))
      invariant added + Added(edited[i..], known) == Added(edited, known)
    {
      var node := edited[i];
      ghost var part, after := Part(node, known, taken), TakenAfter(node, known, taken);
      StripStep(edited, i, known, taken);
      Moves(body, part, Strip(edited[i + 1..], known, after), Strip(edited[i..], known, taken),
            Strip(edited, known, Names(snapshot)));
      Moves(added, AddedBy(node, known), Added(edited[i + 1..], known), Added(edited[i..], known),
            Added(edited, known));
      body, added, taken := StripOne(node, known, taken, body, added);
    }
    assert added + Added([], known) == added;
    report := Sorted(Texts(added));
  }

  /** One round of the loop. */
  method StripOne(node: Stmt, known: Known, taken: set<string>, body: seq<Stmt>, added: seq<Qualname>)
    returns (body': seq<Stmt>, added': seq<Qualname>, taken': set<string>)
    ensures body' == body + Part(node, known, taken) && added' == added + AddedBy(node, known)
    ensures taken' == TakenAfter(node, known, taken)
  {
    body', added', taken' := body, added, taken;
    if IsNewTest(node, known.top) {
      added' := added + [Top(node.name)];
    } else if node.Import? && Bound(node) !! taken {
      taken' := taken + Bound(node);
    } else if node.Class? && node.name in known.classes {
      var kept, inside := StripOneClass(node, known.classes[node.name]);
      body', added' := body + [node.(body := kept)], added + inside;
    } else {
      body' := body + [node];
    }
  }

  /** What the next child adds to the kept ones and to the added names. */
  lemma ClassStep(owner: string, body: seq<Stmt>, i: nat, known: set<string>, kept: seq<Stmt>, added: seq<Qualname>)
    requires i < |body|
    ensures var isNew := IsNewTest(body[i], known);
            && kept + StripClass(body[i..], known)
               == (if isNew then kept else kept + [body[i]]) + StripClass(body[i + 1..], known)
            && added + AddedInClass(owner, body[i..], known)
               == (if isNew then added + [Method(owner, body[i].name)] else added)
                  + AddedInClass(owner, body[i + 1..], known)
  {
    assert body[i..][0] == body[i] && body[i..][1..] == body[i + 1..];
  }

  method StripOneClass(node: Stmt, known: set<string>) returns (kept: seq<Stmt>, added: seq<Qualname>)
    requires node.Class?
    ensures kept == StripClass(node.body, known) && added == AddedInClass(node.name, node.body, known)
  {
    kept, added := [], [];
    for i := 0 to |node.body|
      invariant kept + StripClass(node.body[i..], known) == StripClass(node.body, known)
      invariant added + AddedInClass(node.name, node.body[i..], known) == AddedInClass(node.name, node.body, known)
    {
      var child := node.body[i];
      ClassStep(node.name, node.body, i, known, kept, added);
      if IsNewTest(child, known) {
        added := added + [Method(node.name, child.name)];
      } else {
        kept := kept + [child];
      }
    }
  }

  predicate Unchanged(snapshot: seq<Stmt>, edited: seq<Stmt>) {
    Strip(edited, KnownOf(snapshot), Names(snapshot)) == snapshot
  }

  /** `compare_source`; `None` is a file that does not parse. */
  method CompareSource(snapshot: Option<seq<Stmt>>, edited: Option<seq<Stmt>>)
    returns (changed: bool, added: seq<string>)
    ensures snapshot.None? || edited.None? ==> changed && added == []
    ensures snapshot.Some? && edited.Some? ==>
              changed == !Unchanged(snapshot.value, edited.value) && added == Report(edited.value, snapshot.value)
  {
    if snapshot.None? || edited.None? {
      return true, [];
    }
    var stripped, names := StripAdded(edited.value, snapshot.value);
    return stripped != snapshot.value, names;
  }

  // ----- Insertions -----

  /** The elements whose mark is true, in order. */
  function Picked<T>(s: seq<T>, keep: seq<bool>): seq<T>
    requires |keep| == |s|
  {
    if s == [] then [] else (if keep[0] then [s[0]] else []) + Picked(s[1..], keep[1..])
  }

  /** `after` is `before` with new tests inserted where the mark is false. */
  predicate TestsInserted(before: seq<Stmt>, after: seq<Stmt>, keep: seq<bool>, known: set<string>) {
    && |keep| == |after|
    && Picked(after, keep) == before
    && forall i :: 0 <= i < |after| && !keep[i] ==> IsNewTest(after[i], known)
  }

  /** The same statement, or the same class with new tests inserted. */
  ghost predicate SameButTests(before: Stmt, after: Stmt, known: Known) {
    if before.Class? && after.Class? && before.name in known.classes then
      && before.name == after.name && before.header == after.header
      && exists keep :: TestsInserted(before.body, after.body, keep, known.classes[before.name])
    else
      before == after
  }

  /** `after` is `before` with allowed statements inserted where the mark is false: new tests, and imports that
      bind only names that are neither in `taken` nor bound by an import inserted earlier. */
  ghost predicate Inserted(before: seq<Stmt>, after: seq<Stmt>, keep: seq<bool>, known: Known, taken: set<string>) {
    && |keep| == |after|
    && |Picked(after, keep)| == |before|
    && (forall j :: 0 <= j < |before| ==> SameButTests(before[j], Picked(after, keep)[j], known))
    && (forall i :: 0 <= i < |after| && !keep[i] ==> Addable(after[i], known, taken))
    && forall i, k :: 0 <= i < k < |after| && !keep[i] && !keep[k] && after[i].Import? && after[k].Import?
                      ==> Bound(after[i]) !! Bound(after[k])
  }

  ghost predicate OnlyAdditions(snapshot: seq<Stmt>, edited: seq<Stmt>) {
    exists keep :: Inserted(snapshot, edited, keep, KnownOf(snapshot), Names(snapshot))
  }

  /** Every test in a class of the snapshot is known under the class's name. */
  predicate Settled(snapshot: seq<Stmt>) {
    forall i :: 0 <= i < |snapshot| && snapshot[i].Class? ==> ClassSettled(snapshot[i], ClassTests(snapshot))
  }

  predicate ClassSettled(s: Stmt, classes: map<string, set<string>>)
    requires s.Class?
  {
    s.name in classes && forall i :: 0 <= i < |s.body| ==> !IsNewTest(s.body[i], classes[s.name])
  }

  // ----- Stripping inside a class -----

  /** Marks of what stripping a class keeps. */
  function ClassMarks(body: seq<Stmt>, known: set<string>): (keep: seq<bool>)
    ensures |keep| == |body|
  {
    seq(|body|, i requires 0 <= i < |body| => !IsNewTest(body[i], known))
  }

  lemma {:induction false} StripClassPicks(body: seq<Stmt>, known: set<string>)
    ensures TestsInserted(StripClass(body, known), body, ClassMarks(body, known), known)
  {
    if body != [] {
      StripClassPicks(body[1..], known);
      assert ClassMarks(body, known)[1..] == ClassMarks(body[1..], known);
    }
  }

  lemma {:induction false} InsertedStrips(before: seq<Stmt>, after: seq<Stmt>, keep: seq<bool>, known: set<string>)
    requires TestsInserted(before, after, keep, known)
    requires forall i :: 0 <= i < |before| ==> !IsNewTest(before[i], known)
    ensures StripClass(after, known) == before
    decreases |after|
  {
    if after != [] {
      var rest := Picked(after[1..], keep[1..]);
      if keep[0] {
        assert before == [after[0]] + rest;
        assert before[0] == after[0] && before[1..] == rest;
      } else {
        assert before == rest;
      }
      forall i | 0 <= i < |rest|
        ensures !IsNewTest(rest[i], known)
      {
        assert rest[i] == before[if keep[0] then i + 1 else i];
      }
      InsertedStrips(rest, after[1..], keep[1..], known);
    }
  }

  lemma {:induction false} StrippedHasNoNewTest(body: seq<Stmt>, known: set<string>)
    ensures forall i :: 0 <= i < |StripClass(body, known)| ==> !IsNewTest(StripClass(body, known)[i], known)
  {
    if body != [] {
      StrippedHasNoNewTest(body[1..], known);
    }
  }

  /** What survives of a class is the class of the snapshot exactly when tests were inserted. */
  lemma KeptPartIff(before: Stmt, after: Stmt, known: Known)
    requires before.Class? ==> ClassSettled(before, known.classes)
    ensures KeptPart(after, known) == before <==> SameButTests(before, after, known)
  {
    if before.Class? && after.Class? && before.name == after.name && before.header == after.header {
      var tests := known.classes[before.name];
      if KeptPart(after, known) == before {
        StripClassPicks(after.body, tests);
      }
      if keep :| TestsInserted(before.body, after.body, keep, tests) {
        InsertedStrips(before.body, after.body, keep, tests);
      }
    }
  }

  // ----- Stripping a module -----

  function Marks(body: seq<Stmt>, known: Known, taken: set<string>): (keep: seq<bool>)
    ensures |keep| == |body|
  {
    if body == [] then []
    else
      var drop := Addable(body[0], known, taken);
      [!drop] + Marks(body[1..], known, if drop then Take(body[0], taken) else taken)
  }

  predicate AllSettled(body: seq<Stmt>, known: Known) {
    forall i :: 0 <= i < |body| && body[i].Class? ==> ClassSettled(body[i], known.classes)
  }

  /** Dropped statements are allowed additions. */
  lemma {:induction false} DroppedAreAddable(body: seq<Stmt>, known: Known, taken: set<string>)
    ensures var keep := Marks(body, known, taken);
            && (forall i :: 0 <= i < |body| && !keep[i] ==> Addable(body[i], known, taken))
            && forall i, k :: 0 <= i < k < |body| && !keep[i] && !keep[k] && body[i].Import? && body[k].Import?
                              ==> Bound(body[i]) !! Bound(body[k])
  {
    if body != [] {
      var keep := Marks(body, known, taken);
      var left := if keep[0] then taken else Take(body[0], taken);
      var later := Marks(body[1..], known, left);
      DroppedAreAddable(body[1..], known, left);
      assert keep == [keep[0]] + later;
      forall i | 0 < i < |body| && !keep[i]
        ensures Addable(body[i], known, taken)
        ensures !keep[0] && body[0].Import? && body[i].Import? ==> Bound(body[0]) !! Bound(body[i])
      {
        assert later[i - 1] == keep[i] && body[1..][i - 1] == body[i];
        NewTestIsNoImport(body[0], known.top);
      }
      forall i, k | 0 <= i < k < |body| && !keep[i] && !keep[k] && body[i].Import? && body[k].Import?
        ensures Bound(body[i]) !! Bound(body[k])
      {
        if i > 0 {
          assert later[i - 1] == keep[i] && body[1..][i - 1] == body[i];
          assert later[k - 1] == keep[k] && body[1..][k - 1] == body[k];
        }
      }
    }
  }

  lemma NewTestIsNoImport(s: Stmt, known: set<string>)
    ensures s.Import? ==> !IsNewTest(s, known)
  {
  }

  /** What is kept are the marked statements, each stripped. */
  lemma {:induction false} StripPicks(body: seq<Stmt>, known: Known, taken: set<string>)
    ensures var picked := Picked(body, Marks(body, known, taken));
            && |picked| == |Strip(body, known, taken)|
            && forall j :: 0 <= j < |picked| ==> Strip(body, known, taken)[j] == KeptPart(picked[j], known)
  {
    if body != [] {
      var drop := Addable(body[0], known, taken);
      StripPicks(body[1..], known, if drop then Take(body[0], taken) else taken);
    }
  }

  lemma StripInserts(before: seq<Stmt>, after: seq<Stmt>, known: Known, taken: set<string>)
    requires Strip(after, known, taken) == before && AllSettled(before, known)
    ensures Inserted(before, after, Marks(after, known, taken), known, taken)
  {
    var keep := Marks(after, known, taken);
    StripPicks(after, known, taken);
    DroppedAreAddable(after, known, taken);
    forall j | 0 <= j < |before|
      ensures SameButTests(before[j], Picked(after, keep)[j], known)
    {
      KeptPartIff(before[j], Picked(after, keep)[j], known);
    }
  }

  /** A statement of the snapshot is never taken for an addition. */
  predicate Firm(s: Stmt, known: Known, taken: set<string>) {
    match s
    case Function(name, _) => name in known.top
    case Import(_, _) => Bound(s) * taken != {}
    case Class(_, _, _) => ClassSettled(s, known.classes)
    case _ => true
  }

  lemma FirmIsKept(before: Stmt, after: Stmt, known: Known, taken: set<string>, more: set<string>)
    requires Firm(before, known, taken) && SameButTests(before, after, known) && taken <= more
    ensures !Addable(after, known, more) && KeptPart(after, known) == before && Firm(before, known, more)
  {
    KeptPartIff(before, after, known);
    if before.Import? {
      var x :| x in Bound(before) * taken;
      assert x in Bound(before) * more;
    }
  }

  /** Stripping finds every insertion. */
  lemma {:induction false} InsertionStrips(before: seq<Stmt>, after: seq<Stmt>, keep: seq<bool>, known: Known,
                                           taken: set<string>)
    requires Inserted(before, after, keep, known, taken)
    requires forall j :: 0 <= j < |before| ==> Firm(before[j], known, taken)
    ensures Strip(after, known, taken) == before
    decreases |after|
  {
    if after != [] {
      var rest := Picked(after[1..], keep[1..]);
      if keep[0] {
        assert Picked(after, keep) == [after[0]] + rest;
        FirmIsKept(before[0], after[0], known, taken, taken);
        InsertedTail(before, after, keep, known, taken);
        InsertionStrips(before[1..], after[1..], keep[1..], known, taken);
      } else {
        assert Picked(after, keep) == rest;
        var more := Take(after[0], taken);
        InsertedAfter(before, after, keep, known, taken);
        forall j | 0 <= j < |before|
          ensures Firm(before[j], known, more)
        {
          FirmIsKept(before[j], rest[j], known, taken, more);
        }
        InsertionStrips(before, after[1..], keep[1..], known, more);
      }
    }
  }

  lemma InsertedTail(before: seq<Stmt>, after: seq<Stmt>, keep: seq<bool>, known: Known, taken: set<string>)
    requires Inserted(before, after, keep, known, taken) && after != [] && keep[0]
    ensures before != [] && Inserted(before[1..], after[1..], keep[1..], known, taken)
  {
    var rest := Picked(after[1..], keep[1..]);
    assert Picked(after, keep) == [after[0]] + rest;
    assert before != [];
    forall j | 0 <= j < |before| - 1
      ensures SameButTests(before[1..][j], rest[j], known)
    {
      assert SameButTests(before[j + 1], Picked(after, keep)[j + 1], known);
    }
    assert forall i :: 0 <= i < |after| - 1 ==> after[1..][i] == after[i + 1] && keep[1..][i] == keep[i + 1];
  }

  lemma InsertedAfter(before: seq<Stmt>, after: seq<Stmt>, keep: seq<bool>, known: Known, taken: set<string>)
    requires Inserted(before, after, keep, known, taken) && after != [] && !keep[0]
    ensures Inserted(before, after[1..], keep[1..], known, Take(after[0], taken))
  {
    var more := Take(after[0], taken);
    assert Picked(after, keep) == Picked(after[1..], keep[1..]);
    assert forall i :: 0 <= i < |after| - 1 ==> after[1..][i] == after[i + 1] && keep[1..][i] == keep[i + 1];
    forall i | 0 <= i < |after| - 1 && !keep[1..][i]
      ensures Addable(after[1..][i], known, more)
    {
      assert Addable(after[i + 1], known, taken);
      if after[0].Import? && after[i + 1].Import? {
        assert Bound(after[0]) !! Bound(after[i + 1]);
      }
    }
  }

  // ----- The snapshot itself -----

  lemma {:induction false} ClassesAreKnown(body: seq<Stmt>)
    ensures forall i :: 0 <= i < |body| && body[i].Class? ==> body[i].name in ClassTests(body)
  {
    if body != [] {
      ClassesAreKnown(body[..|body| - 1]);
    }
  }

  lemma BoundIsNonempty(s: Stmt)
    requires s.Import?
    ensures BoundName(s.aliases[0]) in Bound(s)
  {
  }

  lemma SettledIsFirm(snapshot: seq<Stmt>, i: nat)
    requires Settled(snapshot) && i < |snapshot|
    ensures Firm(snapshot[i], KnownOf(snapshot), Names(snapshot))
  {
    if snapshot[i].Import? {
      var x := BoundName(snapshot[i].aliases[0]);
      BoundIsNonempty(snapshot[i]);
      assert x in Binds(snapshot[i]) && x in Names(snapshot);
      assert x in Bound(snapshot[i]) * Names(snapshot);
    }
  }

  lemma {:induction false} StripSettles(body: seq<Stmt>, known: Known, taken: set<string>, j: nat)
    requires j < |Strip(body, known, taken)|
    ensures var s := Strip(body, known, taken)[j];
            s.Class? && s.name in known.classes ==> ClassSettled(s, known.classes)
    decreases |body|
  {
    if Addable(body[0], known, taken) {
      StripSettles(body[1..], known, Take(body[0], taken), j);
    } else if j > 0 {
      StripSettles(body[1..], known, taken, j - 1);
    } else if body[0].Class? && body[0].name in known.classes {
      StrippedHasNoNewTest(body[0].body, known.classes[body[0].name]);
    }
  }

  /** A file is unchanged exactly when only allowed statements were inserted into a settled snapshot. */
  lemma UnchangedIffInserted(snapshot: seq<Stmt>, edited: seq<Stmt>)
    ensures Unchanged(snapshot, edited) <==> Settled(snapshot) && OnlyAdditions(snapshot, edited)
  {
    var known := KnownOf(snapshot);
    if Unchanged(snapshot, edited) {
      ClassesAreKnown(snapshot);
      forall i | 0 <= i < |snapshot| && snapshot[i].Class?
        ensures ClassSettled(snapshot[i], known.classes)
      {
        StripSettles(edited, known, Names(snapshot), i);
      }
      StripInserts(snapshot, edited, known, Names(snapshot));
    }
    if Settled(snapshot) && OnlyAdditions(snapshot, edited) {
      var keep :| Inserted(snapshot, edited, keep, known, Names(snapshot));
      forall j | 0 <= j < |snapshot|
        ensures Firm(snapshot[j], known, Names(snapshot))
      {
        SettledIsFirm(snapshot, j);
      }
      InsertionStrips(snapshot, edited, keep, known, Names(snapshot));
    }
  }

  predicate UniqueClasses(snapshot: seq<Stmt>) {
    forall i, j :: 0 <= i < j < |snapshot| && snapshot[i].Class? && snapshot[j].Class? ==>
                     snapshot[i].name != snapshot[j].name
  }

  lemma {:induction false} UniqueClassTests(snapshot: seq<Stmt>, i: nat)
    requires UniqueClasses(snapshot) && i < |snapshot| && snapshot[i].Class?
    ensures snapshot[i].name in ClassTests(snapshot)
    ensures ClassTests(snapshot)[snapshot[i].name] == FunctionNames(snapshot[i].body)
    decreases |snapshot|
  {
    if i < |snapshot| - 1 {
      UniqueClassTests(snapshot[..|snapshot| - 1], i);
    }
  }

  /** With one class to a name the snapshot is settled, so unchanged is precisely "only additions". */
  lemma UniqueClassesSettle(snapshot: seq<Stmt>)
    requires UniqueClasses(snapshot)
    ensures Settled(snapshot)
  {
    forall i | 0 <= i < |snapshot| && snapshot[i].Class?
      ensures ClassSettled(snapshot[i], ClassTests(snapshot))
    {
      UniqueClassTests(snapshot, i);
    }
  }

  /** Two classes of one name, the second without the first one's test: the file differs from itself. */
  lemma ClashDiffersFromItself()
    ensures var test, a, b := Function("test_a", ""), "T", "";
            !Unchanged([Class(a, b, [test]), Class(a, b, [])], [Class(a, b, [test]), Class(a, b, [])])
  {
    var first, second := Class("T", "", [Function("test_a", "")]), Class("T", "", []);
    var both := [first, second];
    assert both[|both| - 1] == second && FunctionNames(second.body) == {};
    assert ClassTests(both) == ClassTests(both[..1])["T" := {}];
    assert IsNewTest(first.body[0], ClassTests(both)["T"]);
    assert !ClassSettled(both[0], ClassTests(both));
    UnchangedIffInserted(both, both);
  }

  // ----- The added tests -----

  function Methods(owner: string, names: set<string>): set<Qualname> {
    set f | f in names :: Method(owner, f)
  }

  function FunctionsOf(s: Stmt): set<Qualname> {
    match s
    case Function(name, _) => {Top(name)}
    case Class(name, _, body) => Methods(name, FunctionNames(body))
    case _ => {}
  }

  /** `_test_functions`. */
  function TestFunctions(body: seq<Stmt>): set<Qualname> {
    if body == [] then {} else FunctionsOf(body[0]) + TestFunctions(body[1..])
  }

  lemma FunctionNamesFirst(body: seq<Stmt>)
    requires body != []
    ensures FunctionNames(body) == (if body[0].Function? then {body[0].name} else {}) + FunctionNames(body[1..])
  {
    forall x | x in FunctionNames(body[1..])
      ensures x in FunctionNames(body)
    {
      var i :| 0 <= i < |body| - 1 && body[1..][i].Function? && body[1..][i].name == x;
      assert body[i + 1].name == x;
    }
  }

  lemma MethodsUnion(owner: string, a: set<string>, b: set<string>)
    ensures Methods(owner, a + b) == Methods(owner, a) + Methods(owner, b)
  {
  }

  lemma {:induction false} ClassFunctionsSplit(owner: string, body: seq<Stmt>, known: set<string>)
    ensures Methods(owner, FunctionNames(body))
            == Methods(owner, FunctionNames(StripClass(body, known))) + Elements(AddedInClass(owner, body, known))
    ensures forall q :: q in Elements(AddedInClass(owner, body, known))
                        ==> q.Method? && q.owner == owner && q.name !in known && StartsWith(q.name, "test_")
  {
    if body != [] {
      ClassFunctionsSplit(owner, body[1..], known);
      var first := if body[0].Function? then {body[0].name} else {};
      FunctionNamesFirst(body);
      MethodsUnion(owner, first, FunctionNames(body[1..]));
      if IsNewTest(body[0], known) {
        ElementsConcat([Method(owner, body[0].name)], AddedInClass(owner, body[1..], known));
        ElementsOne(Method(owner, body[0].name));
        assert Methods(owner, first) == {Method(owner, body[0].name)} == Elements([Method(owner, body[0].name)]);
      } else {
        var rest := StripClass(body[1..], known);
        assert ([body[0]] + rest)[1..] == rest;
        FunctionNamesFirst([body[0]] + rest);
        MethodsUnion(owner, first, FunctionNames(rest));
        assert [] + AddedInClass(owner, body[1..], known) == AddedInClass(owner, body[1..], known);
      }
    }
  }

  /** A new test: its name begins with `test_` and nothing in the snapshot has it. */
  predicate FreshTest(q: Qualname, known: Known) {
    && StartsWith(q.name, "test_")
    && match q
       case Top(name) => name !in known.top
       case Method(owner, name) => owner in known.classes && name !in known.classes[owner]
  }

  lemma FunctionsSplitOne(s: Stmt, known: Known, taken: set<string>)
    ensures FunctionsOf(s)
            == (if Addable(s, known, taken) then {} else FunctionsOf(KeptPart(s, known))) + Elements(AddedBy(s, known))
    ensures forall q :: q in Elements(AddedBy(s, known)) ==> FreshTest(q, known)
  {
    if s.Class? && s.name in known.classes {
      ClassFunctionsSplit(s.name, s.body, known.classes[s.name]);
    } else if s.Function? && Addable(s, known, taken) {
      assert AddedBy(s, known)[0] == Top(s.name);
    }
  }

  lemma {:induction false} FunctionsSplit(body: seq<Stmt>, known: Known, taken: set<string>)
    ensures TestFunctions(body) == TestFunctions(Strip(body, known, taken)) + Elements(Added(body, known))
    ensures forall q :: q in Elements(Added(body, known)) ==> FreshTest(q, known)
  {
    if body != [] {
      var drop := Addable(body[0], known, taken);
      var more := if drop then Take(body[0], taken) else taken;
      var rest := Strip(body[1..], known, more);
      FunctionsSplitOne(body[0], known, taken);
      FunctionsSplit(body[1..], known, more);
      ElementsConcat(AddedBy(body[0], known), Added(body[1..], known));
      if !drop {
        assert ([KeptPart(body[0], known)] + rest)[1..] == rest;
      }
    }
  }

  lemma {:induction false} OldFunctionIsKnown(body: seq<Stmt>, known: Known, q: Qualname)
    requires q in TestFunctions(body) && AllSettled(body, known)
    requires FunctionNames(body) <= known.top
    ensures !FreshTest(q, known)
  {
    FunctionNamesFirst(body);
    if q in FunctionsOf(body[0]) {
      if body[0].Class? {
        var i :| 0 <= i < |body[0].body| && body[0].body[i].Function? && body[0].body[i].name == q.name;
        assert !IsNewTest(body[0].body[i], known.classes[q.owner]);
      }
    } else {
      assert forall i :: 0 <= i < |body| - 1 ==> body[1..][i] == body[i + 1];
      OldFunctionIsKnown(body[1..], known, q);
    }
  }

  function QualnameTexts(functions: set<Qualname>): set<string> {
    set q | q in functions :: QualnameText(q)
  }

  /** The report of an unchanged file is in order and names exactly the functions the snapshot does not have. */
  lemma AddedAreTheNewFunctions(snapshot: seq<Stmt>, edited: seq<Stmt>)
    requires Unchanged(snapshot, edited)
    ensures SortedBy(AtMost, Report(edited, snapshot))
    ensures Elements(Report(edited, snapshot)) == QualnameTexts(TestFunctions(edited) - TestFunctions(snapshot))
  {
    var known := KnownOf(snapshot);
    UnchangedIffInserted(snapshot, edited);
    FunctionsSplit(edited, known, Names(snapshot));
    forall q | q in TestFunctions(snapshot)
      ensures !FreshTest(q, known)
    {
      OldFunctionIsKnown(snapshot, known, q);
    }
    assert Elements(Added(edited, known)) == TestFunctions(edited) - TestFunctions(snapshot);
    ReportedTexts(edited, snapshot);
  }

  lemma ReportedTexts(edited: seq<Stmt>, snapshot: seq<Stmt>)
    ensures SortedBy(AtMost, Report(edited, snapshot))
    ensures Elements(Report(edited, snapshot)) == QualnameTexts(Elements(Added(edited, KnownOf(snapshot))))
  {
    var added := Added(edited, KnownOf(snapshot));
    SortedIsAscending(Texts(added));
    SameMembers(Sorted(Texts(added)), Texts(added));
    TextsOfElements(added);
  }

  lemma SameMembers(a: seq<string>, b: seq<string>)
    requires multiset(a) == multiset(b)
    ensures Elements(a) == Elements(b)
  {
    assert forall x :: x in Elements(a) <==> x in multiset(a);
    assert forall x :: x in Elements(b) <==> x in multiset(b);
  }

  lemma TextsOfElements(names: seq<Qualname>)
    ensures Elements(Texts(names)) == QualnameTexts(Elements(names))
  {
    forall t | t in QualnameTexts(Elements(names))
      ensures t in Elements(Texts(names))
    {
      var i :| 0 <= i < |names| && QualnameText(names[i]) == t;
      assert Texts(names)[i] == t;
    }
  }
}
