/** Safe, unique ids: sanitizing, and the suffix search that cannot run out of candidates. */
module Ids {
  import opened DecimalText
  import opened Dicts
  import opened Listings
  import opened Wrappers

  const MAX_ID_LENGTH := 64

  predicate Safe(c: char) {
    'A' <= c <= 'Z' || 'a' <= c <= 'z' || '0' <= c <= '9' || c == '_' || c == '.' || c == '-'
  }

  predicate AllSafe(s: string) {
    forall i :: 0 <= i < |s| ==> Safe(s[i])
  }

  // ----- sanitize_id -----

  function DropUnsafe(s: string): (r: string)
    ensures |r| <= |s|
  {
    if s != "" && !Safe(s[0]) then DropUnsafe(s[1..]) else s
  }

  /** Each run of unsafe characters becomes one underscore. */
  function Collapse(s: string): (r: string)
    ensures AllSafe(r)
    decreases |s|
  {
    if s == "" then ""
    else if Safe(s[0]) then [s[0]] + Collapse(s[1..])
    else "_" + Collapse(DropUnsafe(s[1..]))
  }

  function StripLeft(s: string): (r: string)
    ensures r != "" ==> r[0] != '_'
    ensures AllSafe(s) ==> AllSafe(r)
  {
    if s != "" && s[0] == '_' then StripLeft(s[1..]) else s
  }

  function StripRight(s: string): (r: string)
    ensures r != "" ==> s != "" && r[0] == s[0] && r[|r| - 1] != '_'
    ensures AllSafe(s) ==> AllSafe(r)
  {
    if s == "" then ""
    else
      assert AllSafe(s) ==> AllSafe(s[1..]) && Safe(s[0]);
      var tail := StripRight(s[1..]);
      if tail == "" && s[0] == '_' then "" else [s[0]] + tail
  }

  function Cut(s: string): string {
    if |s| <= MAX_ID_LENGTH then s else s[..MAX_ID_LENGTH]
  }

  function Sanitize(raw: string): string {
    Cut(StripRight(StripLeft(Collapse(raw))))
  }

  predicate NoEdgeUnderscore(s: string) {
    s != "" ==> s[0] != '_' && s[|s| - 1] != '_'
  }

  lemma {:induction false} CollapseKeeps(s: string)
    ensures Collapse(s) == s <==> AllSafe(s)
    decreases |s|
  {
    if s != "" && Safe(s[0]) {
      CollapseKeeps(s[1..]);
      assert s == [s[0]] + s[1..];
      assert AllSafe(s) <==> AllSafe(s[1..]);
    }
  }

  lemma {:induction false} StripRightKeeps(s: string)
    ensures s == "" || s[|s| - 1] != '_' ==> StripRight(s) == s
  {
    if |s| > 1 {
      StripRightKeeps(s[1..]);
    }
  }

  /** What a caller may send and get back unchanged. */
  lemma SanitizeFixesIff(s: string)
    ensures Sanitize(s) == s <==> AllSafe(s) && |s| <= MAX_ID_LENGTH && NoEdgeUnderscore(s)
  {
    CollapseKeeps(s);
    if AllSafe(s) {
      StripRightKeeps(s);
      if |s| <= MAX_ID_LENGTH && NoEdgeUnderscore(s) {
        assert StripLeft(s) == s;
      }
      if Sanitize(s) == s && s != "" {
        StripShrinks(s);
      }
    } else {
      SanitizedIsSafe(s);
    }
  }

  /** Stripping gives back a string of the same length only if there was nothing to strip. */
  lemma StripShrinks(s: string)
    ensures |StripRight(StripLeft(s))| <= |s|
    ensures |StripRight(StripLeft(s))| == |s| ==> NoEdgeUnderscore(s)
  {
    StripLeftShrinks(s);
    StripRightShrinks(StripLeft(s));
  }

  lemma {:induction false} StripLeftShrinks(s: string)
    ensures |StripLeft(s)| <= |s| && (|StripLeft(s)| == |s| ==> StripLeft(s) == s)
  {
    if s != "" && s[0] == '_' {
      StripLeftShrinks(s[1..]);
    }
  }

  lemma {:induction false} StripRightShrinks(s: string)
    ensures |StripRight(s)| <= |s| && (|StripRight(s)| == |s| ==> StripRight(s) == s)
  {
    if s != "" {
      StripRightShrinks(s[1..]);
      assert s == [s[0]] + s[1..];
    }
  }

  lemma SanitizedIsSafe(raw: string)
    ensures AllSafe(Sanitize(raw)) && |Sanitize(raw)| <= MAX_ID_LENGTH
    ensures Sanitize(raw) != "" ==> Sanitize(raw)[0] != '_'
  {
  }

  /** Sanitizing twice changes nothing exactly when the cut did not leave a trailing underscore. */
  lemma SanitizeIdempotentIff(raw: string)
    ensures var id := Sanitize(raw);
            Sanitize(id) == id <==> (id != "" ==> id[|id| - 1] != '_')
  {
    SanitizedIsSafe(raw);
    SanitizeFixesIff(Sanitize(raw));
  }

  /** 63 letters, an underscore and a letter: the cut keeps the underscore, and a second pass strips it. */
  lemma CutLeavesUnderscore()
    ensures var raw := seq(63, _ => 'a') + "_b";
            Sanitize(raw) == seq(63, _ => 'a') + "_" && Sanitize(Sanitize(raw)) != Sanitize(raw)
  {
    var letters := seq(63, _ => 'a');
    var raw := letters + "_b";
    CollapseKeeps(raw);
    StripRightKeeps(raw);
    assert StripLeft(raw) == raw;
    assert raw[..MAX_ID_LENGTH] == letters + "_";
    SanitizeIdempotentIff(raw);
  }

  // ----- The suffix search -----

  function Candidate(base: string, k: nat): string {
    if k == 0 then base else base + "_" + StringOf(k)
  }

  lemma CandidatesDiffer(base: string, j: nat, k: nat)
    requires Candidate(base, j) == Candidate(base, k)
    ensures j == k
  {
    if j > 0 && k > 0 {
      assert Candidate(base, j)[|base| + 1..] == StringOf(j);
      assert Candidate(base, k)[|base| + 1..] == StringOf(k);
      StringOfInjective(j, k);
    } else {
      assert forall n: nat :: n > 0 ==> |Candidate(base, n)| > |base|;
    }
  }

  /** The first candidate that is not used yet. */
  predicate FirstFree(id: string, base: string, used: set<string>, k: nat) {
    && id == Candidate(base, k) && id !in used
    && forall j :: 0 <= j < k ==> Candidate(base, j) in used
  }

  function Tried(base: string, n: nat): set<string> {
    if n == 0 then {} else Tried(base, n - 1) + {Candidate(base, n - 1)}
  }

  lemma {:induction false} TriedCount(base: string, n: nat)
    ensures |Tried(base, n)| == n
    ensures forall c :: c in Tried(base, n) ==> exists j :: 0 <= j < n && c == Candidate(base, j)
  {
    if n > 0 {
      TriedCount(base, n - 1);
      if Candidate(base, n - 1) in Tried(base, n - 1) {
        var j :| 0 <= j < n - 1 && Candidate(base, n - 1) == Candidate(base, j);
        CandidatesDiffer(base, j, n - 1);
      }
    }
  }

  lemma TriedSize(base: string, n: nat, used: set<string>)
    requires Tried(base, n) <= used
    ensures n <= |used|
  {
    TriedCount(base, n);
    SubsetSize(Tried(base, n), used);
  }

  /** The search finds the first free candidate and tries no more used ones than there are used ids. */
  method FindFree(base: string, used: set<string>) returns (id: string)
    ensures exists k :: 0 <= k <= |used| && FirstFree(id, base, used, k)
  {
    id := base;
    var suffix := 1;
    while id in used
      invariant suffix >= 1 && id == Candidate(base, suffix - 1)
      invariant forall j :: 0 <= j < suffix - 1 ==> Candidate(base, j) in used
      invariant Tried(base, suffix - 1) <= used
      decreases |used| - suffix
    {
      TriedSize(base, suffix, used);
      id := base + "_" + StringOf(suffix);
      suffix := suffix + 1;
    }
    TriedSize(base, suffix - 1, used);
    assert FirstFree(id, base, used, suffix - 1);
  }

  // ----- ensure_unique_ids -----

  /** An item's id: the empty string stands for a missing, null or non-string one. */
  type RawId = string

  function Base(raw: RawId, prefix: string, index: nat): string {
    if Sanitize(raw) != "" then Sanitize(raw) else prefix + StringOf(index)
  }

  function Used(ids: seq<string>): set<string> {
    set id | id in ids
  }

  /** Item `i` got the first free candidate of its own base. */
  ghost predicate AssignedAt(raws: seq<RawId>, prefix: string, ids: seq<string>, i: nat)
    requires i < |ids| && i < |raws|
  {
    exists k :: FirstFree(ids[i], Base(raws[i], prefix, i), Used(ids[..i]), k)
  }

  ghost predicate AssignedSoFar(raws: seq<RawId>, prefix: string, ids: seq<string>) {
    |ids| <= |raws| && forall i :: 0 <= i < |ids| ==> AssignedAt(raws, prefix, ids, i)
  }

  ghost predicate Assigned(raws: seq<RawId>, prefix: string, ids: seq<string>) {
    |ids| == |raws| && AssignedSoFar(raws, prefix, ids)
  }

  /** The renames of the first `n` items; a later item with the same id replaces an earlier entry. */
  function Renames(raws: seq<RawId>, ids: seq<string>, n: nat): map<string, string>
    requires n <= |raws| && n <= |ids|
  {
    if n == 0 then map[]
    else
      var before := Renames(raws, ids, n - 1);
      if raws[n - 1] != "" && raws[n - 1] != ids[n - 1] then before[raws[n - 1] := ids[n - 1]] else before
  }

  lemma AppendKeepsAssigned(raws: seq<RawId>, prefix: string, ids: seq<string>, id: string, i: nat)
    requires i < |ids| && i < |raws| && AssignedAt(raws, prefix, ids, i)
    ensures AssignedAt(raws, prefix, ids + [id], i)
  {
    assert (ids + [id])[..i] == ids[..i];
    var k :| FirstFree(ids[i], Base(raws[i], prefix, i), Used(ids[..i]), k);
    assert FirstFree((ids + [id])[i], Base(raws[i], prefix, i), Used((ids + [id])[..i]), k);
  }

  lemma AppendAssigns(raws: seq<RawId>, prefix: string, ids: seq<string>, id: string)
    requires AssignedSoFar(raws, prefix, ids) && |ids| < |raws|
    requires exists k :: FirstFree(id, Base(raws[|ids|], prefix, |ids|), Used(ids), k)
    ensures AssignedSoFar(raws, prefix, ids + [id])
  {
    var n, longer := |ids|, ids + [id];
    forall i | 0 <= i < n
      ensures AssignedAt(raws, prefix, longer, i)
    {
      AppendKeepsAssigned(raws, prefix, ids, id, i);
    }
    assert longer[..n] == ids;
    var k :| FirstFree(id, Base(raws[n], prefix, n), Used(ids), k);
    assert FirstFree(longer[n], Base(raws[n], prefix, n), Used(longer[..n]), k);
  }

  lemma AppendRenames(raws: seq<RawId>, ids: seq<string>, id: string)
    requires |ids| < |raws|
    ensures var before, raw := Renames(raws, ids, |ids|), raws[|ids|];
            Renames(raws, ids + [id], |ids| + 1) == if raw != "" && raw != id then before[raw := id] else before
  {
    AppendKeepsRenames(raws, ids, id, |ids|);
  }

  lemma {:induction false} AppendKeepsRenames(raws: seq<RawId>, ids: seq<string>, id: string, n: nat)
    requires n <= |raws| && n <= |ids|
    ensures Renames(raws, ids + [id], n) == Renames(raws, ids, n)
  {
    if n > 0 {
      AppendKeepsRenames(raws, ids, id, n - 1);
    }
  }

  lemma AppendUses(ids: seq<string>, id: string)
    ensures Used(ids + [id]) == Used(ids) + {id}
  {
  }

  /** What an item holds under a key: text, or something that is no `str`. */
  datatype Value<T> = Text(text: string) | Other(value: T)

  type Item<T> = Dict<Value<T>>

  function RawOf<T>(item: Item<T>): RawId {
    var raw := Get(item, "id");
    if raw.Some? && raw.value.Text? then raw.value.text else ""
  }

  function RawIds<T>(items: seq<Item<T>>): seq<RawId> {
    seq(|items|, i requires 0 <= i < |items| => RawOf(items[i]))
  }

  /** `{**item, "id": id}`. */
  function WithId<T>(item: Item<T>, id: string): Item<T> {
    Put(item, "id", Text(id))
  }

  ghost predicate CopiesSoFar<T>(items: seq<Item<T>>, ids: seq<string>, out: seq<Item<T>>) {
    |out| == |ids| <= |items| && forall i :: 0 <= i < |out| ==> out[i] == WithId(items[i], ids[i])
  }

  lemma AppendCopies<T>(items: seq<Item<T>>, ids: seq<string>, out: seq<Item<T>>, id: string)
    requires CopiesSoFar(items, ids, out) && |out| < |items|
    ensures CopiesSoFar(items, ids + [id], out + [WithId(items[|out|], id)])
  {
  }

  method EnsureUniqueIds<T>(items: seq<Item<T>>, prefix: string)
    returns (out: seq<Item<T>>, renamed: map<string, string>)
    ensures |out| == |items| && forall i :: 0 <= i < |items| ==> out[i] == WithId(items[i], RawIds(out)[i])
    ensures Assigned(RawIds(items), prefix, RawIds(out))
    ensures renamed == Renames(RawIds(items), RawIds(out), |items|)
  {
    var used: set<string> := {};
    renamed := map[];
    out := [];
    ghost var raws, ids := RawIds(items), [];
    for index := 0 to |items|
      invariant |ids| == index && used == Used(ids)
      invariant CopiesSoFar(items, ids, out)
      invariant AssignedSoFar(raws, prefix, ids)
      invariant renamed == Renames(raws, ids, index)
    {
      var rawId := RawOf(items[index]);
      var sanitized := Sanitize(rawId);
      var base := if sanitized != "" then sanitized else prefix + StringOf(index);
      var newId := FindFree(base, used);
      NextAssigns(raws, prefix, ids, newId, base, used);
      used := used + {newId};
      if rawId != "" && rawId != newId {
        renamed := renamed[rawId := newId];
      }
      AppendCopies(items, ids, out, newId);
      out := out + [WithId(items[index], newId)];
      ids := ids + [newId];
    }
    CopiesHaveIds(items, ids, out);
  }

  lemma CopiesHaveIds<T>(items: seq<Item<T>>, ids: seq<string>, out: seq<Item<T>>)
    requires CopiesSoFar(items, ids, out) && |ids| == |items|
    ensures RawIds(out) == ids
    ensures forall i :: 0 <= i < |items| ==> out[i] == WithId(items[i], RawIds(out)[i])
  {
    forall i | 0 <= i < |items|
      ensures RawIds(out)[i] == ids[i]
    {
      OnlyTheIdChanges(items[i], ids[i], "id");
    }
  }

  lemma NextAssigns(raws: seq<RawId>, prefix: string, ids: seq<string>, id: string, base: string, used: set<string>)
    requires AssignedSoFar(raws, prefix, ids) && |ids| < |raws|
    requires base == Base(raws[|ids|], prefix, |ids|) && used == Used(ids)
    requires exists k :: 0 <= k <= |used| && FirstFree(id, base, used, k)
    ensures AssignedSoFar(raws, prefix, ids + [id]) && Used(ids + [id]) == used + {id}
    ensures var before, raw := Renames(raws, ids, |ids|), raws[|ids|];
            Renames(raws, ids + [id], |ids| + 1) == if raw != "" && raw != id then before[raw := id] else before
  {
    AppendAssigns(raws, prefix, ids, id);
    AppendRenames(raws, ids, id);
    AppendUses(ids, id);
  }

  /** Under every other key a copy holds what its item held, and its keys keep their places. */
  lemma OnlyTheIdChanges<T>(item: Item<T>, id: string, key: string)
    ensures var copy := WithId(item, id);
            && Get(copy, key) == (if key == "id" then Some(Text(id)) else Get(item, key))
            && RawOf(copy) == id
            && Keys(copy) == if Has(item, "id") then Keys(item) else Keys(item) + ["id"]
  {
    PutGets(item, "id", Text(id), key);
    PutGets(item, "id", Text(id), "id");
  }

  // ----- What the ids promise -----

  lemma AssignedIdsDiffer(raws: seq<RawId>, prefix: string, ids: seq<string>, i: nat, j: nat)
    requires Assigned(raws, prefix, ids) && i < j < |ids|
    ensures ids[i] != ids[j]
  {
    assert AssignedAt(raws, prefix, ids, j);
    assert ids[i] == ids[..j][i];
    assert ids[i] in Used(ids[..j]);
  }

  /** With a safe prefix every id is safe and not empty. */
  lemma AssignedIdsAreSafe(raws: seq<RawId>, prefix: string, ids: seq<string>, i: nat)
    requires |ids| == |raws| && i < |ids| && AssignedAt(raws, prefix, ids, i) && AllSafe(prefix) && prefix != ""
    ensures ids[i] != "" && AllSafe(ids[i])
  {
    SanitizedIsSafe(raws[i]);
    var base := Base(raws[i], prefix, i);
    var k :| FirstFree(ids[i], base, Used(ids[..i]), k);
    assert AllSafe(base) && base != "";
  }

  /** A caller's id is kept exactly when it is safe as sent and not taken by an earlier item. */
  lemma KeepsIdIff(raws: seq<RawId>, prefix: string, ids: seq<string>, i: nat)
    requires |ids| == |raws| && i < |ids| && AssignedAt(raws, prefix, ids, i) && SafeAsSent(raws[i])
    ensures ids[i] == raws[i] <==> raws[i] !in ids[..i]
  {
    var k :| FirstFree(ids[i], raws[i], Used(ids[..i]), k);
    assert Candidate(raws[i], 0) == raws[i];
    if k > 0 {
      assert Candidate(raws[i], 0) in Used(ids[..i]);
    }
  }

  predicate SafeAsSent(raw: RawId) {
    raw != "" && Sanitize(raw) == raw
  }

  predicate TakenBefore(ids: seq<string>, n: nat, id: string)
    requires n <= |ids|
  {
    exists j :: 0 <= j < n && ids[j] == id
  }

  predicate FreeStay(raws: seq<RawId>, ids: seq<string>) {
    |ids| == |raws| && forall i :: 0 <= i < |ids| && !TakenBefore(ids, i, raws[i]) ==> ids[i] == raws[i]
  }

  predicate AllSafeAsSent(raws: seq<RawId>) {
    forall i :: 0 <= i < |raws| ==> SafeAsSent(raws[i])
  }

  lemma {:induction false} DistinctStay(raws: seq<RawId>, ids: seq<string>, i: nat)
    requires FreeStay(raws, ids) && Distinct(raws) && i < |ids|
    ensures ids[i] == raws[i]
    decreases i
  {
    forall j | 0 <= j < i
      ensures ids[j] == raws[j]
    {
      DistinctStay(raws, ids, j);
    }
    assert !TakenBefore(ids, i, raws[i]);
  }

  lemma FreeSafeIdStays(raws: seq<RawId>, prefix: string, ids: seq<string>, i: nat)
    requires Assigned(raws, prefix, ids) && i < |raws| && SafeAsSent(raws[i])
    requires !TakenBefore(ids, i, raws[i])
    ensures ids[i] == raws[i]
  {
    assert AssignedAt(raws, prefix, ids, i);
    KeepsIdIff(raws, prefix, ids, i);
  }

  lemma FreeSafeIdsStay(raws: seq<RawId>, prefix: string, ids: seq<string>)
    requires Assigned(raws, prefix, ids) && AllSafeAsSent(raws)
    ensures FreeStay(raws, ids)
  {
    forall i | 0 <= i < |ids| && !TakenBefore(ids, i, raws[i])
      ensures ids[i] == raws[i]
    {
      FreeSafeIdStays(raws, prefix, ids, i);
    }
  }

  /** Distinct ids that are safe as sent all come back unchanged. */
  lemma SafeDistinctIdsStay(raws: seq<RawId>, prefix: string, ids: seq<string>)
    requires Assigned(raws, prefix, ids) && AllSafeAsSent(raws) && Distinct(raws)
    ensures ids == raws
  {
    FreeSafeIdsStay(raws, prefix, ids);
    forall i | 0 <= i < |ids|
      ensures ids[i] == raws[i]
    {
      DistinctStay(raws, ids, i);
    }
  }

  /** For distinct caller ids the report names exactly the ids that changed, each with what replaced it. */
  lemma {:induction false} RenamesReportChanges(raws: seq<RawId>, ids: seq<string>, n: nat, i: nat)
    requires i < n <= |raws| == |ids| && raws[i] != ""
    requires forall j :: 0 <= j < |raws| && j != i ==> raws[j] != raws[i]
    ensures if raws[i] == ids[i] then raws[i] !in Renames(raws, ids, n)
            else raws[i] in Renames(raws, ids, n) && Renames(raws, ids, n)[raws[i]] == ids[i]
  {
    if n - 1 > i {
      RenamesReportChanges(raws, ids, n - 1, i);
    } else {
      NotRenamed(raws, ids, i, raws[i]);
    }
  }

  lemma {:induction false} NotRenamed(raws: seq<RawId>, ids: seq<string>, n: nat, raw: RawId)
    requires n <= |raws| == |ids| && forall j :: 0 <= j < n ==> raws[j] != raw
    ensures raw !in Renames(raws, ids, n)
  {
    if n > 0 {
      NotRenamed(raws, ids, n - 1, raw);
    }
  }
}
