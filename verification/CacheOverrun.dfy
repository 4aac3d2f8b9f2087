/** How far a directory overruns its cap at most is reached: the bound on its entries is the least there is. */
module CacheOverrun {
  import opened Wrappers
  import opened Cache
  import opened CacheRuns
  import opened Evictions
  import opened Listings
  import opened QuotedText
  import opened Serialize
  import opened Texts

  ghost predicate Reachable(c: Config, s: State) {
    exists states, steps :: Run(c, states, steps) && states[|states| - 1] == s
  }

  lemma StartIsReachable(c: Config)
    ensures Reachable(c, EMPTY)
  {
    assert Run(c, [EMPTY], []);
  }

  lemma RunExtends(c: Config, states: seq<State>, steps: seq<Step>, step: Step)
    requires Run(c, states, steps) && Can(c, states[|states| - 1], step)
    ensures Run(c, states + [After(c, states[|states| - 1], step)], steps + [step])
  {
    var next := After(c, states[|states| - 1], step);
    var longer, more := states + [next], steps + [step];
    forall i | 0 <= i < |more|
      ensures Follow(c, longer[i], more[i], longer[i + 1])
    {
      if i < |steps| {
        assert longer[i] == states[i] && longer[i + 1] == states[i + 1] && more[i] == steps[i];
      } else {
        assert longer[i] == states[|states| - 1] && longer[i + 1] == next && more[i] == step;
      }
    }
  }

  lemma StepIsReachable(c: Config, s: State, step: Step)
    requires Reachable(c, s) && Can(c, s, step)
    ensures Reachable(c, After(c, s, step))
  {
    var states, steps :| Run(c, states, steps) && states[|states| - 1] == s;
    RunExtends(c, states, steps, step);
    assert (states + [After(c, s, step)])[|states|] == After(c, s, step);
  }

  // ----- Moves of one store -----

  const RANDOM := "aaaaaaaa"

  const NO_TROUBLE := Io(Works, true, {}, {}, {})

  predicate OnlyEntries(files: Files) {
    forall n :: n in files ==> IsEntry(n)
  }

  lemma StageOne(c: Config, s: State, id: nat, r: Request, e: Evaluation) returns (staged: State)
    requires Reachable(c, s) && c.Lawful() && c.enabled && c.codec.write(e).Some?
    requires OnlyEntries(s.files) && id !in s.pending
    ensures Reachable(c, staged)
    ensures var temporary := StagingName(Key(c.hash, r), RANDOM);
            && temporary !in s.files && temporary in staged.staged
            && staged.files == s.files[temporary := File(s.now, c.codec.write(e).value)]
    ensures staged.pending == s.pending[id := Pending(r, RANDOM, Staging)]
    ensures staged.log == s.log && staged.leftovers == s.leftovers && staged.forgiven == s.forgiven
  {
    StagingIsNoEntry(c, r, RANDOM);
    StepIsReachable(c, s, Stage(id, r, e, RANDOM));
    staged := After(c, s, Stage(id, r, e, RANDOM));
  }

  lemma PutInPlace(c: Config, staged: State, id: nat, r: Request) returns (s': State)
    requires Reachable(c, staged) && id in staged.pending && staged.pending[id] == Pending(r, RANDOM, Staging)
    requires StagingName(Key(c.hash, r), RANDOM) in staged.files && StagingName(Key(c.hash, r), RANDOM) in staged.staged
    ensures Reachable(c, s')
    ensures s'.files == Replaced(staged.files, StagingName(Key(c.hash, r), RANDOM), NameOf(c, r))
    ensures s'.pending == staged.pending[id := Pending(r, RANDOM, Owing(InPlace(|staged.log|), {}))]
    ensures s'.leftovers == staged.leftovers && s'.forgiven == staged.forgiven
  {
    StepIsReachable(c, staged, Replace(id));
    s' := After(c, staged, Replace(id));
  }

  /** A store stages its file and puts it in place. */
  lemma Place(c: Config, s: State, id: nat, r: Request, e: Evaluation) returns (s': State)
    requires Reachable(c, s) && c.Lawful() && c.enabled && c.codec.write(e).Some?
    requires OnlyEntries(s.files) && id !in s.pending && NameOf(c, r) !in s.files
    ensures Reachable(c, s') && OnlyEntries(s'.files) && s'.files.Keys == s.files.Keys + {NameOf(c, r)}
    ensures s'.pending.Keys == s.pending.Keys + {id} && Marked(s'.pending) == Marked(s.pending)
    ensures Credits(s'.pending) == Credits(s.pending)[id := InPlace(|s.log|)]
    ensures s'.leftovers == s.leftovers && s'.forgiven == s.forgiven
  {
    StagingIsNoEntry(c, r, RANDOM);
    var staged := StageOne(c, s, id, r, e);
    s' := PutInPlace(c, staged, id, r);
    PlacedFiles(s.files, StagingName(Key(c.hash, r), RANDOM), NameOf(c, r), staged.files);
    PlacedPending(s.pending, id, staged.pending[id], s'.pending[id]);
  }

  lemma PlacedFiles(files: Files, temporary: string, name: string, staged: Files)
    requires temporary !in files && temporary in staged && staged == files[temporary := staged[temporary]]
    requires OnlyEntries(files) && IsEntry(name) && temporary != name
    ensures Replaced(staged, temporary, name).Keys == files.Keys + {name}
    ensures OnlyEntries(Replaced(staged, temporary, name))
  {
  }

  lemma PlacedPending(pending: map<nat, Pending>, id: nat, p: Pending, q: Pending)
    requires id !in pending && p.phase.Staging? && q.phase.Owing?
    ensures var after := pending[id := p][id := q];
            && Marked(after) == Marked(pending) && Credits(after) == Credits(pending)[id := q.phase.credit]
            && after.Keys == pending.Keys + {id}
  {
    assert pending[id := p][id := q] == pending[id := q];
    PutMarksNothing(pending, id, q);
    PutCredit(pending, id, q);
  }

  /** A store in place cannot list the directory and ends. */
  lemma GiveUp(c: Config, s: State, id: nat) returns (s': State)
    requires Reachable(c, s) && id in s.pending && s.pending[id].phase.Owing? && s.pending[id].phase.credit.InPlace?
    ensures Reachable(c, s') && s'.files == s.files && s'.pending.Keys == s.pending.Keys - {id}
    ensures Marked(s'.pending) == Marked(s.pending) && Credits(s'.pending) == Credits(s.pending) - {id}
    ensures s'.leftovers == s.leftovers + 1 && s'.forgiven == s.forgiven
  {
    StepIsReachable(c, s, List(id, false));
    s' := After(c, s, List(id, false));
    EndMarksNothing(s.pending, id);
  }

  lemma ListAll(c: Config, s: State, id: nat) returns (listed: State)
    requires Reachable(c, s) && id in s.pending && s.pending[id].phase.Owing? && s.pending[id].phase.credit.InPlace?
    requires OnlyEntries(s.files) && s.leftovers == 0 == s.forgiven
    ensures Reachable(c, listed)
    ensures var credit := Listed(s.pending[id].phase.credit.at, Live(s.files), |s.log|, 0);
            listed == s.(pending := InPhaseNow(s, id, Owing(credit, {})))
  {
    StepIsReachable(c, s, List(id, true));
    listed := After(c, s, List(id, true));
    assert Staged(s.files) == {};
  }

  /** A store in place lists the entries and ranks them. */
  lemma RankAll(c: Config, s: State, id: nat) returns (s': State)
    requires Reachable(c, s) && id in s.pending && s.pending[id].phase.Owing? && s.pending[id].phase.credit.InPlace?
    requires OnlyEntries(s.files) && s.leftovers == 0 == s.forgiven
    ensures Reachable(c, s') && s'.files == s.files && s'.pending.Keys == s.pending.Keys
    ensures Marked(s'.pending) == Marked(s.pending) + Doomed(Live(s.files), s.files, c.cap, NO_TROUBLE)
    ensures Credits(s'.pending) == Credits(s.pending) - {id} && s'.leftovers == 0 == s'.forgiven
  {
    var listed := ListAll(c, s, id);
    StepIsReachable(c, listed, Rank(id, NO_TROUBLE));
    s' := After(c, listed, Rank(id, NO_TROUBLE));
    RankedPending(s, listed, id, Doomed(Live(s.files), s.files, c.cap, NO_TROUBLE));
  }

  lemma RankedPending(s: State, listed: State, id: nat, doomed: set<string>)
    requires id in s.pending && id in listed.pending && listed.pending == s.pending[id := listed.pending[id]]
    requires !Marks(s.pending, id) && listed.pending[id].phase.Owing?
    ensures var after := InPhaseNow(listed, id, Deleting(doomed));
            && Marked(after) == Marked(s.pending) + doomed && Credits(after) == Credits(s.pending) - {id}
            && after.Keys == s.pending.Keys
  {
    PutMarksNothing(s.pending, id, listed.pending[id]);
    RankMarks(listed, id, doomed);
    PutCredit(s.pending, id, listed.pending[id]);
    PutCredit(listed.pending, id, InPhaseNow(listed, id, Deleting(doomed))[id]);
  }

  // ----- Requests that share no file -----

  ghost predicate Apart(req: nat -> Request) {
    forall i, k :: i != k ==> !Same(req(i), req(k))
  }

  /** Every text of the request is `n` letters long. */
  function Lettered(n: nat): Request {
    var t := Letters(n);
    Request(t, t, t, Str(t), Str(t))
  }

  function Letters(n: nat): Text {
    seq(n, _ => 0x61)
  }

  lemma {:induction false} LettersUtf16(n: nat)
    ensures |Utf16(Letters(n))| == n
  {
    if n > 0 {
      assert Letters(n)[1..] == Letters(n - 1);
      LettersUtf16(n - 1);
    }
  }

  /** Whatever its order, the body has a member, and each holds the text. */
  lemma LetteredMembers(n: nat)
    ensures var members := Normal(Body(Lettered(n))).members;
            members != [] && members[0].value == DStr(Utf16(Letters(n)))
  {
    var entries := Body(Lettered(n)).entries;
    PrintedKeysAreDefined(entries);
    assert Keys(entries)[0] == Chars("provider");
    AllLetters(entries, Letters(n), Chars("provider"));
    assert PrintedKeys(entries) != [];
    AllLetters(entries, Letters(n), PrintedKeys(entries)[0]);
  }

  lemma LetteredApart(i: nat, k: nat)
    requires Same(Lettered(i), Lettered(k))
    ensures i == k
  {
    LetteredMembers(i);
    LetteredMembers(k);
    LettersUtf16(i);
    LettersUtf16(k);
  }

  lemma AllLetters(entries: seq<Entry>, t: Text, key: Text)
    requires key in Keys(entries) && forall i :: 0 <= i < |entries| ==> entries[i].value == Str(t)
    ensures Lookup(entries, key) == Str(t)
  {
  }

  /** There are as many requests as one likes that share no file. */
  lemma SomeRequestsAreApart()
    ensures Apart(Lettered)
  {
    forall i, k | i != k
      ensures !Same(Lettered(i), Lettered(k))
    {
      if Same(Lettered(i), Lettered(k)) {
        LetteredApart(i, k);
      }
    }
  }

  // ----- The run that reaches the bound -----

  /** Requests and the names of their entries, all different. */
  ghost predicate Series(c: Config, requests: seq<Request>, names: seq<string>) {
    && |requests| == |names| && Distinct(names)
    && forall i {:trigger IsNameOf(c, requests[i], names[i])} :: 0 <= i < |names| ==> IsNameOf(c, requests[i], names[i])
  }

  predicate IsNameOf(c: Config, r: Request, name: string) {
    name == NameOf(c, r) && IsEntry(name)
  }

  lemma SomeSeries(c: Config, req: nat -> Request, n: nat) returns (requests: seq<Request>, names: seq<string>)
    requires c.Lawful() && Apart(req)
    ensures Series(c, requests, names) && |names| == n
  {
    requests := seq(n, i requires 0 <= i < n => req(i));
    names := seq(n, i requires 0 <= i < n => NameOf(c, requests[i]));
    forall i | 0 <= i < n
      ensures IsNameOf(c, requests[i], names[i])
    {
      StagingIsNoEntry(c, requests[i], RANDOM);
    }
    forall i, k | 0 <= i < k < n
      ensures names[i] != names[k]
    {
      KeysAgreeIff(c.hash, requests[i], requests[k]);
    }
  }

  predicate IdsBelow(pending: map<nat, Pending>, n: nat) {
    forall id :: id in pending ==> id < n
  }

  predicate AllInPlace(credits: map<nat, Credit>) {
    forall id :: id in credits ==> credits[id].InPlace?
  }

  /** The first `n` stores have put their files in place; so many have not ranked, these entries are marked, and so many
      are left behind. */
  ghost predicate Stands(c: Config, names: seq<string>, s: State, n: nat, unranked: nat, marked: set<string>, left: nat)
  {
    && n <= |names| && Reachable(c, s) && s.files.Keys == Elements(names[..n]) && OnlyEntries(s.files)
    && IdsBelow(s.pending, n) && |Credits(s.pending).Keys| == unranked && AllInPlace(Credits(s.pending))
    && Marked(s.pending) == marked && s.leftovers == left && s.forgiven == 0
  }

  lemma NextIsFree(names: seq<string>, n: nat)
    requires Distinct(names) && n < |names|
    ensures names[n] !in Elements(names[..n])
    ensures Elements(names[..n + 1]) == Elements(names[..n]) + {names[n]}
  {
    assert names[..n + 1] == names[..n] + [names[n]];
    ElementsConcat(names[..n], [names[n]]);
    ElementsOne(names[n]);
  }

  lemma CreditAdded(pending: map<nat, Pending>, after: map<nat, Credit>, id: nat, at: nat)
    requires id !in pending && AllInPlace(Credits(pending)) && after == Credits(pending)[id := InPlace(at)]
    ensures AllInPlace(after) && |after.Keys| == |Credits(pending).Keys| + 1
  {
    assert after.Keys == Credits(pending).Keys + {id};
  }

  lemma CreditGone(before: map<nat, Credit>, after: map<nat, Credit>, id: nat)
    requires AllInPlace(before) && id in before && after == before - {id}
    ensures AllInPlace(after) && |after.Keys| == |before.Keys| - 1
  {
    assert before.Keys == after.Keys + {id};
  }

  lemma SomeUnranked(credits: map<nat, Credit>) returns (id: nat)
    requires |credits.Keys| > 0
    ensures id in credits
  {
    id :| id in credits.Keys;
  }

  /** One more store puts its file in place. */
  lemma PlaceNext(c: Config, requests: seq<Request>, names: seq<string>, e: Evaluation, s: State, n: nat, unranked: nat,
                  marked: set<string>, left: nat) returns (s': State)
    requires c.Lawful() && c.enabled && c.codec.write(e).Some? && Series(c, requests, names) && n < |names|
    requires Stands(c, names, s, n, unranked, marked, left)
    ensures Stands(c, names, s', n + 1, unranked + 1, marked, left)
  {
    NextIsFree(names, n);
    assert IsNameOf(c, requests[n], names[n]);
    s' := Place(c, s, n, requests[n], e);
    CreditAdded(s.pending, Credits(s'.pending), n, |s.log|);
  }

  lemma {:induction false} PlaceMany(c: Config, requests: seq<Request>, names: seq<string>, e: Evaluation, s: State,
                                     n: nat, marked: set<string>, left: nat, more: nat) returns (s': State)
    requires c.Lawful() && c.enabled && c.codec.write(e).Some? && Series(c, requests, names) && n + more <= |names|
    requires Stands(c, names, s, n, 0, marked, left)
    ensures Stands(c, names, s', n + more, more, marked, left)
    decreases more
  {
    if more == 0 {
      s' := s;
    } else {
      var before := PlaceMany(c, requests, names, e, s, n, marked, left, more - 1);
      s' := PlaceNext(c, requests, names, e, before, n + more - 1, more - 1, marked, left);
    }
  }

  lemma GiveUpNext(c: Config, names: seq<string>, s: State, n: nat, unranked: nat, marked: set<string>, left: nat)
    returns (s': State)
    requires Stands(c, names, s, n, unranked, marked, left) && unranked > 0
    ensures Stands(c, names, s', n, unranked - 1, marked, left + 1)
  {
    var id := SomeUnranked(Credits(s.pending));
    s' := GiveUp(c, s, id);
    CreditGone(Credits(s.pending), Credits(s'.pending), id);
  }

  lemma {:induction false} GiveUpMany(c: Config, names: seq<string>, s: State, n: nat, unranked: nat,
                                      marked: set<string>, left: nat) returns (s': State)
    requires Stands(c, names, s, n, unranked, marked, left)
    ensures Stands(c, names, s', n, 0, marked, left + unranked)
    decreases unranked
  {
    if unranked == 0 {
      s' := s;
    } else {
      var next := GiveUpNext(c, names, s, n, unranked, marked, left);
      s' := GiveUpMany(c, names, next, n, unranked - 1, marked, left + 1);
    }
  }

  function AllDoomed(c: Config, files: Files): set<string> {
    Doomed(Live(files), files, c.cap, NO_TROUBLE)
  }

  lemma RankNext(c: Config, names: seq<string>, s: State, n: nat, unranked: nat, marked: set<string>)
    returns (s': State)
    requires Stands(c, names, s, n, unranked, marked, 0) && unranked > 0
    ensures Stands(c, names, s', n, unranked - 1, marked + AllDoomed(c, s.files), 0) && s'.files == s.files
  {
    var id := SomeUnranked(Credits(s.pending));
    s' := RankAll(c, s, id);
    CreditGone(Credits(s.pending), Credits(s'.pending), id);
  }

  /** Stores that list the same entries mark the same ones. */
  lemma {:induction false} RankMany(c: Config, names: seq<string>, s: State, n: nat, unranked: nat,
                                    marked: set<string>) returns (s': State)
    requires Stands(c, names, s, n, unranked, marked, 0)
    ensures Stands(c, names, s', n, 0, if unranked == 0 then marked else marked + AllDoomed(c, s.files), 0)
    ensures s'.files == s.files
    decreases unranked
  {
    if unranked == 0 {
      s' := s;
    } else {
      var doomed := AllDoomed(c, s.files);
      var next := RankNext(c, names, s, n, unranked, marked);
      s' := RankMany(c, names, next, n, unranked - 1, marked + doomed);
      assert (marked + doomed) + doomed == marked + doomed;
    }
  }

  lemma EntriesAreLive(c: Config, names: seq<string>, s: State, n: nat, unranked: nat, marked: set<string>, left: nat)
    requires Distinct(names) && Stands(c, names, s, n, unranked, marked, left)
    ensures Live(s.files) == Elements(names[..n]) && |Live(s.files)| == n
  {
    DistinctCount(names[..n]);
  }

  lemma NothingYet(c: Config, names: seq<string>)
    ensures Stands(c, names, EMPTY, 0, 0, {}, 0)
  {
    StartIsReachable(c);
    assert Marked(EMPTY.pending) == {} && Credits(EMPTY.pending) == map[];
    assert Elements(names[..0]) == {};
  }

  lemma DoomedExcess(c: Config, files: Files, count: nat)
    requires c.cap > 0 && |Live(files)| == c.cap + count
    ensures |AllDoomed(c, files)| == count && AllDoomed(c, files) <= Live(files)
  {
    DoomedCount(Live(files), files, c.cap, NO_TROUBLE);
    assert Live(files) == AllDoomed(c, files) + (Live(files) - AllDoomed(c, files));
  }

  lemma FillMany(c: Config, requests: seq<Request>, names: seq<string>, e: Evaluation, n: nat) returns (s: State)
    requires c.Lawful() && c.enabled && c.codec.write(e).Some? && Series(c, requests, names) && n <= |names|
    ensures Stands(c, names, s, n, n, {}, 0)
  {
    NothingYet(c, names);
    s := PlaceMany(c, requests, names, e, EMPTY, 0, {}, 0, n);
  }

  lemma MarkExcess(c: Config, names: seq<string>, placed: State, count: nat) returns (s: State, marked: set<string>)
    requires c.cap > 0 && Distinct(names) && Stands(c, names, placed, c.cap + count, c.cap + count, {}, 0)
    ensures |marked| == count && marked <= Elements(names[..c.cap + count])
    ensures Stands(c, names, s, c.cap + count, 0, marked, 0)
  {
    var n := c.cap + count;
    s := RankMany(c, names, placed, n, n, {});
    EntriesAreLive(c, names, placed, n, n, {}, 0);
    DoomedExcess(c, placed.files, count);
    marked := {} + AllDoomed(c, placed.files);
  }

  /** The cap is filled and overrun by as many entries as are to be marked, and every store so far has ranked. */
  lemma MarkMany(c: Config, requests: seq<Request>, names: seq<string>, e: Evaluation, count: nat)
    returns (s: State, marked: set<string>)
    requires c.Lawful() && c.enabled && c.cap > 0 && c.codec.write(e).Some? && Series(c, requests, names)
    requires c.cap + count <= |names|
    ensures |marked| == count && marked <= Elements(names[..c.cap + count])
    ensures Stands(c, names, s, c.cap + count, 0, marked, 0)
  {
    var placed := FillMany(c, requests, names, e, c.cap + count);
    s, marked := MarkExcess(c, names, placed, count);
  }

  /** A state with that many stores not ranked yet, entries marked, and entries left behind. */
  ghost predicate Counts(s: State, unranked: nat, marked: nat, left: nat) {
    && |Credits(s.pending).Keys| == unranked && |Marked(s.pending) * Live(s.files)| == marked
    && s.leftovers - s.forgiven == left
  }

  lemma StandsCounts(c: Config, names: seq<string>, s: State, n: nat, unranked: nat, marked: set<string>, left: nat)
    requires Distinct(names) && Stands(c, names, s, n, unranked, marked, left) && marked <= Elements(names[..n])
    ensures Counts(s, unranked, |marked|, left) && |Live(s.files)| == n
  {
    EntriesAreLive(c, names, s, n, unranked, marked, left);
    assert marked * Live(s.files) == marked;
  }

  lemma ElementsGrow(names: seq<string>, n: nat, m: nat)
    requires n <= m <= |names|
    ensures Elements(names[..n]) <= Elements(names[..m])
  {
    assert names[..m] == names[..n] + names[n..m];
    ElementsConcat(names[..n], names[n..m]);
  }

  /** Some more stores put their files in place and cannot list the directory. */
  lemma LeaveMany(c: Config, requests: seq<Request>, names: seq<string>, e: Evaluation, s: State, n: nat,
                  marked: set<string>, more: nat) returns (s': State)
    requires c.Lawful() && c.enabled && c.codec.write(e).Some? && Series(c, requests, names) && n + more <= |names|
    requires Stands(c, names, s, n, 0, marked, 0)
    ensures Stands(c, names, s', n + more, 0, marked, more)
  {
    var placed := PlaceMany(c, requests, names, e, s, n, marked, 0, more);
    s' := GiveUpMany(c, names, placed, n + more, more, marked, 0);
  }

  /** For every cap and all three numbers some run reaches the bound exactly. */
  lemma BoundIsReached(c: Config, req: nat -> Request, e: Evaluation, unranked: nat, marked: nat, left: nat)
    returns (s: State)
    requires c.Lawful() && c.enabled && c.cap > 0 && c.codec.write(e).Some? && Apart(req)
    ensures Reachable(c, s) && Counts(s, unranked, marked, left)
    ensures |Live(s.files)| == c.cap + unranked + marked + left
  {
    var n, m := c.cap + marked, c.cap + marked + left;
    var requests, names := SomeSeries(c, req, m + unranked);
    var one, doomed := MarkMany(c, requests, names, e, marked);
    var two := LeaveMany(c, requests, names, e, one, n, doomed, left);
    s := PlaceMany(c, requests, names, e, two, m, doomed, left, unranked);
    ElementsGrow(names, n, m + unranked);
    StandsCounts(c, names, s, m + unranked, unranked, doomed, left);
  }

  lemma ReachableIsBounded(c: Config, s: State)
    requires c.Lawful() && c.cap > 0 && Reachable(c, s)
    ensures |Live(s.files)| <= c.cap + |Credits(s.pending).Keys| + |Marked(s.pending) * Live(s.files)|
                               + s.leftovers - s.forgiven
  {
    var states, steps :| Run(c, states, steps) && states[|states| - 1] == s;
    EntriesAreBounded(c, states, steps, |states| - 1);
  }

  /** A directory can hold so many entries more than its cap if and only if the stores that have not ranked, the entries
      marked and those left behind are as many together. */
  lemma OverrunIff(c: Config, req: nat -> Request, e: Evaluation, unranked: nat, marked: nat, left: nat, excess: nat)
    requires c.Lawful() && c.enabled && c.cap > 0 && c.codec.write(e).Some? && Apart(req)
    ensures (exists s :: Reachable(c, s) && Counts(s, unranked, marked, left) && |Live(s.files)| >= c.cap + excess)
            <==> excess <= unranked + marked + left
  {
    if s :| Reachable(c, s) && Counts(s, unranked, marked, left) && |Live(s.files)| >= c.cap + excess {
      ReachableIsBounded(c, s);
    }
    if excess <= unranked + marked + left {
      var s := BoundIsReached(c, req, e, unranked, marked, left);
    }
  }
}
