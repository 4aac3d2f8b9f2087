/** Every run of concurrent stores, lookups, clock changes, crashes and foreign deletions over one cache directory. */
module CacheRuns {
  import opened Wrappers
  import opened Cache
  import opened Evictions
  import opened Listings

  /** An evaluation put in place for a request, and when its file was written. */
  datatype Recorded = Recorded(request: Request, evaluation: Evaluation, time: real)

  /** Where a store under way is: its file is staged; its file is in place and the entries are not ranked yet, with the
      staging files of its listing that it still has to sweep; or it has entries left to delete. */
  datatype Phase = Staging | Owing(credit: Credit, junk: set<string>) | Deleting(left: set<string>)

  datatype Pending = Pending(request: Request, random: string, phase: Phase)

  /** `staged` and `log` are history: what was written to each staging file, and what was put in place, in order.
      `leftovers` counts the entries that stores which ended early or failed to delete have left behind, and
      `forgiven` those of them that a later ranking has made up for. */
  datatype State = State(files: Files, now: real, pending: map<nat, Pending>, staged: map<string, Recorded>,
                         log: seq<Recorded>, leftovers: nat, forgiven: nat)

  /** One store goes through `Stage`, `Replace`, `List`, a `Sweep` for every staging file it has listed, `Rank`, an
      `Evict` for every entry it has marked, and `Done`. */
  datatype Step =
    | Stage(id: nat, request: Request, evaluation: Evaluation, random: string)
    | Replace(id: nat)
    | Abandon(id: nat, cleaned: bool)
    | List(id: nat, listable: bool)
    | Sweep(id: nat, name: string, deleted: bool)
    | Rank(id: nat, io: Io)
    | Evict(id: nat, name: string, deleted: bool)
    | Done(id: nat)
    | Look(request: Request, io: Io)
    | Clock(now: real)
    | Crash(ids: set<nat>)
    | Delete(name: string)

  const EMPTY := State(map[], 0.0, map[], map[], [], 0, 0)

  function Temporary(c: Config, p: Pending): string {
    StagingName(Key(c.hash, p.request), p.random)
  }

  function NameOf(c: Config, r: Request): string {
    LiveName(Key(c.hash, r))
  }

  /** The entries some store is about to delete. */
  function Marked(pending: map<nat, Pending>): set<string> {
    set id, n | id in pending && pending[id].phase.Deleting? && n in pending[id].phase.left :: n
  }

  function Credits(pending: map<nat, Pending>): map<nat, Credit> {
    map id | id in pending && pending[id].phase.Owing? :: pending[id].phase.credit
  }

  /** The entries only these stores are about to delete. */
  function Orphans(s: State, ids: set<nat>): set<string> {
    (Marked(s.pending) - Marked(s.pending - ids)) * Live(s.files)
  }

  predicate Can(c: Config, s: State, step: Step) {
    match step
    case Stage(id, r, e, random) =>
      && c.enabled && id !in s.pending && c.codec.write(e).Some? && IsRandom(random)
      && StagingName(Key(c.hash, r), random) !in s.files
    case Replace(id) =>
      && id in s.pending && s.pending[id].phase.Staging? && Temporary(c, s.pending[id]) in s.files
      && Temporary(c, s.pending[id]) in s.staged
    case Abandon(id, _) => id in s.pending && s.pending[id].phase.Staging?
    case List(id, _) => id in s.pending && s.pending[id].phase.Owing? && s.pending[id].phase.credit.InPlace?
    case Sweep(id, name, _) => id in s.pending && s.pending[id].phase.Owing? && name in s.pending[id].phase.junk
    case Rank(id, _) =>
      && id in s.pending && s.pending[id].phase.Owing? && s.pending[id].phase.credit.Listed?
      && s.pending[id].phase.junk == {}
    case Evict(id, name, _) => id in s.pending && s.pending[id].phase.Deleting? && name in s.pending[id].phase.left
    case Done(id) => id in s.pending && s.pending[id].phase == Deleting({})
    case _ => true
  }

  function Without(files: Files, name: string, deleted: bool): Files {
    if deleted then files - {name} else files
  }

  function InPhaseNow(s: State, id: nat, phase: Phase): map<nat, Pending>
    requires id in s.pending
  {
    s.pending[id := s.pending[id].(phase := phase)]
  }

  function After(c: Config, s: State, step: Step): State
    requires Can(c, s, step)
  {
    match step
    case Stage(id, r, e, random) =>
      var temporary := StagingName(Key(c.hash, r), random);
      s.(files := s.files[temporary := File(s.now, c.codec.write(e).value)],
         pending := s.pending[id := Pending(r, random, Staging)],
         staged := s.staged[temporary := Recorded(r, e, s.now)])
    case Replace(id) =>
      var p := s.pending[id];
      s.(files := Replaced(s.files, Temporary(c, p), NameOf(c, p.request)),
         pending := InPhaseNow(s, id, Owing(InPlace(|s.log|), {})),
         log := s.log + [s.staged[Temporary(c, p)]])
    case Abandon(id, cleaned) =>
      s.(files := Without(s.files, Temporary(c, s.pending[id]), cleaned), pending := s.pending - {id})
    case List(id, listable) =>
      if listable then
        var credit := Listed(s.pending[id].phase.credit.at, Live(s.files), |s.log|, s.leftovers);
        s.(pending := InPhaseNow(s, id, Owing(credit, Staged(s.files))))
      else s.(pending := s.pending - {id}, leftovers := s.leftovers + 1)
    case Sweep(id, name, deleted) =>
      var phase := s.pending[id].phase;
      s.(files := Without(s.files, name, deleted), pending := InPhaseNow(s, id, phase.(junk := phase.junk - {name})))
    case Rank(id, io) =>
      var credit := s.pending[id].phase.credit;
      s.(pending := InPhaseNow(s, id, Deleting(Doomed(credit.names, s.files, c.cap, io))),
         forgiven := if credit.mark > s.forgiven then credit.mark else s.forgiven)
    case Evict(id, name, deleted) =>
      s.(files := Without(s.files, name, deleted),
         pending := InPhaseNow(s, id, Deleting(s.pending[id].phase.left - {name})),
         leftovers := if deleted then s.leftovers else s.leftovers + 1)
    case Done(id) => s.(pending := s.pending - {id})
    case Look(r, io) => s.(files := AfterLookup(c, s.files, r, s.now, io))
    case Clock(now) => s.(now := now)
    case Crash(ids) =>
      s.(pending := s.pending - ids,
         leftovers := s.leftovers + |Credits(s.pending).Keys * ids| + |Orphans(s, ids)|)
    case Delete(name) => s.(files := s.files - {name})
  }

  ghost predicate Run(c: Config, states: seq<State>, steps: seq<Step>) {
    && |states| == |steps| + 1
    && states[0] == EMPTY
    && forall i {:trigger steps[i]} :: 0 <= i < |steps| ==> Follow(c, states[i], steps[i], states[i + 1])
  }

  predicate Follow(c: Config, s: State, step: Step, next: State) {
    Can(c, s, step) && next == After(c, s, step)
  }

  // ----- A store that nothing disturbs -----

  /** The steps one store takes by itself when `io` says what the operating system refuses. */
  predicate Follows(step: Step, id: nat, io: Io) {
    match step
    case Replace(i) => i == id && io.write.Works?
    case Abandon(i, cleaned) => i == id && io.write == NotReplaced(cleaned)
    case List(i, listable) => i == id && listable == io.listable
    case Sweep(i, name, deleted) => i == id && deleted == (name !in io.undeletable)
    case Rank(i, ranked) => i == id && ranked == io
    case Evict(i, name, deleted) => i == id && deleted == (name !in io.undeletable)
    case Done(i) => i == id
    case _ => false
  }

  /** Where these steps of one store lead, if they are its own and each can be taken. */
  function Alone(c: Config, s: State, steps: seq<Step>, id: nat, io: Io): Option<State>
    decreases |steps|
  {
    if steps == [] then Some(s)
    else if !Follows(steps[0], id, io) || !Can(c, s, steps[0]) then None
    else Alone(c, After(c, s, steps[0]), steps[1..], id, io)
  }

  /** How far the files are from those the store found after staging. */
  predicate OnItsWay(c: Config, s: State, id: nat, staged: Files, p: Pending, io: Io)
    requires Temporary(c, p) in staged
  {
    var placed := Replaced(staged, Temporary(c, p), NameOf(c, p.request));
    if id !in s.pending then
      s.files == if io.write.NotReplaced? then Without(staged, Temporary(c, p), io.write.cleaned)
                 else Evicted(placed, c.cap, io)
    else
      && s.pending[id].request == p.request && s.pending[id].random == p.random
      && match s.pending[id].phase
         case Staging => s.files == staged && Temporary(c, p) in s.staged
         case Owing(InPlace(_), junk) => io.write.Works? && junk == {} && s.files == placed
         case Owing(Listed(_, names, _, _), junk) =>
           && io.write.Works? && io.listable && names == Live(placed) && junk <= Staged(placed)
           && s.files == placed - (Staged(placed) - junk - io.undeletable)
         case Deleting(left) =>
           var doomed := Doomed(Live(placed), placed, c.cap, io);
           && io.write.Works? && io.listable && left <= doomed
           && s.files == placed - (Staged(placed) + (doomed - left) - io.undeletable)
  }

  /** Sweeping or deleting one more of `left`. */
  lemma OneRemoved(files: Files, before: set<string>, left: set<string>, name: string, io: Io)
    requires name in left && left <= before
    ensures Without(files - (before - left - io.undeletable), name, name !in io.undeletable)
         == files - (before - (left - {name}) - io.undeletable)
  {
  }

  lemma SweepStaysOnItsWay(c: Config, s: State, step: Step, id: nat, staged: Files, p: Pending, io: Io)
    requires Temporary(c, p) in staged && OnItsWay(c, s, id, staged, p, io)
    requires step.Sweep? && Follows(step, id, io) && Can(c, s, step)
    ensures OnItsWay(c, After(c, s, step), id, staged, p, io)
  {
    var placed := Replaced(staged, Temporary(c, p), NameOf(c, p.request));
    OneRemoved(placed, Staged(placed), s.pending[id].phase.junk, step.name, io);
  }

  lemma RankStaysOnItsWay(c: Config, s: State, step: Step, id: nat, staged: Files, p: Pending, io: Io)
    requires Temporary(c, p) in staged && OnItsWay(c, s, id, staged, p, io)
    requires step.Rank? && Follows(step, id, io) && Can(c, s, step)
    ensures OnItsWay(c, After(c, s, step), id, staged, p, io)
  {
    var placed := Replaced(staged, Temporary(c, p), NameOf(c, p.request));
    var swept := Staged(placed) - {} - io.undeletable;
    var doomed := Doomed(Live(placed), placed, c.cap, io);
    SweepKeepsDoomed(placed, swept, c.cap, io);
    assert Staged(placed) + (doomed - doomed) - io.undeletable == swept;
  }

  lemma EvictStaysOnItsWay(c: Config, s: State, step: Step, id: nat, staged: Files, p: Pending, io: Io)
    requires Temporary(c, p) in staged && OnItsWay(c, s, id, staged, p, io)
    requires step.Evict? && Follows(step, id, io) && Can(c, s, step)
    ensures OnItsWay(c, After(c, s, step), id, staged, p, io)
  {
    var placed := Replaced(staged, Temporary(c, p), NameOf(c, p.request));
    var doomed := Doomed(Live(placed), placed, c.cap, io);
    var left := s.pending[id].phase.left;
    StagedIsNotLive(placed, doomed);
    assert Staged(placed) + (doomed - left) == Staged(placed) + doomed - left;
    assert Staged(placed) + (doomed - (left - {step.name})) == Staged(placed) + doomed - (left - {step.name});
    OneRemoved(placed, Staged(placed) + doomed, left, step.name, io);
  }

  lemma StagedIsNotLive(files: Files, entries: set<string>)
    requires entries <= Live(files)
    ensures Staged(files) !! entries
  {
  }

  lemma StepStaysOnItsWay(c: Config, s: State, step: Step, id: nat, staged: Files, p: Pending, io: Io)
    requires Temporary(c, p) in staged && OnItsWay(c, s, id, staged, p, io)
    requires Follows(step, id, io) && Can(c, s, step)
    ensures OnItsWay(c, After(c, s, step), id, staged, p, io)
  {
    match step
    case Sweep(_, _, _) => SweepStaysOnItsWay(c, s, step, id, staged, p, io);
    case Rank(_, _) => RankStaysOnItsWay(c, s, step, id, staged, p, io);
    case Evict(_, _, _) => EvictStaysOnItsWay(c, s, step, id, staged, p, io);
    case _ =>
  }

  lemma {:induction false} StaysOnItsWay(c: Config, s: State, steps: seq<Step>, id: nat, staged: Files, p: Pending,
                                         io: Io)
    requires Temporary(c, p) in staged && OnItsWay(c, s, id, staged, p, io) && Alone(c, s, steps, id, io).Some?
    ensures OnItsWay(c, Alone(c, s, steps, id, io).value, id, staged, p, io)
    decreases |steps|
  {
    if steps != [] {
      StepStaysOnItsWay(c, s, steps[0], id, staged, p, io);
      StaysOnItsWay(c, After(c, s, steps[0]), steps[1..], id, staged, p, io);
    }
  }

  /** In whatever order one store sweeps and deletes, alone it leaves exactly the files of `store`. */
  lemma StoreIsItsSteps(c: Config, s: State, first: Step, steps: seq<Step>, io: Io)
    requires first.Stage? && Can(c, s, first)
    requires Alone(c, After(c, s, first), steps, first.id, io).Some?
    ensures var end := Alone(c, After(c, s, first), steps, first.id, io).value;
            first.id !in end.pending ==>
              end.files == AfterStore(c, s.files, first.request, first.evaluation, s.now, first.random, io)
  {
    var one := After(c, s, first);
    StaysOnItsWay(c, one, steps, first.id, one.files, one.pending[first.id], io);
  }

  /** Whatever earlier stores left behind, a store that nothing disturbs or refuses ends with at most the cap. */
  lemma UndisturbedStoreKeepsCap(c: Config, s: State, first: Step, steps: seq<Step>, io: Io)
    requires first.Stage? && Can(c, s, first) && c.cap > 0
    requires io.write.Works? && io.listable && io.undeletable == {}
    requires Alone(c, After(c, s, first), steps, first.id, io).Some?
    ensures var end := Alone(c, After(c, s, first), steps, first.id, io).value;
            first.id !in end.pending ==> |Live(end.files)| <= c.cap
  {
    StoreIsItsSteps(c, s, first, steps, io);
    var temporary := StagingName(Key(c.hash, first.request), first.random);
    var staged := After(c, s, first).files;
    EvictionKeepsTheYoungest(Replaced(staged, temporary, NameOf(c, first.request)), c.cap, io);
  }

  predicate Ends(c: Config, s: State, steps: seq<Step>, id: nat, io: Io) {
    Alone(c, s, steps, id, io).Some? && id !in Alone(c, s, steps, id, io).value.pending
  }

  lemma EndsAfterOne(c: Config, s: State, step: Step, steps: seq<Step>, id: nat, io: Io)
    requires Follows(step, id, io) && Can(c, s, step) && Ends(c, After(c, s, step), steps, id, io)
    ensures Ends(c, s, [step] + steps, id, io)
  {
    assert ([step] + steps)[1..] == steps;
  }

  lemma FinishDeleting(c: Config, s: State, id: nat, io: Io) returns (steps: seq<Step>)
    requires id in s.pending && s.pending[id].phase.Deleting?
    ensures Ends(c, s, steps, id, io)
    decreases s.pending[id].phase.left
  {
    var left := s.pending[id].phase.left;
    if left == {} {
      EndsAfterOne(c, s, Done(id), [], id, io);
      steps := [Done(id)] + [];
    } else {
      var name :| name in left;
      var step := Evict(id, name, name !in io.undeletable);
      assert name !in left - {name};
      steps := FinishDeleting(c, After(c, s, step), id, io);
      EndsAfterOne(c, s, step, steps, id, io);
      steps := [step] + steps;
    }
  }

  lemma FinishListed(c: Config, s: State, id: nat, io: Io) returns (steps: seq<Step>)
    requires id in s.pending && s.pending[id].phase.Owing? && s.pending[id].phase.credit.Listed?
    ensures Ends(c, s, steps, id, io)
    decreases s.pending[id].phase.junk
  {
    var junk := s.pending[id].phase.junk;
    var step: Step;
    if junk == {} {
      step := Rank(id, io);
      steps := FinishDeleting(c, After(c, s, step), id, io);
    } else {
      var name :| name in junk;
      assert name !in junk - {name};
      step := Sweep(id, name, name !in io.undeletable);
      steps := FinishListed(c, After(c, s, step), id, io);
    }
    EndsAfterOne(c, s, step, steps, id, io);
    steps := [step] + steps;
  }

  lemma FinishPlaced(c: Config, s: State, id: nat, io: Io) returns (steps: seq<Step>)
    requires id in s.pending && s.pending[id].phase.Owing? && s.pending[id].phase.credit.InPlace?
    ensures Ends(c, s, steps, id, io)
  {
    var step := List(id, io.listable);
    steps := [];
    if io.listable {
      steps := FinishListed(c, After(c, s, step), id, io);
    }
    EndsAfterOne(c, s, step, steps, id, io);
    steps := [step] + steps;
  }

  /** A store whose file is staged can always come to its end by itself. */
  lemma StoreEnds(c: Config, s: State, id: nat, io: Io) returns (steps: seq<Step>)
    requires id in s.pending && s.pending[id].phase.Staging? && !io.write.NotStaged?
    requires Temporary(c, s.pending[id]) in s.files && Temporary(c, s.pending[id]) in s.staged
    ensures Ends(c, s, steps, id, io)
  {
    var step := if io.write.Works? then Replace(id) else Abandon(id, io.write.cleaned);
    steps := [];
    if io.write.Works? {
      steps := FinishPlaced(c, After(c, s, step), id, io);
    }
    EndsAfterOne(c, s, step, steps, id, io);
    steps := [step] + steps;
  }

  /** What was put in place last for this request or one with the same normal form. */
  function LastFor(log: seq<Recorded>, r: Request): Option<Recorded> {
    if log == [] then None
    else if Same(log[|log| - 1].request, r) then Some(log[|log| - 1])
    else LastFor(log[..|log| - 1], r)
  }

  predicate Holds(c: Config, file: File, recorded: Recorded) {
    file == File(recorded.time, file.text) && c.codec.write(recorded.evaluation) == Some(file.text)
  }

  // ----- The invariant -----

  /** The file of a request holds what was stored for it last. */
  ghost predicate EntryIsLast(c: Config, s: State, r: Request) {
    NameOf(c, r) in s.files ==>
      LastFor(s.log, r).Some? && Holds(c, s.files[NameOf(c, r)], LastFor(s.log, r).value)
  }

  /** A staged file holds what was written for the same request, and no store sweeps or evicts the wrong kind. */
  predicate StagedHolds(c: Config, s: State, id: nat)
    requires id in s.pending
  {
    var p := s.pending[id];
    && IsRandom(p.random)
    && (p.phase.Staging? && Temporary(c, p) in s.files ==>
          && Temporary(c, p) in s.staged && Holds(c, s.files[Temporary(c, p)], s.staged[Temporary(c, p)])
          && Same(s.staged[Temporary(c, p)].request, p.request))
  }

  ghost predicate Replays(c: Config, s: State) {
    && (forall r :: EntryIsLast(c, s, r))
    && forall id :: id in s.pending ==> StagedHolds(c, s, id)
  }

  function AccountOf(s: State): Account {
    Account(Live(s.files) - Marked(s.pending), Credits(s.pending), |s.log|, s.leftovers, s.forgiven)
  }

  ghost predicate Bounded(c: Config, s: State) {
    c.cap > 0 ==> Sound(c.cap, AccountOf(s))
  }

  // ----- Steps that only remove files -----

  predicate Fewer(less: Files, files: Files) {
    forall n :: n in less ==> n in files && less[n] == files[n]
  }

  /** Files disappear, and stores end or move on from a phase in which nothing is staged. */
  lemma RemovalKeeps(c: Config, s: State, s': State)
    requires Replays(c, s) && Fewer(s'.files, s.files) && s'.log == s.log && s'.staged == s.staged
    requires forall id :: id in s'.pending ==>
               && id in s.pending && s'.pending[id].request == s.pending[id].request
               && s'.pending[id].random == s.pending[id].random
               && (s'.pending[id].phase.Staging? ==> s.pending[id].phase.Staging?)
    ensures Replays(c, s')
  {
    forall r
      ensures EntryIsLast(c, s', r)
    {
      assert EntryIsLast(c, s, r);
    }
    forall id | id in s'.pending
      ensures StagedHolds(c, s', id)
    {
      assert StagedHolds(c, s, id);
    }
  }

  // ----- Staging -----

  /** A staging name tells the key. */
  lemma StagingTellsKey(c: Config, a: Request, b: Request, x: string, y: string)
    requires c.Lawful() && StagingName(Key(c.hash, a), x) == StagingName(Key(c.hash, b), y)
    ensures Same(a, b)
  {
    var k, l := Key(c.hash, a), Key(c.hash, b);
    assert IsDigest(k) && IsDigest(l);
    KeyInName(k, l, x, y);
    KeysAgreeIff(c.hash, a, b);
  }

  /** The key ends at the first dot after the leading one. */
  lemma KeyInName(k: string, l: string, x: string, y: string)
    requires IsDigest(k) && IsDigest(l) && StagingName(k, x) == StagingName(l, y)
    ensures k == l
  {
    var name := StagingName(k, x);
    assert name[1 + |k|] == '.' && name[1 + |l|] == '.';
    assert name[1..1 + |k|] == k && StagingName(l, y)[1..1 + |l|] == l;
  }

  lemma StagingIsNoEntry(c: Config, r: Request, random: string)
    requires c.Lawful() && IsRandom(random)
    ensures !IsEntry(StagingName(Key(c.hash, r), random))
    ensures forall q :: IsEntry(NameOf(c, q)) && NameOf(c, q) != StagingName(Key(c.hash, r), random)
  {
    assert IsDigest(Key(c.hash, r));
    NamesAreToldApart(Key(c.hash, r), random);
    forall q
      ensures IsEntry(NameOf(c, q))
    {
      assert IsDigest(Key(c.hash, q));
      NamesAreToldApart(Key(c.hash, q), random);
    }
  }

  lemma StageKeeps(c: Config, s: State, step: Step)
    requires c.Lawful() && Replays(c, s) && step.Stage? && Can(c, s, step)
    ensures Replays(c, After(c, s, step))
  {
    var s' := After(c, s, step);
    var temporary := StagingName(Key(c.hash, step.request), step.random);
    StagingIsNoEntry(c, step.request, step.random);
    forall r
      ensures EntryIsLast(c, s', r)
    {
      assert EntryIsLast(c, s, r);
    }
    forall id | id in s'.pending
      ensures StagedHolds(c, s', id)
    {
      if id != step.id {
        assert StagedHolds(c, s, id);
        var p := s.pending[id];
        if Temporary(c, p) == temporary {
          StagingTellsKey(c, step.request, p.request, step.random, p.random);
        }
      }
    }
  }

  // ----- Replacing -----

  lemma LastAppended(log: seq<Recorded>, last: Recorded, r: Request)
    ensures LastFor(log + [last], r) == if Same(last.request, r) then Some(last) else LastFor(log, r)
  {
    assert (log + [last])[..|log|] == log;
  }

  lemma ReplaceKeepsEntries(c: Config, s: State, step: Step, r: Request)
    requires c.Lawful() && Replays(c, s) && step.Replace? && Can(c, s, step)
    ensures EntryIsLast(c, After(c, s, step), r)
  {
    var p := s.pending[step.id];
    var last := s.staged[Temporary(c, p)];
    assert StagedHolds(c, s, step.id);
    assert EntryIsLast(c, s, r);
    StagingIsNoEntry(c, p.request, p.random);
    LastAppended(s.log, last, r);
    KeysAgreeIff(c.hash, p.request, r);
  }

  lemma ReplaceKeeps(c: Config, s: State, step: Step)
    requires c.Lawful() && Replays(c, s) && step.Replace? && Can(c, s, step)
    ensures Replays(c, After(c, s, step))
  {
    var s' := After(c, s, step);
    forall r
      ensures EntryIsLast(c, s', r)
    {
      ReplaceKeepsEntries(c, s, step, r);
    }
    forall id | id in s'.pending
      ensures StagedHolds(c, s', id)
    {
      assert StagedHolds(c, s, id);
      StagingIsNoEntry(c, s.pending[id].request, s.pending[id].random);
    }
  }

  lemma StepReplays(c: Config, s: State, step: Step)
    requires c.Lawful() && Replays(c, s) && Can(c, s, step)
    ensures Replays(c, After(c, s, step))
  {
    match step
    case Stage(_, _, _, _) => StageKeeps(c, s, step);
    case Replace(_) => ReplaceKeeps(c, s, step);
    case _ => RemovalKeeps(c, s, After(c, s, step));
  }

  // ----- Counting -----

  predicate Marks(pending: map<nat, Pending>, id: nat) {
    id in pending && pending[id].phase.Deleting? && pending[id].phase.left != {}
  }

  /** Nobody has marked more than before. */
  lemma MarksCarryOver(before: map<nat, Pending>, after: map<nat, Pending>)
    requires forall id :: Marks(after, id) ==> Marks(before, id) && after[id].phase.left <= before[id].phase.left
    ensures Marked(after) <= Marked(before)
  {
    forall n | n in Marked(after)
      ensures n in Marked(before)
    {
      var id :| id in after && after[id].phase.Deleting? && n in after[id].phase.left;
      assert Marks(after, id);
    }
  }

  lemma PutMarksNothing(pending: map<nat, Pending>, id: nat, p: Pending)
    requires !Marks(pending, id) && !p.phase.Deleting?
    ensures Marked(pending[id := p]) == Marked(pending)
  {
    MarksCarryOver(pending, pending[id := p]);
    MarksCarryOver(pending[id := p], pending);
  }

  lemma EndMarksNothing(pending: map<nat, Pending>, id: nat)
    requires !Marks(pending, id)
    ensures Marked(pending - {id}) == Marked(pending)
  {
    MarksCarryOver(pending, pending - {id});
    MarksCarryOver(pending - {id}, pending);
  }

  lemma PutCredit(pending: map<nat, Pending>, id: nat, p: Pending)
    ensures Credits(pending[id := p])
         == if p.phase.Owing? then Credits(pending)[id := p.phase.credit] else Credits(pending) - {id}
  {
  }

  lemma ReplaceAccount(c: Config, s: State, id: nat)
    requires c.Lawful() && Replays(c, s) && Can(c, s, Replace(id))
    ensures var a, b := AccountOf(s), AccountOf(After(c, s, Replace(id)));
            && b == a.(unmarked := b.unmarked, credits := a.credits[id := InPlace(a.placed)], placed := a.placed + 1)
            && id !in a.credits && b.unmarked <= a.unmarked + {NameOf(c, s.pending[id].request)}
  {
    var s' := After(c, s, Replace(id));
    PutMarksNothing(s.pending, id, s'.pending[id]);
    PutCredit(s.pending, id, s'.pending[id]);
  }

  lemma ReplaceStaysBounded(c: Config, s: State, id: nat)
    requires c.Lawful() && Replays(c, s) && Bounded(c, s) && Can(c, s, Replace(id))
    ensures Bounded(c, After(c, s, Replace(id)))
  {
    if c.cap > 0 {
      ReplaceAccount(c, s, id);
      PlacedStaysSound(c.cap, AccountOf(s), AccountOf(After(c, s, Replace(id))), id, NameOf(c, s.pending[id].request));
    }
  }

  lemma ListedAccount(c: Config, s: State, id: nat)
    requires Can(c, s, List(id, true))
    ensures var a := AccountOf(s);
            && id in a.credits && a.credits[id].InPlace?
            && AccountOf(After(c, s, List(id, true)))
            == a.(credits := a.credits[id := Listed(a.credits[id].at, Live(s.files), a.placed, a.leftovers)])
  {
    var s' := After(c, s, List(id, true));
    PutMarksNothing(s.pending, id, s'.pending[id]);
    PutCredit(s.pending, id, s'.pending[id]);
  }

  lemma GivenUpAccount(c: Config, s: State, id: nat)
    requires Can(c, s, List(id, false))
    ensures var a := AccountOf(s);
            && id in a.credits
            && AccountOf(After(c, s, List(id, false))) == a.(credits := a.credits - {id}, leftovers := a.leftovers + 1)
  {
    EndMarksNothing(s.pending, id);
    assert Credits(s.pending - {id}) == Credits(s.pending) - {id};
  }

  lemma ListStaysBounded(c: Config, s: State, id: nat, listable: bool)
    requires Bounded(c, s) && Can(c, s, List(id, listable))
    ensures Bounded(c, After(c, s, List(id, listable)))
  {
    if c.cap > 0 {
      if listable {
        ListedAccount(c, s, id);
        ListedStaysSound(c.cap, AccountOf(s), AccountOf(After(c, s, List(id, true))), id, Live(s.files));
      } else {
        GivenUpAccount(c, s, id);
        GivenUpStaysSound(c.cap, AccountOf(s), id);
      }
    }
  }

  lemma RankMarks(s: State, id: nat, doomed: set<string>)
    requires id in s.pending && !s.pending[id].phase.Deleting?
    ensures Marked(InPhaseNow(s, id, Deleting(doomed))) == Marked(s.pending) + doomed
  {
    var after := InPhaseNow(s, id, Deleting(doomed));
    forall n | n in Marked(s.pending) + doomed
      ensures n in Marked(after)
    {
      if n in doomed {
        assert n in after[id].phase.left;
      } else {
        var other :| other in s.pending && s.pending[other].phase.Deleting? && n in s.pending[other].phase.left;
        assert after[other] == s.pending[other];
      }
    }
    forall n | n in Marked(after) && n !in doomed
      ensures n in Marked(s.pending)
    {
      var other :| other in after && after[other].phase.Deleting? && n in after[other].phase.left;
      assert after[other] == s.pending[other];
    }
  }

  lemma RankAccount(c: Config, s: State, id: nat, io: Io)
    requires Can(c, s, Rank(id, io)) && c.cap > 0
    ensures var a, b := AccountOf(s), AccountOf(After(c, s, Rank(id, io)));
            && id in a.credits && a.credits[id] == s.pending[id].phase.credit
            && b.unmarked <= a.unmarked && |b.unmarked * a.credits[id].names| <= c.cap
            && b == a.(unmarked := b.unmarked, credits := a.credits - {id}, forgiven := b.forgiven)
  {
    var s' := After(c, s, Rank(id, io));
    var names := s.pending[id].phase.credit.names;
    var doomed := Doomed(names, s.files, c.cap, io);
    RankMarks(s, id, doomed);
    PutCredit(s.pending, id, s'.pending[id]);
    DoomedCount(names, s.files, c.cap, io);
    SubsetSize(AccountOf(s').unmarked * names, names - doomed);
  }

  lemma RankStaysBounded(c: Config, s: State, id: nat, io: Io)
    requires Bounded(c, s) && Can(c, s, Rank(id, io))
    ensures Bounded(c, After(c, s, Rank(id, io)))
  {
    if c.cap > 0 {
      RankAccount(c, s, id, io);
      RankedStaysSound(c.cap, AccountOf(s), id, AccountOf(After(c, s, Rank(id, io))).unmarked);
    }
  }

  /** One entry is no longer marked by this store. */
  lemma EvictMarks(s: State, id: nat, name: string)
    requires id in s.pending && s.pending[id].phase.Deleting?
    ensures Marked(s.pending) <= Marked(InPhaseNow(s, id, Deleting(s.pending[id].phase.left - {name}))) + {name}
  {
    var after := InPhaseNow(s, id, Deleting(s.pending[id].phase.left - {name}));
    forall n | n in Marked(s.pending) && n != name
      ensures n in Marked(after)
    {
      var other :| other in s.pending && s.pending[other].phase.Deleting? && n in s.pending[other].phase.left;
      assert n in after[other].phase.left;
    }
  }

  lemma EvictAccount(c: Config, s: State, id: nat, name: string, deleted: bool)
    requires Can(c, s, Evict(id, name, deleted))
    ensures var a, b := AccountOf(s), AccountOf(After(c, s, Evict(id, name, deleted)));
            && b.unmarked <= (if deleted then a.unmarked else a.unmarked + {name})
            && b == a.(unmarked := b.unmarked, leftovers := if deleted then a.leftovers else a.leftovers + 1)
  {
    var s' := After(c, s, Evict(id, name, deleted));
    EvictMarks(s, id, name);
    PutCredit(s.pending, id, s'.pending[id]);
    assert Credits(s'.pending) == Credits(s.pending);
  }

  lemma EvictStaysBounded(c: Config, s: State, id: nat, name: string, deleted: bool)
    requires Bounded(c, s) && Can(c, s, Evict(id, name, deleted))
    ensures Bounded(c, After(c, s, Evict(id, name, deleted)))
  {
    if c.cap > 0 {
      EvictAccount(c, s, id, name, deleted);
      var unmarked := AccountOf(After(c, s, Evict(id, name, deleted))).unmarked;
      if deleted {
        FewerStaysSound(c.cap, AccountOf(s), unmarked);
      } else {
        FailedStaysSound(c.cap, AccountOf(s), unmarked, name);
      }
    }
  }

  lemma UnmarkedAndMarked(live: set<string>, marked: set<string>)
    ensures |live| == |live - marked| + |marked * live|
  {
    assert live == (live - marked) + (marked * live);
  }

  lemma CrashAccount(c: Config, s: State, ids: set<nat>)
    ensures var a, b := AccountOf(s), AccountOf(After(c, s, Crash(ids)));
            var orphans := Orphans(s, ids);
            b == Account(b.unmarked, a.credits - ids, a.placed,
                         a.leftovers + |a.credits.Keys * ids| + |orphans|, a.forgiven)
  {
    CreditsWithout(s.pending, ids);
  }

  lemma CrashUnmarks(c: Config, s: State, ids: set<nat>)
    ensures AccountOf(After(c, s, Crash(ids))).unmarked <= AccountOf(s).unmarked + Orphans(s, ids)
  {
    OrphansAreUnmarked(Live(s.files), Marked(s.pending), Marked(s.pending - ids));
  }

  lemma CreditsWithout(pending: map<nat, Pending>, ids: set<nat>)
    ensures Credits(pending - ids) == Credits(pending) - ids
  {
  }

  lemma OrphansAreUnmarked(live: set<string>, before: set<string>, after: set<string>)
    ensures live - after <= (live - before) + (before - after) * live
  {
  }

  lemma CrashStaysBounded(c: Config, s: State, ids: set<nat>)
    requires Bounded(c, s)
    ensures Bounded(c, After(c, s, Crash(ids)))
  {
    if c.cap > 0 {
      CrashAccount(c, s, ids);
      CrashUnmarks(c, s, ids);
      CrashStaysSound(c.cap, AccountOf(s), AccountOf(After(c, s, Crash(ids))), ids, Orphans(s, ids));
    }
  }

  /** Steps that neither place nor list nor rank nor evict: no entry is new, no credit and no mark changes. */
  lemma OthersStayBounded(c: Config, s: State, s': State)
    requires Bounded(c, s) && Live(s'.files) <= Live(s.files) && |s'.log| == |s.log|
    requires s'.leftovers == s.leftovers && s'.forgiven == s.forgiven
    requires Credits(s'.pending) == Credits(s.pending) && Marked(s'.pending) == Marked(s.pending)
    ensures Bounded(c, s')
  {
    if c.cap > 0 {
      FewerStaysSound(c.cap, AccountOf(s), AccountOf(s').unmarked);
    }
  }

  lemma StageStaysBounded(c: Config, s: State, step: Step)
    requires c.Lawful() && Bounded(c, s) && step.Stage? && Can(c, s, step)
    ensures Bounded(c, After(c, s, step))
  {
    var s' := After(c, s, step);
    StagingIsNoEntry(c, step.request, step.random);
    PutMarksNothing(s.pending, step.id, s'.pending[step.id]);
    PutCredit(s.pending, step.id, s'.pending[step.id]);
    OthersStayBounded(c, s, s');
  }

  lemma EndStaysBounded(c: Config, s: State, step: Step)
    requires Bounded(c, s) && (step.Abandon? || step.Done?) && Can(c, s, step)
    ensures Bounded(c, After(c, s, step))
  {
    EndMarksNothing(s.pending, step.id);
    assert Credits(s.pending - {step.id}) == Credits(s.pending);
    OthersStayBounded(c, s, After(c, s, step));
  }

  lemma SweepStaysBounded(c: Config, s: State, step: Step)
    requires Bounded(c, s) && step.Sweep? && Can(c, s, step)
    ensures Bounded(c, After(c, s, step))
  {
    var s' := After(c, s, step);
    PutMarksNothing(s.pending, step.id, s'.pending[step.id]);
    PutCredit(s.pending, step.id, s'.pending[step.id]);
    assert Credits(s'.pending) == Credits(s.pending);
    OthersStayBounded(c, s, s');
  }

  lemma StepBounded(c: Config, s: State, step: Step)
    requires c.Lawful() && Replays(c, s) && Bounded(c, s) && Can(c, s, step)
    ensures Bounded(c, After(c, s, step))
  {
    match step
    case Stage(_, _, _, _) => StageStaysBounded(c, s, step);
    case Replace(id) => ReplaceStaysBounded(c, s, id);
    case List(id, listable) => ListStaysBounded(c, s, id, listable);
    case Sweep(_, _, _) => SweepStaysBounded(c, s, step);
    case Rank(id, io) => RankStaysBounded(c, s, id, io);
    case Evict(id, name, deleted) => EvictStaysBounded(c, s, id, name, deleted);
    case Abandon(_, _) => EndStaysBounded(c, s, step);
    case Done(_) => EndStaysBounded(c, s, step);
    case Crash(ids) => CrashStaysBounded(c, s, ids);
    case _ => OthersStayBounded(c, s, After(c, s, step));
  }

  // ----- Every run -----

  lemma FollowerIsSafe(c: Config, s: State, step: Step, next: State)
    requires c.Lawful() && Replays(c, s) && Bounded(c, s) && Follow(c, s, step, next)
    ensures Replays(c, next) && Bounded(c, next)
  {
    StepReplays(c, s, step);
    StepBounded(c, s, step);
  }

  lemma StartIsSafe(c: Config)
    ensures Replays(c, EMPTY) && Bounded(c, EMPTY)
  {
    assert Live(EMPTY.files) == {} && Marked(EMPTY.pending) == {} && Credits(EMPTY.pending) == map[];
    assert forall r :: EntryIsLast(c, EMPTY, r);
  }

  /** What holds at the start and follows from step to step holds throughout. */
  lemma {:induction false} RunKeeps(c: Config, states: seq<State>, steps: seq<Step>, i: nat, kept: State -> bool)
    requires Run(c, states, steps) && i < |states| && kept(EMPTY)
    requires forall s, step, next :: kept(s) && Follow(c, s, step, next) ==> kept(next)
    ensures kept(states[i])
  {
    if i > 0 {
      RunKeeps(c, states, steps, i - 1, kept);
      assert Follow(c, states[i - 1], steps[i - 1], states[i]);
    }
  }

  lemma EveryStateIsSafe(c: Config, states: seq<State>, steps: seq<Step>, i: nat)
    requires c.Lawful() && Run(c, states, steps) && i < |states|
    ensures Replays(c, states[i]) && Bounded(c, states[i])
  {
    var kept := (s: State) => Replays(c, s) && Bounded(c, s);
    StartIsSafe(c);
    forall s, step, next | kept(s) && Follow(c, s, step, next)
      ensures kept(next)
    {
      FollowerIsSafe(c, s, step, next);
    }
    RunKeeps(c, states, steps, i, kept);
  }

  /** Whether the last stored evaluation may still be replayed for the request. */
  predicate Replayable(c: Config, files: Files, r: Request, recorded: Recorded, now: real, io: Io) {
    var name := NameOf(c, r);
    && c.enabled && name in files && name !in io.unreadable
    && (c.ttl <= 0.0 || name in io.unstatable || now - recorded.time <= c.ttl)
    && c.codec.read(files[name].text).Some?
    && recorded.evaluation.provider == r.provider
    && recorded.evaluation.usage.input >= 0.0 && recorded.evaluation.usage.output >= 0.0
  }

  /** In every reachable state a lookup answers exactly with what was stored last for the same normal form, or with
      nothing; and nothing only when that is gone, expired, unreadable, or not fit to be replayed. */
  lemma LookupReplaysTheLastStore(c: Config, states: seq<State>, steps: seq<Step>, i: nat, r: Request, io: Io)
    requires c.Lawful() && Run(c, states, steps) && i < |states|
    ensures var s := states[i];
            var last := LastFor(s.log, r);
            Found(c, s.files, r, s.now, io)
            == if last.Some? && Replayable(c, s.files, r, last.value, s.now, io)
               then Some(last.value.evaluation.(requestId := None)) else None
  {
    EveryStateIsSafe(c, states, steps, i);
    var s := states[i];
    assert EntryIsLast(c, s, r);
    if NameOf(c, r) in s.files {
      LookupOfHeld(c, s, r, LastFor(s.log, r).value, io);
    }
  }

  lemma LookupOfHeld(c: Config, s: State, r: Request, last: Recorded, io: Io)
    requires c.Lawful() && NameOf(c, r) in s.files && Holds(c, s.files[NameOf(c, r)], last)
    ensures Found(c, s.files, r, s.now, io)
            == if Replayable(c, s.files, r, last, s.now, io) then Some(last.evaluation.(requestId := None)) else None
  {
    var text := s.files[NameOf(c, r)].text;
    assert c.codec.write(last.evaluation).value == text;
    if c.codec.read(text).Some? {
      assert c.codec.read(text).value == RecordOf(last.evaluation);
    }
  }

  /** In every reachable state there are at most as many entries as the cap, the stores that have put a file in place
      and not ranked yet, the entries marked for deletion, and those left behind by stores that crashed or failed to
      delete and not made up for by a ranking since. */
  lemma EntriesAreBounded(c: Config, states: seq<State>, steps: seq<Step>, i: nat)
    requires c.Lawful() && Run(c, states, steps) && i < |states| && c.cap > 0
    ensures var s := states[i];
            && s.forgiven <= s.leftovers
            && |Live(s.files)| <= c.cap + |Credits(s.pending).Keys| + |Marked(s.pending) * Live(s.files)|
                                  + s.leftovers - s.forgiven
  {
    var s := states[i];
    EveryStateIsSafe(c, states, steps, i);
    UnmarkedAndMarked(Live(s.files), Marked(s.pending));
  }
}
