/** A paid study over any number of crashes and resumes: admission, launch, booking, and what the ledger keeps. */
module Study {
  import opened DecimalText
  import opened Listings
  import opened Spend
  import opened Wrappers

  /** Where the study's process is; `Saving` is between the file's replacement and the memory update. */
  datatype Phase =
    | Resuming
    | InBatch(rest: seq<RunId>)
    | Running(id: RunId, rest: seq<RunId>)
    | Saving(booking: Booking, next: Phase)

  datatype Process = Process(policy: SpendPolicy, runs: seq<Booking>, phase: Phase)

  /** The ledger file, the ids whose agent left a log, the process if one runs, and of the last admission how
      many runs were booked before it and which ids it admitted. */
  datatype State = State(
    disk: Option<Saved>, started: set<RunId>, process: Option<Process>, base: nat, batch: seq<RunId>)

  datatype Step =
    | Boot(policy: SpendPolicy)
    | BookStarted(id: RunId, usd: real)
    | Resumed
    | Admit(ids: seq<RunId>)
    | Launch
    | LogAppears
    | Book(usd: real)
    | Remember
    | Kill

  const EMPTY := State(None, {}, None, 0, [])

  function Booked(s: State): seq<Booking> {
    SavedRuns(s.disk)
  }

  /** The file is replaced while the process still holds the old dict. */
  function Save(s: State, p: Process, booking: Booking, next: Phase): State {
    s.(disk := Some(Saved(Cap(p.policy.maxUsd), p.runs + [booking])),
       process := Some(p.(phase := Saving(booking, next))))
  }

  /** A step that is not possible changes nothing. */
  function Next(s: State, step: Step): State {
    if step.Boot? then
      if s.process.None? && EffectivePolicy(s.disk, step.policy).Ok? then
        s.(process := Some(Process(EffectivePolicy(s.disk, step.policy).value, Booked(s), Resuming)))
      else s
    else if s.process.None? then s
    else
      var p := s.process.value;
      match step
      case BookStarted(id, usd) =>
        if p.phase.Resuming? && id in s.started && id !in Ids(p.runs) && usd >= 0.0 then
          Save(s, p, Booking(id, usd), Resuming)
        else s
      case Resumed =>
        if p.phase.Resuming? && s.started <= Ids(p.runs) then s.(process := Some(p.(phase := InBatch([])))) else s
      case Admit(ids) =>
        if && p.phase == InBatch([]) && ids != [] && Distinct(ids) && (forall id :: id in ids ==> id !in Ids(p.runs))
           && BlockerOf(p.policy, p.runs, |ids|).None?
        then s.(process := Some(p.(phase := InBatch(ids))), base := |p.runs|, batch := ids)
        else s
      case Launch =>
        if p.phase.InBatch? && p.phase.rest != [] then
          s.(process := Some(p.(phase := Running(p.phase.rest[0], p.phase.rest[1..]))))
        else s
      case LogAppears => if p.phase.Running? then s.(started := s.started + {p.phase.id}) else s
      case Book(usd) =>
        if p.phase.Running? && p.phase.id !in Ids(p.runs) && usd >= 0.0 then
          Save(s, p, Booking(p.phase.id, usd), InBatch(p.phase.rest))
        else s
      case Remember =>
        if p.phase.Saving? then
          s.(process := Some(p.(runs := p.runs + [p.phase.booking], phase := p.phase.next)))
        else s
      case Kill => s.(process := None)
  }

  function Run(s: State, steps: seq<Step>): State
    decreases |steps|
  {
    if steps == [] then s else Run(Next(s, steps[0]), steps[1..])
  }

  // ----- What every step keeps -----

  predicate UniqueIds(runs: seq<Booking>) {
    forall i, j :: 0 <= i < j < |runs| ==> runs[i].id != runs[j].id
  }

  /** Neither booked nor logged: what the study may still pay for. */
  predicate Fresh(s: State, ids: seq<RunId>) {
    && Distinct(ids)
    && forall id :: id in ids ==> id in s.batch && id !in Ids(Booked(s)) && id !in s.started
  }

  predicate PhaseKept(s: State, p: Process) {
    match p.phase
    case Resuming => p.runs == Booked(s)
    case InBatch(rest) => p.runs == Booked(s) && Fresh(s, rest) && s.started <= Ids(Booked(s))
    case Running(id, rest) =>
      && p.runs == Booked(s) && Fresh(s, rest) && id !in rest && id in s.batch && id !in Ids(Booked(s))
      && s.started <= Ids(Booked(s)) + {id}
    case Saving(b, next) =>
      && p.runs + [b] == Booked(s)
      && (next.Resuming? || (next.InBatch? && Fresh(s, next.rest) && s.started <= Ids(Booked(s))))
  }

  predicate LedgerKept(s: State) {
    && UniqueIds(Booked(s))
    && forall b :: b in Booked(s) ==> b.usd >= 0.0
  }

  /** What was booked since the last admission was admitted by it. */
  predicate BatchKept(s: State) {
    && Distinct(s.batch)
    && s.base <= |Booked(s)|
    && (forall i :: s.base <= i < |Booked(s)| ==> Booked(s)[i].id in s.batch)
    && (forall id :: id in s.started ==> id in Ids(Booked(s)) || id in s.batch)
  }

  predicate CapKept(s: State) {
    && (s.disk.Some? ==> s.disk.value.cap.Cap?)
    && (s.disk.Some? && s.process.Some? ==> s.process.value.policy.maxUsd <= s.disk.value.cap.usd)
  }

  predicate Inv(s: State) {
    LedgerKept(s) && BatchKept(s) && CapKept(s) && (s.process.Some? ==> PhaseKept(s, s.process.value))
  }

  lemma IdsAppend(runs: seq<Booking>, b: Booking)
    ensures Ids(runs + [b]) == Ids(runs) + {b.id}
  {
    assert forall x :: x in runs + [b] <==> x in runs || x == b;
    assert b in runs + [b];
    forall id | id in Ids(runs)
      ensures id in Ids(runs + [b])
    {
      var x :| x in runs && x.id == id;
      assert x in runs + [b];
    }
  }

  lemma UniqueAppend(runs: seq<Booking>, b: Booking)
    requires UniqueIds(runs) && b.id !in Ids(runs)
    ensures UniqueIds(runs + [b])
  {
    forall i | 0 <= i < |runs|
      ensures runs[i].id != b.id
    {
      assert runs[i] in runs;
    }
  }

  lemma SaveKeepsInv(s: State, b: Booking, next: Phase)
    requires Inv(s) && s.process.Some? && s.process.value.runs == Booked(s)
    requires b.id in s.batch && b.id !in Ids(Booked(s)) && b.usd >= 0.0
    requires !next.Resuming? ==> next.InBatch? && Fresh(s, next.rest) && b.id !in next.rest
                                 && s.started <= Ids(Booked(s)) + {b.id}
    ensures Inv(Save(s, s.process.value, b, next))
  {
    IdsAppend(Booked(s), b);
    UniqueAppend(Booked(s), b);
  }

  lemma StepKeepsInv(s: State, step: Step)
    requires Inv(s)
    ensures Inv(Next(s, step))
  {
    if step.Boot? || s.process.None? || Next(s, step) == s {
    } else {
      var p := s.process.value;
      match step
      case BookStarted(id, usd) => SaveKeepsInv(s, Booking(id, usd), Resuming);
      case Admit(ids) => AdmitKeepsInv(s, ids);
      case Launch => LaunchKeepsInv(s);
      case LogAppears => LogKeepsInv(s);
      case Book(usd) => SaveKeepsInv(s, Booking(p.phase.id, usd), InBatch(p.phase.rest));
      case _ =>
    }
  }

  lemma AdmitKeepsInv(s: State, ids: seq<RunId>)
    requires Inv(s)
    ensures Inv(Next(s, Admit(ids)))
  {
  }

  lemma LaunchKeepsInv(s: State)
    requires Inv(s)
    ensures Inv(Next(s, Launch))
  {
    if s.process.Some? && s.process.value.phase.InBatch? && s.process.value.phase.rest != [] {
      var rest := s.process.value.phase.rest;
      assert rest[0] in rest;
      assert forall id :: id in rest[1..] ==> id in rest;
    }
  }

  lemma LogKeepsInv(s: State)
    requires Inv(s)
    ensures Inv(Next(s, LogAppears))
  {
  }

  lemma {:induction false} RunKeepsInv(s: State, steps: seq<Step>)
    requires Inv(s)
    ensures Inv(Run(s, steps))
    decreases |steps|
  {
    if steps != [] {
      StepKeepsInv(s, steps[0]);
      RunKeepsInv(Next(s, steps[0]), steps[1..]);
    }
  }

  // ----- Crash safety -----

  /** However the study was interrupted before, what it launches now was never booked and left no log. */
  lemma LaunchesOnlyFreshRuns(steps: seq<Step>)
    ensures var s := Run(EMPTY, steps);
            var t := Next(s, Launch);
            t != s ==> && t.process.value.phase.Running?
                       && t.process.value.phase.id !in Ids(Booked(s))
                       && t.process.value.phase.id !in s.started
  {
    RunKeepsInv(EMPTY, steps);
  }

  lemma StepOnlyAppends(s: State, step: Step)
    requires Inv(s)
    ensures |Booked(s)| <= |Booked(Next(s, step))| && Booked(Next(s, step))[..|Booked(s)|] == Booked(s)
    ensures s.disk.Some? ==> Next(s, step).disk.Some? && Next(s, step).disk.value.cap.usd <= s.disk.value.cap.usd
  {
    StepKeepsInv(s, step);
  }

  /** From any point on, no booking disappears or changes its amount, each id is booked once at a cost that is
      not negative, and the cap on disk never rises. */
  lemma {:induction false} LedgerOnlyGrows(s: State, steps: seq<Step>)
    requires Inv(s)
    ensures var end := Run(s, steps);
            && |Booked(s)| <= |Booked(end)| && Booked(end)[..|Booked(s)|] == Booked(s)
            && LedgerKept(end)
            && (s.disk.Some? ==>
                  end.disk.Some? && end.disk.value.cap.Cap? && end.disk.value.cap.usd <= s.disk.value.cap.usd)
    decreases |steps|
  {
    if steps == [] {
    } else {
      var next := Next(s, steps[0]);
      StepKeepsInv(s, steps[0]);
      StepOnlyAppends(s, steps[0]);
      LedgerOnlyGrows(next, steps[1..]);
      assert Booked(Run(s, steps))[..|Booked(s)|] == Booked(Run(s, steps))[..|Booked(next)|][..|Booked(s)|];
    }
  }

  // ----- The budget -----

  /** What the bookings cost beyond the run bound. */
  function Excess(runs: seq<Booking>, bound: real): real {
    if runs == [] then 0.0
    else Excess(runs[..|runs| - 1], bound) + Over(runs[|runs| - 1].usd, bound)
  }

  function Over(usd: real, bound: real): real {
    if usd > bound then usd - bound else 0.0
  }

  /** Every process runs under `policy` and admits at most `size` runs at a time. */
  predicate UnderPolicy(steps: seq<Step>, policy: SpendPolicy, size: nat) {
    forall i :: 0 <= i < |steps| ==>
      && (steps[i].Boot? ==> steps[i].policy == policy)
      && (steps[i].Admit? ==> |steps[i].ids| <= size)
  }

  predicate BudgetKept(s: State, policy: SpendPolicy, size: nat) {
    && (s.disk.Some? ==> s.disk.value.cap == Cap(policy.maxUsd))
    && (s.process.Some? ==> s.process.value.policy == policy)
    && s.base <= |Booked(s)| && |s.batch| <= size
    && (s.batch == [] ==> s.base == 0)
    && (s.batch != [] ==>
          && Spent(Booked(s)[..s.base]) + Worst(policy) <= policy.maxUsd
          && s.base + |s.batch| <= policy.maxRuns)
  }

  lemma StepKeepsBudget(s: State, step: Step, policy: SpendPolicy, size: nat)
    requires Inv(s) && BudgetKept(s, policy, size) && UnderPolicy([step], policy, size)
    ensures BudgetKept(Next(s, step), policy, size)
  {
    assert [step][0] == step;
    StepKeepsInv(s, step);
    StepOnlyAppends(s, step);
    var t := Next(s, step);
    if t.base == s.base {
      assert Booked(t)[..s.base] == Booked(t)[..|Booked(s)|][..s.base];
    }
    if step.Admit? && t != s {
      assert Booked(s)[..|Booked(s)|] == Booked(s);
    }
  }

  lemma {:induction false} RunKeepsBudget(s: State, steps: seq<Step>, policy: SpendPolicy, size: nat)
    requires Inv(s) && BudgetKept(s, policy, size) && UnderPolicy(steps, policy, size)
    ensures Inv(Run(s, steps)) && BudgetKept(Run(s, steps), policy, size)
    decreases |steps|
  {
    if steps != [] {
      assert [steps[0]][0] == steps[0];
      StepKeepsBudget(s, steps[0], policy, size);
      StepKeepsInv(s, steps[0]);
      RunKeepsBudget(Next(s, steps[0]), steps[1..], policy, size);
    }
  }

  /** The bound of `n` runs together. */
  function Bounds(n: nat, usd: real): real {
    if n == 0 then 0.0 else Bounds(n - 1, usd) + usd
  }

  lemma {:induction false} SpentFrom(runs: seq<Booking>, base: nat, bound: real)
    requires base <= |runs|
    ensures Spent(runs) <= Spent(runs[..base]) + Bounds(|runs| - base, bound) + Excess(runs[base..], bound)
    decreases |runs|
  {
    if base == |runs| {
      assert runs[..base] == runs && runs[base..] == [];
    } else {
      var front, last := runs[..|runs| - 1], runs[|runs| - 1];
      SpentFrom(front, base, bound);
      assert front[..base] == runs[..base];
      assert runs[base..][..|runs| - 1 - base] == front[base..];
    }
  }

  /** No more bookings since the admission than runs it admitted. */
  lemma {:induction false} FewerThanBatch(runs: seq<Booking>, batch: seq<RunId>)
    requires UniqueIds(runs) && forall i :: 0 <= i < |runs| ==> runs[i].id in batch
    ensures |runs| <= |batch|
  {
    if runs != [] {
      var last := runs[|runs| - 1].id;
      var k :| 0 <= k < |batch| && batch[k] == last;
      var others := batch[..k] + batch[k + 1..];
      forall i | 0 <= i < |runs| - 1
        ensures runs[i].id in others
      {
        var j :| 0 <= j < |batch| && batch[j] == runs[i].id;
        assert j != k;
        assert others[if j < k then j else j - 1] == batch[j];
      }
      FewerThanBatch(runs[..|runs| - 1], others);
    }
  }

  /** Over any run, with any crashes: the run cap is not passed, and booked spend plus the batch reserve is at most
      the dollar cap plus, for the runs booked since the last admission, their bounds and what they cost beyond. */
  lemma BudgetIsSafe(policy: SpendPolicy, size: nat, steps: seq<Step>)
    requires UnderPolicy(steps, policy, size)
    ensures var end := Run(EMPTY, steps);
            && end.base <= |Booked(end)| <= end.base + size
            && (Booked(end) != [] ==> WithinCaps(Booked(end), end.base, policy))
  {
    RunKeepsBudget(EMPTY, steps, policy, size);
    KeptBudgetIsSafe(Run(EMPTY, steps), policy, size);
  }

  predicate WithinCaps(runs: seq<Booking>, base: nat, policy: SpendPolicy)
    requires base <= |runs|
  {
    && |runs| <= policy.maxRuns
    && Spent(runs) + Worst(policy)
       <= policy.maxUsd + Bounds(|runs| - base, policy.runBoundUsd) + Excess(runs[base..], policy.runBoundUsd)
  }

  lemma KeptBudgetIsSafe(s: State, policy: SpendPolicy, size: nat)
    requires LedgerKept(s) && BatchKept(s) && BudgetKept(s, policy, size)
    ensures |Booked(s)| <= s.base + size
    ensures Booked(s) != [] ==> WithinCaps(Booked(s), s.base, policy)
  {
    TailIsOfBatch(s);
    if s.batch != [] {
      SpentWithin(Booked(s), s.base, policy);
    }
  }

  lemma TailIsOfBatch(s: State)
    requires LedgerKept(s) && BatchKept(s)
    ensures |Booked(s)| <= s.base + |s.batch|
  {
    var tail := Booked(s)[s.base..];
    assert forall i :: 0 <= i < |tail| ==> tail[i] == Booked(s)[s.base + i];
    FewerThanBatch(tail, s.batch);
  }

  lemma SpentWithin(runs: seq<Booking>, base: nat, policy: SpendPolicy)
    requires base <= |runs| <= policy.maxRuns && Spent(runs[..base]) + Worst(policy) <= policy.maxUsd
    ensures WithinCaps(runs, base, policy)
  {
    SpentFrom(runs, base, policy.runBoundUsd);
  }

  lemma {:induction false} MoreBounds(a: nat, b: nat, usd: real)
    requires a <= b && usd >= 0.0
    ensures Bounds(a, usd) <= Bounds(b, usd)
  {
    if a < b {
      MoreBounds(a, b - 1, usd);
    }
  }

  lemma {:induction false} NoExcess(runs: seq<Booking>, bound: real)
    requires forall b :: b in runs ==> b.usd <= bound
    ensures Excess(runs, bound) == 0.0
  {
    if runs != [] {
      NoExcess(runs[..|runs| - 1], bound);
    }
  }

  /** A run whose bookings each keep to the run bound, and which yet passes the dollar cap. */
  ghost predicate Overruns(policy: SpendPolicy, size: nat, steps: seq<Step>) {
    && UnderPolicy(steps, policy, size)
    && (forall b :: b in Booked(Run(EMPTY, steps)) ==> b.usd <= policy.runBoundUsd)
    && Spent(Booked(Run(EMPTY, steps))) > policy.maxUsd
  }

  /** A reserve for a whole batch keeps booked spend under the dollar cap. */
  lemma SpendStaysUnderCap(policy: SpendPolicy, size: nat, steps: seq<Step>)
    requires policy.maxUsd >= 0.0 && policy.runBoundUsd >= 0.0
    requires Worst(policy) >= Bounds(size, policy.runBoundUsd)
    ensures !Overruns(policy, size, steps)
  {
    if Overruns(policy, size, steps) {
      var end := Run(EMPTY, steps);
      BudgetIsSafe(policy, size, steps);
      ReserveCovers(Booked(end), end.base, policy, size);
    }
  }

  lemma ReserveCovers(runs: seq<Booking>, base: nat, policy: SpendPolicy, size: nat)
    requires base <= |runs| <= base + size && WithinCaps(runs, base, policy)
    requires policy.runBoundUsd >= 0.0 && Worst(policy) >= Bounds(size, policy.runBoundUsd)
    requires forall b :: b in runs ==> b.usd <= policy.runBoundUsd
    ensures Spent(runs) <= policy.maxUsd
  {
    var late, bound := runs[base..], policy.runBoundUsd;
    assert forall b :: b in late ==> b in runs;
    NoExcess(late, bound);
    MoreBounds(|runs| - base, size, bound);
  }

  // ----- A smaller reserve is not enough -----

  /** Every run of the batch in turn, each booked at `usd`. */
  function BatchSteps(count: nat, usd: real): seq<Step> {
    if count == 0 then [] else [Launch, Book(usd), Remember] + BatchSteps(count - 1, usd)
  }

  function Bookings(ids: seq<RunId>, usd: real): seq<Booking> {
    seq(|ids|, i requires 0 <= i < |ids| => Booking(ids[i], usd))
  }

  lemma OneOfBatch(s: State, usd: real, id: RunId, rest: seq<RunId>)
    requires s.process.Some? && s.process.value.phase == InBatch([id] + rest) && usd >= 0.0
    requires id !in Ids(s.process.value.runs)
    ensures var p := s.process.value;
            var runs := p.runs + [Booking(id, usd)];
            Next(Next(Next(s, Launch), Book(usd)), Remember)
            == s.(disk := Some(Saved(Cap(p.policy.maxUsd), runs)),
                  process := Some(p.(runs := runs, phase := InBatch(rest))))
  {
    assert ([id] + rest)[1..] == rest;
  }

  lemma RunsThree(s: State, a: Step, b: Step, c: Step, more: seq<Step>)
    ensures Run(s, [a, b, c] + more) == Run(Next(Next(Next(s, a), b), c), more)
  {
    var all := [a, b, c] + more;
    assert all[1..] == [b, c] + more && all[1..][1..] == [c] + more && all[1..][1..][1..] == more;
    assert Run(s, all) == Run(Next(s, a), all[1..]) == Run(Next(Next(s, a), b), all[1..][1..]);
  }

  lemma {:induction false} WholeBatch(s: State, ids: seq<RunId>, usd: real)
    requires s.process.Some? && s.process.value.phase == InBatch(ids) && usd >= 0.0 && Distinct(ids)
    requires Booked(s) == s.process.value.runs && forall i :: 0 <= i < |ids| ==> ids[i] !in Ids(Booked(s))
    ensures Booked(Run(s, BatchSteps(|ids|, usd))) == Booked(s) + Bookings(ids, usd)
    decreases |ids|
  {
    if ids == [] {
      assert Booked(s) + [] == Booked(s);
    } else {
      var id, rest := ids[0], ids[1..];
      var next := Next(Next(Next(s, Launch), Book(usd)), Remember);
      assert ids == [id] + rest;
      OneOfBatch(s, usd, id, rest);
      RunsThree(s, Launch, Book(usd), Remember, BatchSteps(|rest|, usd));
      IdsAppend(Booked(s), Booking(id, usd));
      WholeBatch(next, rest, usd);
      assert Bookings(ids, usd) == [Booking(id, usd)] + Bookings(rest, usd);
      assert Booked(s) + [Booking(id, usd)] + Bookings(rest, usd) == Booked(s) + Bookings(ids, usd);
    }
  }

  lemma {:induction false} SpentOfBookings(ids: seq<RunId>, usd: real)
    ensures Spent(Bookings(ids, usd)) == Bounds(|ids|, usd)
  {
    if ids != [] {
      var front := ids[..|ids| - 1];
      SpentOfBookings(front, usd);
      assert Bookings(ids, usd)[..|ids| - 1] == Bookings(front, usd);
    }
  }

  function SomeIds(count: nat): (ids: seq<RunId>)
    ensures |ids| == count
  {
    seq(count, i requires 0 <= i < count => StringOf(i))
  }

  lemma SomeIdsDiffer(count: nat)
    ensures Distinct(SomeIds(count))
  {
    forall i, j | 0 <= i < j < count
      ensures SomeIds(count)[i] != SomeIds(count)[j]
    {
      if StringOf(i) == StringOf(j) {
        StringOfInjective(i, j);
      }
    }
  }

  function FirstBatch(policy: SpendPolicy, count: nat): seq<Step> {
    [Boot(policy), Resumed, Admit(SomeIds(count))] + BatchSteps(count, policy.runBoundUsd)
  }

  lemma {:induction false} BatchStepsAre(count: nat, usd: real)
    ensures forall i :: 0 <= i < |BatchSteps(count, usd)| ==>
              !BatchSteps(count, usd)[i].Boot? && !BatchSteps(count, usd)[i].Admit?
  {
    if count > 0 {
      BatchStepsAre(count - 1, usd);
    }
  }

  lemma FirstBatchIsAdmitted(policy: SpendPolicy, ids: seq<RunId>)
    requires ids != [] && Distinct(ids) && policy.maxRuns >= |ids| && Worst(policy) <= policy.maxUsd
    ensures Next(Next(Next(EMPTY, Boot(policy)), Resumed), Admit(ids))
            == State(None, {}, Some(Process(policy, [], InBatch(ids))), 0, ids)
  {
    var booted := Next(EMPTY, Boot(policy));
    assert booted == EMPTY.(process := Some(Process(policy, [], Resuming)));
    assert Next(booted, Resumed) == EMPTY.(process := Some(Process(policy, [], InBatch([]))));
  }

  lemma FirstBatchBooks(policy: SpendPolicy, size: nat)
    requires size >= 1 && policy.maxRuns >= size && policy.runBoundUsd >= 0.0 && Worst(policy) <= policy.maxUsd
    ensures Booked(Run(EMPTY, FirstBatch(policy, size))) == Bookings(SomeIds(size), policy.runBoundUsd)
  {
    var ids, bound := SomeIds(size), policy.runBoundUsd;
    SomeIdsDiffer(size);
    FirstBatchIsAdmitted(policy, ids);
    RunsThree(EMPTY, Boot(policy), Resumed, Admit(ids), BatchSteps(size, bound));
    WholeBatch(State(None, {}, Some(Process(policy, [], InBatch(ids))), 0, ids), ids, bound);
    assert [] + Bookings(ids, bound) == Bookings(ids, bound);
  }

  lemma FirstBatchUnderPolicy(policy: SpendPolicy, size: nat)
    ensures UnderPolicy(FirstBatch(policy, size), policy, size)
  {
    var rest := BatchSteps(size, policy.runBoundUsd);
    BatchStepsAre(size, policy.runBoundUsd);
    forall i | 0 <= i < |FirstBatch(policy, size)|
      ensures i >= 3 ==> FirstBatch(policy, size)[i] == rest[i - 3]
    {
    }
  }

  /** A first batch of `size` runs at their bounds, admitted because only the reserve counts. */
  lemma FirstBatchOverruns(policy: SpendPolicy, size: nat)
    requires size >= 1 && policy.maxRuns >= size && policy.runBoundUsd >= 0.0
    requires Worst(policy) <= policy.maxUsd < Bounds(size, policy.runBoundUsd)
    ensures Overruns(policy, size, FirstBatch(policy, size))
  {
    FirstBatchBooks(policy, size);
    FirstBatchUnderPolicy(policy, size);
    SpentOfBookings(SomeIds(size), policy.runBoundUsd);
    var booked := Booked(Run(EMPTY, FirstBatch(policy, size)));
    forall b | b in booked
      ensures b.usd <= policy.runBoundUsd
    {
      var i :| 0 <= i < |booked| && booked[i] == b;
    }
  }

  /** Whatever the caps, runs that keep to their bound keep the spend under the dollar cap if and only if the batch
      reserve covers a whole batch of run bounds. */
  lemma ReserveSufficesIff(reserve: Option<real>, bound: real, size: nat)
    requires size >= 1 && bound > 0.0
    ensures (exists policy: SpendPolicy, steps ::
               && policy.maxBatchUsd == reserve && policy.runBoundUsd == bound && policy.maxUsd >= 0.0
               && Overruns(policy, size, steps))
            <==> (if reserve.None? then 0.0 else reserve.value) < Bounds(size, bound)
  {
    var worst := if reserve.None? then 0.0 else reserve.value;
    if worst < Bounds(size, bound) {
      var policy := SpendPolicy(size, if worst < 0.0 then 0.0 else worst, 0.0, bound, reserve);
      MoreBounds(1, size, bound);
      FirstBatchOverruns(policy, size);
    } else {
      forall policy: SpendPolicy, steps |
        policy.maxBatchUsd == reserve && policy.runBoundUsd == bound && policy.maxUsd >= 0.0
        ensures !Overruns(policy, size, steps)
      {
        SpendStaysUnderCap(policy, size, steps);
      }
    }
  }
}
