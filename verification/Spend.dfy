/** The persisted spend ledger: what a run costs, what may start, and what is written before memory changes. */
module Spend {
  import opened Wrappers

  type RunId = string

  /** A cost as a report or a file holds it: absent or not a number, NaN or infinite, or a number. */
  datatype Amount = Missing | NotFinite | Usd(value: real)

  predicate Usable(a: Amount) {
    a.Usd? && a.value >= 0.0
  }

  datatype SpendPolicy = SpendPolicy(
    maxRuns: int, maxUsd: real, jevUsdPerMtokInput: real, runBoundUsd: real, maxBatchUsd: Option<real>)

  datatype RunCost = RunCost(agentUsd: real, jevUsd: real, agentReported: bool) {
    function Total(): real {
      agentUsd + jevUsd
    }
  }

  /** One entry of the `runs` dict, which only ever grows at its end. */
  datatype Booking = Booking(id: RunId, usd: real)

  function Ids(runs: seq<Booking>): set<RunId> {
    set b | b in runs :: b.id
  }

  function Spent(runs: seq<Booking>): real {
    if runs == [] then 0.0 else Spent(runs[..|runs| - 1]) + runs[|runs| - 1].usd
  }

  function Sum(tokens: seq<nat>): nat {
    if tokens == [] then 0 else tokens[0] + Sum(tokens[1..])
  }

  function JevUsd(policy: SpendPolicy, tokens: seq<nat>): real {
    Sum(tokens) as real * policy.jevUsdPerMtokInput / 1000000.0
  }

  /** `cost_of`: a run without a usable agent cost is charged the bound, plus its Jev tokens. */
  function CostOf(policy: SpendPolicy, agent: Amount, tokens: seq<nat>): RunCost {
    if Usable(agent) then RunCost(agent.value, JevUsd(policy, tokens), true)
    else RunCost(policy.runBoundUsd, JevUsd(policy, tokens), false)
  }

  /** The total keeps to the run bound exactly when the agent reported a cost that leaves room for the Jev
      tokens, or reported none and used no Jev tokens that cost anything. */
  lemma CostWithinBoundIff(policy: SpendPolicy, agent: Amount, tokens: seq<nat>)
    requires policy.jevUsdPerMtokInput >= 0.0
    ensures JevUsd(policy, tokens) >= 0.0
    ensures CostOf(policy, agent, tokens).Total() <= policy.runBoundUsd <==>
              if Usable(agent) then agent.value + JevUsd(policy, tokens) <= policy.runBoundUsd
              else Sum(tokens) == 0 || policy.jevUsdPerMtokInput == 0.0
  {
    var n, p := Sum(tokens) as real, policy.jevUsdPerMtokInput;
    assert n * p >= 0.0;
    assert n * p == 0.0 <==> n == 0.0 || p == 0.0;
  }

  /** Without a usable agent cost the total passes the bound by the whole Jev cost, so it is above the bound for
      every run that used tokens with a price. */
  lemma UnreportedCostExceedsBound(policy: SpendPolicy, agent: Amount, tokens: seq<nat>)
    requires !Usable(agent)
    ensures CostOf(policy, agent, tokens).Total() == policy.runBoundUsd + JevUsd(policy, tokens)
    ensures CostOf(policy, agent, tokens).Total() > policy.runBoundUsd <==>
              Sum(tokens) > 0 && policy.jevUsdPerMtokInput > 0.0
  {
    var n, p := Sum(tokens) as real, policy.jevUsdPerMtokInput;
    assert n * p > 0.0 <==> n > 0.0 && p > 0.0;
  }

  // ----- Admission -----

  datatype Blocker = RunCap | DollarCap

  function Worst(policy: SpendPolicy): real {
    if policy.maxBatchUsd.None? then 0.0 else policy.maxBatchUsd.value
  }

  function BlockerOf(policy: SpendPolicy, runs: seq<Booking>, batch: nat): Option<Blocker> {
    if |runs| + batch > policy.maxRuns then Some(RunCap)
    else if Spent(runs) + Worst(policy) > policy.maxUsd then Some(DollarCap)
    else None
  }

  // ----- The file -----

  /** The stored cap: absent, not a finite number >= 0, or a cap. */
  datatype StoredCap = NoCap | BadCap | Cap(usd: real)

  datatype Saved = Saved(cap: StoredCap, runs: seq<Booking>)

  datatype Error = StoredCapRefused | AlreadyRan | CostRefused | WriteFailed

  /** `load`: a stored cap below the policy's stays in force. */
  function EffectivePolicy(saved: Option<Saved>, policy: SpendPolicy): Result<SpendPolicy, Error> {
    if saved.None? || saved.value.cap.NoCap? then Ok(policy)
    else if saved.value.cap.BadCap? || saved.value.cap.usd < 0.0 then Err(StoredCapRefused)
    else if saved.value.cap.usd < policy.maxUsd then Ok(policy.(maxUsd := saved.value.cap.usd))
    else Ok(policy)
  }

  function SavedRuns(saved: Option<Saved>): seq<Booking> {
    if saved.None? then [] else saved.value.runs
  }

  class LedgerFile {
    var saved: Option<Saved>

    constructor (saved: Option<Saved>)
      ensures this.saved == saved
    {
      this.saved := saved;
    }
  }

  class SpendLedger {
    const policy: SpendPolicy
    const file: LedgerFile
    var runs: seq<Booking>

    constructor (file: LedgerFile, policy: SpendPolicy, runs: seq<Booking>)
      ensures this.file == file && this.policy == policy && this.runs == runs
    {
      this.file := file;
      this.policy := policy;
      this.runs := runs;
    }

    static method Load(file: LedgerFile, policy: SpendPolicy) returns (r: Result<SpendLedger, Error>)
      ensures r.Ok? <==> EffectivePolicy(file.saved, policy).Ok?
      ensures r.Ok? ==> fresh(r.value) && r.value.file == file && r.value.runs == SavedRuns(file.saved)
                        && Ok(r.value.policy) == EffectivePolicy(file.saved, policy)
      ensures r.Err? ==> r.error == StoredCapRefused
    {
      var runs := [];
      var effective := policy;
      if file.saved.Some? {
        var payload := file.saved.value;
        runs := payload.runs;
        if !payload.cap.NoCap? {
          if payload.cap.BadCap? || payload.cap.usd < 0.0 {
            return Err(StoredCapRefused);
          }
          if payload.cap.usd < policy.maxUsd {
            effective := policy.(maxUsd := payload.cap.usd);
          }
        }
      }
      var book := new SpendLedger(file, effective, runs);
      r := Ok(book);
    }

    /** `record`: the file is replaced first; if that fails, or the cost is refused, nothing changes. */
    method Record(id: RunId, cost: Amount, writable: bool) returns (r: Result<(), Error>)
      modifies this, file
      ensures r.Ok? <==> id !in Ids(old(runs)) && Usable(cost) && writable
      ensures r.Ok? ==> runs == old(runs) + [Booking(id, cost.value)]
      ensures r.Ok? ==> file.saved == Some(Saved(Cap(policy.maxUsd), runs))
      ensures r.Err? ==> runs == old(runs) && file.saved == old(file.saved)
    {
      if id in Ids(runs) {
        return Err(AlreadyRan);
      }
      if !Usable(cost) {
        return Err(CostRefused);
      }
      var updated := runs + [Booking(id, cost.value)];
      if !writable {
        return Err(WriteFailed);
      }
      file.saved := Some(Saved(Cap(policy.maxUsd), updated));
      runs := updated;
      r := Ok(());
    }

    /** `book_outcome`: the file's cost if usable, else the bound; an id already booked is left alone. */
    method BookOutcome(id: RunId, fileCost: Amount, writable: bool) returns (r: Result<(), Error>)
      modifies this, file
      ensures id in Ids(old(runs)) ==> r.Ok? && runs == old(runs) && file.saved == old(file.saved)
      ensures id !in Ids(old(runs)) && r.Ok? ==>
                && runs == old(runs) + [Booking(id, if Usable(fileCost) then fileCost.value else policy.runBoundUsd)]
                && file.saved == Some(Saved(Cap(policy.maxUsd), runs))
      ensures r.Err? ==> runs == old(runs) && file.saved == old(file.saved)
      ensures r.Ok? <==> id in Ids(old(runs)) || ((Usable(fileCost) || policy.runBoundUsd >= 0.0) && writable)
    {
      if id in Ids(runs) {
        return Ok(());
      }
      r := Record(id, if Usable(fileCost) then fileCost else Usd(policy.runBoundUsd), writable);
      assert r.Ok? ==> runs[|runs| - 1].id == id;
    }

    method RecordUnfinished(id: RunId, writable: bool) returns (r: Result<(), Error>)
      modifies this, file
      ensures r.Ok? <==> id !in Ids(old(runs)) && policy.runBoundUsd >= 0.0 && writable
      ensures r.Ok? ==> runs == old(runs) + [Booking(id, policy.runBoundUsd)]
      ensures r.Ok? ==> file.saved == Some(Saved(Cap(policy.maxUsd), runs))
      ensures r.Err? ==> runs == old(runs) && file.saved == old(file.saved)
    {
      r := Record(id, Usd(policy.runBoundUsd), writable);
    }

    /** `run_recorded`: how the attempt ended decides what is booked. */
    method RunRecorded(id: RunId, exit: Exit, result: ResultFile, fileDefault: Option<real>, writable: bool)
      returns (outcome: Outcome)
      modifies this, file
      ensures var due := Due(exit, result, fileDefault, policy);
              var skipped := exit.Interrupted? && id in Ids(old(runs));
              if !skipped && due.Some? && Usable(due.value) && id !in Ids(old(runs)) && writable
              then && runs == old(runs) + [Booking(id, due.value.value)]
                   && file.saved == Some(Saved(Cap(policy.maxUsd), runs))
                   && outcome == EndOf(exit)
              else && runs == old(runs) && file.saved == old(file.saved)
                   && outcome == if skipped || exit.Escaped? then EndOf(exit) else Raises
    {
      var booked: Result<(), Error> := Ok(());
      match exit {
        case Completed(cost) => booked := Record(id, cost, writable);
        case Interrupted => booked := BookOutcome(id, result.CostUsd(), writable);
        case Stopped =>
          booked := BookFileCost(id, result, fileDefault, writable);
        case Mismatched =>
          booked := BookFileCost(id, result, fileDefault, writable);
        case Crashed => booked := RecordUnfinished(id, writable);
        case Escaped =>
      }
      outcome := if booked.Err? then Raises else EndOf(exit);
    }

    /** `_book_file_cost`: the named field of the result file; a missing file books nothing. */
    method BookFileCost(id: RunId, result: ResultFile, fileDefault: Option<real>, writable: bool)
      returns (r: Result<(), Error>)
      modifies this, file
      ensures var due := FileCost(result, fileDefault);
              r.Ok? <==> due.Some? && Usable(due.value) && id !in Ids(old(runs)) && writable
      ensures r.Ok? ==> && runs == old(runs) + [Booking(id, FileCost(result, fileDefault).value.value)]
                        && file.saved == Some(Saved(Cap(policy.maxUsd), runs))
      ensures r.Err? ==> runs == old(runs) && file.saved == old(file.saved)
    {
      var due := FileCost(result, fileDefault);
      if due.None? {
        return Err(CostRefused);
      }
      r := Record(id, due.value, writable);
    }
  }

  // ----- How an attempt ends -----

  /** `Stopped` has a stop reason, `Mismatched` is one of the named error types, `Escaped` is any other
      BaseException, which nothing here catches. */
  datatype Exit = Completed(cost: Amount) | Interrupted | Stopped | Mismatched | Crashed | Escaped

  datatype Outcome = Returns | StopReason | Raises

  function EndOf(exit: Exit): Outcome {
    match exit
    case Completed(_) => Returns
    case Stopped => StopReason
    case _ => Raises
  }

  /** A JSON value where a cost is expected. `float` is what Python's `float` makes of a text: none where it raises. */
  datatype Field =
    | Absent
    | Null
    | Flag(value: bool)
    | Number(usd: real)
    | NonFinite
    | Text(text: string, float: Option<Amount>)
    | Container(empty: bool)

  /** `not value`. */
  predicate Falsy(field: Field) {
    match field
    case Absent => true
    case Null => true
    case Flag(value) => !value
    case Number(usd) => usd == 0.0
    case NonFinite => false
    case Text(text, _) => text == ""
    case Container(empty) => empty
  }

  /** `float(value)` of a value that is not falsy. */
  function FloatOf(field: Field): Option<Amount> {
    match field
    case Flag(_) => Some(Usd(1.0))
    case Number(usd) => Some(Usd(usd))
    case NonFinite => Some(NotFinite)
    case Text(_, float) => float
    case _ => None
  }

  /** What `math.isfinite` takes as it is; it raises on all else. */
  function AsNumber(field: Field): Option<Amount> {
    match field
    case Flag(value) => Some(Usd(if value then 1.0 else 0.0))
    case Number(usd) => Some(Usd(usd))
    case NonFinite => Some(NotFinite)
    case _ => None
  }

  /** The result file: absent or unreadable, or its `cost_usd` and the field the study books. */
  datatype ResultFile = NoFile | Result(costUsd: Amount, costKey: Field) {
    function CostUsd(): Amount {
      if NoFile? then Missing else costUsd
    }
  }

  /** The amount `_book_file_cost` books, if it comes to one; a default replaces a field that is missing or falsy. */
  function FileCost(result: ResultFile, fileDefault: Option<real>): Option<Amount> {
    if result.NoFile? then None
    else if fileDefault.Some? then
      if Falsy(result.costKey) then Some(Usd(fileDefault.value)) else FloatOf(result.costKey)
    else AsNumber(result.costKey)
  }

  /** The amount due for each way to end, or None when nothing is booked. */
  function Due(exit: Exit, result: ResultFile, fileDefault: Option<real>, policy: SpendPolicy): Option<Amount> {
    match exit
    case Completed(cost) => Some(cost)
    case Interrupted => Some(if Usable(result.CostUsd()) then result.CostUsd() else Usd(policy.runBoundUsd))
    case Stopped => FileCost(result, fileDefault)
    case Mismatched => FileCost(result, fileDefault)
    case Crashed => Some(Usd(policy.runBoundUsd))
    case Escaped => None
  }
}
