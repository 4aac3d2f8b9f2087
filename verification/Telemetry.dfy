/** Counters and duration histograms, cumulated only when a snapshot is taken. */
module Telemetry {
  import opened Counting
  import opened Listings
  import opened Wrappers

  // ----- Spans and counters -----

  datatype Span =
    | Tool(tool: string, outcome: Option<string>, action: Option<string>, items: map<string, real>,
           truncated: set<string>, seconds: real)
    | Evaluate(error: Option<string>, input: real, output: real, seconds: real)
    | Validate(valid: Option<bool>, kind: string, seconds: real)
    | Regex(timedOut: bool, seconds: real)
    | OtherSpan(name: string, seconds: real)

  datatype Counter =
    | Calls(tool: string)
    | Outcomes(tool: string, outcome: string)
    | Actions(action: string)
    | ItemActions(tool: string, action: string)
    | Truncated(scope: string)
    | ProviderErrors(error: string)
    | Tokens(direction: string)
    | FailClosed(kind: string)
    | RegexTimeouts

  const ACTIONS := ["auto", "review", "escalate"]
  const CAP_SCOPES := ["context", "item"]

  function NameOf(span: Span): string {
    match span
    case Tool(_, _, _, _, _, _) => "mcp.tool"
    case Evaluate(_, _, _, _) => "jev.evaluate"
    case Validate(_, _, _) => "jev.validate"
    case Regex(_, _) => "regex.extract"
    case OtherSpan(name, _) => name
  }

  function OutcomeOf(span: Span): string
    requires span.Tool?
  {
    if span.outcome.Some? then span.outcome.value else "none"
  }

  // ----- Counting spans -----

  type Values = map<Counter, real>

  function Amount(values: Values, key: Counter): real {
    if key in values then values[key] else 0.0
  }

  /** `_add`. */
  function Add(values: Values, key: Counter, amount: real): Values {
    values[key := Amount(values, key) + amount]
  }

  function AddAction(values: Values, span: Span, action: string): Values
    requires span.Tool?
  {
    var counted := Add(values, Actions(action), if span.action == Some(action) then 1.0 else 0.0);
    var items := if action in span.items then span.items[action] else 0.0;
    if items != 0.0 then Add(counted, ItemActions(span.tool, action), items) else counted
  }

  function AddScope(values: Values, span: Span, scope: string): Values
    requires span.Tool?
  {
    if scope in span.truncated then Add(values, Truncated(scope), 1.0) else values
  }

  /** The first `n` actions, and the first `n` scopes. */
  function AddActions(values: Values, span: Span, n: nat): Values
    requires span.Tool? && n <= |ACTIONS|
  {
    if n == 0 then values else AddAction(AddActions(values, span, n - 1), span, ACTIONS[n - 1])
  }

  function AddScopes(values: Values, span: Span, n: nat): Values
    requires span.Tool? && n <= |CAP_SCOPES|
  {
    if n == 0 then values else AddScope(AddScopes(values, span, n - 1), span, CAP_SCOPES[n - 1])
  }

  function AddCall(values: Values, span: Span): Values
    requires span.Tool?
  {
    Add(Add(values, Calls(span.tool), 1.0), Outcomes(span.tool, OutcomeOf(span)), 1.0)
  }

  function AddTool(values: Values, span: Span): Values
    requires span.Tool?
  {
    AddScopes(AddActions(AddCall(values, span), span, |ACTIONS|), span, |CAP_SCOPES|)
  }

  function Counted(values: Values, span: Span): Values {
    match span
    case Tool(_, _, _, _, _, _) => AddTool(values, span)
    case Evaluate(error, input, output, _) =>
      var failed := if error.Some? then Add(values, ProviderErrors(error.value), 1.0) else values;
      Add(Add(failed, Tokens("input"), input), Tokens("output"), output)
    case Validate(valid, kind, _) => if valid == Some(false) then Add(values, FailClosed(kind), 1.0) else values
    case Regex(timedOut, _) => if timedOut then Add(values, RegexTimeouts, 1.0) else values
    case OtherSpan(_, _) => values
  }

  function CountedAll(spans: seq<Span>): Values {
    if spans == [] then map[] else Counted(CountedAll(spans[..|spans| - 1]), spans[|spans| - 1])
  }

  // ----- Buckets -----

  /** The finite bounds; one more bucket has no bound. */
  const BOUNDS: seq<real> := [0.1, 0.5, 1.0, 2.5, 5.0, 10.0, 20.0, 50.0, 100.0, 250.0, 1000.0, 5000.0]
  const BUCKETS := 13

  predicate Within(ms: real, k: nat) {
    k >= |BOUNDS| || ms <= BOUNDS[k]
  }

  /** `bisect_left`: the first bucket from `k` on that the duration is within. */
  function BucketFrom(ms: real, k: nat): (bucket: nat)
    requires k < BUCKETS
    ensures k <= bucket < BUCKETS && Within(ms, bucket)
    ensures forall j :: k <= j < bucket ==> !Within(ms, j)
    decreases BUCKETS - k
  {
    if Within(ms, k) then k else BucketFrom(ms, k + 1)
  }

  function Bucket(ms: real): nat {
    BucketFrom(ms, 0)
  }

  function IsIn(k: nat): real -> bool {
    ms => Bucket(ms) == k
  }

  function IsWithin(k: nat): real -> bool {
    ms => Within(ms, k)
  }

  /** How many durations are in one bucket, and how many are at or below its bound. */
  function InBucket(ms: seq<real>, k: nat): nat {
    CountIf(ms, IsIn(k))
  }

  function AtOrBelow(ms: seq<real>, k: nat): nat {
    CountIf(ms, IsWithin(k))
  }

  function Sum(ms: seq<real>): real {
    if ms == [] then 0.0 else Sum(ms[..|ms| - 1]) + ms[|ms| - 1]
  }

  datatype Histogram = Histogram(counts: seq<nat>, total: real, count: nat) {
    /** The histogram holds these durations. */
    predicate Holds(ms: seq<real>) {
      && |counts| == BUCKETS && (forall k :: 0 <= k < BUCKETS ==> counts[k] == InBucket(ms, k))
      && total == Sum(ms) && count == |ms|
    }

    /** `observe`. */
    function Observed(ms: real): Histogram
      requires |counts| == BUCKETS
    {
      Histogram(counts[Bucket(ms) := counts[Bucket(ms)] + 1], total + ms, count + 1)
    }

    /** The cumulative buckets of a snapshot: each is the number of durations at or below its bound. */
    method Cumulate(ghost seen: seq<real>) returns (buckets: seq<nat>)
      requires Holds(seen)
      ensures |buckets| == BUCKETS
      ensures forall k :: 0 <= k < BUCKETS ==> buckets[k] == AtOrBelow(seen, k)
    {
      buckets := [];
      var cumulative := 0;
      for k := 0 to BUCKETS
        invariant |buckets| == k && cumulative == if k == 0 then 0 else AtOrBelow(seen, k - 1)
        invariant forall j :: 0 <= j < k ==> buckets[j] == AtOrBelow(seen, j)
      {
        NextBucket(seen, k);
        cumulative := cumulative + counts[k];
        buckets := buckets + [cumulative];
      }
    }
  }

  const EMPTY := Histogram([0, 0, 0, 0, 0, 0, 0, 0, 0, 0, 0, 0, 0], 0.0, 0)

  /** Observing adds one duration. */
  lemma ObservedHolds(h: Histogram, seen: seq<real>, ms: real)
    requires h.Holds(seen)
    ensures h.Observed(ms).Holds(seen + [ms])
  {
    forall j | 0 <= j < BUCKETS
      ensures InBucket(seen + [ms], j) == InBucket(seen, j) + if j == Bucket(ms) then 1 else 0
    {
      CountIfAppend(seen, ms, IsIn(j));
    }
    assert (seen + [ms])[..|seen|] == seen;
  }

  lemma {:induction false} BoundsAscend(ms: real, j: nat, k: nat)
    requires j <= k && Within(ms, j)
    ensures Within(ms, k)
    decreases k - j
  {
    if j < k {
      assert j + 1 < |BOUNDS| ==> BOUNDS[j] < BOUNDS[j + 1];
      BoundsAscend(ms, j + 1, k);
    }
  }

  lemma BucketIsFirst(ms: real, k: nat)
    requires k < BUCKETS
    ensures Within(ms, k) <==> Bucket(ms) == k || (k > 0 && Within(ms, k - 1))
    ensures k > 0 && Within(ms, k - 1) ==> Bucket(ms) != k
  {
    if Within(ms, k) && Bucket(ms) < k {
      BoundsAscend(ms, Bucket(ms), k - 1);
    }
    if k > 0 && Within(ms, k - 1) {
      BoundsAscend(ms, k - 1, k);
    }
  }

  /** One more bucket adds the durations in it. */
  lemma {:induction false} NextBucket(ms: seq<real>, k: nat)
    requires k < BUCKETS
    ensures AtOrBelow(ms, k) == (if k == 0 then 0 else AtOrBelow(ms, k - 1)) + InBucket(ms, k)
  {
    if ms != [] {
      NextBucket(ms[..|ms| - 1], k);
      BucketIsFirst(ms[|ms| - 1], k);
    }
  }

  /** Cumulative buckets never fall, and the last one counts every duration. */
  lemma {:induction false} BucketsAscend(ms: seq<real>, j: nat, k: nat)
    requires j <= k < BUCKETS
    ensures AtOrBelow(ms, j) <= AtOrBelow(ms, k) && AtOrBelow(ms, BUCKETS - 1) == |ms|
  {
    if ms != [] {
      var last := ms[|ms| - 1];
      BucketsAscend(ms[..|ms| - 1], j, k);
      if Within(last, j) {
        BoundsAscend(last, j, k);
      }
    }
  }

  // ----- Metrics -----

  /** The durations of the spans of one name, in milliseconds. */
  function Durations(spans: seq<Span>, name: string): seq<real> {
    if spans == [] then []
    else
      var last := spans[|spans| - 1];
      Durations(spans[..|spans| - 1], name) + if NameOf(last) == name then [last.seconds * 1000.0] else []
  }

  lemma DurationsAppend(spans: seq<Span>, span: Span, name: string)
    ensures Durations(spans + [span], name)
            == Durations(spans, name) + if NameOf(span) == name then [span.seconds * 1000.0] else []
  {
    assert (spans + [span])[..|spans|] == spans;
  }

  lemma CountedAllAppend(spans: seq<Span>, span: Span)
    ensures CountedAll(spans + [span]) == Counted(CountedAll(spans), span)
  {
    assert (spans + [span])[..|spans|] == spans;
  }

  function HistogramOf(durations: map<string, Histogram>, name: string): Histogram {
    if name in durations then durations[name] else EMPTY
  }

  function AfterOne(durations: map<string, Histogram>, name: string, ms: real): map<string, Histogram>
    requires |HistogramOf(durations, name).counts| == BUCKETS
  {
    durations[name := HistogramOf(durations, name).Observed(ms)]
  }

  /** One histogram to a name with durations, holding those. */
  predicate Tallied(durations: map<string, Histogram>, spans: seq<Span>) {
    && durations.Keys == Named(spans)
    && forall n {:trigger TalliedAt(durations, spans, n)} :: n in durations ==> TalliedAt(durations, spans, n)
  }

  predicate TalliedAt(durations: map<string, Histogram>, spans: seq<Span>, name: string)
    requires name in durations
  {
    durations[name].Holds(Durations(spans, name))
  }

  function Named(spans: seq<Span>): set<string> {
    set i | 0 <= i < |spans| :: NameOf(spans[i])
  }

  lemma {:induction false} NoDurations(spans: seq<Span>, name: string)
    ensures name !in Named(spans) <==> Durations(spans, name) == []
  {
    if spans != [] {
      var front, last := spans[..|spans| - 1], spans[|spans| - 1];
      NoDurations(front, name);
      assert forall i :: 0 <= i < |front| ==> NameOf(spans[i]) == NameOf(front[i]);
      assert name in Named(spans) <==> name in Named(front) || name == NameOf(last);
    }
  }

  lemma HistogramHolds(durations: map<string, Histogram>, spans: seq<Span>, name: string)
    requires Tallied(durations, spans)
    ensures HistogramOf(durations, name).Holds(Durations(spans, name))
  {
    NoDurations(spans, name);
    if name in durations {
      assert TalliedAt(durations, spans, name);
    } else {
      NothingHeld();
    }
  }

  lemma NothingHeld()
    ensures EMPTY.Holds([])
  {
  }

  lemma ObserveNames(spans: seq<Span>, span: Span)
    ensures Named(spans + [span]) == Named(spans) + {NameOf(span)}
  {
    var all := spans + [span];
    assert all[|spans|] == span;
    assert forall i :: 0 <= i < |spans| ==> all[i] == spans[i];
  }

  /** Only the histogram of the span's name changes. */
  lemma OthersKeep(durations: map<string, Histogram>, spans: seq<Span>, span: Span, next: Histogram)
    requires Tallied(durations, spans) && next.Holds(Durations(spans + [span], NameOf(span)))
    ensures Tallied(durations[NameOf(span) := next], spans + [span])
  {
    var after := durations[NameOf(span) := next];
    ObserveNames(spans, span);
    forall n | n in after
      ensures TalliedAt(after, spans + [span], n)
    {
      if n != NameOf(span) {
        DurationsAppend(spans, span, n);
        assert TalliedAt(durations, spans, n);
        assert Durations(spans + [span], n) == Durations(spans, n);
      }
    }
  }

  lemma ObserveTallies(durations: map<string, Histogram>, spans: seq<Span>, span: Span)
    requires Tallied(durations, spans)
    ensures |HistogramOf(durations, NameOf(span)).counts| == BUCKETS
    ensures Tallied(AfterOne(durations, NameOf(span), span.seconds * 1000.0), spans + [span])
  {
    var name, ms := NameOf(span), span.seconds * 1000.0;
    HistogramHolds(durations, spans, name);
    DurationsAppend(spans, span, name);
    ObservedHolds(HistogramOf(durations, name), Durations(spans, name), ms);
    OthersKeep(durations, spans, span, HistogramOf(durations, name).Observed(ms));
  }

  predicate Holds(values: Values, durations: map<string, Histogram>, spans: seq<Span>) {
    values == CountedAll(spans) && Tallied(durations, spans)
  }

  lemma RecordKeeps(values: Values, durations: map<string, Histogram>, spans: seq<Span>, span: Span)
    requires Holds(values, durations, spans)
    ensures |HistogramOf(durations, NameOf(span)).counts| == BUCKETS
    ensures Holds(Counted(values, span), AfterOne(durations, NameOf(span), span.seconds * 1000.0), spans + [span])
  {
    ObserveTallies(durations, spans, span);
    CountedAllAppend(spans, span);
  }

  /** One span name's part of a snapshot. */
  datatype Summary = Summary(buckets: map<nat, nat>, total: real, count: nat)

  class Metrics {
    var values: Values
    var durations: map<string, Histogram>
    ghost var seen: seq<Span>

    ghost predicate Valid()
      reads this
    {
      Holds(values, durations, seen)
    }

    constructor ()
      ensures Valid() && seen == []
    {
      values, durations, seen := map[], map[], [];
    }

    /** `record`. */
    method Record(span: Span)
      requires Valid()
      modifies this
      ensures Valid() && seen == old(seen) + [span]
    {
      RecordKeeps(values, durations, seen, span);
      Count(span);
      Observe(NameOf(span), span.seconds * 1000.0);
      seen := seen + [span];
    }

    method Count(span: Span)
      modifies this`values
      ensures values == Counted(old(values), span)
    {
      match span {
        case Tool(tool, outcome, action, items, truncated, _) =>
          values := Add(values, Calls(tool), 1.0);
          values := Add(values, Outcomes(tool, OutcomeOf(span)), 1.0);
          ghost var called := values;
          for i := 0 to |ACTIONS|
            invariant values == AddActions(called, span, i)
          {
            values := AddAction(values, span, ACTIONS[i]);
          }
          ghost var acted := values;
          for i := 0 to |CAP_SCOPES|
            invariant values == AddScopes(acted, span, i)
          {
            values := AddScope(values, span, CAP_SCOPES[i]);
          }
        case Evaluate(error, input, output, _) =>
          if error.Some? {
            values := Add(values, ProviderErrors(error.value), 1.0);
          }
          values := Add(values, Tokens("input"), input);
          values := Add(values, Tokens("output"), output);
        case Validate(valid, kind, _) =>
          if valid == Some(false) {
            values := Add(values, FailClosed(kind), 1.0);
          }
        case Regex(timedOut, _) =>
          if timedOut {
            values := Add(values, RegexTimeouts, 1.0);
          }
        case OtherSpan(_, _) =>
      }
    }

    /** `_observe`: the histogram of a name is made at its first duration. */
    method Observe(name: string, ms: real)
      requires |HistogramOf(durations, name).counts| == BUCKETS
      modifies this`durations
      ensures durations == AfterOne(old(durations), name, ms)
    {
      if name !in durations {
        durations := durations[name := EMPTY];
      }
      durations := durations[name := durations[name].Observed(ms)];
    }

    static method Summarize(histogram: Histogram, ghost ms: seq<real>) returns (summary: Summary)
      requires histogram.Holds(ms)
      ensures Summarizes(summary, ms)
    {
      var buckets := histogram.Cumulate(ms);
      summary := Summary(map k: nat | 0 <= k < BUCKETS && buckets[k] > 0 :: buckets[k],
                         histogram.total, histogram.count);
    }

    /** `snapshot`, in whatever order; a bucket that nothing has reached is left out. */
    method Snapshot() returns (counters: Values, summaries: map<string, Summary>)
      requires Valid()
      ensures counters == CountedAll(seen)
      ensures forall n :: n in summaries <==> n in Named(seen)
      ensures forall n :: n in summaries ==> Summarizes(summaries[n], Durations(seen, n))
    {
      counters := values;
      summaries := map[];
      var left := durations.Keys;
      while left != {}
        invariant left <= durations.Keys
        invariant forall n :: n in summaries <==> n in durations && n !in left
        invariant forall n :: n in summaries ==> Summarizes(summaries[n], Durations(seen, n))
        decreases |left|
      {
        var name :| name in left;
        assert TalliedAt(durations, seen, name);
        var summary := Summarize(durations[name], Durations(seen, name));
        summaries, left := summaries[name := summary], left - {name};
      }
    }
  }

  /** A bucket counts the durations at or below its bound and is left out when there are none. */
  ghost predicate Summarizes(summary: Summary, ms: seq<real>) {
    && (forall k: nat :: k in summary.buckets <==> k < BUCKETS && AtOrBelow(ms, k) > 0)
    && (forall k: nat :: k in summary.buckets ==> summary.buckets[k] == AtOrBelow(ms, k))
    && summary.total == Sum(ms) && summary.count == |ms|
  }

  // ----- Calls and outcomes -----

  function IsCall(tool: string): Span -> bool {
    (span: Span) => span.Tool? && span.tool == tool
  }

  function EndsIn(tool: string, outcome: string): Span -> bool {
    (span: Span) => span.Tool? && span.tool == tool && OutcomeOf(span) == outcome
  }

  // ----- What every counter adds up to -----

  /** What one span adds to a counter. */
  function Share(key: Counter, span: Span): real {
    match key
    case Calls(tool) => One(span.Tool? && span.tool == tool)
    case Outcomes(tool, outcome) => One(span.Tool? && span.tool == tool && OutcomeOf(span) == outcome)
    case Actions(action) => One(span.Tool? && action in ACTIONS && span.action == Some(action))
    case ItemActions(tool, action) =>
      if span.Tool? && span.tool == tool && action in ACTIONS && action in span.items then span.items[action] else 0.0
    case Truncated(scope) => One(span.Tool? && scope in CAP_SCOPES && scope in span.truncated)
    case ProviderErrors(error) => One(span.Evaluate? && span.error == Some(error))
    case Tokens(direction) =>
      if !span.Evaluate? then 0.0
      else if direction == "input" then span.input
      else if direction == "output" then span.output
      else 0.0
    case FailClosed(kind) => One(span.Validate? && span.valid == Some(false) && span.kind == kind)
    case RegexTimeouts => One(span.Regex? && span.timedOut)
  }

  function One(holds: bool): real {
    if holds then 1.0 else 0.0
  }

  /** Whether a span makes the counter, be it with nothing in it. */
  predicate Makes(key: Counter, span: Span) {
    match key
    case Actions(action) => span.Tool? && action in ACTIONS
    case Tokens(direction) => span.Evaluate? && direction in ["input", "output"]
    case _ => Share(key, span) != 0.0
  }

  function Total(spans: seq<Span>, key: Counter): real {
    if spans == [] then 0.0 else Total(spans[..|spans| - 1], key) + Share(key, spans[|spans| - 1])
  }

  /** What the first `n` actions add, and the first `n` scopes. */
  function ActionShare(key: Counter, span: Span, n: nat): real
    requires span.Tool? && n <= |ACTIONS|
  {
    if (key.Actions? || key.ItemActions?) && key.action in ACTIONS[..n] then Share(key, span) else 0.0
  }

  function ScopeShare(key: Counter, span: Span, n: nat): real
    requires span.Tool? && n <= |CAP_SCOPES|
  {
    if key.Truncated? && key.scope in CAP_SCOPES[..n] then Share(key, span) else 0.0
  }

  lemma {:induction false} ActionsAdd(values: Values, span: Span, n: nat, key: Counter)
    requires span.Tool? && n <= |ACTIONS|
    ensures Amount(AddActions(values, span, n), key) == Amount(values, key) + ActionShare(key, span, n)
    ensures key in AddActions(values, span, n) <==>
              key in values || ((key.Actions? || key.ItemActions?) && key.action in ACTIONS[..n] && Makes(key, span))
  {
    if n > 0 {
      ActionsAdd(values, span, n - 1, key);
      assert ACTIONS[..n] == ACTIONS[..n - 1] + [ACTIONS[n - 1]];
      assert ACTIONS[n - 1] !in ACTIONS[..n - 1];
    }
  }

  lemma {:induction false} ScopesAdd(values: Values, span: Span, n: nat, key: Counter)
    requires span.Tool? && n <= |CAP_SCOPES|
    ensures Amount(AddScopes(values, span, n), key) == Amount(values, key) + ScopeShare(key, span, n)
    ensures key in AddScopes(values, span, n) <==>
              key in values || (key.Truncated? && key.scope in CAP_SCOPES[..n] && Makes(key, span))
  {
    if n > 0 {
      ScopesAdd(values, span, n - 1, key);
      assert CAP_SCOPES[..n] == CAP_SCOPES[..n - 1] + [CAP_SCOPES[n - 1]];
      assert CAP_SCOPES[n - 1] !in CAP_SCOPES[..n - 1];
    }
  }

  lemma ToolAdds(values: Values, span: Span, key: Counter)
    requires span.Tool?
    ensures Amount(AddTool(values, span), key) == Amount(values, key) + Share(key, span)
    ensures key in AddTool(values, span) <==> key in values || Makes(key, span)
  {
    var called := AddCall(values, span);
    var acted := AddActions(called, span, |ACTIONS|);
    ActionsAdd(called, span, |ACTIONS|, key);
    ScopesAdd(acted, span, |CAP_SCOPES|, key);
    assert ACTIONS[..|ACTIONS|] == ACTIONS && CAP_SCOPES[..|CAP_SCOPES|] == CAP_SCOPES;
  }

  lemma SpanAdds(values: Values, span: Span, key: Counter)
    ensures Amount(Counted(values, span), key) == Amount(values, key) + Share(key, span)
    ensures key in Counted(values, span) <==> key in values || Makes(key, span)
  {
    if span.Tool? {
      ToolAdds(values, span, key);
    }
  }

  /** Every counter is the sum of what its spans add, and is there exactly when some span makes it. */
  lemma {:induction false} CountersAddUp(spans: seq<Span>, key: Counter)
    ensures Amount(CountedAll(spans), key) == Total(spans, key)
    ensures key in CountedAll(spans) <==> exists span :: span in spans && Makes(key, span)
  {
    if spans != [] {
      var front, last := spans[..|spans| - 1], spans[|spans| - 1];
      CountersAddUp(front, key);
      SpanAdds(CountedAll(front), last, key);
      assert spans == front + [last];
    }
  }

  lemma {:induction false} TotalConcat(a: seq<Span>, b: seq<Span>, key: Counter)
    ensures Total(a + b, key) == Total(a, key) + Total(b, key)
  {
    if b == [] {
      assert a + b == a;
    } else {
      assert (a + b)[..|a + b| - 1] == a + b[..|b| - 1];
      TotalConcat(a, b[..|b| - 1], key);
    }
  }

  lemma TotalTakes(spans: seq<Span>, k: nat, key: Counter)
    requires k < |spans|
    ensures Total(spans, key) == Total(spans[..k] + spans[k + 1..], key) + Share(key, spans[k])
  {
    var a, x, b := spans[..k], spans[k], spans[k + 1..];
    assert spans == (a + [x]) + b;
    TotalConcat(a + [x], b, key);
    TotalConcat(a, b, key);
    assert (a + [x])[..|a|] == a;
  }

  lemma {:induction false} TotalPermuted(a: seq<Span>, b: seq<Span>, key: Counter)
    requires multiset(a) == multiset(b)
    ensures Total(a, key) == Total(b, key)
  {
    if a == [] {
      assert |multiset(b)| == |b| == 0;
    } else {
      var k := PermutedTakes(a, b);
      TotalPermuted(a[..|a| - 1], b[..k] + b[k + 1..], key);
      TotalTakes(b, k, key);
    }
  }

  /** The counters do not depend on the order in which spans are recorded. */
  lemma OrderDoesNotMatter(a: seq<Span>, b: seq<Span>)
    requires multiset(a) == multiset(b)
    ensures CountedAll(a) == CountedAll(b)
  {
    assert forall span :: span in a <==> span in multiset(a);
    assert forall span :: span in b <==> span in multiset(b);
    forall key
      ensures key in CountedAll(a) <==> key in CountedAll(b)
      ensures Amount(CountedAll(a), key) == Amount(CountedAll(b), key)
    {
      CountersAddUp(a, key);
      CountersAddUp(b, key);
      TotalPermuted(a, b, key);
    }
  }

  /** The counters of a tool are the numbers of its spans, in all and by outcome. */
  lemma {:induction false} CountersCount(spans: seq<Span>, tool: string, outcome: string)
    ensures Amount(CountedAll(spans), Calls(tool)) == CountIf(spans, IsCall(tool)) as real
    ensures Amount(CountedAll(spans), Outcomes(tool, outcome)) == CountIf(spans, EndsIn(tool, outcome)) as real
  {
    if spans != [] {
      var front, last := spans[..|spans| - 1], spans[|spans| - 1];
      CountersCount(front, tool, outcome);
      SpanAdds(CountedAll(front), last, Calls(tool));
      SpanAdds(CountedAll(front), last, Outcomes(tool, outcome));
    }
  }

  function SumOf(values: Values, tool: string, outcomes: seq<string>): real {
    if outcomes == [] then 0.0
    else SumOf(values, tool, outcomes[1..]) + Amount(values, Outcomes(tool, outcomes[0]))
  }

  function EndsInOne(tool: string, outcomes: seq<string>): Span -> bool {
    (span: Span) => span.Tool? && span.tool == tool && OutcomeOf(span) in outcomes
  }

  lemma {:induction false} CountSplits(spans: seq<Span>, tool: string, outcome: string, others: seq<string>)
    requires outcome !in others
    ensures CountIf(spans, EndsInOne(tool, [outcome] + others))
            == CountIf(spans, EndsIn(tool, outcome)) + CountIf(spans, EndsInOne(tool, others))
  {
    if spans != [] {
      CountSplits(spans[..|spans| - 1], tool, outcome, others);
    }
  }

  lemma {:induction false} SumCounts(spans: seq<Span>, tool: string, outcomes: seq<string>)
    requires Distinct(outcomes)
    ensures SumOf(CountedAll(spans), tool, outcomes) == CountIf(spans, EndsInOne(tool, outcomes)) as real
  {
    if outcomes == [] {
      NoneEnds(spans, tool);
    } else {
      assert outcomes == [outcomes[0]] + outcomes[1..];
      SumCounts(spans, tool, outcomes[1..]);
      CountSplits(spans, tool, outcomes[0], outcomes[1..]);
      CountersCount(spans, tool, outcomes[0]);
    }
  }

  lemma {:induction false} NoneEnds(spans: seq<Span>, tool: string)
    ensures CountIf(spans, EndsInOne(tool, [])) == 0
  {
    if spans != [] {
      NoneEnds(spans[..|spans| - 1], tool);
    }
  }

  /** A tool's outcome counters sum to its call counter, over any list of distinct outcomes that misses none. */
  lemma OutcomesSumToCalls(spans: seq<Span>, tool: string, outcomes: seq<string>)
    requires Distinct(outcomes)
    requires forall i :: 0 <= i < |spans| && spans[i].Tool? && spans[i].tool == tool ==> OutcomeOf(spans[i]) in outcomes
    ensures SumOf(CountedAll(spans), tool, outcomes) == Amount(CountedAll(spans), Calls(tool))
  {
    SumCounts(spans, tool, outcomes);
    AllEnd(spans, tool, outcomes);
    CountersCount(spans, tool, "");
  }

  lemma {:induction false} AllEnd(spans: seq<Span>, tool: string, outcomes: seq<string>)
    requires forall i :: 0 <= i < |spans| && spans[i].Tool? && spans[i].tool == tool ==> OutcomeOf(spans[i]) in outcomes
    ensures CountIf(spans, EndsInOne(tool, outcomes)) == CountIf(spans, IsCall(tool))
  {
    if spans != [] {
      AllEnd(spans[..|spans| - 1], tool, outcomes);
    }
  }
}
