/** The relay's own record of forwarded calls, and the rows it writes when the recorder cannot be closed. */
module Relay {
  import opened Counting
  import opened Dicts
  import opened Listings
  import opened Wrappers
  import BenchProxy

  // ----- _Pending -----

  /** A call as the relay notes it: the name it asked for, if any. The number is the one the recorder gave the call, or
      none when the recorder raised on it; it stands for the times the source keeps, and no operation reads it. */
  datatype NotedCall = NotedCall(tool: Option<string>, number: Option<nat>)

  /** Forwarded calls by id. */
  type Noted = Dict<NotedCall>

  class PendingCalls {
    var aborted: bool
    var calls: Noted

    ghost predicate Valid()
      reads this
    {
      UniqueKeys(calls)
    }

    ghost function Now(): Record
      reads this
    {
      Record(aborted, calls)
    }

    constructor ()
      ensures Valid() && Now() == NOTHING
    {
      aborted, calls := false, [];
    }

    /** True for the first caller only. */
    method Begin() returns (first: bool)
      modifies this`aborted
      ensures Now() == After(old(Now()), Step.Begin) && first == !old(aborted)
    {
      first := !aborted;
      aborted := true;
    }

    /** A reused id keeps the first call; nothing is noted once the relay aborts. */
    method Note(key: string, call: NotedCall)
      requires Valid()
      modifies this`calls
      ensures Valid() && Now() == After(old(Now()), Step.Note(key, call))
    {
      if aborted || Has(calls, key) {
        return;
      }
      calls := calls + [Entry(key, call)];
    }

    method Drop(key: string)
      requires Valid()
      modifies this`calls
      ensures Valid() && Now() == After(old(Now()), Step.Drop(key)) && !Has(calls, key)
    {
      RemoveKeepsOthers(calls, key);
      calls := Remove(calls, key);
      assert forall e :: e in calls ==> e.key != key;
    }

    /** Every call once, in the order they were noted. */
    method Snapshot() returns (noted: seq<NotedCall>)
      requires Valid()
      ensures |noted| == |calls| && forall i :: 0 <= i < |noted| ==> Get(calls, calls[i].key) == Some(noted[i])
    {
      noted := Values(calls);
      forall i | 0 <= i < |noted|
        ensures Get(calls, calls[i].key) == Some(noted[i])
      {
        GetAt(calls, i);
      }
    }
  }

  /** What the two threads do with the record. */
  datatype Step = Begin | Note(key: string, call: NotedCall) | Drop(key: string)

  datatype Record = Record(aborted: bool, calls: Noted)

  const NOTHING := Record(false, [])

  function After(r: Record, step: Step): Record {
    match step
    case Begin => r.(aborted := true)
    case Note(key, call) => if r.aborted || Has(r.calls, key) then r else r.(calls := r.calls + [Entry(key, call)])
    case Drop(key) => r.(calls := Remove(r.calls, key))
  }

  /** How often `begin` answers true. */
  function Firsts(r: Record, steps: seq<Step>): nat
    decreases |steps|
  {
    if steps == [] then 0
    else (if steps[0].Begin? && !r.aborted then 1 else 0) + Firsts(After(r, steps[0]), steps[1..])
  }

  /** However the threads interleave, exactly one of those that abort goes first. */
  lemma {:induction false} OneGoesFirst(r: Record, steps: seq<Step>)
    ensures Firsts(r, steps) == if !r.aborted && Begin in steps then 1 else 0
    decreases |steps|
  {
    if steps != [] {
      OneGoesFirst(After(r, steps[0]), steps[1..]);
      assert steps == [steps[0]] + steps[1..];
    }
  }

  // ----- _fallback_rows -----

  /** The fields of a log line the relay looks at. */
  datatype Line = Line(number: Option<int>, tool: Option<string>, unanswered: bool)

  /** A row for a call: its tool and its times. */
  datatype FallbackRow = FallbackRow(number: int, call: NotedCall)

  function ToolKey(tool: Option<string>): string {
    if tool.Some? then tool.value else ""
  }

  function Fresh(before: seq<Line>, after: seq<Line>): seq<Line> {
    if |before| <= |after| && after[..|before|] == before then after[|before|..] else after
  }

  /** `max(seqs, default=-1) + 1`. */
  function NextNumber(lines: seq<Line>): int {
    if Numbers(lines) == [] then 0 else Greatest(Numbers(lines)) + 1
  }

  function Numbers(lines: seq<Line>): seq<int> {
    if lines == [] then []
    else (if lines[0].number.Some? then [lines[0].number.value] else []) + Numbers(lines[1..])
  }

  function Greatest(numbers: seq<int>): int
    requires numbers != []
  {
    if |numbers| == 1 then numbers[0]
    else
      var rest := Greatest(numbers[1..]);
      if rest > numbers[0] then rest else numbers[0]
  }

  function LoggedAs(key: string): Line -> bool {
    (line: Line) => line.unanswered && ToolKey(line.tool) == key
  }

  function CallFor(key: string): NotedCall -> bool {
    (call: NotedCall) => ToolKey(call.tool) == key
  }

  /** How many calls of a tool the recorder's close logged. */
  function Logged(recent: seq<Line>, key: string): nat {
    CountIf(recent, LoggedAs(key))
  }

  /** The calls that get a row: of each tool all but as many as close has logged, the earliest ones. */
  function Unlogged(calls: seq<NotedCall>, recent: seq<Line>): seq<NotedCall> {
    if calls == [] then []
    else
      var front, last := calls[..|calls| - 1], calls[|calls| - 1];
      Unlogged(front, recent) + if Skipped(front, last, recent) then [] else [last]
  }

  /** Close has logged more calls of this tool than those before it. */
  predicate Skipped(before: seq<NotedCall>, call: NotedCall, recent: seq<Line>) {
    CountIf(before, CallFor(ToolKey(call.tool))) < Logged(recent, ToolKey(call.tool))
  }

  function Count(tally: map<string, nat>, key: string): nat {
    if key in tally then tally[key] else 0
  }

  /** The `Counter` of the recent unanswered rows. */
  method Tally(recent: seq<Line>) returns (tally: map<string, nat>)
    ensures forall key :: Count(tally, key) == Logged(recent, key)
  {
    tally := map[];
    for i := 0 to |recent|
      invariant forall key :: Count(tally, key) == Logged(recent[..i], key)
    {
      var line := recent[i];
      assert recent[..i + 1] == recent[..i] + [line];
      forall key
        ensures Logged(recent[..i + 1], key) == Logged(recent[..i], key) + if LoggedAs(key)(line) then 1 else 0
      {
        CountIfAppend(recent[..i], line, LoggedAs(key));
      }
      if line.unanswered {
        tally := tally[ToolKey(line.tool) := Count(tally, ToolKey(line.tool)) + 1];
      }
    }
    assert recent[..|recent|] == recent;
  }

  /** The counter after the loop has seen `seen`. */
  ghost predicate Tracks(unanswered: map<string, nat>, recent: seq<Line>, seen: seq<NotedCall>) {
    forall key {:trigger Count(unanswered, key)} ::
      Count(unanswered, key) == Minus(Logged(recent, key), CountIf(seen, CallFor(key)))
  }

  lemma TracksNone(unanswered: map<string, nat>, recent: seq<Line>)
    requires forall key :: Count(unanswered, key) == Logged(recent, key)
    ensures Tracks(unanswered, recent, [])
  {
  }

  lemma TracksStep(unanswered: map<string, nat>, recent: seq<Line>, seen: seq<NotedCall>, call: NotedCall)
    requires Tracks(unanswered, recent, seen)
    ensures var left := Count(unanswered, ToolKey(call.tool));
            Tracks(if left > 0 then unanswered[ToolKey(call.tool) := left - 1] else unanswered, recent, seen + [call])
  {
    var key := ToolKey(call.tool);
    var left := Count(unanswered, key);
    var now := if left > 0 then unanswered[key := left - 1] else unanswered;
    forall k
      ensures Count(now, k) == Minus(Logged(recent, k), CountIf(seen + [call], CallFor(k)))
    {
      CountIfAppend(seen, call, CallFor(k));
      assert Count(unanswered, k) == Minus(Logged(recent, k), CountIf(seen, CallFor(k)));
    }
  }

  /** The rows of these calls, numbered from `first` on. */
  function Numbered(left: seq<NotedCall>, first: int): seq<FallbackRow> {
    seq(|left|, i requires 0 <= i < |left| => FallbackRow(first + i, left[i]))
  }

  lemma NumberedAppend(left: seq<NotedCall>, call: NotedCall, first: int)
    ensures Numbered(left + [call], first) == Numbered(left, first) + [FallbackRow(first + |left|, call)]
  {
  }

  /** `_fallback_rows`. */
  method FallbackRows(calls: seq<NotedCall>, before: seq<Line>, after: seq<Line>)
    returns (rows: seq<FallbackRow>)
    ensures rows == Numbered(Unlogged(calls, Fresh(before, after)), NextNumber(after))
  {
    var recent := Fresh(before, after);
    var tally := Tally(recent);
    TracksNone(tally, recent);
    rows := CountDown(calls, recent, tally, NextNumber(after));
  }

  /** The second loop: a call the counter still has is counted down, any other gets the next row. */
  method CountDown(calls: seq<NotedCall>, ghost recent: seq<Line>, tally: map<string, nat>, first: int)
    returns (rows: seq<FallbackRow>)
    requires Tracks(tally, recent, [])
    ensures rows == Numbered(Unlogged(calls, recent), first)
  {
    var unanswered, next := tally, first;
    rows := [];
    ghost var seen := [];
    for j := 0 to |calls|
      invariant seen == calls[..j] && Tracks(unanswered, recent, seen)
      invariant next == first + |rows| && rows == Numbered(Unlogged(seen, recent), first)
    {
      var call := calls[j];
      assert calls[..j + 1] == seen + [call];
      var key := ToolKey(call.tool);
      if Count(unanswered, key) > 0 {
        TakesCounted(unanswered, recent, seen, call);
        unanswered := unanswered[key := unanswered[key] - 1];
      } else {
        TakesLeft(unanswered, recent, seen, call, first);
        rows := rows + [FallbackRow(next, call)];
        next := next + 1;
      }
      seen := seen + [call];
    }
    assert calls[..|calls|] == calls;
  }

  /** One call: counted down when the counter has it, else left for a row. */
  lemma Takes(unanswered: map<string, nat>, recent: seq<Line>, seen: seq<NotedCall>, call: NotedCall)
    requires Tracks(unanswered, recent, seen)
    ensures var left := Count(unanswered, ToolKey(call.tool));
            && Tracks(if left > 0 then unanswered[ToolKey(call.tool) := left - 1] else unanswered, recent,
                      seen + [call])
            && Unlogged(seen + [call], recent)
            == if left > 0 then Unlogged(seen, recent) else Unlogged(seen, recent) + [call]
  {
    var key := ToolKey(call.tool);
    assert Count(unanswered, key) == Minus(Logged(recent, key), CountIf(seen, CallFor(key)));
    TracksStep(unanswered, recent, seen, call);
    UnloggedStep(seen, call, recent);
    assert Unlogged(seen, recent) + [] == Unlogged(seen, recent);
  }

  lemma TakesCounted(unanswered: map<string, nat>, recent: seq<Line>, seen: seq<NotedCall>, call: NotedCall)
    requires Tracks(unanswered, recent, seen) && Count(unanswered, ToolKey(call.tool)) > 0
    ensures var key := ToolKey(call.tool);
            && key in unanswered && Tracks(unanswered[key := unanswered[key] - 1], recent, seen + [call])
            && Unlogged(seen + [call], recent) == Unlogged(seen, recent)
  {
    Takes(unanswered, recent, seen, call);
  }

  lemma TakesLeft(unanswered: map<string, nat>, recent: seq<Line>, seen: seq<NotedCall>, call: NotedCall, first: int)
    requires Tracks(unanswered, recent, seen) && Count(unanswered, ToolKey(call.tool)) == 0
    ensures Tracks(unanswered, recent, seen + [call])
    ensures var rows := Numbered(Unlogged(seen, recent), first);
            Numbered(Unlogged(seen + [call], recent), first) == rows + [FallbackRow(first + |rows|, call)]
  {
    Takes(unanswered, recent, seen, call);
    NumberedAppend(Unlogged(seen, recent), call, first);
  }

  lemma UnloggedStep(seen: seq<NotedCall>, call: NotedCall, recent: seq<Line>)
    ensures Unlogged(seen + [call], recent)
            == Unlogged(seen, recent)
               + if Skipped(seen, call, recent) then [] else [call]
  {
    assert (seen + [call])[..|seen|] == seen;
  }

  // ----- What the rows account for -----

  /** Of each tool, as many calls get a row as close has not logged. */
  lemma {:induction false} UnloggedCount(calls: seq<NotedCall>, recent: seq<Line>, key: string)
    ensures CountIf(Unlogged(calls, recent), CallFor(key))
            == Minus(CountIf(calls, CallFor(key)), Logged(recent, key))
  {
    if calls != [] {
      var front, last := calls[..|calls| - 1], calls[|calls| - 1];
      UnloggedCount(front, recent, key);
      CountIfAppend(Unlogged(front, recent), last, CallFor(key));
      assert Unlogged(front, recent) + [] == Unlogged(front, recent);
    }
  }

  lemma {:induction false} GreatestIs(numbers: seq<int>)
    requires numbers != []
    ensures forall i :: 0 <= i < |numbers| ==> numbers[i] <= Greatest(numbers)
  {
    if |numbers| > 1 {
      GreatestIs(numbers[1..]);
      assert forall i :: 0 < i < |numbers| ==> numbers[i] == numbers[1..][i - 1];
    }
  }

  lemma {:induction false} NumbersHold(lines: seq<Line>, i: nat)
    requires i < |lines| && lines[i].number.Some?
    ensures lines[i].number.value in Numbers(lines)
    decreases |lines|
  {
    if i > 0 {
      NumbersHold(lines[1..], i - 1);
    }
  }

  /** A fallback number is above every number in the log. */
  lemma NextIsAboveAll(lines: seq<Line>, i: nat)
    requires i < |lines| && lines[i].number.Some?
    ensures lines[i].number.value < NextNumber(lines)
  {
    NumbersHold(lines, i);
    GreatestIs(Numbers(lines));
  }

  // ----- A close that fails halfway, then the fallback -----

  /** The rows written for a tool after close failed: close's own and the fallback's. */
  function RowsFor(calls: seq<NotedCall>, recent: seq<Line>, key: string): nat {
    Logged(recent, key) + CountIf(Unlogged(calls, recent), CallFor(key))
  }

  /** Of each tool as many rows as calls or, if close logged more than that, as close logged. */
  lemma EachToolIsAccounted(calls: seq<NotedCall>, recent: seq<Line>, key: string)
    ensures var noted, logged := CountIf(calls, CallFor(key)), Logged(recent, key);
            RowsFor(calls, recent, key) == if logged > noted then logged else noted
  {
    UnloggedCount(calls, recent, key);
  }

  // ----- Which calls the fallback skips -----

  function LoggedFor(logged: set<NotedCall>, key: string): NotedCall -> bool {
    (call: NotedCall) => call in logged && ToolKey(call.tool) == key
  }

  /** Of each tool, the calls that have a row already come before those that have none. */
  predicate EarliestLogged(calls: seq<NotedCall>, logged: set<NotedCall>) {
    forall i, j :: 0 <= i < j < |calls| && calls[j] in logged && ToolKey(calls[i].tool) == ToolKey(calls[j].tool) ==>
                     calls[i] in logged
  }

  /** Of each tool, as many noted calls have a row already as the counter skips. */
  ghost predicate AsManyAsCounted(calls: seq<NotedCall>, logged: set<NotedCall>, recent: seq<Line>) {
    forall key :: CountIf(calls, LoggedFor(logged, key)) == Least(Logged(recent, key), CountIf(calls, CallFor(key)))
  }

  function Least(a: nat, b: nat): nat {
    if a < b then a else b
  }

  lemma {:induction false} UnloggedIff(calls: seq<NotedCall>, recent: seq<Line>, i: nat)
    requires Distinct(calls) && i < |calls|
    ensures calls[i] in Unlogged(calls, recent) <==> !Skipped(calls[..i], calls[i], recent)
  {
    var n := |calls| - 1;
    UnloggedAreCalls(calls[..n], recent);
    if i < n {
      UnloggedIff(calls[..n], recent, i);
      assert calls[..n][..i] == calls[..i];
    }
  }

  lemma {:induction false} UnloggedAreCalls(calls: seq<NotedCall>, recent: seq<Line>)
    ensures forall call :: call in Unlogged(calls, recent) ==> call in calls
  {
    if calls != [] {
      UnloggedAreCalls(calls[..|calls| - 1], recent);
    }
  }

  lemma {:induction false} UnloggedOnce(calls: seq<NotedCall>, recent: seq<Line>)
    requires Distinct(calls)
    ensures Distinct(Unlogged(calls, recent))
  {
    if calls != [] {
      var front, last := calls[..|calls| - 1], calls[|calls| - 1];
      UnloggedOnce(front, recent);
      UnloggedAreCalls(front, recent);
      assert last !in front;
      assert last !in Unlogged(front, recent);
    }
  }

  /** Each noted call has a row already or gets one from the fallback, and never both. */
  predicate RowsMatch(calls: seq<NotedCall>, logged: set<NotedCall>, recent: seq<Line>) {
    forall i :: 0 <= i < |calls| ==> (calls[i] in logged <==> calls[i] !in Unlogged(calls, recent))
  }

  lemma {:induction false} MatchedCount(calls: seq<NotedCall>, logged: set<NotedCall>, recent: seq<Line>, n: nat,
                                        key: string)
    requires Distinct(calls) && RowsMatch(calls, logged, recent) && n <= |calls|
    ensures CountIf(calls[..n], LoggedFor(logged, key))
            == Least(Logged(recent, key), CountIf(calls[..n], CallFor(key)))
  {
    if n > 0 {
      MatchedCount(calls, logged, recent, n - 1, key);
      assert calls[..n] == calls[..n - 1] + [calls[n - 1]];
      CountIfAppend(calls[..n - 1], calls[n - 1], LoggedFor(logged, key));
      CountIfAppend(calls[..n - 1], calls[n - 1], CallFor(key));
      UnloggedIff(calls, recent, n - 1);
    }
  }

  lemma {:induction false} CountMonotone(calls: seq<NotedCall>, n: nat, p: NotedCall -> bool)
    requires n <= |calls|
    ensures CountIf(calls[..n], p) <= CountIf(calls, p)
  {
    assert calls == calls[..n] + calls[n..];
    CountIfConcat(calls[..n], calls[n..], p);
  }

  lemma {:induction false} CountAtMost(calls: seq<NotedCall>, p: NotedCall -> bool, q: NotedCall -> bool)
    requires forall i :: 0 <= i < |calls| && p(calls[i]) ==> q(calls[i])
    ensures CountIf(calls, p) <= CountIf(calls, q)
  {
    if calls != [] {
      CountAtMost(calls[..|calls| - 1], p, q);
    }
  }

  lemma EarlierIsSkipped(calls: seq<NotedCall>, recent: seq<Line>, i: nat, j: nat)
    requires i < j < |calls| && ToolKey(calls[i].tool) == ToolKey(calls[j].tool)
    requires Skipped(calls[..j], calls[j], recent)
    ensures Skipped(calls[..i], calls[i], recent)
  {
    assert calls[..j][..i] == calls[..i];
    CountMonotone(calls[..j], i, CallFor(ToolKey(calls[i].tool)));
  }

  /** A logged call whose like are all logged before it is skipped. */
  lemma LoggedIsSkipped(calls: seq<NotedCall>, logged: set<NotedCall>, recent: seq<Line>, i: nat)
    requires EarliestLogged(calls, logged) && AsManyAsCounted(calls, logged, recent)
    requires i < |calls| && calls[i] in logged
    ensures Skipped(calls[..i], calls[i], recent)
  {
    var key := ToolKey(calls[i].tool);
    CountAtMost(calls[..i], CallFor(key), LoggedFor(logged, key));
    assert calls[..i + 1] == calls[..i] + [calls[i]];
    CountIfAppend(calls[..i], calls[i], LoggedFor(logged, key));
    CountMonotone(calls, i + 1, LoggedFor(logged, key));
  }

  /** A call that is not logged has none of its like logged after it, so the counter is used up before it. */
  lemma UnloggedIsNotSkipped(calls: seq<NotedCall>, logged: set<NotedCall>, recent: seq<Line>, i: nat)
    requires EarliestLogged(calls, logged) && AsManyAsCounted(calls, logged, recent)
    requires i < |calls| && calls[i] !in logged
    ensures !Skipped(calls[..i], calls[i], recent)
  {
    var key := ToolKey(calls[i].tool);
    var none := (call: NotedCall) => false;
    CountAtMost(calls[i..], LoggedFor(logged, key), none);
    CountIfNever(calls[i..]);
    assert calls == calls[..i] + calls[i..];
    CountIfConcat(calls[..i], calls[i..], LoggedFor(logged, key));
    CountAtMost(calls[..i], LoggedFor(logged, key), CallFor(key));
    assert calls[..i + 1] == calls[..i] + [calls[i]];
    CountIfAppend(calls[..i], calls[i], CallFor(key));
    CountMonotone(calls, i + 1, CallFor(key));
  }

  lemma {:induction false} CountIfNever(calls: seq<NotedCall>)
    ensures CountIf(calls, (call: NotedCall) => false) == 0
  {
    if calls != [] {
      CountIfNever(calls[..|calls| - 1]);
    }
  }

  /** Whatever is logged and whatever close wrote: every noted call has exactly one row of its own if and only if of
      each tool the logged calls are the earliest, and as many as the counter skips. */
  lemma EveryCallHasOneRowIff(calls: seq<NotedCall>, logged: set<NotedCall>, recent: seq<Line>)
    requires Distinct(calls)
    ensures RowsMatch(calls, logged, recent)
            <==> EarliestLogged(calls, logged) && AsManyAsCounted(calls, logged, recent)
  {
    if RowsMatch(calls, logged, recent) {
      forall key
        ensures CountIf(calls, LoggedFor(logged, key)) == Least(Logged(recent, key), CountIf(calls, CallFor(key)))
      {
        MatchedCount(calls, logged, recent, |calls|, key);
        assert calls[..|calls|] == calls;
      }
      forall i, j | 0 <= i < j < |calls| && calls[j] in logged && ToolKey(calls[i].tool) == ToolKey(calls[j].tool)
        ensures calls[i] in logged
      {
        UnloggedIff(calls, recent, i);
        UnloggedIff(calls, recent, j);
        EarlierIsSkipped(calls, recent, i, j);
      }
    }
    if EarliestLogged(calls, logged) && AsManyAsCounted(calls, logged, recent) {
      forall i | 0 <= i < |calls|
        ensures calls[i] in logged <==> calls[i] !in Unlogged(calls, recent)
      {
        UnloggedIff(calls, recent, i);
        if calls[i] in logged {
          LoggedIsSkipped(calls, logged, recent, i);
        } else {
          UnloggedIsNotSkipped(calls, logged, recent, i);
        }
      }
    }
  }

  // ----- What close writes -----

  /** The name the recorder writes for a call: `str` of it. */
  function RecorderTool(tool: Option<string>): string {
    if tool.Some? then tool.value else "None"
  }

  function LineOf(row: BenchProxy.Row): Line {
    Line(Some(row.number), Some(row.tool), row.outcome.Unanswered?)
  }

  function WrittenAs(logged: set<NotedCall>, key: string): NotedCall -> bool {
    (call: NotedCall) => call in logged && RecorderTool(call.tool) == key
  }

  predicate NoneNameless(calls: seq<NotedCall>, logged: set<NotedCall>) {
    forall i :: 0 <= i < |calls| && calls[i] in logged ==> calls[i].tool.Some?
  }

  /** Close writes one line for each call it logs, under the name the recorder has. */
  ghost predicate LinesOfLogged(calls: seq<NotedCall>, logged: set<NotedCall>, recent: seq<Line>) {
    forall key {:trigger Logged(recent, key)} :: Logged(recent, key) == CountIf(calls, WrittenAs(logged, key))
  }

  lemma {:induction false} CountsSame(calls: seq<NotedCall>, p: NotedCall -> bool, q: NotedCall -> bool)
    requires forall i :: 0 <= i < |calls| ==> p(calls[i]) == q(calls[i])
    ensures CountIf(calls, p) == CountIf(calls, q)
  {
    CountAtMost(calls, p, q);
    CountAtMost(calls, q, p);
  }

  function NamelessIn(logged: set<NotedCall>): NotedCall -> bool {
    (call: NotedCall) => call in logged && call.tool.None?
  }

  lemma {:induction false} EmptyNameCount(calls: seq<NotedCall>, logged: set<NotedCall>)
    ensures CountIf(calls, LoggedFor(logged, ""))
            == CountIf(calls, WrittenAs(logged, "")) + CountIf(calls, NamelessIn(logged))
  {
    if calls != [] {
      EmptyNameCount(calls[..|calls| - 1], logged);
    }
  }

  /** When what is logged is what close logged of the noted calls, the counts agree exactly if it logged no call that
      names no tool. */
  lemma CountedIffNamed(calls: seq<NotedCall>, logged: set<NotedCall>, recent: seq<Line>)
    requires LinesOfLogged(calls, logged, recent)
    ensures AsManyAsCounted(calls, logged, recent) <==> NoneNameless(calls, logged)
  {
    if AsManyAsCounted(calls, logged, recent) {
      assert CountIf(calls, LoggedFor(logged, "")) <= Logged(recent, "");
      EmptyNameCount(calls, logged);
      CountIfNone(calls, NamelessIn(logged));
    }
    if NoneNameless(calls, logged) {
      forall key
        ensures CountIf(calls, LoggedFor(logged, key)) == Least(Logged(recent, key), CountIf(calls, CallFor(key)))
      {
        CountsSame(calls, LoggedFor(logged, key), WrittenAs(logged, key));
        CountAtMost(calls, LoggedFor(logged, key), CallFor(key));
      }
    }
  }
}
