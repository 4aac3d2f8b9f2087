/** The relay's two threads over the recorder and the relay's own record, and the rows a failed close leaves behind. */
module RelayRuns {
  import opened BenchProxy
  import opened Dicts
  import opened Listings
  import opened Wrappers
  import BenchRuns
  import Relay

  /** Where the client's thread is: reading a line; between the recorder's section and the note, with a call the
      recorder accepted or one it raised on; about to abort; or at its end. */
  datatype Upstream =
    | Reading
    | Noting(key: Key, call: Relay.NotedCall)
    | NotingRaised(key: Key, call: Relay.NotedCall)
    | Stopping
    | Stopped

  /** Where the server's thread is: waiting for an answer; holding a popped call whose row it has to write; about to
      drop an answered call from the relay's record; about to abort; or at its end. */
  datatype Reader = Waiting | Holding(key: Key) | Dropping(key: Key) | Failing | Failed

  /** The recorder with the answers in hand, the relay's record, and the two threads. `extra` is history: the id under
      which the relay noted the call on which the recorder raised. `before` is the log's length when close began. */
  datatype Joint = Joint(bench: BenchRuns.System, relay: Relay.Record, upstream: Upstream, reader: Reader,
                         extra: Option<Key>, before: Option<nat>)

  /** The client's thread takes `Section`, `Note` and `Stop`, the server's `Pop`, `Write` or `PutBack`, `Drop` and
      `Quit`; whoever comes to it first takes `Close`. */
  datatype Step =
    | Section(message: Message, name: Option<string>, room: nat)
    | Note
    | Stop
    | Pop(key: Key, isError: bool, text: Option<string>)
    | Write
    | PutBack
    | Drop
    | Quit
    | Close(room: nat)

  function Start(cap: nat): Joint {
    Joint(BenchRuns.Start(cap), Relay.NOTHING, Reading, Waiting, None, None)
  }

  /** The id under which the relay notes a message, if it does. */
  function NotedId(message: Message): Option<Key> {
    if message.Single? && message.item.ToolsCall? then message.item.call.id else None
  }

  /** The recorder's tool is what `str` makes of the name the message asks for. */
  predicate Named(message: Message, name: Option<string>) {
    NotedId(message).Some? && message.item.call.params.Some? ==>
      message.item.call.params.value.tool == Relay.RecorderTool(name)
  }

  predicate Can(j: Joint, step: Step) {
    match step
    case Section(message, name, _) => j.upstream.Reading? && Named(message, name)
    case Note => j.upstream.Noting? || j.upstream.NotingRaised?
    case Stop => j.upstream.Reading? || j.upstream.Stopping?
    case Pop(_, _, _) => j.reader.Waiting?
    case Write => j.reader.Holding?
    case PutBack => j.reader.Holding?
    case Drop => j.reader.Dropping?
    case Quit => j.reader.Waiting? || j.reader.Failing?
    case Close(_) => j.before.None?
  }

  /** What the recorder does in a step. */
  function BenchStep(step: Step): Option<BenchRuns.Step> {
    match step
    case Section(message, _, room) => Some(BenchRuns.Request(message, room))
    case Pop(key, isError, text) => Some(BenchRuns.Pop(key, isError, text))
    case Write => Some(BenchRuns.Write(0))
    case PutBack => Some(BenchRuns.PutBack(0))
    case Close(room) => Some(BenchRuns.Close(room))
    case _ => None
  }

  function BenchAfter(s: BenchRuns.System, step: Step): BenchRuns.System {
    var benchStep := BenchStep(step);
    if benchStep.Some? then BenchRuns.Next(s, benchStep.value) else s
  }

  /** What the relay's record sees of a step. */
  function RelayAfter(j: Joint, step: Step): Relay.Record {
    match step
    case Note =>
      if Can(j, step) then Relay.After(j.relay, Relay.Step.Note(j.upstream.key, j.upstream.call)) else j.relay
    case Stop => Relay.After(j.relay, Relay.Step.Begin)
    case Drop => if Can(j, step) then Relay.After(j.relay, Relay.Step.Drop(j.reader.key)) else j.relay
    case Quit => Relay.After(j.relay, Relay.Step.Begin)
    case _ => j.relay
  }

  /** `_upstream`: what the recorder forwards is noted, and so is a message it raises on, before the thread aborts. */
  function UpstreamAfter(j: Joint, step: Step): Upstream {
    match step
    case Section(message, name, room) =>
      var verdict := RequestSection(j.bench.recorder, message, room).1;
      var id := NotedId(message);
      if verdict.Raised? && id.None? then Stopping
      else if verdict.Raised? then NotingRaised(id.value, Relay.NotedCall(name, None))
      else if verdict.Forward? && id.Some? then Noting(id.value, Relay.NotedCall(name, Some(j.bench.recorder.next)))
      else Reading
    case Note => if j.upstream.NotingRaised? then Stopping else Reading
    case Stop => Stopped
    case _ => j.upstream
  }

  /** The loop of `serve`: an answer is dropped from the record once its row is written; a failed write aborts. */
  function ReaderAfter(j: Joint, step: Step): Reader {
    match step
    case Pop(key, _, _) => if Get(j.bench.recorder.pending, key).Some? then Holding(key) else Dropping(key)
    case Write => if j.reader.Holding? then Dropping(j.reader.key) else j.reader
    case PutBack => Failing
    case Drop => Waiting
    case Quit => Failed
    case _ => j.reader
  }

  function ExtraAfter(j: Joint, step: Step): Option<Key> {
    if step.Note? && j.upstream.NotingRaised? && !j.relay.aborted && !Has(j.relay.calls, j.upstream.key)
    then Some(j.upstream.key) else j.extra
  }

  /** A step that cannot be taken changes nothing. */
  function Next(j: Joint, step: Step): Joint {
    if !Can(j, step) then j
    else
      Joint(BenchAfter(j.bench, step), RelayAfter(j, step), UpstreamAfter(j, step), ReaderAfter(j, step),
            ExtraAfter(j, step), if step.Close? then Some(|j.bench.recorder.rows|) else j.before)
  }

  function Run(j: Joint, steps: seq<Step>): Joint
    decreases |steps|
  {
    if steps == [] then j else Next(Run(j, steps[..|steps| - 1]), steps[|steps| - 1])
  }

  // ----- The recorder's part is a run of the recorder -----

  lemma {:induction false} RecorderIsSafe(cap: nat, steps: seq<Step>)
    ensures BenchRuns.Inv(Run(Start(cap), steps).bench)
    decreases |steps|
  {
    if steps == [] {
      BenchRuns.EveryRunIsSafe(cap, []);
    } else {
      var front, last := steps[..|steps| - 1], steps[|steps| - 1];
      RecorderIsSafe(cap, front);
      if BenchStep(last).Some? {
        BenchRuns.StepKeepsInv(Run(Start(cap), front).bench, BenchStep(last).value);
      }
    }
  }

  // ----- The noted calls are told apart -----

  /** No two noted calls have one number, every number was given out, and the extra call alone has none. */
  predicate NumbersApart(calls: Relay.Noted, next: nat, extra: Option<Key>) {
    && UniqueKeys(calls)
    && (forall i, k :: 0 <= i < k < |calls| ==> calls[i].value.number != calls[k].value.number)
    && forall i :: 0 <= i < |calls| ==>
         && (calls[i].value.number.None? <==> extra == Some(calls[i].key))
         && (calls[i].value.number.Some? ==> calls[i].value.number.value < next)
  }

  predicate UpstreamApart(upstream: Upstream, calls: Relay.Noted, next: nat, extra: Option<Key>) {
    match upstream
    case Noting(_, call) =>
      && call.number.Some? && call.number.value < next && extra.None?
      && forall i :: 0 <= i < |calls| ==> calls[i].value.number != call.number
    case NotingRaised(_, call) => call.number.None? && extra.None?
    case Reading => extra.None?
    case _ => true
  }

  predicate Apart(j: Joint) {
    && NumbersApart(j.relay.calls, j.bench.recorder.next, j.extra)
    && UpstreamApart(j.upstream, j.relay.calls, j.bench.recorder.next, j.extra)
  }

  lemma {:induction false} BatchOnlyCounts(s: State, items: seq<Item>, room: nat)
    ensures RefuseItems(s, items, room).0.next >= s.next
    ensures RefuseItems(s, items, room).0.pending == s.pending
    ensures !RefuseItems(s, items, room).1.Forward?
    decreases |items|
  {
    if items != [] && (items[0].ToolsCall? ==> room > 0) {
      var after := if items[0].ToolsCall? then RefuseCall(s, items[0].call, InBatch, room) else s;
      BatchOnlyCounts(after, items[1..], if items[0].ToolsCall? then room - 1 else room);
    }
  }

  lemma SectionCounts(s: State, message: Message, room: nat)
    ensures var (after, verdict) := RequestSection(s, message, room);
            after.next >= s.next && (verdict.Forward? && NotedId(message).Some? ==> after.next == s.next + 1)
  {
    if message.Batch? {
      BatchOnlyCounts(s, message.items, room);
    }
  }

  lemma {:induction false} RemoveStaysApart(calls: Relay.Noted, key: Key, next: nat, extra: Option<Key>)
    requires NumbersApart(calls, next, extra)
    ensures NumbersApart(Remove(calls, key), next, extra)
    decreases |calls|
  {
    if calls != [] {
      var rest := calls[1..];
      assert forall i :: 0 <= i < |rest| ==> rest[i] == calls[i + 1];
      assert NumbersApart(rest, next, extra);
      if calls[0].key != key {
        RemoveStaysApart(rest, key, next, extra);
        RemoveLeavesOthers(rest, key);
        FirstStaysApart(calls[0], rest, Remove(rest, key), next, extra);
      }
    }
  }

  lemma FirstStaysApart(first: Entry<Relay.NotedCall>, rest: Relay.Noted, left: Relay.Noted, next: nat,
                        extra: Option<Key>)
    requires NumbersApart([first] + rest, next, extra) && NumbersApart(left, next, extra)
    requires forall i :: 0 <= i < |left| ==> left[i] in rest
    ensures NumbersApart([first] + left, next, extra)
  {
    assert ([first] + rest)[0] == first;
    forall i | 0 <= i < |left|
      ensures left[i].key != first.key && left[i].value.number != first.value.number
    {
      var k :| 0 <= k < |rest| && rest[k] == left[i];
      assert ([first] + rest)[k + 1] == rest[k];
    }
  }

  lemma NoteStaysApart(j: Joint)
    requires Apart(j) && Can(j, Note)
    ensures Apart(Next(j, Note))
  {
    var calls, key, call := j.relay.calls, j.upstream.key, j.upstream.call;
    if !j.relay.aborted && !Has(calls, key) {
      PutAppends(calls, key, call);
      PutKeepsOthers(calls, key, call);
      assert Next(j, Note).relay.calls == calls + [Entry(key, call)];
    }
  }

  lemma DropStaysApart(j: Joint)
    requires Apart(j) && Can(j, Drop)
    ensures Apart(Next(j, Drop))
  {
    RemoveStaysApart(j.relay.calls, j.reader.key, j.bench.recorder.next, j.extra);
    RemoveLeavesOthers(j.relay.calls, j.reader.key);
  }

  lemma StepStaysApart(j: Joint, step: Step)
    requires Apart(j)
    ensures Apart(Next(j, step))
  {
    if Can(j, step) {
      match step
      case Section(message, _, room) => SectionCounts(j.bench.recorder, message, room);
      case Note => NoteStaysApart(j);
      case Drop => DropStaysApart(j);
      case _ =>
    }
  }

  lemma {:induction false} CallsAreApart(cap: nat, steps: seq<Step>)
    ensures Apart(Run(Start(cap), steps))
    decreases |steps|
  {
    if steps != [] {
      CallsAreApart(cap, steps[..|steps| - 1]);
      StepStaysApart(Run(Start(cap), steps[..|steps| - 1]), steps[|steps| - 1]);
    }
  }

  // ----- What the fallback makes up for -----

  /** The calls the relay has noted, in order. */
  function Noted(j: Joint): seq<Relay.NotedCall> {
    Values(j.relay.calls)
  }

  function LinesOf(rows: seq<Row>): seq<Relay.Line> {
    seq(|rows|, i requires 0 <= i < |rows| => Relay.LineOf(rows[i]))
  }

  /** The log lines written since close began. */
  function Recent(j: Joint): seq<Relay.Line> {
    var rows := j.bench.recorder.rows;
    LinesOf(if j.before.Some? && j.before.value <= |rows| then rows[j.before.value..] else rows)
  }

  /** The rows the recorder has written for a forwarded call. */
  function OwnRows(j: Joint, call: Relay.NotedCall): nat {
    if call.number.None? then 0
    else BenchRuns.Times(BenchRuns.RowNumbers(j.bench.recorder.rows, false), call.number.value)
  }

  /** The noted calls that have a row. */
  function LoggedCalls(j: Joint): set<Relay.NotedCall> {
    set call | call in Noted(j) && OwnRows(j, call) > 0
  }

  /** The rows of a noted call in the log once the fallback has written its own. */
  function RowsOf(j: Joint, call: Relay.NotedCall): nat {
    OwnRows(j, call) + multiset(Relay.Unlogged(Noted(j), Recent(j)))[call]
  }

  ghost predicate OneRowEach(j: Joint) {
    forall call :: call in Noted(j) ==> RowsOf(j, call) == 1
  }

  lemma NotedAreDistinct(j: Joint)
    requires Apart(j)
    ensures Distinct(Noted(j))
  {
  }

  lemma AtMostOneOwnRow(j: Joint, call: Relay.NotedCall)
    requires BenchRuns.Inv(j.bench)
    ensures OwnRows(j, call) <= 1
  {
    if call.number.Some? {
      assert BenchRuns.ConservedAt(j.bench, call.number.value);
    }
  }

  /** In any state that any interleaving of the two threads reaches, before, during or after a close that raises at any
      write: the fallback leaves every noted call with exactly one row of its own if and only if, of each tool, the
      noted calls that have a row are the earliest, and as many as the counter of close's rows skips. */
  lemma FallbackMakesUpIff(cap: nat, steps: seq<Step>)
    ensures var j := Run(Start(cap), steps);
            OneRowEach(j) <==> Relay.EarliestLogged(Noted(j), LoggedCalls(j))
                               && Relay.AsManyAsCounted(Noted(j), LoggedCalls(j), Recent(j))
  {
    var j := Run(Start(cap), steps);
    RecorderIsSafe(cap, steps);
    CallsAreApart(cap, steps);
    OneRowIsMatch(j);
    Relay.EveryCallHasOneRowIff(Noted(j), LoggedCalls(j), Recent(j));
  }

  lemma OneRowIsMatch(j: Joint)
    requires BenchRuns.Inv(j.bench) && Apart(j)
    ensures Distinct(Noted(j))
    ensures OneRowEach(j) <==> Relay.RowsMatch(Noted(j), LoggedCalls(j), Recent(j))
  {
    NotedAreDistinct(j);
    var left := Relay.Unlogged(Noted(j), Recent(j));
    Relay.UnloggedOnce(Noted(j), Recent(j));
    forall call | call in Noted(j)
      ensures RowsOf(j, call) == 1 <==> (call in LoggedCalls(j) <==> call !in left)
    {
      AtMostOneOwnRow(j, call);
      DistinctOnce(left, call);
      assert call in left <==> multiset(left)[call] > 0;
    }
    assert forall i :: 0 <= i < |Noted(j)| ==> Noted(j)[i] in Noted(j);
    if OneRowEach(j) {
      assert Relay.RowsMatch(Noted(j), LoggedCalls(j), Recent(j));
    }
    if Relay.RowsMatch(Noted(j), LoggedCalls(j), Recent(j)) {
      forall call | call in Noted(j)
        ensures RowsOf(j, call) == 1
      {
        var i :| 0 <= i < |Noted(j)| && Noted(j)[i] == call;
      }
    }
  }
}
