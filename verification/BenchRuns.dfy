/** Every interleaving of the relay's two threads over the recorder's locked sections. */
module BenchRuns {
  import opened Wrappers
  import opened BenchProxy
  import opened Dicts

  /** A popped call on its way to the log. */
  datatype InHand = InHand(key: Key, started: Started, isError: bool, text: Option<string>) {
    function Outcome(): Outcome {
      Answered(key, isError, text)
    }
  }

  /** The recorder, the answers in hand, and the client lines the relay passed on to the server. */
  datatype System = System(recorder: State, hand: seq<InHand>, sent: seq<Message>)

  datatype Step =
    | Request(message: Message, room: nat)
    | Pop(key: Key, isError: bool, text: Option<string>)
    | Write(index: nat)
    | PutBack(index: nat)
    | Close(room: nat)

  function Start(cap: nat): System {
    System(Initial(cap), [], [])
  }

  function Without(hand: seq<InHand>, index: nat): seq<InHand>
    requires index < |hand|
  {
    hand[..index] + hand[index + 1..]
  }

  /** A step on a hand that does not exist changes nothing. */
  function Next(s: System, step: Step): System {
    match step
    case Request(message, room) =>
      var (recorder, verdict) := RequestSection(s.recorder, message, room);
      s.(recorder := recorder, sent := if verdict.Forward? then s.sent + [message] else s.sent)
    case Pop(key, isError, text) =>
      var (recorder, started) := PopSection(s.recorder, key);
      if started.None? then s
      else s.(recorder := recorder, hand := s.hand + [InHand(key, started.value, isError, text)])
    case Write(index) =>
      if index >= |s.hand| then s
      else
        var h := s.hand[index];
        s.(recorder := WriteSection(s.recorder, h.started, h.Outcome()), hand := Without(s.hand, index))
    case PutBack(index) =>
      if index >= |s.hand| then s
      else
        var h := s.hand[index];
        s.(recorder := PutBackSection(s.recorder, h.key, h.started), hand := Without(s.hand, index))
    case Close(room) => s.(recorder := CloseSection(s.recorder, room))
  }

  function Run(s: System, steps: seq<Step>): System
    decreases |steps|
  {
    if steps == [] then s else Run(Next(s, steps[0]), steps[1..])
  }

  // ----- Where each number is -----

  /** How often `n` occurs in `numbers`. */
  function Times(numbers: seq<nat>, n: nat): nat {
    if numbers == [] then 0 else (if numbers[0] == n then 1 else 0) + Times(numbers[1..], n)
  }

  /** The numbers of the rows that log refusals, or of those that do not. */
  function RowNumbers(rows: seq<Row>, refused: bool): seq<nat> {
    if rows == [] then []
    else (if rows[0].outcome.Refused? == refused then [rows[0].number] else []) + RowNumbers(rows[1..], refused)
  }

  function HandNumbers(hand: seq<InHand>): seq<nat> {
    seq(|hand|, i requires 0 <= i < |hand| => hand[i].started.number)
  }

  function ToolsCalls(lines: seq<Message>): nat {
    if lines == [] then 0
    else (if lines[0].Single? && lines[0].item.ToolsCall? then 1 else 0) + ToolsCalls(lines[1..])
  }

  // ----- The invariant -----

  /** A started call is the call that got its number, under its own id. */
  predicate IsCall(arrivals: seq<Call>, key: Key, started: Started) {
    && started.number < |arrivals|
    && arrivals[started.number].id == Some(key)
    && started.tool == ToolOf(arrivals[started.number])
    && started.arguments == ArgumentsOf(arrivals[started.number])
  }

  /** A row is the row of the call that got its number, answered only by a response to that call's id. */
  predicate IsRow(arrivals: seq<Call>, row: Row) {
    && row.number < |arrivals|
    && row.tool == ToolOf(arrivals[row.number])
    && row.arguments == ArgumentsOf(arrivals[row.number])
    && (row.outcome.Answered? ==> arrivals[row.number].id == Some(row.outcome.responseId))
  }

  predicate Faithful(s: System) {
    var arrivals := s.recorder.arrivals;
    && (forall e :: e in s.recorder.pending ==> IsCall(arrivals, e.key, e.value))
    && (forall h :: h in s.hand ==> IsCall(arrivals, h.key, h.started))
    && (forall r :: r in s.recorder.rows ==> IsRow(arrivals, r))
    && |arrivals| == s.recorder.next
  }

  /** Number `n`, if forwarded, is in exactly one place, and if given out, went to one refusal or one forwarded call. */
  predicate ConservedAt(s: System, n: nat) {
    var r := s.recorder;
    && Times(r.accepted, n)
       == Times(RowNumbers(r.rows, false), n) + Times(EntryNumbers(r.pending), n) + Times(HandNumbers(s.hand), n)
          + Times(r.lost, n)
    && (if n < r.next then 1 else 0)
       == Times(r.accepted, n) + Times(RowNumbers(r.rows, true), n) + Times(r.lostRefusals, n)
  }

  ghost predicate Conserved(s: System) {
    forall n: nat :: ConservedAt(s, n)
  }

  predicate Capped(s: System) {
    && ToolsCalls(s.sent) == |s.recorder.accepted| <= s.recorder.forwarded <= s.recorder.cap
    && forall line :: line in s.sent && line.Batch? ==> !AnyToolsCall(line.items)
  }

  ghost predicate Inv(s: System) {
    Conserved(s) && Faithful(s) && Capped(s) && UniqueKeys(s.recorder.pending)
  }

  // ----- Counting -----

  lemma {:induction false} TimesConcat(a: seq<nat>, b: seq<nat>, n: nat)
    ensures Times(a + b, n) == Times(a, n) + Times(b, n)
  {
    if a == [] {
      assert a + b == b;
    } else {
      assert (a + b)[1..] == a[1..] + b;
      TimesConcat(a[1..], b, n);
    }
  }

  lemma TimesAppend(a: seq<nat>, x: nat, n: nat)
    ensures Times(a + [x], n) == Times(a, n) + if x == n then 1 else 0
  {
    TimesConcat(a, [x], n);
  }

  lemma {:induction false} RowNumbersConcat(a: seq<Row>, b: seq<Row>, refused: bool)
    ensures RowNumbers(a + b, refused) == RowNumbers(a, refused) + RowNumbers(b, refused)
  {
    if a == [] {
      assert a + b == b;
    } else {
      assert (a + b)[1..] == a[1..] + b;
      RowNumbersConcat(a[1..], b, refused);
    }
  }

  lemma RowNumbersAppend(rows: seq<Row>, row: Row, refused: bool, n: nat)
    ensures Times(RowNumbers(rows + [row], refused), n)
         == Times(RowNumbers(rows, refused), n) + if row.outcome.Refused? == refused && row.number == n then 1 else 0
  {
    RowNumbersConcat(rows, [row], refused);
    TimesConcat(RowNumbers(rows, refused), RowNumbers([row], refused), n);
  }

  lemma TakesFromHand(hand: seq<InHand>, index: nat, n: nat)
    requires index < |hand|
    ensures Times(HandNumbers(hand), n)
         == Times(HandNumbers(Without(hand, index)), n) + if hand[index].started.number == n then 1 else 0
  {
    var a, x, b := HandNumbers(hand[..index]), hand[index].started.number, HandNumbers(hand[index + 1..]);
    assert HandNumbers(hand) == a + [x] + b;
    assert HandNumbers(Without(hand, index)) == a + b;
    TimesConcat(a + [x], b, n);
    TimesAppend(a, x, n);
    TimesConcat(a, b, n);
  }

  lemma {:induction false} ToolsCallsAppend(lines: seq<Message>, line: Message)
    ensures ToolsCalls(lines + [line]) == ToolsCalls(lines) + if line.Single? && line.item.ToolsCall? then 1 else 0
  {
    if lines == [] {
      assert lines + [line] == [line];
    } else {
      assert (lines + [line])[1..] == lines[1..] + [line];
      ToolsCallsAppend(lines[1..], line);
    }
  }

  /** Whether an optional displaced or popped call holds number `n`. */
  function Holds(started: Option<Started>, n: nat): nat {
    if started.Some? && started.value.number == n then 1 else 0
  }

  lemma {:induction false} PutReplaces(pending: Dict<Started>, key: Key, started: Started, n: nat)
    ensures Times(EntryNumbers(Put(pending, key, started)), n) + Holds(Get(pending, key), n)
         == Times(EntryNumbers(pending), n) + if started.number == n then 1 else 0
  {
    if pending != [] {
      assert EntryNumbers(pending)[1..] == EntryNumbers(pending[1..]);
      assert EntryNumbers(Put(pending, key, started))[1..] == EntryNumbers(Put(pending, key, started)[1..]);
      if pending[0].key != key {
        PutReplaces(pending[1..], key, started, n);
        assert Put(pending, key, started)[1..] == Put(pending[1..], key, started);
      }
    } else {
      assert EntryNumbers(Put(pending, key, started)) == [started.number];
    }
  }

  lemma {:induction false} RemoveTakes(pending: Dict<Started>, key: Key, n: nat)
    ensures Times(EntryNumbers(Remove(pending, key)), n) + Holds(Get(pending, key), n)
         == Times(EntryNumbers(pending), n)
  {
    if pending != [] {
      assert EntryNumbers(pending)[1..] == EntryNumbers(pending[1..]);
      if pending[0].key != key {
        RemoveTakes(pending[1..], key, n);
        assert EntryNumbers(Remove(pending, key))[1..] == EntryNumbers(Remove(pending[1..], key));
      }
    }
  }

  lemma {:induction false} UnansweredNumbers(entries: Dict<Started>)
    ensures RowNumbers(UnansweredRows(entries), false) == EntryNumbers(entries)
    ensures RowNumbers(UnansweredRows(entries), true) == []
  {
    if entries != [] {
      assert UnansweredRows(entries)[1..] == UnansweredRows(entries[1..]);
      UnansweredNumbers(entries[1..]);
    }
  }

  // ----- Each step keeps every number in its one place -----

  lemma RefusalConserves(s: System, call: Call, reason: Refusal, room: nat, n: nat)
    requires ConservedAt(s, n)
    ensures ConservedAt(s.(recorder := RefuseCall(s.recorder, call, reason, room)), n)
  {
    var row := Row(s.recorder.next, ToolOf(call), ArgumentsOf(call), Refused(reason));
    RowNumbersAppend(s.recorder.rows, row, true, n);
    RowNumbersAppend(s.recorder.rows, row, false, n);
    TimesAppend(s.recorder.lostRefusals, s.recorder.next, n);
  }

  lemma {:induction false} BatchRefusalConserves(s: System, items: seq<Item>, room: nat, n: nat)
    requires ConservedAt(s, n)
    ensures ConservedAt(s.(recorder := RefuseItems(s.recorder, items, room).0), n)
    decreases |items|
  {
    if items != [] {
      if items[0].ToolsCall? {
        RefusalConserves(s, items[0].call, InBatch, room, n);
        if room > 0 {
          var after := RefuseCall(s.recorder, items[0].call, InBatch, room);
          BatchRefusalConserves(s.(recorder := after), items[1..], room - 1, n);
        }
      } else {
        BatchRefusalConserves(s, items[1..], room, n);
      }
    }
  }

  /** The same numbers in the same places but for one new pending call and the one it displaces. */
  lemma NewCallConserves(s: System, pending: Dict<Started>, rows: seq<Row>, call: Call, displaced: nat, n: nat)
    requires ConservedAt(s, n)
    requires Times(EntryNumbers(pending), n) + displaced
             == Times(EntryNumbers(s.recorder.pending), n) + if s.recorder.next == n then 1 else 0
    requires Times(RowNumbers(rows, false), n) == Times(RowNumbers(s.recorder.rows, false), n) + displaced
    requires Times(RowNumbers(rows, true), n) == Times(RowNumbers(s.recorder.rows, true), n)
    ensures var r := s.recorder;
            ConservedAt(s.(recorder := r.(forwarded := r.forwarded + 1, rows := rows, pending := pending,
                                          next := r.next + 1, arrivals := r.arrivals + [call],
                                          accepted := r.accepted + [r.next])), n)
  {
    TimesAppend(s.recorder.accepted, s.recorder.next, n);
  }

  lemma AcceptConserves(s: System, call: Call, room: nat, n: nat)
    requires ConservedAt(s, n) && call.id.Some?
    ensures ConservedAt(s.(recorder := Accept(s.recorder, call, room).0), n)
  {
    var r, key := s.recorder, call.id.value;
    var previous, started := Get(r.pending, key), Started(r.next, ToolOf(call), ArgumentsOf(call));
    PutReplaces(r.pending, key, started, n);
    if previous.None? {
      NewCallConserves(s, Put(r.pending, key, started), r.rows, call, 0, n);
    } else if room > 0 {
      var row := Finish(previous.value, Duplicate);
      RowNumbersAppend(r.rows, row, true, n);
      RowNumbersAppend(r.rows, row, false, n);
      NewCallConserves(s, Put(r.pending, key, started), r.rows + [row], call, Holds(previous, n), n);
    }
  }

  lemma CloseConserves(s: System, room: nat, n: nat)
    requires ConservedAt(s, n)
    ensures ConservedAt(Next(s, Close(room)), n)
  {
    var r, pending := s.recorder, s.recorder.pending;
    var written := if room <= |pending| then room else |pending|;
    var now, later := pending[..written], pending[written..];
    assert EntryNumbers(pending) == EntryNumbers(now) + EntryNumbers(later);
    TimesConcat(EntryNumbers(now), EntryNumbers(later), n);
    UnansweredNumbers(now);
    RowNumbersConcat(r.rows, UnansweredRows(now), true);
    RowNumbersConcat(r.rows, UnansweredRows(now), false);
    TimesConcat(RowNumbers(r.rows, false), EntryNumbers(now), n);
    TimesConcat(RowNumbers(r.rows, true), [], n);
    TimesConcat(r.lost, EntryNumbers(later), n);
  }

  lemma PutBackConserves(s: System, index: nat, n: nat)
    requires ConservedAt(s, n) && index < |s.hand|
    ensures ConservedAt(Next(s, PutBack(index)), n)
  {
    var r, h := s.recorder, s.hand[index];
    TakesFromHand(s.hand, index, n);
    if Get(r.pending, h.key).Some? {
      TimesAppend(r.lost, h.started.number, n);
    } else {
      EntryNumbersAppend(r.pending, Entry(h.key, h.started), n);
    }
  }

  lemma EntryNumbersAppend(pending: Dict<Started>, entry: Entry<Started>, n: nat)
    ensures Times(EntryNumbers(pending + [entry]), n)
         == Times(EntryNumbers(pending), n) + if entry.value.number == n then 1 else 0
  {
    assert EntryNumbers(pending + [entry]) == EntryNumbers(pending) + [entry.value.number];
    TimesAppend(EntryNumbers(pending), entry.value.number, n);
  }

  lemma WriteConserves(s: System, index: nat, n: nat)
    requires ConservedAt(s, n) && index < |s.hand|
    ensures ConservedAt(Next(s, Write(index)), n)
  {
    var row := Finish(s.hand[index].started, s.hand[index].Outcome());
    TakesFromHand(s.hand, index, n);
    RowNumbersAppend(s.recorder.rows, row, true, n);
    RowNumbersAppend(s.recorder.rows, row, false, n);
  }

  lemma PopConserves(s: System, key: Key, isError: bool, text: Option<string>, n: nat)
    requires ConservedAt(s, n)
    ensures ConservedAt(Next(s, Pop(key, isError, text)), n)
  {
    var started := Get(s.recorder.pending, key);
    RemoveTakes(s.recorder.pending, key, n);
    if started.Some? {
      var h := InHand(key, started.value, isError, text);
      assert HandNumbers(s.hand + [h]) == HandNumbers(s.hand) + [started.value.number];
      TimesAppend(HandNumbers(s.hand), started.value.number, n);
    }
  }

  lemma RequestConserves(s: System, message: Message, room: nat, n: nat)
    requires ConservedAt(s, n)
    ensures ConservedAt(s.(recorder := RequestSection(s.recorder, message, room).0), n)
  {
    if message.Batch? {
      BatchRefusalConserves(s, message.items, room, n);
    } else if message.item.ToolsCall? {
      var call := message.item.call;
      if call.params.None? {
        RefusalConserves(s, call, PositionalParams, room, n);
      } else if call.id.None? {
        RefusalConserves(s, call, NoId, room, n);
      } else if s.recorder.forwarded >= s.recorder.cap {
        RefusalConserves(s, call, CapReached, room, n);
      } else {
        AcceptConserves(s, call, room, n);
      }
    }
  }

  lemma StepConserves(s: System, step: Step, n: nat)
    requires ConservedAt(s, n)
    ensures ConservedAt(Next(s, step), n)
  {
    match step
    case Request(message, room) => RequestConserves(s, message, room, n);
    case Pop(key, isError, text) => PopConserves(s, key, isError, text, n);
    case Write(index) =>
      if index < |s.hand| {
        WriteConserves(s, index, n);
      }
    case PutBack(index) =>
      if index < |s.hand| {
        PutBackConserves(s, index, n);
      }
    case Close(room) => CloseConserves(s, room, n);
  }

  // ----- Each step keeps rows, pending calls and answers true to the call that got the number -----

  lemma ArrivalStaysFaithful(s: System, call: Call)
    requires Faithful(s)
    ensures Faithful(s.(recorder := s.recorder.(next := s.recorder.next + 1, arrivals := s.recorder.arrivals + [call])))
  {
  }

  lemma RefusalStaysFaithful(s: System, call: Call, reason: Refusal, room: nat)
    requires Faithful(s)
    ensures Faithful(s.(recorder := RefuseCall(s.recorder, call, reason, room)))
  {
    ArrivalStaysFaithful(s, call);
    assert IsRow(s.recorder.arrivals + [call], Row(s.recorder.next, ToolOf(call), ArgumentsOf(call), Refused(reason)));
  }

  lemma {:induction false} BatchRefusalStaysFaithful(s: System, items: seq<Item>, room: nat)
    requires Faithful(s)
    ensures Faithful(s.(recorder := RefuseItems(s.recorder, items, room).0))
    ensures RefuseItems(s.recorder, items, room).0.pending == s.recorder.pending
    decreases |items|
  {
    if items != [] {
      if items[0].ToolsCall? {
        RefusalStaysFaithful(s, items[0].call, InBatch, room);
        if room > 0 {
          var after := RefuseCall(s.recorder, items[0].call, InBatch, room);
          BatchRefusalStaysFaithful(s.(recorder := after), items[1..], room - 1);
        }
      } else {
        BatchRefusalStaysFaithful(s, items[1..], room);
      }
    }
  }

  lemma AcceptStaysFaithful(s: System, call: Call, room: nat)
    requires Faithful(s) && UniqueKeys(s.recorder.pending) && call.id.Some?
    ensures Faithful(s.(recorder := Accept(s.recorder, call, room).0))
    ensures UniqueKeys(Accept(s.recorder, call, room).0.pending)
  {
    var r, key := s.recorder, call.id.value;
    var started := Started(r.next, ToolOf(call), ArgumentsOf(call));
    GetFinds(r.pending, key);
    PutKeepsOthers(r.pending, key, started);
    ArrivalStaysFaithful(s, call);
    assert IsCall(r.arrivals + [call], key, started);
  }

  lemma RequestStaysFaithful(s: System, message: Message, room: nat)
    requires Faithful(s) && UniqueKeys(s.recorder.pending)
    ensures Faithful(s.(recorder := RequestSection(s.recorder, message, room).0))
    ensures UniqueKeys(RequestSection(s.recorder, message, room).0.pending)
  {
    if message.Batch? {
      BatchRefusalStaysFaithful(s, message.items, room);
    } else if message.item.ToolsCall? {
      var call := message.item.call;
      if call.params.None? {
        RefusalStaysFaithful(s, call, PositionalParams, room);
      } else if call.id.None? {
        RefusalStaysFaithful(s, call, NoId, room);
      } else if s.recorder.forwarded >= s.recorder.cap {
        RefusalStaysFaithful(s, call, CapReached, room);
      } else {
        AcceptStaysFaithful(s, call, room);
      }
    }
  }

  lemma PutBackStaysFaithful(s: System, index: nat)
    requires Faithful(s) && UniqueKeys(s.recorder.pending) && index < |s.hand|
    ensures Faithful(Next(s, PutBack(index))) && UniqueKeys(Next(s, PutBack(index)).recorder.pending)
  {
    assert IsCall(s.recorder.arrivals, s.hand[index].key, s.hand[index].started);
    GetFinds(s.recorder.pending, s.hand[index].key);
  }

  lemma CloseStaysFaithful(s: System, room: nat)
    requires Faithful(s)
    ensures Faithful(Next(s, Close(room)))
  {
    var pending := s.recorder.pending;
    forall i | 0 <= i < |pending|
      ensures IsRow(s.recorder.arrivals, Finish(pending[i].value, Unanswered))
    {
      assert pending[i] in pending;
    }
  }

  lemma StepStaysFaithful(s: System, step: Step)
    requires Faithful(s) && UniqueKeys(s.recorder.pending)
    ensures Faithful(Next(s, step)) && UniqueKeys(Next(s, step).recorder.pending)
  {
    match step
    case Request(message, room) => RequestStaysFaithful(s, message, room);
    case Pop(key, isError, text) =>
      GetFinds(s.recorder.pending, key);
      RemoveKeepsOthers(s.recorder.pending, key);
    case Write(index) =>
      if index < |s.hand| {
        assert IsCall(s.recorder.arrivals, s.hand[index].key, s.hand[index].started);
      }
    case PutBack(index) =>
      if index < |s.hand| {
        PutBackStaysFaithful(s, index);
      }
    case Close(room) => CloseStaysFaithful(s, room);
  }

  // ----- Each step keeps the cap -----

  lemma {:induction false} BatchIsNotForwarded(s: State, items: seq<Item>, room: nat)
    ensures var (r, verdict) := RefuseItems(s, items, room);
            !verdict.Forward? && r.accepted == s.accepted && r.forwarded == s.forwarded && r.cap == s.cap
    decreases |items|
  {
    if items != [] && !(items[0].ToolsCall? && room == 0) {
      var after := if items[0].ToolsCall? then RefuseCall(s, items[0].call, InBatch, room) else s;
      BatchIsNotForwarded(after, items[1..], if items[0].ToolsCall? then room - 1 else room);
    }
  }

  lemma StepStaysCapped(s: System, step: Step)
    requires Capped(s)
    ensures Capped(Next(s, step))
  {
    match step
    case Request(message, room) =>
      ToolsCallsAppend(s.sent, message);
      if message.Batch? {
        BatchIsNotForwarded(s.recorder, message.items, room);
      }
    case _ =>
  }

  // ----- Every run -----

  lemma StepKeepsInv(s: System, step: Step)
    requires Inv(s)
    ensures Inv(Next(s, step))
  {
    forall n: nat
      ensures ConservedAt(Next(s, step), n)
    {
      StepConserves(s, step, n);
    }
    StepStaysFaithful(s, step);
    StepStaysCapped(s, step);
  }

  lemma {:induction false} RunKeepsInv(s: System, steps: seq<Step>)
    requires Inv(s)
    ensures Inv(Run(s, steps))
    decreases |steps|
  {
    if steps != [] {
      StepKeepsInv(s, steps[0]);
      RunKeepsInv(Next(s, steps[0]), steps[1..]);
    }
  }

  /** Whatever the two threads do, every number has one place and the server never gets more calls than the cap. */
  lemma EveryRunIsSafe(cap: nat, steps: seq<Step>)
    ensures Inv(Run(Start(cap), steps))
    ensures ToolsCalls(Run(Start(cap), steps).sent) <= cap
  {
    RunKeepsInv(Start(cap), steps);
    RunKeepsCap(Start(cap), steps);
  }

  lemma {:induction false} RequestKeepsCap(s: State, message: Message, room: nat)
    ensures RequestSection(s, message, room).0.cap == s.cap
  {
    if message.Batch? {
      BatchIsNotForwarded(s, message.items, room);
    }
  }

  lemma {:induction false} RunKeepsCap(s: System, steps: seq<Step>)
    ensures Run(s, steps).recorder.cap == s.recorder.cap
    decreases |steps|
  {
    if steps != [] {
      if steps[0].Request? {
        RequestKeepsCap(s.recorder, steps[0].message, steps[0].room);
      }
      RunKeepsCap(Next(s, steps[0]), steps[1..]);
    }
  }

  // ----- Runs whose log writes succeed -----

  /** No section of the step raises; a call is put back only after a failed write. */
  predicate Succeeds(s: System, step: Step) {
    match step
    case Request(message, room) => !RequestSection(s.recorder, message, room).1.Raised?
    case Pop(_, _, _) => true
    case Write(_) => true
    case PutBack(_) => false
    case Close(room) => |s.recorder.pending| <= room
  }

  predicate AllSucceed(s: System, steps: seq<Step>)
    decreases |steps|
  {
    steps != [] ==> Succeeds(s, steps[0]) && AllSucceed(Next(s, steps[0]), steps[1..])
  }

  predicate LosesNothing(s: State) {
    s.lost == [] && s.lostRefusals == [] && |s.accepted| == s.forwarded
  }

  lemma {:induction false} WrittenBatchLosesNothing(s: State, items: seq<Item>, room: nat)
    requires LosesNothing(s) && !RefuseItems(s, items, room).1.Raised?
    ensures LosesNothing(RefuseItems(s, items, room).0)
    decreases |items|
  {
    if items != [] {
      var after := if items[0].ToolsCall? then RefuseCall(s, items[0].call, InBatch, room) else s;
      WrittenBatchLosesNothing(after, items[1..], if items[0].ToolsCall? then room - 1 else room);
    }
  }

  lemma SuccessLosesNothing(s: System, step: Step)
    requires LosesNothing(s.recorder) && Succeeds(s, step)
    ensures LosesNothing(Next(s, step).recorder)
  {
    if step.Request? && step.message.Batch? && AnyToolsCall(step.message.items) {
      WrittenBatchLosesNothing(s.recorder, step.message.items, step.room);
    }
  }

  lemma {:induction false} SuccessfulRunLosesNothing(s: System, steps: seq<Step>)
    requires LosesNothing(s.recorder) && AllSucceed(s, steps)
    ensures LosesNothing(Run(s, steps).recorder)
    decreases |steps|
  {
    if steps != [] {
      SuccessLosesNothing(s, steps[0]);
      SuccessfulRunLosesNothing(Next(s, steps[0]), steps[1..]);
    }
  }

  /** After a last close with nothing in hand, the log holds exactly one row for every number given out, and
      exactly the forwarded calls have a row that is not a refusal, even when ids were reused. */
  lemma EveryCallHasOneRow(cap: nat, steps: seq<Step>, room: nat)
    requires var before := Run(Start(cap), steps);
             AllSucceed(Start(cap), steps) && before.hand == [] && |before.recorder.pending| <= room
    ensures var end := Next(Run(Start(cap), steps), Close(room));
            && end.recorder.pending == []
            && ToolsCalls(end.sent) == end.recorder.forwarded == |end.recorder.accepted| <= cap
            && forall n: nat ::
                 && Times(RowNumbers(end.recorder.rows, false), n) == Times(end.recorder.accepted, n)
                 && Times(RowNumbers(end.recorder.rows, false), n) + Times(RowNumbers(end.recorder.rows, true), n)
                    == if n < end.recorder.next then 1 else 0
  {
    var before := Run(Start(cap), steps);
    var end := Next(before, Close(room));
    EveryRunIsSafe(cap, steps);
    SuccessfulRunLosesNothing(Start(cap), steps);
    SuccessLosesNothing(before, Close(room));
    StepKeepsInv(before, Close(room));
    forall n: nat
      ensures && Times(RowNumbers(end.recorder.rows, false), n) == Times(end.recorder.accepted, n)
              && Times(RowNumbers(end.recorder.rows, false), n) + Times(RowNumbers(end.recorder.rows, true), n)
                 == if n < end.recorder.next then 1 else 0
    {
      assert ConservedAt(end, n);
    }
  }

  // ----- Which calls end without a row -----

  /** The step drops the call with number `n`: it is put back while its id is pending, or a close that fails before
      its turn has it in its list. */
  predicate Loses(s: System, step: Step, n: nat) {
    match step
    case PutBack(index) =>
      && index < |s.hand| && s.hand[index].started.number == n
      && Has(s.recorder.pending, s.hand[index].key)
    case Close(room) => room < |s.recorder.pending| && n in EntryNumbers(s.recorder.pending[room..])
    case _ => false
  }

  lemma {:induction false} BatchKeepsLost(s: State, items: seq<Item>, room: nat)
    ensures RefuseItems(s, items, room).0.lost == s.lost
    decreases |items|
  {
    if items != [] && (items[0].ToolsCall? ==> room > 0) {
      var left := if items[0].ToolsCall? then room - 1 else room;
      BatchKeepsLost(if items[0].ToolsCall? then RefuseCall(s, items[0].call, InBatch, room) else s, items[1..], left);
    }
  }

  lemma StepLosesIff(s: System, step: Step, n: nat)
    ensures n in Next(s, step).recorder.lost <==> n in s.recorder.lost || Loses(s, step, n)
  {
    match step
    case Request(message, room) =>
      if message.Batch? {
        BatchKeepsLost(s.recorder, message.items, room);
      }
    case PutBack(index) =>
      if index < |s.hand| {
        HasIsGet(s.recorder.pending, s.hand[index].key);
      }
    case Close(room) =>
      assert s.recorder.pending[|s.recorder.pending|..] == [];
    case _ =>
  }

  /** Step `i` of the run drops the call. */
  predicate LostAt(s: System, steps: seq<Step>, i: nat, n: nat) {
    i < |steps| && Loses(Run(s, steps[..i]), steps[i], n)
  }

  lemma LostAtShifts(s: System, steps: seq<Step>, i: nat, n: nat)
    requires steps != []
    ensures LostAt(s, steps, i + 1, n) <==> LostAt(Next(s, steps[0]), steps[1..], i, n)
  {
    if i + 1 < |steps| {
      assert steps[..i + 1][0] == steps[0] && steps[..i + 1][1..] == steps[1..][..i];
      assert steps[1..][i] == steps[i + 1];
    }
  }

  lemma {:induction false} RunLosesIff(s: System, steps: seq<Step>, n: nat)
    ensures n in Run(s, steps).recorder.lost <==> n in s.recorder.lost || exists i :: LostAt(s, steps, i, n)
    decreases |steps|
  {
    if steps != [] {
      var next := Next(s, steps[0]);
      StepLosesIff(s, steps[0], n);
      RunLosesIff(next, steps[1..], n);
      assert LostAt(s, steps, 0, n) <==> Loses(s, steps[0], n) by {
        assert steps[..0] == [];
      }
      if i :| LostAt(next, steps[1..], i, n) {
        LostAtShifts(s, steps, i, n);
      }
      if i: nat :| LostAt(s, steps, i, n) {
        if i > 0 {
          LostAtShifts(s, steps, i - 1, n);
        }
      }
    }
  }

  lemma {:induction false} TimesMember(numbers: seq<nat>, n: nat)
    ensures n in numbers <==> Times(numbers, n) > 0
  {
    if numbers != [] {
      TimesMember(numbers[1..], n);
      assert numbers == [numbers[0]] + numbers[1..];
    }
  }

  /** Over every interleaving, with any writes failing: a forwarded call ends without a row that is no refusal if and
      only if some step put it back while its id was pending, or a close that failed had not come to it. */
  lemma ForwardedWithoutRowIff(cap: nat, steps: seq<Step>, n: nat)
    requires var end := Run(Start(cap), steps);
             n in end.recorder.accepted && end.recorder.pending == [] && end.hand == []
    ensures n !in RowNumbers(Run(Start(cap), steps).recorder.rows, false) <==>
              exists i :: LostAt(Start(cap), steps, i, n)
  {
    var end := Run(Start(cap), steps);
    EveryRunIsSafe(cap, steps);
    assert ConservedAt(end, n);
    TimesMember(end.recorder.accepted, n);
    TimesMember(RowNumbers(end.recorder.rows, false), n);
    TimesMember(end.recorder.lost, n);
    RunLosesIff(Start(cap), steps, n);
  }

  /** Restoring a call after its write failed loses it exactly when its id became pending again meanwhile. */
  lemma PutBackLosesIffReused(s: System, index: nat)
    requires index < |s.hand|
    ensures Next(s, PutBack(index)).recorder.lost != s.recorder.lost <==> Has(s.recorder.pending, s.hand[index].key)
  {
    HasIsGet(s.recorder.pending, s.hand[index].key);
    GetFinds(s.recorder.pending, s.hand[index].key);
  }

  /** Two calls under one id, the first answered while its write fails: two calls forwarded, one row. */
  lemma ReuseDuringFailedWriteLosesARow(call: Call, cap: nat)
    requires call.params.Some? && call.id.Some? && cap >= 2
    ensures var steps := [Request(Single(ToolsCall(call)), 9), Pop(call.id.value, false, None),
                          Request(Single(ToolsCall(call)), 9), PutBack(0), Close(9)];
            var end := Run(Start(cap), steps);
            ToolsCalls(end.sent) == 2 && |RowNumbers(end.recorder.rows, false)| == 1 && end.hand == []
  {
    var key, request := call.id.value, Request(Single(ToolsCall(call)), 9);
    var steps := [request, Pop(key, false, None), request, PutBack(0), Close(9)];
    var first := Started(0, ToolOf(call), ArgumentsOf(call));
    var second := first.(number := 1);
    var s1 := Next(Start(cap), steps[0]);
    var s2 := Next(s1, steps[1]);
    var s3 := Next(s2, steps[2]);
    var s4 := Next(s3, steps[3]);
    var s5 := Next(s4, steps[4]);
    assert s1.recorder.pending == [Entry(key, first)];
    assert s2.recorder.pending == [] && |s2.hand| == 1;
    assert s3.recorder.pending == [Entry(key, second)];
    assert s4.recorder.lost == [0] && s4.hand == [];
    assert s5.recorder.rows == [Finish(second, Unanswered)];
    assert steps[1..][1..][1..][1..] == [steps[4]];
    assert Run(Start(cap), steps) == Run(s1, steps[1..]) == Run(s2, steps[1..][1..]) == Run(s3, steps[1..][1..][1..]);
    assert Run(s3, steps[1..][1..][1..]) == Run(s4, [steps[4]]) == Run(s5, []);
    ToolsCallsAppend([Single(ToolsCall(call))], Single(ToolsCall(call)));
  }
}
