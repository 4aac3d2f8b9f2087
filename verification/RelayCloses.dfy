/** What a close that fails leaves behind when the relay and the recorder agree, and the runs in which it goes wrong. */
module RelayCloses {
  import opened BenchProxy
  import opened Counting
  import opened Dicts
  import opened Wrappers
  import opened RelayRuns
  import opened RelayAgree
  import BenchRuns
  import Relay

  // ----- What close logs of the noted calls -----

  /** No call is on its way into the record, and no answered one on its way out. */
  predicate AtRest(j: Joint) {
    !j.upstream.Noting? && !j.reader.Dropping?
  }

  /** How many of `count` pending calls a close logs. */
  function Written(count: nat, room: nat): (n: nat)
    ensures n <= count
  {
    if room <= count then room else count
  }

  predicate IsAmong(call: Relay.NotedCall, entries: Dict<Started>) {
    call.number.Some? && call.number.value in EntryNumbers(entries)
  }

  /** The noted calls that are among the first `n` pending ones. */
  function First(j: Joint, n: nat): set<Relay.NotedCall>
    requires n <= |j.bench.recorder.pending|
  {
    set call | call in Noted(j) && IsAmong(call, j.bench.recorder.pending[..n])
  }

  /** The noted calls a close logs. */
  function ClosedCalls(j: Joint, room: nat): set<Relay.NotedCall> {
    First(j, Written(|j.bench.recorder.pending|, room))
  }

  lemma {:induction false} EntryInHand(hand: seq<BenchRuns.InHand>, n: nat)
    requires hand != [] && hand[0].started.number == n
    ensures BenchRuns.Times(BenchRuns.HandNumbers(hand), n) > 0
  {
  }

  lemma PendingHasNoRow(j: Joint, n: nat)
    requires BenchRuns.Inv(j.bench) && n in EntryNumbers(j.bench.recorder.pending)
    ensures BenchRuns.Times(BenchRuns.RowNumbers(j.bench.recorder.rows, false), n) == 0
    ensures BenchRuns.Times(EntryNumbers(j.bench.recorder.pending), n) == 1
  {
    assert BenchRuns.ConservedAt(j.bench, n);
    BenchRuns.TimesMember(EntryNumbers(j.bench.recorder.pending), n);
  }

  /** At rest no noted call has a row. */
  lemma NotedHaveNoRows(j: Joint, i: nat)
    requires Shape(j) && Agree(j) && AtRest(j) && i < |j.relay.calls|
    ensures OwnRows(j, j.relay.calls[i].value) == 0
  {
    var key, call := j.relay.calls[i].key, j.relay.calls[i].value;
    GetAt(j.relay.calls, i);
    assert AgreeAt(j, key);
    if call.number.Some? {
      if Busy(j.reader, key) {
        EntryInHand(j.bench.hand, call.number.value);
        assert BenchRuns.ConservedAt(j.bench, call.number.value);
      } else {
        var p := PendingAt(j.bench.recorder.pending, key);
        assert EntryNumbers(j.bench.recorder.pending)[p] == call.number.value;
        PendingHasNoRow(j, call.number.value);
      }
    }
  }

  lemma PendingAt(pending: Dict<Started>, key: Key) returns (p: nat)
    requires Get(pending, key).Some?
    ensures p < |pending| && pending[p] == Entry(key, Get(pending, key).value)
  {
    GetFinds(pending, key);
    p :| 0 <= p < |pending| && pending[p] == Entry(key, Get(pending, key).value);
  }

  /** At rest each pending call is noted. */
  lemma PendingIsNoted(j: Joint, p: nat) returns (i: nat)
    requires Shape(j) && Agree(j) && AtRest(j) && p < |j.bench.recorder.pending|
    ensures i < |j.relay.calls| && j.relay.calls[i].key == j.bench.recorder.pending[p].key
    ensures var started, call := j.bench.recorder.pending[p].value, j.relay.calls[i].value;
            call.number == Some(started.number) && started.tool == Relay.RecorderTool(call.tool)
  {
    var key := j.bench.recorder.pending[p].key;
    GetAt(j.bench.recorder.pending, p);
    assert AgreeAt(j, key);
    GetFinds(j.relay.calls, key);
    i :| 0 <= i < |j.relay.calls| && j.relay.calls[i] == Entry(key, Get(j.relay.calls, key).value);
  }

  lemma CloseRows(j: Joint, room: nat)
    requires j.before.None?
    ensures var w := Written(|j.bench.recorder.pending|, room);
            var k := Next(j, Close(room));
            && k.bench.recorder.rows == j.bench.recorder.rows + UnansweredRows(j.bench.recorder.pending[..w])
            && Recent(k) == LinesOf(UnansweredRows(j.bench.recorder.pending[..w]))
  {
    var w := Written(|j.bench.recorder.pending|, room);
    var old_rows, more := j.bench.recorder.rows, UnansweredRows(j.bench.recorder.pending[..w]);
    assert (old_rows + more)[|old_rows|..] == more;
  }

  lemma OwnRowsAfterClose(j: Joint, room: nat, call: Relay.NotedCall)
    requires j.before.None?
    ensures var first := j.bench.recorder.pending[..Written(|j.bench.recorder.pending|, room)];
            OwnRows(Next(j, Close(room)), call) > 0 <==> OwnRows(j, call) > 0 || IsAmong(call, first)
  {
    var rows, first := j.bench.recorder.rows, j.bench.recorder.pending[..Written(|j.bench.recorder.pending|, room)];
    CloseRows(j, room);
    BenchRuns.RowNumbersConcat(rows, UnansweredRows(first), false);
    BenchRuns.UnansweredNumbers(first);
    if call.number.Some? {
      BenchRuns.TimesConcat(BenchRuns.RowNumbers(rows, false), EntryNumbers(first), call.number.value);
      BenchRuns.TimesMember(EntryNumbers(first), call.number.value);
    }
  }

  lemma ClosedAreLogged(j: Joint, room: nat)
    requires Shape(j) && Agree(j) && AtRest(j) && j.before.None?
    ensures LoggedCalls(Next(j, Close(room))) == ClosedCalls(j, room)
  {
    var k := Next(j, Close(room));
    var first := j.bench.recorder.pending[..Written(|j.bench.recorder.pending|, room)];
    forall call | call in Noted(j)
      ensures OwnRows(k, call) > 0 <==> IsAmong(call, first)
    {
      var i :| 0 <= i < |j.relay.calls| && j.relay.calls[i].value == call;
      NotedHaveNoRows(j, i);
      OwnRowsAfterClose(j, room, call);
    }
    assert Noted(k) == Noted(j);
  }

  lemma {:induction false} OneMoreCounted(calls: seq<Relay.NotedCall>, i: nat, p: Relay.NotedCall -> bool,
                                          q: Relay.NotedCall -> bool)
    requires i < |calls| && !q(calls[i])
    requires forall k :: 0 <= k < |calls| && k != i ==> p(calls[k]) == q(calls[k])
    ensures CountIf(calls, p) == CountIf(calls, q) + if p(calls[i]) then 1 else 0
    decreases |calls|
  {
    var front := calls[..|calls| - 1];
    if i == |front| {
      Relay.CountsSame(front, p, q);
    } else {
      OneMoreCounted(front, i, p, q);
    }
  }

  /** What carries from each number to the next holds up to any. */
  lemma {:induction false} UpTo(kept: nat -> bool, n: nat)
    requires kept(0) && forall i :: 0 <= i < n && kept(i) ==> kept(i + 1)
    ensures kept(n)
  {
    if n > 0 {
      UpTo(kept, n - 1);
    }
  }

  predicate OneLineEach(j: Joint, n: nat, key: string) {
    n <= |j.bench.recorder.pending| ==>
      Relay.Logged(LinesOf(UnansweredRows(j.bench.recorder.pending[..n])), key)
      == CountIf(Noted(j), Relay.WrittenAs(First(j, n), key))
  }

  /** One line for each noted call among the first `n` pending ones. */
  lemma LinesCount(j: Joint, n: nat, key: string)
    requires Shape(j) && Agree(j) && AtRest(j) && n <= |j.bench.recorder.pending|
    ensures Relay.Logged(LinesOf(UnansweredRows(j.bench.recorder.pending[..n])), key)
            == CountIf(Noted(j), Relay.WrittenAs(First(j, n), key))
  {
    NoLines(Noted(j), First(j, 0), key);
    forall i | 0 <= i < n && OneLineEach(j, i, key)
      ensures OneLineEach(j, i + 1, key)
    {
      LineAdded(j.bench.recorder.pending, i, key);
      CallAdded(j, i, key);
    }
    UpTo((i: nat) => OneLineEach(j, i, key), n);
  }

  lemma NoLines(calls: seq<Relay.NotedCall>, logged: set<Relay.NotedCall>, key: string)
    requires logged == {}
    ensures CountIf(calls, Relay.WrittenAs(logged, key)) == 0
  {
    Relay.CountAtMost(calls, Relay.WrittenAs(logged, key), (call: Relay.NotedCall) => false);
    Relay.CountIfNever(calls);
  }

  lemma LineAdded(pending: Dict<Started>, n: nat, key: string)
    requires n < |pending|
    ensures Relay.Logged(LinesOf(UnansweredRows(pending[..n + 1])), key)
            == Relay.Logged(LinesOf(UnansweredRows(pending[..n])), key) + if pending[n].value.tool == key then 1 else 0
  {
    var lines, line := LinesOf(UnansweredRows(pending[..n])), Relay.LineOf(Finish(pending[n].value, Unanswered));
    assert pending[..n + 1] == pending[..n] + [pending[n]];
    assert LinesOf(UnansweredRows(pending[..n + 1])) == lines + [line];
    CountIfAppend(lines, line, Relay.LoggedAs(key));
  }

  lemma CallAdded(j: Joint, n: nat, key: string)
    requires Shape(j) && Agree(j) && AtRest(j) && n < |j.bench.recorder.pending|
    ensures CountIf(Noted(j), Relay.WrittenAs(First(j, n + 1), key))
            == CountIf(Noted(j), Relay.WrittenAs(First(j, n), key))
               + if j.bench.recorder.pending[n].value.tool == key then 1 else 0
  {
    var i := PendingIsNoted(j, n);
    FirstGrows(j, n + 1, i);
    OneMoreCounted(Noted(j), i, Relay.WrittenAs(First(j, n + 1), key), Relay.WrittenAs(First(j, n), key));
  }

  lemma NumbersAreDistinct(j: Joint, n: nat)
    requires BenchRuns.Inv(j.bench) && n < |j.bench.recorder.pending|
    ensures j.bench.recorder.pending[n].value.number !in EntryNumbers(j.bench.recorder.pending[..n])
  {
    var pending := j.bench.recorder.pending;
    var number := pending[n].value.number;
    var numbers := EntryNumbers(pending);
    assert numbers[n] == number;
    PendingHasNoRow(j, number);
    assert numbers == EntryNumbers(pending[..n]) + numbers[n..];
    BenchRuns.TimesConcat(EntryNumbers(pending[..n]), numbers[n..], number);
    BenchRuns.TimesMember(EntryNumbers(pending[..n]), number);
    BenchRuns.TimesMember(numbers[n..], number);
    assert numbers[n..][0] == number;
  }

  lemma FirstGrows(j: Joint, n: nat, i: nat)
    requires Shape(j) && 0 < n <= |j.bench.recorder.pending| && i < |j.relay.calls|
    requires j.relay.calls[i].value.number == Some(j.bench.recorder.pending[n - 1].value.number)
    ensures Noted(j)[i] in First(j, n) && Noted(j)[i] !in First(j, n - 1)
    ensures forall k :: 0 <= k < |Noted(j)| && k != i ==>
                          (Noted(j)[k] in First(j, n) <==> Noted(j)[k] in First(j, n - 1))
  {
    var pending := j.bench.recorder.pending;
    NumbersAreDistinct(j, n - 1);
    assert EntryNumbers(pending[..n]) == EntryNumbers(pending[..n - 1]) + [pending[n - 1].value.number];
    assert Noted(j)[i] in Noted(j);
    forall k | 0 <= k < |Noted(j)| && k != i
      ensures Noted(j)[k] in First(j, n) <==> Noted(j)[k] in First(j, n - 1)
    {
      assert Noted(j)[k] in Noted(j);
      assert Noted(j)[k].number != Noted(j)[i].number;
    }
  }

  lemma ClosedLines(j: Joint, room: nat)
    requires Shape(j) && Agree(j) && AtRest(j) && j.before.None?
    ensures Relay.LinesOfLogged(Noted(j), ClosedCalls(j, room), Recent(Next(j, Close(room))))
  {
    CloseRows(j, room);
    forall key
      ensures Relay.Logged(Recent(Next(j, Close(room))), key)
              == CountIf(Noted(j), Relay.WrittenAs(ClosedCalls(j, room), key))
    {
      LinesCount(j, Written(|j.bench.recorder.pending|, room), key);
    }
  }

  lemma ClosedIff(j: Joint, room: nat)
    requires Shape(j) && Agree(j) && AtRest(j) && j.before.None?
    ensures OneRowEach(Next(j, Close(room)))
            <==> Relay.NoneNameless(Noted(j), ClosedCalls(j, room))
                 && Relay.EarliestLogged(Noted(j), ClosedCalls(j, room))
  {
    var k := Next(j, Close(room));
    StepKeepsShape(j, Close(room));
    ClosedAreLogged(j, room);
    ClosedLines(j, room);
    LoggedIff(k, Noted(j), ClosedCalls(j, room));
  }

  lemma LoggedIff(k: Joint, calls: seq<Relay.NotedCall>, logged: set<Relay.NotedCall>)
    requires Shape(k) && Noted(k) == calls && LoggedCalls(k) == logged
    requires Relay.LinesOfLogged(calls, logged, Recent(k))
    ensures OneRowEach(k) <==> Relay.NoneNameless(calls, logged) && Relay.EarliestLogged(calls, logged)
  {
    OneRowIsMatch(k);
    Relay.CountedIffNamed(calls, logged, Recent(k));
    Relay.EveryCallHasOneRowIff(calls, logged, Recent(k));
  }

  /** After any run that kept the agreement, and a close that raises at any write with both threads between their
      sections: the fallback leaves every noted call with exactly one row of its own if and only if close logged no
      call that names no tool, and of each tool the calls the relay noted first. */
  lemma FailedCloseIsMadeUpIff(cap: nat, steps: seq<Step>, room: nat)
    requires Open(steps) && forall i :: 0 <= i < |steps| ==> KeepsAt(cap, steps, i)
    requires AtRest(Run(Start(cap), steps))
    ensures var j := Run(Start(cap), steps);
            OneRowEach(Next(j, Close(room)))
            <==> Relay.NoneNameless(Noted(j), ClosedCalls(j, room))
                 && Relay.EarliestLogged(Noted(j), ClosedCalls(j, room))
  {
    KeptSoFar(cap, steps, |steps|);
    assert steps[..|steps|] == steps;
    EveryRunHasShape(cap, steps);
    OpenRunIsOpen(cap, steps);
    ClosedIff(Run(Start(cap), steps), room);
  }

  lemma {:induction false} OpenRunIsOpen(cap: nat, steps: seq<Step>)
    requires Open(steps)
    ensures Run(Start(cap), steps).before.None?
    decreases |steps|
  {
    if steps != [] {
      OpenRunIsOpen(cap, steps[..|steps| - 1]);
    }
  }

  // ----- Without a put-back the two hold the calls in one order -----

  function Without(keys: seq<Key>, hidden: Option<Key>): seq<Key> {
    if keys == [] then []
    else (if hidden == Some(keys[0]) then [] else [keys[0]]) + Without(keys[1..], hidden)
  }

  function BusyKey(reader: Reader): Option<Key> {
    if reader.Holding? || reader.Dropping? then Some(reader.key) else None
  }

  /** The id being noted, which the recorder alone has. */
  function NotingPart(j: Joint): seq<Key> {
    if j.upstream.Noting? then [j.upstream.key] else []
  }

  /** The id of the call on which the recorder raised, which the relay alone has. */
  function ExtraPart(j: Joint): seq<Key> {
    if j.extra.Some? && Has(j.relay.calls, j.extra.value) && BusyKey(j.reader) != j.extra then [j.extra.value] else []
  }

  predicate SameOrder(j: Joint) {
    Keys(j.bench.recorder.pending) + ExtraPart(j) == Without(Keys(j.relay.calls), BusyKey(j.reader)) + NotingPart(j)
  }

  lemma {:induction false} WithoutConcat(a: seq<Key>, b: seq<Key>, hidden: Option<Key>)
    ensures Without(a + b, hidden) == Without(a, hidden) + Without(b, hidden)
  {
    if a == [] {
      assert a + b == b;
    } else {
      assert (a + b)[1..] == a[1..] + b;
      WithoutConcat(a[1..], b, hidden);
    }
  }

  lemma {:induction false} WithoutAbsent(keys: seq<Key>, hidden: Option<Key>)
    requires hidden.Some? ==> hidden.value !in keys
    ensures Without(keys, hidden) == keys
  {
    if keys != [] {
      WithoutAbsent(keys[1..], hidden);
    }
  }

  lemma {:induction false} KeysOfRemoved<V>(dict: Dict<V>, key: Key)
    requires UniqueKeys(dict)
    ensures Keys(Remove(dict, key)) == Without(Keys(dict), Some(key))
  {
    if dict != [] {
      assert Keys(dict)[1..] == Keys(dict[1..]);
      if dict[0].key == key {
        KeysAbsent(dict[1..], key);
        WithoutAbsent(Keys(dict[1..]), Some(key));
      } else {
        KeysOfRemoved(dict[1..], key);
        assert Keys(Remove(dict, key)) == [dict[0].key] + Keys(Remove(dict[1..], key));
      }
    }
  }

  lemma KeysAbsent<V>(dict: Dict<V>, key: Key)
    requires forall i :: 0 <= i < |dict| ==> dict[i].key != key
    ensures key !in Keys(dict)
  {
  }

  lemma AcceptAppends(s: State, message: Message, room: nat)
    ensures var (after, verdict) := RequestSection(s, message, room);
            var id := NotedId(message);
            if verdict.Forward? && id.Some? then
              Get(s.pending, id.value).None? ==> Keys(after.pending) == Keys(s.pending) + [id.value]
            else after.pending == s.pending
  {
    if message.Batch? {
      BatchOnlyCounts(s, message.items, room);
    } else if message.item.ToolsCall? && RequestSection(s, message, room).1.Forward? {
      var call := message.item.call;
      PutGets(s.pending, call.id.value, Started(s.next, ToolOf(call), ArgumentsOf(call)), call.id.value);
      HasIsGet(s.pending, call.id.value);
    }
  }

  lemma SectionKeepsOrder(j: Joint, step: Step)
    requires Shape(j) && Agree(j) && SameOrder(j) && step.Section? && Can(j, step) && Keeps(j, step)
    ensures SameOrder(Next(j, step))
  {
    var k, id := Next(j, step), NotedId(step.message);
    AcceptAppends(j.bench.recorder, step.message, step.room);
    if id.Some? {
      assert AgreeAt(j, id.value);
    }
    var settled := Without(Keys(j.relay.calls), BusyKey(j.reader));
    assert Keys(j.bench.recorder.pending) == settled by {
      assert NotingPart(j) == [] && ExtraPart(j) == [];
      assert settled + [] == settled && Keys(j.bench.recorder.pending) + [] == Keys(j.bench.recorder.pending);
    }
    assert Keys(k.bench.recorder.pending) == settled + NotingPart(k);
    assert ExtraPart(k) == [] && Keys(k.bench.recorder.pending) + [] == Keys(k.bench.recorder.pending);
  }

  lemma NotedAtEnd(calls: Relay.Noted, key: Key, call: Relay.NotedCall, busy: Option<Key>)
    ensures Keys(calls + [Entry(key, call)]) == Keys(calls) + [key] && Has(calls + [Entry(key, call)], key)
    ensures Without(Keys(calls + [Entry(key, call)]), busy)
         == Without(Keys(calls), busy) + if busy == Some(key) then [] else [key]
  {
    assert (calls + [Entry(key, call)])[|calls|].key == key;
    assert Keys(calls + [Entry(key, call)]) == Keys(calls) + [key];
    WithoutConcat(Keys(calls), [key], busy);
    assert [key][1..] == [];
  }

  lemma NoteKeepsOrder(j: Joint)
    requires Shape(j) && Agree(j) && SameOrder(j) && Can(j, Note) && Keeps(j, Note)
    ensures SameOrder(Next(j, Note))
  {
    var calls, key, k := j.relay.calls, j.upstream.key, Next(j, Note);
    var pending, settled := Keys(j.bench.recorder.pending), Without(Keys(calls), BusyKey(j.reader));
    assert AgreeAt(j, key);
    HasIsGet(calls, key);
    NotedAtEnd(calls, key, j.upstream.call, BusyKey(j.reader));
    assert ExtraPart(j) == [] && pending + [] == pending;
    assert settled + [] == settled;
    assert NotingPart(k) == [];
    if j.relay.aborted || Has(calls, key) {
      assert ExtraPart(k) == [];
    } else {
      assert Without(Keys(k.relay.calls), BusyKey(k.reader)) + [] == Without(Keys(k.relay.calls), BusyKey(k.reader));
    }
  }

  lemma WithoutPart(part: seq<Key>, key: Key)
    requires |part| <= 1
    ensures Without(part, Some(key)) == if part == [key] then [] else part
  {
    if part != [] {
      assert part == [part[0]] && part[1..] == [];
    }
  }

  lemma PendingWithout(pending: Dict<Started>, key: Key)
    requires UniqueKeys(pending)
    ensures Keys(Remove(pending, key)) == Without(Keys(pending), Some(key))
    ensures Get(pending, key).None? ==> Without(Keys(pending), Some(key)) == Keys(pending)
  {
    KeysOfRemoved(pending, key);
    if Get(pending, key).None? {
      GetFinds(pending, key);
      KeysAbsent(pending, key);
      WithoutAbsent(Keys(pending), Some(key));
    }
  }

  lemma PopKeepsOrder(j: Joint, step: Step)
    requires Shape(j) && Agree(j) && SameOrder(j) && step.Pop? && Can(j, step) && Keeps(j, step)
    ensures SameOrder(Next(j, step))
  {
    var key, k := step.key, Next(j, step);
    assert AgreeAt(j, key);
    PendingWithout(j.bench.recorder.pending, key);
    assert Keys(k.bench.recorder.pending) == Without(Keys(j.bench.recorder.pending), Some(key));
    WithoutAbsent(Keys(j.relay.calls), None);
    PopBothSides(Keys(j.bench.recorder.pending), ExtraPart(j), Keys(j.relay.calls), NotingPart(j), key);
    assert ExtraPart(k) == if ExtraPart(j) == [key] then [] else ExtraPart(j);
  }

  lemma PopBothSides(pending: seq<Key>, extra: seq<Key>, calls: seq<Key>, noting: seq<Key>, key: Key)
    requires pending + extra == calls + noting && |extra| <= 1 && |noting| <= 1 && noting != [key]
    ensures Without(pending, Some(key)) + (if extra == [key] then [] else extra) == Without(calls, Some(key)) + noting
  {
    WithoutConcat(pending, extra, Some(key));
    WithoutConcat(calls, noting, Some(key));
    WithoutPart(extra, key);
    WithoutPart(noting, key);
  }

  lemma DropKeepsOrder(j: Joint)
    requires Shape(j) && SameOrder(j) && Can(j, Drop)
    ensures SameOrder(Next(j, Drop))
  {
    var calls, key := j.relay.calls, j.reader.key;
    KeysOfRemoved(calls, key);
    WithoutAbsent(Keys(Remove(calls, key)), None);
    if j.extra.Some? {
      HasIsGet(calls, j.extra.value);
      HasIsGet(Remove(calls, key), j.extra.value);
      RemoveGets(calls, key, j.extra.value);
    }
  }

  lemma StepKeepsOrder(j: Joint, step: Step)
    requires Shape(j) && Agree(j) && SameOrder(j) && Can(j, step) && Keeps(j, step)
    requires !step.PutBack? && !step.Close?
    ensures SameOrder(Next(j, step))
  {
    match step
    case Section(_, _, _) => SectionKeepsOrder(j, step);
    case Note => NoteKeepsOrder(j);
    case Pop(_, _, _) => PopKeepsOrder(j, step);
    case Drop => DropKeepsOrder(j);
    case _ =>
  }

  lemma NextKeepsOrder(j: Joint, step: Step)
    requires Shape(j) && Agree(j) && SameOrder(j) && (Can(j, step) ==> Keeps(j, step))
    requires !step.PutBack? && !step.Close?
    ensures SameOrder(Next(j, step))
  {
    if Can(j, step) {
      StepKeepsOrder(j, step);
    }
  }

  predicate SameOrderAfter(cap: nat, steps: seq<Step>, i: nat) {
    i <= |steps| ==> SameOrder(Run(Start(cap), steps[..i]))
  }

  lemma OrderStep(cap: nat, steps: seq<Step>, i: nat)
    requires Open(steps) && i < |steps| && forall k :: 0 <= k < |steps| ==> KeepsAt(cap, steps, k)
    requires SameOrder(Run(Start(cap), steps[..i])) && !steps[i].PutBack?
    ensures SameOrder(Run(Start(cap), steps[..i + 1]))
  {
    KeptSoFar(cap, steps, i);
    EveryRunHasShape(cap, steps[..i]);
    assert KeepsAt(cap, steps, i) && !steps[i].Close?;
    NextKeepsOrder(Run(Start(cap), steps[..i]), steps[i]);
    OneMoreStep(Start(cap), steps[..i], steps[i]);
    assert steps[..i + 1] == steps[..i] + [steps[i]];
  }

  lemma OrderKept(cap: nat, steps: seq<Step>)
    requires Open(steps) && forall i :: 0 <= i < |steps| ==> KeepsAt(cap, steps, i) && !steps[i].PutBack?
    ensures SameOrder(Run(Start(cap), steps))
  {
    assert steps[..0] == [] && SameOrder(Start(cap));
    forall i | 0 <= i < |steps| && SameOrderAfter(cap, steps, i)
      ensures SameOrderAfter(cap, steps, i + 1)
    {
      OrderStep(cap, steps, i);
    }
    UpTo((i: nat) => SameOrderAfter(cap, steps, i), |steps|);
    assert steps[..|steps|] == steps;
  }

  lemma CallIsAt(j: Joint, i: nat)
    requires Shape(j) && Agree(j) && AtRest(j) && i < |j.bench.recorder.pending|
    requires Keys(j.bench.recorder.pending) + ExtraPart(j) == Keys(j.relay.calls)
    ensures i < |j.relay.calls|
    ensures j.relay.calls[i].value.number == Some(j.bench.recorder.pending[i].value.number)
  {
    var k := PendingIsNoted(j, i);
    assert Keys(j.relay.calls)[i] == Keys(j.bench.recorder.pending)[i];
    assert j.relay.calls[i].key == j.relay.calls[k].key;
  }

  /** In one order, close logs the calls the relay noted first. */
  lemma FirstAreFirst(j: Joint, n: nat, i: nat)
    requires Shape(j) && Agree(j) && AtRest(j) && n <= |j.bench.recorder.pending| && i < |j.relay.calls|
    requires Keys(j.bench.recorder.pending) + ExtraPart(j) == Keys(j.relay.calls)
    ensures Noted(j)[i] in First(j, n) <==> i < n
  {
    var pending, call := j.bench.recorder.pending, Noted(j)[i];
    assert call in Noted(j);
    if i < n {
      CallIsAt(j, i);
      assert EntryNumbers(pending[..n])[i] == pending[i].value.number;
    }
    if call in First(j, n) {
      var q :| 0 <= q < n && EntryNumbers(pending[..n])[q] == call.number.value;
      CallIsAt(j, q);
      assert Noted(j)[q].number == call.number;
    }
  }

  /** After any run that kept the agreement and in which no row of an answer failed to be written, and a close that
      raises at any write while no answer is on its way: the fallback leaves every noted call with exactly one row of
      its own if and only if close logged no call that names no tool. */
  lemma MadeUpWithoutPutBackIff(cap: nat, steps: seq<Step>, room: nat)
    requires Open(steps) && forall i :: 0 <= i < |steps| ==> KeepsAt(cap, steps, i) && !steps[i].PutBack?
    requires !Run(Start(cap), steps).upstream.Noting? && BusyKey(Run(Start(cap), steps).reader).None?
    ensures var j := Run(Start(cap), steps);
            OneRowEach(Next(j, Close(room))) <==> Relay.NoneNameless(Noted(j), ClosedCalls(j, room))
  {
    var j := Run(Start(cap), steps);
    FailedCloseIsMadeUpIff(cap, steps, room);
    KeptSoFar(cap, steps, |steps|);
    OrderKept(cap, steps);
    EveryRunHasShape(cap, steps);
    assert steps[..|steps|] == steps;
    SameKeys(j);
    ClosedAreEarliest(j, Written(|j.bench.recorder.pending|, room));
  }

  lemma SameKeys(j: Joint)
    requires SameOrder(j) && !j.upstream.Noting? && BusyKey(j.reader).None?
    ensures Keys(j.bench.recorder.pending) + ExtraPart(j) == Keys(j.relay.calls)
  {
    WithoutAbsent(Keys(j.relay.calls), None);
    assert Keys(j.relay.calls) + [] == Keys(j.relay.calls);
  }

  lemma ClosedAreEarliest(j: Joint, n: nat)
    requires Shape(j) && Agree(j) && AtRest(j) && n <= |j.bench.recorder.pending|
    requires Keys(j.bench.recorder.pending) + ExtraPart(j) == Keys(j.relay.calls)
    ensures Relay.EarliestLogged(Noted(j), First(j, n))
  {
    forall i, k | 0 <= i < k < |Noted(j)| && Noted(j)[k] in First(j, n)
      ensures Noted(j)[i] in First(j, n)
    {
      FirstAreFirst(j, n, i);
      FirstAreFirst(j, n, k);
    }
  }

  // ----- Runs in which it goes wrong -----

  /** A request for a tool, or one that names none. */
  function Ask(id: Key, name: Option<string>): Step {
    Section(Single(ToolsCall(Call(Some(Params(Relay.RecorderTool(name), "")), Some(id)))), name, 9)
  }

  lemma OneMoreStep(j: Joint, steps: seq<Step>, step: Step)
    ensures Run(j, steps + [step]) == Next(Run(j, steps), step)
  {
    assert (steps + [step])[..|steps|] == steps;
  }

  function Asked(number: nat, name: Option<string>): Started {
    Started(number, Relay.RecorderTool(name), Some(""))
  }

  /** A call is accepted and noted. */
  lemma AskAndNote(j: Joint, id: Key, name: Option<string>)
    requires j.upstream.Reading? && !j.relay.aborted && j.bench.recorder.forwarded < j.bench.recorder.cap
    requires !Has(j.bench.recorder.pending, id) && !Has(j.relay.calls, id)
    ensures var k := Next(Next(j, Ask(id, name)), Note);
            var number := j.bench.recorder.next;
            && k.bench.recorder.pending == j.bench.recorder.pending + [Entry(id, Asked(number, name))]
            && k.relay == Relay.Record(false, j.relay.calls + [Entry(id, Relay.NotedCall(name, Some(number)))])
            && k.bench.recorder.next == number + 1 && k.bench.recorder.rows == j.bench.recorder.rows
            && k.bench.recorder.forwarded == j.bench.recorder.forwarded + 1
            && k.bench.recorder.cap == j.bench.recorder.cap
            && k.upstream == Reading && k.reader == j.reader && k.bench.hand == j.bench.hand && k.before == j.before
    ensures Keeps(j, Ask(id, name)) && (!Busy(j.reader, id) ==> Keeps(Next(j, Ask(id, name)), Note))
  {
    HasIsGet(j.bench.recorder.pending, id);
    HasIsGet(j.relay.calls, id);
    PutAppends(j.bench.recorder.pending, id, Asked(j.bench.recorder.next, name));
  }

  function TwoAsks(a: Key, x: Option<string>, b: Key, y: Option<string>): seq<Step> {
    [Ask(a, x), Note, Ask(b, y), Note]
  }

  lemma TwoMoreSteps(j: Joint, steps: seq<Step>, a: Step, b: Step)
    ensures Run(j, steps + [a, b]) == Next(Next(Run(j, steps), a), b)
  {
    OneMoreStep(j, steps, a);
    OneMoreStep(j, steps + [a], b);
    assert steps + [a, b] == steps + [a] + [b];
  }

  lemma RunOfFour(j: Joint, a: Step, b: Step, c: Step, d: Step)
    ensures Run(j, [a, b]) == Next(Next(j, a), b)
    ensures Run(j, [a, b, c, d]) == Next(Next(Next(Next(j, a), b), c), d)
  {
    TwoMoreSteps(j, [], a, b);
    TwoMoreSteps(j, [a, b], c, d);
    assert [] + [a, b] == [a, b] && [a, b] + [c, d] == [a, b, c, d];
  }

  lemma AfterTwoAsks(cap: nat, a: Key, x: Option<string>, b: Key, y: Option<string>) returns (j: Joint)
    requires cap >= 2 && a != b
    ensures j == Run(Start(cap), TwoAsks(a, x, b, y))
    ensures j.bench.recorder.pending == [Entry(a, Asked(0, x)), Entry(b, Asked(1, y))]
    ensures j.relay
         == Relay.Record(false, [Entry(a, Relay.NotedCall(x, Some(0))), Entry(b, Relay.NotedCall(y, Some(1)))])
    ensures j.bench.recorder.rows == [] && j.bench.hand == [] && j.before == None
    ensures j.upstream == Reading && j.reader == Waiting
  {
    var s0 := Start(cap);
    var s2 := Next(Next(s0, Ask(a, x)), Note);
    j := Next(Next(s2, Ask(b, y)), Note);
    AskAndNote(s0, a, x);
    AskAndNote(s2, b, y);
    RunOfFour(s0, Ask(a, x), Note, Ask(b, y), Note);
  }

  /** Every step of asking twice keeps the agreement. */
  lemma TwoAsksKeep(cap: nat, a: Key, x: Option<string>, b: Key, y: Option<string>, i: nat)
    requires cap >= 2 && a != b && i < 4
    ensures KeepsAt(cap, TwoAsks(a, x, b, y), i)
  {
    var s0, steps := Start(cap), TwoAsks(a, x, b, y);
    var s2 := Next(Next(s0, Ask(a, x)), Note);
    AskAndNote(s0, a, x);
    AskAndNote(s2, b, y);
    assert steps[..0] == [] && steps[..1] == [] + [Ask(a, x)] && steps[..2] == [Ask(a, x), Note];
    assert steps[..3] == [Ask(a, x), Note] + [Ask(b, y)];
    RunOfFour(s0, Ask(a, x), Note, Ask(b, y), Note);
    OneMoreStep(s0, [], Ask(a, x));
    OneMoreStep(s0, [Ask(a, x), Note], Ask(b, y));
  }

  lemma UnloggedPair(x: Relay.NotedCall, y: Relay.NotedCall, recent: seq<Relay.Line>)
    ensures Relay.Unlogged([x, y], recent)
         == (if Relay.Skipped([], x, recent) then [] else [x]) + if Relay.Skipped([x], y, recent) then [] else [y]
  {
    assert [x, y][..1] == [x] && [x][..0] == [];
    assert Relay.Unlogged([x], recent) == [] + if Relay.Skipped([], x, recent) then [] else [x];
  }

  lemma OneLine(line: Relay.Line, key: string)
    ensures Relay.Logged([line], key) == if Relay.LoggedAs(key)(line) then 1 else 0
  {
    CountIfAppend([], line, Relay.LoggedAs(key));
    assert [] + [line] == [line];
  }

  lemma OneCall(call: Relay.NotedCall, key: string)
    ensures CountIf([call], Relay.CallFor(key)) == if Relay.ToolKey(call.tool) == key then 1 else 0
  {
    CountIfAppend([], call, Relay.CallFor(key));
    assert [] + [call] == [call];
  }

  lemma PairUnlogged(x: Relay.NotedCall, y: Relay.NotedCall, line: Relay.Line)
    requires line.unanswered
    ensures var key := Relay.ToolKey(line.tool);
            var skipsFirst := Relay.ToolKey(x.tool) == key;
            Relay.Unlogged([x, y], [line])
            == (if skipsFirst then [] else [x]) + if !skipsFirst && Relay.ToolKey(y.tool) == key then [] else [y]
  {
    UnloggedPair(x, y, [line]);
    OneLine(line, Relay.ToolKey(x.tool));
    OneLine(line, Relay.ToolKey(y.tool));
    OneCall(x, Relay.ToolKey(y.tool));
  }

  lemma OneRow(row: Row, n: nat)
    requires !row.outcome.Refused?
    ensures BenchRuns.Times(BenchRuns.RowNumbers([row], false), n) == if row.number == n then 1 else 0
  {
    assert [row][1..] == [] && [row.number] + [] == [row.number] && [row.number][1..] == [];
    assert BenchRuns.RowNumbers([row], false) == [row.number];
  }

  /** What the fallback makes of two calls when close has written one line. */
  lemma PairAfterOneLine(k: Joint, x: Relay.NotedCall, y: Relay.NotedCall, row: Row)
    requires Noted(k) == [x, y] && x != y && k.before == Some(0) && k.bench.recorder.rows == [row]
    requires row.outcome.Unanswered? && x.number == Some(0) && y.number == Some(1)
    ensures var skipsFirst := Relay.ToolKey(x.tool) == row.tool;
            var skipsSecond := !skipsFirst && Relay.ToolKey(y.tool) == row.tool;
            && RowsOf(k, x) == (if row.number == 0 then 1 else 0) + (if skipsFirst then 0 else 1)
            && RowsOf(k, y) == (if row.number == 1 then 1 else 0) + if skipsSecond then 0 else 1
  {
    assert [row][0..] == [row];
    assert Recent(k) == [Relay.LineOf(row)];
    PairUnlogged(x, y, Relay.LineOf(row));
    OneRow(row, 0);
    OneRow(row, 1);
  }

  lemma PopFirst(j: Joint, id: Key, started: Started, rest: Dict<Started>)
    requires j.reader.Waiting? && j.bench.hand == [] && j.bench.recorder.pending == [Entry(id, started)] + rest
    ensures var k := Next(j, Pop(id, false, None));
            && k.bench.recorder == j.bench.recorder.(pending := rest)
            && k.bench.hand == [BenchRuns.InHand(id, started, false, None)]
            && k.relay == j.relay && k.upstream == j.upstream && k.reader == Holding(id) && k.before == j.before
  {
  }

  lemma PutBackLast(j: Joint, id: Key, h: BenchRuns.InHand)
    requires j.reader == Holding(id) && j.bench.hand == [h] && h.key == id && !Has(j.bench.recorder.pending, id)
    ensures var k := Next(j, PutBack);
            && k.bench.recorder == j.bench.recorder.(pending := j.bench.recorder.pending + [Entry(id, h.started)])
            && k.relay == j.relay && k.upstream == j.upstream && k.reader == Failing && k.before == j.before
  {
    HasIsGet(j.bench.recorder.pending, id);
  }

  function PutBackRun(a: Key, b: Key, tool: string): seq<Step> {
    TwoAsks(a, Some(tool), b, Some(tool)) + [Pop(a, false, None)] + [PutBack]
  }

  lemma AfterPutBackRun(cap: nat, a: Key, b: Key, tool: string) returns (j: Joint)
    requires cap >= 2 && a != b
    ensures j == Run(Start(cap), PutBackRun(a, b, tool)) && AtRest(j) && j.before.None? && j.bench.recorder.rows == []
    ensures j.bench.recorder.pending == [Entry(b, Asked(1, Some(tool))), Entry(a, Asked(0, Some(tool)))]
    ensures Noted(j) == [Relay.NotedCall(Some(tool), Some(0)), Relay.NotedCall(Some(tool), Some(1))]
    ensures forall i :: 0 <= i < 6 ==> KeepsAt(cap, PutBackRun(a, b, tool), i)
  {
    var four, steps := TwoAsks(a, Some(tool), b, Some(tool)), PutBackRun(a, b, tool);
    var s4 := AfterTwoAsks(cap, a, Some(tool), b, Some(tool));
    var x, rest := Asked(0, Some(tool)), [Entry(b, Asked(1, Some(tool)))];
    assert [Entry(a, x)] + rest == s4.bench.recorder.pending;
    PopFirst(s4, a, x, rest);
    var s5 := Next(s4, Pop(a, false, None));
    PutBackLast(s5, a, BenchRuns.InHand(a, x, false, None));
    j := Next(s5, PutBack);
    OneMoreStep(Start(cap), four, Pop(a, false, None));
    OneMoreStep(Start(cap), four + [Pop(a, false, None)], PutBack);
    assert steps[..4] == four && steps[..5] == four + [Pop(a, false, None)];
    forall i | 0 <= i < 4
      ensures KeepsAt(cap, steps, i)
    {
      TwoAsksKeep(cap, a, Some(tool), b, Some(tool), i);
      assert steps[..i] == four[..i];
    }
  }

  /** Two calls of one tool, the first one's answer popped and put back because its row could not be written: every step
      keeps the agreement, but the recorder now has them the other way round. A close that fails at its second write
      logs the second call, the fallback skips the first of that tool, and so the second has two rows and the first
      none. */
  lemma PutBackLosesARow(cap: nat, a: Key, b: Key, tool: string)
    requires cap >= 2 && a != b
    ensures var steps := PutBackRun(a, b, tool);
            var j := Run(Start(cap), steps);
            && (forall i :: 0 <= i < |steps| ==> KeepsAt(cap, steps, i)) && AtRest(j)
            && RowsOf(Next(j, Close(1)), Relay.NotedCall(Some(tool), Some(0))) == 0
            && RowsOf(Next(j, Close(1)), Relay.NotedCall(Some(tool), Some(1))) == 2
  {
    var j := AfterPutBackRun(cap, a, b, tool);
    OneLineWritten(j, Noted(j)[0], Noted(j)[1]);
  }

  /** Close writes the first row and raises at the second. */
  lemma OneLineWritten(j: Joint, x: Relay.NotedCall, y: Relay.NotedCall)
    requires j.before.None? && j.bench.recorder.rows == [] && j.bench.recorder.pending != []
    requires Noted(j) == [x, y] && x.number == Some(0) && y.number == Some(1)
    ensures var started, k := j.bench.recorder.pending[0].value, Next(j, Close(1));
            var skipsFirst := Relay.ToolKey(x.tool) == started.tool;
            var skipsSecond := !skipsFirst && Relay.ToolKey(y.tool) == started.tool;
            && RowsOf(k, x) == (if started.number == 0 then 1 else 0) + (if skipsFirst then 0 else 1)
            && RowsOf(k, y) == (if started.number == 1 then 1 else 0) + if skipsSecond then 0 else 1
  {
    var started, k := j.bench.recorder.pending[0].value, Next(j, Close(1));
    CloseRows(j, 1);
    assert UnansweredRows(j.bench.recorder.pending[..1]) == [Finish(started, Unanswered)];
    assert [] + [Finish(started, Unanswered)] == [Finish(started, Unanswered)];
    PairAfterOneLine(k, x, y, Finish(started, Unanswered));
  }

  /** A call that names no tool, logged by a close that then fails, gets a second row, and one that asks for a tool
      called `None` gets none. */
  lemma NamelessCallHasTwoRows(cap: nat, a: Key, b: Key)
    requires cap >= 2 && a != b
    ensures var k := Next(Run(Start(cap), TwoAsks(a, None, b, Some("None"))), Close(1));
            && RowsOf(k, Relay.NotedCall(None, Some(0))) == 2
            && RowsOf(k, Relay.NotedCall(Some("None"), Some(1))) == 0
  {
    var j := AfterTwoAsks(cap, a, None, b, Some("None"));
    var x, y := Relay.NotedCall(None, Some(0)), Relay.NotedCall(Some("None"), Some(1));
    assert Noted(j) == [x, y];
    OneLineWritten(j, x, y);
  }

  lemma FirstAsk(cap: nat, id: Key, name: Option<string>)
    requires cap >= 1
    ensures var one := Next(Start(cap), Ask(id, name));
            && one.bench.recorder.pending == [Entry(id, Asked(0, name))] && one.bench.hand == []
            && one.bench.recorder.next == 1 && one.bench.recorder.forwarded == 1 && one.bench.recorder.cap == cap
            && one.relay == Relay.NOTHING && one.reader == Waiting
            && one.upstream == Noting(id, Relay.NotedCall(name, Some(0)))
  {
  }

  /** A second call under a noted id is not noted. */
  lemma AskAgain(j: Joint, id: Key, name: Option<string>)
    requires j.upstream.Reading? && j.bench.recorder.forwarded < j.bench.recorder.cap
    requires Get(j.bench.recorder.pending, id).Some? && Get(j.relay.calls, id).Some?
    ensures var k := Next(Next(j, Ask(id, name)), Note);
            && Get(k.bench.recorder.pending, id) == Some(Asked(j.bench.recorder.next, name))
            && k.relay == j.relay && k.upstream == Reading && k.reader == j.reader
  {
    var one := Next(j, Ask(id, name));
    PutGets(j.bench.recorder.pending, id, Asked(j.bench.recorder.next, name), id);
    assert one.bench.recorder.pending == Put(j.bench.recorder.pending, id, Asked(j.bench.recorder.next, name));
    HasIsGet(one.relay.calls, id);
  }

  /** An id is used again for the same tool before it is answered: the recorder holds the later call, the relay the
      earlier one. */
  lemma ReuseDisagrees(cap: nat, id: Key, name: Option<string>)
    requires cap >= 2
    ensures var j := Run(Start(cap), [Ask(id, name), Note, Ask(id, name), Note]);
            && Get(j.bench.recorder.pending, id) == Some(Asked(1, name))
            && Get(j.relay.calls, id) == Some(Relay.NotedCall(name, Some(0))) && !Agree(j)
  {
    var s0 := Start(cap);
    AskAndNote(s0, id, name);
    var s2 := Next(Next(s0, Ask(id, name)), Note);
    AskAgain(s2, id, name);
    var j := Next(Next(s2, Ask(id, name)), Note);
    RunOfFour(s0, Ask(id, name), Note, Ask(id, name), Note);
    assert !AgreeAt(j, id);
  }

  lemma AnsweredBeforeNote(j: Joint, id: Key, call: Relay.NotedCall)
    requires j.reader == Holding(id) && |j.bench.hand| == 1 && j.bench.recorder.pending == []
    requires j.upstream == Noting(id, call) && j.relay == Relay.NOTHING
    ensures var k := Next(Next(Next(j, Write), Drop), Note);
            && k.bench.recorder.pending == [] && k.relay.calls == [Entry(id, call)] && k.upstream == Reading
            && k.reader == Waiting && k.extra == j.extra
  {
  }

  /** An answer to a call between the recorder's section and the note: the recorder has done with the call, and the
      relay notes it afterwards. */
  lemma AnswerBeforeNoteDisagrees(cap: nat, id: Key, name: Option<string>)
    requires cap >= 1
    ensures var j := Run(Start(cap), [Ask(id, name), Pop(id, false, None), Write, Drop] + [Note]);
            && j.bench.recorder.pending == [] && Get(j.relay.calls, id) == Some(Relay.NotedCall(name, Some(0)))
            && !Agree(j)
  {
    var s0 := Start(cap);
    FirstAsk(cap, id, name);
    var s1 := Next(s0, Ask(id, name));
    assert [Entry(id, Asked(0, name))] + [] == s1.bench.recorder.pending;
    PopFirst(s1, id, Asked(0, name), []);
    var s2 := Next(s1, Pop(id, false, None));
    AnsweredBeforeNote(s2, id, Relay.NotedCall(name, Some(0)));
    var s4 := Next(Next(s2, Write), Drop);
    RunOfFour(s0, Ask(id, name), Pop(id, false, None), Write, Drop);
    OneMoreStep(s0, [Ask(id, name), Pop(id, false, None), Write, Drop], Note);
    assert !AgreeAt(Next(s4, Note), id);
  }
}
