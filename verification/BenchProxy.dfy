/** The bench recorder: rows, cap and pending calls, one step per section that holds the lock. */
module BenchProxy {
  import opened Dicts
  import opened Wrappers

  // ----- Messages -----

  /** `pending_key` of a request id: the id's JSON text. */
  type Key = string

  datatype Params = Params(tool: string, arguments: string)

  /** A `tools/call`: params is None when they are positional, id is None when there is none. */
  datatype Call = Call(params: Option<Params>, id: Option<Key>)

  datatype Item =
    | ToolsCall(call: Call)
    | OtherObject(id: Option<Key>)
    | NotAnObject

  datatype Message =
    | Batch(items: seq<Item>)
    | Single(item: Item)

  function ToolOf(call: Call): string {
    if call.params.None? then "None" else call.params.value.tool
  }

  function ArgumentsOf(call: Call): Option<string> {
    if call.params.None? then None else Some(call.params.value.arguments)
  }

  // ----- Rows -----

  datatype Refusal = CapReached | NoId | InBatch | PositionalParams

  /** `responseId` is the id the answering response carried; the log does not hold it. */
  datatype Outcome =
    | Refused(reason: Refusal)
    | Duplicate
    | Unanswered
    | Answered(responseId: Key, isError: bool, text: Option<string>)

  datatype Row = Row(number: nat, tool: string, arguments: Option<string>, outcome: Outcome)

  /** A forwarded call whose row is not written yet. */
  datatype Started = Started(number: nat, tool: string, arguments: Option<string>)

  function Finish(started: Started, outcome: Outcome): Row {
    Row(started.number, started.tool, started.arguments, outcome)
  }

  // ----- The recorder's state -----

  /** The last four fields are history the source does not keep: every call that got a number, the numbers
      of the calls that were forwarded, and the numbers whose row a failed write lost. */
  datatype State = State(
    cap: nat, next: nat, forwarded: nat, pending: Dict<Started>, rows: seq<Row>,
    arrivals: seq<Call>, accepted: seq<nat>, lost: seq<nat>, lostRefusals: seq<nat>)

  function Initial(cap: nat): State {
    State(cap, 0, 0, [], [], [], [], [], [])
  }

  datatype Body = RefusalResult(reason: Refusal) | InvalidRequest
  datatype Reply = Reply(id: Key, body: Body)

  /** What `request` gives the relay: forward the line, send these replies instead, or an exception. */
  datatype Verdict = Forward | Send(replies: seq<Reply>) | Raised

  // ----- Sections; `room` is how many log writes succeed before the next one raises -----

  /** `_refuse`: a numbered row, written at once. */
  function RefuseCall(s: State, call: Call, reason: Refusal, room: nat): State {
    var numbered := s.(next := s.next + 1, arrivals := s.arrivals + [call]);
    if room > 0 then
      numbered.(rows := s.rows + [Row(s.next, ToolOf(call), ArgumentsOf(call), Refused(reason))])
    else
      numbered.(lostRefusals := s.lostRefusals + [s.next])
  }

  function RefuseSingle(s: State, call: Call, reason: Refusal, room: nat): (State, Verdict) {
    (RefuseCall(s, call, reason, room),
     if room == 0 then Raised else Send(if call.id.Some? then [Reply(call.id.value, RefusalResult(reason))] else []))
  }

  function ReplyTo(item: Item): seq<Reply> {
    match item
    case ToolsCall(call) => if call.id.Some? then [Reply(call.id.value, RefusalResult(InBatch))] else []
    case OtherObject(id) => if id.Some? then [Reply(id.value, InvalidRequest)] else []
    case NotAnObject => []
  }

  /** `_refuse_batch` from `items` on; the first write that fails ends it. */
  function RefuseItems(s: State, items: seq<Item>, room: nat): (State, Verdict)
    decreases |items|
  {
    if items == [] then (s, Send([]))
    else if items[0].ToolsCall? && room == 0 then (RefuseCall(s, items[0].call, InBatch, 0), Raised)
    else
      var after := if items[0].ToolsCall? then RefuseCall(s, items[0].call, InBatch, room) else s;
      var left := if items[0].ToolsCall? then room - 1 else room;
      var (end, verdict) := RefuseItems(after, items[1..], left);
      (end, if verdict.Send? then Send(ReplyTo(items[0]) + verdict.replies) else verdict)
  }

  /** The cap passed: count the call, log the one it displaces, make it pending. */
  function Accept(s: State, call: Call, room: nat): (State, Verdict)
    requires call.id.Some?
  {
    var key := call.id.value;
    var counted := s.(forwarded := s.forwarded + 1);
    var previous := Get(s.pending, key);
    if previous.Some? && room == 0 then (counted, Raised)
    else
      var rows := if previous.Some? then s.rows + [Finish(previous.value, Duplicate)] else s.rows;
      var started := Started(s.next, ToolOf(call), ArgumentsOf(call));
      (counted.(rows := rows, pending := Put(s.pending, key, started), next := s.next + 1,
                arrivals := s.arrivals + [call], accepted := s.accepted + [s.next]),
       Forward)
  }

  predicate AnyToolsCall(items: seq<Item>) {
    exists i :: 0 <= i < |items| && items[i].ToolsCall?
  }

  function RequestSection(s: State, message: Message, room: nat): (State, Verdict) {
    match message
    case Batch(items) => if AnyToolsCall(items) then RefuseItems(s, items, room) else (s, Forward)
    case Single(item) =>
      if !item.ToolsCall? then (s, Forward)
      else
        var call := item.call;
        if call.params.None? then RefuseSingle(s, call, PositionalParams, room)
        else if call.id.None? then RefuseSingle(s, call, NoId, room)
        else if s.forwarded >= s.cap then RefuseSingle(s, call, CapReached, room)
        else Accept(s, call, room)
  }

  /** `response` takes the call out of `pending`; its row is in hand until the write section. */
  function PopSection(s: State, key: Key): (State, Option<Started>) {
    (s.(pending := Remove(s.pending, key)), Get(s.pending, key))
  }

  function WriteSection(s: State, started: Started, outcome: Outcome): State {
    s.(rows := s.rows + [Finish(started, outcome)])
  }

  /** After a failed write: `setdefault` restores the call unless its id is pending again. */
  function PutBackSection(s: State, key: Key, started: Started): State {
    if Get(s.pending, key).Some? then s.(lost := s.lost + [started.number])
    else s.(pending := s.pending + [Entry(key, started)])
  }

  function UnansweredRows(entries: Dict<Started>): seq<Row> {
    seq(|entries|, i requires 0 <= i < |entries| => Finish(entries[i].value, Unanswered))
  }

  /** `close`: nothing stays pending; a failed write loses that call and the ones after it. */
  function CloseSection(s: State, room: nat): State {
    var written := if room <= |s.pending| then room else |s.pending|;
    s.(pending := [], rows := s.rows + UnansweredRows(s.pending[..written]),
       lost := s.lost + EntryNumbers(s.pending[written..]))
  }

  function EntryNumbers(entries: Dict<Started>): seq<nat> {
    seq(|entries|, i requires 0 <= i < |entries| => entries[i].value.number)
  }

  // ----- The class -----

  class BenchRecorder {
    const cap: nat
    var next: nat
    var forwarded: nat
    var pending: Dict<Started>
    var log: seq<Row>
    ghost var arrivals: seq<Call>
    ghost var accepted: seq<nat>
    ghost var lost: seq<nat>
    ghost var lostRefusals: seq<nat>

    ghost function Now(): State
      reads this
    {
      State(cap, next, forwarded, pending, log, arrivals, accepted, lost, lostRefusals)
    }

    constructor (cap: nat)
      ensures Now() == Initial(cap)
    {
      this.cap := cap;
      next, forwarded, pending, log := 0, 0, [], [];
      arrivals, accepted, lost, lostRefusals := [], [], [], [];
    }

    /** `_row`: the next number in arrival order. */
    method NumberCall(call: Call) returns (started: Started)
      modifies this
      ensures started == Started(old(next), ToolOf(call), ArgumentsOf(call))
      ensures Now() == old(Now()).(next := old(next) + 1, arrivals := old(arrivals) + [call])
    {
      started := Started(next, ToolOf(call), ArgumentsOf(call));
      next := next + 1;
      arrivals := arrivals + [call];
    }

    method Refuse(call: Call, reason: Refusal, room: nat) returns (written: bool)
      modifies this
      ensures Now() == RefuseCall(old(Now()), call, reason, room)
      ensures written == (room > 0)
    {
      var started := NumberCall(call);
      written := room > 0;
      if written {
        log := log + [Finish(started, Refused(reason))];
      } else {
        lostRefusals := lostRefusals + [started.number];
      }
    }

    method RefuseBatch(items: seq<Item>, room: nat) returns (verdict: Verdict)
      modifies this
      ensures (Now(), verdict) == RefuseItems(old(Now()), items, room)
    {
      var replies, left := [], room;
      var i := 0;
      assert items[0..] == items;
      assert forall rest: seq<Reply> :: [] + rest == rest;
      while i < |items|
        invariant i <= |items|
        invariant var (end, rest) := RefuseItems(Now(), items[i..], left);
                  RefuseItems(old(Now()), items, room)
                  == (end, if rest.Send? then Send(replies + rest.replies) else rest)
      {
        var item := items[i];
        assert items[i..][1..] == items[i + 1..];
        if item.ToolsCall? {
          var written := Refuse(item.call, InBatch, left);
          if !written {
            return Raised;
          }
          left := left - 1;
        }
        ghost var (end, rest) := RefuseItems(Now(), items[i + 1..], left);
        assert rest.Send? ==> replies + (ReplyTo(item) + rest.replies) == replies + ReplyTo(item) + rest.replies;
        replies := replies + ReplyTo(item);
        i := i + 1;
      }
      assert items[i..] == [];
      assert replies + [] == replies;
      verdict := Send(replies);
    }

    method RefuseOne(call: Call, reason: Refusal, room: nat) returns (verdict: Verdict)
      modifies this
      ensures (Now(), verdict) == RefuseSingle(old(Now()), call, reason, room)
    {
      var written := Refuse(call, reason, room);
      verdict := if !written then Raised
                 else Send(if call.id.Some? then [Reply(call.id.value, RefusalResult(reason))] else []);
    }

    method Request(message: Message, room: nat) returns (verdict: Verdict)
      modifies this
      ensures (Now(), verdict) == RequestSection(old(Now()), message, room)
    {
      match message {
        case Batch(items) =>
          if AnyToolsCall(items) {
            verdict := RefuseBatch(items, room);
          } else {
            verdict := Forward;
          }
        case Single(item) =>
          if !item.ToolsCall? {
            return Forward;
          }
          var call := item.call;
          if call.params.None? {
            verdict := RefuseOne(call, PositionalParams, room);
          } else if call.id.None? {
            verdict := RefuseOne(call, NoId, room);
          } else if forwarded >= cap {
            verdict := RefuseOne(call, CapReached, room);
          } else {
            forwarded := forwarded + 1;
            var previous := Get(pending, call.id.value);
            if previous.Some? {
              if room == 0 {
                return Raised;
              }
              log := log + [Finish(previous.value, Duplicate)];
            }
            var started := NumberCall(call);
            pending := Put(pending, call.id.value, started);
            accepted := accepted + [started.number];
            verdict := Forward;
          }
      }
    }

    /** The middle section of `response`. */
    method Pop(key: Key) returns (started: Option<Started>)
      modifies this
      ensures (Now(), started) == PopSection(old(Now()), key)
    {
      started := Get(pending, key);
      pending := Remove(pending, key);
    }

    method WriteAnswer(started: Started, outcome: Outcome)
      modifies this
      ensures Now() == WriteSection(old(Now()), started, outcome)
    {
      log := log + [Finish(started, outcome)];
    }

    method PutBack(key: Key, started: Started)
      modifies this
      ensures Now() == PutBackSection(old(Now()), key, started)
    {
      var present := Get(pending, key);
      if present.None? {
        pending := pending + [Entry(key, started)];
      } else {
        lost := lost + [started.number];
      }
    }

    method Close(room: nat) returns (raised: bool)
      modifies this
      ensures Now() == CloseSection(old(Now()), room)
      ensures raised == (room < |old(pending)|)
    {
      var unanswered := pending;
      pending := [];
      var i := 0;
      while i < |unanswered| && i < room
        invariant i <= |unanswered| && i <= room
        invariant Now() == old(Now()).(pending := [], rows := old(log) + UnansweredRows(unanswered[..i]))
      {
        assert unanswered[..i + 1] == unanswered[..i] + [unanswered[i]];
        log := log + [Finish(unanswered[i].value, Unanswered)];
        i := i + 1;
      }
      raised := i < |unanswered|;
      lost := lost + EntryNumbers(unanswered[i..]);
    }
  }
}
