/** When the relay's record and the recorder hold the same calls, and what a failed close then leaves behind. */
module RelayAgree {
  import opened BenchProxy
  import opened Dicts
  import opened Wrappers
  import opened RelayRuns
  import BenchRuns
  import Relay

  // ----- Agreement -----

  /** The same call, or none on either side. */
  predicate SameCall(started: Option<Started>, noted: Option<Relay.NotedCall>) {
    match noted
    case None => started.None?
    case Some(call) =>
      && started.Some? && call.number == Some(started.value.number)
      && started.value.tool == Relay.RecorderTool(call.tool)
  }

  /** The server's thread has popped this id and not dropped it yet. */
  predicate Busy(reader: Reader, key: Key) {
    (reader.Holding? || reader.Dropping?) && reader.key == key
  }

  predicate Awaiting(upstream: Upstream, key: Key) {
    upstream.Noting? && upstream.key == key
  }

  /** Under an id the two hold the same call. While a thread is at work on the id: the recorder alone holds the call
      about to be noted, which nothing keeps from being noted; the relay alone holds the call in hand, and possibly the
      one about to be dropped and the one on which the recorder raised. */
  predicate AgreeAt(j: Joint, key: Key) {
    var started, noted := Get(j.bench.recorder.pending, key), Get(j.relay.calls, key);
    if Awaiting(j.upstream, key) then
      && !j.relay.aborted && SameCall(started, Some(j.upstream.call))
      && if Busy(j.reader, key) then j.reader.Holding? ==> noted.Some? else noted.None?
    else if Busy(j.reader, key) then
      started.None? && (j.reader.Holding? ==> j.bench.hand != [] && SameCall(Some(j.bench.hand[0].started), noted))
    else if j.extra == Some(key) then started.None?
    else SameCall(started, noted)
  }

  ghost predicate Agree(j: Joint) {
    forall key :: AgreeAt(j, key)
  }

  /** What keeps the two in agreement, read off the state before the step. A call is accepted under an id that is not
      noted, or is about to be dropped, and before the relay aborts. Until it is noted no answer to it is popped, an
      answer to an earlier call of its id is dropped and not put back, and the server's thread does not abort. */
  predicate Keeps(j: Joint, step: Step) {
    match step
    case Section(message, _, room) =>
      RequestSection(j.bench.recorder, message, room).1.Forward? && NotedId(message).Some? ==>
        var key := NotedId(message).value;
        !j.relay.aborted && (Busy(j.reader, key) || Get(j.relay.calls, key).None?)
    case Note => j.upstream.Noting? ==> !Busy(j.reader, j.upstream.key)
    case Pop(key, _, _) => !Awaiting(j.upstream, key)
    case PutBack => j.reader.Holding? ==> !Awaiting(j.upstream, j.reader.key)
    case Quit => !j.upstream.Noting?
    case _ => true
  }

  /** The answer in hand is the one the server's thread is at. */
  predicate HandIs(j: Joint) {
    && |j.bench.hand| == (if j.reader.Holding? then 1 else 0)
    && (j.reader.Holding? ==> j.bench.hand[0].key == j.reader.key)
  }

  ghost predicate Shape(j: Joint) {
    BenchRuns.Inv(j.bench) && Apart(j) && HandIs(j)
  }

  lemma StepKeepsHand(j: Joint, step: Step)
    requires HandIs(j)
    ensures HandIs(Next(j, step))
  {
  }

  lemma StepKeepsShape(j: Joint, step: Step)
    requires Shape(j)
    ensures Shape(Next(j, step))
  {
    StepStaysApart(j, step);
    StepKeepsHand(j, step);
    if Can(j, step) && BenchStep(step).Some? {
      BenchRuns.StepKeepsInv(j.bench, BenchStep(step).value);
    }
  }

  lemma {:induction false} EveryRunHasShape(cap: nat, steps: seq<Step>)
    ensures Shape(Run(Start(cap), steps))
    decreases |steps|
  {
    if steps == [] {
      BenchRuns.EveryRunIsSafe(cap, []);
    } else {
      EveryRunHasShape(cap, steps[..|steps| - 1]);
      StepKeepsShape(Run(Start(cap), steps[..|steps| - 1]), steps[|steps| - 1]);
    }
  }

  // ----- What each step does to one id -----

  /** The pending calls after a request: the same but for an accepted call. */
  lemma RequestGets(s: State, message: Message, room: nat, key: Key)
    ensures var (after, verdict) := RequestSection(s, message, room);
            Get(after.pending, key)
            == if verdict.Forward? && NotedId(message) == Some(key)
               then Some(Started(s.next, ToolOf(message.item.call), ArgumentsOf(message.item.call)))
               else Get(s.pending, key)
  {
    if message.Batch? {
      BatchOnlyCounts(s, message.items, room);
    } else if message.item.ToolsCall? && RequestSection(s, message, room).1.Forward? {
      var call := message.item.call;
      PutGets(s.pending, call.id.value, Started(s.next, ToolOf(call), ArgumentsOf(call)), key);
    }
  }

  lemma SectionKeepsIff(j: Joint, step: Step)
    requires Shape(j) && Agree(j) && step.Section? && Can(j, step)
    ensures Agree(Next(j, step)) <==> Keeps(j, step)
  {
    var verdict := RequestSection(j.bench.recorder, step.message, step.room).1;
    var id := if verdict.Forward? then NotedId(step.message) else None;
    forall key
      ensures id != Some(key) ==> AgreeAt(Next(j, step), key)
      ensures id == Some(key) ==> (AgreeAt(Next(j, step), key) <==> Keeps(j, step))
    {
      assert AgreeAt(j, key);
      RequestGets(j.bench.recorder, step.message, step.room, key);
    }
    if id.Some? {
      assert AgreeAt(Next(j, step), id.value) <==> Keeps(j, step);
    }
  }

  lemma NoteKeepsIff(j: Joint)
    requires Shape(j) && Agree(j) && Can(j, Note)
    ensures Agree(Next(j, Note)) <==> Keeps(j, Note)
  {
    var id, call := j.upstream.key, j.upstream.call;
    HasIsGet(j.relay.calls, id);
    forall key
      ensures key != id ==> AgreeAt(Next(j, Note), key)
      ensures key == id ==> (AgreeAt(Next(j, Note), key) <==> Keeps(j, Note))
    {
      assert AgreeAt(j, key);
      if !j.relay.aborted && !Has(j.relay.calls, id) {
        AppendGets(j.relay.calls, id, call, key);
      }
    }
    assert AgreeAt(Next(j, Note), id) <==> Keeps(j, Note);
  }

  lemma PopKeepsIff(j: Joint, step: Step)
    requires Shape(j) && Agree(j) && step.Pop? && Can(j, step)
    ensures Agree(Next(j, step)) <==> Keeps(j, step)
  {
    forall key
      ensures key != step.key ==> AgreeAt(Next(j, step), key)
      ensures key == step.key ==> (AgreeAt(Next(j, step), key) <==> Keeps(j, step))
    {
      assert AgreeAt(j, key);
      RemoveGets(j.bench.recorder.pending, step.key, key);
    }
    assert AgreeAt(Next(j, step), step.key) <==> Keeps(j, step);
  }

  lemma PutBackKeepsIff(j: Joint)
    requires Shape(j) && Agree(j) && Can(j, PutBack)
    ensures Agree(Next(j, PutBack)) <==> Keeps(j, PutBack)
  {
    var id, pending := j.reader.key, j.bench.recorder.pending;
    HasIsGet(pending, id);
    GetFinds(j.relay.calls, id);
    forall key
      ensures key != id ==> AgreeAt(Next(j, PutBack), key)
      ensures key == id ==> (AgreeAt(Next(j, PutBack), key) <==> Keeps(j, PutBack))
    {
      assert AgreeAt(j, key);
      if Get(pending, id).None? {
        AppendGets(pending, id, j.bench.hand[0].started, key);
      }
    }
    assert AgreeAt(Next(j, PutBack), id) <==> Keeps(j, PutBack);
  }

  lemma DropKeeps(j: Joint)
    requires Shape(j) && Agree(j) && Can(j, Drop)
    ensures Agree(Next(j, Drop))
  {
    forall key
      ensures AgreeAt(Next(j, Drop), key)
    {
      assert AgreeAt(j, key);
      RemoveGets(j.relay.calls, j.reader.key, key);
    }
  }

  lemma QuitKeepsIff(j: Joint, step: Step)
    requires Shape(j) && Agree(j) && (step.Quit? || step.Stop? || step.Write?) && Can(j, step)
    ensures Agree(Next(j, step)) <==> Keeps(j, step)
  {
    forall key
      ensures AgreeAt(Next(j, step), key) <==> Keeps(j, step) || !Awaiting(j.upstream, key)
    {
      assert AgreeAt(j, key);
    }
    if j.upstream.Noting? {
      assert AgreeAt(Next(j, step), j.upstream.key) <==> Keeps(j, step);
    }
  }

  lemma StepKeepsIff(j: Joint, step: Step)
    requires Shape(j) && Agree(j) && !step.Close? && Can(j, step)
    ensures Agree(Next(j, step)) <==> Keeps(j, step)
  {
    match step
    case Section(_, _, _) => SectionKeepsIff(j, step);
    case Note => NoteKeepsIff(j);
    case Pop(_, _, _) => PopKeepsIff(j, step);
    case PutBack => PutBackKeepsIff(j);
    case Drop => DropKeeps(j);
    case _ => QuitKeepsIff(j, step);
  }

  // ----- Whole runs -----

  predicate KeepsAt(cap: nat, steps: seq<Step>, i: nat)
    requires i < |steps|
  {
    var j := Run(Start(cap), steps[..i]);
    Can(j, steps[i]) ==> Keeps(j, steps[i])
  }

  ghost predicate AgreeAfter(cap: nat, steps: seq<Step>, i: nat)
    requires i <= |steps|
  {
    Agree(Run(Start(cap), steps[..i]))
  }

  /** The recorder is not closed yet. */
  predicate Open(steps: seq<Step>) {
    forall i :: 0 <= i < |steps| ==> !steps[i].Close?
  }

  lemma OneStepKeepsIff(cap: nat, steps: seq<Step>, i: nat)
    requires Open(steps) && i < |steps| && AgreeAfter(cap, steps, i)
    ensures AgreeAfter(cap, steps, i + 1) <==> KeepsAt(cap, steps, i)
  {
    assert steps[..i + 1][..i] == steps[..i] && steps[..i + 1][i] == steps[i];
    EveryRunHasShape(cap, steps[..i]);
    if Can(Run(Start(cap), steps[..i]), steps[i]) {
      StepKeepsIff(Run(Start(cap), steps[..i]), steps[i]);
    }
  }

  lemma StartAgrees(cap: nat, steps: seq<Step>)
    ensures AgreeAfter(cap, steps, 0)
  {
    assert steps[..0] == [];
  }

  lemma {:induction false} KeptSoFar(cap: nat, steps: seq<Step>, n: nat)
    requires Open(steps) && n <= |steps| && forall i :: 0 <= i < n ==> KeepsAt(cap, steps, i)
    ensures AgreeAfter(cap, steps, n)
  {
    if n == 0 {
      StartAgrees(cap, steps);
    } else {
      KeptSoFar(cap, steps, n - 1);
      OneStepKeepsIff(cap, steps, n - 1);
    }
  }

  /** Over every interleaving of the two threads' sections until the recorder is closed, the relay and the recorder hold
      the same calls all along if and only if every step keeps to its condition on the state before it. */
  lemma AgreeThroughoutIff(cap: nat, steps: seq<Step>)
    requires Open(steps)
    ensures (forall i :: 0 <= i <= |steps| ==> AgreeAfter(cap, steps, i))
            <==> forall i :: 0 <= i < |steps| ==> KeepsAt(cap, steps, i)
  {
    if forall i :: 0 <= i < |steps| ==> KeepsAt(cap, steps, i) {
      forall i | 0 <= i <= |steps|
        ensures AgreeAfter(cap, steps, i)
      {
        KeptSoFar(cap, steps, i);
      }
    }
    if forall i :: 0 <= i <= |steps| ==> AgreeAfter(cap, steps, i) {
      forall i | 0 <= i < |steps|
        ensures KeepsAt(cap, steps, i)
      {
        assert AgreeAfter(cap, steps, i) && AgreeAfter(cap, steps, i + 1);
        OneStepKeepsIff(cap, steps, i);
      }
    }
  }
}
