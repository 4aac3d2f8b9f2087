/** The stream-against-proxy cross-check: Counter arithmetic that decides whether the two logs can be paired. */
module Gate {
  import opened Counting
  import opened Lines
  import opened Sorting
  import opened Wrappers

  const STREAM_PREFIX := "mcp__jev__"

  /** A tool use of the agent's stream. */
  datatype Use = Use(id: string, name: string)

  /** A row of the proxy log. */
  datatype Call = Call(tool: string, isError: bool, unanswered: bool)

  /** A use's tool and error flag; None when the stream has no result for it. */
  datatype Flag = Flag(name: string, isError: Option<bool>)

  function JevUses(uses: seq<Use>): seq<Use> {
    if uses == [] then []
    else (if StartsWith(uses[0].name, STREAM_PREFIX) then [uses[0]] else []) + JevUses(uses[1..])
  }

  function ToolName(use: Use): string {
    if StartsWith(use.name, STREAM_PREFIX) then use.name[|STREAM_PREFIX|..] else use.name
  }

  function FlagOf(use: Use, results: map<string, bool>): Flag {
    Flag(ToolName(use), if use.id in results then Some(results[use.id]) else None)
  }

  // ----- The counters, each at one key -----

  function StreamNames(uses: seq<Use>, name: string): nat {
    CountIf(uses, (u: Use) => ToolName(u) == name)
  }

  function ProxyNames(calls: seq<Call>, name: string): nat {
    CountIf(calls, (c: Call) => c.tool == name)
  }

  function StreamFlags(uses: seq<Use>, results: map<string, bool>, flag: Flag): nat {
    CountIf(uses, (u: Use) => FlagOf(u, results) == flag)
  }

  function Answered(calls: seq<Call>, flag: Flag): nat {
    CountIf(calls, (c: Call) => !c.unanswered && Flag(c.tool, Some(c.isError)) == flag)
  }

  function Unanswered(calls: seq<Call>, name: string): nat {
    CountIf(calls, (c: Call) => c.unanswered && c.tool == name)
  }

  /** `(stream_flags - answered)[flag]`. */
  function Rest(calls: seq<Call>, uses: seq<Use>, results: map<string, bool>, flag: Flag): nat {
    Minus(StreamFlags(uses, results, flag), Answered(calls, flag))
  }

  function RestOfName(calls: seq<Call>, uses: seq<Use>, results: map<string, bool>, name: string): nat {
    Rest(calls, uses, results, Flag(name, None)) + Rest(calls, uses, results, Flag(name, Some(true)))
    + Rest(calls, uses, results, Flag(name, Some(false)))
  }

  /** `(answered - stream_flags)[flag]`. */
  function Missing(calls: seq<Call>, uses: seq<Use>, results: map<string, bool>, flag: Flag): nat {
    Minus(Answered(calls, flag), StreamFlags(uses, results, flag))
  }

  /** At one name: no answered call is missing from the stream, no use reported as a success is left over, and as
      many uses are left over as there are unanswered calls. */
  predicate AgreeAt(calls: seq<Call>, uses: seq<Use>, results: map<string, bool>, name: string) {
    && Missing(calls, uses, results, Flag(name, None)) == 0
    && Missing(calls, uses, results, Flag(name, Some(true))) == 0
    && Missing(calls, uses, results, Flag(name, Some(false))) == 0
    && Rest(calls, uses, results, Flag(name, Some(false))) == 0
    && RestOfName(calls, uses, results, name) == Unanswered(calls, name)
  }

  ghost predicate FlagsAgree(calls: seq<Call>, uses: seq<Use>, results: map<string, bool>) {
    forall name :: AgreeAt(calls, uses, results, name)
  }

  /** `cross_check` raises nothing. Two lists sort alike exactly when they hold every name equally often. */
  ghost predicate CrossCheck(calls: seq<Call>, toolUses: seq<Use>, results: map<string, bool>) {
    var uses := JevUses(toolUses);
    (forall name :: StreamNames(uses, name) == ProxyNames(calls, name)) && FlagsAgree(calls, uses, results)
  }

  // ----- Pairing -----

  /** One use can be the stream's account of one call. */
  predicate Matches(call: Call, flag: Flag) {
    && flag.name == call.tool
    && if call.unanswered then flag.isError != Some(false) else flag.isError == Some(call.isError)
  }

  /** The uses in some order line up with the calls, each matching its call. */
  ghost predicate Pairs(calls: seq<Call>, arranged: seq<Use>, results: map<string, bool>) {
    |arranged| == |calls| && forall i :: 0 <= i < |calls| ==> Matches(calls[i], FlagOf(arranged[i], results))
  }

  /** What one more matching pair adds to the counters. */
  lemma OneMore(calls: seq<Call>, uses: seq<Use>, results: map<string, bool>, call: Call, use: Use, flag: Flag)
    requires Matches(call, FlagOf(use, results))
    ensures StreamFlags(uses + [use], results, flag)
            == StreamFlags(uses, results, flag) + (if FlagOf(use, results) == flag then 1 else 0)
    ensures Answered(calls + [call], flag)
            == Answered(calls, flag) + (if !call.unanswered && FlagOf(use, results) == flag then 1 else 0)
  {
    CountIfAppend(uses, use, (u: Use) => FlagOf(u, results) == flag);
    CountIfAppend(calls, call, (c: Call) => !c.unanswered && Flag(c.tool, Some(c.isError)) == flag);
  }

  /** The same for a whole name: agreement is kept, and can be taken back while the use is left over. */
  lemma AgreesWithOneMore(calls: seq<Call>, uses: seq<Use>, results: map<string, bool>, call: Call, use: Use,
                          name: string)
    requires Matches(call, FlagOf(use, results))
    ensures AgreeAt(calls, uses, results, name) ==> AgreeAt(calls + [call], uses + [use], results, name)
    ensures AgreeAt(calls + [call], uses + [use], results, name)
            && (call.unanswered ==>
                  Answered(calls, FlagOf(use, results)) <= StreamFlags(uses, results, FlagOf(use, results)))
            ==> AgreeAt(calls, uses, results, name)
  {
    CountIfAppend(calls, call, (c: Call) => c.unanswered && c.tool == name);
    OneMore(calls, uses, results, call, use, Flag(name, None));
    OneMore(calls, uses, results, call, use, Flag(name, Some(true)));
    OneMore(calls, uses, results, call, use, Flag(name, Some(false)));
    assert Answered(calls, Flag(name, None)) == 0 by {
      NoneIsAnswered(calls, name);
    }
    var isError := FlagOf(use, results).isError;
    assert isError == None || isError == Some(true) || isError == Some(false) by {
      if isError.Some? {
        assert isError.value || !isError.value;
      }
    }
  }

  lemma {:induction false} NoneIsAnswered(calls: seq<Call>, name: string)
    ensures Answered(calls, Flag(name, None)) == 0
  {
    if calls != [] {
      NoneIsAnswered(calls[..|calls| - 1], name);
    }
  }

  /** What can be paired agrees at every name. */
  lemma {:induction false} PairedAgrees(calls: seq<Call>, arranged: seq<Use>, results: map<string, bool>, name: string)
    requires Pairs(calls, arranged, results)
    ensures AgreeAt(calls, arranged, results, name)
    ensures StreamNames(arranged, name) == ProxyNames(calls, name)
  {
    if calls != [] {
      var n := |calls| - 1;
      PairedAgrees(calls[..n], arranged[..n], results, name);
      AgreesWithOneMore(calls[..n], arranged[..n], results, calls[n], arranged[n], name);
      assert Matches(calls[n], FlagOf(arranged[n], results));
      assert calls[..n] + [calls[n]] == calls && arranged[..n] + [arranged[n]] == arranged;
    }
  }

  /** While the logs agree, the last call finds a use that matches it and is left over if the call is unanswered. */
  lemma LastMatches(calls: seq<Call>, uses: seq<Use>, results: map<string, bool>) returns (k: nat)
    requires calls != [] && AgreeAt(calls, uses, results, calls[|calls| - 1].tool)
    ensures var call := calls[|calls| - 1];
            k < |uses| && Matches(call, FlagOf(uses[k], results))
            && (call.unanswered ==> Rest(calls, uses, results, FlagOf(uses[k], results)) > 0)
  {
    var call := calls[|calls| - 1];
    var flag := if !call.unanswered then Flag(call.tool, Some(call.isError))
                else if Rest(calls, uses, results, Flag(call.tool, None)) > 0 then Flag(call.tool, None)
                else Flag(call.tool, Some(true));
    if call.unanswered {
      assert Unanswered(calls, call.tool) > 0;
    } else {
      assert Answered(calls, flag) > 0;
      assert Missing(calls, uses, results, flag) == 0 by {
        assert call.isError || !call.isError;
      }
    }
    k := CountIfFinds(uses, (u: Use) => FlagOf(u, results) == flag);
  }

  /** Agreement depends on how often each flag occurs, not on the order of the uses. */
  lemma AgreesPermuted(calls: seq<Call>, a: seq<Use>, b: seq<Use>, results: map<string, bool>, name: string)
    requires multiset(a) == multiset(b)
    ensures AgreeAt(calls, a, results, name) <==> AgreeAt(calls, b, results, name)
    ensures StreamNames(a, name) == StreamNames(b, name)
  {
    CountIfPermuted(a, b, (u: Use) => FlagOf(u, results) == Flag(name, None));
    CountIfPermuted(a, b, (u: Use) => FlagOf(u, results) == Flag(name, Some(true)));
    CountIfPermuted(a, b, (u: Use) => FlagOf(u, results) == Flag(name, Some(false)));
    CountIfPermuted(a, b, (u: Use) => ToolName(u) == name);
  }

  lemma AgreesWithout(
    front: seq<Call>, others: seq<Use>, call: Call, use: Use, uses: seq<Use>, results: map<string, bool>, name: string
  )
    requires AgreeAt(front + [call], uses, results, name) && multiset(others + [use]) == multiset(uses)
    requires Matches(call, FlagOf(use, results))
    requires call.unanswered ==> Rest(front + [call], uses, results, FlagOf(use, results)) > 0
    ensures AgreeAt(front, others, results, name)
  {
    AgreesPermuted(front + [call], others + [use], uses, results, name);
    RestIsPermuted(front + [call], others + [use], uses, results, FlagOf(use, results));
    OneMore(front, others, results, call, use, FlagOf(use, results));
    AgreesWithOneMore(front, others, results, call, use, name);
  }

  /** What agrees can be paired. */
  lemma {:induction false} AgreementPairs(calls: seq<Call>, uses: seq<Use>, results: map<string, bool>)
    returns (arranged: seq<Use>)
    requires FlagsAgree(calls, uses, results)
    ensures multiset(arranged) == multiset(uses) && Pairs(calls, arranged, results)
    decreases |calls|
  {
    if calls == [] {
      NothingLeft(uses, results);
      arranged := [];
    } else {
      var n := |calls| - 1;
      var front, call := calls[..n], calls[n];
      assert front + [call] == calls;
      assert AgreeAt(calls, uses, results, call.tool);
      var k := LastMatches(calls, uses, results);
      var others, use := uses[..k] + uses[k + 1..], uses[k];
      TakesOne(uses, k);
      forall name
        ensures AgreeAt(front, others, results, name)
      {
        assert AgreeAt(calls, uses, results, name);
        assert multiset(others + [use]) == multiset(uses);
        AgreesWithout(front, others, call, use, uses, results, name);
      }
      var before := AgreementPairs(front, others, results);
      arranged := before + [use];
    }
  }

  lemma RestIsPermuted(calls: seq<Call>, a: seq<Use>, b: seq<Use>, results: map<string, bool>, flag: Flag)
    requires multiset(a) == multiset(b)
    ensures Rest(calls, a, results, flag) == Rest(calls, b, results, flag)
  {
    CountIfPermuted(a, b, (u: Use) => FlagOf(u, results) == flag);
  }

  lemma LastFlagOccurs(uses: seq<Use>, results: map<string, bool>)
    requires uses != []
    ensures StreamFlags(uses, results, FlagOf(uses[|uses| - 1], results)) > 0
  {
  }

  lemma NothingLeft(uses: seq<Use>, results: map<string, bool>)
    requires FlagsAgree([], uses, results)
    ensures uses == []
  {
    if uses != [] {
      var n := |uses| - 1;
      var flag := FlagOf(uses[n], results);
      assert AgreeAt([], uses, results, flag.name);
      assert flag.isError.Some? ==> flag.isError.value || !flag.isError.value;
      LastFlagOccurs(uses, results);
    }
  }

  /** The check passes exactly when the stream's uses, in some order, are the proxy's calls one for one: same tool,
      same error flag for an answered call, an error or no result for an unanswered one. */
  lemma CrossCheckIffPairable(calls: seq<Call>, toolUses: seq<Use>, results: map<string, bool>)
    ensures CrossCheck(calls, toolUses, results) <==>
              exists arranged :: multiset(arranged) == multiset(JevUses(toolUses)) && Pairs(calls, arranged, results)
  {
    var uses := JevUses(toolUses);
    if CrossCheck(calls, toolUses, results) {
      var arranged := AgreementPairs(calls, uses, results);
    }
    if arranged :| multiset(arranged) == multiset(uses) && Pairs(calls, arranged, results) {
      forall name
        ensures AgreeAt(calls, uses, results, name) && StreamNames(uses, name) == ProxyNames(calls, name)
      {
        PairedAgrees(calls, arranged, results, name);
        AgreesPermuted(calls, arranged, uses, results, name);
      }
    }
  }

  /** The order of the proxy log does not matter. */
  lemma OrderDoesNotMatter(calls: seq<Call>, reordered: seq<Call>, toolUses: seq<Use>, results: map<string, bool>)
    requires multiset(calls) == multiset(reordered) && CrossCheck(calls, toolUses, results)
    ensures CrossCheck(reordered, toolUses, results)
  {
    var uses := JevUses(toolUses);
    forall name
      ensures AgreeAt(reordered, uses, results, name) && StreamNames(uses, name) == ProxyNames(reordered, name)
    {
      assert AgreeAt(calls, uses, results, name);
      CallsPermuted(calls, reordered, name);
    }
  }

  lemma CallsPermuted(a: seq<Call>, b: seq<Call>, name: string)
    requires multiset(a) == multiset(b)
    ensures Answered(a, Flag(name, None)) == Answered(b, Flag(name, None))
    ensures Answered(a, Flag(name, Some(true))) == Answered(b, Flag(name, Some(true)))
    ensures Answered(a, Flag(name, Some(false))) == Answered(b, Flag(name, Some(false)))
    ensures Unanswered(a, name) == Unanswered(b, name) && ProxyNames(a, name) == ProxyNames(b, name)
  {
    CountIfPermuted(a, b, (c: Call) => !c.unanswered && Flag(c.tool, Some(c.isError)) == Flag(name, None));
    CountIfPermuted(a, b, (c: Call) => !c.unanswered && Flag(c.tool, Some(c.isError)) == Flag(name, Some(true)));
    CountIfPermuted(a, b, (c: Call) => !c.unanswered && Flag(c.tool, Some(c.isError)) == Flag(name, Some(false)));
    CountIfPermuted(a, b, (c: Call) => c.unanswered && c.tool == name);
    CountIfPermuted(a, b, (c: Call) => c.tool == name);
  }
}
