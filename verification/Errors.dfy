/** Exact-value redaction: the longest-first replacement loop and what it leaves of a secret. */
module Errors {
  import opened Lines
  import opened Sorting

  const REDACTED := "[redacted]"

  /** `text.replace(secret, REDACTED)`: left to right, without overlaps. */
  function Replace(text: string, secret: string): string
    requires secret != ""
    decreases |text|
  {
    if StartsWith(text, secret) then REDACTED + Replace(text[|secret|..], secret)
    else if text == "" then ""
    else [text[0]] + Replace(text[1..], secret)
  }

  predicate AllNonEmpty(secrets: seq<string>) {
    forall i :: 0 <= i < |secrets| ==> secrets[i] != ""
  }

  /** The replacement loop. */
  function Redact(text: string, secrets: seq<string>): string
    requires AllNonEmpty(secrets)
    decreases |secrets|
  {
    if secrets == [] then text else Redact(Replace(text, secrets[0]), secrets[1..])
  }

  class Redactor {
    const secrets: seq<string>

    /** `values` are the configured secrets and what was derived from them, each once. */
    constructor (values: seq<string>)
      ensures secrets == LongestFirst(values)
    {
      secrets := LongestFirst(values);
    }

    method Call(text: string) returns (r: string)
      requires AllNonEmpty(secrets)
      ensures r == Redact(text, secrets)
    {
      r := text;
      for i := 0 to |secrets|
        invariant Redact(r, secrets[i..]) == Redact(text, secrets)
      {
        assert secrets[i..][1..] == secrets[i + 1..] && secrets[i..][0] == secrets[i];
        r := Replace(r, secrets[i]);
      }
    }
  }

  function Kept(values: seq<string>): seq<string> {
    if values == [] then [] else (if values[0] == "" then [] else [values[0]]) + Kept(values[1..])
  }

  lemma {:induction false} KeptAre(values: seq<string>)
    ensures forall s :: s in Kept(values) <==> s in values && s != ""
  {
    if values != [] {
      KeptAre(values[1..]);
      assert forall s :: s in values <==> s == values[0] || s in values[1..];
    }
  }

  /** `sorted(values, key=len, reverse=True)` of the values that are not empty. */
  function LongestFirst(values: seq<string>): seq<string> {
    Sort(Kept(values), (a: string, b: string) => |a| >= |b|)
  }

  predicate Descending(secrets: seq<string>) {
    forall i, j :: 0 <= i < j < |secrets| ==> |secrets[i]| >= |secrets[j]|
  }

  lemma LongestFirstIs(values: seq<string>)
    ensures var secrets := LongestFirst(values);
            && Descending(secrets) && AllNonEmpty(secrets)
            && forall s :: s in secrets <==> s in values && s != ""
  {
    var atMost := (a: string, b: string) => |a| >= |b|;
    var sorted := Sort(Kept(values), atMost);
    SortSorts(Kept(values), atMost);
    KeptAre(values);
    forall s
      ensures s in sorted <==> s in values && s != ""
    {
      assert s in multiset(sorted) <==> s in multiset(Kept(values));
    }
    assert forall i :: 0 <= i < |sorted| ==> sorted[i] in sorted;
    assert forall i, j :: 0 <= i < j < |sorted| ==> atMost(sorted[i], sorted[j]);
  }

  // ----- Occurrences -----

  predicate OccursAt(text: string, s: string, p: int) {
    0 <= p && p + |s| <= |text| && text[p..p + |s|] == s
  }

  ghost predicate Occurs(text: string, s: string) {
    exists p :: OccursAt(text, s, p)
  }

  predicate IsSuffix(s: string, text: string) {
    |s| <= |text| && text[|text| - |s|..] == s
  }

  lemma OccursLater(prefix: string, text: string, s: string, p: int)
    requires |prefix| <= p
    ensures OccursAt(prefix + text, s, p) <==> OccursAt(text, s, p - |prefix|)
  {
    if p + |s| <= |prefix| + |text| {
      assert (prefix + text)[p..p + |s|] == text[p - |prefix|..p - |prefix| + |s|];
    }
  }

  lemma OccursInTail(text: string, k: nat, s: string)
    requires k <= |text|
    ensures Occurs(text[k..], s) ==> Occurs(text, s)
  {
    if Occurs(text[k..], s) {
      var p :| OccursAt(text[k..], s, p);
      assert text == text[..k] + text[k..];
      OccursLater(text[..k], text[k..], s, p + k);
    }
  }

  lemma {:induction false} NotThereUnchanged(text: string, secret: string)
    requires secret != "" && !Occurs(text, secret)
    ensures Replace(text, secret) == text
    decreases |text|
  {
    assert StartsWith(text, secret) ==> OccursAt(text, secret, 0);
    if text != "" {
      OccursInTail(text, 1, secret);
      NotThereUnchanged(text[1..], secret);
    }
  }

  /** No bracket, so no part of the marker's edges. */
  predicate Plain(s: string) {
    forall i :: 0 <= i < |s| ==> s[i] != '[' && s[i] != ']'
  }

  /** A secret the redactor can remove: it has no bracket and the marker does not show it. */
  ghost predicate Redactable(s: string) {
    s != "" && Plain(s) && !Occurs(REDACTED, s)
  }

  // ----- When one secret survives its own replacement -----

  /** The secret occurs in the text after it was replaced. */
  ghost predicate Survives(text: string, s: string)
    requires s != ""
  {
    Occurs(Replace(text, s), s)
  }

  /** The first `k` characters of the secret end the marker. */
  predicate StartsInMarker(s: string, k: nat) {
    0 < k < |s| && IsSuffix(s[..k], REDACTED)
  }

  /** From `k` on the secret runs along the marker, and its first `k` characters before it hold no earlier match. */
  predicate RunsIntoMarker(s: string, k: nat) {
    && 0 < k < |s|
    && (StartsWith(REDACTED, s[k..]) || StartsWith(s[k..], REDACTED))
    && forall q :: 0 <= q < k ==> !OccursAt(s[..k] + s, s, q)
  }

  /** The marker, together with what may stand beside it, shows the secret. */
  ghost predicate MarkerShows(s: string) {
    || Occurs(REDACTED, s)
    || (exists k :: StartsInMarker(s, k))
    || exists k :: RunsIntoMarker(s, k)
  }

  /** Replacement leaves a text alone up to the first occurrence. */
  lemma {:induction false} ReplacesFirst(text: string, secret: string, k: nat)
    requires secret != "" && OccursAt(text, secret, k) && forall q :: 0 <= q < k ==> !OccursAt(text, secret, q)
    ensures Replace(text, secret) == text[..k] + REDACTED + Replace(text[k + |secret|..], secret)
    decreases k
  {
    if k == 0 {
      assert text[..0] + REDACTED == REDACTED;
    } else {
      var tail := text[1..];
      assert text == [text[0]] + tail;
      assert !OccursAt(text, secret, 0) && !StartsWith(text, secret);
      OccursLater([text[0]], tail, secret, k);
      forall q | 0 <= q < k - 1
        ensures !OccursAt(tail, secret, q)
      {
        OccursLater([text[0]], tail, secret, q + 1);
      }
      ReplacesFirst(tail, secret, k - 1);
      assert tail[k - 1 + |secret|..] == text[k + |secret|..];
      Prepends(text, k, REDACTED, Replace(text[k + |secret|..], secret));
    }
  }

  lemma Prepends(text: string, k: nat, marker: string, rest: string)
    requires 0 < k <= |text|
    ensures [text[0]] + (text[1..][..k - 1] + marker + rest) == text[..k] + marker + rest
  {
    assert [text[0]] + text[1..][..k - 1] == text[..k];
  }

  /** The first occurrence, if there is one. */
  lemma {:induction false} FirstOccurrence(text: string, s: string, p: nat) returns (k: nat)
    requires OccursAt(text, s, p)
    ensures k <= p && OccursAt(text, s, k) && forall q :: 0 <= q < k ==> !OccursAt(text, s, q)
    decreases p
  {
    if q :| 0 <= q < p && OccursAt(text, s, q) {
      k := FirstOccurrence(text, s, q);
    } else {
      k := p;
    }
  }

  /** Text shorter than the secret is left alone. */
  lemma ShortIsUnchanged(text: string, secret: string)
    requires |text| < |secret|
    ensures Replace(text, secret) == text
  {
    NotThereUnchanged(text, secret);
  }

  lemma PrefixOfBoth(s: string, a: string, b: string)
    requires StartsWith(a + b, s)
    ensures StartsWith(a, s) || StartsWith(s, a)
  {
    var all := a + b;
    if |s| <= |a| {
      assert a[..|s|] == all[..|s|];
    } else {
      assert s[..|a|] == all[..|s|][..|a|] == a;
    }
  }

  /** A replaced text that starts with the secret, where the text itself does not, starts with a part of the secret
      that runs into the marker. */
  lemma StartMeetsMarker(text: string, s: string)
    requires s != "" && !StartsWith(text, s) && StartsWith(Replace(text, s), s)
    ensures exists k :: RunsIntoMarker(s, k)
  {
    if forall p :: !OccursAt(text, s, p) {
      NotThereUnchanged(text, s);
    } else {
      var p :| OccursAt(text, s, p);
      var k := FirstOccurrence(text, s, p);
      FirstMeetsMarker(text, s, k, Replace(text[k + |s|..], s));
    }
  }

  lemma FirstMeetsMarker(text: string, s: string, k: nat, rest: string)
    requires s != "" && !StartsWith(text, s) && StartsWith(Replace(text, s), s)
    requires OccursAt(text, s, k) && forall q {:trigger OccursAt(text, s, q)} :: 0 <= q < k ==> !OccursAt(text, s, q)
    requires rest == Replace(text[k + |s|..], s)
    ensures RunsIntoMarker(s, k)
  {
    ReplacesFirst(text, s, k);
    FirstRunsInto(text, s, k, rest);
  }

  lemma FirstRunsInto(text: string, s: string, k: nat, rest: string)
    requires OccursAt(text, s, k) && forall q :: 0 <= q < k ==> !OccursAt(text, s, q)
    requires s != "" && !StartsWith(text, s) && StartsWith(text[..k] + REDACTED + rest, s)
    ensures RunsIntoMarker(s, k)
  {
    assert text[..k] + REDACTED + rest == text[..k] + (REDACTED + rest);
    MeetsAtFirst(text, s, k, REDACTED + rest);
    PrefixOfBoth(s[k..], REDACTED, rest);
  }

  lemma PrefixInside(text: string, k: nat, after: string, s: string)
    requires k <= |text|
    ensures |s| <= k && StartsWith(text[..k] + after, s) ==> StartsWith(text, s)
  {
    if |s| <= k {
      assert (text[..k] + after)[..|s|] == text[..|s|];
    }
  }

  lemma MeetsAtFirst(text: string, s: string, k: nat, after: string)
    requires OccursAt(text, s, k) && !StartsWith(text, s) && StartsWith(text[..k] + after, s)
    requires forall q :: 0 <= q < k ==> !OccursAt(text, s, q)
    ensures 0 < k < |s| && StartsWith(after, s[k..])
    ensures forall q :: 0 <= q < k ==> !OccursAt(s[..k] + s, s, q)
  {
    var out := text[..k] + after;
    PrefixInside(text, k, after, s);
    assert s[..k] == out[..|s|][..k] == text[..k];
    assert s[k..] == out[..|s|][k..] == after[..|s| - k];
    var both := s[..k] + s;
    assert both == text[..k + |s|] by {
      assert text[..k + |s|] == text[..k] + text[k..k + |s|];
    }
    forall q | 0 <= q < k
      ensures !OccursAt(both, s, q)
    {
      assert !OccursAt(text, s, q);
      assert both[q..q + |s|] == text[q..q + |s|];
    }
  }

  /** An occurrence that starts inside the marker stays inside it or starts in it. */
  lemma StartsInside(rest: string, s: string, p: nat)
    requires s != "" && OccursAt(REDACTED + rest, s, p) && p < |REDACTED|
    ensures Occurs(REDACTED, s) || exists k :: StartsInMarker(s, k)
  {
    var text := REDACTED + rest;
    if p + |s| <= |REDACTED| {
      assert text[p..p + |s|] == REDACTED[p..p + |s|];
      assert OccursAt(REDACTED, s, p);
    } else {
      var k := |REDACTED| - p;
      assert s[..k] == text[p..p + |s|][..k] == REDACTED[p..];
      assert StartsInMarker(s, k);
    }
  }

  /** What survives its own replacement is shown by a marker. */
  lemma {:induction false} SurvivorIsShown(text: string, s: string, p: nat)
    requires s != "" && OccursAt(Replace(text, s), s, p)
    ensures MarkerShows(s)
    decreases |text|
  {
    if StartsWith(text, s) {
      var rest := Replace(text[|s|..], s);
      if p < |REDACTED| {
        StartsInside(rest, s, p);
      } else {
        OccursLater(REDACTED, rest, s, p);
        SurvivorIsShown(text[|s|..], s, p - |REDACTED|);
      }
    } else if text != "" {
      if p == 0 {
        StartMeetsMarker(text, s);
      } else {
        OccursLater([text[0]], Replace(text[1..], s), s, p);
        SurvivorIsShown(text[1..], s, p - 1);
      }
    }
  }

  lemma EndThenRest(marker: string, s: string, k: nat)
    requires 0 < k < |s| && IsSuffix(s[..k], marker)
    ensures OccursAt(marker + s[k..], s, |marker| - k)
  {
    var p, out := |marker| - k, marker + s[k..];
    assert out[p..p + |s|] == marker[p..] + s[k..] == s[..k] + s[k..] == s;
  }

  /** A secret that starts in the marker survives when the rest of it follows. */
  lemma StarterSurvives(s: string, k: nat)
    requires StartsInMarker(s, k)
    ensures Survives(s + s[k..], s)
  {
    var text := s + s[k..];
    assert text[..|s|] == s && text[|s|..] == s[k..];
    ShortIsUnchanged(s[k..], s);
    EndThenRest(REDACTED, s, k);
  }

  lemma StandsFirst(s: string, k: nat, rest: string)
    requires 0 < k < |s| && forall q :: 0 <= q < k ==> !OccursAt(s[..k] + s, s, q)
    ensures var text := s[..k] + s + rest;
            && OccursAt(text, s, k) && text[..k] == s[..k] && text[k + |s|..] == rest
            && forall q :: 0 <= q < k ==> !OccursAt(text, s, q)
  {
    var both := s[..k] + s;
    var text := both + rest;
    assert text[k..k + |s|] == s;
    forall q | 0 <= q < k
      ensures !OccursAt(text, s, q)
    {
      assert !OccursAt(both, s, q);
      assert text[q..q + |s|] == both[q..q + |s|];
    }
  }

  /** What follows the marker where the secret is longer than the marker can show. */
  function Beyond(s: string, k: nat): (rest: string)
    requires k <= |s|
    ensures |rest| <= |s| - k
  {
    if |s| - k <= |REDACTED| then "" else s[k + |REDACTED|..]
  }

  /** A secret that runs into the marker survives when its first part stands before it, and after it the rest. */
  lemma RunnerSurvives(s: string, k: nat)
    requires RunsIntoMarker(s, k)
    ensures Survives(s[..k] + s + Beyond(s, k), s)
  {
    var rest := Beyond(s, k);
    StandsFirst(s, k, rest);
    ReplacesFirst(s[..k] + s + rest, s, k);
    ShortIsUnchanged(rest, s);
    ShowsRunner(s, k, REDACTED, rest);
  }

  lemma ShowsRunner(s: string, k: nat, marker: string, rest: string)
    requires 0 < k < |s| && (StartsWith(marker, s[k..]) || StartsWith(s[k..], marker))
    requires rest == if |s| - k <= |marker| then "" else s[k + |marker|..]
    ensures Occurs(s[..k] + marker + rest, s)
  {
    var out, m := s[..k] + marker + rest, |marker|;
    if |s| - k <= m {
      assert marker[..|s| - k] == s[k..];
      assert out[..|s|] == s[..k] + s[k..] == s;
    } else {
      assert s[k..][..m] == marker && s[k..][m..] == rest;
      assert s == s[..k] + (s[k..][..m] + s[k..][m..]);
      assert out == s;
    }
    assert OccursAt(out, s, 0);
  }

  /** One secret survives the replacement of some text if and only if the marker shows it: as a whole, from its end
      on, or from before its start. */
  lemma SurvivesIffMarkerShows(s: string)
    requires s != ""
    ensures (exists text :: Survives(text, s)) <==> MarkerShows(s)
  {
    if text :| Survives(text, s) {
      var p :| OccursAt(Replace(text, s), s, p);
      SurvivorIsShown(text, s, p);
    }
    if MarkerShows(s) {
      if Occurs(REDACTED, s) {
        SecretInMarkerSurvives(s);
      } else if k :| StartsInMarker(s, k) {
        StarterSurvives(s, k);
      } else {
        var k :| RunsIntoMarker(s, k);
        RunnerSurvives(s, k);
      }
    }
  }

  /** A secret the marker shows is put back by its own replacement. */
  lemma SecretInMarkerSurvives(secret: string)
    requires secret != "" && Occurs(REDACTED, secret)
    ensures Survives(secret, secret)
  {
    assert secret[|secret|..] == "" && Replace("", secret) == "";
    assert Replace(secret, secret) == REDACTED + "" == REDACTED;
  }

  /** A secret with a bracket that the marker's edge puts back. */
  lemma BracketSecretSurvives()
    ensures Survives("]aa", "]a")
  {
    assert "]a"[..1] == REDACTED[9..] && StartsInMarker("]a", 1);
    assert "]aa" == "]a" + "]a"[1..];
    StarterSurvives("]a", 1);
  }

  // ----- Which secrets no replacement brings back -----

  /** A string runs along the marker: it starts it, or the marker starts the string. */
  predicate Meets(t: string) {
    StartsWith(REDACTED, t) || StartsWith(t, REDACTED)
  }

  /** The marker touches the secret nowhere: it does not show it, and no part of the secret starts at the marker's
      end or ends at its start. */
  ghost predicate Clear(s: string) {
    && s != ""
    && !Occurs(REDACTED, s)
    && forall k :: 0 < k < |s| ==> !StartsInMarker(s, k) && !Meets(s[k..])
  }

  predicate NeverMeets(t: string) {
    forall k :: 0 <= k < |t| ==> !Meets(t[k..])
  }

  lemma MeetsFromStart(s: string)
    requires Meets(s)
    ensures Occurs(REDACTED, s) || StartsInMarker(s, |REDACTED|)
  {
    assert s[..|s|] == s && REDACTED[..|REDACTED|] == REDACTED;
    if StartsWith(REDACTED, s) {
      assert OccursAt(REDACTED, s, 0);
    } else {
      assert REDACTED[0..] == REDACTED && StartsInMarker(s, |REDACTED|);
    }
  }

  lemma ClearNeverMeets(s: string)
    requires Clear(s)
    ensures NeverMeets(s)
  {
    assert s[0..] == s;
    assert !Meets(s) by {
      if Meets(s) {
        MeetsFromStart(s);
      }
    }
  }

  /** Text at the start of a replaced text that never meets a marker was at the start of the text. */
  lemma {:induction false} PrefixStays(text: string, secret: string, t: string)
    requires secret != "" && NeverMeets(t) && StartsWith(Replace(text, secret), t)
    ensures StartsWith(text, t)
    decreases |text|
  {
    if t != "" {
      assert t[0..] == t;
      if StartsWith(text, secret) {
        PrefixOfBoth(t, REDACTED, Replace(text[|secret|..], secret));
      } else if text != "" {
        var rest := Replace(text[1..], secret);
        TailOfPrefix(text[0], rest, t);
        forall k | 0 <= k < |t| - 1
          ensures !Meets(t[1..][k..])
        {
          assert t[1..][k..] == t[k + 1..];
        }
        PrefixStays(text[1..], secret, t[1..]);
        assert text[..|t|] == [text[0]] + text[1..][..|t| - 1] == t;
      }
    }
  }

  lemma TailOfPrefix(c: char, rest: string, t: string)
    requires t != "" && StartsWith([c] + rest, t)
    ensures t[0] == c && StartsWith(rest, t[1..]) && t == [c] + t[1..]
  {
    var all := [c] + rest;
    assert all[..|t|] == t && t[0] == all[0];
    assert t[1..] == all[..|t|][1..] == rest[..|t| - 1];
  }

  /** A replacement creates no occurrence of a clear string that was not there. */
  lemma {:induction false} NothingAppears(text: string, secret: string, s: string, p: int)
    requires secret != "" && Clear(s) && OccursAt(Replace(text, secret), s, p)
    ensures Occurs(text, s)
    decreases |text|
  {
    if StartsWith(text, secret) {
      var rest := Replace(text[|secret|..], secret);
      if p < |REDACTED| {
        StartsInside(rest, s, p);
      } else {
        OccursLater(REDACTED, rest, s, p);
        NothingAppears(text[|secret|..], secret, s, p - |REDACTED|);
        OccursInTail(text, |secret|, s);
      }
    } else if text != "" {
      if p == 0 {
        ClearNeverMeets(s);
        PrefixStays(text, secret, s);
        assert OccursAt(text, s, 0);
      } else {
        OccursLater([text[0]], Replace(text[1..], secret), s, p);
        NothingAppears(text[1..], secret, s, p - 1);
        OccursInTail(text, 1, s);
      }
    }
  }

  /** A replaced clear secret is gone. */
  lemma ClearIsGone(text: string, s: string)
    requires Clear(s)
    ensures !Survives(text, s)
  {
    if Survives(text, s) {
      var p :| OccursAt(Replace(text, s), s, p);
      SurvivorIsShown(text, s, p);
      ClearIsNotShown(s);
    }
  }

  lemma ClearIsNotShown(s: string)
    requires Clear(s)
    ensures !MarkerShows(s)
  {
    forall k: nat
      ensures !RunsIntoMarker(s, k)
    {
      assert 0 < k < |s| ==> !Meets(s[k..]);
    }
  }

  lemma {:induction false} StaysGone(text: string, secrets: seq<string>, s: string)
    requires AllNonEmpty(secrets) && Clear(s) && !Occurs(text, s)
    ensures !Occurs(Redact(text, secrets), s)
    decreases |secrets|
  {
    if secrets != [] {
      var next := Replace(text, secrets[0]);
      if Occurs(next, s) {
        var p :| OccursAt(next, s, p);
        NothingAppears(text, secrets[0], s, p);
      }
      StaysGone(next, secrets[1..], s);
    }
  }

  /** After the loop no clear secret occurs anywhere in the text, whatever the other secrets are: it does not survive
      its own replacement, and no later replacement brings it back. */
  lemma {:induction false} NoSecretSurvives(text: string, secrets: seq<string>)
    requires AllNonEmpty(secrets)
    ensures forall i :: 0 <= i < |secrets| && Clear(secrets[i]) ==> !Occurs(Redact(text, secrets), secrets[i])
    decreases |secrets|
  {
    if secrets != [] {
      var next := Replace(text, secrets[0]);
      NoSecretSurvives(next, secrets[1..]);
      if Clear(secrets[0]) {
        ClearIsGone(text, secrets[0]);
        StaysGone(next, secrets[1..], secrets[0]);
      }
      assert forall i :: 0 < i < |secrets| ==> secrets[i] == secrets[1..][i - 1];
    }
  }

  /** The marker can only be touched at its brackets. */
  lemma TouchesAtBracket(s: string, k: nat)
    requires 0 < k < |s|
    ensures StartsInMarker(s, k) ==> s[k - 1] == ']'
    ensures Meets(s[k..]) ==> s[k] == '['
  {
    assert s[..k][k - 1] == s[k - 1];
    if StartsInMarker(s, k) {
      assert REDACTED[|REDACTED| - k..][k - 1] == REDACTED[|REDACTED| - 1] == ']';
    }
    if Meets(s[k..]) {
      FirstOfMarker(s[k..], REDACTED);
    }
  }

  /** A secret without a bracket that the marker does not show is clear. */
  lemma PlainIsClear(s: string)
    requires Redactable(s)
    ensures Clear(s)
  {
    forall k | 0 < k < |s|
      ensures !StartsInMarker(s, k) && !Meets(s[k..])
    {
      TouchesAtBracket(s, k);
    }
  }

  // ----- Every other secret can come back -----

  function Run(c: char, n: nat): (r: string)
    ensures |r| == n && forall i :: 0 <= i < n ==> r[i] == c
  {
    seq(n, _ => c)
  }

  lemma DiffersAt(text: string, s: string, p: int, i: nat)
    requires i < |s| && 0 <= p && (p + |s| <= |text| ==> text[p + i] != s[i])
    ensures !OccursAt(text, s, p)
  {
    assert p + |s| <= |text| ==> text[p..p + |s|][i] == text[p + i];
  }

  /** A run of a character that does not end the text before it occurs first where it stands. */
  lemma RunStandsFirst(before: string, run: string, rest: string)
    requires before != "" && run != "" && forall i :: 0 <= i < |run| ==> run[i] == run[0]
    requires before[|before| - 1] != run[0] && |before| <= |run|
    ensures var text := before + run + rest;
            && OccursAt(text, run, |before|) && text[..|before|] == before && text[|before| + |run|..] == rest
            && forall q :: 0 <= q < |before| ==> !OccursAt(text, run, q)
  {
    var text, n := before + run + rest, |before|;
    assert text[n..n + |run|] == run;
    forall q | 0 <= q < n
      ensures !OccursAt(text, run, q)
    {
      assert text[n - 1] == before[n - 1];
      DiffersAt(text, run, q, n - 1 - q);
    }
  }

  /** Where the run stands for the marker, the secret itself is not in the text. */
  lemma RunHidesSecret(s: string, k: nat, c: char, rest: string)
    requires 0 < k < |s| && s[k] != c && |rest| + k < |s|
    ensures !Occurs(s[..k] + Run(c, |s| - 1) + rest, s)
  {
    var text := s[..k] + Run(c, |s| - 1) + rest;
    forall q | 0 <= q <= |text| - |s|
      ensures !OccursAt(text, s, q)
    {
      assert text[q + k] == Run(c, |s| - 1)[q];
      DiffersAt(text, s, q, k);
    }
  }

  lemma RunBecomesMarker(before: string, run: string, rest: string)
    requires before != "" && run != "" && forall i :: 0 <= i < |run| ==> run[i] == run[0]
    requires before[|before| - 1] != run[0] && |before| <= |run| && |rest| < |run|
    ensures Replace(before + run + rest, run) == before + REDACTED + rest
  {
    RunStandsFirst(before, run, rest);
    ReplacesFirst(before + run + rest, run, |before|);
    ShortIsUnchanged(rest, run);
  }

  /** The secret is not there, the run is replaced, and then the secret is there. */
  lemma MarkerForRun(s: string, k: nat, c: char)
    requires 0 < k < |s| && Meets(s[k..]) && s[k - 1] != c && s[k] != c
    ensures var text := s[..k] + Run(c, |s| - 1) + Beyond(s, k);
            Replace(text, s) == text && Occurs(Replace(text, Run(c, |s| - 1)), s)
  {
    var rest := Beyond(s, k);
    HiddenIsUnchanged(s, k, c, rest);
    MarkerInPlace(s, k, c, rest);
    ShowsRunner(s, k, REDACTED, rest);
  }

  lemma HiddenIsUnchanged(s: string, k: nat, c: char, rest: string)
    requires 0 < k < |s| && s[k] != c && |rest| + k < |s|
    ensures Replace(s[..k] + Run(c, |s| - 1) + rest, s) == s[..k] + Run(c, |s| - 1) + rest
  {
    RunHidesSecret(s, k, c, rest);
    NotThereUnchanged(s[..k] + Run(c, |s| - 1) + rest, s);
  }

  lemma MarkerInPlace(s: string, k: nat, c: char, rest: string)
    requires 0 < k < |s| && s[k - 1] != c && |rest| < |s| - 1
    ensures Replace(s[..k] + Run(c, |s| - 1) + rest, Run(c, |s| - 1)) == s[..k] + REDACTED + rest
  {
    assert s[..k][k - 1] == s[k - 1];
    RunBecomesMarker(s[..k], Run(c, |s| - 1), rest);
  }

  /** A secret that meets the marker comes back where a shorter one is replaced after it. */
  lemma MeetingSecretComesBack(s: string, k: nat) returns (text: string, other: string)
    requires 0 < k < |s| && Meets(s[k..])
    ensures 0 < |other| < |s| && Occurs(Redact(text, [s, other]), s)
  {
    var c := if s[k - 1] == 'x' then 'y' else 'x';
    other := Run(c, |s| - 1);
    text := s[..k] + other + Beyond(s, k);
    FirstOfMarker(s[k..], REDACTED);
    assert s[k] == s[k..][0] && REDACTED[0] == '[';
    MarkerForRun(s, k, c);
    RedactTwo(text, s, other);
  }

  lemma FirstOfMarker(t: string, marker: string)
    requires t != "" && marker != "" && (StartsWith(marker, t) || StartsWith(t, marker))
    ensures t[0] == marker[0]
  {
    if StartsWith(marker, t) {
      assert marker[..|t|][0] == marker[0];
    } else {
      assert t[..|marker|][0] == t[0];
    }
  }

  lemma RedactOne(text: string, a: string)
    requires a != ""
    ensures Redact(text, [a]) == Replace(text, a)
  {
    assert [a][1..] == [];
  }

  lemma RedactTwo(text: string, a: string, b: string)
    requires a != "" && b != ""
    ensures Redact(text, [a, b]) == Replace(Replace(text, a), b)
  {
    assert [a, b][1..] == [b];
    RedactOne(Replace(text, a), b);
  }

  /** The redactor leaves `s` in some text, one of its secrets, no two of which are of one length. */
  ghost predicate Leaves(text: string, secrets: seq<string>, s: string) {
    && s in secrets && AllNonEmpty(secrets) && (forall i, j :: 0 <= i < j < |secrets| ==> |secrets[i]| > |secrets[j]|)
    && Occurs(Redact(text, secrets), s)
  }

  /** A configured secret can be left in some text, beside some other secrets, if and only if the marker touches it. */
  lemma CanBeLeftIff(s: string)
    requires s != ""
    ensures (exists text, secrets :: Leaves(text, secrets, s)) <==> !Clear(s)
  {
    if text, secrets :| Leaves(text, secrets, s) {
      NoSecretSurvives(text, secrets);
    }
    if !Clear(s) {
      if Occurs(REDACTED, s) {
        SecretInMarkerSurvives(s);
        RedactOne(s, s);
        assert Leaves(s, [s], s);
      } else {
        var k :| 0 < k < |s| && (StartsInMarker(s, k) || Meets(s[k..]));
        if StartsInMarker(s, k) {
          StarterSurvives(s, k);
          RedactOne(s + s[k..], s);
          assert Leaves(s + s[k..], [s], s);
        } else {
          var text, other := MeetingSecretComesBack(s, k);
          assert Leaves(text, [s, other], s);
        }
      }
    }
  }
}
