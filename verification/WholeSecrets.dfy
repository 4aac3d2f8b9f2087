/** A secret that contains another is replaced whole, and the text around it as if it stood alone. */
module WholeSecrets {
  import opened Errors
  import opened Lines

  /** No occurrence of `s` in `a + b` crosses from `a` into `b`. */
  ghost predicate NoneCrosses(a: string, b: string, s: string) {
    forall p :: 0 <= p < |a| && |a| < p + |s| ==> !OccursAt(a + b, s, p)
  }

  /** Replacement works on both sides of a cut that no occurrence crosses. */
  lemma {:induction false} ReplacesApart(a: string, b: string, secret: string)
    requires secret != "" && NoneCrosses(a, b, secret)
    ensures Replace(a + b, secret) == Replace(a, secret) + Replace(b, secret)
    decreases |a|
  {
    if a == "" {
      assert a + b == b;
    } else if StartsWith(a + b, secret) {
      assert OccursAt(a + b, secret, 0);
      var tail := a[|secret|..];
      assert a[..|secret|] == (a + b)[..|secret|];
      assert (a + b)[|secret|..] == tail + b;
      CrossesInTail(a, b, secret, |secret|);
      ReplacesApart(tail, b, secret);
    } else {
      assert !StartsWith(a, secret) by {
        assert |secret| <= |a| ==> a[..|secret|] == (a + b)[..|secret|];
      }
      assert (a + b)[1..] == a[1..] + b;
      CrossesInTail(a, b, secret, 1);
      ReplacesApart(a[1..], b, secret);
    }
  }

  lemma CrossesInTail(a: string, b: string, s: string, k: nat)
    requires k <= |a| && NoneCrosses(a, b, s)
    ensures NoneCrosses(a[k..], b, s)
  {
    forall p | 0 <= p < |a[k..]| && |a[k..]| < p + |s|
      ensures !OccursAt(a[k..] + b, s, p)
    {
      assert a + b == a[..k] + (a[k..] + b);
      OccursLater(a[..k], a[k..] + b, s, p + k);
    }
  }

  lemma MarkerInside(s: string, p: nat)
    requires OccursAt(s, REDACTED, p)
    ensures if p > 0 then Meets(s[p..]) else Occurs(REDACTED, s) || StartsInMarker(s, |REDACTED|)
  {
    assert s[p..][..|REDACTED|] == s[p..p + |REDACTED|];
    if p == 0 {
      assert REDACTED[0..] == REDACTED;
      if |s| == |REDACTED| {
        assert OccursAt(REDACTED, s, 0);
      }
    }
  }

  /** A clear secret does not show the marker. */
  lemma ClearHasNoMarker(s: string)
    requires Clear(s)
    ensures !Occurs(s, REDACTED)
  {
    if p :| OccursAt(s, REDACTED, p) {
      MarkerInside(s, p);
    }
  }

  /** A replaced text without a marker had nothing to replace. */
  lemma {:induction false} UnmarkedIsUnchanged(text: string, secret: string)
    requires secret != "" && !Occurs(Replace(text, secret), REDACTED)
    ensures Replace(text, secret) == text
    decreases |text|
  {
    if StartsWith(text, secret) {
      var rest := Replace(text[|secret|..], secret);
      assert (REDACTED + rest)[..|REDACTED|] == REDACTED;
      assert OccursAt(Replace(text, secret), REDACTED, 0);
    } else if text != "" {
      var rest := Replace(text[1..], secret);
      forall p | OccursAt(rest, REDACTED, p)
        ensures false
      {
        OccursLater([text[0]], rest, REDACTED, p + 1);
      }
      UnmarkedIsUnchanged(text[1..], secret);
    }
  }

  lemma SuffixOfTail(text: string, k: nat, s: string)
    requires k <= |text| && IsSuffix(s, text[k..])
    ensures IsSuffix(s, text)
  {
  }

  /** No beginning of the string ends the marker, and the string does not show it. */
  ghost predicate NeverAbuts(t: string) {
    && !Occurs(t, REDACTED)
    && forall k :: 0 < k <= |t| ==> !IsSuffix(t[..k], REDACTED)
  }

  lemma ClearNeverAbuts(s: string, n: nat)
    requires Clear(s) && n < |s|
    ensures NeverAbuts(s[..n])
  {
    ClearHasNoMarker(s);
    forall p | OccursAt(s[..n], REDACTED, p)
      ensures false
    {
      assert s[p..p + |REDACTED|] == s[..n][p..p + |REDACTED|];
      assert OccursAt(s, REDACTED, p);
    }
    forall k | 0 < k <= n
      ensures !IsSuffix(s[..n][..k], REDACTED)
    {
      assert s[..n][..k] == s[..k] && !StartsInMarker(s, k);
    }
  }

  lemma SuffixSplits(marker: string, rest: string, t: string)
    requires IsSuffix(t, marker + rest)
    ensures if |t| <= |rest| then IsSuffix(t, rest) else IsSuffix(t[..|t| - |rest|], marker)
  {
    var all := marker + rest;
    if |t| > |rest| {
      var k := |t| - |rest|;
      assert t[..k] == all[|all| - |t|..][..k] == marker[|marker| - k..];
    } else {
      assert all[|all| - |t|..] == rest[|rest| - |t|..];
    }
  }

  /** Text that ends a marked text without abutting the marker ends what follows the marker. */
  lemma SuffixPastMarker(marker: string, rest: string, t: string)
    requires IsSuffix(t, marker + rest) && forall k :: 0 < k <= |t| ==> !IsSuffix(t[..k], marker)
    ensures IsSuffix(t, rest)
  {
    SuffixSplits(marker, rest, t);
  }

  lemma SuffixOfLonger(c: char, rest: string, s: string)
    requires IsSuffix(s, [c] + rest)
    ensures if |s| <= |rest| then IsSuffix(s, rest) else s == [c] + rest
  {
    if |s| <= |rest| {
      assert ([c] + rest)[1 + |rest| - |s|..] == rest[|rest| - |s|..];
    }
  }

  /** Text at the end of a replaced text that never abuts a marker was at the end of the text. */
  lemma {:induction false} SuffixStays(text: string, secret: string, t: string)
    requires secret != "" && NeverAbuts(t) && IsSuffix(t, Replace(text, secret))
    ensures IsSuffix(t, text)
    decreases |text|
  {
    if StartsWith(text, secret) {
      SuffixPastMarker(REDACTED, Replace(text[|secret|..], secret), t);
      SuffixStays(text[|secret|..], secret, t);
      SuffixOfTail(text, |secret|, t);
    } else if text != "" {
      var rest := Replace(text[1..], secret);
      SuffixOfLonger(text[0], rest, t);
      if |t| <= |rest| {
        SuffixStays(text[1..], secret, t);
        SuffixOfTail(text, 1, t);
      } else {
        UnmarkedIsUnchanged(text, secret);
      }
    }
  }

  /** Every occurrence of `s` that touches `middle` in `left + middle + right` is `middle` itself. */
  ghost predicate TouchesOnlyItself(left: string, middle: string, right: string, s: string) {
    forall p :: OccursAt(left + middle + right, s, p) && p < |left| + |middle| && |left| < p + |s| ==>
      p == |left| && s == middle
  }

  /** Replacing elsewhere brings no occurrence of a clear secret next to the middle that was not there. */
  lemma TouchesNoNew(left: string, middle: string, right: string, x: string, s: string)
    requires x != "" && Clear(s) && middle != "" && TouchesOnlyItself(left, middle, right, s)
    ensures TouchesOnlyItself(Replace(left, x), middle, Replace(right, x), s)
  {
    var left', right' := Replace(left, x), Replace(right, x);
    var all, all' := left + middle + right, left' + middle + right';
    forall p | OccursAt(all', s, p) && p < |left'| + |middle| && |left'| < p + |s|
      ensures p == |left'| && s == middle
    {
      assert all' == left' + (middle + right');
      SameBefore(left, middle + right', x, s, p);
      SameAfter(left' + middle, right, x, s, p);
      WasThere(left', left, middle, right', right, s, p);
      assert OccursAt(all, s, p - |left'| + |left|);
    }
  }

  /** An occurrence that meets the middle, whose outer parts stood there before, was there as a whole. */
  lemma WasThere(left': string, left: string, middle: string, right': string, right: string, s: string, p: nat)
    requires OccursAt(left' + middle + right', s, p) && p < |left'| + |middle| && |left'| < p + |s|
    requires p - |left'| + |left| >= 0
    requires forall i :: p <= i < |left'| ==> left'[i] == left[i - |left'| + |left|]
    requires var end := p + |s| - (|left'| + |middle|);
             end <= |right| && forall i :: 0 <= i < end ==> right'[i] == right[i]
    ensures OccursAt(left + middle + right, s, p - |left'| + |left|)
  {
    var q, all, all' := p - |left'| + |left|, left + middle + right, left' + middle + right';
    assert forall i :: 0 <= i < |s| ==> s[i] == all'[p..p + |s|][i] == all'[p + i];
    forall i | 0 <= i < |s|
      ensures all[q + i] == s[i]
    {
      if p + i < |left'| {
        assert left'[p + i] == left[q + i];
      } else if p + i >= |left'| + |middle| {
        var k := p + i - |left'| - |middle|;
        assert right'[k] == right[k];
      }
    }
    assert all[q..q + |s|] == s;
  }

  /** The part of an occurrence before the middle, and the part after it, stood there before the replacement. */
  lemma SameBefore(left: string, after: string, x: string, s: string, p: nat)
    requires x != "" && Clear(s) && after != ""
    requires OccursAt(Replace(left, x) + after, s, p) && |Replace(left, x)| < p + |s|
    ensures var left' := Replace(left, x);
            && (p < |left'| ==> p - |left'| + |left| >= 0)
            && forall i :: p <= i < |left'| ==> left'[i] == left[i - |left'| + |left|]
  {
    if p < |Replace(left, x)| {
      StartOfOccurrence(Replace(left, x), after, s, p);
      FrontStays(left, x, s, p);
    }
  }

  /** The earlier part of a clear secret at the end of a replaced text stood there before. */
  lemma FrontStays(left: string, x: string, s: string, p: nat)
    requires x != "" && Clear(s) && p < |Replace(left, x)| < p + |s|
    requires Replace(left, x)[p..] == s[..|Replace(left, x)| - p]
    ensures var left' := Replace(left, x);
            && p - |left'| + |left| >= 0
            && forall i :: p <= i < |left'| ==> left'[i] == left[i - |left'| + |left|]
  {
    var left' := Replace(left, x);
    ClearNeverAbuts(s, |left'| - p);
    SuffixStays(left, x, left'[p..]);
    SameSuffix(left', left, p);
  }

  lemma StartOfOccurrence(before: string, after: string, s: string, p: nat)
    requires OccursAt(before + after, s, p) && p <= |before| < p + |s|
    ensures s[..|before| - p] == before[p..]
  {
    var all := before + after;
    assert all[p..p + |s|][..|before| - p] == all[p..|before|] == before[p..];
  }

  lemma SameSuffix(a: string, b: string, p: nat)
    requires p <= |a| && IsSuffix(a[p..], b)
    ensures p - |a| + |b| >= 0 && forall i :: p <= i < |a| ==> a[i] == b[i - |a| + |b|]
  {
    var s := a[p..];
    assert forall i :: p <= i < |a| ==> a[i] == s[i - p] == b[|b| - |s|..][i - p];
  }

  lemma SameAfter(before: string, right: string, x: string, s: string, p: nat)
    requires x != "" && Clear(s)
    requires OccursAt(before + Replace(right, x), s, p) && p < |before|
    ensures var end := p + |s| - |before|;
            end <= |right| && forall i :: 0 <= i < end ==> Replace(right, x)[i] == right[i]
  {
    if p + |s| > |before| {
      EndOfOccurrence(before, Replace(right, x), s, p);
      TailStays(right, x, s, |before| - p);
    }
  }

  /** The later part of a clear secret at the start of a replaced text stood there before. */
  lemma TailStays(right: string, x: string, s: string, k: nat)
    requires x != "" && Clear(s) && 0 < k < |s| && StartsWith(Replace(right, x), s[k..])
    ensures |s| - k <= |right| && forall i :: 0 <= i < |s| - k ==> Replace(right, x)[i] == right[i]
  {
    ClearTailNeverMeets(s, k);
    PrefixStays(right, x, s[k..]);
    assert Replace(right, x)[..|s| - k] == s[k..];
    SamePrefix(Replace(right, x), right, |s| - k);
  }

  lemma SamePrefix(a: string, b: string, n: nat)
    requires n <= |a| && StartsWith(b, a[..n])
    ensures n <= |b| && forall i :: 0 <= i < n ==> a[i] == b[i]
  {
    assert forall i :: 0 <= i < n ==> a[i] == a[..n][i] == b[..n][i];
  }

  lemma EndOfOccurrence(before: string, after: string, s: string, p: nat)
    requires OccursAt(before + after, s, p) && p < |before| < p + |s|
    ensures var end := p + |s| - |before|; end <= |after| && after[..end] == s[|before| - p..]
  {
    var all, end := before + after, p + |s| - |before|;
    assert all[p..p + |s|][|before| - p..] == all[|before|..p + |s|] == after[..end];
  }

  lemma ClearTailNeverMeets(s: string, k: nat)
    requires Clear(s) && 0 < k < |s|
    ensures NeverMeets(s[k..])
  {
    forall j | 0 <= j < |s| - k
      ensures !Meets(s[k..][j..])
    {
      assert s[k..][j..] == s[k + j..];
    }
  }

  /** One replacement around a middle it does not touch. */
  lemma ReplacesAround(left: string, middle: string, right: string, x: string)
    requires x != "" && !Occurs(middle, x) && NoneCrosses(left, middle + right, x) && NoneCrosses(middle, right, x)
    ensures Replace(left + middle + right, x) == Replace(left, x) + middle + Replace(right, x)
  {
    assert left + middle + right == left + (middle + right);
    ReplacesApart(left, middle + right, x);
    ReplacesApart(middle, right, x);
    NotThereUnchanged(middle, x);
  }

  /** An occurrence that crosses an edge of the middle touches it without being it. */
  lemma TouchingCovers(left: string, middle: string, right: string, x: string)
    requires TouchesOnlyItself(left, middle, right, x) && x != ""
    ensures NoneCrosses(left, middle + right, x)
    ensures x != middle ==> NoneCrosses(middle, right, x) && (middle != "" ==> !Occurs(middle, x))
  {
    var all := left + middle + right;
    assert all == left + (middle + right);
    if x != middle {
      forall p | 0 <= p < |middle| && |middle| < p + |x|
        ensures !OccursAt(middle + right, x, p)
      {
        OccursLater(left, middle + right, x, p + |left|);
      }
      forall p | OccursAt(middle, x, p)
        ensures false
      {
        assert (middle + right)[p..p + |x|] == middle[p..p + |x|];
        OccursLater(left, middle + right, x, p + |left|);
      }
    }
  }

  lemma CrossingMeets(left: string, right: string, x: string, p: nat)
    requires OccursAt(left + (REDACTED + right), x, p) && p < |left| < p + |x|
    ensures Meets(x[|left| - p..])
  {
    EndOfOccurrence(left, REDACTED + right, x, p);
    PrefixOfBoth(x[|left| - p..], REDACTED, right);
  }

  lemma CrossingStarts(right: string, x: string, p: nat)
    requires OccursAt(REDACTED + right, x, p) && p < |REDACTED| < p + |x|
    ensures StartsInMarker(x, |REDACTED| - p)
  {
    StartOfOccurrence(REDACTED, right, x, p);
  }

  lemma ClearTouchesNoMarker(left: string, right: string, x: string)
    requires Clear(x)
    ensures NoneCrosses(left, REDACTED + right, x) && NoneCrosses(REDACTED, right, x)
  {
    forall p | 0 <= p < |left| && |left| < p + |x|
      ensures !OccursAt(left + (REDACTED + right), x, p)
    {
      if OccursAt(left + (REDACTED + right), x, p) {
        CrossingMeets(left, right, x, p);
      }
    }
    forall p | 0 <= p < |REDACTED| && |REDACTED| < p + |x|
      ensures !OccursAt(REDACTED + right, x, p)
    {
      if OccursAt(REDACTED + right, x, p) {
        CrossingStarts(right, x, p);
      }
    }
  }

  /** Once the marker stands, what is left of and right of it is redacted apart. */
  lemma {:induction false} RedactsAroundMarker(left: string, right: string, secrets: seq<string>)
    requires AllNonEmpty(secrets) && forall i :: 0 <= i < |secrets| ==> Clear(secrets[i])
    ensures Redact(left + REDACTED + right, secrets) == Redact(left, secrets) + REDACTED + Redact(right, secrets)
    decreases |secrets|
  {
    if secrets != [] {
      ClearTouchesNoMarker(left, right, secrets[0]);
      ReplacesAround(left, REDACTED, right, secrets[0]);
      RedactsAroundMarker(Replace(left, secrets[0]), Replace(right, secrets[0]), secrets[1..]);
    }
  }

  /** A configured secret that no equal or longer one overlaps is replaced whole where it stands, whatever shorter
      secrets it contains, and the text around it is redacted as if it stood alone. */
  lemma {:induction false} ReplacedWhole(left: string, secret: string, right: string, secrets: seq<string>)
    requires secret in secrets && Descending(secrets)
    requires AllNonEmpty(secrets) && forall i :: 0 <= i < |secrets| ==> Clear(secrets[i])
    requires forall i :: 0 <= i < |secrets| && |secrets[i]| >= |secret| ==>
                           TouchesOnlyItself(left, secret, right, secrets[i])
    ensures Redact(left + secret + right, secrets) == Redact(left, secrets) + REDACTED + Redact(right, secrets)
    decreases |secrets|
  {
    var x, later := secrets[0], secrets[1..];
    assert |x| >= |secret|;
    TouchingCovers(left, secret, right, x);
    if x == secret {
      assert left + secret + right == left + (secret + right);
      ReplacesApart(left, secret + right, x);
      assert StartsWith(secret + right, secret) && (secret + right)[|secret|..] == right;
      assert Replace(left + secret + right, x) == Replace(left, x) + REDACTED + Replace(right, x);
      RedactsAroundMarker(Replace(left, x), Replace(right, x), later);
    } else {
      ReplacesAround(left, secret, right, x);
      forall i | 0 <= i < |later| && |later[i]| >= |secret|
        ensures TouchesOnlyItself(Replace(left, x), secret, Replace(right, x), later[i])
      {
        assert later[i] == secrets[i + 1];
        TouchesNoNew(left, secret, right, x, later[i]);
      }
      ReplacedWhole(Replace(left, x), secret, Replace(right, x), later);
    }
  }
}
