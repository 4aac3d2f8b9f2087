/** The highest recall within a false-positive budget: a descending threshold scan that stops early. */
module Thresholds {
  import opened Metrics
  import opened Sorting
  import opened Wrappers

  /** Items with the given truth that score at least `threshold`. */
  function Flagged(scores: seq<real>, positive: seq<bool>, threshold: real, truth: bool): nat
    requires |scores| == |positive|
  {
    if scores == [] then 0
    else (if scores[0] >= threshold && positive[0] == truth then 1 else 0)
         + Flagged(scores[1..], positive[1..], threshold, truth)
  }

  function Ratio(numerator: nat, denominator: nat): Option<real> {
    if denominator == 0 then None else Some(numerator as real / denominator as real)
  }

  /** `threshold` is None for infinity: nothing is flagged. */
  datatype FixedRatePoint =
    FixedRatePoint(threshold: Option<real>, recall: Option<real>, falsePositiveRate: Option<real>)

  function FlaggedAt(scores: seq<real>, positive: seq<bool>, threshold: Option<real>, truth: bool): nat
    requires |scores| == |positive|
  {
    if threshold.None? then 0 else Flagged(scores, positive, threshold.value, truth)
  }

  function PointAt(scores: seq<real>, positive: seq<bool>, threshold: Option<real>): FixedRatePoint
    requires |scores| == |positive|
  {
    FixedRatePoint(threshold,
                   Ratio(FlaggedAt(scores, positive, threshold, true), Count(positive, true)),
                   Ratio(FlaggedAt(scores, positive, threshold, false), Count(positive, false)))
  }

  /** No negatives, or no more of them flagged than the budget allows. */
  predicate WithinBudget(scores: seq<real>, positive: seq<bool>, threshold: Option<real>, budget: real)
    requires |scores| == |positive|
  {
    var rate := PointAt(scores, positive, threshold).falsePositiveRate;
    rate.None? || rate.value <= budget
  }

  /** Lowering the threshold only flags more. */
  lemma {:induction false} LowerFlagsMore(scores: seq<real>, positive: seq<bool>, low: real, high: real, truth: bool)
    requires |scores| == |positive| && low <= high
    ensures Flagged(scores, positive, high, truth) <= Flagged(scores, positive, low, truth)
  {
    if scores != [] {
      LowerFlagsMore(scores[1..], positive[1..], low, high, truth);
    }
  }

  /** Two thresholds with no score between them flag the same items. */
  lemma {:induction false} GapFlagsSame(scores: seq<real>, positive: seq<bool>, a: real, b: real, truth: bool)
    requires |scores| == |positive| && forall i :: 0 <= i < |scores| ==> (scores[i] >= a <==> scores[i] >= b)
    ensures Flagged(scores, positive, a, truth) == Flagged(scores, positive, b, truth)
  {
    if scores != [] {
      GapFlagsSame(scores[1..], positive[1..], a, b, truth);
    }
  }

  lemma {:induction false} NoneFlagged(scores: seq<real>, positive: seq<bool>, a: real, truth: bool)
    requires |scores| == |positive| && forall i :: 0 <= i < |scores| ==> scores[i] < a
    ensures Flagged(scores, positive, a, truth) == 0
  {
    if scores != [] {
      NoneFlagged(scores[1..], positive[1..], a, truth);
    }
  }

  // ----- sorted(set(scores), reverse=True) -----

  /** A sorted sequence without repetitions of neighbours. */
  function Distinct(sorted: seq<real>): seq<real> {
    if |sorted| <= 1 then sorted
    else if sorted[0] == sorted[1] then Distinct(sorted[1..])
    else [sorted[0]] + Distinct(sorted[1..])
  }

  function Descending(scores: seq<real>): seq<real> {
    Distinct(Sort(scores, (a: real, b: real) => a >= b))
  }

  predicate StrictlyDescending(s: seq<real>) {
    forall i, j :: 0 <= i < j < |s| ==> s[i] > s[j]
  }

  lemma {:induction false} DistinctKeeps(sorted: seq<real>)
    requires forall i, j :: 0 <= i < j < |sorted| ==> sorted[i] >= sorted[j]
    ensures StrictlyDescending(Distinct(sorted))
    ensures forall x :: x in Distinct(sorted) <==> x in sorted
  {
    if |sorted| > 1 {
      DistinctKeeps(sorted[1..]);
      assert forall x :: x in sorted <==> x == sorted[0] || x in sorted[1..];
      assert sorted[1] in sorted[1..];
      var tail := Distinct(sorted[1..]);
      forall j | 0 <= j < |tail|
        ensures sorted[1] >= tail[j]
      {
        assert tail[j] in sorted[1..];
        var k :| 0 <= k < |sorted[1..]| && sorted[1..][k] == tail[j];
        assert sorted[1] >= sorted[k + 1];
      }
    }
  }

  lemma DescendingLists(scores: seq<real>)
    ensures StrictlyDescending(Descending(scores))
    ensures forall x :: x in Descending(scores) <==> x in scores
  {
    var atMost := (a: real, b: real) => a >= b;
    var sorted := Sort(scores, atMost);
    SortSorts(scores, atMost);
    assert forall i, j :: 0 <= i < j < |sorted| ==> atMost(sorted[i], sorted[j]);
    DistinctKeeps(sorted);
    forall x
      ensures x in sorted <==> x in scores
    {
      assert x in multiset(sorted) <==> x in multiset(scores);
    }
  }

  // ----- The scan -----

  /** No threshold within the budget, listed or not, flags more positives than `best`. */
  ghost predicate Optimal(scores: seq<real>, positive: seq<bool>, budget: real, best: Option<real>)
    requires |scores| == |positive|
  {
    forall t: real :: WithinBudget(scores, positive, Some(t), budget) ==>
      Flagged(scores, positive, t, true) <= FlaggedAt(scores, positive, best, true)
  }

  /** The last listed threshold before position `k`. */
  function Best(thresholds: seq<real>, k: nat): Option<real>
    requires k <= |thresholds|
  {
    if k == 0 then None else Some(thresholds[k - 1])
  }

  /** A threshold above the one at `k` flags no more than the listed threshold before it. */
  lemma AboveFlagsNoMore(scores: seq<real>, positive: seq<bool>, thresholds: seq<real>, k: nat, t: real)
    requires |scores| == |positive| && StrictlyDescending(thresholds) && k <= |thresholds|
    requires forall x :: x in scores ==> x in thresholds
    requires k < |thresholds| ==> t > thresholds[k]
    ensures Flagged(scores, positive, t, true) <= FlaggedAt(scores, positive, Best(thresholds, k), true)
  {
    forall i | 0 <= i < |scores| && scores[i] >= t
      ensures k > 0 && scores[i] >= thresholds[k - 1]
    {
      assert scores[i] in thresholds;
      var j :| 0 <= j < |thresholds| && thresholds[j] == scores[i];
      assert j < k;
    }
    if k == 0 {
      NoneFlagged(scores, positive, t, true);
    } else if t <= thresholds[k - 1] {
      GapFlagsSame(scores, positive, t, thresholds[k - 1], true);
    } else {
      LowerFlagsMore(scores, positive, thresholds[k - 1], t, true);
    }
  }

  /** Stopping at the first threshold over the budget skips nothing within it. */
  lemma StopIsOptimal(scores: seq<real>, positive: seq<bool>, thresholds: seq<real>, k: nat, budget: real)
    requires |scores| == |positive| && StrictlyDescending(thresholds) && k <= |thresholds|
    requires forall x :: x in scores ==> x in thresholds
    requires k < |thresholds| ==> !WithinBudget(scores, positive, Some(thresholds[k]), budget)
    ensures Optimal(scores, positive, budget, Best(thresholds, k))
  {
    forall t: real | WithinBudget(scores, positive, Some(t), budget)
      ensures Flagged(scores, positive, t, true) <= FlaggedAt(scores, positive, Best(thresholds, k), true)
    {
      if k < |thresholds| && t <= thresholds[k] {
        LowerFlagsMore(scores, positive, t, thresholds[k], false);
        LargerRatio(Flagged(scores, positive, thresholds[k], false), Flagged(scores, positive, t, false),
                    Count(positive, false));
        assert false;
      }
      AboveFlagsNoMore(scores, positive, thresholds, k, t);
    }
  }

  lemma LargerRatio(a: nat, b: nat, denominator: nat)
    requires a <= b && denominator > 0
    ensures a as real / denominator as real <= b as real / denominator as real
  {
  }

  method CountFlagged(scores: seq<real>, positive: seq<bool>, threshold: real) returns (hits: nat, alarms: nat)
    requires |scores| == |positive|
    ensures hits == Flagged(scores, positive, threshold, true)
    ensures alarms == Flagged(scores, positive, threshold, false)
  {
    hits, alarms := 0, 0;
    for i := |scores| downto 0
      invariant hits == Flagged(scores[i..], positive[i..], threshold, true)
      invariant alarms == Flagged(scores[i..], positive[i..], threshold, false)
    {
      assert scores[i..][1..] == scores[i + 1..] && positive[i..][1..] == positive[i + 1..];
      if scores[i] >= threshold {
        if positive[i] {
          hits := hits + 1;
        } else {
          alarms := alarms + 1;
        }
      }
    }
    assert scores[0..] == scores && positive[0..] == positive;
  }

  /** The scan of `recall_at_false_positive_rate`. The point it returns keeps to the budget except that with a
      negative budget nothing does, and then it flags nothing. */
  method RecallAtFalsePositiveRate(scores: seq<real>, positive: seq<bool>, budget: real)
    returns (r: Result<FixedRatePoint, Failure>)
    ensures r.Err? <==> scores != [] && |scores| != |positive|
    ensures r.Ok? && |scores| == |positive| ==>
              && var best := r.value.threshold;
              && r.value == PointAt(scores, positive, best)
              && (best.Some? ==> best.value in scores)
              && Optimal(scores, positive, budget, best)
              && (WithinBudget(scores, positive, best, budget) <==> budget >= 0.0 || Count(positive, false) == 0)
  {
    var nPos := CountPositive(positive);
    CountsSplit(positive);
    var nNeg := |positive| - nPos;
    var best := FixedRatePoint(None, Ratio(0, nPos), Ratio(0, nNeg));
    if |scores| != |positive| {
      return if scores == [] then Ok(best) else Err(LengthsDiffer);
    }
    var thresholds := Descending(scores);
    DescendingLists(scores);
    var k := 0;
    while k < |thresholds|
      invariant k <= |thresholds|
      invariant best == PointAt(scores, positive, Best(thresholds, k))
      invariant k > 0 ==> WithinBudget(scores, positive, Best(thresholds, k), budget)
    {
      var hits, alarms := CountFlagged(scores, positive, thresholds[k]);
      var fpr := Ratio(alarms, nNeg);
      if fpr.Some? && fpr.value > budget {
        break;
      }
      best := FixedRatePoint(Some(thresholds[k]), Ratio(hits, nPos), fpr);
      k := k + 1;
    }
    StopIsOptimal(scores, positive, thresholds, k, budget);
    BudgetMet(scores, positive, Best(thresholds, k), budget);
    assert k > 0 ==> thresholds[k - 1] in thresholds;
    return Ok(best);
  }

  /** A listed threshold that meets the budget shows that it is not negative; flagging nothing costs nothing. */
  lemma BudgetMet(scores: seq<real>, positive: seq<bool>, best: Option<real>, budget: real)
    requires |scores| == |positive| && (best.Some? ==> WithinBudget(scores, positive, best, budget))
    ensures WithinBudget(scores, positive, best, budget) <==> budget >= 0.0 || Count(positive, false) == 0
  {
    if Count(positive, false) > 0 {
      RatioSign(FlaggedAt(scores, positive, best, false), Count(positive, false));
    }
  }

  lemma RatioSign(a: nat, denominator: nat)
    requires denominator > 0
    ensures a as real / denominator as real >= 0.0
  {
  }
}
