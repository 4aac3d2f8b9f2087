/** Rank statistics: AUROC by mid-ranks against pair counting. */
module Metrics {
  import opened Sorting
  import opened Wrappers

  // ----- Pair counting: what AUROC means -----

  /** Twice the credit `x` earns against `y`: 2 above, 1 tied, 0 below. */
  function Beats(x: real, y: real): nat {
    if x > y then 2 else if x == y then 1 else 0
  }

  function Against(x: real, ys: seq<real>): nat {
    if ys == [] then 0 else Beats(x, ys[0]) + Against(x, ys[1..])
  }

  /** Over all pairs: twice the pairs won plus the pairs tied. */
  function Wins(xs: seq<real>, ys: seq<real>): nat {
    if xs == [] then 0 else Against(xs[0], ys) + Wins(xs[1..], ys)
  }

  /** The scores of the items with the given label. */
  function Labelled(scores: seq<real>, positive: seq<bool>, side: bool): seq<real>
    requires |scores| == |positive|
  {
    if scores == [] then []
    else (if positive[0] == side then [scores[0]] else []) + Labelled(scores[1..], positive[1..], side)
  }

  function Count(positive: seq<bool>, side: bool): nat {
    if positive == [] then 0 else (if positive[0] == side then 1 else 0) + Count(positive[1..], side)
  }

  /** (pairs with the positive above + half the tied pairs) / all positive-negative pairs. */
  function PairAuroc(scores: seq<real>, positive: seq<bool>): Option<real>
    requires |scores| == |positive|
  {
    var p, n := Labelled(scores, positive, true), Labelled(scores, positive, false);
    if p == [] || n == [] then None else Some(Wins(p, n) as real / (2 * |p| * |n|) as real)
  }

  lemma {:induction false} LabelledCount(scores: seq<real>, positive: seq<bool>, side: bool)
    requires |scores| == |positive|
    ensures |Labelled(scores, positive, side)| == Count(positive, side)
  {
    if scores != [] {
      LabelledCount(scores[1..], positive[1..], side);
    }
  }

  lemma {:induction false} CountsSplit(positive: seq<bool>)
    ensures Count(positive, true) + Count(positive, false) == |positive|
  {
    if positive != [] {
      CountsSplit(positive[1..]);
    }
  }

  // ----- Sums over pairs -----

  lemma {:induction false} AgainstConcat(x: real, a: seq<real>, b: seq<real>)
    ensures Against(x, a + b) == Against(x, a) + Against(x, b)
  {
    if a == [] {
      assert a + b == b;
    } else {
      assert (a + b)[1..] == a[1..] + b;
      AgainstConcat(x, a[1..], b);
    }
  }

  lemma {:induction false} AgainstSplits(x: real, scores: seq<real>, positive: seq<bool>)
    requires |scores| == |positive|
    ensures Against(x, scores)
         == Against(x, Labelled(scores, positive, true)) + Against(x, Labelled(scores, positive, false))
  {
    if scores != [] {
      AgainstSplits(x, scores[1..], positive[1..]);
      var others := Labelled(scores[1..], positive[1..], positive[0]);
      assert Labelled(scores, positive, positive[0]) == [scores[0]] + others;
      assert Labelled(scores, positive, !positive[0]) == Labelled(scores[1..], positive[1..], !positive[0]);
      assert ([scores[0]] + others)[1..] == others;
    }
  }

  lemma {:induction false} WinsSplits(xs: seq<real>, scores: seq<real>, positive: seq<bool>)
    requires |scores| == |positive|
    ensures Wins(xs, scores) == Wins(xs, Labelled(scores, positive, true)) + Wins(xs, Labelled(scores, positive, false))
  {
    if xs != [] {
      AgainstSplits(xs[0], scores, positive);
      WinsSplits(xs[1..], scores, positive);
    }
  }

  /** The wins of every `x` in `xs` against one more opponent. */
  lemma {:induction false} WinsOneMore(xs: seq<real>, y: real, ys: seq<real>)
    ensures Wins(xs, [y] + ys) == Wins(xs, [y]) + Wins(xs, ys)
  {
    if xs != [] {
      AgainstConcat(xs[0], [y], ys);
      WinsOneMore(xs[1..], y, ys);
    }
  }

  lemma {:induction false} OneOnMany(x: real, ys: seq<real>)
    ensures Against(x, ys) + Wins(ys, [x]) == 2 * |ys|
  {
    if ys != [] {
      OneOnMany(x, ys[1..]);
      assert Against(ys[0], [x]) == Beats(ys[0], x);
    }
  }

  /** Every pair hands out two points, whichever side it is counted from. */
  lemma {:induction false} WinsAndLosses(xs: seq<real>, ys: seq<real>)
    ensures Wins(xs, ys) + Wins(ys, xs) == 2 * |xs| * |ys|
  {
    if xs == [] {
      NoOpponents(ys);
    } else {
      assert xs == [xs[0]] + xs[1..];
      WinsAndLosses(xs[1..], ys);
      WinsOneMore(ys, xs[0], xs[1..]);
      OneOnMany(xs[0], ys);
      var m, n := |xs| - 1, |ys|;
      assert 2 * (m + 1) * n == 2 * m * n + 2 * n;
    }
  }

  lemma {:induction false} NoOpponents(xs: seq<real>)
    ensures Wins(xs, []) == 0
  {
    if xs != [] {
      NoOpponents(xs[1..]);
    }
  }

  // ----- Mid-ranks -----

  /** Twice the mid-rank of a score among `scores`. */
  function DoubleRank(x: real, scores: seq<real>): nat {
    Against(x, scores) + 1
  }

  /** The score at a position; 0 past the end, which is never asked. */
  function ScoreAt(scores: seq<real>, i: nat): real {
    if i < |scores| then scores[i] else 0.0
  }

  /** `Against` over chosen positions of `scores`. */
  function AgainstAt(x: real, scores: seq<real>, at: seq<nat>): nat {
    if at == [] then 0 else Beats(x, ScoreAt(scores, at[0])) + AgainstAt(x, scores, at[1..])
  }

  lemma {:induction false} AgainstAtConcat(x: real, scores: seq<real>, a: seq<nat>, b: seq<nat>)
    ensures AgainstAt(x, scores, a + b) == AgainstAt(x, scores, a) + AgainstAt(x, scores, b)
  {
    if a == [] {
      assert a + b == b;
    } else {
      assert (a + b)[1..] == a[1..] + b;
      AgainstAtConcat(x, scores, a[1..], b);
    }
  }

  lemma AgainstAtTakes(x: real, scores: seq<real>, at: seq<nat>, k: nat)
    requires k < |at|
    ensures AgainstAt(x, scores, at) == AgainstAt(x, scores, at[..k] + at[k + 1..]) + Beats(x, ScoreAt(scores, at[k]))
  {
    assert at == at[..k] + ([at[k]] + at[k + 1..]);
    assert ([at[k]] + at[k + 1..])[1..] == at[k + 1..];
    AgainstAtConcat(x, scores, at[..k], [at[k]] + at[k + 1..]);
    AgainstAtConcat(x, scores, at[..k], at[k + 1..]);
  }

  lemma {:induction false} AgainstAtPermuted(x: real, scores: seq<real>, a: seq<nat>, b: seq<nat>)
    requires multiset(a) == multiset(b)
    ensures AgainstAt(x, scores, a) == AgainstAt(x, scores, b)
  {
    if a == [] {
      assert |multiset(b)| == |b| == 0;
    } else {
      assert a[0] in multiset(b);
      var k :| 0 <= k < |b| && b[k] == a[0];
      TakesOne(a, 0);
      TakesOne(b, k);
      assert a[..0] + a[0 + 1..] == a[1..];
      assert multiset(a[1..]) == multiset(a) - multiset{a[0]};
      assert multiset(b[..k] + b[k + 1..]) == multiset(b) - multiset{b[k]};
      AgainstAtTakes(x, scores, b, k);
      AgainstAtPermuted(x, scores, a[1..], b[..k] + b[k + 1..]);
    }
  }

  function Positions(from: nat, to: nat): seq<nat>
    requires from <= to
  {
    seq(to - from, i requires 0 <= i < to - from => from + i)
  }

  lemma {:induction false} AgainstAll(x: real, scores: seq<real>, from: nat)
    requires from <= |scores|
    ensures AgainstAt(x, scores, Positions(from, |scores|)) == Against(x, scores[from..])
    decreases |scores| - from
  {
    if from < |scores| {
      assert Positions(from, |scores|)[1..] == Positions(from + 1, |scores|);
      assert scores[from..][1..] == scores[from + 1..];
      AgainstAll(x, scores, from + 1);
    }
  }

  lemma {:induction false} AllWorth(x: real, scores: seq<real>, at: seq<nat>, worth: nat)
    requires forall k :: 0 <= k < |at| ==> Beats(x, ScoreAt(scores, at[k])) == worth
    ensures AgainstAt(x, scores, at) == worth * |at|
  {
    if at != [] {
      AllWorth(x, scores, at[1..], worth);
      assert worth * |at| == worth + worth * (|at| - 1);
    }
  }

  // ----- The sorted order and its tie blocks -----

  function ByScore(scores: seq<real>): seq<nat> {
    Sort(Positions(0, |scores|), (i: nat, j: nat) => ScoreAt(scores, i) <= ScoreAt(scores, j))
  }

  /** `order` lists every position once, by ascending score. */
  ghost predicate IsOrder(scores: seq<real>, order: seq<nat>) {
    && |order| == |scores|
    && multiset(order) == multiset(Positions(0, |scores|))
    && (forall k :: 0 <= k < |order| ==> order[k] < |scores|)
    && forall j, k :: 0 <= j < k < |order| ==> ScoreAt(scores, order[j]) <= ScoreAt(scores, order[k])
  }

  lemma ByScoreIsOrder(scores: seq<real>)
    ensures IsOrder(scores, ByScore(scores))
  {
    var atMost := (i: nat, j: nat) => ScoreAt(scores, i) <= ScoreAt(scores, j);
    var order, all := Sort(Positions(0, |scores|), atMost), Positions(0, |scores|);
    assert order == ByScore(scores);
    SortSorts(all, atMost);
    forall k | 0 <= k < |order|
      ensures order[k] < |scores|
    {
      assert order[k] in multiset(all);
      var i :| 0 <= i < |all| && all[i] == order[k];
    }
    forall j, k | 0 <= j < k < |order|
      ensures ScoreAt(scores, order[j]) <= ScoreAt(scores, order[k])
    {
      assert atMost(order[j], order[k]);
    }
  }

  lemma OrderListsAll(scores: seq<real>, order: seq<nat>, i: nat) returns (k: nat)
    requires IsOrder(scores, order) && i < |scores|
    ensures k < |order| && order[k] == i
  {
    assert Positions(0, |scores|)[i] == i;
    assert i in multiset(Positions(0, |scores|));
    assert i in multiset(order);
    k :| 0 <= k < |order| && order[k] == i;
  }

  /** The block from `start` to `end` of the order holds exactly the scores equal to `x`. */
  predicate IsBlock(scores: seq<real>, order: seq<nat>, start: nat, end: nat, x: real) {
    && start <= end < |order|
    && (forall k :: 0 <= k < start ==> ScoreAt(scores, order[k]) < x)
    && (forall k :: start <= k <= end ==> ScoreAt(scores, order[k]) == x)
    && (forall k :: end < k < |order| ==> ScoreAt(scores, order[k]) > x)
  }

  /** The mid-rank of a tie block is the mid-rank of each score in it. */
  lemma BlockRank(scores: seq<real>, order: seq<nat>, start: nat, end: nat, x: real)
    requires IsOrder(scores, order) && IsBlock(scores, order, start, end, x)
    ensures DoubleRank(x, scores) == start + end + 2
  {
    var below, same, above := order[..start], order[start..end + 1], order[end + 1..];
    assert order == below + (same + above);
    AllWorth(x, scores, below, 2);
    AllWorth(x, scores, same, 1);
    AllWorth(x, scores, above, 0);
    AgainstAtConcat(x, scores, same, above);
    AgainstAtConcat(x, scores, below, same + above);
    AgainstAtPermuted(x, scores, order, Positions(0, |scores|));
    AgainstAll(x, scores, 0);
    assert scores[0..] == scores;
  }

  // ----- Rank sums -----

  function RankOf(scores: seq<real>, i: nat): real {
    DoubleRank(ScoreAt(scores, i), scores) as real / 2.0
  }

  /** The rank sum of the positive items up to `n`. */
  function RankSum(scores: seq<real>, positive: seq<bool>, n: nat): real
    requires |scores| == |positive| && n <= |scores|
  {
    if n == 0 then 0.0
    else RankSum(scores, positive, n - 1) + if positive[n - 1] then RankOf(scores, n - 1) else 0.0
  }

  lemma {:induction false} LabelledLast(scores: seq<real>, positive: seq<bool>, side: bool)
    requires |scores| == |positive| > 0
    ensures var n := |scores| - 1;
            Labelled(scores, positive, side)
            == Labelled(scores[..n], positive[..n], side) + if positive[n] == side then [scores[n]] else []
  {
    var n := |scores| - 1;
    if n > 0 {
      assert scores[1..][..n - 1] == scores[..n][1..] && positive[1..][..n - 1] == positive[..n][1..];
      LabelledLast(scores[1..], positive[1..], side);
    }
  }

  lemma {:induction false} WinsLast(xs: seq<real>, x: real, ys: seq<real>)
    ensures Wins(xs + [x], ys) == Wins(xs, ys) + Against(x, ys)
  {
    if xs == [] {
      assert xs + [x] == [x];
    } else {
      assert (xs + [x])[1..] == xs[1..] + [x];
      WinsLast(xs[1..], x, ys);
    }
  }

  lemma {:induction false} RankSumIsWins(scores: seq<real>, positive: seq<bool>, n: nat)
    requires |scores| == |positive| && n <= |scores|
    ensures var p := Labelled(scores[..n], positive[..n], true);
            RankSum(scores, positive, n) == (Wins(p, scores) + |p|) as real / 2.0
  {
    if n > 0 {
      RankSumIsWins(scores, positive, n - 1);
      assert scores[..n][..n - 1] == scores[..n - 1] && positive[..n][..n - 1] == positive[..n - 1];
      LabelledLast(scores[..n], positive[..n], true);
      var before := Labelled(scores[..n - 1], positive[..n - 1], true);
      WinsLast(before, scores[n - 1], scores);
      if positive[n - 1] {
        assert Labelled(scores[..n], positive[..n], true) == before + [scores[n - 1]];
        assert RankOf(scores, n - 1) == (Against(scores[n - 1], scores) + 1) as real / 2.0;
      } else {
        assert Labelled(scores[..n], positive[..n], true) == before;
      }
    }
  }

  /** The Mann-Whitney form: the positives' rank sum less its least possible value counts the pairs won. */
  lemma RankSumCountsPairs(scores: seq<real>, positive: seq<bool>)
    requires |scores| == |positive|
    ensures var p, n := Labelled(scores, positive, true), Labelled(scores, positive, false);
            RankSum(scores, positive, |scores|) - (|p| * (|p| + 1)) as real / 2.0 == Wins(p, n) as real / 2.0
  {
    var p, n := Labelled(scores, positive, true), Labelled(scores, positive, false);
    RankSumIsWins(scores, positive, |scores|);
    assert scores[..|scores|] == scores && positive[..|scores|] == positive;
    WinsSplits(p, scores, positive);
    WinsAndLosses(p, p);
    HalfSquares(Wins(p, p), |p|, Wins(p, n));
  }

  lemma HalfSquares(own: nat, k: nat, others: nat)
    requires own + own == 2 * k * k
    ensures (own + others + k) as real / 2.0 - (k * (k + 1)) as real / 2.0 == others as real / 2.0
  {
    assert 2 * k * k == k * k + k * k;
    assert k * (k + 1) == k * k + k;
  }

  // ----- The algorithm -----

  /** `zip(strict=True)` refuses sequences of different lengths. */
  datatype Failure = LengthsDiffer

  method CountPositive(positive: seq<bool>) returns (n: nat)
    ensures n == Count(positive, true)
  {
    n := 0;
    for i := |positive| downto 0
      invariant n == Count(positive[i..], true)
    {
      assert positive[i..][1..] == positive[i + 1..];
      if positive[i] {
        n := n + 1;
      }
    }
    assert positive[0..] == positive;
  }

  /** The ranks of every position, ties sharing the middle of their block. */
  method MidRanks(scores: seq<real>) returns (ranks: array<real>)
    ensures fresh(ranks) && ranks.Length == |scores|
    ensures forall i :: 0 <= i < |scores| ==> ranks[i] == RankOf(scores, i)
  {
    var order := ByScore(scores);
    ByScoreIsOrder(scores);
    ranks := new real[|scores|];
    var start := 0;
    while start < |order|
      invariant start <= |order|
      invariant 0 < start < |order| ==> ScoreAt(scores, order[start - 1]) < ScoreAt(scores, order[start])
      invariant forall k :: 0 <= k < start ==> ranks[order[k]] == RankOf(scores, order[k])
    {
      var end := start;
      ghost var x := scores[order[start]];
      while end + 1 < |order| && scores[order[end + 1]] == scores[order[start]]
        invariant start <= end < |order|
        invariant forall k :: start <= k <= end ==> ScoreAt(scores, order[k]) == x
      {
        end := end + 1;
      }
      assert IsBlock(scores, order, start, end, x) by {
        assert forall k :: 0 <= k < start ==> ScoreAt(scores, order[k]) <= ScoreAt(scores, order[start - 1]);
        assert forall k :: end < k < |order| ==> ScoreAt(scores, order[end + 1]) <= ScoreAt(scores, order[k]);
      }
      BlockRank(scores, order, start, end, x);
      for j := start to end + 1
        invariant forall k :: 0 <= k < j ==> ranks[order[k]] == RankOf(scores, order[k])
      {
        assert RankOf(scores, order[j]) == (start + end + 2) as real / 2.0;
        ranks[order[j]] := (start + end) as real / 2.0 + 1.0;
      }
      start := end + 1;
    }
    forall i | 0 <= i < |scores|
      ensures ranks[i] == RankOf(scores, i)
    {
      var k := OrderListsAll(scores, order, i);
    }
  }

  method Auroc(scores: seq<real>, positive: seq<bool>) returns (r: Result<Option<real>, Failure>)
    ensures Count(positive, true) == 0 || Count(positive, false) == 0 ==> r == Ok(None)
    ensures Count(positive, true) > 0 && Count(positive, false) > 0 ==>
              r == if |scores| == |positive| then Ok(PairAuroc(scores, positive)) else Err(LengthsDiffer)
  {
    var nPos := CountPositive(positive);
    CountsSplit(positive);
    var nNeg := |positive| - nPos;
    if nPos == 0 || nNeg == 0 {
      return Ok(None);
    }
    var ranks := MidRanks(scores);
    if |scores| != |positive| {
      return Err(LengthsDiffer);
    }
    var positiveRanks := 0.0;
    for i := 0 to |scores|
      invariant positiveRanks == RankSum(scores, positive, i)
    {
      if positive[i] {
        positiveRanks := positiveRanks + ranks[i];
      }
    }
    r := Ok(Some((positiveRanks - (nPos * (nPos + 1)) as real / 2.0) / (nPos * nNeg) as real));
    RankSumIsAuroc(scores, positive, nPos, nNeg);
  }

  lemma RankSumIsAuroc(scores: seq<real>, positive: seq<bool>, nPos: nat, nNeg: nat)
    requires |scores| == |positive| && nPos == Count(positive, true) > 0 && nNeg == Count(positive, false) > 0
    ensures nPos * nNeg > 0
    ensures PairAuroc(scores, positive)
         == Some((RankSum(scores, positive, |scores|) - (nPos * (nPos + 1)) as real / 2.0) / (nPos * nNeg) as real)
  {
    LabelledCount(scores, positive, true);
    LabelledCount(scores, positive, false);
    RankSumCountsPairs(scores, positive);
    PositiveProduct(nPos, nNeg);
    var wins := Wins(Labelled(scores, positive, true), Labelled(scores, positive, false));
    HalveRatio(wins, nPos, nNeg, RankSum(scores, positive, |scores|) - (nPos * (nPos + 1)) as real / 2.0);
  }

  lemma HalveRatio(wins: nat, p: nat, n: nat, half: real)
    requires p * n > 0 && half == wins as real / 2.0
    ensures 2 * p * n > 0
    ensures wins as real / (2 * p * n) as real == half / (p * n) as real
  {
    assert 2 * p * n == 2 * (p * n);
    Halve(wins as real, (p * n) as real);
  }

  lemma PositiveProduct(a: nat, b: nat)
    requires a > 0 && b > 0
    ensures a * b > 0
  {
  }

  lemma Halve(a: real, b: real)
    requires b > 0.0
    ensures (a / 2.0) / b == a / (2.0 * b)
  {
  }

  // ----- What AUROC promises -----

  /** Flipping the labels swaps the two sides. */
  lemma {:induction false} LabelledFlipped(scores: seq<real>, positive: seq<bool>, flipped: seq<bool>, side: bool)
    requires |scores| == |positive| == |flipped| && forall i :: 0 <= i < |positive| ==> flipped[i] == !positive[i]
    ensures Labelled(scores, flipped, side) == Labelled(scores, positive, !side)
  {
    if scores != [] {
      LabelledFlipped(scores[1..], positive[1..], flipped[1..], side);
    }
  }

  /** AUROC is a probability, and calling the negatives positive turns it into its complement. */
  lemma AurocIsProbability(scores: seq<real>, positive: seq<bool>, flipped: seq<bool>)
    requires |scores| == |positive| == |flipped| && forall i :: 0 <= i < |positive| ==> flipped[i] == !positive[i]
    ensures PairAuroc(scores, positive).Some? <==> PairAuroc(scores, flipped).Some?
    ensures PairAuroc(scores, positive).Some? ==>
              && 0.0 <= PairAuroc(scores, positive).value <= 1.0
              && PairAuroc(scores, flipped).value == 1.0 - PairAuroc(scores, positive).value
  {
    var p, n := Labelled(scores, positive, true), Labelled(scores, positive, false);
    LabelledFlipped(scores, positive, flipped, true);
    LabelledFlipped(scores, positive, flipped, false);
    if p != [] && n != [] {
      WinsAreShares(p, n);
    }
  }

  /** The two sides' shares of the pairs add up to one. */
  lemma WinsAreShares(p: seq<real>, n: seq<real>)
    requires p != [] && n != []
    ensures 2 * |p| * |n| > 0 && 2 * |n| * |p| > 0
    ensures 0.0 <= Wins(p, n) as real / (2 * |p| * |n|) as real <= 1.0
    ensures Wins(n, p) as real / (2 * |n| * |p|) as real == 1.0 - Wins(p, n) as real / (2 * |p| * |n|) as real
  {
    WinsAndLosses(p, n);
    Commutes(|p|, |n|);
    Complement(Wins(p, n), Wins(n, p), 2 * |p| * |n|);
  }

  lemma Commutes(a: nat, b: nat)
    requires a > 0 && b > 0
    ensures 2 * a * b == 2 * b * a > 0
  {
    PositiveProduct(a, b);
  }

  lemma Complement(a: nat, b: nat, total: nat)
    requires a + b == total && total > 0
    ensures 0.0 <= a as real / total as real <= 1.0
    ensures b as real / total as real == 1.0 - a as real / total as real
  {
    var t, q := total as real, a as real / total as real;
    assert q * t == a as real;
    assert (1.0 - q) * t == t - a as real == b as real;
    Quotient(b as real, t, 1.0 - q);
  }

  lemma Quotient(x: real, t: real, q: real)
    requires t > 0.0 && q * t == x
    ensures x / t == q
  {
  }

  lemma {:induction false} WinsAllIff(x: real, ys: seq<real>)
    ensures Against(x, ys) <= 2 * |ys|
    ensures Against(x, ys) == 2 * |ys| <==> forall j :: 0 <= j < |ys| ==> x > ys[j]
  {
    if ys != [] {
      WinsAllIff(x, ys[1..]);
      assert forall j :: 0 < j < |ys| ==> ys[j] == ys[1..][j - 1];
    }
  }

  /** Every one of `xs` is above every one of `ys`. */
  predicate Separated(xs: seq<real>, ys: seq<real>) {
    forall i, j :: 0 <= i < |xs| && 0 <= j < |ys| ==> xs[i] > ys[j]
  }

  lemma {:induction false} SweepsIff(xs: seq<real>, ys: seq<real>)
    ensures Wins(xs, ys) <= 2 * |xs| * |ys|
    ensures Wins(xs, ys) == 2 * |xs| * |ys| <==> Separated(xs, ys)
  {
    if xs != [] {
      WinsAllIff(xs[0], ys);
      SweepsIff(xs[1..], ys);
      var m, n := |xs| - 1, |ys|;
      assert 2 * (m + 1) * n == 2 * m * n + 2 * n;
      assert forall i :: 0 < i < |xs| ==> xs[i] == xs[1..][i - 1];
    }
  }

  /** A perfect AUROC means every positive scores above every negative, and nothing less. */
  lemma PerfectIffSeparated(scores: seq<real>, positive: seq<bool>)
    requires |scores| == |positive| && PairAuroc(scores, positive).Some?
    ensures PairAuroc(scores, positive).value == 1.0 <==>
              Separated(Labelled(scores, positive, true), Labelled(scores, positive, false))
  {
    var p, n := Labelled(scores, positive, true), Labelled(scores, positive, false);
    var pairs := 2 * |p| * |n|;
    PositiveProduct(2 * |p|, |n|);
    assert PairAuroc(scores, positive).value == Wins(p, n) as real / pairs as real;
    WholeIff(Wins(p, n), pairs);
    SweepsIff(p, n);
  }

  lemma WholeIff(a: nat, total: nat)
    requires total > 0
    ensures a as real / total as real == 1.0 <==> a == total
  {
    if a as real / total as real == 1.0 {
      assert a as real == 1.0 * total as real;
    }
  }
}
