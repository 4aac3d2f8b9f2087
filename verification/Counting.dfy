/** How many elements of a sequence satisfy a predicate. */
module Counting {
  import opened Sorting

  function CountIf<T>(s: seq<T>, p: T -> bool): nat {
    if s == [] then 0 else CountIf(s[..|s| - 1], p) + if p(s[|s| - 1]) then 1 else 0
  }

  /** One key of the difference of two counters, which drops what is not positive. */
  function Minus(a: nat, b: nat): nat {
    if a > b then a - b else 0
  }

  lemma CountIfAppend<T>(s: seq<T>, x: T, p: T -> bool)
    ensures CountIf(s + [x], p) == CountIf(s, p) + if p(x) then 1 else 0
  {
    assert (s + [x])[..|s|] == s;
  }

  lemma {:induction false} CountIfConcat<T>(a: seq<T>, b: seq<T>, p: T -> bool)
    ensures CountIf(a + b, p) == CountIf(a, p) + CountIf(b, p)
  {
    if b == [] {
      assert a + b == a;
    } else {
      assert (a + b)[..|a + b| - 1] == a + b[..|b| - 1];
      CountIfConcat(a, b[..|b| - 1], p);
    }
  }

  lemma CountIfTakes<T>(s: seq<T>, k: nat, p: T -> bool)
    requires k < |s|
    ensures CountIf(s, p) == CountIf(s[..k] + s[k + 1..], p) + if p(s[k]) then 1 else 0
  {
    var a, x, b := s[..k], s[k], s[k + 1..];
    assert s == (a + [x]) + b;
    CountIfConcat(a + [x], b, p);
    CountIfAppend(a, x, p);
    CountIfConcat(a, b, p);
  }

  lemma {:induction false} CountIfNone<T>(s: seq<T>, p: T -> bool)
    requires CountIf(s, p) == 0
    ensures forall i :: 0 <= i < |s| ==> !p(s[i])
  {
    if s != [] {
      CountIfNone(s[..|s| - 1], p);
    }
  }

  lemma CountIfFinds<T>(s: seq<T>, p: T -> bool) returns (k: nat)
    requires CountIf(s, p) > 0
    ensures k < |s| && p(s[k])
  {
    k := |s| - 1;
    if !p(s[k]) {
      k := CountIfFinds(s[..|s| - 1], p);
    }
  }

  /** Taking one equal element from each of two permutations leaves permutations. */
  lemma PermutedTakes<T>(a: seq<T>, b: seq<T>) returns (k: nat)
    requires a != [] && multiset(a) == multiset(b)
    ensures k < |b| && b[k] == a[|a| - 1]
    ensures multiset(a[..|a| - 1]) == multiset(b[..k] + b[k + 1..])
  {
    var n := |a| - 1;
    assert a[n] in multiset(b);
    k :| 0 <= k < |b| && b[k] == a[n];
    TakesOne(a, n);
    TakesOne(b, k);
    assert a[..n] + a[n + 1..] == a[..n];
    assert multiset(a[..n]) == multiset(a) - multiset{a[n]};
    assert multiset(b[..k] + b[k + 1..]) == multiset(b) - multiset{b[k]};
  }

  lemma {:induction false} CountIfPermuted<T>(a: seq<T>, b: seq<T>, p: T -> bool)
    requires multiset(a) == multiset(b)
    ensures CountIf(a, p) == CountIf(b, p)
  {
    if a == [] {
      assert |multiset(b)| == |b| == 0;
    } else {
      var k := PermutedTakes(a, b);
      CountIfPermuted(a[..|a| - 1], b[..k] + b[k + 1..], p);
      CountIfTakes(b, k, p);
    }
  }
}
