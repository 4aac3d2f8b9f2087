/** A stable sort by any total preorder: what the source's `sorted` and `list.sort` compute. */
module Sorting {

  ghost predicate TotalPreorder<T(!new)>(atMost: (T, T) -> bool) {
    && (forall a, b :: atMost(a, b) || atMost(b, a))
    && forall a, b, c :: atMost(a, b) && atMost(b, c) ==> atMost(a, c)
  }

  ghost predicate SortedBy<T>(atMost: (T, T) -> bool, s: seq<T>) {
    forall i, j :: 0 <= i < j < |s| ==> atMost(s[i], s[j])
  }

  /** `x` goes after the elements that may precede it. */
  function Insert<T>(x: T, sorted: seq<T>, atMost: (T, T) -> bool): seq<T> {
    if sorted == [] || !atMost(sorted[0], x) then [x] + sorted
    else [sorted[0]] + Insert(x, sorted[1..], atMost)
  }

  function Sort<T>(s: seq<T>, atMost: (T, T) -> bool): seq<T> {
    if s == [] then [] else Insert(s[|s| - 1], Sort(s[..|s| - 1], atMost), atMost)
  }

  lemma {:induction false} InsertKeeps<T(!new)>(x: T, sorted: seq<T>, atMost: (T, T) -> bool)
    requires TotalPreorder(atMost) && SortedBy(atMost, sorted)
    ensures SortedBy(atMost, Insert(x, sorted, atMost))
    ensures multiset(Insert(x, sorted, atMost)) == multiset(sorted) + multiset{x}
  {
    if sorted == [] || !atMost(sorted[0], x) {
      forall j | 0 <= j < |sorted|
        ensures atMost(x, sorted[j])
      {
        assert j == 0 || atMost(sorted[0], sorted[j]);
      }
    } else {
      var tail := Insert(x, sorted[1..], atMost);
      InsertKeeps(x, sorted[1..], atMost);
      assert sorted == [sorted[0]] + sorted[1..];
      forall k | 0 <= k < |tail|
        ensures atMost(sorted[0], tail[k])
      {
        assert tail[k] in multiset(tail);
        assert tail[k] == x || tail[k] in sorted[1..];
      }
    }
  }

  lemma {:induction false} SortSorts<T(!new)>(s: seq<T>, atMost: (T, T) -> bool)
    requires TotalPreorder(atMost)
    ensures SortedBy(atMost, Sort(s, atMost))
    ensures multiset(Sort(s, atMost)) == multiset(s)
    ensures |Sort(s, atMost)| == |s|
  {
    if s != [] {
      var front := s[..|s| - 1];
      assert s == front + [s[|s| - 1]];
      SortSorts(front, atMost);
      InsertKeeps(s[|s| - 1], Sort(front, atMost), atMost);
    }
    assert |multiset(Sort(s, atMost))| == |multiset(s)|;
  }

  lemma TakesOne<T>(s: seq<T>, k: nat)
    requires k < |s|
    ensures multiset(s) == multiset(s[..k] + s[k + 1..]) + multiset{s[k]}
  {
    assert s == s[..k] + ([s[k]] + s[k + 1..]);
  }
}
