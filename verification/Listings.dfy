/** The elements of a sequence as a set, and sequences that list a set. */
module Listings {

  function Elements<T>(s: seq<T>): set<T> {
    set i | 0 <= i < |s| :: s[i]
  }

  predicate Distinct<T(==)>(s: seq<T>) {
    forall i, j :: 0 <= i < j < |s| ==> s[i] != s[j]
  }

  lemma Position<T>(s: seq<T>, x: T) returns (i: nat)
    requires x in Elements(s)
    ensures i < |s| && s[i] == x
  {
    i :| 0 <= i < |s| && s[i] == x;
  }

  lemma ElementsConcat<T>(a: seq<T>, b: seq<T>)
    ensures Elements(a + b) == Elements(a) + Elements(b)
  {
    forall x | x in Elements(a) + Elements(b)
      ensures x in Elements(a + b)
    {
      if x in Elements(a) {
        var i := Position(a, x);
        assert (a + b)[i] == x;
      } else {
        var i := Position(b, x);
        assert (a + b)[|a| + i] == x;
      }
    }
  }

  lemma ElementsOne<T>(x: T)
    ensures Elements([x]) == {x}
  {
    assert [x][0] == x;
  }

  lemma {:induction false} DistinctCount<T>(s: seq<T>)
    requires Distinct(s)
    ensures |Elements(s)| == |s|
  {
    if s != [] {
      var front, last := s[..|s| - 1], s[|s| - 1];
      DistinctCount(front);
      assert s == front + [last];
      ElementsConcat(front, [last]);
      ElementsOne(last);
      assert last !in Elements(front);
    }
  }

  lemma {:induction false} DistinctOnce<T>(s: seq<T>, x: T)
    requires Distinct(s)
    ensures multiset(s)[x] <= 1
  {
    if s != [] {
      DistinctOnce(s[..|s| - 1], x);
      assert s == s[..|s| - 1] + [s[|s| - 1]];
      assert x == s[|s| - 1] ==> x !in s[..|s| - 1];
    }
  }

  /** Reordering keeps the elements distinct. */
  lemma PermutedIsDistinct<T>(s: seq<T>, t: seq<T>)
    requires Distinct(s) && multiset(s) == multiset(t)
    ensures Distinct(t) && Elements(t) == Elements(s)
  {
    forall i, j | 0 <= i < j < |t|
      ensures t[i] != t[j]
    {
      DistinctOnce(s, t[i]);
      assert t == t[..j] + t[j..];
      assert t[..j][i] == t[i] && t[j..][0] == t[j];
      assert t[i] in multiset(t[..j]) && t[j] in multiset(t[j..]);
    }
    forall x
      ensures x in Elements(s) <==> x in Elements(t)
    {
      assert x in Elements(s) <==> x in multiset(s);
      assert x in Elements(t) <==> x in multiset(t);
    }
  }

  lemma {:induction false} SomeListing<T>(names: set<T>) returns (order: seq<T>)
    ensures Distinct(order) && Elements(order) == names
    decreases |names|
  {
    if names == {} {
      order := [];
    } else {
      var n :| n in names;
      var rest := SomeListing(names - {n});
      order := rest + [n];
      DistinctAppend(rest, n);
    }
  }

  lemma DistinctAppend<T>(s: seq<T>, x: T)
    requires Distinct(s) && x !in Elements(s)
    ensures Distinct(s + [x]) && Elements(s + [x]) == Elements(s) + {x}
  {
    ElementsConcat(s, [x]);
    ElementsOne(x);
    assert forall i :: 0 <= i < |s| ==> s[i] in Elements(s);
  }

  lemma {:induction false} SubsetSize<T>(a: set<T>, b: set<T>)
    requires a <= b
    ensures |a| <= |b|
  {
    assert b == a + (b - a);
  }
}
