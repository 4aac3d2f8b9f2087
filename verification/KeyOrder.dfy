/** JS own-property order of object keys (ECMA-262 section 10.1.11.1): array indices ascending, then the rest. */
module KeyOrder {
  import opened Decimals
  import opened Sorting
  import opened Texts
  import NumberText

  const MAX_ARRAY_INDEX := 0x1_0000_0000 - 2

  predicate AllDigits(key: Text) {
    forall i :: 0 <= i < |key| ==> NumberText.IsDigit(key[i])
  }

  function DigitsOf(key: Text): (digits: seq<Digit>)
    requires AllDigits(key)
    ensures |digits| == |key|
  {
    seq(|key|, i requires 0 <= i < |key| => NumberText.DigitValue(key[i]))
  }

  /** `int(key)`; only digit strings are ever asked, and any other key counts as 0. */
  function IntOf(key: Text): nat {
    if AllDigits(key) then ToNat(DigitsOf(key)) else 0
  }

  predicate IsArrayIndex(key: Text) {
    key != [] && AllDigits(key) && (|key| > 1 ==> key[0] != 0x30) && IntOf(key) <= MAX_ARRAY_INDEX
  }

  function Indices(keys: seq<Text>): seq<Text> {
    if keys == [] then [] else (if IsArrayIndex(keys[0]) then [keys[0]] else []) + Indices(keys[1..])
  }

  function Others(keys: seq<Text>): seq<Text> {
    if keys == [] then [] else (if IsArrayIndex(keys[0]) then [] else [keys[0]]) + Others(keys[1..])
  }

  predicate AllIndices(keys: seq<Text>) {
    forall k :: k in keys ==> IsArrayIndex(k)
  }

  predicate Ascending(keys: seq<Text>) {
    forall i, j :: 0 <= i < j < |keys| ==> IntOf(keys[i]) <= IntOf(keys[j])
  }

  /** `sort(key=int)`. */
  function SortByInt(keys: seq<Text>): seq<Text> {
    Sort(keys, (a, b) => IntOf(a) <= IntOf(b))
  }

  lemma SortsByInt(keys: seq<Text>)
    ensures Ascending(SortByInt(keys)) && multiset(SortByInt(keys)) == multiset(keys)
  {
    SortSorts(keys, (a: Text, b: Text) => IntOf(a) <= IntOf(b));
  }

  function JsKeyOrder(keys: seq<Text>): seq<Text> {
    SortByInt(Indices(keys)) + Others(keys)
  }

  /** Array indices come first and ascend; the rest keep the order they were inserted in. */
  predicate IsOwnKeyOrder(keys: seq<Text>, ordered: seq<Text>) {
    var n := |Indices(keys)|;
    && n <= |ordered|
    && multiset(ordered[..n]) == multiset(Indices(keys))
    && Ascending(ordered[..n])
    && ordered[n..] == Others(keys)
  }

  lemma {:induction false} PartitionsKeys(keys: seq<Text>)
    ensures multiset(keys) == multiset(Indices(keys)) + multiset(Others(keys))
    ensures AllIndices(Indices(keys))
  {
    if keys != [] {
      PartitionsKeys(keys[1..]);
      assert keys == [keys[0]] + keys[1..];
    }
  }

  lemma JsKeyOrderIsOwnKeyOrder(keys: seq<Text>)
    ensures IsOwnKeyOrder(keys, JsKeyOrder(keys))
    ensures multiset(JsKeyOrder(keys)) == multiset(keys)
  {
    PartitionsKeys(keys);
    var sorted := SortByInt(Indices(keys));
    SortsByInt(Indices(keys));
    assert |multiset(sorted)| == |multiset(Indices(keys))|;
    assert JsKeyOrder(keys)[..|sorted|] == sorted;
  }

  /** An array index is written in one way only. */
  lemma IndexTextUnique(a: Text, b: Text)
    requires IsArrayIndex(a) && IsArrayIndex(b) && IntOf(a) == IntOf(b)
    ensures a == b
  {
    ToNatRoundTrip(DigitsOf(a));
    ToNatRoundTrip(DigitsOf(b));
    assert forall i :: 0 <= i < |a| ==> NumberText.DigitChar(DigitsOf(a)[i]) == a[i];
    assert forall i :: 0 <= i < |b| ==> NumberText.DigitChar(DigitsOf(b)[i]) == b[i];
  }

  lemma LeastFirst(a: seq<Text>, b: seq<Text>)
    requires Ascending(a) && b != [] && multiset(a) == multiset(b)
    ensures a != [] && IntOf(a[0]) <= IntOf(b[0])
  {
    assert b[0] in multiset(a);
    var i :| 0 <= i < |a| && a[i] == b[0];
  }

  lemma SameTail(a: seq<Text>, b: seq<Text>)
    requires a != [] && b != [] && a[0] == b[0] && multiset(a) == multiset(b)
    ensures multiset(a[1..]) == multiset(b[1..])
  {
    assert a == [a[0]] + a[1..] && b == [b[0]] + b[1..];
    assert multiset(a[1..]) == multiset(a) - multiset{a[0]};
    assert multiset(b[1..]) == multiset(b) - multiset{b[0]};
  }

  lemma {:induction false} AscendingUnique(a: seq<Text>, b: seq<Text>)
    requires AllIndices(a) && Ascending(a) && Ascending(b) && multiset(a) == multiset(b)
    ensures a == b
  {
    if b == [] {
      assert |multiset(a)| == |a| && |multiset(b)| == 0;
    } else {
      LeastFirst(a, b);
      LeastFirst(b, a);
      assert b[0] in multiset(a);
      IndexTextUnique(a[0], b[0]);
      SameTail(a, b);
      AscendingUnique(a[1..], b[1..]);
      assert a == [a[0]] + a[1..] && b == [b[0]] + b[1..];
    }
  }

  /** The order is the only one JS allows: no other arrangement of the keys is an own-key order. */
  lemma OwnKeyOrderUnique(keys: seq<Text>, ordered: seq<Text>)
    requires IsOwnKeyOrder(keys, ordered)
    ensures ordered == JsKeyOrder(keys)
  {
    JsKeyOrderIsOwnKeyOrder(keys);
    PartitionsKeys(keys);
    var n := |Indices(keys)|;
    assert forall k :: k in ordered[..n] ==> k in multiset(Indices(keys));
    AscendingUnique(ordered[..n], JsKeyOrder(keys)[..n]);
    assert ordered == ordered[..n] + ordered[n..];
    assert JsKeyOrder(keys) == JsKeyOrder(keys)[..n] + JsKeyOrder(keys)[n..];
  }

  lemma {:induction false} SplitsLast(keys: seq<Text>, key: Text)
    ensures Indices(keys + [key]) == Indices(keys) + (if IsArrayIndex(key) then [key] else [])
    ensures Others(keys + [key]) == Others(keys) + (if IsArrayIndex(key) then [] else [key])
  {
    if keys != [] {
      assert (keys + [key])[1..] == keys[1..] + [key];
      SplitsLast(keys[1..], key);
    } else {
      assert (keys + [key])[1..] == [];
    }
  }

  /** `js_key_order`: two lists are filled in one pass and the first is sorted. */
  method OrderKeys(keys: seq<Text>) returns (ordered: seq<Text>)
    ensures ordered == JsKeyOrder(keys)
  {
    var indices, others := [], [];
    for i := 0 to |keys|
      invariant indices == Indices(keys[..i]) && others == Others(keys[..i])
    {
      SplitsLast(keys[..i], keys[i]);
      assert keys[..i + 1] == keys[..i] + [keys[i]];
      if IsArrayIndex(keys[i]) {
        indices := indices + [keys[i]];
      } else {
        others := others + [keys[i]];
      }
    }
    assert keys[..|keys|] == keys;
    ordered := SortByInt(indices) + others;
  }
}
