/** Python dictionaries with text keys, as lists of their entries in insertion order. */
module Dicts {
  import opened Wrappers

  datatype Entry<V> = Entry(key: string, value: V)

  type Dict<V> = seq<Entry<V>>

  predicate Has<V>(dict: Dict<V>, key: string) {
    exists i :: 0 <= i < |dict| && dict[i].key == key
  }

  predicate UniqueKeys<V>(dict: Dict<V>) {
    forall i, j :: 0 <= i < j < |dict| ==> dict[i].key != dict[j].key
  }

  function Get<V>(dict: Dict<V>, key: string): Option<V> {
    if dict == [] then None
    else if dict[0].key == key then Some(dict[0].value)
    else Get(dict[1..], key)
  }

  /** `dict[key] = value`: a key that is there keeps its place. */
  function Put<V>(dict: Dict<V>, key: string, value: V): Dict<V> {
    if dict == [] then [Entry(key, value)]
    else if dict[0].key == key then [Entry(key, value)] + dict[1..]
    else [dict[0]] + Put(dict[1..], key, value)
  }

  /** `dict.pop(key, None)`. */
  function Remove<V>(dict: Dict<V>, key: string): Dict<V> {
    if dict == [] then []
    else if dict[0].key == key then dict[1..]
    else [dict[0]] + Remove(dict[1..], key)
  }

  function Keys<V>(dict: Dict<V>): seq<string> {
    seq(|dict|, i requires 0 <= i < |dict| => dict[i].key)
  }

  function Values<V>(dict: Dict<V>): seq<V> {
    seq(|dict|, i requires 0 <= i < |dict| => dict[i].value)
  }

  lemma {:induction false} GetFinds<V>(dict: Dict<V>, key: string)
    ensures Get(dict, key).Some? ==> Entry(key, Get(dict, key).value) in dict
    ensures Get(dict, key).None? ==> forall e :: e in dict ==> e.key != key
  {
    if dict != [] && dict[0].key != key {
      GetFinds(dict[1..], key);
    }
  }

  lemma {:induction false} HasIsGet<V>(dict: Dict<V>, key: string)
    ensures Has(dict, key) <==> Get(dict, key).Some?
  {
    if dict != [] && dict[0].key != key {
      HasIsGet(dict[1..], key);
      HasInTail(dict, key);
    }
  }

  lemma HasInTail<V>(dict: Dict<V>, key: string)
    requires dict != [] && dict[0].key != key
    ensures Has(dict, key) <==> Has(dict[1..], key)
  {
    if Has(dict[1..], key) {
      var i :| 0 <= i < |dict| - 1 && dict[1..][i].key == key;
      assert dict[i + 1].key == key;
    }
  }

  lemma {:induction false} PutKeepsOthers<V>(dict: Dict<V>, key: string, value: V)
    requires UniqueKeys(dict)
    ensures UniqueKeys(Put(dict, key, value))
    ensures forall e :: e in Put(dict, key, value) ==> e in dict || e == Entry(key, value)
  {
    if dict != [] && dict[0].key != key {
      PutKeepsOthers(dict[1..], key, value);
      var tail := Put(dict[1..], key, value);
      forall k | 0 <= k < |tail|
        ensures tail[k].key != dict[0].key
      {
        assert tail[k] in dict[1..] || tail[k] == Entry(key, value);
      }
    }
  }

  lemma {:induction false} RemoveLeavesOthers<V>(dict: Dict<V>, key: string)
    ensures forall i :: 0 <= i < |Remove(dict, key)| ==> Remove(dict, key)[i] in dict
  {
    if dict != [] && dict[0].key != key {
      RemoveLeavesOthers(dict[1..], key);
    }
  }

  lemma {:induction false} RemoveKeepsUnique<V>(dict: Dict<V>, key: string)
    requires UniqueKeys(dict)
    ensures UniqueKeys(Remove(dict, key))
    ensures forall i :: 0 <= i < |Remove(dict, key)| ==> Remove(dict, key)[i].key != key
  {
    if dict != [] && dict[0].key != key {
      var tail := Remove(dict[1..], key);
      RemoveKeepsUnique(dict[1..], key);
      RemoveLeavesOthers(dict[1..], key);
      forall k | 0 <= k < |tail|
        ensures tail[k].key != dict[0].key
      {
        var j :| 0 <= j < |dict[1..]| && dict[1..][j] == tail[k];
        assert dict[j + 1] == tail[k];
      }
    }
  }

  lemma RemoveKeepsOthers<V>(dict: Dict<V>, key: string)
    requires UniqueKeys(dict)
    ensures UniqueKeys(Remove(dict, key))
    ensures forall e :: e in Remove(dict, key) ==> e in dict && e.key != key
  {
    RemoveLeavesOthers(dict, key);
    RemoveKeepsUnique(dict, key);
  }

  /** Setting one key changes neither another key's value nor the order of the keys. */
  lemma {:induction false} PutGets<V>(dict: Dict<V>, key: string, value: V, other: string)
    ensures Get(Put(dict, key, value), other) == if other == key then Some(value) else Get(dict, other)
    ensures Keys(Put(dict, key, value)) == (if Has(dict, key) then Keys(dict) else Keys(dict) + [key])
  {
    if dict != [] {
      var put := Put(dict, key, value);
      if dict[0].key == key {
        assert put[1..] == dict[1..];
        assert Keys(put) == Keys(dict);
      } else {
        PutGets(dict[1..], key, value, other);
        HasInTail(dict, key);
        assert put == [dict[0]] + Put(dict[1..], key, value);
        assert Keys(put) == [dict[0].key] + Keys(Put(dict[1..], key, value));
        assert Keys(dict) == [dict[0].key] + Keys(dict[1..]);
      }
    }
  }

  lemma {:induction false} PutAppends<V>(dict: Dict<V>, key: string, value: V)
    requires !Has(dict, key)
    ensures Put(dict, key, value) == dict + [Entry(key, value)]
  {
    if dict != [] {
      assert dict[0].key != key;
      HasInTail(dict, key);
      PutAppends(dict[1..], key, value);
      assert dict + [Entry(key, value)] == [dict[0]] + (dict[1..] + [Entry(key, value)]);
    }
  }

  lemma AppendGets<V>(dict: Dict<V>, key: string, value: V, other: string)
    requires !Has(dict, key)
    ensures Get(dict + [Entry(key, value)], other) == if other == key then Some(value) else Get(dict, other)
  {
    PutAppends(dict, key, value);
    PutGets(dict, key, value, other);
  }

  lemma {:induction false} RemoveGets<V>(dict: Dict<V>, key: string, other: string)
    requires UniqueKeys(dict)
    ensures Get(Remove(dict, key), other) == if other == key then None else Get(dict, other)
  {
    if dict != [] {
      if dict[0].key == key {
        GetFinds(dict[1..], key);
      } else {
        RemoveGets(dict[1..], key, other);
      }
    }
  }

  lemma {:induction false} GetAt<V>(dict: Dict<V>, i: nat)
    requires UniqueKeys(dict) && i < |dict|
    ensures Get(dict, dict[i].key) == Some(dict[i].value)
  {
    if i > 0 {
      assert dict[1..][i - 1] == dict[i];
      GetAt(dict[1..], i - 1);
    }
  }
}
