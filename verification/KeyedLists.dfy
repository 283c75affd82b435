/** Lists of entries with distinct integer keys, as the caches keep them, and the maps they stand for. */
module KeyedLists {

  /** The index of the first entry with this key, or |list|. */
  function IndexOf<T>(list: seq<T>, key: T -> int, id: int): (i: nat)
    ensures i <= |list| && (i < |list| ==> key(list[i]) == id)
    ensures forall j :: 0 <= j < i ==> key(list[j]) != id
  {
    if list == [] || key(list[0]) == id then 0 else 1 + IndexOf(list[1..], key, id)
  }

  method FindEntry<T>(list: seq<T>, key: T -> int, id: int) returns (i: nat)
    ensures i == IndexOf(list, key, id)
  {
    i := 0;
    while i < |list| && key(list[i]) != id
      invariant i <= |list|
      invariant forall j :: 0 <= j < i ==> key(list[j]) != id
    {
      i := i + 1;
    }
  }

  predicate DistinctKeys<T>(list: seq<T>, key: T -> int) {
    forall i, j :: 0 <= i < j < |list| ==> key(list[i]) != key(list[j])
  }

  function Without<T>(list: seq<T>, i: nat): seq<T>
    requires i < |list|
  {
    list[..i] + list[i + 1..]
  }

  /** The entries by key. */
  function ByKey<T>(list: seq<T>, key: T -> int): map<int, T> {
    map i: nat | i < |list| && IndexOf(list, key, key(list[i])) == i :: key(list[i]) := list[i]
  }

  lemma ByKeyHas<T>(list: seq<T>, key: T -> int, id: int)
    ensures id in ByKey(list, key) <==> IndexOf(list, key, id) < |list|
    ensures id in ByKey(list, key) ==> ByKey(list, key)[id] == list[IndexOf(list, key, id)]
  {
  }

  lemma IndexIs<T>(list: seq<T>, key: T -> int, i: nat)
    requires i < |list| && DistinctKeys(list, key)
    ensures IndexOf(list, key, key(list[i])) == i
  {
  }

  lemma ReplaceByKey<T>(list: seq<T>, key: T -> int, i: nat, entry: T)
    requires DistinctKeys(list, key) && i < |list| && key(entry) == key(list[i])
    ensures DistinctKeys(list[i := entry], key)
    ensures ByKey(list[i := entry], key) == ByKey(list, key)[key(entry) := entry]
  {
    hide IndexOf, ByKey;
    var next := list[i := entry];
    forall id ensures id in ByKey(next, key) <==> id in ByKey(list, key) {
      ByKeyHas(next, key, id);
      ByKeyHas(list, key, id);
      if IndexOf(list, key, id) < |list| { assert key(next[IndexOf(list, key, id)]) == id; }
      if IndexOf(next, key, id) < |next| { assert key(list[IndexOf(next, key, id)]) == id; }
    }
    ByKeyHas(list, key, key(entry));
    assert key(list[i]) == key(entry);
    forall id | id in ByKey(next, key) ensures ByKey(next, key)[id] == ByKey(list, key)[key(entry) := entry][id] {
      ByKeyHas(next, key, id);
      ByKeyHas(list, key, id);
      var k := IndexOf(next, key, id);
      assert key(list[k]) == id;
      IndexIs(list, key, k);
    }
  }

  lemma WithoutByKey<T>(list: seq<T>, key: T -> int, i: nat)
    requires DistinctKeys(list, key) && i < |list|
    ensures DistinctKeys(Without(list, i), key)
    ensures ByKey(Without(list, i), key) == ByKey(list, key) - {key(list[i])}
  {
    hide IndexOf, ByKey;
    var next := Without(list, i);
    assert forall j :: 0 <= j < |next| ==> next[j] == list[if j < i then j else j + 1];
    forall id ensures id in ByKey(next, key) <==> id in ByKey(list, key) && id != key(list[i]) {
      ByKeyHas(next, key, id);
      ByKeyHas(list, key, id);
      if IndexOf(next, key, id) < |next| {
        var k := IndexOf(next, key, id);
        assert key(list[if k < i then k else k + 1]) == id;
      }
      if IndexOf(list, key, id) < |list| && id != key(list[i]) {
        var k := IndexOf(list, key, id);
        assert key(next[if k < i then k else k - 1]) == id;
      }
    }
    forall id | id in ByKey(next, key) ensures ByKey(next, key)[id] == (ByKey(list, key) - {key(list[i])})[id] {
      ByKeyHas(next, key, id);
      ByKeyHas(list, key, id);
      var k := IndexOf(next, key, id);
      IndexIs(list, key, if k < i then k else k + 1);
    }
  }

  lemma AppendByKey<T>(list: seq<T>, key: T -> int, entry: T)
    requires DistinctKeys(list, key) && IndexOf(list, key, key(entry)) == |list|
    ensures DistinctKeys(list + [entry], key)
    ensures ByKey(list + [entry], key) == ByKey(list, key)[key(entry) := entry]
  {
    hide IndexOf, ByKey;
    var next := list + [entry];
    forall id ensures id in ByKey(next, key) <==> id in ByKey(list, key) || id == key(entry) {
      ByKeyHas(next, key, id);
      ByKeyHas(list, key, id);
      if IndexOf(list, key, id) < |list| { assert key(next[IndexOf(list, key, id)]) == id; }
      assert key(next[|list|]) == key(entry);
    }
    forall id | id in ByKey(next, key) ensures ByKey(next, key)[id] == ByKey(list, key)[key(entry) := entry][id] {
      ByKeyHas(next, key, id);
      ByKeyHas(list, key, id);
      var k := IndexOf(next, key, id);
      if k < |list| { IndexIs(list, key, k); }
    }
  }
}
