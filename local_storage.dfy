/**
 * The in-memory `localStorage` used by the test set-up: a class whose one
 * field is a plain object from keys to strings. `Dict` is the value of that
 * object (its keys in `Object.keys` order, which for these keys is insertion
 * order, and its entries); the class methods update the field in place.
 */
module LocalStorageMock {
  import opened Wrappers
  import opened Json
  import Seqs

  /** The value of a `Record<string, string>`. */
  datatype Dict = Dict(keys: seq<string>, items: map<string, Text>) {

    /** The key list is duplicate-free and lists exactly the keys of the entries. */
    predicate Valid() {
      && (forall i, j :: 0 <= i < j < |keys| ==> keys[i] != keys[j])
      && items.Keys == set k | k in keys
    }

    /** `store[key] || null`: a missing key and a key holding the empty string both read as null. */
    function Get(key: string): Option<Text> {
      if key in items && items[key] != EmptyText then Some(items[key]) else None
    }

    /** `store[key] = value`: an existing key keeps its place, a new key goes last. */
    function Put(key: string, value: Text): Dict {
      if key in items then Dict(keys, items[key := value]) else Dict(keys + [key], items[key := value])
    }

    /** `delete store[key]`. */
    function Remove(key: string): Dict {
      Dict(Seqs.RemoveAll(keys, key), items - {key})
    }

    /** `Object.keys(store).length`. */
    function Length(): nat {
      |keys|
    }

    /** `Object.keys(store)[index] || null`: out of range, and the empty key, read as null. */
    function Key(index: int): Option<string> {
      if 0 <= index < |keys| && keys[index] != "" then Some(keys[index]) else None
    }
  }

  const Empty := Dict([], map[])

  class LocalStorage {
    var store: Dict

    predicate Valid()
      reads this
    {
      store.Valid()
    }

    constructor ()
      ensures Valid() && store == Empty
    {
      store := Empty;
    }

    method Clear()
      modifies this
      ensures Valid() && store == Empty
    {
      store := Empty;
    }

    function GetItem(key: string): Option<Text>
      reads this
    {
      store.Get(key)
    }

    method SetItem(key: string, value: Text)
      requires Valid()
      modifies this
      ensures Valid() && store == old(store).Put(key, value)
    {
      if key !in store.items {
        store := store.(keys := store.keys + [key]);
      }
      store := store.(items := store.items[key := value]);
      PutValid(old(store), key, value);
    }

    method RemoveItem(key: string)
      requires Valid()
      modifies this
      ensures Valid() && store == old(store).Remove(key)
    {
      RemoveValid(store, key);
      store := store.Remove(key);
    }

    function Length(): nat
      reads this
    {
      store.Length()
    }

    function Key(index: int): Option<string>
      reads this
    {
      store.Key(index)
    }
  }

  lemma PutValid(d: Dict, key: string, value: Text)
    requires d.Valid()
    ensures d.Put(key, value).Valid()
  {
  }

  lemma RemoveValid(d: Dict, key: string)
    requires d.Valid()
    ensures d.Remove(key).Valid()
  {
    var r := d.Remove(key);
    Seqs.RemoveAllCount(d.keys, key);
    forall k ensures k in r.keys <==> (k in d.keys && k != key) {
      assert k in r.keys <==> k in multiset(r.keys);
      assert k in d.keys <==> k in multiset(d.keys);
    }
    forall i, j | 0 <= i < j < |r.keys| ensures r.keys[i] != r.keys[j] {
      RemoveKeepsDistinct(d.keys, key, i, j);
    }
  }

  /** Removing a key from a duplicate-free list leaves it duplicate-free. */
  lemma {:induction false} RemoveKeepsDistinct(ks: seq<string>, key: string, i: int, j: int)
    requires forall a, b :: 0 <= a < b < |ks| ==> ks[a] != ks[b]
    requires 0 <= i < j < |Seqs.RemoveAll(ks, key)|
    ensures Seqs.RemoveAll(ks, key)[i] != Seqs.RemoveAll(ks, key)[j]
  {
    var r := Seqs.RemoveAll(ks, key);
    var rest := Seqs.RemoveAll(ks[1..], key);
    if ks[0] == key {
      RemoveKeepsDistinct(ks[1..], key, i, j);
    } else if i == 0 {
      assert r[j] in rest;
      assert forall b :: 0 <= b < |ks[1..]| ==> ks[1..][b] != ks[0];
    } else {
      RemoveKeepsDistinct(ks[1..], key, i - 1, j - 1);
    }
  }

  /** After `clear()` the store has no keys and every `getItem` reads null. */
  lemma ClearEmpties(key: string)
    ensures Empty.Length() == 0 && Empty.Get(key) == None && Empty.Key(0) == None
  {
  }

  /** `setItem(k, v)` then `getItem(k)` gives `v` back unless `v` is the empty string; every other key keeps its value. */
  lemma GetAfterPut(d: Dict, key: string, value: Text, other: string)
    requires other != key
    ensures d.Put(key, value).Get(key) == (if value == EmptyText then None else Some(value))
    ensures d.Put(key, value).Get(other) == d.Get(other)
  {
  }

  /** After `removeItem(k)`, `getItem(k)` is null and every other key keeps its value. */
  lemma GetAfterRemove(d: Dict, key: string, other: string)
    requires other != key
    ensures d.Remove(key).Get(key) == None
    ensures d.Remove(key).Get(other) == d.Get(other)
  {
  }

  /** A duplicate-free list has as many elements as distinct elements. */
  lemma {:induction false} DistinctCardinality(ks: seq<string>)
    requires forall i, j :: 0 <= i < j < |ks| ==> ks[i] != ks[j]
    ensures |set k | k in ks| == |ks|
  {
    if ks != [] {
      var last := ks[|ks| - 1];
      var init := ks[..|ks| - 1];
      DistinctCardinality(init);
      assert (set k | k in ks) == (set k | k in init) + {last};
      assert forall b :: 0 <= b < |init| ==> init[b] != last;
    }
  }

  /** `length` is the number of distinct keys held. */
  lemma LengthCountsKeys(d: Dict)
    requires d.Valid()
    ensures d.Length() == |d.items.Keys|
  {
    DistinctCardinality(d.keys);
    assert d.items.Keys == set k | k in d.keys;
  }

  /** Overwriting a key leaves `length` as it was; a new key adds one. */
  lemma LengthAfterPut(d: Dict, key: string, value: Text)
    requires d.Valid()
    ensures d.Put(key, value).Length() == if key in d.items then d.Length() else d.Length() + 1
  {
  }

  /** `key(i)` is null out of range, and otherwise either null (for the empty key) or a key the store holds. */
  lemma KeyInStore(d: Dict, index: int)
    requires d.Valid()
    ensures !(0 <= index < d.Length()) ==> d.Key(index) == None
    ensures d.Key(index).Some? ==> d.Key(index).value in d.items
  {
  }
}
