/** `Array.prototype.filter` with `x => x !== v`, the removal of every occurrence of a value, and its laws. */
module Seqs {

  /** The elements of `s` other than `x`, in their original order. */
  function RemoveAll<T(==)>(s: seq<T>, x: T): (r: seq<T>)
    ensures x !in r
    ensures forall i :: 0 <= i < |r| ==> r[i] in s
  {
    if s == [] then []
    else if s[0] == x then RemoveAll(s[1..], x)
    else [s[0]] + RemoveAll(s[1..], x)
  }

  /** Removal keeps every other element, each as often as it occurs, and drops every `x`. */
  lemma {:induction false} RemoveAllCount<T>(s: seq<T>, x: T)
    ensures multiset(RemoveAll(s, x)) == multiset(s)[x := 0]
    ensures |RemoveAll(s, x)| == |s| - multiset(s)[x]
  {
    if s != [] {
      RemoveAllCount(s[1..], x);
      assert s == [s[0]] + s[1..];
    }
  }

  /** A value survives removal exactly when it was there and is not the one removed. */
  lemma RemoveAllMembership<T>(s: seq<T>, x: T, y: T)
    ensures y in RemoveAll(s, x) <==> y in s && y != x
  {
    RemoveAllCount(s, x);
    assert y in RemoveAll(s, x) <==> y in multiset(RemoveAll(s, x));
    assert y in s <==> y in multiset(s);
  }

  /** Removal distributes over concatenation, so it keeps the relative order of what stays. */
  lemma {:induction false} RemoveAllAppend<T>(s: seq<T>, t: seq<T>, x: T)
    ensures RemoveAll(s + t, x) == RemoveAll(s, x) + RemoveAll(t, x)
  {
    if s == [] {
      assert s + t == t;
    } else {
      assert (s + t)[0] == s[0] && (s + t)[1..] == s[1..] + t;
      RemoveAllAppend(s[1..], t, x);
      if s[0] != x {
        assert [s[0]] + (RemoveAll(s[1..], x) + RemoveAll(t, x)) == ([s[0]] + RemoveAll(s[1..], x)) + RemoveAll(t, x);
      }
    }
  }

  /** Removing a value that does not occur changes nothing. */
  lemma {:induction false} RemoveAllAbsent<T>(s: seq<T>, x: T)
    requires x !in s
    ensures RemoveAll(s, x) == s
  {
    if s != [] {
      RemoveAllAbsent(s[1..], x);
    }
  }

  /** Removing twice is removing once. */
  lemma RemoveAllIdempotent<T>(s: seq<T>, x: T)
    ensures RemoveAll(RemoveAll(s, x), x) == RemoveAll(s, x)
  {
    RemoveAllAbsent(RemoveAll(s, x), x);
  }

  /** Removing `x` from a list that ends in `x` forgets that last element. */
  lemma RemoveAllAppendSelf<T>(s: seq<T>, x: T)
    ensures RemoveAll(s + [x], x) == RemoveAll(s, x)
  {
    RemoveAllAppend(s, [x], x);
    assert RemoveAll([x], x) == [];
  }

  /** Removals of two values commute. */
  lemma {:induction false} RemoveAllCommute<T>(s: seq<T>, x: T, y: T)
    ensures RemoveAll(RemoveAll(s, x), y) == RemoveAll(RemoveAll(s, y), x)
  {
    if s != [] {
      RemoveAllCommute(s[1..], x, y);
      var h := if s[0] == x then [] else [s[0]];
      var k := if s[0] == y then [] else [s[0]];
      RemoveAllAppend(h, RemoveAll(s[1..], x), y);
      RemoveAllAppend(k, RemoveAll(s[1..], y), x);
    }
  }
}
