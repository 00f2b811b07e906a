/**
 * The array operations the application applies to collections of records that
 * carry an id: `find` and `some` by id, `map` that replaces by id, `filter`
 * that drops an id, and the upsert built from them. `idOf` selects the id.
 */
module Records {
  import opened Wrappers

  /** Some element of `s` has the id (`s.some(e => idOf(e) === id)`). */
  predicate HasId<T>(s: seq<T>, idOf: T -> string, id: string) {
    exists i :: 0 <= i < |s| && idOf(s[i]) == id
  }

  /** The index of the first element with the id, or `|s|` when there is none. */
  function FirstIndex<T>(s: seq<T>, idOf: T -> string, id: string): (k: nat)
    ensures k <= |s|
    ensures k < |s| ==> idOf(s[k]) == id
    ensures forall j :: 0 <= j < k ==> idOf(s[j]) != id
  {
    if s == [] then 0
    else if idOf(s[0]) == id then 0
    else 1 + FirstIndex(s[1..], idOf, id)
  }

  /** `s.find(e => idOf(e) === id)`: the first element with the id, if any. */
  function FindById<T>(s: seq<T>, idOf: T -> string, id: string): (r: Option<T>)
    ensures r.Some? <==> HasId(s, idOf, id)
    ensures r.Some? ==> idOf(r.value) == id && r.value in s
    ensures r.Some? ==> exists k :: 0 <= k < |s| && s[k] == r.value && forall j :: 0 <= j < k ==> idOf(s[j]) != id
  {
    var k := FirstIndex(s, idOf, id);
    if k < |s| then Some(s[k]) else None
  }

  /** `s.map(e => idOf(e) === idOf(x) ? x : e)`. */
  function ReplaceById<T>(s: seq<T>, idOf: T -> string, x: T): (r: seq<T>)
    ensures |r| == |s|
    ensures forall i :: 0 <= i < |s| ==> r[i] == if idOf(s[i]) == idOf(x) then x else s[i]
  {
    if s == [] then [] else [if idOf(s[0]) == idOf(x) then x else s[0]] + ReplaceById(s[1..], idOf, x)
  }

  /** `s.filter(e => idOf(e) !== id)`. */
  function RemoveById<T>(s: seq<T>, idOf: T -> string, id: string): (r: seq<T>)
    ensures !HasId(r, idOf, id)
    ensures |r| <= |s|
  {
    if s == [] then [] else (if idOf(s[0]) == id then [] else [s[0]]) + RemoveById(s[1..], idOf, id)
  }

  /** Replace the records with the id of `x` when there are any, otherwise append `x`. */
  function Upsert<T>(s: seq<T>, idOf: T -> string, x: T): seq<T> {
    if HasId(s, idOf, idOf(x)) then ReplaceById(s, idOf, x) else s + [x]
  }

  /** Replacing keeps the id at every position, hence the id order of the collection. */
  lemma ReplaceKeepsIds<T>(s: seq<T>, idOf: T -> string, x: T)
    ensures forall i :: 0 <= i < |s| ==> idOf(ReplaceById(s, idOf, x)[i]) == idOf(s[i])
  {
  }

  /** After replacing, looking `x`'s id up finds `x` exactly when the id was present before. */
  lemma FindAfterReplace<T>(s: seq<T>, idOf: T -> string, x: T)
    ensures FindById(ReplaceById(s, idOf, x), idOf, idOf(x)) == if HasId(s, idOf, idOf(x)) then Some(x) else None
  {
    var r := ReplaceById(s, idOf, x);
    var k := FirstIndex(s, idOf, idOf(x));
    var kr := FirstIndex(r, idOf, idOf(x));
    ReplaceKeepsIds(s, idOf, x);
    if k < |s| {
      assert kr <= k;
      assert kr == k;
    } else {
      assert !HasId(r, idOf, idOf(x));
    }
  }

  /** Removing keeps every other record and drops all records with the id. */
  lemma {:induction false} RemoveMembership<T>(s: seq<T>, idOf: T -> string, id: string, y: T)
    ensures y in RemoveById(s, idOf, id) <==> y in s && idOf(y) != id
  {
    if s != [] {
      RemoveMembership(s[1..], idOf, id, y);
      assert y in s <==> y == s[0] || y in s[1..];
    }
  }

  /** No two records of `s` share an id. */
  predicate DistinctIds<T>(s: seq<T>, idOf: T -> string) {
    forall i, j :: 0 <= i < j < |s| ==> idOf(s[i]) != idOf(s[j])
  }

  /** Removing keeps the ids of the survivors distinct. */
  lemma {:induction false} RemoveKeepsDistinct<T>(s: seq<T>, idOf: T -> string, id: string)
    requires DistinctIds(s, idOf)
    ensures DistinctIds(RemoveById(s, idOf, id), idOf)
  {
    if s != [] {
      var rest := s[1..];
      assert DistinctIds(rest, idOf) by {
        forall i, j | 0 <= i < j < |rest| ensures idOf(rest[i]) != idOf(rest[j]) {
          assert rest[i] == s[i + 1] && rest[j] == s[j + 1];
        }
      }
      RemoveKeepsDistinct(rest, idOf, id);
      var kept := RemoveById(rest, idOf, id);
      if idOf(s[0]) != id {
        var all := [s[0]] + kept;
        forall i, j | 0 <= i < j < |all| ensures idOf(all[i]) != idOf(all[j]) {
          RemoveMembership(rest, idOf, id, all[j]);
          var k :| 0 <= k < |rest| && rest[k] == all[j];
          assert s[k + 1] == all[j];
          if i > 0 {
            assert all[i] == kept[i - 1];
          }
        }
      }
    }
  }

  /** Removal distributes over concatenation: the survivors keep their relative order. */
  lemma {:induction false} RemoveAppend<T>(s: seq<T>, t: seq<T>, idOf: T -> string, id: string)
    ensures RemoveById(s + t, idOf, id) == RemoveById(s, idOf, id) + RemoveById(t, idOf, id)
  {
    if s == [] {
      assert s + t == t;
    } else {
      assert (s + t)[0] == s[0] && (s + t)[1..] == s[1..] + t;
      RemoveAppend(s[1..], t, idOf, id);
    }
  }

  /** Removing an id that is absent changes nothing. */
  lemma {:induction false} RemoveAbsent<T>(s: seq<T>, idOf: T -> string, id: string)
    requires !HasId(s, idOf, id)
    ensures RemoveById(s, idOf, id) == s
  {
    if s != [] {
      assert idOf(s[0]) != id;
      assert !HasId(s[1..], idOf, id) by {
        forall i | 0 <= i < |s[1..]| ensures idOf(s[1..][i]) != id {
          assert s[1..][i] == s[i + 1];
        }
      }
      RemoveAbsent(s[1..], idOf, id);
    }
  }

  /** An upsert replaces in place when the id exists and otherwise appends, and afterwards the lookup finds the new record. */
  lemma UpsertEffect<T>(s: seq<T>, idOf: T -> string, x: T)
    ensures HasId(s, idOf, idOf(x)) ==> |Upsert(s, idOf, x)| == |s|
    ensures !HasId(s, idOf, idOf(x)) ==> Upsert(s, idOf, x) == s + [x]
    ensures FindById(Upsert(s, idOf, x), idOf, idOf(x)) == Some(x)
    ensures forall i :: 0 <= i < |s| && idOf(s[i]) != idOf(x) ==> Upsert(s, idOf, x)[i] == s[i]
  {
    if HasId(s, idOf, idOf(x)) {
      FindAfterReplace(s, idOf, x);
    } else {
      var r := s + [x];
      var k := FirstIndex(r, idOf, idOf(x));
      assert idOf(r[|s|]) == idOf(x);
      assert k == |s|;
    }
  }
}
