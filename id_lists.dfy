/**
 * Lists of entries carrying numeric ids, as the message and toast lists of
 * `src/composables/useMessage.ts` and `src/composables/useToast.ts` keep them:
 * `findIndex` by id and `splice(index, 1)` to take the entry out.
 */
module IdLists {

  /** Ids strictly increase along the list (so no id occurs twice). */
  ghost predicate Increasing<T>(s: seq<T>, key: T -> nat) {
    forall i, j :: 0 <= i < j < |s| ==> key(s[i]) < key(s[j])
  }

  /** `s` without its first entry whose id is `id`; unchanged when there is none. */
  function RemoveFirst<T>(s: seq<T>, key: T -> nat, id: nat): (r: seq<T>)
    ensures |r| <= |s|
  {
    if s == [] then []
    else if key(s[0]) == id then s[1..]
    else [s[0]] + RemoveFirst(s[1..], key, id)
  }

  /** `findIndex((e) => e.id === id)`: the first position holding `id`, or -1. */
  method FindIndex<T>(s: seq<T>, key: T -> nat, id: nat) returns (index: int)
    ensures -1 <= index < |s|
    ensures index == -1 <==> forall i :: 0 <= i < |s| ==> key(s[i]) != id
    ensures index >= 0 ==> key(s[index]) == id && forall j :: 0 <= j < index ==> key(s[j]) != id
  {
    index := 0;
    while index < |s|
      invariant 0 <= index <= |s|
      invariant forall j :: 0 <= j < index ==> key(s[j]) != id
    {
      if key(s[index]) == id {
        return;
      }
      index := index + 1;
    }
    index := -1;
  }

  /** Splicing out the first match found by `FindIndex` is `RemoveFirst`. */
  lemma {:induction false} SpliceIsRemoveFirst<T>(s: seq<T>, key: T -> nat, id: nat, index: nat)
    requires index < |s| && key(s[index]) == id
    requires forall j :: 0 <= j < index ==> key(s[j]) != id
    ensures RemoveFirst(s, key, id) == s[..index] + s[index + 1..]
    decreases index
  {
    if index > 0 {
      SpliceIsRemoveFirst(s[1..], key, id, index - 1);
      assert s[..index] == [s[0]] + s[1..][..index - 1];
      assert s[index + 1..] == s[1..][index..];
    }
  }

  /** With no entry for `id`, removal leaves the list as it is. */
  lemma {:induction false} RemoveAbsent<T>(s: seq<T>, key: T -> nat, id: nat)
    requires forall i :: 0 <= i < |s| ==> key(s[i]) != id
    ensures RemoveFirst(s, key, id) == s
  {
    if s != [] {
      RemoveAbsent(s[1..], key, id);
      assert [s[0]] + s[1..] == s;
    }
  }

  /** On a list of increasing ids, removal takes out exactly the entry for
      `id` (if any), keeps every other entry, and keeps ids increasing. */
  lemma RemoveFirstEffect<T>(s: seq<T>, key: T -> nat, id: nat)
    requires Increasing(s, key)
    ensures Increasing(RemoveFirst(s, key, id), key)
    ensures forall i :: 0 <= i < |RemoveFirst(s, key, id)| ==>
      RemoveFirst(s, key, id)[i] in s && key(RemoveFirst(s, key, id)[i]) != id
    ensures forall x :: x in s && key(x) != id ==> x in RemoveFirst(s, key, id)
  {
    RemoveFirstMembers(s, key, id);
    RemoveFirstDropsId(s, key, id);
    RemoveFirstIncreasing(s, key, id);
  }

  /** Removal keeps only entries of the list, and every entry for another id. */
  lemma {:induction false} RemoveFirstMembers<T>(s: seq<T>, key: T -> nat, id: nat)
    ensures forall i :: 0 <= i < |RemoveFirst(s, key, id)| ==> RemoveFirst(s, key, id)[i] in s
    ensures forall x :: x in s && key(x) != id ==> x in RemoveFirst(s, key, id)
  {
    if s != [] && key(s[0]) != id {
      RemoveFirstMembers(s[1..], key, id);
      var r := RemoveFirst(s[1..], key, id);
      assert RemoveFirst(s, key, id) == [s[0]] + r;
      forall i | 0 <= i < |r| ensures r[i] in s {
        assert r[i] in s[1..];
      }
      assert s == [s[0]] + s[1..];
    } else if s != [] {
      assert s == [s[0]] + s[1..];
    }
  }

  /** With increasing ids, `id` occurs at most once, so none is left. */
  lemma {:induction false} RemoveFirstDropsId<T>(s: seq<T>, key: T -> nat, id: nat)
    requires Increasing(s, key)
    ensures forall i :: 0 <= i < |RemoveFirst(s, key, id)| ==> key(RemoveFirst(s, key, id)[i]) != id
  {
    if s != [] {
      var rest := s[1..];
      assert Increasing(rest, key);
      if key(s[0]) == id {
        forall i | 0 <= i < |rest| ensures key(rest[i]) != id {
          assert rest[i] == s[i + 1];
        }
      } else {
        RemoveFirstDropsId(rest, key, id);
      }
    }
  }

  /** Removal keeps ids increasing. */
  lemma {:induction false} RemoveFirstIncreasing<T>(s: seq<T>, key: T -> nat, id: nat)
    requires Increasing(s, key)
    ensures Increasing(RemoveFirst(s, key, id), key)
  {
    if s != [] {
      var rest := s[1..];
      assert Increasing(rest, key);
      if key(s[0]) != id {
        RemoveFirstIncreasing(rest, key, id);
        RemoveFirstMembers(rest, key, id);
        var r := RemoveFirst(rest, key, id);
        forall i | 0 <= i < |r| ensures key(s[0]) < key(r[i]) {
          assert r[i] in rest;
          var k :| 0 <= k < |rest| && rest[k] == r[i];
          assert rest[k] == s[k + 1];
        }
      }
    }
  }

  /** Appending an entry whose id exceeds every id present keeps ids increasing. */
  lemma AppendFresh<T>(s: seq<T>, key: T -> nat, x: T)
    requires Increasing(s, key)
    requires forall i :: 0 <= i < |s| ==> key(s[i]) < key(x)
    ensures Increasing(s + [x], key)
  {
  }
}
