/**
 * A string-keyed map that remembers insertion order, as a JavaScript `Map`
 * does: setting a new key appends it, setting an existing key keeps its
 * position, deleting a key closes the gap, and iteration follows `keys`.
 */
module OrderedMaps {

  datatype OMap<V> = OMap(keys: seq<string>, entries: map<string, V>)

  predicate Distinct(s: seq<string>) {
    forall i, j | 0 <= i < j < |s| :: s[i] != s[j]
  }

  /** `keys` lists every key of `entries` exactly once. */
  ghost predicate Valid<V>(m: OMap<V>) {
    Distinct(m.keys) && forall k :: k in m.entries <==> k in m.keys
  }

  function Empty<V>(): (r: OMap<V>)
    ensures Valid(r) && r.entries == map[] && r.keys == []
  {
    OMap([], map[])
  }

  function Size<V>(m: OMap<V>): nat {
    |m.keys|
  }

  lemma SizeZero<V>(m: OMap<V>)
    requires Valid(m)
    ensures Size(m) == 0 <==> m.entries == map[]
  {
    if Size(m) != 0 {
      assert m.keys[0] in m.entries;
    }
  }

  /** `Map.prototype.set`: a new key goes last, an existing key keeps its
      place; only the entry for `k` changes. */
  function Put<V>(m: OMap<V>, k: string, v: V): (r: OMap<V>)
    ensures Valid(m) ==> Valid(r)
    ensures r.entries == m.entries[k := v]
    ensures k in m.entries ==> r.keys == m.keys
    ensures k !in m.entries ==> r.keys == m.keys + [k]
  {
    if k in m.entries then OMap(m.keys, m.entries[k := v]) else OMap(m.keys + [k], m.entries[k := v])
  }

  /** `keys` without `k`, the others in their order. */
  function RemoveKey(keys: seq<string>, k: string): (r: seq<string>)
    ensures forall x :: x in r <==> x in keys && x != k
    ensures |r| <= |keys|
    ensures Distinct(keys) ==> Distinct(r)
  {
    if keys == [] then []
    else if keys[0] == k then RemoveKey(keys[1..], k)
    else
      var rest := RemoveKey(keys[1..], k);
      assert Distinct(keys) ==> keys[0] !in keys[1..] && Distinct(keys[1..]) by {
        if Distinct(keys) {
          forall i | 0 <= i < |keys| - 1 ensures keys[1..][i] != keys[0] {
            assert keys[1..][i] == keys[i + 1];
          }
        }
      }
      [keys[0]] + rest
  }

  /** `Map.prototype.delete`: only `k` goes; a missing key changes nothing. */
  function Remove<V>(m: OMap<V>, k: string): (r: OMap<V>)
    ensures Valid(m) ==> Valid(r)
    ensures r.entries == m.entries - {k}
  {
    OMap(RemoveKey(m.keys, k), m.entries - {k})
  }

  lemma {:induction false} RemoveKeyAbsent(keys: seq<string>, k: string)
    requires k !in keys
    ensures RemoveKey(keys, k) == keys
  {
    if keys != [] {
      assert k !in keys[1..];
      RemoveKeyAbsent(keys[1..], k);
      assert [keys[0]] + keys[1..] == keys;
    }
  }

  /** Deleting a key that was just appended restores the key order. */
  lemma {:induction false} RemoveKeyLast(keys: seq<string>, k: string)
    requires k !in keys
    ensures RemoveKey(keys + [k], k) == keys
  {
    if keys == [] {
      assert RemoveKey([k], k) == RemoveKey([], k);
    } else {
      assert (keys + [k])[1..] == keys[1..] + [k];
      assert k !in keys[1..];
      RemoveKeyLast(keys[1..], k);
      assert [keys[0]] + keys[1..] == keys;
    }
  }

  /** Setting a key twice leaves what setting it once to the second value does. */
  lemma PutPut<V>(m: OMap<V>, k: string, v: V, w: V)
    ensures Put(Put(m, k, v), k, w) == Put(m, k, w)
  {
    assert m.entries[k := v][k := w] == m.entries[k := w];
  }

  /** Deleting a key just set is deleting it from the map before the set. */
  lemma RemovePut<V>(m: OMap<V>, k: string, v: V)
    requires Valid(m)
    ensures k in m.entries ==> Remove(Put(m, k, v), k) == Remove(m, k)
    ensures k !in m.entries ==> Remove(Put(m, k, v), k) == m
  {
    assert m.entries[k := v] - {k} == m.entries - {k};
    if k !in m.entries {
      RemoveKeyLast(m.keys, k);
      assert m.entries - {k} == m.entries;
    }
  }

  /** Setting a key back to the value it holds changes nothing. */
  lemma PutSame<V>(m: OMap<V>, k: string)
    requires k in m.entries
    ensures Put(m, k, m.entries[k]) == m
  {
    assert m.entries[k := m.entries[k]] == m.entries;
  }

  /** The values of `entries` along `keys`, each a sequence, joined in order:
      what `forEach` with `push(...values)` collects. */
  function Flatten<T>(keys: seq<string>, entries: map<string, seq<T>>): (r: seq<T>)
    requires forall k :: k in keys ==> k in entries
  {
    if keys == [] then [] else Flatten(keys[..|keys| - 1], entries) + entries[keys[|keys| - 1]]
  }

  /** Every element collected by `Flatten` sits in the value of one of the keys. */
  lemma {:induction false} FlattenFrom<T>(keys: seq<string>, entries: map<string, seq<T>>, x: T)
    requires forall k :: k in keys ==> k in entries
    requires x in Flatten(keys, entries)
    ensures exists k :: k in keys && x in entries[k]
  {
    var last := keys[|keys| - 1];
    var front := keys[..|keys| - 1];
    assert forall k :: k in front ==> k in keys;
    if x in entries[last] {
      assert last in keys;
    } else {
      FlattenFrom(front, entries, x);
    }
  }

  /** Conversely every element of every listed key's value is collected. */
  lemma {:induction false} FlattenHas<T>(keys: seq<string>, entries: map<string, seq<T>>, k: string, x: T)
    requires forall k :: k in keys ==> k in entries
    requires k in keys && x in entries[k]
    ensures x in Flatten(keys, entries)
  {
    var last := keys[|keys| - 1];
    var front := keys[..|keys| - 1];
    assert forall k :: k in front ==> k in keys;
    if k != last {
      assert keys == front + [last];
      FlattenHas(front, entries, k, x);
    }
  }
}
