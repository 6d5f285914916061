/**
 * The insertion-ordered dictionaries that main.py mutates in place
 * (`vectors_map`, `elements`, `loads['q-force']`, `materials`).
 *
 * Iteration order is the order of `keys`; `values` gives each key's value.
 * Assigning to an existing key overwrites it in place, a new key is appended,
 * and `del` removes a key without reordering the others.
 */
module PyDict {
  predicate Distinct<K(==)>(s: seq<K>) {
    forall i, j :: 0 <= i < j < |s| ==> s[i] != s[j]
  }

  /** The key order after `d[k] = v`. */
  function PutKey<K(==, !new)>(keys: seq<K>, k: K): (r: seq<K>)
    ensures Distinct(keys) ==> Distinct(r)
    ensures forall x :: x in r <==> x in keys || x == k
    ensures |r| <= |keys| + 1
  {
    if k in keys then keys else keys + [k]
  }

  /** Putting a key never reorders or drops the keys already there. */
  lemma PutKeyExtends<K(!new)>(keys: seq<K>, k: K)
    ensures |keys| <= |PutKey(keys, k)| && PutKey(keys, k)[..|keys|] == keys
  {
  }

  /** The key order after `del d[k]`: every other key, in its old order. */
  function RemoveKey<K(==, !new)>(keys: seq<K>, k: K): (r: seq<K>)
    ensures Distinct(keys) ==> Distinct(r)
    ensures forall x :: x in r <==> x in keys && x != k
    ensures |r| <= |keys|
    ensures k !in keys ==> r == keys
    ensures k in keys && Distinct(keys) ==> |r| == |keys| - 1
  {
    if keys == [] then []
    else if keys[0] == k then
      assert Distinct(keys) ==> k !in keys[1..];
      RemoveKey(keys[1..], k)
    else
      var rest := RemoveKey(keys[1..], k);
      assert keys == [keys[0]] + keys[1..];
      assert Distinct(keys) ==> keys[0] !in rest;
      assert Distinct(keys) ==> Distinct([keys[0]] + rest) by {
        if Distinct(keys) {
          assert forall i :: 0 < i < |[keys[0]] + rest| ==> ([keys[0]] + rest)[i] == rest[i - 1];
        }
      }
      [keys[0]] + rest
  }

  /** Deleting the key at position `m` keeps every other key in its old order. */
  lemma {:induction false} RemoveKeyAt<K(!new)>(keys: seq<K>, k: K, m: nat)
    requires Distinct(keys) && m < |keys| && keys[m] == k
    ensures RemoveKey(keys, k) == keys[..m] + keys[m + 1..]
    decreases m
  {
    var tail := keys[1..];
    assert Distinct(tail);
    if m == 0 {
      assert k !in tail;
    } else {
      assert keys[0] != k;
      RemoveKeyAt(tail, k, m - 1);
      assert keys[..m] == [keys[0]] + tail[..m - 1];
      assert keys[m + 1..] == tail[m..];
    }
  }

  predicate Consistent<K(==, !new), V>(keys: seq<K>, values: map<K, V>) {
    && Distinct(keys)
    && (forall k :: k in values ==> k in keys)
    && (forall k :: k in keys ==> k in values)
  }

  class OrderedDict<K(==, !new), V> {
    var keys: seq<K>
    var values: map<K, V>

    ghost predicate Valid()
      reads this
    {
      Consistent(keys, values)
    }

    constructor ()
      ensures Valid() && keys == [] && values == map[]
    {
      keys := [];
      values := map[];
    }

    /** `d[k] = v` */
    method Put(k: K, v: V)
      requires Valid()
      modifies this
      ensures Valid()
      ensures keys == PutKey(old(keys), k)
      ensures values == old(values)[k := v]
    {
      if k !in values {
        keys := keys + [k];
      }
      values := values[k := v];
    }

    /** `del d[k]`; a missing key would raise `KeyError`, which no caller in the model does. */
    method Delete(k: K)
      requires Valid() && k in values
      modifies this
      ensures Valid()
      ensures keys == RemoveKey(old(keys), k)
      ensures values == old(values) - {k}
    {
      keys := RemoveKey(keys, k);
      values := values - {k};
    }
  }
}
