/**
 * `diffDict` of sourceAny.py: which entries of an "after" mapping are new or
 * changed with respect to a "before" mapping. Removed keys are never reported.
 */
module Differ {

  /** Reference definition: the entries of `after` that `before` lacks or holds with another value. */
  function Diff<K, V(==)>(before: map<K, V>, after: map<K, V>): map<K, V> {
    map k | k in after && (k !in before || before[k] != after[k]) :: after[k]
  }

  /**
   * The loop of `diffDict`: walk the keys of `after` in an unspecified order
   * and record each key that is new or whose value differs.
   */
  method DiffDict<K, V(==)>(before: map<K, V>, after: map<K, V>) returns (result: map<K, V>)
    ensures forall k :: k in result <==> k in after && (k !in before || before[k] != after[k])
    ensures forall k :: k in result ==> result[k] == after[k]
    ensures result == Diff(before, after)
  {
    result := map[];
    var todo := after.Keys;
    while todo != {}
      invariant todo <= after.Keys
      invariant forall k :: k in result <==> k in after && k !in todo && (k !in before || before[k] != after[k])
      invariant forall k :: k in result ==> result[k] == after[k]
      decreases todo
    {
      var k :| k in todo;
      var v2 := after[k];
      if k in before {
        var v1 := before[k];
        if v1 != v2 {
          result := result[k := v2];  // existing key is updated
        }
      } else {
        result := result[k := v2];    // new key added
      }
      todo := todo - {k};
    }
  }

  /** Every reported entry carries the "after" value: the diff is a sub-map of `after`. */
  lemma DiffWithinAfter<K, V>(before: map<K, V>, after: map<K, V>)
    ensures Diff(before, after).Keys <= after.Keys
    ensures forall k :: k in Diff(before, after) ==> Diff(before, after)[k] == after[k]
  {
  }

  /** Nothing changed, nothing reported. */
  lemma DiffOfSameIsEmpty<K, V>(m: map<K, V>)
    ensures Diff(m, m) == map[]
  {
    assert Diff(m, m).Keys == {};
  }

  /** Adding one key reports exactly that key. */
  lemma DiffOfAddedKey<K, V>(m: map<K, V>, k: K, v: V)
    requires k !in m
    ensures Diff(m, m[k := v]) == map[k := v]
  {
    assert Diff(m, m[k := v]).Keys == {k};
  }

  /** Removing a key is never reported. */
  lemma DiffOfRemovedKey<K, V>(m: map<K, V>, k: K)
    ensures Diff(m, m - {k}) == map[]
  {
    assert Diff(m, m - {k}).Keys == {};
  }

  /**
   * Applying the diff on top of `before` reproduces `after` on every key of
   * `after`, and leaves keys that `after` dropped at their old values: what
   * running the converted script in the "before" state achieves.
   */
  lemma DiffPatchesBefore<K, V>(before: map<K, V>, after: map<K, V>)
    ensures forall k :: k in after ==> k in before + Diff(before, after) && (before + Diff(before, after))[k] == after[k]
    ensures forall k :: k in before && k !in after ==> (before + Diff(before, after))[k] == before[k]
    ensures (before + Diff(before, after)).Keys == before.Keys + after.Keys
  {
  }

  /** Any patch that turns `before` into `after` on after's keys must contain every reported key. */
  lemma DiffIsMinimal<K, V>(before: map<K, V>, after: map<K, V>, patch: map<K, V>)
    requires forall k :: k in after ==> k in before + patch && (before + patch)[k] == after[k]
    ensures Diff(before, after).Keys <= patch.Keys
  {
  }
}
