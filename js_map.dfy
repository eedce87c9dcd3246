/** A JavaScript `Map`: entries plus the order their keys were first set,
    which is the order `entries()` iterates in. */
module JsMap {
  import opened Wrappers

  datatype OrderedMap<K, V> = OrderedMap(keys: seq<K>, entries: map<K, V>)

  /** Every key is listed exactly once. */
  ghost predicate Valid<K, V>(m: OrderedMap<K, V>)
  {
    && (forall i, j :: 0 <= i < j < |m.keys| ==> m.keys[i] != m.keys[j])
    && m.entries.Keys == KeySet(m.keys)
  }

  function Empty<K, V>(): (r: OrderedMap<K, V>)
    ensures Valid(r) && r.entries == map[]
  {
    OrderedMap([], map[])
  }

  /** `Map.prototype.set`: a new key goes to the end of the order, an
      existing key keeps its place and takes the new value. */
  function Set<K, V>(m: OrderedMap<K, V>, k: K, v: V): (r: OrderedMap<K, V>)
    ensures r.entries == m.entries[k := v]
    ensures Valid(m) ==> Valid(r)
    ensures Valid(m) && k in m.entries ==> r.keys == m.keys
    ensures k !in m.entries ==> r.keys == m.keys + [k]
  {
    if k in m.entries then OrderedMap(m.keys, m.entries[k := v])
    else
      KeySetSnoc(m.keys, k);
      OrderedMap(m.keys + [k], m.entries[k := v])
  }

  /** The keys listed in `keys`. */
  function KeySet<K>(keys: seq<K>): set<K>
  {
    set i | 0 <= i < |keys| :: keys[i]
  }

  lemma KeySetSnoc<K>(keys: seq<K>, k: K)
    ensures KeySet(keys + [k]) == KeySet(keys) + {k}
  {
    var ks := keys + [k];
    forall x | x in KeySet(ks) ensures x in KeySet(keys) + {k} {
      var i :| 0 <= i < |ks| && ks[i] == x;
      if i < |keys| { assert keys[i] == x; }
    }
    forall x | x in KeySet(keys) ensures x in KeySet(ks) {
      var i :| 0 <= i < |keys| && keys[i] == x;
      assert ks[i] == x;
    }
    assert ks[|keys|] == k;
  }

  /** `Map.prototype.get`: `None` is `undefined`. */
  function Get<K, V>(m: OrderedMap<K, V>, k: K): (r: Option<V>)
    ensures r.Some? <==> k in m.entries
    ensures r.Some? ==> r.value == m.entries[k]
  {
    if k in m.entries then Some(m.entries[k]) else None
  }
}
