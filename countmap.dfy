/**
 * `helpers/hashmap.rs`: `CountMap::insert_or_increment`, which adds `v` to
 * the count stored under `k`, starting from 0 for a key not yet present.
 */
module CountMaps {

  /** The counts after adding `v` under `k`. */
  function Incremented<K>(m: map<K, nat>, k: K, v: nat): map<K, nat> {
    m[k := (if k in m then m[k] else 0) + v]
  }

  /** The sum of all counts. */
  ghost function MapSum<K(!new)>(m: map<K, nat>): nat
    decreases |m|
  {
    if m == map[] then 0
    else
      var k :| k in m;
      m[k] + MapSum(m - {k})
  }

  /** `MapSum` may take out any key first. */
  lemma {:induction false} MapSumRemove<K(!new)>(m: map<K, nat>, k: K)
    requires k in m
    ensures MapSum(m) == m[k] + MapSum(m - {k})
    decreases |m|
  {
    var j :| j in m && MapSum(m) == m[j] + MapSum(m - {j});
    if j != k {
      assert m - {j} - {k} == m - {k} - {j};
      MapSumRemove(m - {j}, k);
      MapSumRemove(m - {k}, j);
    }
  }

  /** Adding `v` under any key raises the sum of all counts by exactly `v`. */
  lemma IncrementedSum<K(!new)>(m: map<K, nat>, k: K, v: nat)
    ensures MapSum(Incremented(m, k, v)) == MapSum(m) + v
  {
    var r := Incremented(m, k, v);
    MapSumRemove(r, k);
    if k in m {
      MapSumRemove(m, k);
      assert r - {k} == m - {k};
    } else {
      assert r - {k} == m;
    }
  }

  /** A `HashMap<K, usize>` used through `insert_or_increment`. */
  class CountMap<K(==)> {
    var counts: map<K, nat>

    constructor ()
      ensures counts == map[]
    {
      counts := map[];
    }

    /** `insert_or_increment`: `entry(k).or_insert(0)`, then add `v`; no other key changes. */
    method InsertOrIncrement(k: K, v: nat)
      modifies this
      ensures counts == Incremented(old(counts), k, v)
      ensures k in counts && counts[k] == (if k in old(counts) then old(counts)[k] else 0) + v
      ensures forall j :: j != k ==> (j in counts <==> j in old(counts)) && (j in counts ==> counts[j] == old(counts)[j])
    {
      var x := if k in counts then counts[k] else 0;
      counts := counts[k := x + v];
    }
  }
}
