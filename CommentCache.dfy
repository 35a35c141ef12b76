/** The per-topic comment cache: a map from a topic id to the comment list
    fetched for it, patched with object-spread updates. */
module CommentCache {

  /** `prev[k] || []`: the cached list, a missing entry read as empty. */
  function Entry<K, V>(m: map<K, seq<V>>, k: K): seq<V> {
    if k in m then m[k] else []
  }

  /** `{ ...prev, [k]: vs }`: entry `k` becomes `vs`; every other entry is kept. */
  function Put<K, V>(m: map<K, seq<V>>, k: K, vs: seq<V>): (r: map<K, seq<V>>)
    ensures r.Keys == m.Keys + {k}
    ensures r[k] == vs
    ensures forall j :: j in m && j != k ==> r[j] == m[j]
  {
    m[k := vs]
  }

  /** `{ ...prev, [k]: [...(prev[k] || []), v] }`: exactly one value is
      appended to entry `k`, created if missing; every other entry is kept. */
  function Push<K, V>(m: map<K, seq<V>>, k: K, v: V): (r: map<K, seq<V>>)
    ensures r.Keys == m.Keys + {k}
    ensures |r[k]| == |Entry(m, k)| + 1
    ensures r[k][..|Entry(m, k)|] == Entry(m, k) && r[k][|Entry(m, k)|] == v
    ensures forall j :: j in m && j != k ==> r[j] == m[j]
  {
    Put(m, k, Entry(m, k) + [v])
  }
}
