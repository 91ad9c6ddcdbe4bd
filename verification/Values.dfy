/** What a trie key holds, and the rule that merges one key three ways. */
module Values {
  import opened Options
  import opened Ids

  /** A pointer, the sorted alternatives concurrent writers left, or set membership. */
  datatype TrieValue = Id(id: Oid) | Conflict(ids: seq<Oid>) | Member

  /** Removal wins in pointer maps; in sets an addition wins. */
  datatype MergePolicy = Pointers | SetPolicy

  function ValueIds(v: TrieValue): seq<Oid> {
    match v
    case Id(i) => [i]
    case Conflict(ids) => ids
    case Member => []
  }

  function IdSet(v: TrieValue): set<Oid> {
    set i | i in ValueIds(v)
  }

  /** Every ID either side points at, sorted and without duplicates. */
  function Union(a: TrieValue, b: TrieValue): TrieValue {
    var all := Ascending(IdSet(a) + IdSet(b));
    if |all| == 1 then Id(all[0]) else Conflict(all)
  }

  /** The leaf rule, reached when neither side is the base and the sides differ. */
  function MergeChanged(policy: MergePolicy, base: Option<TrieValue>, a: Option<TrieValue>, b: Option<TrieValue>)
    : Option<TrieValue>
  {
    match (base, a, b)
    case (_, Some(x), Some(y)) => Some(Union(x, y))
    case (Some(_), None, Some(y)) => if policy.Pointers? then None else Some(y)
    case (Some(_), Some(y), None) => if policy.Pointers? then None else Some(y)
    case (None, None, Some(y)) => Some(y)
    case (None, Some(y), None) => Some(y)
    case (_, None, None) => None
  }

  /** What one key holds after the merge, from what it holds in base, a and b. */
  function MergeValue(policy: MergePolicy, base: Option<TrieValue>, a: Option<TrieValue>, b: Option<TrieValue>)
    : Option<TrieValue>
  {
    if a == base then b
    else if b == base then a
    else if a == b then a
    else MergeChanged(policy, base, a, b)
  }

  lemma MergeValueSymmetric(policy: MergePolicy, base: Option<TrieValue>, a: Option<TrieValue>, b: Option<TrieValue>)
    ensures MergeValue(policy, base, a, b) == MergeValue(policy, base, b, a)
  {
    if a.Some? && b.Some? {
      UnionSymmetric(a.value, b.value);
    }
  }

  lemma UnionSymmetric(a: TrieValue, b: TrieValue)
    ensures Union(a, b) == Union(b, a)
  {
    assert IdSet(a) + IdSet(b) == IdSet(b) + IdSet(a);
  }

  function At<K, V>(m: map<K, V>, k: K): Option<V> {
    if k in m then Some(m[k]) else None
  }

  /** The three-way merge of maps, key by key. */
  function MergeMaps<K(!new)>(policy: MergePolicy, base: map<K, TrieValue>, a: map<K, TrieValue>, b: map<K, TrieValue>)
    : (r: map<K, TrieValue>)
    ensures forall k :: At(r, k) == MergeValue(policy, At(base, k), At(a, k), At(b, k))
  {
    map k | k in base.Keys + a.Keys + b.Keys && MergeValue(policy, At(base, k), At(a, k), At(b, k)).Some?
      :: MergeValue(policy, At(base, k), At(a, k), At(b, k)).value
  }

  lemma SameMap<K(!new), V>(a: map<K, V>, b: map<K, V>)
    requires forall k :: At(a, k) == At(b, k)
    ensures a == b
  {
    forall k ensures k in a <==> k in b {
      assert At(a, k) == At(b, k);
    }
    forall k | k in a ensures a[k] == b[k] {
      assert At(a, k) == At(b, k);
    }
  }
}
