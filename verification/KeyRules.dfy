/** What a three-way merge gives one key, from what base, a and b hold there. The rules leave no choice. */
module KeyRules {
  import opened Options
  import opened Ids
  import opened Values

  predicate Names(v: TrieValue, id: Oid) {
    match v
    case Id(i) => id == i
    case Conflict(ids) => id in ids
    case Member => false
  }

  /** One ID alone, or the ascending list of several, or of none: exactly the IDs of both. */
  ghost predicate ListsBoth(x: TrieValue, y: TrieValue, r: TrieValue) {
    && (forall id :: Names(r, id) <==> Names(x, id) || Names(y, id))
    && (r.Id? || (r.Conflict? && |r.ids| != 1 && Rises(r.ids)))
  }

  /** Changed on both sides, and not in the same way. */
  predicate Apart<T(==)>(base: T, a: T, b: T) {
    a != base && b != base && a != b
  }

  /** What a key holds after a merge, from what it holds in base, a and b. */
  ghost predicate KeyRuled(policy: MergePolicy, base: Option<TrieValue>, a: Option<TrieValue>, b: Option<TrieValue>,
                           r: Option<TrieValue>) {
    // a side that left the key alone, or did what the other did, yields to the other
    && (a == base ==> r == b)
    && (b == base ==> r == a)
    && (a == b ==> r == a)
    // a pointer either side took away is gone, whatever the other side did
    && (policy.Pointers? && base.Some? && (a.None? || b.None?) ==> r.None?)
    // in a set, what one side took away stays as the other changed it
    && (policy.SetPolicy? && base.Some? && a.None? && b != base ==> r == b)
    && (policy.SetPolicy? && base.Some? && b.None? && a != base ==> r == a)
    // what one side added is there
    && (base.None? && a.None? ==> r == b)
    && (base.None? && b.None? ==> r == a)
    // two different changes leave a conflict
    && (a.Some? && b.Some? && Apart(base, a, b) ==> r.Some? && ListsBoth(a.value, b.value, r.value))
  }

  lemma UnionLists(x: TrieValue, y: TrieValue)
    ensures ListsBoth(x, y, Union(x, y))
  {
    var all := Ascending(IdSet(x) + IdSet(y));
    forall id ensures id in all <==> Names(x, id) || Names(y, id) {
      assert id in all <==> id in IdSet(x) || id in IdSet(y);
    }
  }

  lemma ValueRuled(policy: MergePolicy, base: Option<TrieValue>, a: Option<TrieValue>, b: Option<TrieValue>)
    ensures KeyRuled(policy, base, a, b, MergeValue(policy, base, a, b))
  {
    if a.Some? && b.Some? {
      UnionLists(a.value, b.value);
    }
  }

  lemma ListsOnce(x: TrieValue, y: TrieValue, r: TrieValue, s: TrieValue)
    requires ListsBoth(x, y, r) && ListsBoth(x, y, s)
    ensures r == s
  {
    forall id ensures Names(r, id) <==> Names(s, id) {
    }
    if r.Id? && s.Conflict? {
      OneNamed(r.id, s);
    } else if r.Conflict? && s.Id? {
      OneNamed(s.id, r);
    } else if r.Id? {
      assert Names(r, r.id);
    } else {
      forall id ensures id in r.ids <==> id in s.ids {
        assert Names(r, id) <==> Names(s, id);
      }
      RisesOnce(r.ids, s.ids);
    }
  }

  lemma OneNamed(id: Oid, s: TrieValue)
    requires s.Conflict? && Rises(s.ids) && |s.ids| != 1
    ensures !forall x :: Names(s, x) <==> x == id
  {
    if forall x :: Names(s, x) <==> x == id {
      assert Names(s, id);
      if |s.ids| > 1 {
        assert Names(s, s.ids[0]) && Names(s, s.ids[1]);
      }
    }
  }

  /** The rules decide every key. */
  lemma KeyDecided(policy: MergePolicy, base: Option<TrieValue>, a: Option<TrieValue>, b: Option<TrieValue>,
                   r: Option<TrieValue>, s: Option<TrieValue>)
    requires KeyRuled(policy, base, a, b, r) && KeyRuled(policy, base, a, b, s)
    ensures r == s
  {
    if a.Some? && b.Some? && Apart(base, a, b) {
      ListsOnce(a.value, b.value, r.value, s.value);
    }
  }
}
