/**
 The structural three-way merge, and why it is the pointwise one: whatever the
 short cuts on equal subtrees skip, every key ends with exactly what its own rule
 gives.
 */
module TrieMerge {
  import opened Options
  import opened Keys
  import opened Values
  import opened KeyRules
  import opened Trie

  // --------------------------------------------------------- structural merge

  function Expand(t: Sub, pre: seq<nat>, len: nat): (r: seq<Sub>)
    requires |pre| < 2 * len
    requires t.Leaf? ==> |t.key| == len
  {
    match t
    case Empty => EmptyKids()
    case Leaf(k, _) => EmptyKids()[NibbleAt(k, |pre|) := t]
    case Node(kids) => kids
  }

  function LeafKeys(t: Sub): seq<Key> {
    if t.Leaf? then [t.key] else []
  }

  function LeafValue(t: Sub): Option<TrieValue> {
    if t.Leaf? then Some(t.value) else None
  }

  /** Nothing but leaves of one key, or nothing at all. */
  predicate OneKey(base: Sub, a: Sub, b: Sub) {
    && !base.Node? && !a.Node? && !b.Node?
    && var keys := LeafKeys(base) + LeafKeys(a) + LeafKeys(b);
       forall i | 0 <= i < |keys| - 1 :: keys[i] == keys[i + 1]
  }

  ghost function MergeSub(pre: seq<nat>, len: nat, base: Sub, a: Sub, b: Sub, policy: MergePolicy): Sub
    requires Loose(base, pre, len) && Loose(a, pre, len) && Loose(b, pre, len)
    decreases 2 * len - |pre|, 1
  {
    if a == base then b
    else if b == base then a
    else if a == b then a
    else if OneKey(base, a, b) then
      var keys := LeafKeys(base) + LeafKeys(a) + LeafKeys(b);
      match MergeChanged(policy, LeafValue(base), LeafValue(a), LeafValue(b))
      case None => Empty
      case Some(v) => Leaf(keys[0], v)
    else
      RoomBelow(pre, len, base, a, b);
      Normalize(MergedKids(pre, len, base, a, b, policy))
  }

  /** Slot by slot, one level down. */
  ghost function MergedKids(pre: seq<nat>, len: nat, base: Sub, a: Sub, b: Sub, policy: MergePolicy): (r: seq<Sub>)
    requires Loose(base, pre, len) && Loose(a, pre, len) && Loose(b, pre, len) && |pre| < 2 * len
    ensures |r| == 16
    decreases 2 * len - |pre|, 0, 1
  {
    seq(16, i requires 0 <= i < 16 => MergeBelow(pre, len, base, a, b, policy, i))
  }

  ghost function MergeBelow(pre: seq<nat>, len: nat, base: Sub, a: Sub, b: Sub, policy: MergePolicy, i: nat): Sub
    requires Loose(base, pre, len) && Loose(a, pre, len) && Loose(b, pre, len) && |pre| < 2 * len && i < 16
    decreases 2 * len - |pre|, 0, 0
  {
    ExpandBranch(base, pre, len);
    ExpandBranch(a, pre, len);
    ExpandBranch(b, pre, len);
    MergeSub(pre + [i], len, Expand(base, pre, len)[i], Expand(a, pre, len)[i], Expand(b, pre, len)[i], policy)
  }

  /** The merge recurses only while key nibbles remain. */
  lemma {:induction false} RoomBelow(pre: seq<nat>, len: nat, base: Sub, a: Sub, b: Sub)
    requires Loose(base, pre, len) && Loose(a, pre, len) && Loose(b, pre, len)
    requires !OneKey(base, a, b)
    ensures |pre| < 2 * len
  {
    if !base.Node? && !a.Node? && !b.Node? {
      var keys := LeafKeys(base) + LeafKeys(a) + LeafKeys(b);
      var i :| 0 <= i < |keys| - 1 && keys[i] != keys[i + 1];
      assert forall k | k in keys :: Under(k, pre, len);
      DistinctKeysSplit(keys[i], keys[i + 1], pre, len);
    }
  }

  lemma {:induction false} ExpandBranch(t: Sub, pre: seq<nat>, len: nat)
    requires Loose(t, pre, len) && |pre| < 2 * len
    ensures Branch(Expand(t, pre, len), pre, len)
    ensures forall i | 0 <= i < 16 :: Loose(Expand(t, pre, len)[i], pre + [i], len)
  {
    if t.Leaf? {
      UnderKid(t.key, pre, len);
    }
    forall i | 0 <= i < 16 ensures Loose(Expand(t, pre, len)[i], pre + [i], len) {
      assert Canon(Expand(t, pre, len)[i], pre + [i], len);
    }
  }

  lemma {:induction false} ExpandLookup(t: Sub, pre: seq<nat>, len: nat, key: Key)
    requires Loose(t, pre, len) && |pre| < 2 * len && Under(key, pre, len)
    ensures var n := NibbleAt(key, |pre|);
            && Under(key, pre + [n], len)
            && Loose(Expand(t, pre, len)[n], pre + [n], len)
            && Lookup(Expand(t, pre, len)[n], |pre| + 1, key) == Lookup(t, |pre|, key)
  {
    UnderKid(key, pre, len);
    ExpandBranch(t, pre, len);
  }

  /** Merging keeps canonical form. */
  lemma {:induction false} MergeCanon(pre: seq<nat>, len: nat, base: Sub, a: Sub, b: Sub, policy: MergePolicy)
    requires Loose(base, pre, len) && Loose(a, pre, len) && Loose(b, pre, len)
    ensures Loose(MergeSub(pre, len, base, a, b, policy), pre, len)
    ensures Canon(base, pre, len) && Canon(a, pre, len) && Canon(b, pre, len) ==>
              Canon(MergeSub(pre, len, base, a, b, policy), pre, len)
    decreases 2 * len - |pre|, 1
  {
    if a == base || b == base || a == b {
    } else if OneKey(base, a, b) {
      OneKeyMerge(pre, len, base, a, b, policy, []);
    } else {
      RoomBelow(pre, len, base, a, b);
      MergedKidsCanon(pre, len, base, a, b, policy);
      NormalizeCanon(MergedKids(pre, len, base, a, b, policy), pre, len);
      assert MergeSub(pre, len, base, a, b, policy) == Normalize(MergedKids(pre, len, base, a, b, policy));
    }
  }

  lemma {:induction false} MergedKidsCanon(pre: seq<nat>, len: nat, base: Sub, a: Sub, b: Sub, policy: MergePolicy)
    requires Loose(base, pre, len) && Loose(a, pre, len) && Loose(b, pre, len) && |pre| < 2 * len
    ensures Branch(MergedKids(pre, len, base, a, b, policy), pre, len)
    decreases 2 * len - |pre|, 0
  {
    ExpandBranch(base, pre, len);
    ExpandBranch(a, pre, len);
    ExpandBranch(b, pre, len);
    var nb, na, nb2 := Expand(base, pre, len), Expand(a, pre, len), Expand(b, pre, len);
    forall i | 0 <= i < 16 ensures Canon(MergedKids(pre, len, base, a, b, policy)[i], pre + [i], len) {
      MergeCanon(pre + [i], len, nb[i], na[i], nb2[i], policy);
    }
  }

  /** The main theorem: whatever subtrees were taken wholesale, each key got its own three-way merge. */
  lemma {:induction false} MergePointwise(pre: seq<nat>, len: nat, base: Sub, a: Sub, b: Sub, policy: MergePolicy,
                                          key: Key)
    requires Loose(base, pre, len) && Loose(a, pre, len) && Loose(b, pre, len) && Under(key, pre, len)
    ensures Lookup(MergeSub(pre, len, base, a, b, policy), |pre|, key) ==
            MergeValue(policy, Lookup(base, |pre|, key), Lookup(a, |pre|, key), Lookup(b, |pre|, key))
    decreases 2 * len - |pre|, 1
  {
    if a == base || b == base || a == b {
    } else if OneKey(base, a, b) {
      OneKeyMerge(pre, len, base, a, b, policy, key);
    } else {
      RoomBelow(pre, len, base, a, b);
      StructuralPointwise(pre, len, base, a, b, policy, key);
    }
  }

  /** In `r` every key below `pre` holds what the rules ask for. */
  ghost predicate KeysRuled(policy: MergePolicy, pre: seq<nat>, len: nat, base: Sub, a: Sub, b: Sub, r: Sub) {
    forall key | Under(key, pre, len) ::
      KeyRuled(policy, Lookup(base, |pre|, key), Lookup(a, |pre|, key), Lookup(b, |pre|, key), Lookup(r, |pre|, key))
  }

  /** Every key of a merge follows the rules. */
  lemma KeysFollow(pre: seq<nat>, len: nat, base: Sub, a: Sub, b: Sub, policy: MergePolicy)
    requires Loose(base, pre, len) && Loose(a, pre, len) && Loose(b, pre, len)
    ensures KeysRuled(policy, pre, len, base, a, b, MergeSub(pre, len, base, a, b, policy))
  {
    var r := MergeSub(pre, len, base, a, b, policy);
    forall key | Under(key, pre, len)
      ensures KeyRuled(policy, Lookup(base, |pre|, key), Lookup(a, |pre|, key), Lookup(b, |pre|, key),
                       Lookup(r, |pre|, key))
    {
      MergePointwise(pre, len, base, a, b, policy, key);
      ValueRuled(policy, Lookup(base, |pre|, key), Lookup(a, |pre|, key), Lookup(b, |pre|, key));
    }
  }

  lemma {:induction false} StructuralPointwise(pre: seq<nat>, len: nat, base: Sub, a: Sub, b: Sub,
                                               policy: MergePolicy, key: Key)
    requires Loose(base, pre, len) && Loose(a, pre, len) && Loose(b, pre, len) && Under(key, pre, len)
    requires a != base && b != base && a != b && !OneKey(base, a, b) && |pre| < 2 * len
    ensures Lookup(MergeSub(pre, len, base, a, b, policy), |pre|, key) ==
            MergeValue(policy, Lookup(base, |pre|, key), Lookup(a, |pre|, key), Lookup(b, |pre|, key))
    decreases 2 * len - |pre|, 0
  {
    MergedKidsCanon(pre, len, base, a, b, policy);
    NormalizeLookup(MergedKids(pre, len, base, a, b, policy), pre, len, key);
    PointwiseBelow(pre, len, base, a, b, policy, key);
  }

  /** The per-key rule asks the same question one level down. */
  lemma {:induction false} PointwiseBelow(pre: seq<nat>, len: nat, base: Sub, a: Sub, b: Sub, policy: MergePolicy,
                                          key: Key)
    requires Loose(base, pre, len) && Loose(a, pre, len) && Loose(b, pre, len) && Under(key, pre, len)
    requires |pre| < 2 * len
    ensures Lookup(MergeBelow(pre, len, base, a, b, policy, NibbleAt(key, |pre|)), |pre| + 1, key) ==
            MergeValue(policy, Lookup(base, |pre|, key), Lookup(a, |pre|, key), Lookup(b, |pre|, key))
    decreases 2 * len - |pre|, 0, 0
  {
    ExpandLookup(base, pre, len, key);
    ExpandLookup(a, pre, len, key);
    ExpandLookup(b, pre, len, key);
    var n := NibbleAt(key, |pre|);
    var x, y, z := Expand(base, pre, len)[n], Expand(a, pre, len)[n], Expand(b, pre, len)[n];
    MergePointwise(pre + [n], len, x, y, z, policy, key);
  }

  lemma {:induction false} OneKeyFacts(base: Sub, a: Sub, b: Sub) returns (key: Key)
    requires OneKey(base, a, b) && a != b
    ensures var keys := LeafKeys(base) + LeafKeys(a) + LeafKeys(b); |keys| > 0 && keys[0] == key
    ensures forall t | t == base || t == a || t == b :: t.Empty? || (t.Leaf? && t.key == key)
    ensures a.Leaf? || b.Leaf?
  {
    var keys := LeafKeys(base) + LeafKeys(a) + LeafKeys(b);
    assert |keys| > 0;
    key := keys[0];
    assert |keys| > 1 ==> keys[0] == keys[1];
    assert |keys| > 2 ==> keys[1] == keys[2];
  }

  lemma {:induction false} OneKeyMerge(pre: seq<nat>, len: nat, base: Sub, a: Sub, b: Sub, policy: MergePolicy,
                                       key: Key)
    requires Loose(base, pre, len) && Loose(a, pre, len) && Loose(b, pre, len)
    requires OneKey(base, a, b) && a != base && b != base && a != b
    ensures Canon(MergeSub(pre, len, base, a, b, policy), pre, len)
    ensures Lookup(MergeSub(pre, len, base, a, b, policy), |pre|, key) ==
            MergeValue(policy, Lookup(base, |pre|, key), Lookup(a, |pre|, key), Lookup(b, |pre|, key))
  {
    var k := OneKeyFacts(base, a, b);
    var merged := MergeChanged(policy, LeafValue(base), LeafValue(a), LeafValue(b));
    assert MergeSub(pre, len, base, a, b, policy) == if merged.None? then Empty else Leaf(k, merged.value);
    forall t | t == base || t == a || t == b
      ensures Lookup(t, |pre|, key) == if key == k then LeafValue(t) else None
    {}
    if key == k {
      assert MergeValue(policy, LeafValue(base), LeafValue(a), LeafValue(b)) == merged;
    }
  }
}
