/**
 The trie over a content-addressed store. A store maps IDs to packed nodes and
 only grows; every operation below is proved against the operation on values in
 module Trie, so its theorems hold of root IDs.
 */
module TrieStore {
  import opened Options
  import opened Ids
  import opened Keys
  import opened Values
  import opened Bitmaps
  import opened TrieNodes
  import T = Trie
  import M = TrieMerge
  import H = TrieHistory

  type Objects = map<Oid, Packed>

  // ------------------------------------------------------------ representation

  /** A slot, or its absence, stands for a subtree. */
  ghost predicate Rep(objs: Objects, slot: Option<Slot>, t: T.Sub)
    decreases t
  {
    match t
    case Empty => slot == None
    case Leaf(k, v) => slot == Some(LeafSlot(k, v))
    case Node(kids) => slot.Some? && slot.value.NodeSlot? && RepId(objs, slot.value.id, kids)
  }

  ghost predicate RepId(objs: Objects, id: Oid, kids: seq<T.Sub>)
    decreases kids, 1
  {
    id in objs && Sound(objs[id]) && RepSlots(objs, Unpack(objs[id]), kids)
  }

  ghost predicate RepSlots(objs: Objects, slots: seq<Option<Slot>>, kids: seq<T.Sub>)
    decreases kids, 0
  {
    |slots| == 16 && |kids| == 16 && forall i | 0 <= i < 16 :: Rep(objs, slots[i], kids[i])
  }

  ghost predicate Injective(hash: Packed -> Oid) {
    forall p, q :: hash(p) == hash(q) ==> p == q
  }

  ghost predicate Grew(was: Objects, now: Objects) {
    forall id | id in was :: id in now && now[id] == was[id]
  }

  /** Nothing stored is ever lost or changed, so what was represented stays so. */
  lemma {:induction false} RepGrows(a: Objects, b: Objects, slot: Option<Slot>, t: T.Sub)
    requires Grew(a, b) && Rep(a, slot, t)
    ensures Rep(b, slot, t)
    decreases t
  {
    if t.Node? {
      RepSlotsGrow(a, b, Unpack(a[slot.value.id]), t.kids);
    }
  }

  lemma {:induction false} RepSlotsGrow(a: Objects, b: Objects, slots: seq<Option<Slot>>, kids: seq<T.Sub>)
    requires Grew(a, b) && RepSlots(a, slots, kids)
    ensures RepSlots(b, slots, kids)
    decreases kids
  {
    forall i | 0 <= i < 16 ensures Rep(b, slots[i], kids[i]) {
      RepGrows(a, b, slots[i], kids[i]);
    }
  }

  lemma RepSlotsSet(objs: Objects, slots: seq<Option<Slot>>, kids: seq<T.Sub>, n: nat, slot: Option<Slot>, t: T.Sub)
    requires RepSlots(objs, slots, kids) && n < 16 && Rep(objs, slot, t)
    ensures RepSlots(objs, slots[n := slot], kids[n := t])
  {}

  /** The first `n` slots of `kids`, the rest still empty. */
  ghost function Filled(kids: seq<T.Sub>, n: nat): (r: seq<T.Sub>)
    requires |kids| == 16 && n <= 16
    ensures |r| == 16
    ensures n == 0 ==> r == T.EmptyKids()
    ensures n == 16 ==> r == kids
  {
    kids[..n] + T.EmptyKids()[n..]
  }

  lemma FilledStep(kids: seq<T.Sub>, n: nat)
    requires |kids| == 16 && n < 16
    ensures Filled(kids, n)[n := kids[n]] == Filled(kids, n + 1)
  {}

  /** One more nibble of the merge is filled in, in a store that may have grown. */
  lemma FilledNext(before: Objects, objs: Objects, slots: seq<Option<Slot>>, kids: seq<T.Sub>, n: nat,
                   slot: Option<Slot>)
    requires |kids| == 16 && n < 16 && RepSlots(before, slots, Filled(kids, n)) && Grew(before, objs)
    requires Rep(objs, slot, kids[n])
    ensures RepSlots(objs, slots[n := slot], Filled(kids, n + 1))
  {
    RepSlotsGrow(before, objs, slots, Filled(kids, n));
    RepSlotsSet(objs, slots, Filled(kids, n), n, slot, kids[n]);
    FilledStep(kids, n);
  }

  ghost predicate Hashed(objs: Objects, hash: Packed -> Oid) {
    Injective(hash) && forall id | id in objs :: Sound(objs[id]) && hash(objs[id]) == id
  }

  /** Content addressing: two slots are equal exactly when the subtrees they stand for are. */
  lemma {:induction false} RepUnique(objs: Objects, hash: Packed -> Oid, s1: Option<Slot>, t1: T.Sub,
                                     s2: Option<Slot>, t2: T.Sub)
    requires Hashed(objs, hash) && Rep(objs, s1, t1) && Rep(objs, s2, t2)
    ensures s1 == s2 <==> t1 == t2
    decreases t1
  {
    if t1.Node? && t2.Node? {
      IdUnique(objs, hash, s1.value.id, t1.kids, s2.value.id, t2.kids);
    }
  }

  lemma {:induction false} IdUnique(objs: Objects, hash: Packed -> Oid, id1: Oid, kids1: seq<T.Sub>, id2: Oid,
                                    kids2: seq<T.Sub>)
    requires Hashed(objs, hash) && RepId(objs, id1, kids1) && RepId(objs, id2, kids2)
    ensures id1 == id2 <==> kids1 == kids2
    decreases kids1
  {
    var u1, u2 := Unpack(objs[id1]), Unpack(objs[id2]);
    forall i | 0 <= i < 16 ensures u1[i] == u2[i] <==> kids1[i] == kids2[i] {
      RepUnique(objs, hash, u1[i], kids1[i], u2[i], kids2[i]);
    }
    if kids1 == kids2 {
      assert u1 == u2;
      UnpackInjective(objs[id1], objs[id2]);
    }
  }

  /** Root IDs name contents: equal exactly when every key holds the same. */
  lemma {:induction false} RootIdNamesContents(objs: Objects, hash: Packed -> Oid, id1: Oid, t1: T.Sub, id2: Oid,
                                               t2: T.Sub, len: nat)
    requires Hashed(objs, hash) && T.Root(t1, len) && T.Root(t2, len)
    requires RepId(objs, id1, t1.kids) && RepId(objs, id2, t2.kids)
    ensures id1 == id2 <==> forall key: Key | |key| == len :: T.Lookup(t1, 0, key) == T.Lookup(t2, 0, key)
  {
    IdUnique(objs, hash, id1, t1.kids, id2, t2.kids);
    if forall key: Key | |key| == len :: T.Lookup(t1, 0, key) == T.Lookup(t2, 0, key) {
      T.RootUnique(t1, t2, len);
    }
  }

  /** Merging with the sides swapped returns the same ID. */
  lemma {:induction false} MergedSidesShareId(objs: Objects, hash: Packed -> Oid, len: nat, base: T.Sub, a: T.Sub,
                                              b: T.Sub, policy: MergePolicy, id1: Oid, id2: Oid)
    requires Hashed(objs, hash) && len > 0 && T.Root(base, len) && T.Root(a, len) && T.Root(b, len)
    requires RepId(objs, id1, H.Merge3(len, base, a, b, policy).kids)
    requires RepId(objs, id2, H.Merge3(len, base, b, a, policy).kids)
    ensures id1 == id2
  {
    var x, y := H.Merge3(len, base, a, b, policy), H.Merge3(len, base, b, a, policy);
    forall key: Key | |key| == len
      ensures T.Root(x, len) && T.Root(y, len) && T.Lookup(x, 0, key) == T.Lookup(y, 0, key)
    {
      H.Merge3Lookup(len, base, a, b, policy, key);
      H.Merge3Lookup(len, base, b, a, policy, key);
      MergeValueSymmetric(policy, T.Lookup(base, 0, key), T.Lookup(a, 0, key), T.Lookup(b, 0, key));
    }
    var some: Key := seq(len, _ => 0);
    H.Merge3Lookup(len, base, a, b, policy, some);
    H.Merge3Lookup(len, base, b, a, policy, some);
    RootIdNamesContents(objs, hash, id1, x, id2, y, len);
  }

  // ------------------------------------------------------------- packed slots

  lemma {:induction false} OccupiedSnoc(kids: seq<T.Sub>, t: T.Sub)
    ensures T.Occupied(kids + [t]) == T.Occupied(kids) + if t.Empty? then [] else [t]
  {
    if kids == [] {
    } else {
      assert (kids + [t])[1..] == kids[1..] + [t];
      OccupiedSnoc(kids[1..], t);
    }
  }

  /** The packed slots are the occupied ones, in nibble order. */
  lemma {:induction false} PackedOccupied(objs: Objects, p: Packed, kids: seq<T.Sub>, n: nat)
    requires Sound(p) && RepSlots(objs, Unpack(p), kids) && n <= 16
    ensures Rank(p.bitmap, n) == |T.Occupied(kids[..n])| <= |p.slots|
    ensures forall i | 0 <= i < Rank(p.bitmap, n) :: Rep(objs, Some(p.slots[i]), T.Occupied(kids[..n])[i])
  {
    RankMonotone(p.bitmap, n, 16);
    if n > 0 {
      PackedOccupied(objs, p, kids, n - 1);
      OccupiedSnoc(kids[..n - 1], kids[n - 1]);
      assert kids[..n] == kids[..n - 1] + [kids[n - 1]];
      assert Rep(objs, Unpack(p)[n - 1], kids[n - 1]);
    }
  }

  lemma {:induction false} WalkOccupied(kids: seq<T.Sub>)
    ensures H.WalkKids(kids) == H.WalkKids(T.Occupied(kids))
  {
    if kids != [] {
      WalkOccupied(kids[1..]);
    }
  }

  lemma {:induction false} WalkSnoc(kids: seq<T.Sub>, t: T.Sub)
    ensures H.WalkKids(kids + [t]) == H.WalkKids(kids) + H.Walk(t)
  {
    if kids == [] {
    } else {
      assert (kids + [t])[1..] == kids[1..] + [t];
      WalkSnoc(kids[1..], t);
    }
  }

  predicate IsFlat(sub: Option<Slot>) {
    sub.None? || sub.value.LeafSlot?
  }

  function LeafKey(sub: Option<Slot>): seq<Key> {
    if sub.Some? && sub.value.LeafSlot? then [sub.value.key] else []
  }

  function LeafValue(sub: Option<Slot>): Option<TrieValue> {
    if sub.Some? && sub.value.LeafSlot? then Some(sub.value.value) else None
  }

  /** The leaf rule as the code runs it. */
  method MergeLeaves(base: Option<TrieValue>, a: Option<TrieValue>, b: Option<TrieValue>, policy: MergePolicy)
    returns (r: Option<TrieValue>)
    ensures r == MergeChanged(policy, base, a, b)
  {
    if a.Some? && b.Some? {
      var v := UnionValues(a.value, b.value);
      r := Some(v);
    } else if base.Some? && policy.Pointers? {
      r := None;
    } else {
      r := if a.Some? then a else b;
    }
  }

  // -------------------------------------------------------------------- store

  class Store {
    const hash: Packed -> Oid
    var objs: Objects

    ghost predicate Valid()
      reads this
    {
      Hashed(objs, hash)
    }

    constructor (hash: Packed -> Oid)
      requires Injective(hash)
      ensures Valid() && objs == map[] && this.hash == hash
    {
      this.hash := hash;
      objs := map[];
    }

    method Put(p: Packed) returns (id: Oid)
      requires Valid() && Sound(p)
      modifies this
      ensures Valid() && Grew(old(objs), objs) && id in objs && objs[id] == p
    {
      id := hash(p);
      if id !in objs {
        objs := objs[id := p];
      }
    }

    method Load(id: Oid) returns (r: Result<TrieNode, Oid>)
      requires Valid()
      ensures r.Ok? <==> id in objs
      ensures r.Ok? ==> fresh(r.value) && r.value.Valid() && r.value.Slots() == Unpack(objs[id])
    {
      if id !in objs {
        return Err(id);
      }
      var node := new TrieNode.Load(objs[id]);
      r := Ok(node);
    }

    method Save(node: TrieNode, ghost kids: seq<T.Sub>) returns (id: Oid)
      requires Valid() && node.Valid() && RepSlots(objs, node.Slots(), kids)
      modifies this
      ensures Valid() && Grew(old(objs), objs) && RepId(objs, id, kids)
    {
      id := Put(Packed(node.bitmap, node.slots));
      RepSlotsGrow(old(objs), objs, node.Slots(), kids);
    }

    method EmptyRoot() returns (id: Oid)
      requires Valid()
      modifies this
      ensures Valid() && Grew(old(objs), objs) && RepId(objs, id, T.EmptyKids())
    {
      var node := new TrieNode.Empty();
      id := Save(node, T.EmptyKids());
    }

    method Get(root: Oid, key: Key, ghost kids: seq<T.Sub>) returns (r: Option<TrieValue>)
      requires Valid() && RepId(objs, root, kids)
      ensures r == T.Lookup(T.Node(kids), 0, key)
    {
      var id, depth := root, 0;
      ghost var below := kids;
      while true
        invariant RepId(objs, id, below)
        invariant T.Lookup(T.Node(below), depth, key) == T.Lookup(T.Node(kids), 0, key)
        decreases 2 * |key| - depth
      {
        if depth >= 2 * |key| {
          return None;
        }
        var node := Load(id);
        var slot := node.value.GetSlot(NibbleAt(key, depth));
        assert Rep(objs, slot, below[NibbleAt(key, depth)]);
        match slot {
          case None => return None;
          case Some(LeafSlot(k, v)) => return if k == key then Some(v) else None;
          case Some(NodeSlot(child)) =>
            below := below[NibbleAt(key, depth)].kids;
            id, depth := child, depth + 1;
        }
      }
    }

    method Insert(root: Oid, key: Key, value: TrieValue, ghost t: T.Sub) returns (id: Oid)
      requires Valid() && T.Root(t, |key|) && RepId(objs, root, t.kids)
      modifies this
      ensures Valid() && Grew(old(objs), objs)
      ensures RepId(objs, id, T.Insert(t, |key|, key, value).kids)
    {
      var node := Load(root);
      InsertIn(node.value, 0, key, value, t.kids, [], |key|);
      id := Save(node.value, T.InsertIn(t.kids, [], |key|, key, value));
    }

    method InsertIn(node: TrieNode, depth: nat, key: Key, value: TrieValue,
                    ghost kids: seq<T.Sub>, ghost pre: seq<nat>, ghost len: nat)
      requires Valid() && node.Valid() && RepSlots(objs, node.Slots(), kids)
      requires T.Branch(kids, pre, len) && T.Under(key, pre, len) && depth == |pre|
      modifies this, node
      ensures Valid() && Grew(old(objs), objs) && node.Valid()
      ensures RepSlots(objs, node.Slots(), T.InsertIn(kids, pre, len, key, value))
      decreases kids
    {
      var n := NibbleAt(key, depth);
      T.UnderKid(key, pre, len);
      var slot := node.GetSlot(n);
      assert Rep(objs, slot, kids[n]) && T.Canon(kids[n], pre + [n], len);
      var newSlot: Slot;
      match slot {
        case None => newSlot := LeafSlot(key, value);
        case Some(LeafSlot(k, v)) =>
          if k == key {
            newSlot := LeafSlot(k, value);
          } else {
            var child := PairNode(depth + 1, k, v, key, value, pre + [n], len);
            var id := Save(child, T.PairNode(pre + [n], len, k, v, key, value));
            newSlot := NodeSlot(id);
          }
        case Some(NodeSlot(id)) =>
          assert RepId(objs, id, kids[n].kids);
          var child := Load(id);
          InsertIn(child.value, depth + 1, key, value, kids[n].kids, pre + [n], len);
          var newId := Save(child.value, T.InsertIn(kids[n].kids, pre + [n], len, key, value));
          newSlot := NodeSlot(newId);
      }
      RepSlotsGrow(old(objs), objs, node.Slots(), kids);
      ghost var after := T.InsertIn(kids, pre, len, key, value);
      assert Rep(objs, Some(newSlot), after[n]);
      RepSlotsSet(objs, node.Slots(), kids, n, Some(newSlot), after[n]);
      node.SetSlot(n, Some(newSlot));
    }

    method PairNode(depth: nat, k1: Key, v1: TrieValue, k2: Key, v2: TrieValue,
                    ghost pre: seq<nat>, ghost len: nat) returns (node: TrieNode)
      requires Valid() && T.Under(k1, pre, len) && T.Under(k2, pre, len) && k1 != k2 && depth == |pre|
      modifies this
      ensures Valid() && Grew(old(objs), objs) && fresh(node) && node.Valid()
      ensures RepSlots(objs, node.Slots(), T.PairNode(pre, len, k1, v1, k2, v2))
      decreases 2 * len - |pre|
    {
      T.DistinctKeysSplit(k1, k2, pre, len);
      T.UnderKid(k1, pre, len);
      T.UnderKid(k2, pre, len);
      var n1, n2 := NibbleAt(k1, depth), NibbleAt(k2, depth);
      node := new TrieNode.Empty();
      if n1 == n2 {
        var child := PairNode(depth + 1, k1, v1, k2, v2, pre + [n1], len);
        var id := Save(child, T.PairNode(pre + [n1], len, k1, v1, k2, v2));
        node.SetSlot(n1, Some(NodeSlot(id)));
      } else {
        node.SetSlot(n1, Some(LeafSlot(k1, v1)));
        node.SetSlot(n2, Some(LeafSlot(k2, v2)));
      }
    }

    /** A node in canonical form: nothing, its one leaf, or itself. */
    method Normalize(node: TrieNode, ghost kids: seq<T.Sub>) returns (r: Option<Slot>)
      requires Valid() && node.Valid() && RepSlots(objs, node.Slots(), kids)
      modifies this
      ensures Valid() && Grew(old(objs), objs) && Rep(objs, r, T.Normalize(kids))
    {
      PackedOccupied(objs, Packed(node.bitmap, node.slots), kids, 16);
      assert kids[..16] == kids;
      if |node.slots| == 0 {
        return None;
      }
      if |node.slots| == 1 && node.slots[0].LeafSlot? {
        return Some(node.slots[0]);
      }
      assert T.Normalize(kids) == T.Node(kids);
      var id := Save(node, kids);
      return Some(NodeSlot(id));
    }

    method RemoveIn(node: TrieNode, depth: nat, key: Key, ghost kids: seq<T.Sub>, ghost pre: seq<nat>, ghost len: nat)
      returns (r: Option<Slot>)
      requires Valid() && node.Valid() && RepSlots(objs, node.Slots(), kids)
      requires T.Branch(kids, pre, len) && T.Under(key, pre, len) && depth == |pre|
      modifies this, node
      ensures Valid() && Grew(old(objs), objs) && Rep(objs, r, T.RemoveIn(kids, pre, len, key))
      decreases kids
    {
      var n := NibbleAt(key, depth);
      T.UnderKid(key, pre, len);
      var slot := node.GetSlot(n);
      assert Rep(objs, slot, kids[n]) && T.Canon(kids[n], pre + [n], len);
      ghost var kids' := kids;
      match slot {
        case None =>
          var id := Save(node, kids);
          return Some(NodeSlot(id));
        case Some(LeafSlot(k, _)) =>
          if k != key {
            var id := Save(node, kids);
            return Some(NodeSlot(id));
          }
          node.SetSlot(n, None);
          kids' := kids[n := T.Empty];
        case Some(NodeSlot(id)) =>
          assert RepId(objs, id, kids[n].kids);
          var child := Load(id);
          var below := RemoveIn(child.value, depth + 1, key, kids[n].kids, pre + [n], len);
          kids' := kids[n := T.RemoveIn(kids[n].kids, pre + [n], len, key)];
          RepSlotsGrow(old(objs), objs, node.Slots(), kids);
          node.SetSlot(n, below);
      }
      r := Normalize(node, kids');
    }

    /** A lone leaf or nothing is wrapped in a root node; a node is a root already. */
    method Root(sub: Option<Slot>, ghost t: T.Sub) returns (id: Oid)
      requires Valid() && Rep(objs, sub, t) && (t.Leaf? ==> |t.key| > 0)
      modifies this
      ensures Valid() && Grew(old(objs), objs) && RepId(objs, id, T.Rooted(t).kids)
    {
      if sub.None? {
        id := EmptyRoot();
      } else if sub.value.NodeSlot? {
        id := sub.value.id;
      } else {
        var node := new TrieNode.Empty();
        node.SetSlot(NibbleAt(sub.value.key, 0), sub);
        id := Save(node, T.EmptyKids()[NibbleAt(sub.value.key, 0) := t]);
      }
    }

    method Remove(root: Oid, key: Key, ghost t: T.Sub) returns (id: Oid)
      requires Valid() && |key| > 0 && T.Root(t, |key|) && RepId(objs, root, t.kids)
      modifies this
      ensures Valid() && Grew(old(objs), objs)
      ensures RepId(objs, id, T.Remove(t, |key|, key).kids)
    {
      var node := Load(root);
      var sub := RemoveIn(node.value, 0, key, t.kids, [], |key|);
      T.RemoveCanon(t.kids, [], |key|, key);
      id := Root(sub, T.RemoveIn(t.kids, [], |key|, key));
    }

    method Expand(sub: Option<Slot>, depth: nat, ghost t: T.Sub, ghost pre: seq<nat>, ghost len: nat)
      returns (node: TrieNode)
      requires Valid() && Rep(objs, sub, t) && T.Loose(t, pre, len) && depth == |pre| < 2 * len
      ensures fresh(node) && node.Valid() && RepSlots(objs, node.Slots(), M.Expand(t, pre, len))
    {
      node := new TrieNode.Empty();
      if sub.Some? {
        if sub.value.LeafSlot? {
          node.SetSlot(NibbleAt(sub.value.key, depth), sub);
        } else {
          var loaded := Load(sub.value.id);
          node := loaded.value;
        }
      }
    }

    method MergeSub(depth: nat, base: Option<Slot>, a: Option<Slot>, b: Option<Slot>, policy: MergePolicy,
                    ghost tb: T.Sub, ghost ta: T.Sub, ghost tb2: T.Sub, ghost pre: seq<nat>, ghost len: nat)
      returns (r: Option<Slot>)
      requires Valid() && Rep(objs, base, tb) && Rep(objs, a, ta) && Rep(objs, b, tb2)
      requires T.Loose(tb, pre, len) && T.Loose(ta, pre, len) && T.Loose(tb2, pre, len) && depth == |pre|
      modifies this
      ensures Valid() && Grew(old(objs), objs) && Rep(objs, r, M.MergeSub(pre, len, tb, ta, tb2, policy))
      ensures M.KeysRuled(policy, pre, len, tb, ta, tb2, M.MergeSub(pre, len, tb, ta, tb2, policy))
      decreases 2 * len - |pre|
    {
      M.KeysFollow(pre, len, tb, ta, tb2, policy);
      RepUnique(objs, hash, a, ta, base, tb);
      RepUnique(objs, hash, b, tb2, base, tb);
      RepUnique(objs, hash, a, ta, b, tb2);
      if a == base {
        return b;
      }
      if b == base || a == b {
        return a;
      }
      if IsFlat(base) && IsFlat(a) && IsFlat(b) {
        var keys := LeafKey(base) + LeafKey(a) + LeafKey(b);
        if forall i | 0 <= i < |keys| - 1 :: keys[i] == keys[i + 1] {
          assert M.OneKey(tb, ta, tb2);
          var merged := MergeLeaves(LeafValue(base), LeafValue(a), LeafValue(b), policy);
          return if merged.None? then None else Some(LeafSlot(keys[0], merged.value));
        }
      }
      M.RoomBelow(pre, len, tb, ta, tb2);
      r := MergeNodes(depth, base, a, b, policy, tb, ta, tb2, pre, len);
    }

    /** Where no subtree can be taken whole, each nibble is merged on its own. */
    method MergeNodes(depth: nat, base: Option<Slot>, a: Option<Slot>, b: Option<Slot>, policy: MergePolicy,
                      ghost tb: T.Sub, ghost ta: T.Sub, ghost tb2: T.Sub, ghost pre: seq<nat>, ghost len: nat)
      returns (r: Option<Slot>)
      requires Valid() && Rep(objs, base, tb) && Rep(objs, a, ta) && Rep(objs, b, tb2)
      requires T.Loose(tb, pre, len) && T.Loose(ta, pre, len) && T.Loose(tb2, pre, len) && depth == |pre| < 2 * len
      modifies this
      ensures Valid() && Grew(old(objs), objs)
      ensures Rep(objs, r, T.Normalize(M.MergedKids(pre, len, tb, ta, tb2, policy)))
      decreases 2 * len - |pre|, 0, 3
    {
      var nb := Expand(base, depth, tb, pre, len);
      var na := Expand(a, depth, ta, pre, len);
      var nb2 := Expand(b, depth, tb2, pre, len);
      var out := MergeSlots(depth, nb, na, nb2, policy, tb, ta, tb2, pre, len);
      r := Normalize(out, M.MergedKids(pre, len, tb, ta, tb2, policy));
    }

    method MergeSlots(depth: nat, nb: TrieNode, na: TrieNode, nb2: TrieNode, policy: MergePolicy,
                      ghost tb: T.Sub, ghost ta: T.Sub, ghost tb2: T.Sub, ghost pre: seq<nat>, ghost len: nat)
      returns (out: TrieNode)
      requires Valid()
      requires T.Loose(tb, pre, len) && T.Loose(ta, pre, len) && T.Loose(tb2, pre, len) && depth == |pre| < 2 * len
      requires Sides(nb, na, nb2, M.Expand(tb, pre, len), M.Expand(ta, pre, len), M.Expand(tb2, pre, len))
      modifies this
      ensures Valid() && Grew(old(objs), objs) && fresh(out) && out.Valid()
      ensures RepSlots(objs, out.Slots(), M.MergedKids(pre, len, tb, ta, tb2, policy))
      decreases 2 * len - |pre|, 0, 2
    {
      ghost var kids := M.MergedKids(pre, len, tb, ta, tb2, policy);
      out := new TrieNode.Empty();
      for nib := 0 to 16
        invariant Valid() && Grew(old(objs), objs) && out.Valid()
        invariant Sides(nb, na, nb2, M.Expand(tb, pre, len), M.Expand(ta, pre, len), M.Expand(tb2, pre, len))
        invariant RepSlots(objs, out.Slots(), Filled(kids, nib))
      {
        FillNibble(out, nib, depth, nb, na, nb2, policy, tb, ta, tb2, pre, len);
      }
    }

    /** The merge of one nibble, put in its slot. */
    method FillNibble(out: TrieNode, nib: nat, depth: nat, nb: TrieNode, na: TrieNode, nb2: TrieNode,
                      policy: MergePolicy, ghost tb: T.Sub, ghost ta: T.Sub, ghost tb2: T.Sub, ghost pre: seq<nat>,
                      ghost len: nat)
      requires Valid() && nib < 16 && out.Valid() && out != nb && out != na && out != nb2
      requires T.Loose(tb, pre, len) && T.Loose(ta, pre, len) && T.Loose(tb2, pre, len) && depth == |pre| < 2 * len
      requires Sides(nb, na, nb2, M.Expand(tb, pre, len), M.Expand(ta, pre, len), M.Expand(tb2, pre, len))
      requires RepSlots(objs, out.Slots(), Filled(M.MergedKids(pre, len, tb, ta, tb2, policy), nib))
      modifies this, out
      ensures Valid() && Grew(old(objs), objs) && out.Valid()
      ensures Sides(nb, na, nb2, M.Expand(tb, pre, len), M.Expand(ta, pre, len), M.Expand(tb2, pre, len))
      ensures RepSlots(objs, out.Slots(), Filled(M.MergedKids(pre, len, tb, ta, tb2, policy), nib + 1))
      decreases 2 * len - |pre|, 0, 1
    {
      ghost var kids := M.MergedKids(pre, len, tb, ta, tb2, policy);
      var merged := MergeNibble(depth, nib, nb, na, nb2, policy, tb, ta, tb2, pre, len);
      FilledNext(old(objs), objs, out.Slots(), kids, nib, merged);
      out.SetSlot(nib, merged);
    }

    /** The three expanded nodes of a merge stand for their subtrees' slots. */
    ghost predicate Sides(nb: TrieNode, na: TrieNode, nb2: TrieNode, eb: seq<T.Sub>, ea: seq<T.Sub>, eb2: seq<T.Sub>)
      reads this, nb, na, nb2
    {
      && nb.Valid() && RepSlots(objs, nb.Slots(), eb)
      && na.Valid() && RepSlots(objs, na.Slots(), ea)
      && nb2.Valid() && RepSlots(objs, nb2.Slots(), eb2)
    }

    method MergeNibble(depth: nat, nib: nat, nb: TrieNode, na: TrieNode, nb2: TrieNode, policy: MergePolicy,
                       ghost tb: T.Sub, ghost ta: T.Sub, ghost tb2: T.Sub, ghost pre: seq<nat>, ghost len: nat)
      returns (r: Option<Slot>)
      requires Valid() && nib < 16
      requires T.Loose(tb, pre, len) && T.Loose(ta, pre, len) && T.Loose(tb2, pre, len) && depth == |pre| < 2 * len
      requires Sides(nb, na, nb2, M.Expand(tb, pre, len), M.Expand(ta, pre, len), M.Expand(tb2, pre, len))
      modifies this
      ensures Valid() && Grew(old(objs), objs)
      ensures Sides(nb, na, nb2, M.Expand(tb, pre, len), M.Expand(ta, pre, len), M.Expand(tb2, pre, len))
      ensures Rep(objs, r, M.MergeBelow(pre, len, tb, ta, tb2, policy, nib))
      decreases 2 * len - |pre|, 0, 0
    {
      ghost var eb, ea, eb2 := M.Expand(tb, pre, len), M.Expand(ta, pre, len), M.Expand(tb2, pre, len);
      M.ExpandBranch(tb, pre, len);
      M.ExpandBranch(ta, pre, len);
      M.ExpandBranch(tb2, pre, len);
      var sb := nb.GetSlot(nib);
      var sa := na.GetSlot(nib);
      var sb2 := nb2.GetSlot(nib);
      r := MergeSub(depth + 1, sb, sa, sb2, policy, eb[nib], ea[nib], eb2[nib], pre + [nib], len);
      RepSlotsGrow(old(objs), objs, nb.Slots(), eb);
      RepSlotsGrow(old(objs), objs, na.Slots(), ea);
      RepSlotsGrow(old(objs), objs, nb2.Slots(), eb2);
    }

    method Merge3(base: Oid, a: Oid, b: Oid, policy: MergePolicy,
                  ghost tb: T.Sub, ghost ta: T.Sub, ghost tb2: T.Sub, ghost len: nat)
      returns (id: Oid)
      requires Valid() && len > 0 && T.Root(tb, len) && T.Root(ta, len) && T.Root(tb2, len)
      requires RepId(objs, base, tb.kids) && RepId(objs, a, ta.kids) && RepId(objs, b, tb2.kids)
      modifies this
      ensures Valid() && Grew(old(objs), objs)
      ensures RepId(objs, id, H.Merge3(len, tb, ta, tb2, policy).kids)
      ensures M.KeysRuled(policy, [], len, tb, ta, tb2, H.Merge3(len, tb, ta, tb2, policy))
    {
      var merged :=
        MergeSub(0, Some(NodeSlot(base)), Some(NodeSlot(a)), Some(NodeSlot(b)), policy, tb, ta, tb2, [], len);
      M.MergeCanon([], len, tb, ta, tb2, policy);
      id := Root(merged, M.MergeSub([], len, tb, ta, tb2, policy));
      H.Merge3Follows(len, tb, ta, tb2, policy);
    }

    /** Every entry below `id`, pushed after what `out` already holds. */
    method Walk(id: Oid, before: seq<H.Entry>, ghost kids: seq<T.Sub>) returns (out: seq<H.Entry>)
      requires Valid() && RepId(objs, id, kids)
      ensures out == before + H.WalkKids(kids)
      decreases kids
    {
      var loaded := Load(id);
      var node := loaded.value;
      ghost var slots := T.Occupied(kids);
      PackedOccupied(objs, objs[id], kids, 16);
      assert kids[..16] == kids;
      WalkOccupied(kids);
      out := before;
      var p := objs[id];
      for i := 0 to |p.slots|
        invariant out == before + H.WalkKids(slots[..i])
      {
        WalkSnoc(slots[..i], slots[i]);
        assert slots[..i + 1] == slots[..i] + [slots[i]];
        assert Rep(objs, Some(p.slots[i]), slots[i]);
        match p.slots[i] {
          case LeafSlot(k, v) => out := out + [(k, v)];
          case NodeSlot(child) =>
            OccupiedSmaller(kids, i);
            out := Walk(child, out, slots[i].kids);
        }
      }
      assert slots[..|slots|] == slots;
    }

    method Entries(root: Oid, ghost t: T.Sub) returns (out: seq<H.Entry>)
      requires Valid() && t.Node? && RepId(objs, root, t.kids)
      ensures out == H.Walk(t)
    {
      out := Walk(root, [], t.kids);
    }
  }

  method UnionValues(a: TrieValue, b: TrieValue) returns (v: TrieValue)
    ensures v == Union(a, b)
  {
    var all := SortIds(IdSet(a) + IdSet(b));
    v := if |all| == 1 then Id(all[0]) else Conflict(all);
  }

  lemma {:induction false} OccupiedSmaller(kids: seq<T.Sub>, i: nat)
    requires i < |T.Occupied(kids)|
    ensures T.Occupied(kids)[i] in kids
  {
    if kids[0].Empty? {
      OccupiedSmaller(kids[1..], i);
    } else if i > 0 {
      OccupiedSmaller(kids[1..], i - 1);
    }
  }
}
