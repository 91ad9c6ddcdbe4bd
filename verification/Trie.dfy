/**
 The persistent trie as values: what a node ID denotes once every reference is
 followed. A content-addressed ID is an injective name of its contents, so two
 IDs are equal exactly when these values are (module TrieStore proves it).
 */
module Trie {
  import opened Options
  import opened Keys
  import opened Values

  /** A slot seen abstractly: nothing, one entry, or a node of sixteen slots. */
  datatype Sub = Empty | Leaf(key: Key, value: TrieValue) | Node(kids: seq<Sub>)

  // ---------------------------------------------------------------- contents

  function Lookup(t: Sub, depth: nat, key: Key): Option<TrieValue> {
    match t
    case Empty => None
    case Leaf(k, v) => if k == key then Some(v) else None
    case Node(kids) =>
      if depth < 2 * |key| && |kids| == 16 then Lookup(kids[NibbleAt(key, depth)], depth + 1, key) else None
  }

  // ----------------------------------------------------------- canonical form

  /** The stored slots of a node, in nibble order. */
  function Occupied(kids: seq<Sub>): (r: seq<Sub>)
    ensures |r| <= |kids|
  {
    if kids == [] then []
    else if kids[0].Empty? then Occupied(kids[1..])
    else [kids[0]] + Occupied(kids[1..])
  }

  function Normalize(kids: seq<Sub>): Sub {
    var slots := Occupied(kids);
    if |slots| == 0 then Empty
    else if |slots| == 1 && slots[0].Leaf? then slots[0]
    else Node(kids)
  }

  /** `t` sits under the nibbles `pre` in a trie of keys `len` bytes long, in canonical form. */
  ghost predicate Canon(t: Sub, pre: seq<nat>, len: nat) {
    match t
    case Empty => true
    case Leaf(k, _) => |k| == len && pre <= Nibbles(k)
    case Node(kids) => Branch(kids, pre, len) && Normalize(kids) == t
  }

  ghost predicate Branch(kids: seq<Sub>, pre: seq<nat>, len: nat) {
    && |pre| < 2 * len
    && |kids| == 16
    && forall i | 0 <= i < 16 :: Canon(kids[i], pre + [i], len)
  }

  /** A root is always a node, even with no entry or one. */
  ghost predicate Root(t: Sub, len: nat) {
    t.Node? && Branch(t.kids, [], len)
  }

  /** What a merge may meet: a canonical subtree, or a root. */
  ghost predicate Loose(t: Sub, pre: seq<nat>, len: nat) {
    if t.Node? then Branch(t.kids, pre, len) else Canon(t, pre, len)
  }

  /** `key` belongs under `pre`. */
  ghost predicate Under(key: Key, pre: seq<nat>, len: nat) {
    |key| == len && pre <= Nibbles(key)
  }

  lemma UnderKid(key: Key, pre: seq<nat>, len: nat)
    requires Under(key, pre, len) && |pre| < 2 * len
    ensures Under(key, pre + [NibbleAt(key, |pre|)], len)
  {
    assert pre + [NibbleAt(key, |pre|)] == Nibbles(key)[..|pre| + 1];
  }

  lemma KidUnder(key: Key, pre: seq<nat>, i: nat, len: nat)
    requires Under(key, pre + [i], len)
    ensures Under(key, pre, len) && |pre| < 2 * len && NibbleAt(key, |pre|) == i
  {
    assert (pre + [i])[|pre|] == Nibbles(key)[|pre|];
    assert (pre + [i])[..|pre|] == pre;
  }

  lemma {:induction false} OccupiedFacts(kids: seq<Sub>)
    ensures |Occupied(kids)| == 0 <==> forall i | 0 <= i < |kids| :: kids[i].Empty?
    ensures |Occupied(kids)| == 1 ==>
              exists i: nat :: OnlyOccupied(kids, i) && kids[i] == Occupied(kids)[0]
    ensures |Occupied(kids)| >= 2 ==> exists i, j :: 0 <= i < j < |kids| && !kids[i].Empty? && !kids[j].Empty?
    ensures forall i: nat | OnlyOccupied(kids, i) :: Occupied(kids) == [kids[i]]
    ensures forall i, j | 0 <= i < j < |kids| && !kids[i].Empty? && !kids[j].Empty? :: |Occupied(kids)| >= 2
  {
    if kids == [] {
    } else {
      var rest := kids[1..];
      OccupiedFacts(rest);
      assert forall i | 0 < i < |kids| :: kids[i] == rest[i - 1];
      if kids[0].Empty? {
        if |Occupied(rest)| == 1 {
          var i: nat :| OnlyOccupied(rest, i) && rest[i] == Occupied(rest)[0];
          assert OnlyOccupied(kids, i + 1);
        }
        if |Occupied(rest)| >= 2 {
          var i, j :| 0 <= i < j < |rest| && !rest[i].Empty? && !rest[j].Empty?;
          assert !kids[i + 1].Empty? && !kids[j + 1].Empty?;
        }
        forall i: nat | OnlyOccupied(kids, i) ensures Occupied(kids) == [kids[i]] {
          assert OnlyOccupied(rest, i - 1);
        }
      } else {
        if |Occupied(rest)| == 0 {
          assert OnlyOccupied(kids, 0);
        } else {
          assert exists j :: 0 <= j < |rest| && !rest[j].Empty?;
          var j :| 0 <= j < |rest| && !rest[j].Empty?;
          assert !kids[j + 1].Empty?;
        }
      }
    }
  }

  ghost predicate OnlyOccupied(kids: seq<Sub>, i: nat) {
    i < |kids| && !kids[i].Empty? && forall j | 0 <= j < |kids| && j != i :: kids[j].Empty?
  }

  lemma {:induction false} NormalizeCanon(kids: seq<Sub>, pre: seq<nat>, len: nat)
    requires Branch(kids, pre, len)
    ensures Canon(Normalize(kids), pre, len)
  {
    OccupiedFacts(kids);
    if |Occupied(kids)| == 1 && Occupied(kids)[0].Leaf? {
      var i: nat :| OnlyOccupied(kids, i) && kids[i] == Occupied(kids)[0];
      assert Canon(kids[i], pre + [i], len);
      KidUnder(kids[i].key, pre, i, len);
    }
  }

  lemma {:induction false} NormalizeLookup(kids: seq<Sub>, pre: seq<nat>, len: nat, key: Key)
    requires Branch(kids, pre, len) && Under(key, pre, len)
    ensures Lookup(Normalize(kids), |pre|, key) == Lookup(kids[NibbleAt(key, |pre|)], |pre| + 1, key)
  {
    OccupiedFacts(kids);
    var n := NibbleAt(key, |pre|);
    if |Occupied(kids)| == 1 && Occupied(kids)[0].Leaf? {
      var i: nat :| OnlyOccupied(kids, i) && kids[i] == Occupied(kids)[0];
      assert Canon(kids[i], pre + [i], len);
      KidUnder(kids[i].key, pre, i, len);
    }
  }

  // --------------------------------------------------------------- uniqueness

  lemma SomeKid(kids: seq<Sub>) returns (i: nat)
    requires Normalize(kids) == Node(kids)
    ensures i < |kids| && !kids[i].Empty?
  {
    OccupiedFacts(kids);
    i :| 0 <= i < |kids| && !kids[i].Empty?;
  }

  lemma {:induction false} Inhabited(t: Sub, pre: seq<nat>, len: nat) returns (key: Key)
    requires Canon(t, pre, len) && !t.Empty?
    ensures Under(key, pre, len) && Lookup(t, |pre|, key).Some?
  {
    match t
    case Leaf(k, _) => key := k;
    case Node(kids) =>
      var i := SomeKid(kids);
      key := Inhabited(kids[i], pre + [i], len);
      KidUnder(key, pre, i, len);
  }

  /** A canonical node has two occupied slots, or one that holds a node. */
  lemma {:induction false} TwoSlots(kids: seq<Sub>) returns (i: nat, j: nat)
    requires Normalize(kids) == Node(kids)
    ensures i < |kids| && j < |kids| && !kids[i].Empty? && !kids[j].Empty?
    ensures i == j ==> kids[i].Node?
  {
    OccupiedFacts(kids);
    if |Occupied(kids)| == 1 {
      i :| OnlyOccupied(kids, i) && kids[i] == Occupied(kids)[0];
      j := i;
    } else {
      i, j :| 0 <= i < j < |kids| && !kids[i].Empty? && !kids[j].Empty?;
    }
  }

  lemma {:induction false} TwoKeys(t: Sub, pre: seq<nat>, len: nat) returns (k1: Key, k2: Key)
    requires Canon(t, pre, len) && t.Node?
    ensures k1 != k2 && Under(k1, pre, len) && Under(k2, pre, len)
    ensures Lookup(t, |pre|, k1).Some? && Lookup(t, |pre|, k2).Some?
  {
    var i, j := TwoSlots(t.kids);
    if i == j {
      k1, k2 := TwoKeys(t.kids[i], pre + [i], len);
      KidUnder(k1, pre, i, len);
      KidUnder(k2, pre, i, len);
    } else {
      k1 := Inhabited(t.kids[i], pre + [i], len);
      k2 := Inhabited(t.kids[j], pre + [j], len);
      KidUnder(k1, pre, i, len);
      KidUnder(k2, pre, j, len);
    }
  }

  ghost predicate SameContents(a: Sub, b: Sub, pre: seq<nat>, len: nat) {
    forall key | Under(key, pre, len) :: Lookup(a, |pre|, key) == Lookup(b, |pre|, key)
  }

  lemma Agree(a: Sub, b: Sub, pre: seq<nat>, len: nat, key: Key)
    requires SameContents(a, b, pre, len) && Under(key, pre, len)
    ensures Lookup(a, |pre|, key) == Lookup(b, |pre|, key)
  {}

  /** Canonical form is unique: the contents decide the tree. */
  lemma {:induction false} CanonUnique(a: Sub, b: Sub, pre: seq<nat>, len: nat)
    requires Canon(a, pre, len) && Canon(b, pre, len) && SameContents(a, b, pre, len)
    ensures a == b
  {
    if a.Node? && b.Node? {
      BranchUnique(a.kids, b.kids, pre, len);
    } else if a.Node? {
      var k1, k2 := TwoKeys(a, pre, len);
      assert false;
    } else if b.Node? {
      var k1, k2 := TwoKeys(b, pre, len);
      assert false;
    } else if !a.Empty? {
      assert Lookup(b, |pre|, a.key).Some?;
    } else if !b.Empty? {
      Agree(a, b, pre, len, b.key);
    }
  }

  lemma {:induction false} BranchUnique(a: seq<Sub>, b: seq<Sub>, pre: seq<nat>, len: nat)
    requires Branch(a, pre, len) && Branch(b, pre, len) && SameContents(Node(a), Node(b), pre, len)
    ensures a == b
    decreases a
  {
    forall i | 0 <= i < 16 ensures a[i] == b[i] {
      forall key | Under(key, pre + [i], len)
        ensures Lookup(a[i], |pre| + 1, key) == Lookup(b[i], |pre| + 1, key)
      {
        KidUnder(key, pre, i, len);
        assert Lookup(Node(a), |pre|, key) == Lookup(Node(b), |pre|, key);
      }
      CanonUnique(a[i], b[i], pre + [i], len);
    }
  }

  /** Equal contents, equal root: no trace of how a trie was reached remains in it. */
  lemma {:induction false} RootUnique(a: Sub, b: Sub, len: nat)
    requires Root(a, len) && Root(b, len)
    requires forall key: Key | |key| == len :: Lookup(a, 0, key) == Lookup(b, 0, key)
    ensures a == b
  {
    BranchUnique(a.kids, b.kids, [], len);
  }

  // ------------------------------------------------------------------ updates

  function EmptyKids(): (r: seq<Sub>)
    ensures |r| == 16 && forall i | 0 <= i < 16 :: r[i] == Empty
  {
    seq(16, _ => Empty)
  }

  /** Root form of a merge or removal result: a lone leaf is wrapped in a node again. */
  function Rooted(t: Sub): Sub
    requires t.Leaf? ==> |t.key| > 0
  {
    match t
    case Empty => Node(EmptyKids())
    case Leaf(k, _) => Node(EmptyKids()[NibbleAt(k, 0) := t])
    case Node(_) => t
  }

  /** Insertion below the node reached by `pre`, whose length is the depth. */
  function InsertIn(kids: seq<Sub>, pre: seq<nat>, len: nat, key: Key, value: TrieValue): (r: seq<Sub>)
    requires Branch(kids, pre, len) && Under(key, pre, len)
    ensures |r| == 16
    decreases kids
  {
    UnderKid(key, pre, len);
    var n := NibbleAt(key, |pre|);
    assert Canon(kids[n], pre + [n], len);
    var slot :=
      match kids[n]
      case Empty => Leaf(key, value)
      case Leaf(k, v) =>
        if k == key then Leaf(key, value) else Node(PairNode(pre + [n], len, k, v, key, value))
      case Node(c) => Node(InsertIn(c, pre + [n], len, key, value));
    kids[n := slot]
  }

  /** The node for two keys that first share the nibbles `pre`. */
  function PairNode(pre: seq<nat>, len: nat, k1: Key, v1: TrieValue, k2: Key, v2: TrieValue): (r: seq<Sub>)
    requires Under(k1, pre, len) && Under(k2, pre, len) && k1 != k2
    ensures |r| == 16
    decreases 2 * len - |pre|
  {
    DistinctKeysSplit(k1, k2, pre, len);
    UnderKid(k1, pre, len);
    UnderKid(k2, pre, len);
    var n1 := NibbleAt(k1, |pre|);
    var n2 := NibbleAt(k2, |pre|);
    if n1 == n2 then EmptyKids()[n1 := Node(PairNode(pre + [n1], len, k1, v1, k2, v2))]
    else EmptyKids()[n1 := Leaf(k1, v1)][n2 := Leaf(k2, v2)]
  }

  function Insert(t: Sub, len: nat, key: Key, value: TrieValue): Sub
    requires Root(t, len) && |key| == len
  {
    Node(InsertIn(t.kids, [], len, key, value))
  }

  function RemoveIn(kids: seq<Sub>, pre: seq<nat>, len: nat, key: Key): Sub
    requires Branch(kids, pre, len) && Under(key, pre, len)
    decreases kids
  {
    UnderKid(key, pre, len);
    var n := NibbleAt(key, |pre|);
    assert Canon(kids[n], pre + [n], len);
    match kids[n]
    case Empty => Node(kids)
    case Leaf(k, _) => if k != key then Node(kids) else Normalize(kids[n := Empty])
    case Node(c) => Normalize(kids[n := RemoveIn(c, pre + [n], len, key)])
  }

  function Remove(t: Sub, len: nat, key: Key): Sub
    requires Root(t, len) && |key| == len
  {
    RemoveCanon(t.kids, [], len, key);
    Rooted(RemoveIn(t.kids, [], len, key))
  }

  lemma DistinctKeysSplit(k1: Key, k2: Key, pre: seq<nat>, len: nat)
    requires Under(k1, pre, len) && Under(k2, pre, len) && k1 != k2
    ensures |pre| < 2 * len
  {
    if |pre| >= 2 * len {
      assert Nibbles(k1) == pre == Nibbles(k2);
      NibblesInjective(k1, k2);
    }
  }

  lemma {:induction false} NormalNode(kids: seq<Sub>, i: nat, j: nat)
    requires i < |kids| && j < |kids| && !kids[i].Empty? && !kids[j].Empty?
    requires i == j ==> kids[i].Node?
    ensures Normalize(kids) == Node(kids)
  {
    OccupiedFacts(kids);
  }

  lemma {:induction false} PairNodeCorrect(pre: seq<nat>, len: nat, k1: Key, v1: TrieValue, k2: Key, v2: TrieValue)
    requires Under(k1, pre, len) && Under(k2, pre, len) && k1 != k2
    ensures Canon(Node(PairNode(pre, len, k1, v1, k2, v2)), pre, len)
    ensures forall key | Under(key, pre, len) ::
              Lookup(Node(PairNode(pre, len, k1, v1, k2, v2)), |pre|, key) ==
              if key == k2 then Some(v2) else if key == k1 then Some(v1) else None
    decreases 2 * len - |pre|
  {
    DistinctKeysSplit(k1, k2, pre, len);
    UnderKid(k1, pre, len);
    UnderKid(k2, pre, len);
    var n1 := NibbleAt(k1, |pre|);
    var n2 := NibbleAt(k2, |pre|);
    var kids := PairNode(pre, len, k1, v1, k2, v2);
    if n1 == n2 {
      PairNodeCorrect(pre + [n1], len, k1, v1, k2, v2);
    }
    NormalNode(kids, n1, n2);
    forall key | Under(key, pre, len)
      ensures Lookup(Node(kids), |pre|, key) == if key == k2 then Some(v2) else if key == k1 then Some(v1) else None
    {
      UnderKid(key, pre, len);
    }
  }

  lemma {:induction false} InsertCanon(kids: seq<Sub>, pre: seq<nat>, len: nat, key: Key, value: TrieValue)
    requires Branch(kids, pre, len) && Under(key, pre, len)
    ensures Branch(InsertIn(kids, pre, len, key, value), pre, len)
    ensures Normalize(kids) == Node(kids) ==>
              var out := InsertIn(kids, pre, len, key, value); Normalize(out) == Node(out)
    decreases kids
  {
    UnderKid(key, pre, len);
    var n := NibbleAt(key, |pre|);
    var out := InsertIn(kids, pre, len, key, value);
    assert Canon(kids[n], pre + [n], len);
    match kids[n] {
      case Empty =>
      case Leaf(k, v) =>
        if k != key {
          PairNodeCorrect(pre + [n], len, k, v, key, value);
        }
      case Node(c) =>
        InsertCanon(c, pre + [n], len, key, value);
    }
    assert Canon(out[n], pre + [n], len);
    if Normalize(kids) == Node(kids) {
      var i, j := TwoSlots(kids);
      if i == j && n != i {
        NormalNode(out, i, n);
      } else {
        NormalNode(out, i, j);
      }
    }
  }

  /** Insertion sets one key and leaves every other key as it was. */
  lemma {:induction false} InsertLookup(kids: seq<Sub>, pre: seq<nat>, len: nat, key: Key, value: TrieValue, other: Key)
    requires Branch(kids, pre, len) && Under(key, pre, len) && Under(other, pre, len)
    ensures Lookup(Node(InsertIn(kids, pre, len, key, value)), |pre|, other) ==
            if other == key then Some(value) else Lookup(Node(kids), |pre|, other)
    decreases kids
  {
    UnderKid(key, pre, len);
    UnderKid(other, pre, len);
    var n := NibbleAt(key, |pre|);
    assert Canon(kids[n], pre + [n], len);
    if NibbleAt(other, |pre|) == n {
      match kids[n] {
        case Empty =>
        case Leaf(k, v) =>
          if k != key {
            PairNodeCorrect(pre + [n], len, k, v, key, value);
          }
        case Node(c) =>
          InsertLookup(c, pre + [n], len, key, value, other);
      }
    }
  }

  lemma {:induction false} RemoveCanon(kids: seq<Sub>, pre: seq<nat>, len: nat, key: Key)
    requires Branch(kids, pre, len) && Under(key, pre, len)
    ensures Loose(RemoveIn(kids, pre, len, key), pre, len)
    ensures Normalize(kids) == Node(kids) ==> Canon(RemoveIn(kids, pre, len, key), pre, len)
    decreases kids
  {
    UnderKid(key, pre, len);
    var n := NibbleAt(key, |pre|);
    assert Canon(kids[n], pre + [n], len);
    match kids[n] {
      case Empty =>
      case Leaf(k, _) =>
        if k == key {
          NormalizeCanon(kids[n := Empty], pre, len);
        }
      case Node(c) =>
        RemoveCanon(c, pre + [n], len, key);
        NormalizeCanon(kids[n := RemoveIn(c, pre + [n], len, key)], pre, len);
    }
  }

  lemma {:induction false} RemoveLookup(kids: seq<Sub>, pre: seq<nat>, len: nat, key: Key, other: Key)
    requires Branch(kids, pre, len) && Under(key, pre, len) && Under(other, pre, len)
    ensures Lookup(RemoveIn(kids, pre, len, key), |pre|, other) ==
            if other == key then None else Lookup(Node(kids), |pre|, other)
    decreases kids
  {
    UnderKid(key, pre, len);
    UnderKid(other, pre, len);
    var n := NibbleAt(key, |pre|);
    assert Canon(kids[n], pre + [n], len);
    match kids[n] {
      case Empty =>
      case Leaf(k, _) =>
        if k == key {
          NormalizeLookup(kids[n := Empty], pre, len, other);
        }
      case Node(c) =>
        RemoveCanon(c, pre + [n], len, key);
        NormalizeLookup(kids[n := RemoveIn(c, pre + [n], len, key)], pre, len, other);
        if NibbleAt(other, |pre|) == n {
          RemoveLookup(c, pre + [n], len, key, other);
        }
    }
  }

  lemma {:induction false} RootedCorrect(t: Sub, len: nat)
    requires Loose(t, [], len) && len > 0
    ensures Root(Rooted(t), len)
    ensures forall key: Key | |key| == len :: Lookup(Rooted(t), 0, key) == Lookup(t, 0, key)
  {
    if t.Leaf? {
      UnderKid(t.key, [], len);
      assert [] + [NibbleAt(t.key, 0)] == [NibbleAt(t.key, 0)];
    }
  }
}
