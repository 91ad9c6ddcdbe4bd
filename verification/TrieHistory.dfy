/**
 History independence: however a trie was reached, by insertions, removals and
 merges in any order, its contents alone decide its root, and its entries are
 listed in key order.
 */
module TrieHistory {
  import opened Options
  import opened Keys
  import opened Values
  import opened KeyRules
  import opened Trie
  import opened TrieMerge

  /** Every way a caller can reach a trie root. */
  datatype Build =
    | Fresh
    | Inserted(of: Build, key: Key, value: TrieValue)
    | Removed(of: Build, key: Key)
    | Merged(base: Build, a: Build, b: Build, policy: MergePolicy)

  /** One positive key length throughout. */
  ghost predicate Uses(b: Build, len: nat) {
    && len > 0
    && match b
       case Fresh => true
       case Inserted(of, key, _) => Uses(of, len) && |key| == len
       case Removed(of, key) => Uses(of, len) && |key| == len
       case Merged(base, x, y, _) => Uses(base, len) && Uses(x, len) && Uses(y, len)
  }

  ghost function Merge3(len: nat, base: Sub, a: Sub, b: Sub, policy: MergePolicy): Sub
    requires len > 0 && Root(base, len) && Root(a, len) && Root(b, len)
  {
    MergeCanon([], len, base, a, b, policy);
    Rooted(MergeSub([], len, base, a, b, policy))
  }

  /** What a key holds after a merge, by its own three-way rule. */
  lemma Merge3Lookup(len: nat, base: Sub, a: Sub, b: Sub, policy: MergePolicy, key: Key)
    requires len > 0 && Root(base, len) && Root(a, len) && Root(b, len) && |key| == len
    ensures Root(Merge3(len, base, a, b, policy), len)
    ensures Lookup(Merge3(len, base, a, b, policy), 0, key) ==
            MergeValue(policy, Lookup(base, 0, key), Lookup(a, 0, key), Lookup(b, 0, key))
  {
    MergeCanon([], len, base, a, b, policy);
    RootedCorrect(MergeSub([], len, base, a, b, policy), len);
    MergePointwise([], len, base, a, b, policy, key);
  }

  /** Every key of a merged root follows the rules. */
  lemma Merge3Follows(len: nat, base: Sub, a: Sub, b: Sub, policy: MergePolicy)
    requires len > 0 && Root(base, len) && Root(a, len) && Root(b, len)
    ensures KeysRuled(policy, [], len, base, a, b, Merge3(len, base, a, b, policy))
  {
    var r := Merge3(len, base, a, b, policy);
    forall key | Under(key, [], len)
      ensures KeyRuled(policy, Lookup(base, 0, key), Lookup(a, 0, key), Lookup(b, 0, key), Lookup(r, 0, key))
    {
      Merge3Lookup(len, base, a, b, policy, key);
      ValueRuled(policy, Lookup(base, 0, key), Lookup(a, 0, key), Lookup(b, 0, key));
    }
  }

  /** The root the code computes. */
  ghost function Eval(b: Build, len: nat): (t: Sub)
    requires Uses(b, len)
    ensures Root(t, len)
  {
    match b
    case Fresh =>
      assert Branch(EmptyKids(), [], len);
      Node(EmptyKids())
    case Inserted(of, key, value) =>
      InsertCanon(Eval(of, len).kids, [], len, key, value);
      Insert(Eval(of, len), len, key, value)
    case Removed(of, key) =>
      RemoveCanon(Eval(of, len).kids, [], len, key);
      RootedCorrect(RemoveIn(Eval(of, len).kids, [], len, key), len);
      Remove(Eval(of, len), len, key)
    case Merged(base, x, y, policy) =>
      MergeCanon([], len, Eval(base, len), Eval(x, len), Eval(y, len), policy);
      RootedCorrect(MergeSub([], len, Eval(base, len), Eval(x, len), Eval(y, len), policy), len);
      Merge3(len, Eval(base, len), Eval(x, len), Eval(y, len), policy)
  }

  /** The contents the same calls describe on plain maps. */
  ghost function Contents(b: Build): map<Key, TrieValue> {
    match b
    case Fresh => map[]
    case Inserted(of, key, value) => Contents(of)[key := value]
    case Removed(of, key) => Contents(of) - {key}
    case Merged(base, x, y, policy) => MergeMaps(policy, Contents(base), Contents(x), Contents(y))
  }

  lemma {:induction false} EvalRefinesContents(b: Build, len: nat, key: Key)
    requires Uses(b, len) && |key| == len
    ensures Lookup(Eval(b, len), 0, key) == At(Contents(b), key)
  {
    match b
    case Fresh =>
    case Inserted(of, k, value) =>
      EvalRefinesContents(of, len, key);
      InsertLookup(Eval(of, len).kids, [], len, k, value, key);
    case Removed(of, k) =>
      EvalRefinesContents(of, len, key);
      RemoveLookup(Eval(of, len).kids, [], len, k, key);
      RemoveCanon(Eval(of, len).kids, [], len, k);
      RootedCorrect(RemoveIn(Eval(of, len).kids, [], len, k), len);
    case Merged(base, x, y, policy) =>
      EvalRefinesContents(base, len, key);
      EvalRefinesContents(x, len, key);
      EvalRefinesContents(y, len, key);
      MergeCanon([], len, Eval(base, len), Eval(x, len), Eval(y, len), policy);
      MergePointwise([], len, Eval(base, len), Eval(x, len), Eval(y, len), policy, key);
      RootedCorrect(MergeSub([], len, Eval(base, len), Eval(x, len), Eval(y, len), policy), len);
  }

  lemma {:induction false} ContentsKeys(b: Build, len: nat)
    requires Uses(b, len)
    ensures forall k | k in Contents(b) :: |k| == len
  {
    match b
    case Fresh =>
    case Inserted(of, _, _) => ContentsKeys(of, len);
    case Removed(of, _) => ContentsKeys(of, len);
    case Merged(base, x, y, policy) =>
      ContentsKeys(base, len);
      ContentsKeys(x, len);
      ContentsKeys(y, len);
      forall k | k in Contents(b) ensures |k| == len {
        assert At(Contents(b), k).Some?;
      }
  }

  /** Equal contents exactly when equal roots, over every two histories. */
  lemma {:induction false} HistoryIndependence(x: Build, y: Build, len: nat)
    requires Uses(x, len) && Uses(y, len)
    ensures Eval(x, len) == Eval(y, len) <==> Contents(x) == Contents(y)
  {
    if Contents(x) == Contents(y) {
      forall key: Key | |key| == len ensures Lookup(Eval(x, len), 0, key) == Lookup(Eval(y, len), 0, key) {
        EvalRefinesContents(x, len, key);
        EvalRefinesContents(y, len, key);
      }
      RootUnique(Eval(x, len), Eval(y, len), len);
    }
    if Eval(x, len) == Eval(y, len) {
      ContentsKeys(x, len);
      ContentsKeys(y, len);
      forall key ensures At(Contents(x), key) == At(Contents(y), key) {
        if |key| == len {
          EvalRefinesContents(x, len, key);
          EvalRefinesContents(y, len, key);
        }
      }
      SameMap(Contents(x), Contents(y));
    }
  }

  /** Swapping the sides of a merge gives the same root. */
  lemma {:induction false} MergeSidesCommute(base: Build, a: Build, b: Build, policy: MergePolicy, len: nat)
    requires Uses(base, len) && Uses(a, len) && Uses(b, len)
    ensures Eval(Merged(base, a, b, policy), len) == Eval(Merged(base, b, a, policy), len)
  {
    var x, y := Merged(base, a, b, policy), Merged(base, b, a, policy);
    forall key ensures At(Contents(x), key) == At(Contents(y), key) {
      MergeValueSymmetric(policy, At(Contents(base), key), At(Contents(a), key), At(Contents(b), key));
    }
    SameMap(Contents(x), Contents(y));
    HistoryIndependence(x, y, len);
  }

  /** Removing a key that was not there before its insertion restores the old root. */
  lemma {:induction false} RemoveUndoesInsert(b: Build, key: Key, value: TrieValue, len: nat)
    requires Uses(b, len) && |key| == len
    ensures Eval(Removed(Inserted(b, key, value), key), len) == Eval(b, len) <==> key !in Contents(b)
  {
    var there := Removed(Inserted(b, key, value), key);
    HistoryIndependence(there, b, len);
    if key !in Contents(b) {
      assert Contents(there) == Contents(b);
    }
  }

  // ------------------------------------------------------------------ entries

  type Entry = (Key, TrieValue)

  ghost function Walk(t: Sub): seq<Entry> {
    match t
    case Empty => []
    case Leaf(k, v) => [(k, v)]
    case Node(kids) => WalkKids(kids)
  }

  ghost function WalkKids(kids: seq<Sub>): seq<Entry> {
    if kids == [] then [] else Walk(kids[0]) + WalkKids(kids[1..])
  }

  ghost predicate InKeyOrder(es: seq<Entry>) {
    forall i, j | 0 <= i < j < |es| :: KeyLess(es[i].0, es[j].0)
  }

  lemma RisingNibble(a: Key, b: Key, pre: seq<nat>, len: nat)
    requires Under(a, pre, len) && Under(b, pre, len) && |pre| < 2 * len
    requires NibbleAt(a, |pre|) < NibbleAt(b, |pre|)
    ensures KeyLess(a, b)
  {
    assert Nibbles(a)[..|pre|] == pre == Nibbles(b)[..|pre|];
    NibbleOrderIsKeyOrder(a, b, |pre|);
  }

  /** A walk lists exactly the contents, in strictly ascending byte order. */
  lemma {:induction false} WalkSound(t: Sub, pre: seq<nat>, len: nat)
    requires Loose(t, pre, len)
    ensures InKeyOrder(Walk(t))
    ensures forall e | e in Walk(t) :: Under(e.0, pre, len) && Lookup(t, |pre|, e.0) == Some(e.1)
    ensures forall key | Under(key, pre, len) && Lookup(t, |pre|, key).Some? ::
              (key, Lookup(t, |pre|, key).value) in Walk(t)
    decreases t, 1
  {
    if t.Node? {
      WalkKidsSound(t.kids, pre, len, 0);
      assert t.kids[0..] == t.kids;
      forall key | Under(key, pre, len) && Lookup(t, |pre|, key).Some?
        ensures (key, Lookup(t, |pre|, key).value) in Walk(t)
      {
        UnderKid(key, pre, len);
      }
    }
  }

  lemma {:induction false} WalkKidsSound(kids: seq<Sub>, pre: seq<nat>, len: nat, from: nat)
    requires Branch(kids, pre, len) && from <= 16
    ensures InKeyOrder(WalkKids(kids[from..]))
    ensures forall e | e in WalkKids(kids[from..]) ::
              && Under(e.0, pre, len) && from <= NibbleAt(e.0, |pre|)
              && Lookup(Node(kids), |pre|, e.0) == Some(e.1)
    ensures forall key | Under(key, pre, len) && from <= NibbleAt(key, |pre|) && Lookup(Node(kids), |pre|, key).Some? ::
              (key, Lookup(Node(kids), |pre|, key).value) in WalkKids(kids[from..])
    decreases kids, 16 - from
  {
    if from < 16 {
      var here, rest := Walk(kids[from]), WalkKids(kids[from + 1..]);
      assert kids[from..] == [kids[from]] + kids[from + 1..];
      assert Canon(kids[from], pre + [from], len);
      WalkSound(kids[from], pre + [from], len);
      WalkKidsSound(kids, pre, len, from + 1);
      forall e | e in here
        ensures Under(e.0, pre, len) && NibbleAt(e.0, |pre|) == from && Lookup(Node(kids), |pre|, e.0) == Some(e.1)
      {
        KidUnder(e.0, pre, from, len);
      }
      forall e, f | e in here && f in rest ensures KeyLess(e.0, f.0) {
        RisingNibble(e.0, f.0, pre, len);
      }
      forall key | Under(key, pre, len) && from <= NibbleAt(key, |pre|) && Lookup(Node(kids), |pre|, key).Some?
        ensures (key, Lookup(Node(kids), |pre|, key).value) in here + rest
      {
        UnderKid(key, pre, len);
      }
    }
  }
}
