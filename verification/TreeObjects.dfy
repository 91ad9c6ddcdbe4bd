/**
 Tree objects in a content-addressed store: directories written flat or, when
 large, sharded by a hash of each name; read back, flattened and compared by ID.
 */
module TreeObjects {
  import opened Options
  import opened Ids
  import opened Order
  import opened Paths
  import opened Trees
  import opened TreeDiff

  datatype TreeEntry = TreeEntry(name: string, kind: Kind, mode: Option<nat>, ref: Option<Oid>,
                                       terms: Option<seq<Term>>)

  datatype Tree = Tree(entries: Option<seq<TreeEntry>>, shards: Option<seq<Option<Oid>>>)

  /** The two hashes: of an object, and of a name to one of 256 shards. */
  datatype Hashing = Hashing(id: Tree -> Oid, slot: string -> nat)

  ghost predicate SaneHash(h: Hashing) {
    && (forall x, y :: h.id(x) == h.id(y) ==> x == y)
    && (forall name :: h.slot(name) < 256)
  }

  const SHARD_THRESHOLD := 4096

  function NameOf(e: TreeEntry): string { e.name }

  function FlatTree(es: seq<TreeEntry>): Tree {
    Tree(Some(es), None)
  }

  function InSlot(h: Hashing, es: seq<TreeEntry>, slot: nat): seq<TreeEntry> {
    if es == [] then []
    else InSlot(h, es[..|es| - 1], slot) + if h.slot(es[|es| - 1].name) == slot then [es[|es| - 1]] else []
  }

  lemma {:induction false} InSlotHolds(h: Hashing, es: seq<TreeEntry>, slot: nat, e: TreeEntry)
    ensures e in InSlot(h, es, slot) <==> e in es && h.slot(e.name) == slot
  {
    if es != [] {
      var init, last := es[..|es| - 1], es[|es| - 1];
      InSlotHolds(h, init, slot, e);
      assert es == init + [last];
    }
  }

  function Shard(h: Hashing, es: seq<TreeEntry>, slot: nat): Option<Oid> {
    if InSlot(h, es, slot) == [] then None else Some(h.id(FlatTree(InSlot(h, es, slot))))
  }

  function ShardsOf(h: Hashing, es: seq<TreeEntry>): seq<Option<Oid>> {
    seq(256, slot requires 0 <= slot < 256 => Shard(h, es, slot))
  }

  function Packed(h: Hashing, es: seq<TreeEntry>): Tree {
    if |es| > SHARD_THRESHOLD then Tree(None, Some(ShardsOf(h, es))) else FlatTree(es)
  }

  // ----------------------------------------------------------- trees as objects

  ghost function EntryOf(h: Hashing, name: string, node: Node): TreeEntry
    decreases node, 2
  {
    match node
    case File(leaf) => TreeEntry(name, leaf.kind, leaf.mode, leaf.ref, leaf.terms)
    case Dir(_) => TreeEntry(name, DirKind, None, Some(DirId(h, node)), None)
  }

  ghost function EntriesOf(h: Hashing, node: Node, names: seq<string>): (r: seq<TreeEntry>)
    requires node.Dir? && forall n | n in names :: n in node.kids
    ensures |r| == |names|
    ensures forall i | 0 <= i < |r| :: r[i].name == names[i]
    decreases node, 0, |names|
  {
    if names == [] then [] else [EntryOf(h, names[0], node.kids[names[0]])] + EntriesOf(h, node, names[1..])
  }

  /** A directory's entries in name order. */
  ghost function DirEntries(h: Hashing, node: Node): seq<TreeEntry>
    requires node.Dir?
    decreases node, 0
  {
    EntriesOf(h, node, Listed(node.kids.Keys))
  }

  ghost function DirId(h: Hashing, node: Node): Oid
    requires node.Dir?
    decreases node, 1
  {
    h.id(Packed(h, DirEntries(h, node)))
  }

  lemma {:induction false} EntriesHold(h: Hashing, node: Node, names: seq<string>, e: TreeEntry)
    requires node.Dir? && forall n | n in names :: n in node.kids
    ensures e in EntriesOf(h, node, names) <==> e.name in names && e == EntryOf(h, e.name, node.kids[e.name])
    decreases |names|
  {
    if names != [] {
      EntriesHold(h, node, names[1..], e);
      assert names == [names[0]] + names[1..];
    }
  }

  lemma DirEntriesHold(h: Hashing, node: Node, e: TreeEntry)
    requires node.Dir?
    ensures e in DirEntries(h, node) <==> e.name in node.kids && e == EntryOf(h, e.name, node.kids[e.name])
  {
    EntriesHold(h, node, Listed(node.kids.Keys), e);
  }

  lemma {:induction false} SlotSorted(h: Hashing, es: seq<TreeEntry>, slot: nat)
    requires SortedBy(es, NameOf)
    ensures SortedBy(InSlot(h, es, slot), NameOf)
  {
    if es != [] {
      var init, last := es[..|es| - 1], es[|es| - 1];
      SlotSorted(h, init, slot);
      var kept := InSlot(h, init, slot);
      forall e | e in kept ensures Less(NameOf(e), NameOf(last)) {
        InSlotHolds(h, init, slot, e);
        var i :| 0 <= i < |init| && init[i] == e;
        assert es[i] == e;
      }
    }
  }

  /** Sorting entries with the right members, each name once, gives the one sorted listing. */
  lemma SortGives(es: seq<TreeEntry>, sorted: seq<TreeEntry>)
    requires SortedBy(sorted, NameOf) && DistinctBy(es, NameOf) && forall e :: e in es <==> e in sorted
    ensures SortBy(es, NameOf) == sorted
  {
    SortSorted(es, NameOf);
    SameMembers(es, SortBy(es, NameOf));
    SortedUnique(SortBy(es, NameOf), sorted, NameOf);
  }

  // ---------------------------------------------------------- IDs name contents

  lemma ShardsTell(h: Hashing, a: seq<TreeEntry>, b: seq<TreeEntry>, e: TreeEntry)
    requires SaneHash(h) && ShardsOf(h, a) == ShardsOf(h, b) && e in a
    ensures e in b
  {
    var s := h.slot(e.name);
    assert ShardsOf(h, a)[s] == Shard(h, a, s) && ShardsOf(h, b)[s] == Shard(h, b, s);
    InSlotHolds(h, a, s, e);
    InSlotHolds(h, b, s, e);
    assert FlatTree(InSlot(h, a, s)) == FlatTree(InSlot(h, b, s));
  }

  lemma PackedTells(h: Hashing, a: seq<TreeEntry>, b: seq<TreeEntry>)
    requires SaneHash(h) && Packed(h, a) == Packed(h, b) && SortedBy(a, NameOf) && SortedBy(b, NameOf)
    ensures a == b
  {
    if |a| > SHARD_THRESHOLD {
      forall e ensures e in a <==> e in b {
        if e in a { ShardsTell(h, a, b, e); }
        if e in b { ShardsTell(h, b, a, e); }
      }
      SortedUnique(a, b, NameOf);
    }
  }

  lemma SameNames(h: Hashing, a: Node, b: Node)
    requires a.Dir? && b.Dir? && DirEntries(h, a) == DirEntries(h, b)
    ensures a.kids.Keys == b.kids.Keys
  {
    forall k ensures k in a.kids <==> k in b.kids {
      KidListed(h, a, b, k);
      KidListed(h, b, a, k);
    }
  }

  lemma SameKids(a: Node, b: Node)
    requires a.Dir? && b.Dir? && a.kids.Keys == b.kids.Keys && forall k | k in a.kids :: a.kids[k] == b.kids[k]
    ensures a == b
  {
    assert a.kids == b.kids;
  }

  /** Two directories have one ID exactly when they are equal, sharded or not. */
  lemma {:induction false} DirIdNames(h: Hashing, a: Node, b: Node)
    requires SaneHash(h) && a.Dir? && b.Dir? && Canon(a) && Canon(b)
    ensures DirId(h, a) == DirId(h, b) <==> a == b
    decreases a, 0
  {
    if DirId(h, a) == DirId(h, b) {
      PackedTells(h, DirEntries(h, a), DirEntries(h, b));
      SameNames(h, a, b);
      forall k | k in a.kids ensures a.kids[k] == b.kids[k] {
        KidListed(h, a, b, k);
        EntryNames(h, k, a.kids[k], b.kids[k]);
      }
      SameKids(a, b);
    }
  }

  lemma KidListed(h: Hashing, a: Node, b: Node, k: string)
    requires a.Dir? && b.Dir? && DirEntries(h, a) == DirEntries(h, b)
    ensures k in a.kids ==> k in b.kids && EntryOf(h, k, a.kids[k]) == EntryOf(h, k, b.kids[k])
  {
    if k in a.kids {
      DirEntriesHold(h, a, EntryOf(h, k, a.kids[k]));
      DirEntriesHold(h, b, EntryOf(h, k, a.kids[k]));
    }
  }

  /** Entries of one name are equal exactly when what they stand for is. */
  lemma {:induction false} EntryNames(h: Hashing, name: string, a: Node, b: Node)
    requires SaneHash(h) && Canon(a) && Canon(b)
    ensures EntryOf(h, name, a) == EntryOf(h, name, b) <==> a == b
    decreases a, 1
  {
    if a.Dir? && b.Dir? {
      DirIdNames(h, a, b);
    }
  }

  /** Equal maps build trees of equal ID, and distinct maps of distinct IDs. */
  lemma {:induction false} BuiltIdNames(h: Hashing, a: Flat, b: Flat)
    requires SaneHash(h) && Plain(a) && Plain(b) && NoDirLeaves(a) && NoDirLeaves(b)
    ensures DirId(h, BuildNode(a)) == DirId(h, BuildNode(b)) <==> a == b
  {
    BuildFromCanon(a, Listed(a.Keys));
    BuildFromCanon(b, Listed(b.Keys));
    DirIdNames(h, BuildNode(a), BuildNode(b));
    BuildInjective(a, b);
  }

  // ------------------------------------------------------------------ the store

  type Objects = map<Oid, Tree>

  ghost predicate Holds(objs: Objects, h: Hashing, tree: Tree) {
    h.id(tree) in objs && objs[h.id(tree)] == tree
  }

  ghost predicate HoldsShards(objs: Objects, h: Hashing, es: seq<TreeEntry>) {
    forall s | 0 <= s < 256 :: HeldShard(objs, h, es, s)
  }

  ghost predicate HeldShard(objs: Objects, h: Hashing, es: seq<TreeEntry>, slot: nat) {
    InSlot(h, es, slot) != [] ==> Holds(objs, h, FlatTree(InSlot(h, es, slot)))
  }

  lemma StillHeld(a: Objects, b: Objects, h: Hashing, es: seq<TreeEntry>, slots: nat)
    requires Grew(a, b) && forall s | 0 <= s < slots :: HeldShard(a, h, es, s)
    ensures forall s | 0 <= s < slots :: HeldShard(b, h, es, s)
  {
    forall s | 0 <= s < slots ensures HeldShard(b, h, es, s) {
      assert HeldShard(a, h, es, s);
    }
  }

  ghost predicate HoldsDir(objs: Objects, h: Hashing, es: seq<TreeEntry>) {
    Holds(objs, h, Packed(h, es)) && (|es| > SHARD_THRESHOLD ==> HoldsShards(objs, h, es))
  }

  /** A directory and everything below it is stored. */
  ghost predicate Stored(objs: Objects, h: Hashing, node: Node)
    decreases node
  {
    node.Dir? ==>
      && HoldsDir(objs, h, DirEntries(h, node))
      && forall k | k in node.kids :: Stored(objs, h, node.kids[k])
  }

  ghost predicate Grew(a: Objects, b: Objects) {
    forall id | id in a :: id in b && b[id] == a[id]
  }

  lemma HoldsDirGrows(a: Objects, b: Objects, h: Hashing, es: seq<TreeEntry>)
    requires Grew(a, b) && HoldsDir(a, h, es)
    ensures HoldsDir(b, h, es)
  {
    if |es| > SHARD_THRESHOLD {
      StillHeld(a, b, h, es, 256);
    }
  }

  lemma {:induction false} StoredGrows(a: Objects, b: Objects, h: Hashing, node: Node)
    requires Grew(a, b) && Stored(a, h, node)
    ensures Stored(b, h, node)
    decreases node
  {
    if node.Dir? {
      HoldsDirGrows(a, b, h, DirEntries(h, node));
      forall k | k in node.kids ensures Stored(b, h, node.kids[k]) {
        StoredGrows(a, b, h, node.kids[k]);
      }
    }
  }

  // What is stored, said of the objects themselves.

  /** Flat up to 4096 entries; above that 256 shards, each with the entries whose names hash to it, if any. */
  ghost predicate Lists(objs: Objects, h: Hashing, id: Oid, es: seq<TreeEntry>) {
    && id in objs
    && if |es| <= 4096 then objs[id] == Tree(Some(es), None)
       else
         && objs[id].entries.None? && objs[id].shards.Some? && |objs[id].shards.value| == 256
         && forall s | 0 <= s < 256 :: ShardLists(objs, h, objs[id].shards.value[s], es, s)
  }

  ghost predicate ShardLists(objs: Objects, h: Hashing, shard: Option<Oid>, es: seq<TreeEntry>, s: nat) {
    match shard
    case None => forall e | e in es :: h.slot(e.name) != s
    case Some(id) =>
      && id in objs && objs[id].entries.Some? && objs[id].shards.None?
      && SortedBy(objs[id].entries.value, NameOf) && objs[id].entries.value != []
      && forall e :: e in objs[id].entries.value <==> e in es && h.slot(e.name) == s
  }

  /** A directory's object lists one entry for each name in order: a leaf's own data, or the object of a directory. */
  ghost predicate Written(objs: Objects, h: Hashing, node: Node, id: Oid)
    decreases node, 0
  {
    && node.Dir?
    && exists es: seq<TreeEntry> ::
         && Lists(objs, h, id, es) && SortedBy(es, NameOf)
         && (forall name :: name in node.kids <==> exists e :: e in es && e.name == name)
         && forall e | e in es && e.name in node.kids :: EntryWritten(objs, h, node.kids[e.name], e)
  }

  ghost predicate EntryWritten(objs: Objects, h: Hashing, kid: Node, e: TreeEntry)
    decreases kid, 1
  {
    match kid
    case File(leaf) => e.kind == leaf.kind && e.mode == leaf.mode && e.ref == leaf.ref && e.terms == leaf.terms
    case Dir(_) =>
      && e.kind == DirKind && e.mode.None? && e.terms.None? && e.ref.Some? && Written(objs, h, kid, e.ref.value)
  }

  lemma {:induction false} ShardIsListed(objs: Objects, h: Hashing, es: seq<TreeEntry>, s: nat)
    requires HeldShard(objs, h, es, s) && SortedBy(es, NameOf)
    ensures ShardLists(objs, h, Shard(h, es, s), es, s)
  {
    var part := InSlot(h, es, s);
    SlotSorted(h, es, s);
    forall e ensures e in part <==> e in es && h.slot(e.name) == s {
      InSlotHolds(h, es, s, e);
    }
  }

  lemma {:induction false} DirIsListed(objs: Objects, h: Hashing, es: seq<TreeEntry>)
    requires HoldsDir(objs, h, es) && SortedBy(es, NameOf)
    ensures Lists(objs, h, h.id(Packed(h, es)), es)
  {
    if |es| > SHARD_THRESHOLD {
      forall s | 0 <= s < 256 ensures ShardLists(objs, h, ShardsOf(h, es)[s], es, s) {
        assert HeldShard(objs, h, es, s);
        ShardIsListed(objs, h, es, s);
      }
    }
  }

  lemma {:induction false} EntriesSorted(h: Hashing, node: Node)
    requires node.Dir?
    ensures SortedBy(DirEntries(h, node), NameOf)
  {
    var names, es := Listed(node.kids.Keys), DirEntries(h, node);
    forall i, j | 0 <= i < j < |es| ensures Less(NameOf(es[i]), NameOf(es[j])) {
      assert es[i].name == names[i] && es[j].name == names[j];
    }
  }

  /** Whatever is stored under a directory's ID is written like that. */
  lemma {:induction false} StoredIsWritten(objs: Objects, h: Hashing, node: Node)
    requires node.Dir? && Stored(objs, h, node)
    ensures Written(objs, h, node, DirId(h, node))
    decreases node
  {
    var es := DirEntries(h, node);
    EntriesSorted(h, node);
    DirIsListed(objs, h, es);
    forall e ensures e in es <==> e.name in node.kids && e == EntryOf(h, e.name, node.kids[e.name]) {
      DirEntriesHold(h, node, e);
    }
    forall name | name in node.kids ensures exists e :: e in es && e.name == name {
      assert EntryOf(h, name, node.kids[name]).name == name;
      assert EntryOf(h, name, node.kids[name]) in es;
    }
    forall e | e in es && e.name in node.kids ensures EntryWritten(objs, h, node.kids[e.name], e) {
      if node.kids[e.name].Dir? {
        StoredIsWritten(objs, h, node.kids[e.name]);
      }
    }
  }

  /** Shards read one after another. */
  ghost function Joined(parts: seq<seq<TreeEntry>>): seq<TreeEntry> {
    if parts == [] then [] else Joined(parts[..|parts| - 1]) + parts[|parts| - 1]
  }

  ghost predicate InSome(parts: seq<seq<TreeEntry>>, e: TreeEntry) {
    exists s :: 0 <= s < |parts| && e in parts[s]
  }

  lemma {:induction false} JoinedHolds(parts: seq<seq<TreeEntry>>, e: TreeEntry)
    ensures e in Joined(parts) <==> InSome(parts, e)
  {
    if parts != [] {
      var init, last := parts[..|parts| - 1], parts[|parts| - 1];
      JoinedHolds(init, e);
      if s :| 0 <= s < |init| && e in init[s] {
        assert e in parts[s];
      }
    }
  }

  ghost predicate Apart(a: seq<TreeEntry>, b: seq<TreeEntry>) {
    forall x, y | x in a && y in b :: x.name != y.name
  }

  lemma {:induction false} JoinedDistinct(parts: seq<seq<TreeEntry>>)
    requires forall s | 0 <= s < |parts| :: DistinctBy(parts[s], NameOf)
    requires forall s, t | 0 <= s < t < |parts| :: Apart(parts[s], parts[t])
    ensures DistinctBy(Joined(parts), NameOf)
  {
    if parts != [] {
      var init, last := parts[..|parts| - 1], parts[|parts| - 1];
      JoinedDistinct(init);
      forall x, y | x in Joined(init) && y in last ensures x.name != y.name {
        JoinedHolds(init, x);
        var s :| 0 <= s < |init| && x in init[s];
        assert Apart(parts[s], parts[|parts| - 1]);
      }
      DistinctConcat(Joined(init), last);
    }
  }

  ghost function Slots(h: Hashing, es: seq<TreeEntry>): seq<seq<TreeEntry>> {
    seq(256, slot requires 0 <= slot < 256 => InSlot(h, es, slot))
  }

  lemma SlotsApart(h: Hashing, es: seq<TreeEntry>, s: nat, t: nat)
    requires s < t
    ensures Apart(InSlot(h, es, s), InSlot(h, es, t))
  {
    forall x, y | x in InSlot(h, es, s) && y in InSlot(h, es, t) ensures x.name != y.name {
      InSlotHolds(h, es, s, x);
      InSlotHolds(h, es, t, y);
    }
  }

  lemma SlotsDistinct(h: Hashing, es: seq<TreeEntry>)
    requires SortedBy(es, NameOf)
    ensures DistinctBy(Joined(Slots(h, es)), NameOf)
  {
    SortedDistinct(es);
    var parts := Slots(h, es);
    forall s | 0 <= s < |parts| ensures DistinctBy(parts[s], NameOf) {
      SlotDistinct(h, es, s);
    }
    forall s, t | 0 <= s < t < |parts| ensures Apart(parts[s], parts[t]) {
      SlotsApart(h, es, s, t);
    }
    JoinedDistinct(parts);
  }

  lemma SlotsHold(h: Hashing, es: seq<TreeEntry>, e: TreeEntry)
    requires SaneHash(h)
    ensures e in Joined(Slots(h, es)) <==> e in es
  {
    var parts := Slots(h, es);
    JoinedHolds(parts, e);
    var own := h.slot(e.name);
    InSlotHolds(h, es, own, e);
    assert parts[own] == InSlot(h, es, own);
    if s :| 0 <= s < |parts| && e in parts[s] {
      InSlotHolds(h, es, s, e);
    }
  }

  lemma DistinctConcat(a: seq<TreeEntry>, b: seq<TreeEntry>)
    requires DistinctBy(a, NameOf) && DistinctBy(b, NameOf) && forall x, y | x in a && y in b :: x.name != y.name
    ensures DistinctBy(a + b, NameOf)
  {
    var c := a + b;
    forall i, j | 0 <= i < j < |c| ensures NameOf(c[i]) != NameOf(c[j]) {
      assert i < |a| ==> c[i] in a;
      assert j >= |a| ==> c[j] in b;
    }
  }

  lemma SortedDistinct(es: seq<TreeEntry>)
    requires SortedBy(es, NameOf)
    ensures DistinctBy(es, NameOf)
  {
    forall i, j | 0 <= i < j < |es| ensures NameOf(es[i]) != NameOf(es[j]) {
      LessTotal(NameOf(es[i]), NameOf(es[j]));
    }
  }

  /** A bucket filled in any order sorts to the shard. */
  lemma SlotOfUnsorted(h: Hashing, es: seq<TreeEntry>, sorted: seq<TreeEntry>, slot: nat)
    requires SortedBy(sorted, NameOf) && DistinctBy(es, NameOf) && forall e :: e in es <==> e in sorted
    ensures SortBy(InSlot(h, es, slot), NameOf) == InSlot(h, sorted, slot)
  {
    SlotSorted(h, sorted, slot);
    SlotDistinct(h, es, slot);
    forall e ensures e in InSlot(h, es, slot) <==> e in InSlot(h, sorted, slot) {
      InSlotHolds(h, es, slot, e);
      InSlotHolds(h, sorted, slot, e);
    }
    SortGives(InSlot(h, es, slot), InSlot(h, sorted, slot));
  }

  lemma {:induction false} SlotDistinct(h: Hashing, es: seq<TreeEntry>, slot: nat)
    requires DistinctBy(es, NameOf)
    ensures DistinctBy(InSlot(h, es, slot), NameOf)
  {
    if es != [] {
      var init, last := es[..|es| - 1], es[|es| - 1];
      SlotDistinct(h, init, slot);
      var kept := InSlot(h, init, slot);
      forall e | e in kept ensures NameOf(e) != NameOf(last) {
        InSlotHolds(h, init, slot, e);
        var i :| 0 <= i < |init| && init[i] == e;
        assert es[i] == e;
      }
    }
  }

  /** The entries an emit makes first, and those it makes after. */
  ghost function FilesOf(h: Hashing, node: Node, names: seq<string>): (r: seq<TreeEntry>)
    requires node.Dir? && forall n | n in names :: n in node.kids
    ensures forall e | e in r :: e.name in names
    decreases |names|
  {
    if names == [] then []
    else
      var last := names[|names| - 1];
      FilesOf(h, node, names[..|names| - 1]) + if node.kids[last].File? then [EntryOf(h, last, node.kids[last])] else []
  }

  ghost function DirsOf(h: Hashing, node: Node, names: seq<string>): (r: seq<TreeEntry>)
    requires node.Dir? && forall n | n in names :: n in node.kids
    ensures forall e | e in r :: e.name in names
    decreases |names|
  {
    if names == [] then []
    else
      var last := names[|names| - 1];
      DirsOf(h, node, names[..|names| - 1]) + if node.kids[last].Dir? then [EntryOf(h, last, node.kids[last])] else []
  }

  lemma {:induction false} EmittedHold(h: Hashing, node: Node, names: seq<string>, e: TreeEntry)
    requires node.Dir? && forall n | n in names :: n in node.kids
    ensures e in FilesOf(h, node, names) <==>
            e.name in names && node.kids[e.name].File? && e == EntryOf(h, e.name, node.kids[e.name])
    ensures e in DirsOf(h, node, names) <==>
            e.name in names && node.kids[e.name].Dir? && e == EntryOf(h, e.name, node.kids[e.name])
    decreases |names|
  {
    if names != [] {
      var init, last := names[..|names| - 1], names[|names| - 1];
      EmittedHold(h, node, init, e);
      assert names == init + [last];
    }
  }

  lemma {:induction false} EmittedDistinct(h: Hashing, node: Node, names: seq<string>)
    requires node.Dir? && Rising(names) && forall n | n in names :: n in node.kids
    ensures DistinctBy(FilesOf(h, node, names), NameOf) && DistinctBy(DirsOf(h, node, names), NameOf)
    ensures |FilesOf(h, node, names)| + |DirsOf(h, node, names)| == |names|
    decreases |names|
  {
    if names != [] {
      var init, last := names[..|names| - 1], names[|names| - 1];
      EmittedDistinct(h, node, init);
      if last in init {
        var i :| 0 <= i < |init| && init[i] == last;
        RisingDistinct(names, i, |names| - 1);
      }
      DistinctConcat(FilesOf(h, node, init), if node.kids[last].File? then [EntryOf(h, last, node.kids[last])] else []);
      DistinctConcat(DirsOf(h, node, init), if node.kids[last].Dir? then [EntryOf(h, last, node.kids[last])] else []);
    }
  }

  /** What an emit made is the directory's entries, each once. */
  lemma {:induction false} EmittedEntries(h: Hashing, node: Node, names: seq<string>)
    requires node.Dir? && names == Listed(node.kids.Keys)
    ensures var es := FilesOf(h, node, names) + DirsOf(h, node, names);
            && (forall e :: e in es <==> e in DirEntries(h, node))
            && DistinctBy(es, NameOf) && |es| == |DirEntries(h, node)|
  {
    var es := FilesOf(h, node, names) + DirsOf(h, node, names);
    forall e ensures e in es <==> e in DirEntries(h, node) {
      EmittedHold(h, node, names, e);
      DirEntriesHold(h, node, e);
    }
    EmittedDistinct(h, node, names);
    forall x, y | x in FilesOf(h, node, names) && y in DirsOf(h, node, names) ensures x.name != y.name {
      EmittedHold(h, node, names, x);
      EmittedHold(h, node, names, y);
    }
    DistinctConcat(FilesOf(h, node, names), DirsOf(h, node, names));
  }

  function Find(es: seq<TreeEntry>, name: string): Option<TreeEntry> {
    if es == [] then None else if es[0].name == name then Some(es[0]) else Find(es[1..], name)
  }

  lemma {:induction false} FindHolds(es: seq<TreeEntry>, name: string)
    ensures match Find(es, name)
            case Some(e) => e in es && e.name == name
            case None => forall e | e in es :: e.name != name
  {
    if es != [] {
      FindHolds(es[1..], name);
      assert es == [es[0]] + es[1..];
    }
  }

  lemma FindKid(h: Hashing, node: Node, name: string)
    requires node.Dir?
    ensures Find(DirEntries(h, node), name) ==
            if name in node.kids then Some(EntryOf(h, name, node.kids[name])) else None
  {
    FindHolds(DirEntries(h, node), name);
    var found := Find(DirEntries(h, node), name);
    if found.Some? {
      DirEntriesHold(h, node, found.value);
    }
    if name in node.kids {
      DirEntriesHold(h, node, EntryOf(h, name, node.kids[name]));
    }
  }

  lemma EntryNamesAre(h: Hashing, node: Node)
    requires node.Dir?
    ensures (set e | e in DirEntries(h, node) :: e.name) == node.kids.Keys
  {
    var names := set e | e in DirEntries(h, node) :: e.name;
    forall k ensures k in names <==> k in node.kids {
      if k in names {
        var e :| e in DirEntries(h, node) && e.name == k;
        DirEntriesHold(h, node, e);
      }
      if k in node.kids {
        DirEntriesHold(h, node, EntryOf(h, k, node.kids[k]));
      }
    }
  }

  lemma EntryAt(h: Hashing, node: Node, i: nat)
    requires node.Dir? && i < |DirEntries(h, node)|
    ensures var e := DirEntries(h, node)[i];
            e.name == Listed(node.kids.Keys)[i] && e.name in node.kids && e == EntryOf(h, e.name, node.kids[e.name])
  {
    DirEntriesHold(h, node, DirEntries(h, node)[i]);
  }

  lemma WalkStep(node: Node, names: seq<string>, i: nat, prefix: string, out: Flat)
    requires node.Dir? && i < |names| && forall n | n in names :: n in node.kids
    ensures Walk(node, names[i..], prefix, out) ==
        Walk(node, names[i + 1..], prefix, Entered(node, names[i], prefix, out))
  {
    assert names[i..][1..] == names[i + 1..];
  }

  lemma DiffStep(was: Node, now: Node, names: seq<string>, i: nat, prefix: string, done: seq<string>)
    requires was.Dir? && now.Dir? && i < |names|
    ensures done + DiffNames(was, now, names[i..], prefix) ==
            (done + DiffOne(was, now, names[i], prefix)) + DiffNames(was, now, names[i + 1..], prefix)
  {
    assert names[i..][1..] == names[i + 1..];
  }

  ghost predicate BelowStored(objs: Objects, h: Hashing, node: Node)
    requires node.Dir?
  {
    forall k | k in node.kids :: Stored(objs, h, node.kids[k])
  }

  /** An absent directory and a stored empty one have no names to compare. */
  lemma NeitherNames(h: Hashing, o: Option<Oid>, n: Option<Oid>, was: Node, now: Node, names: seq<string>,
                     prefix: string)
    requires was.Dir? && now.Dir? && o != n && names == Listed(was.kids.Keys + now.kids.Keys)
    requires (if o.None? then was == NOTHING else o.value == DirId(h, was))
    requires (if n.None? then now == NOTHING else n.value == DirId(h, now))
    ensures DiffNames(was, now, names, prefix) == DiffDirs(was, now, prefix)
  {}

  class TreeStore {
    const h: Hashing
    var objs: Objects

    ghost predicate Valid()
      reads this
    {
      SaneHash(h) && forall id | id in objs :: h.id(objs[id]) == id
    }

    constructor (h: Hashing)
      requires SaneHash(h)
      ensures Valid() && this.h == h && objs == map[]
    {
      this.h, objs := h, map[];
    }

    method Put(tree: Tree) returns (id: Oid)
      requires Valid()
      modifies this
      ensures Valid() && Grew(old(objs), objs)
      ensures id == h.id(tree) && Holds(objs, h, tree)
    {
      id := h.id(tree);
      objs := objs[id := tree];
    }

    /** Write a directory's entries, flat or sharded by name. */
    method PutDir(es: seq<TreeEntry>, ghost sorted: seq<TreeEntry>) returns (id: Oid)
      requires Valid() && SortedBy(sorted, NameOf) && DistinctBy(es, NameOf)
      requires (forall e :: e in es <==> e in sorted) && |es| == |sorted|
      modifies this
      ensures Valid() && Grew(old(objs), objs)
      ensures id == h.id(Packed(h, sorted)) && HoldsDir(objs, h, sorted)
    {
      SortGives(es, sorted);
      if |es| > SHARD_THRESHOLD {
        var shards := PutShards(es, sorted);
        ghost var before := objs;
        id := Put(Tree(None, Some(shards)));
        StillHeld(before, objs, h, sorted, 256);
      } else {
        id := Put(FlatTree(SortBy(es, NameOf)));
      }
    }

    method PutShards(es: seq<TreeEntry>, ghost sorted: seq<TreeEntry>) returns (shards: seq<Option<Oid>>)
      requires Valid() && SortedBy(sorted, NameOf) && DistinctBy(es, NameOf)
      requires forall e :: e in es <==> e in sorted
      modifies this
      ensures Valid() && Grew(old(objs), objs)
      ensures shards == ShardsOf(h, sorted) && HoldsShards(objs, h, sorted)
    {
      var buckets := Buckets(es);
      shards := [];
      for s := 0 to 256
        invariant Valid() && Grew(old(objs), objs)
        invariant |shards| == s && forall i | 0 <= i < s :: shards[i] == Shard(h, sorted, i)
        invariant forall i | 0 <= i < s :: HeldShard(objs, h, sorted, i)
      {
        ghost var before := objs;
        var shard := PutShard(buckets[s], es, sorted, s);
        StillHeld(before, objs, h, sorted, s);
        shards := shards + [shard];
      }
    }

    method PutShard(bucket: seq<TreeEntry>, ghost es: seq<TreeEntry>, ghost sorted: seq<TreeEntry>, slot: nat)
      returns (shard: Option<Oid>)
      requires Valid() && SortedBy(sorted, NameOf) && DistinctBy(es, NameOf)
      requires (forall e :: e in es <==> e in sorted) && bucket == InSlot(h, es, slot)
      modifies this
      ensures Valid() && Grew(old(objs), objs)
      ensures shard == Shard(h, sorted, slot) && HeldShard(objs, h, sorted, slot)
    {
      SlotOfUnsorted(h, es, sorted, slot);
      SameMembers(bucket, SortBy(bucket, NameOf));
      if bucket == [] {
        return None;
      }
      var id := Put(FlatTree(SortBy(bucket, NameOf)));
      shard := Some(id);
    }

    method Buckets(es: seq<TreeEntry>) returns (r: seq<seq<TreeEntry>>)
      requires SaneHash(h)
      ensures |r| == 256 && forall s | 0 <= s < 256 :: r[s] == InSlot(h, es, s)
    {
      var buckets := new seq<TreeEntry>[256](_ => []);
      for i := 0 to |es|
        invariant forall s | 0 <= s < 256 :: buckets[s] == InSlot(h, es[..i], s)
      {
        assert es[..i + 1][..i] == es[..i];
        var slot := h.slot(es[i].name);
        buckets[slot] := buckets[slot] + [es[i]];
      }
      assert es[..|es|] == es;
      r := buckets[..];
    }

    /** A directory's entries, gathered from its shards if it has any. */
    method Load(id: Oid, ghost sorted: seq<TreeEntry>) returns (es: seq<TreeEntry>)
      requires Valid() && SortedBy(sorted, NameOf) && HoldsDir(objs, h, sorted) && id == h.id(Packed(h, sorted))
      ensures es == sorted
    {
      var tree := objs[id];
      if tree.entries.Some? {
        return tree.entries.value;
      }
      es := Gather(tree.shards.value, sorted);
      SlotsDistinct(h, sorted);
      forall e ensures e in es <==> e in sorted {
        SlotsHold(h, sorted, e);
      }
      SortGives(es, sorted);
      es := SortBy(es, NameOf);
    }

    method Gather(shards: seq<Option<Oid>>, ghost sorted: seq<TreeEntry>) returns (es: seq<TreeEntry>)
      requires HoldsShards(objs, h, sorted) && shards == ShardsOf(h, sorted)
      ensures es == Joined(Slots(h, sorted))
    {
      es := [];
      ghost var parts := Slots(h, sorted);
      for s := 0 to |shards|
        invariant es == Joined(parts[..s])
      {
        assert parts[..s + 1][..s] == parts[..s];
        assert shards[s] == Shard(h, sorted, s) && HeldShard(objs, h, sorted, s);
        var more := ShardEntries(shards[s], sorted, s);
        es := es + more;
      }
      assert parts[..|shards|] == parts;
    }

    method ShardEntries(shard: Option<Oid>, ghost sorted: seq<TreeEntry>, ghost slot: nat) returns (es: seq<TreeEntry>)
      requires shard == Shard(h, sorted, slot) && HeldShard(objs, h, sorted, slot)
      ensures es == InSlot(h, sorted, slot)
    {
      es := if shard.None? then [] else objs[shard.value].entries.value;
    }

    method LoadEntries(id: Oid, ghost node: Node) returns (es: seq<TreeEntry>)
      requires Valid() && node.Dir? && Stored(objs, h, node) && id == DirId(h, node)
      ensures es == DirEntries(h, node)
    {
      es := Load(id, DirEntries(h, node));
    }

    /**
     Write a directory bottom-up: its files' entries, then its directories', each after
     what is below it.
     */
    method Emit(node: Node) returns (id: Oid)
      requires Valid() && node.Dir?
      modifies this
      ensures Valid() && Grew(old(objs), objs)
      ensures id == DirId(h, node) && Stored(objs, h, node)
      decreases node, 1
    {
      var names := List(node.kids.Keys);
      var files := EmitFiles(node, names);
      var dirs := EmitDirs(node, names);
      EmittedEntries(h, node, names);
      ghost var before := objs;
      id := PutDir(files + dirs, DirEntries(h, node));
      forall k | k in node.kids ensures Stored(objs, h, node.kids[k]) {
        StoredGrows(before, objs, h, node.kids[k]);
      }
    }

    method EmitFiles(node: Node, names: seq<string>) returns (es: seq<TreeEntry>)
      requires node.Dir? && forall n | n in names :: n in node.kids
      ensures es == FilesOf(h, node, names)
    {
      es := [];
      for i := 0 to |names|
        invariant FilesOf(h, node, names[..i]) == es
      {
        assert names[..i + 1][..i] == names[..i];
        var kid := node.kids[names[i]];
        if kid.File? {
          es := es + [TreeEntry(names[i], kid.leaf.kind, kid.leaf.mode, kid.leaf.ref, kid.leaf.terms)];
        }
      }
      assert names[..|names|] == names;
    }

    method EmitDirs(node: Node, names: seq<string>) returns (es: seq<TreeEntry>)
      requires Valid() && node.Dir? && forall n | n in names :: n in node.kids
      modifies this
      ensures Valid() && Grew(old(objs), objs)
      ensures es == DirsOf(h, node, names) && forall k | k in names :: Stored(objs, h, node.kids[k])
      decreases node, 0
    {
      es := [];
      for i := 0 to |names|
        invariant Valid() && Grew(old(objs), objs)
        invariant es == DirsOf(h, node, names[..i])
        invariant forall k | k in names[..i] :: Stored(objs, h, node.kids[k])
      {
        assert names[..i + 1][..i] == names[..i] && names[..i + 1] == names[..i] + [names[i]];
        var kid := node.kids[names[i]];
        if kid.Dir? {
          ghost var before := objs;
          var sub := Emit(kid);
          forall k | k in names[..i] ensures Stored(objs, h, node.kids[k]) {
            StoredGrows(before, objs, h, node.kids[k]);
          }
          es := es + [TreeEntry(names[i], DirKind, None, Some(sub), None)];
        }
      }
      assert names[..|names|] == names;
    }

    /** Descend from the root for each path in order, adding its leaf. */
    method Nest(flat: Flat) returns (root: Node)
      ensures root == BuildNode(flat)
    {
      var paths := List(flat.Keys);
      root := NOTHING;
      for i := 0 to |paths|
        invariant root == BuildFrom(flat, paths[..i])
      {
        assert paths[..i + 1][..i] == paths[..i];
        root := Add(root, Split(paths[i]), flat[paths[i]]);
      }
      assert paths[..|paths|] == paths;
    }

    /** Build nested trees from a flat map. */
    method Build(flat: Flat) returns (id: Oid)
      requires Valid()
      modifies this
      ensures Valid() && Grew(old(objs), objs)
      ensures id == DirId(h, BuildNode(flat)) && Stored(objs, h, BuildNode(flat))
      ensures Written(objs, h, BuildNode(flat), id)
    {
      var root := Nest(flat);
      id := Emit(root);
      StoredIsWritten(objs, h, root);
    }

    method WalkInto(id: Oid, ghost node: Node, prefix: string, out: Flat) returns (r: Flat)
      requires Valid() && node.Dir? && Canon(node) && Stored(objs, h, node) && id == DirId(h, node)
      ensures r == WalkDir(node, prefix, out)
      decreases node, 2
    {
      var es := LoadEntries(id, node);
      r := WalkEntries(es, node, prefix, out);
    }

    method WalkEntries(es: seq<TreeEntry>, ghost node: Node, prefix: string, out: Flat) returns (r: Flat)
      requires Valid() && node.Dir? && Canon(node) && BelowStored(objs, h, node) && es == DirEntries(h, node)
      ensures r == WalkDir(node, prefix, out)
      decreases node, 1
    {
      ghost var names := Listed(node.kids.Keys);
      r := out;
      for i := 0 to |es|
        invariant Walk(node, names[i..], prefix, r) == WalkDir(node, prefix, out)
      {
        r := WalkNext(es, i, node, prefix, r);
      }
    }

    method WalkNext(es: seq<TreeEntry>, i: nat, ghost node: Node, prefix: string, out: Flat) returns (r: Flat)
      requires Valid() && node.Dir? && Canon(node) && BelowStored(objs, h, node)
      requires es == DirEntries(h, node) && i < |es|
      ensures var names := Listed(node.kids.Keys);
              Walk(node, names[i + 1..], prefix, r) == Walk(node, names[i..], prefix, out)
      decreases node, 1, 0
    {
      EntryAt(h, node, i);
      WalkStep(node, Listed(node.kids.Keys), i, prefix, out);
      r := WalkEntry(es[i], node, prefix, out);
    }

    method WalkEntry(e: TreeEntry, ghost node: Node, prefix: string, out: Flat) returns (r: Flat)
      requires Valid() && node.Dir? && Canon(node) && BelowStored(objs, h, node)
      requires e.name in node.kids && e == EntryOf(h, e.name, node.kids[e.name])
      ensures r == Entered(node, e.name, prefix, out)
      decreases node, 0
    {
      var path := Under(prefix, e.name);
      if e.kind == DirKind {
        r := WalkInto(e.ref.value, node.kids[e.name], path, out);
      } else {
        r := out[path := Leaf(e.kind, e.mode, e.ref, e.terms)];
      }
    }

    /** The walk of the stored objects flattens the tree they store. */
    method FlattenTree(id: Oid, ghost node: Node) returns (r: Flat)
      requires Valid() && node.Dir? && Canon(node) && Stored(objs, h, node) && id == DirId(h, node)
      ensures r == Flatten(node)
    {
      r := WalkInto(id, node, "", map[]);
    }

    /** Building a map's tree and walking the stored objects again gives the map, unless a path begins with a slash. */
    method Rebuild(flat: Flat) returns (back: Flat)
      requires Valid() && Plain(flat) && NoDirLeaves(flat)
      modifies this
      ensures Valid() && Grew(old(objs), objs)
      ensures back == flat <==> forall p | p in flat :: !Slashed(p)
    {
      BuildFromCanon(flat, Listed(flat.Keys));
      var id := Build(flat);
      back := FlattenTree(id, BuildNode(flat));
      RoundTrip(flat);
    }

    /** The ID stands for the directory, or there is neither. */
    ghost predicate Stands(id: Option<Oid>, node: Node)
      reads this
    {
      && node.Dir? && Canon(node)
      && match id
         case None => node == NOTHING
         case Some(i) => i == DirId(h, node) && Stored(objs, h, node)
    }

    method EntriesAt(id: Option<Oid>, ghost node: Node) returns (es: seq<TreeEntry>)
      requires Valid() && Stands(id, node)
      ensures es == DirEntries(h, node)
    {
      if id.None? {
        return [];
      }
      es := LoadEntries(id.value, node);
    }

    /**
     The differing paths below two directories, either of which may be absent; equal
     IDs are never opened.
     */
    method DiffTrees(o: Option<Oid>, n: Option<Oid>, prefix: string, out: seq<string>, ghost was: Node, ghost now: Node)
      returns (r: seq<string>)
      requires Valid() && Stands(o, was) && Stands(n, now)
      ensures r == out + DiffDirs(was, now, prefix)
      decreases Height(was) + Height(now), 1
    {
      if o == n {
        if o.Some? {
          DirIdNames(h, was, now);
        }
        return out;
      }
      var oe := EntriesAt(o, was);
      var ne := EntriesAt(n, now);
      var names := NamesOf(oe, ne, was, now);
      NeitherNames(h, o, n, was, now, names, prefix);
      r := out;
      for i := 0 to |names|
        invariant r + DiffNames(was, now, names[i..], prefix) == out + DiffDirs(was, now, prefix)
      {
        DiffStep(was, now, names, i, prefix, r);
        r := DiffName(oe, ne, names[i], prefix, r, was, now);
      }
    }

    method NamesOf(oe: seq<TreeEntry>, ne: seq<TreeEntry>, ghost was: Node,
                   ghost now: Node) returns (names: seq<string>)
      requires was.Dir? && now.Dir? && oe == DirEntries(h, was) && ne == DirEntries(h, now)
      ensures names == Listed(was.kids.Keys + now.kids.Keys)
    {
      EntryNamesAre(h, was);
      EntryNamesAre(h, now);
      names := List((set e | e in oe :: e.name) + (set e | e in ne :: e.name));
    }

    method DiffName(oe: seq<TreeEntry>, ne: seq<TreeEntry>, name: string, prefix: string, out: seq<string>,
                    ghost was: Node, ghost now: Node)
      returns (r: seq<string>)
      requires Valid() && was.Dir? && now.Dir? && Canon(was) && Canon(now)
      requires BelowStored(objs, h, was) && BelowStored(objs, h, now)
      requires oe == DirEntries(h, was) && ne == DirEntries(h, now)
      ensures r == out + DiffOne(was, now, name, prefix)
      decreases Height(was) + Height(now), 0
    {
      var a, b := Find(oe, name), Find(ne, name);
      FindKid(h, was, name);
      FindKid(h, now, name);
      if name in was.kids && name in now.kids {
        EntryNames(h, name, was.kids[name], now.kids[name]);
      }
      if a == b {
        return out;
      }
      if (a.Some? ==> a.value.kind == DirKind) && (b.Some? ==> b.value.kind == DirKind) {
        DescentLower(was, now, name);
        var below, above := if a.Some? then a.value.ref else None, if b.Some? then b.value.ref else None;
        r := DiffTrees(below, above, Under(prefix, name), out, OrNothing(Kid(was, name)), OrNothing(Kid(now, name)));
      } else {
        r := out + [Under(prefix, name)];
      }
    }

    /** The walk that skips equal IDs, over two stored trees built from flat maps. */
    method ChangedPaths(o: Option<Oid>, n: Oid, ghost was: Flat, ghost now: Flat) returns (r: seq<string>)
      requires Valid() && Buildable(was) && Buildable(now)
      requires match o
               case None => was == map[]
               case Some(i) => i == DirId(h, BuildNode(was)) && Stored(objs, h, BuildNode(was))
      requires n == DirId(h, BuildNode(now)) && Stored(objs, h, BuildNode(now))
      ensures r == DiffDirs(BuildNode(was), BuildNode(now), "")
      ensures Once(r) && forall p :: p in r <==> p in FlatDiff(was, now) && !BelowLeaf(was, now, p)
    {
      BuildFromCanon(was, Listed(was.Keys));
      BuildFromCanon(now, Listed(now.Keys));
      r := DiffTrees(o, Some(n), "", [], BuildNode(was), BuildNode(now));
      ChangedPathsExact(was, now, "");
      forall p ensures p in r <==> p in FlatDiff(was, now) && !BelowLeaf(was, now, p) {
        ChangedPathsExact(was, now, p);
      }
    }
  }
}
