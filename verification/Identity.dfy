/**
 History-aware identity: the units of a file take the IDs of the previous
 version's units, by name, then body, then position, then likeness; what is new
 gets a fresh ID. The shingles of the units and the fresh supply are given.
 */
module Identity {
  import opened Options
  import opened Ids
  import opened SiblingMatch
  import opened Likeness

  datatype Raw = Raw(parent: Option<nat>, kind: string, name: string, body: Oid, shingles: seq<nat>)

  datatype Prev = Prev(nid: EntityId, kind: string, name: string, body: Oid, parent: Option<EntityId>)

  type Assigned = seq<Option<EntityId>>

  datatype NameKey = NameKey(parent: Option<EntityId>, kind: string, name: string)

  datatype BodyKey = BodyKey(parent: Option<EntityId>, kind: string, body: Oid)

  /** Extraction lists parents before children. */
  ghost predicate ParentsFirst(raw: seq<Raw>) {
    forall i | 0 <= i < |raw| && raw[i].parent.Some? :: raw[i].parent.value < i
  }

  /** What the unit's parent holds by now. */
  function ParentId(raw: seq<Raw>, held: Assigned, i: nat): (r: Option<EntityId>)
    requires i < |raw|
    ensures forall id ::
              r == Some(id) <==> exists j: nat :: j < |held| && raw[i].parent == Some(j) && held[j] == Some(id)
  {
    if raw[i].parent.Some? && raw[i].parent.value < |held| then held[raw[i].parent.value] else None
  }

  // ---------------------------------------------------------------- what is kept

  /** Some previous unit of the same kind has this ID. */
  ghost predicate Kin(r: Raw, previous: seq<Prev>, id: EntityId) {
    exists p | 0 <= p < |previous| :: previous[p].nid == id && previous[p].kind == r.kind
  }

  function IdsOf(held: Assigned): set<EntityId> {
    set i | 0 <= i < |held| && held[i].Some? :: held[i].value
  }

  /** IDs given are used, each once, by units of the kind they had; and no other is used. */
  ghost predicate Sound(raw: seq<Raw>, previous: seq<Prev>, held: Assigned, used: set<EntityId>) {
    && |held| == |raw| && used == IdsOf(held)
    && (forall i | 0 <= i < |raw| && held[i].Some? :: Kin(raw[i], previous, held[i].value))
    && (forall i, j | 0 <= i < j < |raw| && held[i].Some? && held[j].Some? :: held[i].value != held[j].value)
  }

  /** Assignments made stay. */
  ghost predicate Keeps(was: Assigned, held: Assigned) {
    |held| == |was| && forall i | 0 <= i < |was| && was[i].Some? :: held[i] == was[i]
  }

  lemma {:induction false} AssignSound(raw: seq<Raw>, previous: seq<Prev>, held: Assigned, used: set<EntityId>,
                                       i: nat, id: EntityId)
    requires Sound(raw, previous, held, used) && i < |raw| && held[i].None? && id !in used && Kin(raw[i], previous, id)
    ensures Sound(raw, previous, held[i := Some(id)], used + {id})
  {
    var next := held[i := Some(id)];
    forall x ensures x in IdsOf(next) <==> x in used + {id} {
      if j :| 0 <= j < |held| && held[j].Some? && held[j].value == x {
        assert next[j] == held[j];
      }
      assert next[i].value == id;
    }
    forall j | 0 <= j < |raw| && j != i && held[j].Some? ensures held[j].value != id {
      assert held[j].value in IdsOf(held);
    }
  }

  /**
   The same file against itself: every unit as it was, and every unit that holds
   others named.
   */
  ghost predicate Mirrors(raw: seq<Raw>, previous: seq<Prev>) {
    && |raw| == |previous|
    && (forall i, j | 0 <= i < j < |previous| :: previous[i].nid != previous[j].nid)
    && forall i | 0 <= i < |raw| :: MirrorsAt(raw, previous, i)
  }

  ghost predicate MirrorsAt(raw: seq<Raw>, previous: seq<Prev>, i: nat)
    requires |raw| == |previous| && i < |raw|
  {
    && previous[i].kind == raw[i].kind && previous[i].name == raw[i].name && previous[i].body == raw[i].body
    && (raw[i].parent.Some? ==> raw[i].parent.value < i && raw[raw[i].parent.value].name != "")
    && previous[i].parent == if raw[i].parent.Some? && raw[i].parent.value < |previous|
                             then Some(previous[raw[i].parent.value].nid) else None
  }

  // -------------------------------------------------------------- pass 1: by name

  predicate InGroup(n: Prev, key: NameKey) {
    n.name != "" && NameKey(n.parent, n.kind, n.name) == key
  }

  /** The previous units of a group, in document order. */
  function PrevGroup(previous: seq<Prev>, n: nat, key: NameKey): (r: seq<nat>)
    requires n <= |previous|
    ensures forall p | p in r :: p < n && InGroup(previous[p], key)
  {
    if n == 0 then [] else PrevGroup(previous, n - 1, key) + if InGroup(previous[n - 1], key) then [n - 1] else []
  }

  predicate Sibling(raw: seq<Raw>, i: nat, j: nat)
    requires i < |raw| && j < |raw|
  {
    raw[j].parent == raw[i].parent && raw[j].kind == raw[i].kind && raw[j].name == raw[i].name
  }

  /** The units from `i` on that share its parent, kind and name. */
  function Siblings(raw: seq<Raw>, i: nat, n: nat): (r: seq<nat>)
    requires i < |raw| && n <= |raw|
    ensures forall j | j in r :: i <= j < n && Sibling(raw, i, j)
  {
    if n <= i then [] else Siblings(raw, i, n - 1) + if Sibling(raw, i, n - 1) then [n - 1] else []
  }

  predicate Below(s: seq<nat>, n: nat) {
    forall i | 0 <= i < |s| :: s[i] < n
  }

  function BodiesOf(raw: seq<Raw>, members: seq<nat>): (r: seq<Oid>)
    requires Below(members, |raw|)
    ensures |r| == |members| && forall m | 0 <= m < |r| :: r[m] == raw[members[m]].body
  {
    if members == [] then [] else [raw[members[0]].body] + BodiesOf(raw, members[1..])
  }

  function PrevBodiesOf(previous: seq<Prev>, prevs: seq<nat>): (r: seq<Oid>)
    requires Below(prevs, |previous|)
    ensures |r| == |prevs| && forall q | 0 <= q < |r| :: r[q] == previous[prevs[q]].body
  {
    if prevs == [] then [] else [previous[prevs[0]].body] + PrevBodiesOf(previous, prevs[1..])
  }

  function Found<K, V>(m: map<K, seq<V>>, key: K): seq<V> {
    if key in m then m[key] else []
  }

  /** The groups of the first `n` previous units. */
  ghost predicate Groups(groups: map<NameKey, seq<nat>>, previous: seq<Prev>, n: nat)
    requires n <= |previous|
  {
    forall key :: Found(groups, key) == PrevGroup(previous, n, key)
  }

  function Grouped(groups: map<NameKey, seq<nat>>, n: Prev, p: nat): map<NameKey, seq<nat>> {
    var key := NameKey(n.parent, n.kind, n.name);
    if n.name == "" then groups else groups[key := Found(groups, key) + [p]]
  }

  lemma {:induction false} GroupsStep(groups: map<NameKey, seq<nat>>, previous: seq<Prev>, p: nat)
    requires p < |previous| && Groups(groups, previous, p)
    ensures Groups(Grouped(groups, previous[p], p), previous, p + 1)
  {
    var next := Grouped(groups, previous[p], p);
    forall key ensures Found(next, key) == PrevGroup(previous, p + 1, key) {
      assert Found(groups, key) == PrevGroup(previous, p, key);
      if !InGroup(previous[p], key) {
        assert Found(next, key) == Found(groups, key);
        assert PrevGroup(previous, p, key) + [] == PrevGroup(previous, p, key);
      }
    }
  }

  method GroupPrevious(previous: seq<Prev>) returns (groups: map<NameKey, seq<nat>>)
    ensures Groups(groups, previous, |previous|)
  {
    groups := map[];
    for p := 0 to |previous|
      invariant Groups(groups, previous, p)
    {
      GroupsStep(groups, previous, p);
      groups := Grouped(groups, previous[p], p);
    }
  }

  /** A member takes the ID its slot names, unless that is used already or an earlier member took it. */
  ghost predicate TookSlot(previous: seq<Prev>, members: seq<nat>, prevs: seq<nat>, slots: Slots,
                           used: set<EntityId>, held: Assigned, m: nat)
    requires m < |members| == |slots| && Below(members, |held|)
  {
    match slots[m]
    case None => held[members[m]] == None
    case Some(q) =>
      && q < |prevs| && prevs[q] < |previous|
      && var nid := previous[prevs[q]].nid;
         held[members[m]] == if nid in used || HeldEarlier(members, held, m, nid) then None else Some(nid)
  }

  ghost predicate HeldEarlier(members: seq<nat>, held: Assigned, m: nat, nid: EntityId)
    requires m <= |members| && Below(members, |held|)
  {
    exists n | 0 <= n < m :: held[members[n]] == Some(nid)
  }

  /** The first `m` members had their turn, and used is what was and what they took. */
  ghost predicate TookSlots(previous: seq<Prev>, members: seq<nat>, prevs: seq<nat>, slots: Slots,
                            wasUsed: set<EntityId>, held: Assigned, used: set<EntityId>, m: nat) {
    && m <= |members| == |slots| && Below(members, |held|)
    && (forall n: nat | n < m :: TookSlot(previous, members, prevs, slots, wasUsed, held, n))
    && forall id :: id in used <==> id in wasUsed || HeldEarlier(members, held, m, id)
  }

  lemma TookSlotsStep(previous: seq<Prev>, members: seq<nat>, prevs: seq<nat>, slots: Slots, wasUsed: set<EntityId>,
                      was: Assigned, used: set<EntityId>, m: nat, id: Option<EntityId>)
    requires TookSlots(previous, members, prevs, slots, wasUsed, was, used, m) && m < |members|
    requires forall i, j | 0 <= i < j < |members| :: members[i] != members[j]
    requires was[members[m]].None? && Once(slots, |prevs|) && Below(prevs, |previous|)
    requires id == if slots[m].None? || previous[prevs[slots[m].value]].nid in used then None
                   else Some(previous[prevs[slots[m].value]].nid)
    ensures TookSlots(previous, members, prevs, slots, wasUsed, was[members[m] := id],
                      used + (if id.Some? then {id.value} else {}), m + 1)
  {
    var held := was[members[m] := id];
    forall n: nat, x: EntityId | n <= m ensures HeldEarlier(members, held, n, x) <==> HeldEarlier(members, was, n, x) {
      assert forall k | 0 <= k < n :: held[members[k]] == was[members[k]];
    }
    forall n: nat | n < m ensures TookSlot(previous, members, prevs, slots, wasUsed, held, n) {
      assert TookSlot(previous, members, prevs, slots, wasUsed, was, n);
    }
    forall x: EntityId
      ensures HeldEarlier(members, held, m + 1, x) <==> HeldEarlier(members, held, m, x) || id == Some(x)
    {
      assert held[members[m]] == id;
    }
  }

  /** Members with a slot take its ID, unless it is used. */
  method AssignGroup(raw: seq<Raw>, previous: seq<Prev>, members: seq<nat>, prevs: seq<nat>, slots: Slots,
                     was: Assigned, wasUsed: set<EntityId>)
    returns (held: Assigned, used: set<EntityId>)
    requires Sound(raw, previous, was, wasUsed) && |slots| == |members| && Once(slots, |prevs|)
    requires Below(members, |raw|) && Below(prevs, |previous|) && forall m | 0 <= m < |members| :: was[members[m]].None?
    requires forall m, q | 0 <= m < |members| && 0 <= q < |prevs| :: previous[prevs[q]].kind == raw[members[m]].kind
    requires forall m, n | 0 <= m < n < |members| :: members[m] != members[n]
    ensures Sound(raw, previous, held, used) && forall k: nat | k < |was| && k !in members :: held[k] == was[k]
    ensures TookSlots(previous, members, prevs, slots, wasUsed, held, used, |members|)
    ensures Itself(previous, members, prevs, slots, wasUsed) ==> TookOwn(previous, members, was, wasUsed, held, used)
  {
    held, used := was, wasUsed;
    for m := 0 to |members|
      invariant Sound(raw, previous, held, used) && forall k: nat | k < |was| && k !in members[..m] :: held[k] == was[k]
      invariant TookSlots(previous, members, prevs, slots, wasUsed, held, used, m)
      invariant forall n | m <= n < |members| :: held[members[n]].None?
      invariant Itself(previous, members, prevs, slots, wasUsed) ==>
        TookOwn(previous, members[..m], was, wasUsed, held, used)
    {
      assert members[..m + 1] == members[..m] + [members[m]];
      if Itself(previous, members, prevs, slots, wasUsed) {
        TookOwnStep(previous, members, m, was, wasUsed, held, used);
      }
      held, used := AssignMember(raw, previous, members, prevs, slots, m, held, used, wasUsed);
    }
    assert members[..|members|] == members;
  }

  method AssignMember(raw: seq<Raw>, previous: seq<Prev>, members: seq<nat>, prevs: seq<nat>, slots: Slots, m: nat,
                      was: Assigned, wasUsed: set<EntityId>, ghost before: set<EntityId>)
    returns (held: Assigned, used: set<EntityId>)
    requires Sound(raw, previous, was, wasUsed) && m < |members| && Once(slots, |prevs|)
    requires Below(members, |raw|) && Below(prevs, |previous|) && was[members[m]].None?
    requires TookSlots(previous, members, prevs, slots, before, was, wasUsed, m)
    requires forall q | 0 <= q < |prevs| :: previous[prevs[q]].kind == raw[members[m]].kind
    requires forall i, j | 0 <= i < j < |members| :: members[i] != members[j]
    ensures Sound(raw, previous, held, used) && TookSlots(previous, members, prevs, slots, before, held, used, m + 1)
    ensures held == was[members[m] := held[members[m]]]
    ensures slots[m].Some? && previous[prevs[slots[m].value]].nid !in wasUsed ==>
              var nid := previous[prevs[slots[m].value]].nid;
              held[members[m]] == Some(nid) && used == wasUsed + {nid}
  {
    held, used := was, wasUsed;
    if slots[m].Some? {
      var nid := previous[prevs[slots[m].value]].nid;
      if nid !in used {
        AssignSound(raw, previous, held, used, members[m], nid);
        TookSlotsStep(previous, members, prevs, slots, before, was, wasUsed, m, Some(nid));
        return held[members[m] := Some(nid)], used + {nid};
      }
    }
    TookSlotsStep(previous, members, prevs, slots, before, was, wasUsed, m, None);
    assert was[members[m] := None] == was && wasUsed + {} == wasUsed;
  }

  /** Every member's slot is its own previous unit, whose ID is free. */
  ghost predicate Itself(previous: seq<Prev>, members: seq<nat>, prevs: seq<nat>, slots: Slots, used: set<EntityId>) {
    && members == prevs && |slots| == |members|
    && (forall m | 0 <= m < |members| ::
        slots[m] == Some(m) && members[m] < |previous| && previous[members[m]].nid !in used)
    && (forall i, j | 0 <= i < j < |previous| :: previous[i].nid != previous[j].nid)
  }

  ghost predicate TookOwn(previous: seq<Prev>, members: seq<nat>, was: Assigned, wasUsed: set<EntityId>,
                          held: Assigned, used: set<EntityId>) {
    && |held| == |was|
    && (forall k: nat | k < |was| && k !in members :: held[k] == was[k])
    && (forall k | k in members :: k < |was| && k < |previous| && held[k] == Some(previous[k].nid))
    && forall id :: id in used <==>
                    id in wasUsed || exists k :: k in members && k < |previous| && previous[k].nid == id
  }

  lemma {:induction false} TookOwnStep(previous: seq<Prev>, members: seq<nat>, m: nat, was: Assigned,
                                       wasUsed: set<EntityId>,
                                       held: Assigned, used: set<EntityId>)
    requires m < |members| && members[m] < |was| && members[m] < |previous| && previous[members[m]].nid !in wasUsed
    requires forall i, j | 0 <= i < j < |previous| :: previous[i].nid != previous[j].nid
    requires forall i, j | 0 <= i < j < |members| :: members[i] != members[j]
    requires TookOwn(previous, members[..m], was, wasUsed, held, used)
    ensures previous[members[m]].nid !in used
    ensures TookOwn(previous, members[..m] + [members[m]], was, wasUsed,
                    held[members[m] := Some(previous[members[m]].nid)], used + {previous[members[m]].nid})
  {
    var done, k := members[..m], members[m];
    assert k !in done;
    var nid := previous[k].nid;
    forall id ensures id in used + {nid} <==>
      id in wasUsed || exists x :: x in done + [k] && x < |previous| && previous[x].nid == id
    {
      assert id in used <==> id in wasUsed || exists x :: x in done && x < |previous| && previous[x].nid == id;
      if x :| x in done && x < |previous| && previous[x].nid == id {
        assert x in done + [k];
      }
      assert k in done + [k];
    }
  }

  // Every group of a changed file, in turn.

  /** The units of that unit's parent, kind and name, in document order. */
  ghost predicate SiblingList(raw: seq<Raw>, i: nat, members: seq<nat>)
    requires i < |raw|
  {
    && Rises(members)
    && forall j: nat :: j in members <==>
                        j < |raw| && raw[j].parent == raw[i].parent && raw[j].kind == raw[i].kind
                        && raw[j].name == raw[i].name
  }

  ghost predicate FormerList(previous: seq<Prev>, parent: Option<EntityId>, kind: string, name: string,
                             prevs: seq<nat>) {
    && Rises(prevs)
    && forall p: nat :: p in prevs <==>
                        p < |previous| && previous[p].parent == parent && previous[p].kind == kind
                        && previous[p].name == name
  }

  /** A named unit none before it shares parent, kind and name with. */
  predicate FirstOfGroup(raw: seq<Raw>, i: nat) {
    i < |raw| && raw[i].name != "" && forall j | 0 <= j < i :: !Sibling(raw, j, i)
  }

  /** What the groups that begin before `i` hold. */
  ghost function HeldBefore(raw: seq<Raw>, held: Assigned, i: nat): set<EntityId>
    requires |held| == |raw| && i <= |raw|
  {
    set j | 0 <= j < |raw| && held[j].Some? && BeginsBefore(raw, j, i) :: held[j].value
  }

  predicate BeginsBefore(raw: seq<Raw>, j: nat, i: nat)
    requires j < |raw| && i <= |raw|
  {
    exists k | 0 <= k < i :: Sibling(raw, k, j)
  }

  /** The group is matched to the former units of its parent, kind and name, whose IDs earlier groups left. */
  ghost predicate GroupMatched(raw: seq<Raw>, previous: seq<Prev>, held: Assigned, i: nat, members: seq<nat>,
                               prevs: seq<nat>, slots: Slots)
    requires |held| == |raw| && i < |raw|
  {
    && SiblingList(raw, i, members) && Below(members, |raw|)
    && FormerList(previous, ParentId(raw, held, i), raw[i].kind, raw[i].name, prevs) && Below(prevs, |previous|)
    && Matched(BodiesOf(raw, members), PrevBodiesOf(previous, prevs), slots)
    && forall m: nat | m < |members| :: TookSlot(previous, members, prevs, slots, HeldBefore(raw, held, i), held, m)
  }

  ghost predicate GroupDecided(raw: seq<Raw>, previous: seq<Prev>, held: Assigned, i: nat)
    requires |held| == |raw| && i < |raw|
  {
    exists members, prevs, slots :: GroupMatched(raw, previous, held, i, members, prevs, slots)
  }

  /** Groups that begin before `i` are decided, and no other unit is matched. */
  ghost predicate NamesDecided(raw: seq<Raw>, previous: seq<Prev>, held: Assigned, i: nat) {
    && |held| == |raw|
    && (forall j: nat | j < i && FirstOfGroup(raw, j) :: GroupDecided(raw, previous, held, j))
    && forall j | 0 <= j < |raw| && held[j].Some? :: raw[j].name != "" && (i <= |raw| ==> BeginsBefore(raw, j, i))
  }

  lemma {:induction false} GroupListing(previous: seq<Prev>, n: nat, key: NameKey)
    requires n <= |previous| && key.name != ""
    ensures Rises(PrevGroup(previous, n, key))
    ensures forall p: nat :: p in PrevGroup(previous, n, key) <==>
                             p < n && previous[p].parent == key.parent && previous[p].kind == key.kind
                             && previous[p].name == key.name
  {
    if n > 0 {
      GroupListing(previous, n - 1, key);
      var init := PrevGroup(previous, n - 1, key);
      forall a | 0 <= a < |init| ensures init[a] < n - 1 {
        assert init[a] in init;
      }
    }
  }

  lemma SiblingListing(raw: seq<Raw>, i: nat)
    requires FirstOfGroup(raw, i)
    ensures SiblingList(raw, i, Siblings(raw, i, |raw|))
  {
    SiblingsDistinct(raw, i, |raw|);
    forall j: nat ensures j in Siblings(raw, i, |raw|) <==> j < |raw| && Sibling(raw, i, j) {
      if j < |raw| && Sibling(raw, i, j) {
        assert j < i ==> !Sibling(raw, j, i);
      }
    }
  }

  /** Where only the units of a later group changed, an earlier group's own units, parent and rivals did not. */
  lemma SameBefore(raw: seq<Raw>, was: Assigned, held: Assigned, i: nat, j: nat)
    requires ParentsFirst(raw) && |was| == |held| == |raw| && j <= i && FirstOfGroup(raw, i) && j < |raw|
    requires forall k: nat | k < |raw| && !Sibling(raw, i, k) :: held[k] == was[k]
    ensures HeldBefore(raw, held, j) == HeldBefore(raw, was, j) && ParentId(raw, held, j) == ParentId(raw, was, j)
  {
    forall k: nat | k < |raw| && BeginsBefore(raw, k, j) ensures held[k] == was[k] {
      var n :| 0 <= n < j && Sibling(raw, n, k);
      assert !Sibling(raw, n, i);
    }
    if raw[j].parent.Some? {
      assert !Sibling(raw, raw[j].parent.value, i);
    }
  }

  lemma {:induction false} GroupKept(raw: seq<Raw>, previous: seq<Prev>, was: Assigned, held: Assigned, i: nat, j: nat)
    requires ParentsFirst(raw) && |was| == |held| == |raw| && j < i && FirstOfGroup(raw, i) && FirstOfGroup(raw, j)
    requires forall k: nat | k < |raw| && !Sibling(raw, i, k) :: held[k] == was[k]
    requires GroupDecided(raw, previous, was, j)
    ensures GroupDecided(raw, previous, held, j)
  {
    var members, prevs, slots :| GroupMatched(raw, previous, was, j, members, prevs, slots);
    SameBefore(raw, was, held, i, j);
    forall m | 0 <= m < |members| ensures held[members[m]] == was[members[m]] {
      assert members[m] in members;
      assert !Sibling(raw, j, i);
    }
    forall m: nat | m < |members| ensures TookSlot(previous, members, prevs, slots, HeldBefore(raw, held, j), held, m) {
      assert TookSlot(previous, members, prevs, slots, HeldBefore(raw, was, j), was, m);
      assert forall nid :: HeldEarlier(members, held, m, nid) <==> HeldEarlier(members, was, m, nid);
    }
    assert GroupMatched(raw, previous, held, j, members, prevs, slots);
  }

  type GroupKey = (Option<nat>, string, string)

  function KeyOf(r: Raw): GroupKey { (r.parent, r.kind, r.name) }

  /** Only units of the groups visited are matched. */
  ghost predicate OnlyGrouped(raw: seq<Raw>, held: Assigned, grouped: set<GroupKey>) {
    |held| == |raw| && forall k | 0 <= k < |raw| && held[k].Some? :: raw[k].name != "" && KeyOf(raw[k]) in grouped
  }

  /** Of a file against itself, exactly the units of the groups visited are matched, each to itself. */
  ghost predicate OwnNames(raw: seq<Raw>, previous: seq<Prev>, held: Assigned, used: set<EntityId>,
                           grouped: set<GroupKey>) {
    && |held| == |raw| == |previous|
    && forall k | 0 <= k < |raw| ::
         && held[k] == (if raw[k].name != "" && KeyOf(raw[k]) in grouped then Some(previous[k].nid) else None)
         && (previous[k].nid in used <==> held[k].Some?)
  }

  lemma {:induction false} GroupMirrors(raw: seq<Raw>, previous: seq<Prev>, i: nat, n: nat)
    requires Mirrors(raw, previous) && i < |raw| && n <= |raw| && raw[i].name != ""
    requires forall j: nat | j < i :: !Sibling(raw, i, j)
    ensures PrevGroup(previous, n, NameKey(previous[i].parent, raw[i].kind, raw[i].name)) == Siblings(raw, i, n)
  {
    if n > 0 {
      GroupMirrors(raw, previous, i, n - 1);
      SiblingMirrors(raw, previous, i, n - 1);
    }
  }

  lemma {:induction false} SiblingMirrors(raw: seq<Raw>, previous: seq<Prev>, i: nat, j: nat)
    requires Mirrors(raw, previous) && i < |raw| && j < |raw| && raw[i].name != ""
    ensures InGroup(previous[j], NameKey(previous[i].parent, raw[i].kind, raw[i].name)) <==> Sibling(raw, i, j)
  {
    assert MirrorsAt(raw, previous, i) && MirrorsAt(raw, previous, j);
    if raw[i].parent.Some? && raw[j].parent.Some? && raw[i].parent.value != raw[j].parent.value {
      assert previous[raw[i].parent.value].nid != previous[raw[j].parent.value].nid;
    }
  }

  lemma {:induction false} SiblingsDistinct(raw: seq<Raw>, i: nat, n: nat)
    requires i < |raw| && n <= |raw|
    ensures forall a, b | 0 <= a < b < |Siblings(raw, i, n)| :: Siblings(raw, i, n)[a] < Siblings(raw, i, n)[b]
    ensures i < n ==> forall j: nat | i <= j < n && Sibling(raw, i, j) :: j in Siblings(raw, i, n)
  {
    if n > i {
      SiblingsDistinct(raw, i, n - 1);
      var init := Siblings(raw, i, n - 1);
      assert forall a | 0 <= a < |init| :: init[a] in init;
    }
  }

  lemma {:induction false} MembersBelow(raw: seq<Raw>, previous: seq<Prev>, i: nat, key: NameKey)
    requires i < |raw| && key.kind == raw[i].kind
    ensures var members, prevs := Siblings(raw, i, |raw|), PrevGroup(previous, |previous|, key);
            && Below(members, |raw|) && Below(prevs, |previous|)
            && forall m, q | 0 <= m < |members| && 0 <= q < |prevs| :: previous[prevs[q]].kind == raw[members[m]].kind
  {
    var members, prevs := Siblings(raw, i, |raw|), PrevGroup(previous, |previous|, key);
    forall m | 0 <= m < |members| ensures members[m] < |raw| && raw[members[m]].kind == raw[i].kind {
      assert members[m] in members;
    }
    forall q | 0 <= q < |prevs| ensures prevs[q] < |previous| && previous[prevs[q]].kind == raw[i].kind {
      assert prevs[q] in prevs;
    }
  }

  /** Named units before `i` are in groups already visited. */
  ghost predicate EarlierGrouped(raw: seq<Raw>, i: nat, grouped: set<GroupKey>) {
    forall k | 0 <= k < i && k < |raw| && raw[k].name != "" :: KeyOf(raw[k]) in grouped
  }

  lemma {:induction false} UnvisitedFree(raw: seq<Raw>, i: nat, was: Assigned, grouped: set<GroupKey>)
    requires i < |raw| && KeyOf(raw[i]) !in grouped && OnlyGrouped(raw, was, grouped)
    ensures var members := Siblings(raw, i, |raw|);
            forall m | 0 <= m < |members| :: members[m] < |was| && was[members[m]].None?
  {
    var members := Siblings(raw, i, |raw|);
    forall m | 0 <= m < |members| ensures members[m] < |was| && was[members[m]].None? {
      assert members[m] in members;
    }
  }

  /** A group of a file against itself is matched to its own units. */
  lemma {:induction false} OwnGroup(raw: seq<Raw>, previous: seq<Prev>, i: nat, was: Assigned, wasUsed: set<EntityId>,
                                    grouped: set<GroupKey>)
    requires Mirrors(raw, previous) && OwnNames(raw, previous, was, wasUsed, grouped) && EarlierGrouped(raw, i, grouped)
    requires i < |raw| && raw[i].name != "" && KeyOf(raw[i]) !in grouped
    ensures ParentId(raw, was, i) == previous[i].parent
    ensures PrevGroup(previous, |previous|, NameKey(previous[i].parent, raw[i].kind, raw[i].name)) ==
        Siblings(raw, i, |raw|)
    ensures forall k | k in Siblings(raw, i, |raw|) :: previous[k].nid !in wasUsed && raw[k].body == previous[k].body
  {
    assert MirrorsAt(raw, previous, i);
    forall j: nat | j < i ensures !Sibling(raw, i, j) {
      assert raw[j].name != "" ==> KeyOf(raw[j]) in grouped;
    }
    GroupMirrors(raw, previous, i, |raw|);
    forall k | k in Siblings(raw, i, |raw|) ensures previous[k].nid !in wasUsed && raw[k].body == previous[k].body {
      assert MirrorsAt(raw, previous, k) && KeyOf(raw[k]) == KeyOf(raw[i]);
    }
  }

  lemma {:induction false} OwnSlots(raw: seq<Raw>, previous: seq<Prev>, members: seq<nat>, slots: Slots,
                                    used: set<EntityId>)
    requires Mirrors(raw, previous) && Below(members, |raw|) && |slots| == |members|
    requires forall k | k in members :: previous[k].nid !in used && raw[k].body == previous[k].body
    requires BodiesOf(raw, members) == PrevBodiesOf(previous, members) ==>
        forall m | 0 <= m < |members| :: slots[m] == Some(m)
    ensures Itself(previous, members, members, slots, used)
  {
    assert forall m | 0 <= m < |members| :: members[m] in members;
    assert BodiesOf(raw, members) == PrevBodiesOf(previous, members);
  }

  lemma {:induction false} OwnStep(raw: seq<Raw>, previous: seq<Prev>, members: seq<nat>, was: Assigned,
                                   wasUsed: set<EntityId>,
                held: Assigned, used: set<EntityId>, grouped: set<GroupKey>, i: nat)
    requires Mirrors(raw, previous) && OwnNames(raw, previous, was, wasUsed, grouped) && i < |raw| && raw[i].name != ""
    requires members == Siblings(raw, i, |raw|) && TookOwn(previous, members, was, wasUsed, held, used)
    requires EarlierGrouped(raw, i, grouped) && KeyOf(raw[i]) !in grouped
    ensures OwnNames(raw, previous, held, used, grouped + {KeyOf(raw[i])})
  {
    SiblingsDistinct(raw, i, |raw|);
    forall k | 0 <= k < |raw|
      ensures held[k] == if raw[k].name != "" && KeyOf(raw[k]) in grouped + {KeyOf(raw[i])}
                         then Some(previous[k].nid) else None
      ensures previous[k].nid in used <==> held[k].Some?
    {
      assert k in members <==> KeyOf(raw[k]) == KeyOf(raw[i]) by {
        if KeyOf(raw[k]) == KeyOf(raw[i]) {
          assert raw[k].name != "" && k >= i;
          assert Sibling(raw, i, k);
        }
      }
    }
  }

  lemma {:induction false} MembersGrouped(raw: seq<Raw>, members: seq<nat>, was: Assigned, held: Assigned,
                                          grouped: set<GroupKey>, i: nat)
    requires i < |raw| && raw[i].name != "" && members == Siblings(raw, i, |raw|) && OnlyGrouped(raw, was, grouped)
    requires |held| == |was| && forall k: nat | k < |was| && k !in members :: held[k] == was[k]
    ensures OnlyGrouped(raw, held, grouped + {KeyOf(raw[i])})
  {}

  ghost predicate VisitedBefore(raw: seq<Raw>, i: nat, key: GroupKey) {
    exists k | 0 <= k < i && k < |raw| :: KeyOf(raw[k]) == key
  }

  /** A unit without a name, or of a group visited, changes nothing. */
  lemma NotFirst(raw: seq<Raw>, previous: seq<Prev>, held: Assigned, i: nat, grouped: set<GroupKey>)
    requires i < |raw| && NamesDecided(raw, previous, held, i)
    requires forall key | key in grouped :: VisitedBefore(raw, i, key)
    ensures raw[i].name == "" || KeyOf(raw[i]) in grouped ==> NamesDecided(raw, previous, held, i + 1)
  {
    if raw[i].name == "" || KeyOf(raw[i]) in grouped {
      if raw[i].name != "" {
        var k :| 0 <= k < i && KeyOf(raw[k]) == KeyOf(raw[i]);
        assert Sibling(raw, k, i);
      }
      forall j | 0 <= j < |raw| && held[j].Some? ensures BeginsBefore(raw, j, i + 1) {
        var n :| 0 <= n < i && Sibling(raw, n, j);
      }
    }
  }

  /** The IDs used so far are those held by the groups begun. */
  lemma UsedIsHeld(raw: seq<Raw>, previous: seq<Prev>, was: Assigned, wasUsed: set<EntityId>, i: nat)
    requires i <= |raw| && NamesDecided(raw, previous, was, i) && Sound(raw, previous, was, wasUsed)
    ensures wasUsed == HeldBefore(raw, was, i)
  {
    forall x ensures x in HeldBefore(raw, was, i) <==> x in IdsOf(was) {
      if k :| 0 <= k < |was| && was[k].Some? && was[k].value == x {
        assert BeginsBefore(raw, k, i);
      }
    }
  }

  lemma {:induction false} NewGroupDecided(raw: seq<Raw>, previous: seq<Prev>, was: Assigned, wasUsed: set<EntityId>,
                                           held: Assigned, used: set<EntityId>, i: nat, members: seq<nat>,
                                           prevs: seq<nat>, slots: Slots)
    requires ParentsFirst(raw) && FirstOfGroup(raw, i) && |held| == |was| == |raw|
    requires wasUsed == HeldBefore(raw, was, i)
    requires members == Siblings(raw, i, |raw|) && Below(members, |raw|) && Below(prevs, |previous|)
    requires prevs == PrevGroup(previous, |previous|, NameKey(ParentId(raw, was, i), raw[i].kind, raw[i].name))
    requires Matched(BodiesOf(raw, members), PrevBodiesOf(previous, prevs), slots)
    requires TookSlots(previous, members, prevs, slots, wasUsed, held, used, |members|)
    requires forall k: nat | k < |raw| && !Sibling(raw, i, k) :: held[k] == was[k]
    ensures GroupDecided(raw, previous, held, i)
  {
    SiblingListing(raw, i);
    GroupListing(previous, |previous|, NameKey(ParentId(raw, was, i), raw[i].kind, raw[i].name));
    SameBefore(raw, was, held, i, i);
    assert GroupMatched(raw, previous, held, i, members, prevs, slots);
  }

  lemma {:induction false} NamesStep(raw: seq<Raw>, previous: seq<Prev>, was: Assigned, wasUsed: set<EntityId>,
                                     held: Assigned, used: set<EntityId>, i: nat, members: seq<nat>, prevs: seq<nat>,
                                     slots: Slots, grouped: set<GroupKey>)
    requires ParentsFirst(raw) && i < |raw| && raw[i].name != "" && KeyOf(raw[i]) !in grouped
    requires NamesDecided(raw, previous, was, i) && Sound(raw, previous, was, wasUsed)
    requires EarlierGrouped(raw, i, grouped)
    requires members == Siblings(raw, i, |raw|) && Below(members, |raw|) && Below(prevs, |previous|)
    requires prevs == PrevGroup(previous, |previous|, NameKey(ParentId(raw, was, i), raw[i].kind, raw[i].name))
    requires Matched(BodiesOf(raw, members), PrevBodiesOf(previous, prevs), slots)
    requires TookSlots(previous, members, prevs, slots, wasUsed, held, used, |members|)
    requires |held| == |was| && forall k: nat | k < |was| && k !in members :: held[k] == was[k]
    ensures NamesDecided(raw, previous, held, i + 1)
  {
    GroupBegins(raw, i, grouped);
    UsedIsHeld(raw, previous, was, wasUsed, i);
    forall k: nat | k < |raw| && !Sibling(raw, i, k) ensures held[k] == was[k] {
      assert k !in members;
    }
    NewGroupDecided(raw, previous, was, wasUsed, held, used, i, members, prevs, slots);
    OthersStay(raw, previous, was, held, i);
  }

  lemma {:induction false} OthersStay(raw: seq<Raw>, previous: seq<Prev>, was: Assigned, held: Assigned, i: nat)
    requires ParentsFirst(raw) && FirstOfGroup(raw, i) && |held| == |was| && NamesDecided(raw, previous, was, i)
    requires forall k: nat | k < |raw| && !Sibling(raw, i, k) :: held[k] == was[k]
    requires GroupDecided(raw, previous, held, i)
    ensures NamesDecided(raw, previous, held, i + 1)
  {
    forall j: nat | j < i && FirstOfGroup(raw, j) ensures GroupDecided(raw, previous, held, j) {
      GroupKept(raw, previous, was, held, i, j);
    }
    forall j | 0 <= j < |raw| && held[j].Some? ensures raw[j].name != "" && BeginsBefore(raw, j, i + 1) {
      HeldIsBegun(raw, was, held, i, j);
    }
  }

  lemma GroupBegins(raw: seq<Raw>, i: nat, grouped: set<GroupKey>)
    requires i < |raw| && raw[i].name != "" && KeyOf(raw[i]) !in grouped && EarlierGrouped(raw, i, grouped)
    ensures FirstOfGroup(raw, i)
  {
    forall j: nat | j < i ensures !Sibling(raw, j, i) {
      assert raw[j].name != "" ==> KeyOf(raw[j]) in grouped;
    }
  }

  lemma HeldIsBegun(raw: seq<Raw>, was: Assigned, held: Assigned, i: nat, j: nat)
    requires i < |raw| == |held| == |was| && j < |raw| && held[j].Some? && raw[i].name != ""
    requires was[j].Some? ==> raw[j].name != "" && BeginsBefore(raw, j, i)
    requires !Sibling(raw, i, j) ==> held[j] == was[j]
    ensures raw[j].name != "" && BeginsBefore(raw, j, i + 1)
  {
    if Sibling(raw, i, j) {
      assert BeginsBefore(raw, j, i + 1);
    } else {
      var n :| 0 <= n < i && Sibling(raw, n, j);
    }
  }

  /** The group of one unit, matched to the previous group of the same name. */
  method MatchSiblings(raw: seq<Raw>, previous: seq<Prev>, groups: map<NameKey, seq<nat>>, i: nat,
                       was: Assigned, wasUsed: set<EntityId>, ghost grouped: set<GroupKey>)
    returns (held: Assigned, used: set<EntityId>)
    requires Groups(groups, previous, |previous|)
    requires i < |raw| && raw[i].name != "" && KeyOf(raw[i]) !in grouped
    requires Sound(raw, previous, was, wasUsed) && OnlyGrouped(raw, was, grouped)
    ensures Sound(raw, previous, held, used) && OnlyGrouped(raw, held, grouped + {KeyOf(raw[i])})
    ensures Mirrors(raw, previous) && EarlierGrouped(raw, i, grouped)
              && OwnNames(raw, previous, was, wasUsed, grouped) ==>
      OwnNames(raw, previous, held, used, grouped + {KeyOf(raw[i])})
    ensures ParentsFirst(raw) && NamesDecided(raw, previous, was, i) && EarlierGrouped(raw, i, grouped) ==>
              NamesDecided(raw, previous, held, i + 1)
  {
    var members := Siblings(raw, i, |raw|);
    SiblingsDistinct(raw, i, |raw|);
    var key := NameKey(ParentId(raw, was, i), raw[i].kind, raw[i].name);
    var prevs := Found(groups, key);
    MembersBelow(raw, previous, i, key);
    UnvisitedFree(raw, i, was, grouped);
    var slots := MatchGroup(BodiesOf(raw, members), PrevBodiesOf(previous, prevs));
    held, used := AssignGroup(raw, previous, members, prevs, slots, was, wasUsed);
    MembersGrouped(raw, members, was, held, grouped, i);
    if Mirrors(raw, previous) && OwnNames(raw, previous, was, wasUsed, grouped) && EarlierGrouped(raw, i, grouped) {
      OwnGroup(raw, previous, i, was, wasUsed, grouped);
      OwnSlots(raw, previous, members, slots, wasUsed);
      OwnStep(raw, previous, members, was, wasUsed, held, used, grouped, i);
    }
    if ParentsFirst(raw) && NamesDecided(raw, previous, was, i) && EarlierGrouped(raw, i, grouped) {
      NamesStep(raw, previous, was, wasUsed, held, used, i, members, prevs, slots, grouped);
    }
  }

  /** Pass 1: groups of the same parent, kind and name. */
  method ByName(raw: seq<Raw>, previous: seq<Prev>) returns (held: Assigned, used: set<EntityId>)
    ensures Sound(raw, previous, held, used)
    ensures ParentsFirst(raw) ==> NamesDecided(raw, previous, held, |raw|)
    ensures Mirrors(raw, previous) ==> OwnNamed(raw, previous, held, used)
  {
    var groups := GroupPrevious(previous);
    var grouped: set<GroupKey> := {};
    held, used := seq(|raw|, _ => None), {};
    for i := 0 to |raw|
      invariant Sound(raw, previous, held, used) && OnlyGrouped(raw, held, grouped) && EarlierGrouped(raw, i, grouped)
      invariant Mirrors(raw, previous) ==> OwnNames(raw, previous, held, used, grouped)
      invariant ParentsFirst(raw) ==> NamesDecided(raw, previous, held, i)
      invariant forall key | key in grouped :: VisitedBefore(raw, i, key)
    {
      if ParentsFirst(raw) {
        NotFirst(raw, previous, held, i, grouped);
      }
      if raw[i].name != "" && KeyOf(raw[i]) !in grouped {
        held, used := MatchSiblings(raw, previous, groups, i, held, used, grouped);
        grouped := grouped + {KeyOf(raw[i])};
      }
    }
  }

  /** Exactly the named units matched, each to itself. */
  ghost predicate OwnNamed(raw: seq<Raw>, previous: seq<Prev>, held: Assigned, used: set<EntityId>) {
    OwnNamedTo(raw, previous, held, used, 0)
  }

  /** Matched to themselves: the named units, and of the others those before `i`. */
  ghost predicate OwnNamedTo(raw: seq<Raw>, previous: seq<Prev>, held: Assigned, used: set<EntityId>, i: nat) {
    && |held| == |raw| == |previous|
    && forall k | 0 <= k < |raw| ::
         && held[k] == (if raw[k].name != "" || k < i then Some(previous[k].nid) else None)
         && (previous[k].nid in used <==> held[k].Some?)
  }

  // -------------------------------------------------------------- pass 2: by body

  function BodyKeyOf(n: Prev): BodyKey { BodyKey(n.parent, n.kind, n.body) }

  /** The free units of a parent, kind and body, in document order. */
  function WithBody(previous: seq<Prev>, used: set<EntityId>, key: BodyKey): seq<EntityId> {
    if previous == [] then []
    else (if previous[0].nid !in used && BodyKeyOf(previous[0]) == key then [previous[0].nid] else [])
         + WithBody(previous[1..], used, key)
  }

  lemma {:induction false} WithBodySnoc(previous: seq<Prev>, n: Prev, used: set<EntityId>, key: BodyKey)
    ensures WithBody(previous + [n], used, key) ==
            WithBody(previous, used, key) + if n.nid !in used && BodyKeyOf(n) == key then [n.nid] else []
  {
    if previous != [] {
      assert (previous + [n])[1..] == previous[1..] + [n];
      WithBodySnoc(previous[1..], n, used, key);
    }
  }

  function Listed(lists: map<BodyKey, seq<EntityId>>, n: Prev, used: set<EntityId>): map<BodyKey, seq<EntityId>> {
    if n.nid in used then lists else lists[BodyKeyOf(n) := Found(lists, BodyKeyOf(n)) + [n.nid]]
  }

  lemma ListStep(lists: map<BodyKey, seq<EntityId>>, previous: seq<Prev>, n: Prev, used: set<EntityId>, key: BodyKey)
    requires Found(lists, key) == WithBody(previous, used, key)
    ensures Found(Listed(lists, n, used), key) == WithBody(previous + [n], used, key)
  {
    WithBodySnoc(previous, n, used, key);
    assert Found(lists, key) + [] == Found(lists, key);
  }

  method FreeByBody(previous: seq<Prev>, used: set<EntityId>) returns (lists: map<BodyKey, seq<EntityId>>)
    ensures forall key :: Found(lists, key) == WithBody(previous, used, key)
  {
    lists := map[];
    for p := 0 to |previous|
      invariant forall key :: Found(lists, key) == WithBody(previous[..p], used, key)
    {
      forall key ensures Found(Listed(lists, previous[p], used), key) == WithBody(previous[..p + 1], used, key) {
        ListStep(lists, previous[..p], previous[p], used, key);
        assert previous[..p + 1] == previous[..p] + [previous[p]];
      }
      lists := Listed(lists, previous[p], used);
    }
    assert previous[..|previous|] == previous;
  }

  /** Every listed ID is of a previous unit of the list's kind. */
  ghost predicate ListsKin(previous: seq<Prev>, lists: map<BodyKey, seq<EntityId>>) {
    forall key, x | key in lists && 0 <= x < |lists[key]| :: OfKind(previous, key.kind, lists[key][x])
  }

  ghost predicate OfKind(previous: seq<Prev>, kind: string, id: EntityId) {
    exists p | 0 <= p < |previous| :: previous[p].nid == id && previous[p].kind == kind
  }

  lemma {:induction false} WithBodyKin(previous: seq<Prev>, used: set<EntityId>, key: BodyKey, x: nat)
    requires x < |WithBody(previous, used, key)|
    ensures OfKind(previous, key.kind, WithBody(previous, used, key)[x])
  {
    var here := if previous[0].nid !in used && BodyKeyOf(previous[0]) == key then [previous[0].nid] else [];
    if x < |here| {
      assert previous[0].nid == WithBody(previous, used, key)[x];
    } else {
      WithBodyKin(previous[1..], used, key, x - |here|);
      var rest, id := previous[1..], WithBody(previous, used, key)[x];
      var p :| 0 <= p < |rest| && rest[p].nid == id && rest[p].kind == key.kind;
      assert previous[p + 1] == rest[p];
    }
  }

  /** Every free previous unit is listed under its key. */
  ghost predicate ListsHold(previous: seq<Prev>, used: set<EntityId>, lists: map<BodyKey, seq<EntityId>>) {
    forall p | 0 <= p < |previous| && previous[p].nid !in used ::
      previous[p].nid in Found(lists, BodyKeyOf(previous[p]))
  }

  lemma UsedOrListed(previous: seq<Prev>, used: set<EntityId>, lists: map<BodyKey, seq<EntityId>>, p: nat)
    requires ListsHold(previous, used, lists) && p < |previous|
    ensures previous[p].nid in used || previous[p].nid in Found(lists, BodyKeyOf(previous[p]))
  {}

  lemma {:induction false} WithBodyHolds(previous: seq<Prev>, used: set<EntityId>, p: nat)
    requires p < |previous| && previous[p].nid !in used
    ensures previous[p].nid in WithBody(previous, used, BodyKeyOf(previous[p]))
  {
    if p > 0 {
      WithBodyHolds(previous[1..], used, p - 1);
    }
  }

  function KeyAt(raw: seq<Raw>, held: Assigned, i: nat): BodyKey
    requires i < |raw|
  {
    BodyKey(ParentId(raw, held, i), raw[i].kind, raw[i].body)
  }

  /** No previous unit of the same parent, kind and body is free. */
  ghost predicate NoBodyLeft(raw: seq<Raw>, previous: seq<Prev>, held: Assigned, used: set<EntityId>, i: nat)
    requires i < |raw|
  {
    forall p | 0 <= p < |previous| && BodyKeyOf(previous[p]) == KeyAt(raw, held, i) :: previous[p].nid in used
  }

  /** A unit before `n` is left over only when no previous one of its parent, kind and body is free. */
  ghost predicate BodiesSpent(raw: seq<Raw>, previous: seq<Prev>, held: Assigned, used: set<EntityId>, n: nat) {
    forall i: nat | i < n && i < |raw| && i < |held| && held[i].None? :: NoBodyLeft(raw, previous, held, used, i)
  }

  /** Assigning a later unit changes neither an earlier one nor the parent it goes by. */
  lemma StillSpent(raw: seq<Raw>, previous: seq<Prev>, was: Assigned, wasUsed: set<EntityId>, held: Assigned,
                   used: set<EntityId>, n: nat)
    requires ParentsFirst(raw) && |was| == |held| == |raw| && n < |raw| && wasUsed <= used
    requires BodiesSpent(raw, previous, was, wasUsed, n) && forall k | 0 <= k < |raw| && k != n :: held[k] == was[k]
    ensures BodiesSpent(raw, previous, held, used, n)
  {
    forall i: nat | i < n && held[i].None? ensures NoBodyLeft(raw, previous, held, used, i) {
      assert NoBodyLeft(raw, previous, was, wasUsed, i);
      assert ParentId(raw, held, i) == ParentId(raw, was, i);
    }
  }

  /** Dropped are `n` from the front: used ones, and then the first free one. */
  ghost predicate Popped(list: seq<EntityId>, used: set<EntityId>, rest: seq<EntityId>, id: Option<EntityId>, n: nat) {
    && n <= |list| && rest == list[n..]
    && match id
       case Some(x) => n > 0 && x == list[n - 1] && x !in used && forall k | 0 <= k < n - 1 :: list[k] in used
       case None => n == |list| && forall k | 0 <= k < n :: list[k] in used
  }

  /** Drop used IDs from the front; the first free one, if any. */
  method Pop(list: seq<EntityId>, used: set<EntityId>) returns (rest: seq<EntityId>, id: Option<EntityId>)
    ensures exists n: nat :: Popped(list, used, rest, id, n)
    ensures exists n: nat :: n <= |list| && rest == list[n..] && (id.Some? ==> n > 0 && id.value == list[n - 1])
    ensures id.Some? ==> id.value !in used
    ensures forall x | x in list && x !in rest :: x in used || id == Some(x)
    ensures id.None? ==> rest == []
    ensures list != [] && list[0] !in used ==> id == Some(list[0]) && rest == list[1..]
    ensures list == [] ==> id.None? && rest == []
  {
    rest := list;
    ghost var n: nat := 0;
    while rest != []
      invariant n <= |list| && rest == list[n..] && forall k | 0 <= k < n :: list[k] in used
      invariant forall x | x in list && x !in rest :: x in used
      invariant list != [] && list[0] !in used ==> n == 0
    {
      var first := rest[0];
      rest, n := rest[1..], n + 1;
      if first !in used {
        assert Popped(list, used, rest, Some(first), n);
        return rest, Some(first);
      }
    }
    id := None;
    assert Popped(list, used, rest, id, n);
  }

  /** Of a file against itself: what the lists still hold once the units before `i` are matched. */
  ghost predicate ListsFrom(previous: seq<Prev>, named: set<EntityId>, lists: map<BodyKey, seq<EntityId>>, i: nat)
    requires i <= |previous|
  {
    forall key :: Found(lists, key) == WithBody(previous[i..], named, key)
  }

  lemma {:induction false} PopKin(previous: seq<Prev>, lists: map<BodyKey, seq<EntityId>>, key: BodyKey,
                                  rest: seq<EntityId>, id: Option<EntityId>)
    requires ListsKin(previous, lists) && key in lists
    requires exists n: nat :: n <= |lists[key]| && rest == lists[key][n..]
                              && (id.Some? ==> n > 0 && id.value == lists[key][n - 1])
    ensures ListsKin(previous, lists[key := rest]) && (id.Some? ==> OfKind(previous, key.kind, id.value))
  {
    var n: nat :| n <= |lists[key]| && rest == lists[key][n..] && (id.Some? ==> n > 0 && id.value == lists[key][n - 1]);
    forall x | 0 <= x < |rest| ensures OfKind(previous, key.kind, rest[x]) {
      assert rest[x] == lists[key][n + x];
    }
  }

  /** What was dropped from the front is used, but for the one taken. */
  lemma PopHolds(previous: seq<Prev>, used: set<EntityId>, lists: map<BodyKey, seq<EntityId>>, key: BodyKey,
                 rest: seq<EntityId>, id: Option<EntityId>)
    requires ListsHold(previous, used, lists) && key in lists
    requires forall x | x in lists[key] && x !in rest :: x in used || id == Some(x)
    ensures ListsHold(previous, used + (if id.Some? then {id.value} else {}), lists[key := rest])
    ensures id.None? && rest == [] ==>
      forall p | 0 <= p < |previous| && BodyKeyOf(previous[p]) == key :: previous[p].nid in used
  {
    forall p | 0 <= p < |previous| && previous[p].nid !in used
      ensures previous[p].nid in Found(lists[key := rest], BodyKeyOf(previous[p])) || id == Some(previous[p].nid)
    {
      assert previous[p].nid in Found(lists, BodyKeyOf(previous[p]));
    }
    if id.None? && rest == [] {
      forall p | 0 <= p < |previous| && BodyKeyOf(previous[p]) == key ensures previous[p].nid in used {
        UsedOrListed(previous, used, lists, p);
      }
    }
  }

  /** The next nameless unit of a file against itself is first in its list. */
  lemma {:induction false} OwnBody(raw: seq<Raw>, previous: seq<Prev>, i: nat, was: Assigned, wasUsed: set<EntityId>,
                                   lists: map<BodyKey, seq<EntityId>>, named: set<EntityId>, key: BodyKey)
    requires i < |raw| && Mirrors(raw, previous) && raw[i].name == "" && OwnNamedTo(raw, previous, was, wasUsed, i)
    requires ListsFrom(previous, named, lists, i) && previous[i].nid !in named
    requires key == KeyAt(raw, was, i)
    ensures key == BodyKeyOf(previous[i]) && key in lists && lists[key] != [] && lists[key][0] == previous[i].nid
    ensures previous[i].nid !in wasUsed
  {
    assert MirrorsAt(raw, previous, i);
    assert previous[i..][0] == previous[i];
    assert Found(lists, key) == WithBody(previous[i..], named, key);
  }

  lemma {:induction false} OwnBodyRest(raw: seq<Raw>, previous: seq<Prev>, i: nat, was: map<BodyKey, seq<EntityId>>,
                                       lists: map<BodyKey, seq<EntityId>>, named: set<EntityId>, key: BodyKey)
    requires i < |previous| && ListsFrom(previous, named, was, i)
    requires previous[i].nid !in named && key == BodyKeyOf(previous[i])
    requires key in was && was[key] != [] && lists == was[key := was[key][1..]]
    ensures ListsFrom(previous, named, lists, i + 1)
  {
    forall k ensures Found(lists, k) == WithBody(previous[i + 1..], named, k) {
      assert Found(was, k) == WithBody(previous[i..], named, k);
      assert previous[i..][1..] == previous[i + 1..] && previous[i..][0] == previous[i];
    }
  }

  lemma {:induction false} OwnBodyHeld(raw: seq<Raw>, previous: seq<Prev>, i: nat, was: Assigned, used: set<EntityId>)
    requires i < |raw| && Mirrors(raw, previous) && OwnNamedTo(raw, previous, was, used, i)
    ensures OwnNamedTo(raw, previous, was[i := Some(previous[i].nid)], used + {previous[i].nid}, i + 1)
  {}

  /** What a turn does to the unit's list, when its first ID is free. */
  ghost predicate TookFirst(raw: seq<Raw>, i: nat, was: Assigned, wasUsed: set<EntityId>,
                            wasLists: map<BodyKey, seq<EntityId>>, held: Assigned, used: set<EntityId>,
                            lists: map<BodyKey, seq<EntityId>>)
    requires i < |raw| && i < |held|
  {
    var list := Found(wasLists, KeyAt(raw, was, i));
    list != [] && list[0] !in wasUsed ==>
      && held[i] == Some(list[0]) && used == wasUsed + {list[0]}
      && lists == wasLists[KeyAt(raw, was, i) := list[1..]]
  }

  /** A turn pops the unit's list for the ID it gets, and touches no other list. */
  ghost predicate TookNext(raw: seq<Raw>, i: nat, was: Assigned, wasUsed: set<EntityId>,
                           wasLists: map<BodyKey, seq<EntityId>>, held: Assigned, used: set<EntityId>,
                           lists: map<BodyKey, seq<EntityId>>)
    requires i < |raw| && i < |held|
  {
    var key := KeyAt(raw, was, i);
    && (forall k | k != key :: Found(lists, k) == Found(wasLists, k))
    && (exists n: nat :: Popped(Found(wasLists, key), wasUsed, Found(lists, key), held[i], n))
    && used == wasUsed + if held[i].Some? then {held[i].value} else {}
  }

  /** A turn changes nothing for a unit already matched, and only that unit otherwise. */
  ghost predicate Turned(raw: seq<Raw>, i: nat, was: Assigned, wasUsed: set<EntityId>,
                         wasLists: map<BodyKey, seq<EntityId>>, held: Assigned, used: set<EntityId>,
                         lists: map<BodyKey, seq<EntityId>>) {
    && i < |raw| == |was| == |held|
    && if was[i].Some? then held == was && used == wasUsed && lists == wasLists
       else
         && held == was[i := held[i]] && TookFirst(raw, i, was, wasUsed, wasLists, held, used, lists)
         && TookNext(raw, i, was, wasUsed, wasLists, held, used, lists)
  }

  method TakeBody(raw: seq<Raw>, previous: seq<Prev>, i: nat, was: Assigned, wasUsed: set<EntityId>,
                  wasLists: map<BodyKey, seq<EntityId>>)
    returns (held: Assigned, used: set<EntityId>, lists: map<BodyKey, seq<EntityId>>)
    requires Sound(raw, previous, was, wasUsed)
    requires ListsKin(previous, wasLists) && ListsHold(previous, wasUsed, wasLists)
    requires i < |raw| && was[i].None? && ParentsFirst(raw)
    ensures Sound(raw, previous, held, used) && ListsKin(previous, lists) && ListsHold(previous, used, lists)
    ensures held[i].None? ==> NoBodyLeft(raw, previous, held, used, i)
    ensures wasUsed <= used && held == was[i := held[i]]
    ensures Turned(raw, i, was, wasUsed, wasLists, held, used, lists)
  {
    held, used, lists := was, wasUsed, wasLists;
    var key := KeyAt(raw, was, i);
    if key in lists {
      var rest, id := Pop(lists[key], used);
      ghost var n: nat :| Popped(lists[key], used, rest, id, n);
      PopKin(previous, wasLists, key, rest, id);
      PopHolds(previous, wasUsed, wasLists, key, rest, id);
      lists := lists[key := rest];
      if id.Some? {
        AssignSound(raw, previous, held, used, i, id.value);
        held, used := held[i := id], used + {id.value};
      }
      assert Popped(Found(wasLists, key), wasUsed, Found(lists, key), held[i], n);
    } else {
      NothingListed(previous, wasUsed, wasLists, key);
      assert Popped(Found(wasLists, key), wasUsed, Found(lists, key), held[i], 0);
    }
  }

  lemma NothingListed(previous: seq<Prev>, used: set<EntityId>, lists: map<BodyKey, seq<EntityId>>, key: BodyKey)
    requires ListsHold(previous, used, lists) && Found(lists, key) == []
    ensures forall p | 0 <= p < |previous| && BodyKeyOf(previous[p]) == key :: previous[p].nid in used
  {
    forall p | 0 <= p < |previous| && BodyKeyOf(previous[p]) == key ensures previous[p].nid in used {
      UsedOrListed(previous, used, lists, p);
    }
  }

  /** Of a file against itself, before unit `i` has its turn. */
  ghost predicate OwnSoFar(raw: seq<Raw>, previous: seq<Prev>, named: set<EntityId>, held: Assigned,
                           used: set<EntityId>, lists: map<BodyKey, seq<EntityId>>, i: nat) {
    && Mirrors(raw, previous) && i <= |previous|
    && OwnNamedTo(raw, previous, held, used, i) && ListsFrom(previous, named, lists, i)
    && forall k | 0 <= k < |raw| :: previous[k].nid in named <==> raw[k].name != ""
  }

  lemma {:induction false} OwnTaken(raw: seq<Raw>, previous: seq<Prev>, named: set<EntityId>, i: nat,
                                    was: Assigned, wasUsed: set<EntityId>, wasLists: map<BodyKey, seq<EntityId>>,
                                    held: Assigned, used: set<EntityId>, lists: map<BodyKey, seq<EntityId>>)
    requires i < |raw| && raw[i].name == "" && OwnSoFar(raw, previous, named, was, wasUsed, wasLists, i)
    requires |held| == |was| == |raw| && held == was[i := held[i]]
    requires TookFirst(raw, i, was, wasUsed, wasLists, held, used, lists)
    ensures OwnSoFar(raw, previous, named, held, used, lists, i + 1)
  {
    OwnBody(raw, previous, i, was, wasUsed, wasLists, named, KeyAt(raw, was, i));
    OwnBodyRest(raw, previous, i, wasLists, lists, named, KeyAt(raw, was, i));
    OwnBodyHeld(raw, previous, i, was, wasUsed);
  }

  /** A named unit of a file against itself is matched already, and its ID is in no list. */
  lemma {:induction false} OwnPassed(raw: seq<Raw>, previous: seq<Prev>, named: set<EntityId>, i: nat, held: Assigned,
                                     used: set<EntityId>, lists: map<BodyKey, seq<EntityId>>)
    requires i < |raw| && raw[i].name != "" && OwnSoFar(raw, previous, named, held, used, lists, i)
    ensures OwnSoFar(raw, previous, named, held, used, lists, i + 1)
  {
    forall key ensures Found(lists, key) == WithBody(previous[i + 1..], named, key) {
      assert Found(lists, key) == WithBody(previous[i..], named, key);
      assert previous[i..][1..] == previous[i + 1..] && previous[i..][0] == previous[i];
    }
  }

  method FreeLists(previous: seq<Prev>, used: set<EntityId>) returns (lists: map<BodyKey, seq<EntityId>>)
    ensures ListsKin(previous, lists) && ListsFrom(previous, used, lists, 0) && ListsHold(previous, used, lists)
  {
    lists := FreeByBody(previous, used);
    FreshLists(previous, used, lists);
  }

  lemma {:induction false} OwnTurn(raw: seq<Raw>, previous: seq<Prev>, named: set<EntityId>, i: nat,
                                   was: Assigned, wasUsed: set<EntityId>, wasLists: map<BodyKey, seq<EntityId>>,
                                   held: Assigned, used: set<EntityId>, lists: map<BodyKey, seq<EntityId>>)
    requires OwnSoFar(raw, previous, named, was, wasUsed, wasLists, i)
    requires Turned(raw, i, was, wasUsed, wasLists, held, used, lists)
    ensures OwnSoFar(raw, previous, named, held, used, lists, i + 1)
  {
    OwnFree(raw, previous, named, i, was, wasUsed, wasLists);
    if raw[i].name == "" {
      OwnTaken(raw, previous, named, i, was, wasUsed, wasLists, held, used, lists);
    } else {
      OwnPassed(raw, previous, named, i, was, wasUsed, wasLists);
    }
  }

  lemma OwnFree(raw: seq<Raw>, previous: seq<Prev>, named: set<EntityId>, i: nat, held: Assigned, used: set<EntityId>,
                lists: map<BodyKey, seq<EntityId>>)
    requires i < |raw| && OwnSoFar(raw, previous, named, held, used, lists, i)
    ensures |held| == |raw| && (held[i].None? <==> raw[i].name == "")
  {}

  // Of any file: the first free unit of equal body, in document order.

  /** A former unit of the unit's parent, kind and body whose ID neither the first pass nor an earlier unit has. */
  ghost predicate FreeTwin(raw: seq<Raw>, previous: seq<Prev>, named: set<EntityId>, held: Assigned, i: nat, p: nat)
    requires i < |raw| == |held|
  {
    && p < |previous| && previous[p].parent == ParentId(raw, held, i) && previous[p].kind == raw[i].kind
    && previous[p].body == raw[i].body && previous[p].nid !in named && !HeldUpTo(held, i, previous[p].nid)
  }

  ghost predicate HeldUpTo(held: Assigned, i: nat, id: EntityId) {
    exists j | 0 <= j < i && j < |held| :: held[j] == Some(id)
  }

  /** The unit has the ID of the first such former unit, and none only where there is none. */
  ghost predicate TwinTaken(raw: seq<Raw>, previous: seq<Prev>, named: set<EntityId>, held: Assigned, i: nat)
    requires i < |raw| == |held|
  {
    match held[i]
    case Some(id) =>
      exists p: nat :: FreeTwin(raw, previous, named, held, i, p) && previous[p].nid == id
                  && forall r: nat | r < p :: !FreeTwin(raw, previous, named, held, i, r)
    case None => forall p: nat :: !FreeTwin(raw, previous, named, held, i, p)
  }

  ghost predicate TwinsTaken(raw: seq<Raw>, previous: seq<Prev>, was: Assigned, named: set<EntityId>, held: Assigned,
                             n: nat) {
    && |held| == |raw| == |was|
    && forall i: nat | i < n && i < |raw| && was[i].None? :: TwinTaken(raw, previous, named, held, i)
  }

  /** What is gone from a list is used. */
  ghost predicate Drained(previous: seq<Prev>, named: set<EntityId>, used: set<EntityId>,
                          lists: map<BodyKey, seq<EntityId>>) {
    forall key :: DrainedAt(WithBody(previous, named, key), used, Found(lists, key))
  }

  ghost predicate DrainedAt(whole: seq<EntityId>, used: set<EntityId>, rest: seq<EntityId>) {
    exists n: nat :: n <= |whole| && rest == whole[n..] && forall k | 0 <= k < n :: whole[k] in used
  }

  lemma Suffix(whole: seq<EntityId>, a: nat, b: nat)
    requires a + b <= |whole|
    ensures whole[a..][b..] == whole[a + b..]
  {}

  lemma PoppedFrom(whole: seq<EntityId>, a: nat, used: set<EntityId>, rest: seq<EntityId>, id: Option<EntityId>, b: nat)
    requires a <= |whole| && (forall k | 0 <= k < a :: whole[k] in used) && Popped(whole[a..], used, rest, id, b)
    ensures Popped(whole, used, rest, id, a + b)
  {
    Suffix(whole, a, b);
    forall k | a <= k < a + b ensures whole[k] == whole[a..][k - a] {
    }
  }

  lemma PoppedDrains(whole: seq<EntityId>, used: set<EntityId>, rest: seq<EntityId>, id: Option<EntityId>, n: nat)
    requires Popped(whole, used, rest, id, n)
    ensures DrainedAt(whole, used + (if id.Some? then {id.value} else {}), rest)
  {
    var after := used + (if id.Some? then {id.value} else {});
    assert n <= |whole| && rest == whole[n..] && forall k | 0 <= k < n :: whole[k] in after;
  }

  /** Popping a drained list gives the first free of the whole one. */
  lemma PopDrained(whole: seq<EntityId>, used: set<EntityId>, list: seq<EntityId>, rest: seq<EntityId>,
                   id: Option<EntityId>)
    requires DrainedAt(whole, used, list) && exists n: nat :: Popped(list, used, rest, id, n)
    ensures DrainedAt(whole, used + (if id.Some? then {id.value} else {}), rest)
    ensures exists n: nat :: Popped(whole, used, rest, id, n)
  {
    var a: nat :| a <= |whole| && list == whole[a..] && forall k | 0 <= k < a :: whole[k] in used;
    var b: nat :| Popped(list, used, rest, id, b);
    PoppedFrom(whole, a, used, rest, id, b);
    PoppedDrains(whole, used, rest, id, a + b);
  }

  /** The first free ID listed is of the first former unit of that key that is free. */
  lemma {:induction false} FirstListed(previous: seq<Prev>, named: set<EntityId>, used: set<EntityId>, key: BodyKey,
                                       x: nat) returns (p: nat)
    requires x < |WithBody(previous, named, key)| && WithBody(previous, named, key)[x] !in used
    requires forall k | 0 <= k < x :: WithBody(previous, named, key)[k] in used
    ensures p < |previous| && BodyKeyOf(previous[p]) == key && previous[p].nid == WithBody(previous, named, key)[x]
    ensures previous[p].nid !in named
    ensures forall r | 0 <= r < p && BodyKeyOf(previous[r]) == key && previous[r].nid !in named ::
              previous[r].nid in used
  {
    var here := if previous[0].nid !in named && BodyKeyOf(previous[0]) == key then [previous[0].nid] else [];
    var rest := WithBody(previous[1..], named, key);
    if x < |here| {
      p := 0;
    } else {
      forall k | 0 <= k < x - |here| ensures rest[k] in used {
        assert rest[k] == WithBody(previous, named, key)[k + |here|];
      }
      var q := FirstListed(previous[1..], named, used, key, x - |here|);
      p := q + 1;
      assert here != [] ==> WithBody(previous, named, key)[0] == previous[0].nid;
    }
  }

  lemma {:induction false} AllListedUsed(previous: seq<Prev>, named: set<EntityId>, used: set<EntityId>, key: BodyKey,
                                         p: nat)
    requires forall k | 0 <= k < |WithBody(previous, named, key)| :: WithBody(previous, named, key)[k] in used
    requires p < |previous| && BodyKeyOf(previous[p]) == key && previous[p].nid !in named
    ensures previous[p].nid in used
  {
    WithBodyHolds(previous, named, p);
  }

  /** Before unit `i` has its turn: earlier ones have theirs, later ones are as they were, and used is what is held. */
  ghost predicate TwinLoop(raw: seq<Raw>, previous: seq<Prev>, was: Assigned, named: set<EntityId>, held: Assigned,
                           used: set<EntityId>, lists: map<BodyKey, seq<EntityId>>, i: nat) {
    && TwinsTaken(raw, previous, was, named, held, i) && Drained(previous, named, used, lists)
    && (forall k: nat | i <= k < |raw| :: held[k] == was[k])
    && (forall k | 0 <= k < |raw| && was[k].Some? :: was[k].value in named)
    && forall id :: id in used <==> id in named || HeldUpTo(held, i, id)
  }

  /** A unit's turn changes neither its parent nor what the ones before it hold, nor those of any before it. */
  lemma TurnSame(raw: seq<Raw>, held: Assigned, before: Assigned, i: nat, j: nat)
    requires ParentsFirst(raw) && j <= i < |raw| == |before| == |held| && held == before[i := held[i]]
    ensures ParentId(raw, held, j) == ParentId(raw, before, j)
    ensures forall id: EntityId :: HeldUpTo(held, j, id) <==> HeldUpTo(before, j, id)
  {
    forall id: EntityId ensures HeldUpTo(held, j, id) <==> HeldUpTo(before, j, id) {
      assert forall k | 0 <= k < j :: held[k] == before[k];
    }
  }

  lemma TwinsKept(raw: seq<Raw>, previous: seq<Prev>, was: Assigned, named: set<EntityId>, before: Assigned,
                  held: Assigned, i: nat)
    requires ParentsFirst(raw) && i < |raw| == |held| && TwinsTaken(raw, previous, was, named, before, i)
    requires held == before[i := held[i]]
    ensures TwinsTaken(raw, previous, was, named, held, i)
  {
    forall j: nat | j < i && was[j].None? ensures TwinTaken(raw, previous, named, held, j) {
      assert TwinTaken(raw, previous, named, before, j);
      TurnSame(raw, held, before, i, j);
      assert forall p: nat ::
        FreeTwin(raw, previous, named, held, j, p) <==> FreeTwin(raw, previous, named, before, j, p);
    }
  }

  /** The unit's turn gives it the first free unit of equal body. */
  lemma {:induction false} TwinNow(raw: seq<Raw>, previous: seq<Prev>, named: set<EntityId>, held: Assigned,
                                   used: set<EntityId>, i: nat, key: BodyKey, rest: seq<EntityId>, n: nat)
    requires i < |raw| == |held| && key == BodyKey(ParentId(raw, held, i), raw[i].kind, raw[i].body)
    requires forall id :: id in used <==> id in named || HeldUpTo(held, i, id)
    requires Popped(WithBody(previous, named, key), used, rest, held[i], n)
    ensures TwinTaken(raw, previous, named, held, i)
  {
    forall p: nat ensures FreeTwin(raw, previous, named, held, i, p) <==>
                          p < |previous| && BodyKeyOf(previous[p]) == key && previous[p].nid !in used
    {
    }
    if held[i].Some? {
      var p := FirstListed(previous, named, used, key, n - 1);
      assert FreeTwin(raw, previous, named, held, i, p);
    } else {
      forall p: nat | p < |previous| && BodyKeyOf(previous[p]) == key && previous[p].nid !in named
        ensures previous[p].nid in used
      {
        AllListedUsed(previous, named, used, key, p);
      }
    }
  }

  lemma DrainedOn(previous: seq<Prev>, named: set<EntityId>, used: set<EntityId>, lists: map<BodyKey, seq<EntityId>>,
                  key: BodyKey, id: Option<EntityId>, after: map<BodyKey, seq<EntityId>>)
    requires Drained(previous, named, used, lists) && forall k | k != key :: Found(after, k) == Found(lists, k)
    requires exists n: nat :: Popped(Found(lists, key), used, Found(after, key), id, n)
    ensures Drained(previous, named, used + (if id.Some? then {id.value} else {}), after)
    ensures exists n: nat :: Popped(WithBody(previous, named, key), used, Found(after, key), id, n)
  {
    var now := used + (if id.Some? then {id.value} else {});
    assert DrainedAt(WithBody(previous, named, key), used, Found(lists, key));
    PopDrained(WithBody(previous, named, key), used, Found(lists, key), Found(after, key), id);
    forall k ensures DrainedAt(WithBody(previous, named, k), now, Found(after, k)) {
      if k != key {
        assert DrainedAt(WithBody(previous, named, k), used, Found(lists, k));
        var n: nat :| n <= |WithBody(previous, named, k)| && Found(lists, k) == WithBody(previous, named, k)[n..]
                      && forall x | 0 <= x < n :: WithBody(previous, named, k)[x] in used;
        assert forall x | 0 <= x < n :: WithBody(previous, named, k)[x] in now;
      }
    }
  }

  lemma HeldOneMore(held: Assigned, before: Assigned, i: nat)
    requires i < |before| == |held| && held == before[i := held[i]]
    ensures forall id: EntityId :: HeldUpTo(held, i + 1, id) <==> HeldUpTo(before, i, id) || held[i] == Some(id)
  {
    forall id: EntityId ensures HeldUpTo(held, i + 1, id) <==> HeldUpTo(before, i, id) || held[i] == Some(id) {
      if j :| 0 <= j < i && j < |before| && before[j] == Some(id) {
        assert held[j] == Some(id);
      }
    }
  }

  lemma {:induction false} TwinGiven(raw: seq<Raw>, previous: seq<Prev>, named: set<EntityId>, i: nat,
                                     before: Assigned, wasUsed: set<EntityId>, wasLists: map<BodyKey, seq<EntityId>>,
                                     held: Assigned, used: set<EntityId>, lists: map<BodyKey, seq<EntityId>>)
    requires ParentsFirst(raw) && i < |raw| == |before| == |held| && held == before[i := held[i]]
    requires Drained(previous, named, wasUsed, wasLists)
    requires forall id :: id in wasUsed <==> id in named || HeldUpTo(before, i, id)
    requires TookNext(raw, i, before, wasUsed, wasLists, held, used, lists)
    ensures TwinTaken(raw, previous, named, held, i) && Drained(previous, named, used, lists)
  {
    var key := KeyAt(raw, before, i);
    DrainedOn(previous, named, wasUsed, wasLists, key, held[i], lists);
    var n: nat :| Popped(WithBody(previous, named, key), wasUsed, Found(lists, key), held[i], n);
    TurnSame(raw, held, before, i, i);
    TwinNow(raw, previous, named, held, wasUsed, i, key, Found(lists, key), n);
  }

  lemma {:induction false} TwinTurn(raw: seq<Raw>, previous: seq<Prev>, was: Assigned, named: set<EntityId>, i: nat,
                                    before: Assigned, wasUsed: set<EntityId>, wasLists: map<BodyKey, seq<EntityId>>,
                                    held: Assigned, used: set<EntityId>, lists: map<BodyKey, seq<EntityId>>)
    requires ParentsFirst(raw) && TwinLoop(raw, previous, was, named, before, wasUsed, wasLists, i)
    requires Turned(raw, i, before, wasUsed, wasLists, held, used, lists)
    ensures TwinLoop(raw, previous, was, named, held, used, lists, i + 1)
  {
    HeldOneMore(held, before, i);
    TwinsKept(raw, previous, was, named, before, held, i);
    if before[i].None? {
      TwinGiven(raw, previous, named, i, before, wasUsed, wasLists, held, used, lists);
    }
  }

  ghost predicate BodyLoop(raw: seq<Raw>, previous: seq<Prev>, held: Assigned, used: set<EntityId>,
                           lists: map<BodyKey, seq<EntityId>>, i: nat) {
    && Sound(raw, previous, held, used) && ListsKin(previous, lists) && ListsHold(previous, used, lists)
    && BodiesSpent(raw, previous, held, used, i)
  }

  /** One unit's turn in the second pass. */
  method BodyTurn(raw: seq<Raw>, previous: seq<Prev>, i: nat, was: Assigned, wasUsed: set<EntityId>,
                  wasLists: map<BodyKey, seq<EntityId>>)
    returns (held: Assigned, used: set<EntityId>, lists: map<BodyKey, seq<EntityId>>)
    requires i < |raw| && ParentsFirst(raw) && BodyLoop(raw, previous, was, wasUsed, wasLists, i)
    ensures BodyLoop(raw, previous, held, used, lists, i + 1) && Keeps(was, held)
    ensures Turned(raw, i, was, wasUsed, wasLists, held, used, lists)
  {
    held, used, lists := was, wasUsed, wasLists;
    if was[i].None? {
      held, used, lists := TakeBody(raw, previous, i, was, wasUsed, wasLists);
      StillSpent(raw, previous, was, wasUsed, held, used, i);
    }
  }

  /** The second pass before unit `i` has its turn; `own` for a file against itself. */
  ghost predicate Passing(raw: seq<Raw>, previous: seq<Prev>, was: Assigned, named: set<EntityId>, own: bool,
                          held: Assigned, used: set<EntityId>, lists: map<BodyKey, seq<EntityId>>, i: nat) {
    && BodyLoop(raw, previous, held, used, lists, i) && Keeps(was, held)
    && TwinLoop(raw, previous, was, named, held, used, lists, i)
    && (own ==> OwnSoFar(raw, previous, named, held, used, lists, i))
  }

  method NextTurn(raw: seq<Raw>, previous: seq<Prev>, ghost was: Assigned, ghost named: set<EntityId>, ghost own: bool,
                  i: nat, held: Assigned, used: set<EntityId>, lists: map<BodyKey, seq<EntityId>>)
    returns (held': Assigned, used': set<EntityId>, lists': map<BodyKey, seq<EntityId>>)
    requires i < |raw| && ParentsFirst(raw) && Passing(raw, previous, was, named, own, held, used, lists, i)
    ensures Passing(raw, previous, was, named, own, held', used', lists', i + 1)
  {
    held', used', lists' := BodyTurn(raw, previous, i, held, used, lists);
    KeepsOn(was, held, held');
    TwinTurn(raw, previous, was, named, i, held, used, lists, held', used', lists');
    if own {
      OwnTurn(raw, previous, named, i, held, used, lists, held', used', lists');
    }
  }

  /** Pass 2: a free previous unit of equal body below the same parent. */
  method ByBodies(raw: seq<Raw>, previous: seq<Prev>, was: Assigned, wasUsed: set<EntityId>)
    returns (held: Assigned, used: set<EntityId>)
    requires Sound(raw, previous, was, wasUsed) && ParentsFirst(raw)
    ensures Sound(raw, previous, held, used) && Keeps(was, held)
    ensures BodiesSpent(raw, previous, held, used, |raw|)
    ensures TwinsTaken(raw, previous, was, wasUsed, held, |raw|)
    ensures Mirrors(raw, previous) && OwnNamed(raw, previous, was, wasUsed) ==>
        OwnNamedTo(raw, previous, held, used, |raw|)
  {
    var lists := FreeLists(previous, wasUsed);
    held, used := was, wasUsed;
    TwinStart(raw, previous, was, wasUsed, lists);
    ghost var own := Mirrors(raw, previous) && OwnNamed(raw, previous, was, wasUsed);
    if own {
      OwnStart(raw, previous, was, wasUsed, lists);
    }
    for i := 0 to |raw|
      invariant Passing(raw, previous, was, wasUsed, own, held, used, lists, i)
    {
      held, used, lists := NextTurn(raw, previous, was, wasUsed, own, i, held, used, lists);
    }
  }

  lemma TwinStart(raw: seq<Raw>, previous: seq<Prev>, was: Assigned, used: set<EntityId>,
                  lists: map<BodyKey, seq<EntityId>>)
    requires Sound(raw, previous, was, used) && ListsFrom(previous, used, lists, 0)
    ensures TwinLoop(raw, previous, was, used, was, used, lists, 0)
  {
    assert previous[0..] == previous;
    forall key ensures DrainedAt(WithBody(previous, used, key), used, Found(lists, key)) {
      assert Found(lists, key) == WithBody(previous, used, key)[0..];
    }
  }

  lemma OwnStart(raw: seq<Raw>, previous: seq<Prev>, held: Assigned, used: set<EntityId>,
                 lists: map<BodyKey, seq<EntityId>>)
    requires Mirrors(raw, previous) && OwnNamed(raw, previous, held, used) && ListsFrom(previous, used, lists, 0)
    ensures OwnSoFar(raw, previous, used, held, used, lists, 0)
  {}

  lemma KeepsOn(a: Assigned, b: Assigned, c: Assigned)
    requires Keeps(a, b) && Keeps(b, c)
    ensures Keeps(a, c)
  {}

  lemma {:induction false} FreshLists(previous: seq<Prev>, used: set<EntityId>, lists: map<BodyKey, seq<EntityId>>)
    requires forall key :: Found(lists, key) == WithBody(previous, used, key)
    ensures ListsKin(previous, lists) && ListsFrom(previous, used, lists, 0) && ListsHold(previous, used, lists)
  {
    forall p | 0 <= p < |previous| && previous[p].nid !in used
      ensures previous[p].nid in Found(lists, BodyKeyOf(previous[p]))
    {
      WithBodyHolds(previous, used, p);
    }
    forall key, x | key in lists && 0 <= x < |lists[key]| ensures OfKind(previous, key.kind, lists[key][x]) {
      assert Found(lists, key) == WithBody(previous, used, key);
      WithBodyKin(previous, used, key, x);
    }
    assert previous[0..] == previous;
  }

  // ---------------------------------------------------- pass 2b: nameless units

  /** The previous position of a unit's ID; the last, should two share it. */
  function Anchor(previous: seq<Prev>, id: Option<EntityId>): Option<nat> {
    if id.None? then None else LastAt(previous, id.value)
  }

  function LastAt(previous: seq<Prev>, id: EntityId): (r: Option<nat>)
    ensures r.Some? ==> r.value < |previous| && previous[r.value].nid == id
  {
    if previous == [] then None
    else if previous[|previous| - 1].nid == id then Some(|previous| - 1)
    else LastAt(previous[..|previous| - 1], id)
  }

  /** The anchors of the nearest matched units before each unit, and past it. */
  method Neighbours(previous: seq<Prev>, held: Assigned) returns (before: seq<Option<nat>>, after: seq<Option<nat>>)
    ensures |before| == |after| == |held|
    ensures forall i | 0 <= i < |held| ::
        before[i] == NearestBefore(previous, held, i) && after[i] == NearestAfter(previous, held, i)
  {
    before := Befores(previous, held);
    after := Afters(previous, held);
  }

  method Befores(previous: seq<Prev>, held: Assigned) returns (before: seq<Option<nat>>)
    ensures |before| == |held| && forall i | 0 <= i < |held| :: before[i] == NearestBefore(previous, held, i)
  {
    before := [];
    var last: Option<nat> := None;
    for i := 0 to |held|
      invariant |before| == i && last == NearestBefore(previous, held, i)
      invariant forall k | 0 <= k < i :: before[k] == NearestBefore(previous, held, k)
    {
      before := before + [last];
      last := if Anchor(previous, held[i]).Some? then Anchor(previous, held[i]) else last;
    }
  }

  method Afters(previous: seq<Prev>, held: Assigned) returns (after: seq<Option<nat>>)
    ensures |after| == |held| && forall i | 0 <= i < |held| :: after[i] == NearestAfter(previous, held, i)
  {
    after := seq(|held|, _ => None);
    var next: Option<nat> := None;
    for i := |held| downto 0
      invariant |after| == |held| && (i > 0 ==> next == NearestAfter(previous, held, i - 1))
      invariant forall k | i <= k < |held| :: after[k] == NearestAfter(previous, held, k)
    {
      after := after[i := next];
      next := if Anchor(previous, held[i]).Some? then Anchor(previous, held[i]) else next;
    }
  }

  function NearestBefore(previous: seq<Prev>, held: Assigned, i: nat): Option<nat>
    requires i <= |held|
  {
    if i == 0 then None
    else if Anchor(previous, held[i - 1]).Some? then Anchor(previous, held[i - 1])
    else NearestBefore(previous, held, i - 1)
  }

  function NearestAfter(previous: seq<Prev>, held: Assigned, i: nat): Option<nat>
    requires i < |held|
    decreases |held| - i
  {
    if i + 1 == |held| then None
    else if Anchor(previous, held[i + 1]).Some? then Anchor(previous, held[i + 1])
    else NearestAfter(previous, held, i + 1)
  }

  predicate Nameless(n: Prev, r: Raw, parent: Option<EntityId>, used: set<EntityId>) {
    n.name == "" && n.kind == r.kind && n.parent == parent && n.nid !in used
  }

  /** The first free nameless unit in a stretch of the previous version. */
  method FindNameless(previous: seq<Prev>, lo: nat, hi: nat, r: Raw, parent: Option<EntityId>, used: set<EntityId>)
    returns (p: Option<nat>)
    ensures p.Some? ==> lo <= p.value < hi && p.value < |previous| && Nameless(previous[p.value], r, parent, used)
    ensures p.Some? ==> forall k | lo <= k < p.value :: !Nameless(previous[k], r, parent, used)
    ensures p.None? ==> forall k | lo <= k < hi && k < |previous| :: !Nameless(previous[k], r, parent, used)
  {
    var k := lo;
    while k < hi && k < |previous|
      invariant lo <= k && forall j | lo <= j < k && j < |previous| :: !Nameless(previous[j], r, parent, used)
    {
      if Nameless(previous[k], r, parent, used) {
        return Some(k);
      }
      k := k + 1;
    }
    p := None;
  }

  /** Just past the last unit placed. */
  function Cursor(placed: seq<Option<nat>>): nat {
    if placed == [] then 0
    else
      var last := placed[|placed| - 1];
      if last.Some? then last.value + 1 else Cursor(placed[..|placed| - 1])
  }

  /** The IDs used once the placed units have theirs. */
  function UsedWith(previous: seq<Prev>, used: set<EntityId>, placed: seq<Option<nat>>): set<EntityId> {
    if placed == [] then used
    else
      var last, before := placed[|placed| - 1], UsedWith(previous, used, placed[..|placed| - 1]);
      if last.Some? && last.value < |previous| then before + {previous[last.value].nid} else before
  }

  function LowAt(previous: seq<Prev>, was: Assigned, placed: seq<Option<nat>>, i: nat): nat
    requires i <= |was|
  {
    var before := NearestBefore(previous, was, i);
    var past := if before.Some? then before.value + 1 else 0;
    if past > Cursor(placed) then past else Cursor(placed)
  }

  function HighAt(previous: seq<Prev>, was: Assigned, i: nat): nat
    requires i < |was|
  {
    NearestAfter(previous, was, i).GetOr(|previous|)
  }

  /**
   A nameless unit left over takes the first free nameless unit of its kind and
   parent between the matched units around it and past the last one placed, and
   stays without only when there is none.
   */
  ghost predicate PlaceDecided(raw: seq<Raw>, previous: seq<Prev>, was: Assigned, wasUsed: set<EntityId>,
                               held: Assigned, placed: seq<Option<nat>>, i: nat)
    requires i < |placed| <= |raw| == |was| == |held|
  {
    if was[i].Some? || raw[i].name != "" then placed[i].None? && held[i] == was[i]
    else
      var parent, used := ParentId(raw, held, i), UsedWith(previous, wasUsed, placed[..i]);
      var lo, hi := LowAt(previous, was, placed[..i], i), HighAt(previous, was, i);
      match placed[i]
      case Some(p) =>
        && lo <= p < hi && p < |previous| && held[i] == Some(previous[p].nid)
        && Nameless(previous[p], raw[i], parent, used)
        && forall k | lo <= k < p :: !Nameless(previous[k], raw[i], parent, used)
      case None =>
        held[i].None? && forall k | lo <= k < hi && k < |previous| :: !Nameless(previous[k], raw[i], parent, used)
  }

  ghost predicate PlacesDecided(raw: seq<Raw>, previous: seq<Prev>, was: Assigned, wasUsed: set<EntityId>,
                                held: Assigned, placed: seq<Option<nat>>) {
    && |placed| <= |raw| == |was| == |held|
    && forall i: nat | i < |placed| :: PlaceDecided(raw, previous, was, wasUsed, held, placed, i)
  }

  lemma {:induction false} PlaceStep(raw: seq<Raw>, previous: seq<Prev>, was: Assigned, wasUsed: set<EntityId>,
                                     held: Assigned, placed: seq<Option<nat>>, h: Option<EntityId>, p: Option<nat>)
    requires ParentsFirst(raw) && |placed| < |raw| && PlacesDecided(raw, previous, was, wasUsed, held, placed)
    requires PlaceDecided(raw, previous, was, wasUsed, held[|placed| := h], placed + [p], |placed|)
    ensures PlacesDecided(raw, previous, was, wasUsed, held[|placed| := h], placed + [p])
  {
    var next, more := held[|placed| := h], placed + [p];
    forall i: nat | i < |placed| ensures PlaceDecided(raw, previous, was, wasUsed, next, more, i) {
      assert PlaceDecided(raw, previous, was, wasUsed, held, placed, i);
      assert more[..i] == placed[..i];
      assert ParentId(raw, next, i) == ParentId(raw, held, i);
    }
  }

  // The same said of the neighbours themselves.

  /** The last former unit with that ID. */
  predicate AnchorIs(previous: seq<Prev>, id: Option<EntityId>, p: nat) {
    && id.Some? && p < |previous| && previous[p].nid == id.value
    && forall k | p < k < |previous| :: previous[k].nid != id.value
  }

  /** The nearest matched unit before `i` was at `a`. */
  predicate NearestBelow(previous: seq<Prev>, held: Assigned, i: nat, a: nat) {
    i <= |held| && exists j | 0 <= j < i :: AnchorIs(previous, held[j], a) && NoAnchors(previous, held, j + 1, i)
  }

  predicate NearestAbove(previous: seq<Prev>, held: Assigned, i: nat, b: nat) {
    exists j | i < j < |held| :: AnchorIs(previous, held[j], b) && NoAnchors(previous, held, i + 1, j)
  }

  predicate NoAnchors(previous: seq<Prev>, held: Assigned, lo: nat, hi: nat) {
    hi <= |held| && forall m | lo <= m < hi && held[m].Some? :: NotFormer(previous, held[m].value)
  }

  predicate NotFormer(previous: seq<Prev>, id: EntityId) {
    forall k | 0 <= k < |previous| :: previous[k].nid != id
  }

  predicate LastPlaced(placed: seq<Option<nat>>, i: nat, c: nat) {
    i <= |placed| && exists j | 0 <= j < i :: placed[j] == Some(c) && forall m | j < m < i :: placed[m].None?
  }

  predicate PlacedUpTo(previous: seq<Prev>, placed: seq<Option<nat>>, i: nat, id: EntityId) {
    i <= |placed| && exists j | 0 <= j < i :: placed[j].Some? && placed[j].value < |previous|
                                              && previous[placed[j].value].nid == id
  }

  /**
   A nameless former unit of the unit's kind and parent, free when the unit has its
   turn, between its nearest matched neighbours and past the last one placed.
   */
  ghost predicate Vacant(raw: seq<Raw>, previous: seq<Prev>, was: Assigned, wasUsed: set<EntityId>,
                         held: Assigned, placed: seq<Option<nat>>, i: nat, k: nat)
    requires i < |placed| <= |raw| == |was| == |held|
  {
    && k < |previous| && previous[k].name == "" && previous[k].kind == raw[i].kind
    && previous[k].parent == ParentId(raw, held, i)
    && previous[k].nid !in wasUsed && !PlacedUpTo(previous, placed, i, previous[k].nid)
    && (forall a: nat | NearestBelow(previous, was, i, a) :: a < k)
    && (forall b: nat | NearestAbove(previous, was, i, b) :: k < b)
    && (forall c: nat | LastPlaced(placed, i, c) :: c < k)
  }

  /** A nameless unit left over has the first vacant former unit, and none only where none is vacant. */
  ghost predicate PlaceRuled(raw: seq<Raw>, previous: seq<Prev>, was: Assigned, wasUsed: set<EntityId>,
                             held: Assigned, placed: seq<Option<nat>>, i: nat)
    requires i < |placed| <= |raw| == |was| == |held|
  {
    if was[i].Some? || raw[i].name != "" then placed[i].None? && held[i] == was[i]
    else
      match placed[i]
      case Some(p) =>
        && Vacant(raw, previous, was, wasUsed, held, placed, i, p) && held[i] == Some(previous[p].nid)
        && forall k: nat | k < p :: !Vacant(raw, previous, was, wasUsed, held, placed, i, k)
      case None => held[i].None? && forall k: nat :: !Vacant(raw, previous, was, wasUsed, held, placed, i, k)
  }

  ghost predicate PlacesRuled(raw: seq<Raw>, previous: seq<Prev>, was: Assigned, wasUsed: set<EntityId>,
                              held: Assigned, placed: seq<Option<nat>>) {
    && |placed| == |raw| == |was| == |held|
    && forall i: nat | i < |placed| :: PlaceRuled(raw, previous, was, wasUsed, held, placed, i)
  }

  lemma {:induction false} AnchorExactly(previous: seq<Prev>, id: EntityId)
    ensures forall p: nat :: LastAt(previous, id) == Some(p) <==> AnchorIs(previous, Some(id), p)
    ensures LastAt(previous, id).None? <==> NotFormer(previous, id)
  {
    if previous != [] && previous[|previous| - 1].nid != id {
      AnchorExactly(previous[..|previous| - 1], id);
    }
  }

  lemma AnchorsExactly(previous: seq<Prev>, id: Option<EntityId>)
    ensures forall p: nat :: Anchor(previous, id) == Some(p) <==> AnchorIs(previous, id, p)
    ensures Anchor(previous, id).None? <==> id.None? || NotFormer(previous, id.value)
  {
    if id.Some? {
      AnchorExactly(previous, id.value);
    }
  }

  lemma {:induction false} BelowExactly(previous: seq<Prev>, held: Assigned, i: nat)
    requires i <= |held|
    ensures forall a: nat :: NearestBefore(previous, held, i) == Some(a) <==> NearestBelow(previous, held, i, a)
    ensures NearestBefore(previous, held, i).None? <==> NoAnchors(previous, held, 0, i)
  {
    if i > 0 {
      BelowExactly(previous, held, i - 1);
      AnchorsExactly(previous, held[i - 1]);
      forall a: nat ensures NearestBelow(previous, held, i, a) <==>
                            AnchorIs(previous, held[i - 1], a)
                            || (Anchor(previous, held[i - 1]).None? && NearestBelow(previous, held, i - 1, a))
      {
        BelowOneMore(previous, held, i, a);
      }
    }
  }

  lemma BelowOneMore(previous: seq<Prev>, held: Assigned, i: nat, a: nat)
    requires 0 < i <= |held|
    ensures NearestBelow(previous, held, i, a) <==>
            AnchorIs(previous, held[i - 1], a)
            || (Anchor(previous, held[i - 1]).None? && NearestBelow(previous, held, i - 1, a))
  {
    AnchorsExactly(previous, held[i - 1]);
    if AnchorIs(previous, held[i - 1], a) {
      assert NoAnchors(previous, held, i, i);
    }
    if j :| 0 <= j < i && AnchorIs(previous, held[j], a) && NoAnchors(previous, held, j + 1, i) {
      assert j < i - 1 ==> NoAnchors(previous, held, j + 1, i - 1);
    }
    if Anchor(previous, held[i - 1]).None? && NearestBelow(previous, held, i - 1, a) {
      var j :| 0 <= j < i - 1 && AnchorIs(previous, held[j], a) && NoAnchors(previous, held, j + 1, i - 1);
      assert NoAnchors(previous, held, j + 1, i);
    }
  }

  lemma {:induction false} AboveExactly(previous: seq<Prev>, held: Assigned, i: nat)
    requires i < |held|
    ensures forall b: nat :: NearestAfter(previous, held, i) == Some(b) <==> NearestAbove(previous, held, i, b)
    decreases |held| - i
  {
    if i + 1 < |held| {
      AboveExactly(previous, held, i + 1);
      AnchorsExactly(previous, held[i + 1]);
      forall b: nat ensures NearestAbove(previous, held, i, b) <==>
                            AnchorIs(previous, held[i + 1], b)
                            || (Anchor(previous, held[i + 1]).None? && NearestAbove(previous, held, i + 1, b))
      {
        AboveOneMore(previous, held, i, b);
      }
    }
  }

  lemma AboveOneMore(previous: seq<Prev>, held: Assigned, i: nat, b: nat)
    requires i + 1 < |held|
    ensures NearestAbove(previous, held, i, b) <==>
            AnchorIs(previous, held[i + 1], b)
            || (Anchor(previous, held[i + 1]).None? && NearestAbove(previous, held, i + 1, b))
  {
    AnchorsExactly(previous, held[i + 1]);
    if AnchorIs(previous, held[i + 1], b) {
      assert NoAnchors(previous, held, i + 1, i + 1);
    }
    if j :| i < j < |held| && AnchorIs(previous, held[j], b) && NoAnchors(previous, held, i + 1, j) {
      assert j > i + 1 ==> NoAnchors(previous, held, i + 2, j);
    }
    if Anchor(previous, held[i + 1]).None? && NearestAbove(previous, held, i + 1, b) {
      var j :| i + 1 < j < |held| && AnchorIs(previous, held[j], b) && NoAnchors(previous, held, i + 2, j);
      assert NoAnchors(previous, held, i + 1, j);
    }
  }

  lemma {:induction false} CursorExactly(placed: seq<Option<nat>>, i: nat)
    requires i <= |placed|
    ensures forall c: nat :: LastPlaced(placed, i, c) ==> Cursor(placed[..i]) == c + 1
    ensures Cursor(placed[..i]) > 0 ==> LastPlaced(placed, i, Cursor(placed[..i]) - 1)
  {
    if i > 0 {
      CursorExactly(placed, i - 1);
      assert placed[..i][..i - 1] == placed[..i - 1];
      forall c: nat ensures LastPlaced(placed, i, c) <==>
                            placed[i - 1] == Some(c) || (placed[i - 1].None? && LastPlaced(placed, i - 1, c))
      {
        if placed[i - 1].None? && LastPlaced(placed, i - 1, c) {
          var j :| 0 <= j < i - 1 && placed[j] == Some(c) && forall m | j < m < i - 1 :: placed[m].None?;
          assert forall m | j < m < i :: placed[m].None?;
        }
      }
    }
  }

  lemma {:induction false} UsedWithExactly(previous: seq<Prev>, used: set<EntityId>, placed: seq<Option<nat>>, i: nat)
    requires i <= |placed|
    ensures forall id: EntityId :: id in UsedWith(previous, used, placed[..i]) <==>
                                   id in used || PlacedUpTo(previous, placed, i, id)
  {
    if i > 0 {
      UsedWithExactly(previous, used, placed, i - 1);
      assert placed[..i][..i - 1] == placed[..i - 1];
      forall id: EntityId ensures PlacedUpTo(previous, placed, i, id) <==>
                                  PlacedUpTo(previous, placed, i - 1, id)
                                  || (placed[i - 1].Some? && placed[i - 1].value < |previous|
                                      && previous[placed[i - 1].value].nid == id)
      {
        if PlacedUpTo(previous, placed, i - 1, id) {
          var j :| 0 <= j < i - 1 && placed[j].Some? && placed[j].value < |previous|
                   && previous[placed[j].value].nid == id;
        }
      }
    }
  }

  lemma {:induction false} VacantExactly(raw: seq<Raw>, previous: seq<Prev>, was: Assigned, wasUsed: set<EntityId>,
                                         held: Assigned, placed: seq<Option<nat>>, i: nat, k: nat)
    requires i < |placed| <= |raw| == |was| == |held|
    ensures Vacant(raw, previous, was, wasUsed, held, placed, i, k) <==>
            && LowAt(previous, was, placed[..i], i) <= k < HighAt(previous, was, i) && k < |previous|
            && Nameless(previous[k], raw[i], ParentId(raw, held, i), UsedWith(previous, wasUsed, placed[..i]))
  {
    BelowExactly(previous, was, i);
    AboveExactly(previous, was, i);
    CursorExactly(placed, i);
    UsedWithExactly(previous, wasUsed, placed, i);
    var before, after, cursor := NearestBefore(previous, was, i), NearestAfter(previous, was, i), Cursor(placed[..i]);
    assert before.Some? ==> NearestBelow(previous, was, i, before.value);
    assert after.Some? ==> NearestAbove(previous, was, i, after.value);
    assert cursor > 0 ==> LastPlaced(placed, i, cursor - 1);
  }

  lemma {:induction false} PlacesFollow(raw: seq<Raw>, previous: seq<Prev>, was: Assigned, wasUsed: set<EntityId>,
                                        held: Assigned, placed: seq<Option<nat>>)
    requires |placed| == |raw| && PlacesDecided(raw, previous, was, wasUsed, held, placed)
    ensures PlacesRuled(raw, previous, was, wasUsed, held, placed)
  {
    forall i: nat | i < |placed| ensures PlaceRuled(raw, previous, was, wasUsed, held, placed, i) {
      assert PlaceDecided(raw, previous, was, wasUsed, held, placed, i);
      forall k: nat ensures Vacant(raw, previous, was, wasUsed, held, placed, i, k) <==>
                            && LowAt(previous, was, placed[..i], i) <= k < HighAt(previous, was, i) && k < |previous|
                            && Nameless(previous[k], raw[i], ParentId(raw, held, i),
                                        UsedWith(previous, wasUsed, placed[..i]))
      {
        VacantExactly(raw, previous, was, wasUsed, held, placed, i, k);
      }
    }
  }

  /** One nameless unit left over. */
  method PlaceOne(raw: seq<Raw>, previous: seq<Prev>, lo: nat, hi: nat, i: nat, was: Assigned, wasUsed: set<EntityId>)
    returns (held: Assigned, used: set<EntityId>, p: Option<nat>)
    requires Sound(raw, previous, was, wasUsed) && i < |raw| && was[i].None? && ParentsFirst(raw)
    ensures Sound(raw, previous, held, used) && held == was[i := held[i]]
    ensures var parent := ParentId(raw, held, i);
      match p
      case Some(q) =>
        && lo <= q < hi && q < |previous| && held[i] == Some(previous[q].nid) && used == wasUsed + {previous[q].nid}
        && Nameless(previous[q], raw[i], parent, wasUsed)
        && forall k | lo <= k < q :: !Nameless(previous[k], raw[i], parent, wasUsed)
      case None =>
        && held == was && used == wasUsed
        && forall k | lo <= k < hi && k < |previous| :: !Nameless(previous[k], raw[i], parent, wasUsed)
  {
    held, used := was, wasUsed;
    p := FindNameless(previous, lo, hi, raw[i], ParentId(raw, was, i), used);
    if p.Some? {
      assert Kin(raw[i], previous, previous[p.value].nid);
      AssignSound(raw, previous, was, used, i, previous[p.value].nid);
      held, used := was[i := Some(previous[p.value].nid)], used + {previous[p.value].nid};
    }
  }

  /** Pass 2b: the nameless units left over, in order, each within the window its neighbours leave. */
  method ByPlace(raw: seq<Raw>, previous: seq<Prev>, was: Assigned, wasUsed: set<EntityId>)
    returns (held: Assigned, used: set<EntityId>, ghost placed: seq<Option<nat>>)
    requires Sound(raw, previous, was, wasUsed) && ParentsFirst(raw)
    ensures Sound(raw, previous, held, used) && Keeps(was, held)
    ensures PlacesRuled(raw, previous, was, wasUsed, held, placed)
  {
    var before, after := Neighbours(previous, was);
    held, used, placed := was, wasUsed, [];
    var cursor: nat := 0;
    for i := 0 to |raw|
      invariant Sound(raw, previous, held, used) && Keeps(was, held) && forall k | i <= k < |raw| :: held[k] == was[k]
      invariant |placed| == i && cursor == Cursor(placed) && used == UsedWith(previous, wasUsed, placed)
      invariant PlacesDecided(raw, previous, was, wasUsed, held, placed)
    {
      ghost var held', placed' := held, placed;
      var p: Option<nat> := None;
      assert (placed + [p])[..i] == placed;
      if held[i].None? && raw[i].name == "" {
        var past := if before[i].Some? then before[i].value + 1 else 0;
        var lo := if past > cursor then past else cursor;
        held, used, p := PlaceOne(raw, previous, lo, after[i].GetOr(|previous|), i, held, used);
        if p.Some? {
          cursor := p.value + 1;
        }
      }
      placed := placed + [p];
      assert placed[..i] == placed' && held == held'[i := held[i]];
      PlaceStep(raw, previous, was, wasUsed, held', placed', held[i], p);
    }
    PlacesFollow(raw, previous, was, wasUsed, held, placed);
  }

  // ------------------------------------------------------- pass 2c: by likeness

  const SIMILARITY := 0.6

  /** Shingles of the previous units that were found again. */
  type Shingles = map<EntityId, seq<nat>>

  ghost predicate AllRise(raw: seq<Raw>, shingles: Shingles) {
    (forall i | 0 <= i < |raw| :: Rises(raw[i].shingles)) && forall id | id in shingles :: Rises(shingles[id])
  }

  predicate Alike(n: Prev, r: Raw, parent: Option<EntityId>, used: set<EntityId>, shingles: Shingles) {
    n.name != "" && n.kind == r.kind && n.parent == parent && n.nid !in used && n.nid in shingles
  }

  function Score(n: Prev, r: Raw, shingles: Shingles): real {
    if n.nid in shingles then Overlap(Elements(shingles[n.nid]), Elements(r.shingles)) else 0.0
  }

  /** `p` is the last of the candidates that resemble the unit most. */
  ghost predicate MostAlike(previous: seq<Prev>, n: nat, r: Raw, parent: Option<EntityId>, used: set<EntityId>,
                            shingles: Shingles, p: nat) {
    && p < n <= |previous| && Alike(previous[p], r, parent, used, shingles)
    && forall k | 0 <= k < n && Alike(previous[k], r, parent, used, shingles) ::
         if k <= p then Score(previous[k], r, shingles) <= Score(previous[p], r, shingles)
         else Score(previous[k], r, shingles) < Score(previous[p], r, shingles)
  }

  /** Nothing alike so far, or the last of the most alike. */
  ghost predicate BestOf(previous: seq<Prev>, n: nat, r: Raw, parent: Option<EntityId>, used: set<EntityId>,
                         shingles: Shingles, best: Option<nat>, score: real)
    requires n <= |previous|
  {
    match best
    case Some(p) => MostAlike(previous, n, r, parent, used, shingles, p) && score == Score(previous[p], r, shingles)
    case None => forall k | 0 <= k < n :: !Alike(previous[k], r, parent, used, shingles)
  }

  function Better(best: Option<nat>, score: real, k: nat, s: real): (Option<nat>, real) {
    if best.None? || s >= score then (Some(k), s) else (best, score)
  }

  lemma BestStep(previous: seq<Prev>, k: nat, r: Raw, parent: Option<EntityId>, used: set<EntityId>, shingles: Shingles,
                 best: Option<nat>, score: real)
    requires k < |previous| && BestOf(previous, k, r, parent, used, shingles, best, score)
    ensures var s := Score(previous[k], r, shingles);
            var alike := Alike(previous[k], r, parent, used, shingles);
            var next := if alike then Better(best, score, k, s) else (best, score);
            BestOf(previous, k + 1, r, parent, used, shingles, next.0, next.1)
  {}

  method FindMostAlike(previous: seq<Prev>, r: Raw, parent: Option<EntityId>, used: set<EntityId>, shingles: Shingles)
    returns (best: Option<nat>, score: real)
    requires Rises(r.shingles) && forall id | id in shingles :: Rises(shingles[id])
    ensures BestOf(previous, |previous|, r, parent, used, shingles, best, score)
  {
    best, score := None, 0.0;
    for k := 0 to |previous|
      invariant BestOf(previous, k, r, parent, used, shingles, best, score)
    {
      BestStep(previous, k, r, parent, used, shingles, best, score);
      if Alike(previous[k], r, parent, used, shingles) {
        var s := Jaccard(shingles[previous[k].nid], r.shingles);
        var next := Better(best, score, k, s);
        best, score := next.0, next.1;
      }
    }
  }

  /**
   A named unit left over takes the candidate it resembles most, if that is enough,
   and stays without only when it resembles none enough.
   */
  ghost predicate LikeDecided(raw: seq<Raw>, previous: seq<Prev>, shingles: Shingles, was: Assigned,
                              wasUsed: set<EntityId>, held: Assigned, placed: seq<Option<nat>>, i: nat)
    requires i < |placed| <= |raw| == |was| == |held|
  {
    if was[i].Some? || raw[i].name == "" then placed[i].None? && held[i] == was[i]
    else
      var parent, used := ParentId(raw, held, i), UsedWith(previous, wasUsed, placed[..i]);
      match placed[i]
      case Some(p) =>
        && MostAlike(previous, |previous|, raw[i], parent, used, shingles, p)
        && held[i] == Some(previous[p].nid) && Score(previous[p], raw[i], shingles) >= SIMILARITY
      case None =>
        && held[i].None?
        && forall k | 0 <= k < |previous| && Alike(previous[k], raw[i], parent, used, shingles) ::
             Score(previous[k], raw[i], shingles) < SIMILARITY
  }

  ghost predicate LikesDecided(raw: seq<Raw>, previous: seq<Prev>, shingles: Shingles, was: Assigned,
                               wasUsed: set<EntityId>, held: Assigned, placed: seq<Option<nat>>) {
    && |placed| <= |raw| == |was| == |held|
    && forall i: nat | i < |placed| :: LikeDecided(raw, previous, shingles, was, wasUsed, held, placed, i)
  }

  lemma {:induction false} LikeStep(raw: seq<Raw>, previous: seq<Prev>, shingles: Shingles, was: Assigned,
                                    wasUsed: set<EntityId>, held: Assigned, placed: seq<Option<nat>>,
                                    h: Option<EntityId>, p: Option<nat>)
    requires ParentsFirst(raw) && |placed| < |raw| && LikesDecided(raw, previous, shingles, was, wasUsed, held, placed)
    requires LikeDecided(raw, previous, shingles, was, wasUsed, held[|placed| := h], placed + [p], |placed|)
    ensures LikesDecided(raw, previous, shingles, was, wasUsed, held[|placed| := h], placed + [p])
  {
    var next, more := held[|placed| := h], placed + [p];
    forall i: nat | i < |placed| ensures LikeDecided(raw, previous, shingles, was, wasUsed, next, more, i) {
      assert LikeDecided(raw, previous, shingles, was, wasUsed, held, placed, i);
      assert more[..i] == placed[..i];
      assert ParentId(raw, next, i) == ParentId(raw, held, i);
    }
  }

  /** A named former unit of the unit's kind and parent that was found again, free when the unit has its turn. */
  ghost predicate Resembles(raw: seq<Raw>, previous: seq<Prev>, shingles: Shingles, wasUsed: set<EntityId>,
                            held: Assigned, placed: seq<Option<nat>>, i: nat, k: nat)
    requires i < |placed| <= |raw| == |held|
  {
    && k < |previous| && previous[k].name != "" && previous[k].kind == raw[i].kind
    && previous[k].parent == ParentId(raw, held, i)
    && previous[k].nid !in wasUsed && !PlacedUpTo(previous, placed, i, previous[k].nid) && previous[k].nid in shingles
  }

  ghost function Resemblance(raw: seq<Raw>, previous: seq<Prev>, shingles: Shingles, i: nat, k: nat): real
    requires i < |raw| && k < |previous| && previous[k].nid in shingles
  {
    ShareOf(shingles[previous[k].nid], raw[i].shingles)
  }

  /** A named unit left over has the last of those it resembles most, from 0.6 up, and none only below that. */
  ghost predicate LikeRuled(raw: seq<Raw>, previous: seq<Prev>, shingles: Shingles, was: Assigned,
                            wasUsed: set<EntityId>, held: Assigned, placed: seq<Option<nat>>, i: nat)
    requires i < |placed| <= |raw| == |was| == |held|
  {
    if was[i].Some? || raw[i].name == "" then placed[i].None? && held[i] == was[i]
    else
      match placed[i]
      case Some(p) =>
        && Resembles(raw, previous, shingles, wasUsed, held, placed, i, p) && held[i] == Some(previous[p].nid)
        && Resemblance(raw, previous, shingles, i, p) >= 0.6
        && (forall k: nat | Resembles(raw, previous, shingles, wasUsed, held, placed, i, k) ::
              && Resemblance(raw, previous, shingles, i, k) <= Resemblance(raw, previous, shingles, i, p)
              && (k > p ==> Resemblance(raw, previous, shingles, i, k) < Resemblance(raw, previous, shingles, i, p)))
      case None =>
        && held[i].None?
        && forall k: nat | Resembles(raw, previous, shingles, wasUsed, held, placed, i, k) ::
             Resemblance(raw, previous, shingles, i, k) < 0.6
  }

  ghost predicate LikesRuled(raw: seq<Raw>, previous: seq<Prev>, shingles: Shingles, was: Assigned,
                             wasUsed: set<EntityId>, held: Assigned, placed: seq<Option<nat>>) {
    && |placed| == |raw| == |was| == |held|
    && forall i: nat | i < |placed| :: LikeRuled(raw, previous, shingles, was, wasUsed, held, placed, i)
  }

  lemma ResemblanceIsScore(raw: seq<Raw>, previous: seq<Prev>, shingles: Shingles, i: nat, k: nat)
    requires i < |raw| && k < |previous| && previous[k].nid in shingles
    ensures Resemblance(raw, previous, shingles, i, k) == Score(previous[k], raw[i], shingles)
  {
    ShareExactly(shingles[previous[k].nid], raw[i].shingles);
  }

  /** The units that may be taken, and how much each resembles. */
  lemma AlikeExactly(raw: seq<Raw>, previous: seq<Prev>, shingles: Shingles, wasUsed: set<EntityId>, held: Assigned,
                     placed: seq<Option<nat>>, i: nat, k: nat)
    requires i < |placed| <= |raw| == |held|
    ensures Resembles(raw, previous, shingles, wasUsed, held, placed, i, k) <==>
            k < |previous|
            && Alike(previous[k], raw[i], ParentId(raw, held, i), UsedWith(previous, wasUsed, placed[..i]), shingles)
    ensures Resembles(raw, previous, shingles, wasUsed, held, placed, i, k) ==>
              Resemblance(raw, previous, shingles, i, k) == Score(previous[k], raw[i], shingles)
  {
    UsedWithExactly(previous, wasUsed, placed, i);
    if k < |previous| && previous[k].nid in shingles {
      ResemblanceIsScore(raw, previous, shingles, i, k);
    }
  }

  lemma {:induction false} LikesFollow(raw: seq<Raw>, previous: seq<Prev>, shingles: Shingles, was: Assigned,
                                       wasUsed: set<EntityId>, held: Assigned, placed: seq<Option<nat>>)
    requires |placed| == |raw| && LikesDecided(raw, previous, shingles, was, wasUsed, held, placed)
    ensures LikesRuled(raw, previous, shingles, was, wasUsed, held, placed)
  {
    forall i: nat | i < |placed| ensures LikeRuled(raw, previous, shingles, was, wasUsed, held, placed, i) {
      LikeFollows(raw, previous, shingles, was, wasUsed, held, placed, i);
    }
  }

  lemma {:induction false} LikeFollows(raw: seq<Raw>, previous: seq<Prev>, shingles: Shingles, was: Assigned,
                                       wasUsed: set<EntityId>, held: Assigned, placed: seq<Option<nat>>, i: nat)
    requires i < |placed| == |raw| && LikesDecided(raw, previous, shingles, was, wasUsed, held, placed)
    ensures LikeRuled(raw, previous, shingles, was, wasUsed, held, placed, i)
  {
    assert LikeDecided(raw, previous, shingles, was, wasUsed, held, placed, i);
    forall k: nat
      ensures Resembles(raw, previous, shingles, wasUsed, held, placed, i, k) <==>
              k < |previous|
              && Alike(previous[k], raw[i], ParentId(raw, held, i), UsedWith(previous, wasUsed, placed[..i]), shingles)
      ensures Resembles(raw, previous, shingles, wasUsed, held, placed, i, k) ==>
                Resemblance(raw, previous, shingles, i, k) == Score(previous[k], raw[i], shingles)
    {
      AlikeExactly(raw, previous, shingles, wasUsed, held, placed, i, k);
    }
  }

  /** One named unit left over. */
  method LikeOne(raw: seq<Raw>, previous: seq<Prev>, shingles: Shingles, i: nat, was: Assigned, wasUsed: set<EntityId>)
    returns (held: Assigned, used: set<EntityId>, p: Option<nat>)
    requires Sound(raw, previous, was, wasUsed) && i < |raw| && was[i].None? && ParentsFirst(raw)
    requires AllRise(raw, shingles)
    ensures Sound(raw, previous, held, used) && held == was[i := held[i]]
    ensures var parent := ParentId(raw, held, i);
      match p
      case Some(q) =>
        && MostAlike(previous, |previous|, raw[i], parent, wasUsed, shingles, q)
        && held[i] == Some(previous[q].nid) && used == wasUsed + {previous[q].nid}
        && Score(previous[q], raw[i], shingles) >= SIMILARITY
      case None =>
        && held == was && used == wasUsed
        && forall k | 0 <= k < |previous| && Alike(previous[k], raw[i], parent, wasUsed, shingles) ::
             Score(previous[k], raw[i], shingles) < SIMILARITY
  {
    held, used, p := was, wasUsed, None;
    if raw[i].shingles != [] {
      var best, score := FindMostAlike(previous, raw[i], ParentId(raw, was, i), used, shingles);
      if best.Some? && score >= SIMILARITY {
        p := best;
        assert Kin(raw[i], previous, previous[p.value].nid);
        AssignSound(raw, previous, was, used, i, previous[p.value].nid);
        held, used := was[i := Some(previous[p.value].nid)], used + {previous[p.value].nid};
      }
    }
  }

  /** Pass 2c: named units take what they resemble most of the free units of their kind and parent. */
  method ByLikeness(raw: seq<Raw>, previous: seq<Prev>, shingles: Shingles, was: Assigned, wasUsed: set<EntityId>)
    returns (held: Assigned, used: set<EntityId>, ghost placed: seq<Option<nat>>)
    requires Sound(raw, previous, was, wasUsed) && ParentsFirst(raw) && AllRise(raw, shingles)
    ensures Sound(raw, previous, held, used) && Keeps(was, held)
    ensures |placed| == |raw| && LikesDecided(raw, previous, shingles, was, wasUsed, held, placed)
    ensures LikesRuled(raw, previous, shingles, was, wasUsed, held, placed)
    ensures used == UsedWith(previous, wasUsed, placed)
  {
    held, used, placed := was, wasUsed, [];
    for i := 0 to |raw|
      invariant Sound(raw, previous, held, used) && Keeps(was, held) && forall k | i <= k < |raw| :: held[k] == was[k]
      invariant |placed| == i && used == UsedWith(previous, wasUsed, placed)
      invariant LikesDecided(raw, previous, shingles, was, wasUsed, held, placed)
    {
      ghost var held', placed' := held, placed;
      var p: Option<nat> := None;
      if held[i].None? && raw[i].name != "" {
        held, used, p := LikeOne(raw, previous, shingles, i, held, used);
      }
      placed := placed + [p];
      assert placed[..i] == placed' && held == held'[i := held[i]];
      LikeStep(raw, previous, shingles, was, wasUsed, held', placed', held[i], p);
    }
    LikesFollow(raw, previous, shingles, was, wasUsed, held, placed);
  }

  lemma {:induction false} UsedGrows(previous: seq<Prev>, used: set<EntityId>, placed: seq<Option<nat>>, i: nat)
    requires i <= |placed|
    ensures UsedWith(previous, used, placed[..i]) <= UsedWith(previous, used, placed)
  {
    if i < |placed| {
      var init := placed[..|placed| - 1];
      UsedGrows(previous, used, init, i);
      assert init[..i] == placed[..i];
    } else {
      assert placed[..i] == placed;
    }
  }

  // ----------------------------------------------------------------- pass 3: new

  /** A supply of IDs that are new and never repeat. */
  ghost predicate FreshSupply(supply: nat -> EntityId, previous: seq<Prev>) {
    && (forall i: nat, j: nat :: supply(i) == supply(j) ==> i == j)
    && forall i: nat, p | 0 <= p < |previous| :: previous[p].nid != supply(i)
  }

  /** A unit is new to the file only if it resembles no free unit of its kind and parent enough. */
  ghost predicate NewIsUnlike(raw: seq<Raw>, previous: seq<Prev>, shingles: Shingles, held: Assigned)
    requires |held| == |raw|
  {
    forall i, p | 0 <= i < |raw| && held[i].None? && raw[i].name != "" && 0 <= p < |previous|
                  && Alike(previous[p], raw[i], ParentId(raw, held, i), IdsOf(held), shingles) ::
      Score(previous[p], raw[i], shingles) < SIMILARITY
  }

  lemma {:induction false} LikesGiveNew(raw: seq<Raw>, previous: seq<Prev>, shingles: Shingles, was: Assigned,
                                        wasUsed: set<EntityId>, held: Assigned, placed: seq<Option<nat>>)
    requires |placed| == |raw| && LikesDecided(raw, previous, shingles, was, wasUsed, held, placed)
    requires IdsOf(held) == UsedWith(previous, wasUsed, placed)
    ensures NewIsUnlike(raw, previous, shingles, held)
  {
    forall i, p | 0 <= i < |raw| && held[i].None? && raw[i].name != "" && 0 <= p < |previous|
                  && Alike(previous[p], raw[i], ParentId(raw, held, i), IdsOf(held), shingles)
      ensures Score(previous[p], raw[i], shingles) < SIMILARITY
    {
      assert LikeDecided(raw, previous, shingles, was, wasUsed, held, placed, i);
      UsedGrows(previous, wasUsed, placed, i);
    }
  }

  /** By name, then by body, then by place, then by likeness, each pass on what the ones before it left. */
  ghost predicate Passes(raw: seq<Raw>, previous: seq<Prev>, shingles: Shingles, named: Assigned, twins: Assigned,
                         placed: Assigned, at: seq<Option<nat>>, held: Assigned, alike: seq<Option<nat>>) {
    && NamesDecided(raw, previous, named, |raw|)
    && Keeps(named, twins) && TwinsTaken(raw, previous, named, IdsOf(named), twins, |raw|)
    && Keeps(twins, placed) && PlacesRuled(raw, previous, twins, IdsOf(twins), placed, at)
    && Keeps(placed, held) && LikesRuled(raw, previous, shingles, placed, IdsOf(placed), held, alike)
  }

  /**
   The units of the file as they go into the index: IDs pairwise distinct, taken
   from a previous unit only of the same kind, otherwise fresh; parents by ID; and a
   file matched against itself comes out as it was.
   */
  method AssignIds(raw: seq<Raw>, previous: seq<Prev>, shingles: Shingles, supply: nat -> EntityId)
    returns (nodes: seq<Prev>, ghost held: Assigned)
    requires FreshSupply(supply, previous) && ParentsFirst(raw) && AllRise(raw, shingles)
    ensures |nodes| == |held| == |raw|
    ensures forall i, j | 0 <= i < j < |nodes| :: nodes[i].nid != nodes[j].nid
    ensures forall i: nat | i < |nodes| :: nodes[i].nid == if held[i].Some? then held[i].value else supply(i)
    ensures forall i | 0 <= i < |nodes| && held[i].Some? :: Kin(raw[i], previous, held[i].value)
    ensures exists named, twins, placed, at, alike ::
              Passes(raw, previous, shingles, named, twins, placed, at, held, alike)
    ensures NewIsUnlike(raw, previous, shingles, held)
    ensures forall i | 0 <= i < |nodes| ::
      && nodes[i].kind == raw[i].kind && nodes[i].name == raw[i].name && nodes[i].body == raw[i].body
      && nodes[i].parent == if raw[i].parent.Some? then Some(nodes[raw[i].parent.value].nid) else None
    ensures Mirrors(raw, previous) ==> nodes == previous
  {
    var got, used := ByName(raw, previous);
    ghost var named := got;
    got, used := ByBodies(raw, previous, got, used);
    ghost var matched := got;
    ghost var at, alike;
    got, used, at := ByPlace(raw, previous, got, used);
    ghost var was, wasUsed := got, used;
    got, used, alike := ByLikeness(raw, previous, shingles, got, used);
    LikesGiveNew(raw, previous, shingles, was, wasUsed, got, alike);
    held := got;
    assert Passes(raw, previous, shingles, named, matched, was, at, held, alike);
    var ids := Filled(raw, previous, got, used, supply);
    nodes := Nodes(raw, ids);
    if Mirrors(raw, previous) {
      forall i | 0 <= i < |ids| ensures nodes[i].nid == previous[i].nid {
        assert matched[i] == Some(previous[i].nid) && held[i] == matched[i];
      }
      SameNodes(raw, previous, nodes);
    }
  }

  lemma SameNodes(raw: seq<Raw>, previous: seq<Prev>, nodes: seq<Prev>)
    requires Mirrors(raw, previous) && ParentsFirst(raw) && |nodes| == |raw|
    requires forall i | 0 <= i < |nodes| :: nodes[i].nid == previous[i].nid
    requires forall i | 0 <= i < |nodes| ::
      && nodes[i].kind == raw[i].kind && nodes[i].name == raw[i].name && nodes[i].body == raw[i].body
      && nodes[i].parent == if raw[i].parent.Some? then Some(nodes[raw[i].parent.value].nid) else None
    ensures nodes == previous
  {
    forall i | 0 <= i < |nodes| ensures nodes[i] == previous[i] {
      assert MirrorsAt(raw, previous, i);
    }
  }

  method Nodes(raw: seq<Raw>, ids: seq<EntityId>) returns (nodes: seq<Prev>)
    requires ParentsFirst(raw) && |ids| == |raw|
    ensures |nodes| == |raw|
    ensures forall i | 0 <= i < |nodes| :: nodes[i].nid == ids[i]
    ensures forall i | 0 <= i < |nodes| ::
      && nodes[i].kind == raw[i].kind && nodes[i].name == raw[i].name && nodes[i].body == raw[i].body
      && nodes[i].parent == if raw[i].parent.Some? then Some(ids[raw[i].parent.value]) else None
  {
    nodes := [];
    for i := 0 to |raw|
      invariant |nodes| == i && forall k | 0 <= k < i :: nodes[k].nid == ids[k]
      invariant forall k | 0 <= k < i ::
        && nodes[k].kind == raw[k].kind && nodes[k].name == raw[k].name && nodes[k].body == raw[k].body
        && nodes[k].parent == if raw[k].parent.Some? then Some(ids[raw[k].parent.value]) else None
    {
      var parent := if raw[i].parent.Some? then Some(ids[raw[i].parent.value]) else None;
      nodes := nodes + [Prev(ids[i], raw[i].kind, raw[i].name, raw[i].body, parent)];
    }
  }

  method Filled(raw: seq<Raw>, previous: seq<Prev>, held: Assigned, ghost used: set<EntityId>, supply: nat -> EntityId)
    returns (ids: seq<EntityId>)
    requires FreshSupply(supply, previous) && Sound(raw, previous, held, used)
    ensures |ids| == |raw|
    ensures forall i: nat | i < |ids| :: ids[i] == if held[i].Some? then held[i].value else supply(i)
    ensures forall i, j | 0 <= i < j < |ids| :: ids[i] != ids[j]
  {
    ids := [];
    for i := 0 to |raw|
      invariant |ids| == i && forall k: nat | k < i :: ids[k] == if held[k].Some? then held[k].value else supply(k)
    {
      ids := ids + [if held[i].Some? then held[i].value else supply(i)];
    }
    forall i, j | 0 <= i < j < |ids| ensures ids[i] != ids[j] {
      assert held[i].Some? ==> Kin(raw[i], previous, held[i].value);
      assert held[j].Some? ==> Kin(raw[j], previous, held[j].value);
    }
  }
}
