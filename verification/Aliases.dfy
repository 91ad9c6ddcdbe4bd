/**
 Identities after a merge: a unit that both sides introduced has two IDs, of which
 the merged units go on with the lower and the higher is kept as its alias.
 */
module Aliases {
  import opened Options
  import opened Ids

  datatype Node = Node(
    nid: EntityId, path: string, kind: string, name: string, body: Oid,
    parent: Option<EntityId>, deps: Option<seq<EntityId>>)

  function NidsOf(nodes: seq<Node>): set<EntityId> {
    set i | 0 <= i < |nodes| :: nodes[i].nid
  }

  ghost predicate DistinctNids(nodes: seq<Node>) {
    forall i, j | 0 <= i < j < |nodes| :: nodes[i].nid != nodes[j].nid
  }

  // ------------------------------------------------------------------- pairing

  predicate Open(m: Node, o: Node, baseIds: set<EntityId>, taken: set<EntityId>) {
    m.path == o.path && m.nid !in baseIds && m.nid !in taken
  }

  predicate SameName(m: Node, o: Node) {
    m.kind == o.kind && m.name == o.name && (m.parent.Some? <==> o.parent.Some?)
  }

  predicate SameBody(m: Node, o: Node) {
    m.kind == o.kind && m.body == o.body
  }

  /** The first open unit that matches by name or, failing any, by body. */
  function Candidate(merged: seq<Node>, baseIds: set<EntityId>, taken: set<EntityId>, o: Node): (r: Option<nat>)
    ensures r.Some? ==> r.value < |merged| && Open(merged[r.value], o, baseIds, taken)
  {
    var byName := First(merged, baseIds, taken, o, true);
    if byName.Some? then byName else First(merged, baseIds, taken, o, false)
  }

  function First(merged: seq<Node>, baseIds: set<EntityId>, taken: set<EntityId>, o: Node,
                 byName: bool): (r: Option<nat>)
    ensures r.Some? ==> r.value < |merged| && Open(merged[r.value], o, baseIds, taken)
  {
    if merged == [] then None
    else if Open(merged[0], o, baseIds, taken) &&
        (if byName then SameName(merged[0], o) else SameBody(merged[0], o)) then Some(0)
    else
      match First(merged[1..], baseIds, taken, o, byName)
      case Some(i) => Some(i + 1)
      case None => None
  }

  /** A unit the other side introduced, and the merged unit it is. */
  datatype Pair = Pair(o: EntityId, m: EntityId)

  function TakenBy(pairs: seq<Pair>): set<EntityId> {
    set i | 0 <= i < |pairs| :: pairs[i].m
  }

  /** The units paired, in the order of the other side. */
  function Pairs(merged: seq<Node>, baseIds: set<EntityId>, other: seq<Node>): seq<Pair> {
    if other == [] then []
    else
      var before, o := Pairs(merged, baseIds, other[..|other| - 1]), other[|other| - 1];
      if o.nid in baseIds || o.nid in NidsOf(merged) then before
      else
        match Candidate(merged, baseIds, TakenBy(before), o)
        case None => before
        case Some(i) => before + [Pair(o.nid, merged[i].nid)]
  }

  function Low(p: Pair): EntityId { if p.o < p.m then p.o else p.m }

  function High(p: Pair): EntityId { if p.o < p.m then p.m else p.o }

  /** The higher ID of each pair to the lower. */
  function AliasesOf(pairs: seq<Pair>): map<EntityId, EntityId> {
    if pairs == [] then map[]
    else AliasesOf(pairs[..|pairs| - 1])[High(pairs[|pairs| - 1]) := Low(pairs[|pairs| - 1])]
  }

  /** The merged units that take the other side's ID. */
  function RenumberOf(pairs: seq<Pair>): map<EntityId, EntityId> {
    if pairs == [] then map[]
    else
      var before, p := RenumberOf(pairs[..|pairs| - 1]), pairs[|pairs| - 1];
      if p.o < p.m then before[p.m := p.o] else before
  }

  // ----------------------------------------------------------------- renumbering

  function To(renumber: map<EntityId, EntityId>, id: EntityId): EntityId {
    if id in renumber then renumber[id] else id
  }

  function DepSet(renumber: map<EntityId, EntityId>, deps: seq<EntityId>): set<EntityId> {
    set i | 0 <= i < |deps| :: To(renumber, deps[i])
  }

  function Renumbered(renumber: map<EntityId, EntityId>, n: Node): Node {
    n.(nid := To(renumber, n.nid),
       parent := if n.parent.Some? then Some(To(renumber, n.parent.value)) else None,
       deps := if n.deps.Some? then Some(Ascending(DepSet(renumber, n.deps.value))) else None)
  }

  function AllRenumbered(renumber: map<EntityId, EntityId>, nodes: seq<Node>): (r: seq<Node>)
    ensures |r| == |nodes|
  {
    if renumber == map[] then nodes
    else seq(|nodes|, i requires 0 <= i < |nodes| => Renumbered(renumber, nodes[i]))
  }

  function BaseIds(base: Option<seq<Node>>): set<EntityId> {
    if base.Some? then NidsOf(base.value) else {}
  }

  /** What reconciling does, said of the units. */
  lemma {:induction false} ReconcileFollows(merged: seq<Node>, baseIds: set<EntityId>, other: seq<Node>)
    ensures var pairs := Pairs(merged, baseIds, other);
            && (exists to :: PairsRuled(merged, baseIds, other, to) && pairs == PairsMade(merged, other, to))
            && (DistinctNids(other) ==>
                  forall i | 0 <= i < |merged| ::
                    Becomes(pairs, merged[i], AllRenumbered(RenumberOf(pairs), merged)[i]))
  {
    var to := PairsFollow(merged, baseIds, other, |other|);
    assert other[..|other|] == other;
    assert PairsRuled(merged, baseIds, other, to);
    if DistinctNids(other) {
      PairsProper(merged, baseIds, other);
      forall i: nat | i < |merged|
        ensures Becomes(Pairs(merged, baseIds, other), merged[i],
                        AllRenumbered(RenumberOf(Pairs(merged, baseIds, other)), merged)[i])
      {
        UnitBecomes(Pairs(merged, baseIds, other), NidsOf(merged), baseIds, merged, i);
      }
    }
  }

  /** Pair what both sides introduced, then renumber the merged units in place. */
  method Reconcile(merged: array<Node>, base: Option<seq<Node>>, other: seq<Node>) returns (aliases: map<EntityId,
                   EntityId>)
    modifies merged
    ensures var pairs := Pairs(old(merged[..]), BaseIds(base), other);
            && aliases == AliasesOf(pairs)
            && merged[..] == AllRenumbered(RenumberOf(pairs), old(merged[..]))
            && (exists to :: PairsRuled(old(merged[..]), BaseIds(base), other, to)
                             && pairs == PairsMade(old(merged[..]), other, to))
            && (DistinctNids(other) ==> forall i | 0 <= i < merged.Length :: Becomes(pairs, old(merged[i]), merged[i]))
  {
    var baseIds, nodes := BaseIds(base), merged[..];
    var mergedIds, taken: set<EntityId>, renumber: map<EntityId, EntityId> := NidsOf(nodes), {}, map[];
    aliases := map[];
    for k := 0 to |other|
      invariant merged[..] == nodes
      invariant var pairs := Pairs(nodes, baseIds, other[..k]);
                taken == TakenBy(pairs) && aliases == AliasesOf(pairs) && renumber == RenumberOf(pairs)
    {
      var o := other[k];
      assert other[..k + 1][..k] == other[..k];
      if o.nid !in baseIds && o.nid !in mergedIds {
        var candidate := Candidate(nodes, baseIds, taken, o);
        if candidate.Some? {
          var m := nodes[candidate.value].nid;
          PairSnoc(Pairs(nodes, baseIds, other[..k]), Pair(o.nid, m));
          taken := taken + {m};
          if o.nid < m {
            renumber, aliases := renumber[m := o.nid], aliases[m := o.nid];
          } else {
            aliases := aliases[o.nid := m];
          }
        }
      }
    }
    assert other[..|other|] == other;
    if renumber != map[] {
      RenumberAll(merged, renumber);
    }
    ReconcileFollows(nodes, baseIds, other);
  }

  lemma PairSnoc(pairs: seq<Pair>, p: Pair)
    ensures TakenBy(pairs + [p]) == TakenBy(pairs) + {p.m}
    ensures AliasesOf(pairs + [p]) == AliasesOf(pairs)[High(p) := Low(p)]
    ensures RenumberOf(pairs + [p]) == if p.o < p.m then RenumberOf(pairs)[p.m := p.o] else RenumberOf(pairs)
  {
    var all := pairs + [p];
    assert all[..|pairs|] == pairs && all[|pairs|] == p;
    forall m | m in TakenBy(pairs) ensures m in TakenBy(all) {
      var i :| 0 <= i < |pairs| && pairs[i].m == m;
      assert all[i].m == m;
    }
  }

  method RenumberAll(merged: array<Node>, renumber: map<EntityId, EntityId>)
    requires renumber != map[]
    modifies merged
    ensures merged[..] == AllRenumbered(renumber, old(merged[..]))
  {
    for i := 0 to merged.Length
      invariant forall k | 0 <= k < i :: merged[k] == Renumbered(renumber, old(merged[k]))
      invariant forall k | i <= k < merged.Length :: merged[k] == old(merged[k])
    {
      merged[i] := RenumberNode(merged[i], renumber);
    }
  }

  method RenumberNode(n: Node, renumber: map<EntityId, EntityId>) returns (r: Node)
    ensures r == Renumbered(renumber, n)
  {
    r := n;
    if n.nid in renumber {
      r := r.(nid := renumber[n.nid]);
    }
    if n.parent.Some? && n.parent.value in renumber {
      r := r.(parent := Some(renumber[n.parent.value]));
    }
    if n.deps.Some? {
      var deps := SortIds(DepSet(renumber, n.deps.value));
      r := r.(deps := Some(deps));
    }
  }

  // --------------------------------------------------------- what it guarantees

  /** Pairs join a new ID of the other side to a new merged unit, each of them once. */
  ghost predicate Proper(pairs: seq<Pair>, merged: set<EntityId>, baseIds: set<EntityId>) {
    && (forall i | 0 <= i < |pairs| :: pairs[i].o !in merged && pairs[i].o !in baseIds)
    && (forall i | 0 <= i < |pairs| :: pairs[i].m in merged && pairs[i].m !in baseIds)
    && (forall i, j | 0 <= i < j < |pairs| :: pairs[i].o != pairs[j].o && pairs[i].m != pairs[j].m)
  }

  lemma {:induction false} PairsProper(merged: seq<Node>, baseIds: set<EntityId>, other: seq<Node>)
    requires DistinctNids(other)
    ensures Proper(Pairs(merged, baseIds, other), NidsOf(merged), baseIds)
    ensures forall i | 0 <= i < |Pairs(merged, baseIds, other)| :: Pairs(merged, baseIds, other)[i].o in NidsOf(other)
  {
    if other != [] {
      var init, o := other[..|other| - 1], other[|other| - 1];
      var before, pairs := Pairs(merged, baseIds, init), Pairs(merged, baseIds, other);
      PairsProper(merged, baseIds, init);
      forall x | x in NidsOf(init) ensures x in NidsOf(other) && x != o.nid {
        var i :| 0 <= i < |init| && init[i].nid == x;
        assert other[i] == init[i];
      }
      assert o.nid in NidsOf(other);
      forall i | 0 <= i < |before| ensures before[i].m in TakenBy(before) && before[i].o != o.nid {
        assert before[i].o in NidsOf(init);
      }
    }
  }

  /** A proper table: what it renumbers and what it aliases. */
  lemma {:induction false} TablesOf(pairs: seq<Pair>, merged: set<EntityId>, baseIds: set<EntityId>, i: nat)
    requires Proper(pairs, merged, baseIds) && i < |pairs|
    ensures High(pairs[i]) in AliasesOf(pairs) && AliasesOf(pairs)[High(pairs[i])] == Low(pairs[i])
    ensures To(RenumberOf(pairs), pairs[i].m) == Low(pairs[i])
    decreases |pairs|
  {
    var init, p := pairs[..|pairs| - 1], pairs[|pairs| - 1];
    if i < |init| {
      TablesOf(init, merged, baseIds, i);
    } else if p.o >= p.m {
      NotRenumbered(init, p.m);
    }
  }

  lemma {:induction false} NotRenumbered(pairs: seq<Pair>, id: EntityId)
    requires forall i | 0 <= i < |pairs| :: pairs[i].m != id
    ensures id !in RenumberOf(pairs)
  {
    if pairs != [] {
      NotRenumbered(pairs[..|pairs| - 1], id);
    }
  }

  lemma {:induction false} AliasFrom(pairs: seq<Pair>, key: EntityId) returns (i: nat)
    requires key in AliasesOf(pairs)
    ensures i < |pairs| && High(pairs[i]) == key && AliasesOf(pairs)[key] == Low(pairs[i])
  {
    if High(pairs[|pairs| - 1]) == key {
      i := |pairs| - 1;
    } else {
      i := AliasFrom(pairs[..|pairs| - 1], key);
    }
  }

  lemma {:induction false} RenumberFrom(pairs: seq<Pair>, key: EntityId) returns (i: nat)
    requires key in RenumberOf(pairs)
    ensures i < |pairs| && pairs[i].m == key && RenumberOf(pairs)[key] == pairs[i].o < key
  {
    var p := pairs[|pairs| - 1];
    if p.o < p.m && p.m == key {
      i := |pairs| - 1;
    } else {
      i := RenumberFrom(pairs[..|pairs| - 1], key);
    }
  }

  /** Renumbering keeps different IDs different. */
  lemma {:induction false} RenumberInjective(pairs: seq<Pair>, merged: set<EntityId>, baseIds: set<EntityId>,
                                             x: EntityId, y: EntityId)
    requires Proper(pairs, merged, baseIds) && x in merged && y in merged && x != y
    ensures To(RenumberOf(pairs), x) != To(RenumberOf(pairs), y)
  {
    var table := RenumberOf(pairs);
    if x in table {
      var i := RenumberFrom(pairs, x);
      if y in table {
        var j := RenumberFrom(pairs, y);
        assert i != j;
      }
    } else if y in table {
      var j := RenumberFrom(pairs, y);
    }
  }

  lemma PresentAfter(renumber: map<EntityId, EntityId>, nodes: seq<Node>, id: EntityId)
    requires id in NidsOf(nodes)
    ensures To(renumber, id) in NidsOf(AllRenumbered(renumber, nodes))
  {
    var i: nat :| i < |nodes| && nodes[i].nid == id;
  }

  lemma PresentBefore(renumber: map<EntityId, EntityId>, nodes: seq<Node>, id: EntityId) returns (was: EntityId)
    requires id in NidsOf(AllRenumbered(renumber, nodes))
    ensures was in NidsOf(nodes) && To(renumber, was) == id
  {
    var i: nat :| i < |nodes| && AllRenumbered(renumber, nodes)[i].nid == id;
    was := nodes[i].nid;
  }

  /** After reconciling, the merged units' IDs are still pairwise distinct. */
  lemma {:induction false} IdsStayDistinct(merged: seq<Node>, baseIds: set<EntityId>, other: seq<Node>)
    requires DistinctNids(merged) && DistinctNids(other)
    ensures DistinctNids(AllRenumbered(RenumberOf(Pairs(merged, baseIds, other)), merged))
  {
    var pairs := Pairs(merged, baseIds, other);
    PairsProper(merged, baseIds, other);
    forall i, j | 0 <= i < j < |merged|
      ensures AllRenumbered(RenumberOf(pairs), merged)[i].nid != AllRenumbered(RenumberOf(pairs), merged)[j].nid
    {
      RenumberInjective(pairs, NidsOf(merged), baseIds, merged[i].nid, merged[j].nid);
    }
  }

  /** A unit of the base keeps its ID, and no unit changes otherwise than in its references. */
  lemma {:induction false} BaseUnitsKeepIds(merged: seq<Node>, baseIds: set<EntityId>, other: seq<Node>, i: nat)
    requires DistinctNids(other) && i < |merged|
    ensures var n := AllRenumbered(RenumberOf(Pairs(merged, baseIds, other)), merged)[i];
            && (merged[i].nid in baseIds ==> n.nid == merged[i].nid)
            && n == merged[i].(nid := n.nid, parent := n.parent, deps := n.deps)
  {
    var pairs := Pairs(merged, baseIds, other);
    PairsProper(merged, baseIds, other);
    if merged[i].nid in RenumberOf(pairs) {
      var k := RenumberFrom(pairs, merged[i].nid);
    }
  }

  /** Every reference of a unit is to a unit among these. */
  ghost predicate RefersWithin(n: Node, ids: set<EntityId>) {
    && (n.parent.Some? ==> n.parent.value in ids)
    && (n.deps.Some? ==> forall d | d in n.deps.value :: d in ids)
  }

  /** References to present units stay references to present units. */
  lemma {:induction false} ReferencesStay(merged: seq<Node>, renumber: map<EntityId, EntityId>, i: nat)
    requires i < |merged| && RefersWithin(merged[i], NidsOf(merged))
    ensures RefersWithin(AllRenumbered(renumber, merged)[i], NidsOf(AllRenumbered(renumber, merged)))
  {
    var after := AllRenumbered(renumber, merged);
    forall id | id in NidsOf(merged) ensures To(renumber, id) in NidsOf(after) {
      PresentAfter(renumber, merged, id);
    }
    if renumber != map[] && merged[i].deps.Some? {
      forall d | d in after[i].deps.value ensures d in NidsOf(after) {
        var k :| 0 <= k < |merged[i].deps.value| && To(renumber, merged[i].deps.value[k]) == d;
        assert merged[i].deps.value[k] in merged[i].deps.value;
      }
    }
  }

  /**
   The alias table: every key is an ID no longer in use, every value a present
   unit and lower than its key, so following an alias once is enough.
   */
  lemma {:induction false} AliasTableSound(merged: seq<Node>, baseIds: set<EntityId>, other: seq<Node>, key: EntityId)
    requires DistinctNids(merged) && DistinctNids(other) && key in AliasesOf(Pairs(merged, baseIds, other))
    ensures var pairs := Pairs(merged, baseIds, other);
            var ids, to := NidsOf(AllRenumbered(RenumberOf(pairs), merged)), AliasesOf(pairs)[key];
            key !in ids && to in ids && to < key && to !in AliasesOf(pairs)
  {
    var pairs := Pairs(merged, baseIds, other);
    PairsProper(merged, baseIds, other);
    var i := AliasFrom(pairs, key);
    TablesOf(pairs, NidsOf(merged), baseIds, i);
    PresentAfter(RenumberOf(pairs), merged, pairs[i].m);
    KeyUnused(merged, baseIds, pairs, i);
    var to := Low(pairs[i]);
    if to in AliasesOf(pairs) {
      var j := AliasFrom(pairs, to);
      KeyUnused(merged, baseIds, pairs, j);
    }
  }

  lemma {:induction false} KeyUnused(merged: seq<Node>, baseIds: set<EntityId>, pairs: seq<Pair>, i: nat)
    requires Proper(pairs, NidsOf(merged), baseIds) && i < |pairs|
    ensures High(pairs[i]) !in NidsOf(AllRenumbered(RenumberOf(pairs), merged))
  {
    var key, table := High(pairs[i]), RenumberOf(pairs);
    if key in NidsOf(AllRenumbered(table, merged)) {
      var was := PresentBefore(table, merged, key);
      if was in table {
        var k := RenumberFrom(pairs, was);
      } else {
        assert was == key == pairs[i].m;
        TablesOf(pairs, NidsOf(merged), baseIds, i);
      }
    }
  }

  /** Every pair is in the table: the survivor is the lower ID, whichever side it came from. */
  lemma {:induction false} LowerSurvives(merged: seq<Node>, baseIds: set<EntityId>, other: seq<Node>, i: nat)
    requires DistinctNids(merged) && DistinctNids(other) && i < |Pairs(merged, baseIds, other)|
    ensures var pairs := Pairs(merged, baseIds, other);
            var ids := NidsOf(AllRenumbered(RenumberOf(pairs), merged));
            && Low(pairs[i]) in ids && High(pairs[i]) !in ids
            && High(pairs[i]) in AliasesOf(pairs) && AliasesOf(pairs)[High(pairs[i])] == Low(pairs[i])
  {
    var pairs := Pairs(merged, baseIds, other);
    PairsProper(merged, baseIds, other);
    TablesOf(pairs, NidsOf(merged), baseIds, i);
    PresentAfter(RenumberOf(pairs), merged, pairs[i].m);
    KeyUnused(merged, baseIds, pairs, i);
  }

  // ------------------------------------------------------------- which are paired

  /** Introduced by the other side: neither the base nor the merged units have its ID. */
  ghost predicate Introduced(merged: seq<Node>, baseIds: set<EntityId>, o: Node) {
    o.nid !in baseIds && forall m | m in merged :: m.nid != o.nid
  }

  /** A merged unit of the file that the base lacks and no earlier unit of the other side was paired with. */
  ghost predicate Available(merged: seq<Node>, baseIds: set<EntityId>, other: seq<Node>, to: seq<Option<nat>>, k: nat,
                            i: nat)
    requires k < |other|
  {
    && i < |merged| && merged[i].path == other[k].path && merged[i].nid !in baseIds
    && !TakenEarlier(merged, to, k, merged[i].nid)
  }

  ghost predicate TakenEarlier(merged: seq<Node>, to: seq<Option<nat>>, k: nat, id: EntityId) {
    exists j | 0 <= j < k && j < |to| :: to[j].Some? && to[j].value < |merged| && merged[to[j].value].nid == id
  }

  ghost predicate NameTwin(merged: seq<Node>, baseIds: set<EntityId>, other: seq<Node>, to: seq<Option<nat>>, k: nat,
                           i: nat)
    requires k < |other|
  {
    && Available(merged, baseIds, other, to, k, i) && merged[i].kind == other[k].kind
    && merged[i].name == other[k].name && (merged[i].parent.Some? <==> other[k].parent.Some?)
  }

  ghost predicate BodyTwin(merged: seq<Node>, baseIds: set<EntityId>, other: seq<Node>, to: seq<Option<nat>>, k: nat,
                           i: nat)
    requires k < |other|
  {
    Available(merged, baseIds, other, to, k, i) && merged[i].kind == other[k].kind && merged[i].body == other[k].body
  }

  /** A unit introduced is paired with the first twin by name, else the first by body, else with none. */
  ghost predicate PairRuled(merged: seq<Node>, baseIds: set<EntityId>, other: seq<Node>, to: seq<Option<nat>>, k: nat)
    requires k < |other| && k < |to|
  {
    match to[k]
    case Some(i) =>
      && Introduced(merged, baseIds, other[k])
      && if NameTwin(merged, baseIds, other, to, k, i) then
           forall x: nat | x < i :: !NameTwin(merged, baseIds, other, to, k, x)
         else
           && BodyTwin(merged, baseIds, other, to, k, i)
           && (forall x: nat :: !NameTwin(merged, baseIds, other, to, k, x))
           && forall x: nat | x < i :: !BodyTwin(merged, baseIds, other, to, k, x)
    case None =>
      Introduced(merged, baseIds, other[k]) ==>
        forall x: nat :: !NameTwin(merged, baseIds, other, to, k, x) && !BodyTwin(merged, baseIds, other, to, k, x)
  }

  ghost predicate PairsRuled(merged: seq<Node>, baseIds: set<EntityId>, other: seq<Node>, to: seq<Option<nat>>) {
    |to| == |other| && forall k: nat | k < |other| :: PairRuled(merged, baseIds, other, to, k)
  }

  /** The pairs those choices make, in order. */
  ghost function PairsMade(merged: seq<Node>, other: seq<Node>, to: seq<Option<nat>>): seq<Pair>
    requires |to| <= |other|
  {
    if to == [] then []
    else
      var k := |to| - 1;
      PairsMade(merged, other, to[..k]) +
      if to[k].Some? && to[k].value < |merged| then [Pair(other[k].nid, merged[to[k].value].nid)] else []
  }

  ghost predicate Fits(m: Node, o: Node, baseIds: set<EntityId>, taken: set<EntityId>, byName: bool) {
    Open(m, o, baseIds, taken) && if byName then SameName(m, o) else SameBody(m, o)
  }

  lemma {:induction false} FirstExactly(merged: seq<Node>, baseIds: set<EntityId>, taken: set<EntityId>, o: Node,
                                        byName: bool)
    ensures match First(merged, baseIds, taken, o, byName)
            case Some(i) =>
              && i < |merged| && Fits(merged[i], o, baseIds, taken, byName)
              && forall x | 0 <= x < i :: !Fits(merged[x], o, baseIds, taken, byName)
            case None => forall x | 0 <= x < |merged| :: !Fits(merged[x], o, baseIds, taken, byName)
  {
    if merged != [] && !Fits(merged[0], o, baseIds, taken, byName) {
      FirstExactly(merged[1..], baseIds, taken, o, byName);
      forall x | 0 < x < |merged| ensures merged[x] == merged[1..][x - 1] {
      }
    }
  }

  lemma {:induction false} TakenByMade(merged: seq<Node>, other: seq<Node>, to: seq<Option<nat>>, id: EntityId)
    requires |to| <= |other|
    ensures id in TakenBy(PairsMade(merged, other, to)) <==> TakenEarlier(merged, to, |to|, id)
  {
    if to != [] {
      var k := |to| - 1;
      TakenByMade(merged, other, to[..k], id);
      if j :| 0 <= j < k && to[j].Some? && to[j].value < |merged| && merged[to[j].value].nid == id {
        assert to[..k][j] == to[j];
      }
      if to[k].Some? && to[k].value < |merged| {
        PairSnoc(PairsMade(merged, other, to[..k]), Pair(other[k].nid, merged[to[k].value].nid));
      } else {
        assert PairsMade(merged, other, to[..k]) + [] == PairsMade(merged, other, to[..k]);
      }
    }
  }

  lemma IntroducedExactly(merged: seq<Node>, baseIds: set<EntityId>, o: Node)
    ensures Introduced(merged, baseIds, o) <==> o.nid !in baseIds && o.nid !in NidsOf(merged)
  {
    if o.nid in NidsOf(merged) {
      var i: nat :| i < |merged| && merged[i].nid == o.nid;
      assert merged[i] in merged;
    }
  }

  lemma FitsExactly(merged: seq<Node>, baseIds: set<EntityId>, other: seq<Node>, to: seq<Option<nat>>, k: nat, i: nat,
                    taken: set<EntityId>)
    requires k < |other| && i < |merged| && (merged[i].nid in taken <==> TakenEarlier(merged, to, k, merged[i].nid))
    ensures Fits(merged[i], other[k], baseIds, taken, true) <==> NameTwin(merged, baseIds, other, to, k, i)
    ensures Fits(merged[i], other[k], baseIds, taken, false) <==> BodyTwin(merged, baseIds, other, to, k, i)
  {}

  /** The next choice. */
  lemma {:induction false} Choice(merged: seq<Node>, baseIds: set<EntityId>, other: seq<Node>, to: seq<Option<nat>>,
                                  k: nat, taken: set<EntityId>, next: Option<nat>)
    requires k < |other| && |to| == k + 1 && to[k] == next
    requires forall id :: id in taken <==> TakenEarlier(merged, to, k, id)
    requires next == if other[k].nid in baseIds || other[k].nid in NidsOf(merged) then None
                     else Candidate(merged, baseIds, taken, other[k])
    ensures PairRuled(merged, baseIds, other, to, k)
  {
    var o := other[k];
    IntroducedExactly(merged, baseIds, o);
    forall i: nat | i < |merged|
      ensures Fits(merged[i], o, baseIds, taken, true) <==> NameTwin(merged, baseIds, other, to, k, i)
      ensures Fits(merged[i], o, baseIds, taken, false) <==> BodyTwin(merged, baseIds, other, to, k, i)
    {
      FitsExactly(merged, baseIds, other, to, k, i, taken);
    }
    FirstExactly(merged, baseIds, taken, o, true);
    FirstExactly(merged, baseIds, taken, o, false);
  }

  /** The pairs are those of the choices the rules make. */
  lemma {:induction false} PairsFollow(merged: seq<Node>, baseIds: set<EntityId>, other: seq<Node>, k: nat)
    returns (to: seq<Option<nat>>)
    requires k <= |other|
    ensures |to| == k && forall j: nat | j < k :: PairRuled(merged, baseIds, other, to, j)
    ensures PairsMade(merged, other, to) == Pairs(merged, baseIds, other[..k])
  {
    if k == 0 {
      to := [];
    } else {
      var before := PairsFollow(merged, baseIds, other, k - 1);
      var taken, o := TakenBy(PairsMade(merged, other, before)), other[k - 1];
      var next := if o.nid in baseIds || o.nid in NidsOf(merged) then None else Candidate(merged, baseIds, taken, o);
      to := before + [next];
      assert to[..k - 1] == before && other[..k][..k - 1] == other[..k - 1];
      forall id ensures id in taken <==> TakenEarlier(merged, to, k - 1, id) {
        TakenByMade(merged, other, before, id);
        TakenSame(merged, before, to, k - 1, id);
      }
      Choice(merged, baseIds, other, to, k - 1, taken, next);
      forall j: nat | j < k - 1 ensures PairRuled(merged, baseIds, other, to, j) {
        RuledSame(merged, baseIds, other, before, to, j);
      }
    }
  }

  lemma TakenSame(merged: seq<Node>, a: seq<Option<nat>>, b: seq<Option<nat>>, k: nat, id: EntityId)
    requires k <= |a| && k <= |b| && forall x | 0 <= x < k :: a[x] == b[x]
    ensures TakenEarlier(merged, a, k, id) <==> TakenEarlier(merged, b, k, id)
  {
    if j :| 0 <= j < k && a[j].Some? && a[j].value < |merged| && merged[a[j].value].nid == id {
      assert b[j] == a[j];
    }
    if j :| 0 <= j < k && b[j].Some? && b[j].value < |merged| && merged[b[j].value].nid == id {
      assert a[j] == b[j];
    }
  }

  lemma RuledSame(merged: seq<Node>, baseIds: set<EntityId>, other: seq<Node>, a: seq<Option<nat>>, b: seq<Option<nat>>,
                  j: nat)
    requires j < |other| && j < |a| && j < |b| && forall x | 0 <= x <= j :: a[x] == b[x]
    requires PairRuled(merged, baseIds, other, a, j)
    ensures PairRuled(merged, baseIds, other, b, j)
  {
    forall i: nat
      ensures NameTwin(merged, baseIds, other, a, j, i) <==> NameTwin(merged, baseIds, other, b, j, i)
      ensures BodyTwin(merged, baseIds, other, a, j, i) <==> BodyTwin(merged, baseIds, other, b, j, i)
    {
      if i < |merged| {
        TakenSame(merged, a, b, j, merged[i].nid);
      }
    }
  }

  // --------------------------------------------------------- what a unit becomes

  /** The lower of the two IDs, where the unit was paired; else its own. */
  ghost predicate NowIs(pairs: seq<Pair>, was: EntityId, now: EntityId) {
    if exists i | 0 <= i < |pairs| :: pairs[i].m == was && pairs[i].o < was
    then exists i | 0 <= i < |pairs| :: pairs[i].m == was && pairs[i].o < was && now == pairs[i].o
    else now == was
  }

  lemma {:induction false} ToFollows(pairs: seq<Pair>, was: EntityId)
    ensures NowIs(pairs, was, To(RenumberOf(pairs), was))
  {
    if was in RenumberOf(pairs) {
      var i := RenumberFrom(pairs, was);
    } else if i :| 0 <= i < |pairs| && pairs[i].m == was && pairs[i].o < was {
      RenumbersPaired(pairs, i);
    }
  }

  lemma {:induction false} RenumbersPaired(pairs: seq<Pair>, i: nat)
    requires i < |pairs| && pairs[i].o < pairs[i].m
    ensures pairs[i].m in RenumberOf(pairs)
  {
    if i < |pairs| - 1 {
      RenumbersPaired(pairs[..|pairs| - 1], i);
    }
  }

  /** A unit's ID, parent and dependencies become what they are now, the dependencies once each in order. */
  ghost predicate Becomes(pairs: seq<Pair>, was: Node, now: Node) {
    && NowIs(pairs, was.nid, now.nid)
    && (was.parent.Some? <==> now.parent.Some?)
    && (was.parent.Some? ==> NowIs(pairs, was.parent.value, now.parent.value))
    && (was.deps.Some? <==> now.deps.Some?)
    && (was.deps.Some? ==>
          if forall i | 0 <= i < |pairs| :: pairs[i].m < pairs[i].o then now.deps == was.deps
          else Rises(now.deps.value) && forall d :: d in now.deps.value <==> DependsNow(pairs, was.deps.value, d))
  }

  ghost predicate DependsNow(pairs: seq<Pair>, deps: seq<EntityId>, d: EntityId) {
    exists x :: x in deps && NowIs(pairs, x, d)
  }

  lemma {:induction false} NothingRenumbered(pairs: seq<Pair>)
    ensures RenumberOf(pairs) == map[] <==> forall i | 0 <= i < |pairs| :: pairs[i].o >= pairs[i].m
  {
    if i :| 0 <= i < |pairs| && pairs[i].o < pairs[i].m {
      RenumbersPaired(pairs, i);
    } else if key :| key in RenumberOf(pairs) {
      var i := RenumberFrom(pairs, key);
    }
  }

  lemma NowOnce(pairs: seq<Pair>, merged: set<EntityId>, baseIds: set<EntityId>, was: EntityId,
                x: EntityId, y: EntityId)
    requires Proper(pairs, merged, baseIds) && NowIs(pairs, was, x) && NowIs(pairs, was, y)
    ensures x == y
  {}

  lemma DepsFollow(pairs: seq<Pair>, merged: set<EntityId>, baseIds: set<EntityId>, deps: seq<EntityId>, d: EntityId)
    requires Proper(pairs, merged, baseIds)
    ensures d in DepSet(RenumberOf(pairs), deps) <==> DependsNow(pairs, deps, d)
  {
    if d in DepSet(RenumberOf(pairs), deps) {
      var i :| 0 <= i < |deps| && To(RenumberOf(pairs), deps[i]) == d;
      ToFollows(pairs, deps[i]);
      assert deps[i] in deps;
    }
    if x :| x in deps && NowIs(pairs, x, d) {
      var i :| 0 <= i < |deps| && deps[i] == x;
      ToFollows(pairs, x);
      NowOnce(pairs, merged, baseIds, x, d, To(RenumberOf(pairs), x));
    }
  }

  lemma {:induction false} UnitBecomes(pairs: seq<Pair>, merged: set<EntityId>, baseIds: set<EntityId>,
                                       nodes: seq<Node>, i: nat)
    requires Proper(pairs, merged, baseIds) && i < |nodes|
    ensures Becomes(pairs, nodes[i], AllRenumbered(RenumberOf(pairs), nodes)[i])
  {
    var n, table := nodes[i], RenumberOf(pairs);
    NothingRenumbered(pairs);
    ToFollows(pairs, n.nid);
    if n.parent.Some? {
      ToFollows(pairs, n.parent.value);
    }
    if n.deps.Some? {
      forall d ensures d in DepSet(table, n.deps.value) <==> DependsNow(pairs, n.deps.value, d) {
        DepsFollow(pairs, merged, baseIds, n.deps.value, d);
      }
    }
  }

  // ---------------------------------------------------------- following aliases

  /** An ID followed through the table, at most `steps` times. */
  function Resolve(aliases: map<EntityId, EntityId>, id: EntityId, steps: nat): EntityId
    decreases steps
  {
    if steps == 0 || id !in aliases || aliases[id] == id then id else Resolve(aliases, aliases[id], steps - 1)
  }

  const RESOLVE_STEPS := 64

  /** From alias to alias, at most 64 times, and no further where an ID has none or is its own. */
  ghost predicate LeadsTo(aliases: map<EntityId, EntityId>, path: seq<EntityId>, steps: nat) {
    && 0 < |path| <= steps + 1
    && (forall i {:trigger path[i]} | 0 <= i < |path| - 1 ::
          path[i] in aliases && aliases[path[i]] == path[i + 1] && path[i] != path[i + 1])
    && var last := path[|path| - 1]; |path| == steps + 1 || last !in aliases || aliases[last] == last
  }

  ghost predicate Reaches(aliases: map<EntityId, EntityId>, id: EntityId, r: EntityId, steps: nat) {
    exists path :: LeadsTo(aliases, path, steps) && path[0] == id && path[|path| - 1] == r
  }

  lemma {:induction false} ResolveExactly(aliases: map<EntityId, EntityId>, id: EntityId, r: EntityId, steps: nat)
    ensures Resolve(aliases, id, steps) == r <==> Reaches(aliases, id, r, steps)
    decreases steps
  {
    if steps == 0 || id !in aliases || aliases[id] == id {
      assert LeadsTo(aliases, [id], steps);
      forall path | LeadsTo(aliases, path, steps) && path[0] == id ensures |path| == 1 {
      }
    } else {
      ResolveExactly(aliases, aliases[id], r, steps - 1);
      if path :| LeadsTo(aliases, path, steps - 1) && path[0] == aliases[id] && path[|path| - 1] == r {
        var longer := [id] + path;
        assert LeadsTo(aliases, longer, steps);
      }
      if path :| LeadsTo(aliases, path, steps) && path[0] == id && path[|path| - 1] == r {
        assert |path| > 1;
        assert LeadsTo(aliases, path[1..], steps - 1);
      }
    }
  }

  method Follow(aliases: map<EntityId, EntityId>, id: EntityId) returns (r: EntityId)
    ensures r == Resolve(aliases, id, RESOLVE_STEPS)
  {
    r := id;
    for i := 0 to RESOLVE_STEPS
      invariant Resolve(aliases, r, RESOLVE_STEPS - i) == Resolve(aliases, id, RESOLVE_STEPS)
    {
      if r !in aliases || aliases[r] == r {
        return r;
      }
      r := aliases[r];
    }
  }

  function Resolved(aliases: map<EntityId, EntityId>, n: Node): Node {
    n.(nid := Resolve(aliases, n.nid, RESOLVE_STEPS),
       parent := if n.parent.Some? then Some(Resolve(aliases, n.parent.value, RESOLVE_STEPS)) else None)
  }

  /** A side's units under the IDs that survived. */
  method Canonical(nodes: array<Node>, aliases: map<EntityId, EntityId>)
    modifies nodes
    ensures forall i | 0 <= i < nodes.Length :: nodes[i] == Resolved(aliases, old(nodes[i]))
    ensures forall i | 0 <= i < nodes.Length ::
              && Reaches(aliases, old(nodes[i].nid), nodes[i].nid, 64)
              && (nodes[i].parent.Some? <==> old(nodes[i].parent.Some?))
              && (nodes[i].parent.Some? ==> Reaches(aliases, old(nodes[i].parent.value), nodes[i].parent.value, 64))
  {
    forall id, r ensures Resolve(aliases, id, 64) == r <==> Reaches(aliases, id, r, 64) {
      ResolveExactly(aliases, id, r, 64);
    }
    if aliases == map[] {
      return;
    }
    for i := 0 to nodes.Length
      invariant forall k | 0 <= k < i :: nodes[k] == Resolved(aliases, old(nodes[k]))
      invariant forall k | i <= k < nodes.Length :: nodes[k] == old(nodes[k])
    {
      var n := nodes[i];
      var nid := Follow(aliases, n.nid);
      var parent: Option<EntityId> := None;
      if n.parent.Some? {
        var p := Follow(aliases, n.parent.value);
        parent := Some(p);
      }
      nodes[i] := n.(nid := nid, parent := parent);
    }
  }

  /**
   Through the table a reconciliation makes, both IDs of a pair lead to the survivor,
   and every other ID in use to itself.
   */
  lemma {:induction false} PairsLineUp(merged: seq<Node>, baseIds: set<EntityId>, other: seq<Node>, i: nat,
                                       id: EntityId)
    requires DistinctNids(merged) && DistinctNids(other) && i < |Pairs(merged, baseIds, other)|
    ensures var pairs := Pairs(merged, baseIds, other);
            var table, ids := AliasesOf(pairs), NidsOf(AllRenumbered(RenumberOf(pairs), merged));
            && Resolve(table, pairs[i].o, RESOLVE_STEPS) == Low(pairs[i])
            && Resolve(table, pairs[i].m, RESOLVE_STEPS) == Low(pairs[i])
            && (id in ids ==> Resolve(table, id, RESOLVE_STEPS) == id)
  {
    var pairs := Pairs(merged, baseIds, other);
    var table := AliasesOf(pairs);
    LowerSurvives(merged, baseIds, other, i);
    AliasTableSound(merged, baseIds, other, High(pairs[i]));
    ResolveStays(table, Low(pairs[i]));
    if id in table {
      AliasTableSound(merged, baseIds, other, id);
    } else {
      ResolveStays(table, id);
    }
  }

  lemma ResolveStays(table: map<EntityId, EntityId>, id: EntityId)
    requires id !in table
    ensures Resolve(table, id, RESOLVE_STEPS) == id
  {}

}
