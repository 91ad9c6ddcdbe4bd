/**
 The groups handed out: each lists its units and their paths in order, and counts
 the units elsewhere that depend on them.
 */
module WorkGroups {
  import opened Ids
  import opened Order
  import opened Partition
  import Globs

  datatype Entry = Entry(path: string, name: string, nid: EntityId)

  datatype Group = Group(units: seq<Entry>, paths: seq<string>, dependents: nat)

  function EntryOf(u: Unit): Entry { Entry(u.path, u.name, u.nid) }

  predicate Before(a: Entry, b: Entry) {
    || Less(a.path, b.path)
    || (a.path == b.path && (Less(a.name, b.name) || (a.name == b.name && a.nid < b.nid)))
  }

  lemma BeforeTotal(a: Entry, b: Entry)
    ensures Before(a, b) || a == b || Before(b, a)
  {
    LessTotal(a.path, b.path);
    LessTotal(a.name, b.name);
  }

  lemma BeforeTransitive(a: Entry, b: Entry, c: Entry)
    requires Before(a, b) && Before(b, c)
    ensures Before(a, c)
  {
    if Less(a.path, b.path) && Less(b.path, c.path) {
      LessTransitive(a.path, b.path, c.path);
    }
    if Less(a.name, b.name) && Less(b.name, c.name) {
      LessTransitive(a.name, b.name, c.name);
    }
  }

  ghost predicate InOrder(es: seq<Entry>) {
    forall i, j | 0 <= i < j < |es| :: es[i] == es[j] || Before(es[i], es[j])
  }

  function InsertEntry(e: Entry, es: seq<Entry>): (r: seq<Entry>)
    ensures multiset(r) == multiset{e} + multiset(es)
  {
    if es == [] then [e]
    else if Before(e, es[0]) then
      assert [e] + es == [e] + es;
      [e] + es
    else
      assert es == [es[0]] + es[1..];
      [es[0]] + InsertEntry(e, es[1..])
  }

  lemma FirstStays(e: Entry, es: seq<Entry>, x: Entry)
    requires InOrder(es) && es != [] && Before(es[0], e) && x in InsertEntry(e, es[1..])
    ensures x == es[0] || Before(es[0], x)
  {
    assert x in multiset(InsertEntry(e, es[1..]));
    if x != e {
      assert x in multiset(es[1..]);
      var k :| 0 <= k < |es[1..]| && es[1..][k] == x;
      assert es[k + 1] == x;
    }
  }

  lemma {:induction false} InsertInOrder(e: Entry, es: seq<Entry>)
    requires InOrder(es)
    ensures InOrder(InsertEntry(e, es))
  {
    if es == [] {
    } else if Before(e, es[0]) {
      forall j | 0 <= j < |es| ensures Before(e, es[j]) {
        if es[j] != es[0] {
          BeforeTransitive(e, es[0], es[j]);
        }
      }
    } else {
      var rest := InsertEntry(e, es[1..]);
      BeforeTotal(e, es[0]);
      InsertInOrder(e, es[1..]);
      forall j | 0 <= j < |rest| && e != es[0] ensures rest[j] == es[0] || Before(es[0], rest[j]) {
        FirstStays(e, es, rest[j]);
      }
      forall j | 0 <= j < |rest| && e == es[0] ensures rest[j] == es[0] || Before(es[0], rest[j]) {
        SameFirst(e, es, rest[j]);
      }
    }
  }

  lemma SameFirst(e: Entry, es: seq<Entry>, x: Entry)
    requires InOrder(es) && es != [] && es[0] == e && x in InsertEntry(e, es[1..])
    ensures x == e || Before(e, x)
  {
    assert x in multiset(InsertEntry(e, es[1..]));
    if x != e {
      assert x in multiset(es[1..]);
      var k :| 0 <= k < |es[1..]| && es[1..][k] == x;
      assert es[k + 1] == x;
    }
  }

  method SortEntries(es: seq<Entry>) returns (r: seq<Entry>)
    ensures InOrder(r) && multiset(r) == multiset(es)
  {
    r := [];
    for i := 0 to |es|
      invariant InOrder(r) && multiset(r) == multiset(es[..i])
    {
      InsertInOrder(es[i], r);
      assert es[..i + 1] == es[..i] + [es[i]];
      r := InsertEntry(es[i], r);
    }
    assert es[..|es|] == es;
  }

  predicate Indexes(g: seq<nat>, n: nat) {
    forall k | 0 <= k < |g| :: g[k] < n
  }

  function EntriesOf(units: seq<Unit>, g: seq<nat>): (r: seq<Entry>)
    requires Indexes(g, |units|)
    ensures |r| == |g| && forall k | 0 <= k < |g| :: r[k] == EntryOf(units[g[k]])
  {
    if g == [] then [] else [EntryOf(units[g[0]])] + EntriesOf(units, g[1..])
  }

  function NidsOf(es: seq<Entry>): set<EntityId> {
    set e | e in es :: e.nid
  }

  function PathsOf(es: seq<Entry>): set<string> {
    set e | e in es :: e.path
  }

  /** A unit outside the group, no test, that depends on a unit in it. */
  predicate DependsOn(n: Unit, nids: set<EntityId>) {
    n.nid !in nids && n.kind != "test" && exists d | d in n.deps :: d in nids
  }

  function Dependents(nodes: seq<Unit>, nids: set<EntityId>): set<nat> {
    set k: nat | k < |nodes| && DependsOn(nodes[k], nids)
  }

  lemma DependentsSnoc(nodes: seq<Unit>, n: Unit, nids: set<EntityId>)
    ensures |Dependents(nodes + [n], nids)| == |Dependents(nodes, nids)| + if DependsOn(n, nids) then 1 else 0
  {
    var all := nodes + [n];
    assert forall k: nat | k < |nodes| :: all[k] == nodes[k];
    assert Dependents(all, nids) == Dependents(nodes, nids) + if DependsOn(n, nids) then {|nodes|} else {};
  }

  method CountDependents(nodes: seq<Unit>, nids: set<EntityId>) returns (count: nat)
    ensures count == |Dependents(nodes, nids)|
  {
    count := 0;
    for i := 0 to |nodes|
      invariant count == |Dependents(nodes[..i], nids)|
    {
      DependentsSnoc(nodes[..i], nodes[i], nids);
      assert nodes[..i + 1] == nodes[..i] + [nodes[i]];
      if DependsOn(nodes[i], nids) {
        count := count + 1;
      }
    }
    assert nodes[..|nodes|] == nodes;
  }

  /** By path, then name, then entity. */
  ghost predicate ByPath(es: seq<Entry>) {
    forall i, j | 0 <= i < j < |es| ::
      var x, y := es[i], es[j];
      || Less(x.path, y.path)
      || (x.path == y.path && (Less(x.name, y.name) || (x.name == y.name && x.nid <= y.nid)))
  }

  ghost predicate Holds(group: Group, nid: EntityId) {
    exists e :: e in group.units && e.nid == nid
  }

  /** The units of other groups or none, no tests, that depend on a unit of the group. */
  ghost function Outside(group: Group, nodes: seq<Unit>): set<nat> {
    set k: nat | k < |nodes| && !Holds(group, nodes[k].nid) && nodes[k].kind != "test"
                 && exists d :: d in nodes[k].deps && Holds(group, d)
  }

  /** What is handed out for the candidates of `g`: their entries and paths in order, and the number of dependents. */
  ghost predicate Describes(group: Group, g: seq<nat>, units: seq<Unit>, nodes: seq<Unit>) {
    && Indexes(g, |units|)
    && ByPath(group.units) && multiset(group.units) == multiset(EntriesOf(units, g))
    && Rising(group.paths) && (forall p :: p in group.paths <==> exists e :: e in group.units && e.path == p)
    && group.dependents == |Outside(group, nodes)|
  }

  lemma OutsideExactly(group: Group, nodes: seq<Unit>)
    ensures Dependents(nodes, NidsOf(group.units)) == Outside(group, nodes)
  {
    forall nid ensures nid in NidsOf(group.units) <==> Holds(group, nid) {
    }
    forall k: nat | k < |nodes|
      ensures DependsOn(nodes[k], NidsOf(group.units)) <==>
              && !Holds(group, nodes[k].nid) && nodes[k].kind != "test"
              && exists d :: d in nodes[k].deps && Holds(group, d)
    {
    }
  }

  method Describe(g: seq<nat>, units: seq<Unit>, nodes: seq<Unit>) returns (group: Group)
    requires Indexes(g, |units|)
    ensures Describes(group, g, units, nodes)
  {
    var entries := SortEntries(EntriesOf(units, g));
    var paths := List(PathsOf(entries));
    var dependents := CountDependents(nodes, NidsOf(entries));
    group := Group(entries, paths, dependents);
    OutsideExactly(group, nodes);
  }

  ghost predicate AllDescribed(groups: seq<Group>, gs: seq<seq<nat>>, units: seq<Unit>, nodes: seq<Unit>) {
    |groups| == |gs| && forall b | 0 <= b < |gs| :: Describes(groups[b], gs[b], units, nodes)
  }

  lemma {:induction false} TalliedSomewhere(gs: seq<seq<nat>>, x: nat)
    ensures Tally(gs, x) > 0 <==> exists b | 0 <= b < |gs| :: x in gs[b]
  {
    if gs != [] {
      var init := gs[..|gs| - 1];
      TalliedSomewhere(init, x);
      TimesMember(gs[|gs| - 1], x);
      if b :| 0 <= b < |init| && x in init[b] {
        assert gs[b] == init[b];
      }
      if b :| 0 <= b < |gs| && x in gs[b] {
        assert b < |init| ==> init[b] == gs[b];
      }
    }
  }

  ghost predicate Handed(groups: seq<Group>, e: Entry) {
    exists b | 0 <= b < |groups| :: e in groups[b].units
  }

  lemma HandedIsUnit(groups: seq<Group>, gs: seq<seq<nat>>, units: seq<Unit>, nodes: seq<Unit>, b: nat, e: Entry)
    returns (i: nat)
    requires AllDescribed(groups, gs, units, nodes) && b < |groups| && e in groups[b].units
    ensures i < |units| && EntryOf(units[i]) == e
  {
    assert Describes(groups[b], gs[b], units, nodes);
    SameMembers(groups[b].units, EntriesOf(units, gs[b]));
    var k :| 0 <= k < |gs[b]| && EntriesOf(units, gs[b])[k] == e;
    i := gs[b][k];
  }

  lemma EntryIsListed(units: seq<Unit>, g: seq<nat>, i: nat)
    requires Indexes(g, |units|) && i in g
    ensures EntryOf(units[i]) in EntriesOf(units, g)
  {
    var k :| 0 <= k < |g| && g[k] == i;
    assert EntriesOf(units, g)[k] == EntryOf(units[i]);
  }

  lemma UnitIsHanded(groups: seq<Group>, gs: seq<seq<nat>>, units: seq<Unit>, nodes: seq<Unit>, i: nat)
    requires AllDescribed(groups, gs, units, nodes) && EachOnce(gs, |units|) && i < |units|
    ensures Handed(groups, EntryOf(units[i]))
  {
    TalliedSomewhere(gs, i);
    var b :| 0 <= b < |gs| && i in gs[b];
    assert Describes(groups[b], gs[b], units, nodes);
    EntryIsListed(units, gs[b], i);
    SameMembers(groups[b].units, EntriesOf(units, gs[b]));
  }

  lemma HandedExactly(groups: seq<Group>, gs: seq<seq<nat>>, units: seq<Unit>, nodes: seq<Unit>, e: Entry)
    requires AllDescribed(groups, gs, units, nodes) && EachOnce(gs, |units|)
    ensures Handed(groups, e) <==> exists i | 0 <= i < |units| :: EntryOf(units[i]) == e
  {
    if b :| 0 <= b < |groups| && e in groups[b].units {
      var i := HandedIsUnit(groups, gs, units, nodes, b, e);
    }
    if i :| 0 <= i < |units| && EntryOf(units[i]) == e {
      UnitIsHanded(groups, gs, units, nodes, i);
    }
  }

  /** The entry of a unit under one of the paths, of a kind that stands alone, and named by an identifier. */
  ghost predicate Wanted(nodes: seq<Unit>, paths: seq<string>, isIdent: string -> bool, e: Entry) {
    exists u :: u in nodes && HandsOut(u, paths, isIdent) && e == Entry(u.path, u.name, u.nid)
  }

  ghost predicate HandsOut(u: Unit, paths: seq<string>, isIdent: string -> bool) {
    && (exists p :: p in paths && Globs.Matches(p, u.path))
    && u.kind !in {"import", "chunk", "test", "test.skipped", "module", "variant", "field", "impl"}
    && isIdent(u.name)
  }

  lemma HandsOutExactly(u: Unit, paths: seq<string>, isIdent: string -> bool)
    ensures HandsOut(u, paths, isIdent) <==> Eligible(u, paths, isIdent)
  {
    if p :| p in paths && Globs.Matches(p, u.path) {
      var i :| 0 <= i < |paths| && paths[i] == p;
      assert Globs.Matches(paths[i], u.path);
    }
  }

  /**
   Partition the units under the paths: the groups describe a balanced spread of the
   candidates' components, and list exactly the candidates.
   */
  method PartitionWork(nodes: seq<Unit>, paths: seq<string>, agents: nat, isIdent: string -> bool)
    returns (groups: seq<Group>)
    ensures forall e :: Handed(groups, e) <==> Wanted(nodes, paths, isIdent, e)
    ensures exists gs, comps ::
      PartitionOf(gs, Selected(nodes, paths, isIdent), agents, comps)
      && AllDescribed(groups, gs, Selected(nodes, paths, isIdent), nodes)
  {
    var units := Select(nodes, paths, isIdent);
    var gs := Partition.Partition(units, agents);
    groups := DescribeAll(gs, units, nodes);
    forall e ensures Handed(groups, e) <==> Wanted(nodes, paths, isIdent, e) {
      HandedExactly(groups, gs, units, nodes, e);
      SelectedExactly(nodes, paths, isIdent, e);
    }
  }

  lemma WantedIsSelected(nodes: seq<Unit>, paths: seq<string>, isIdent: string -> bool, e: Entry) returns (i: nat)
    requires Wanted(nodes, paths, isIdent, e)
    ensures i < |Selected(nodes, paths, isIdent)| && EntryOf(Selected(nodes, paths, isIdent)[i]) == e
  {
    var u :| u in nodes && HandsOut(u, paths, isIdent) && EntryOf(u) == e;
    HandsOutExactly(u, paths, isIdent);
    assert u in Selected(nodes, paths, isIdent);
    i :| 0 <= i < |Selected(nodes, paths, isIdent)| && Selected(nodes, paths, isIdent)[i] == u;
  }

  lemma SelectedIsWanted(nodes: seq<Unit>, paths: seq<string>, isIdent: string -> bool, i: nat)
    requires i < |Selected(nodes, paths, isIdent)|
    ensures Wanted(nodes, paths, isIdent, EntryOf(Selected(nodes, paths, isIdent)[i]))
  {
    assert Selected(nodes, paths, isIdent)[i] in Selected(nodes, paths, isIdent);
    HandsOutExactly(Selected(nodes, paths, isIdent)[i], paths, isIdent);
  }

  lemma SelectedExactly(nodes: seq<Unit>, paths: seq<string>, isIdent: string -> bool, e: Entry)
    ensures var units := Selected(nodes, paths, isIdent);
            Wanted(nodes, paths, isIdent, e) <==> exists i | 0 <= i < |units| :: EntryOf(units[i]) == e
  {
    var units := Selected(nodes, paths, isIdent);
    if Wanted(nodes, paths, isIdent, e) {
      var i := WantedIsSelected(nodes, paths, isIdent, e);
      assert EntryOf(units[i]) == e;
    }
    if i :| 0 <= i < |units| && EntryOf(units[i]) == e {
      SelectedIsWanted(nodes, paths, isIdent, i);
    }
  }

  method DescribeAll(gs: seq<seq<nat>>, units: seq<Unit>, nodes: seq<Unit>) returns (groups: seq<Group>)
    requires EachOnce(gs, |units|)
    ensures AllDescribed(groups, gs, units, nodes)
  {
    groups := [];
    for b := 0 to |gs|
      invariant |groups| == b && forall a | 0 <= a < b :: Describes(groups[a], gs[a], units, nodes)
    {
      forall k | 0 <= k < |gs[b]| ensures gs[b][k] < |units| {
        TalliedSomewhere(gs, gs[b][k]);
      }
      var group := Describe(gs[b], units, nodes);
      groups := groups + [group];
    }
  }
}
