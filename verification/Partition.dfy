/**
 Partitioning work: the units under some paths, joined by dependency edges into
 components, spread over at most as many groups as there are agents.
 */
module Partition {
  import opened Options
  import opened Ids
  import opened Values
  import opened Order
  import opened UnionFind
  import opened Balance
  import Globs

  datatype Unit = Unit(nid: EntityId, kind: string, path: string, name: string, deps: seq<EntityId>)

  const NOT_UNITS := ["import", "chunk", "test", "test.skipped", "module", "variant", "field", "impl"]

  /** A unit to hand out: under the paths, of a kind that stands alone, and named by an identifier. */
  predicate Eligible(u: Unit, paths: seq<string>, isIdent: string -> bool) {
    && Globs.AnyMatch(paths, u.path)
    && u.kind !in NOT_UNITS
    && isIdent(u.name)
  }

  /** The last unit of an entity; a map filled in order keeps it. */
  function LastIndex(units: seq<Unit>, nid: EntityId): (r: Option<nat>)
    ensures r.Some? ==> r.value < |units|
  {
    if units == [] then None
    else if units[|units| - 1].nid == nid then Some(|units| - 1)
    else LastIndex(units[..|units| - 1], nid)
  }

  function EdgeFor(units: seq<Unit>, i: nat, d: EntityId): Edges {
    match LastIndex(units, d)
    case Some(j) => [(i, j)]
    case None => []
  }

  /** The edges of the first `i` units and of the first `k` dependencies of the next. */
  function EdgesTo(units: seq<Unit>, i: nat, k: nat): Edges
    requires i <= |units| && (k > 0 ==> i < |units| && k <= |units[i].deps|)
    decreases i, k
  {
    if k > 0 then EdgesTo(units, i, k - 1) + EdgeFor(units, i, units[i].deps[k - 1])
    else if i > 0 then EdgesTo(units, i - 1, |units[i - 1].deps|)
    else []
  }

  /** Every dependency between two of the units. */
  function AllEdges(units: seq<Unit>): Edges {
    EdgesTo(units, |units|, 0)
  }

  lemma {:induction false} EdgesFound(units: seq<Unit>, i: nat, k: nat, x: nat, j: nat)
    requires i <= |units| && (k > 0 ==> i < |units| && k <= |units[i].deps|)
    ensures (x, j) in EdgesTo(units, i, k) <==>
            exists d | 0 <= d < (if x < i then |units[x].deps| else if x == i then k else 0) ::
              LastIndex(units, units[x].deps[d]) == Some(j)
    decreases i, k
  {
    if k > 0 {
      EdgesFound(units, i, k - 1, x, j);
    } else if i > 0 {
      EdgesFound(units, i - 1, |units[i - 1].deps|, x, j);
    }
  }

  /** The last of the units with that entity. */
  ghost predicate LastUnit(units: seq<Unit>, nid: EntityId, j: nat) {
    j < |units| && units[j].nid == nid && forall k | j < k < |units| :: units[k].nid != nid
  }

  lemma {:induction false} LastIndexExactly(units: seq<Unit>, nid: EntityId, j: nat)
    ensures LastIndex(units, nid) == Some(j) <==> LastUnit(units, nid, j)
  {
    if units != [] && units[|units| - 1].nid != nid {
      LastIndexExactly(units[..|units| - 1], nid, j);
    }
  }

  /** There is an edge for each dependency on an entity among the units, to the last unit that has it, and no other. */
  lemma {:induction false} EdgesExactly(units: seq<Unit>, x: nat, j: nat)
    ensures (x, j) in AllEdges(units) <==> x < |units| && exists d :: d in units[x].deps && LastUnit(units, d, j)
  {
    EdgesFound(units, |units|, 0, x, j);
    forall d ensures LastIndex(units, d) == Some(j) <==> LastUnit(units, d, j) {
      LastIndexExactly(units, d, j);
    }
    if x < |units| {
      if d :| d in units[x].deps && LastUnit(units, d, j) {
        var n :| 0 <= n < |units[x].deps| && units[x].deps[n] == d;
      }
    }
  }

  /** Units are joined by a dependency of one on the other, in either direction. */
  lemma {:induction false} DependencyJoins(units: seq<Unit>, i: nat, d: EntityId, j: nat)
    requires i < |units| && d in units[i].deps && LastUnit(units, d, j)
    ensures Joined(AllEdges(units), i, j) && Joined(AllEdges(units), j, i)
  {
    EdgesExactly(units, i, j);
    var e :| 0 <= e < |AllEdges(units)| && AllEdges(units)[e] == (i, j);
    EdgesJoin(AllEdges(units), e);
    JoinedSymmetric(AllEdges(units), i, j);
  }

  /** The candidates, in the order of the index. */
  function Selected(nodes: seq<Unit>, paths: seq<string>, isIdent: string -> bool): (units: seq<Unit>)
    ensures forall u :: u in units <==> u in nodes && Eligible(u, paths, isIdent)
  {
    if nodes == [] then []
    else
      var last := nodes[|nodes| - 1];
      Selected(nodes[..|nodes| - 1], paths, isIdent) + if Eligible(last, paths, isIdent) then [last] else []
  }

  method Select(nodes: seq<Unit>, paths: seq<string>, isIdent: string -> bool) returns (units: seq<Unit>)
    ensures units == Selected(nodes, paths, isIdent)
  {
    units := [];
    for i := 0 to |nodes|
      invariant units == Selected(nodes[..i], paths, isIdent)
    {
      assert nodes[..i + 1][..i] == nodes[..i];
      if Eligible(nodes[i], paths, isIdent) {
        units := units + [nodes[i]];
      }
    }
    assert nodes[..|nodes|] == nodes;
  }

  method IndexUnits(units: seq<Unit>) returns (index: map<EntityId, nat>)
    ensures forall nid :: At(index, nid) == LastIndex(units, nid)
  {
    index := map[];
    for i := 0 to |units|
      invariant forall nid :: At(index, nid) == LastIndex(units[..i], nid)
    {
      assert units[..i + 1][..i] == units[..i];
      index := index[units[i].nid := i];
    }
    assert units[..|units|] == units;
  }

  /** Union-find over the dependency edges. */
  method Join(units: seq<Unit>) returns (p: array<nat>, ghost rank: seq<nat>)
    ensures fresh(p) && p.Length == |units| && Tracks(p[..], rank, AllEdges(units))
  {
    var index := IndexUnits(units);
    p := new nat[|units|](i => i);
    rank := seq(|units|, _ => 0);
    TracksOwn(p[..], rank);
    for i := 0 to |units|
      invariant Tracks(p[..], rank, EdgesTo(units, i, 0))
    {
      rank := JoinDeps(units, index, p, i, rank);
    }
  }

  method JoinDeps(units: seq<Unit>, index: map<EntityId, nat>, p: array<nat>, i: nat, ghost before: seq<nat>)
    returns (ghost rank: seq<nat>)
    requires i < |units| == p.Length && Tracks(p[..], before, EdgesTo(units, i, 0))
    requires forall nid :: At(index, nid) == LastIndex(units, nid)
    modifies p
    ensures Tracks(p[..], rank, EdgesTo(units, i + 1, 0))
  {
    rank := before;
    for k := 0 to |units[i].deps|
      invariant Tracks(p[..], rank, EdgesTo(units, i, k))
    {
      var d := units[i].deps[k];
      assert At(index, d) == LastIndex(units, d);
      if d in index {
        rank := Link(p, i, index[d], rank, EdgesTo(units, i, k));
      } else {
        assert EdgesTo(units, i, k) + [] == EdgesTo(units, i, k);
      }
    }
  }

  // ------------------------------------------------------------------ components

  function Times(s: seq<nat>, x: nat): nat {
    if s == [] then 0 else Times(s[..|s| - 1], x) + if s[|s| - 1] == x then 1 else 0
  }

  lemma TimesSnoc(s: seq<nat>, last: nat, x: nat)
    ensures Times(s + [last], x) == Times(s, x) + if last == x then 1 else 0
  {
    assert (s + [last])[..|s|] == s;
  }

  lemma {:induction false} TimesConcat(a: seq<nat>, b: seq<nat>, x: nat)
    ensures Times(a + b, x) == Times(a, x) + Times(b, x)
    decreases |b|
  {
    if b == [] {
      assert a + b == a;
    } else {
      var init, last := b[..|b| - 1], b[|b| - 1];
      TimesConcat(a, init, x);
      TimesSnoc(a + init, last, x);
      assert a + b == (a + init) + [last];
    }
  }

  lemma {:induction false} TimesMember(s: seq<nat>, x: nat)
    ensures Times(s, x) > 0 <==> x in s
  {
    if s != [] {
      TimesMember(s[..|s| - 1], x);
      assert s == s[..|s| - 1] + [s[|s| - 1]];
    }
  }

  /** How often an item occurs over all groups. */
  function Tally(groups: seq<seq<nat>>, x: nat): nat {
    if groups == [] then 0
    else Tally(groups[..|groups| - 1], x) + Times(groups[|groups| - 1], x)
  }

  /** Each of the first `n` items is in exactly one group, once, and nothing else is in any. */
  ghost predicate EachOnce(groups: seq<seq<nat>>, n: nat) {
    forall x: nat :: Tally(groups, x) == if x < n then 1 else 0
  }

  /** The items among the first `k` whose root is `r`, in order. */
  ghost function Class(p: seq<nat>, rank: seq<nat>, r: nat, k: nat): seq<nat>
    requires Forest(p, rank) && k <= |p|
  {
    if k == 0 then []
    else Class(p, rank, r, k - 1) + if RootOf(p, rank, k - 1) == r then [k - 1] else []
  }

  lemma {:induction false} ClassHolds(p: seq<nat>, rank: seq<nat>, r: nat, k: nat, x: nat)
    requires Forest(p, rank) && k <= |p|
    ensures Times(Class(p, rank, r, k), x) == if x < k && RootOf(p, rank, x) == r then 1 else 0
  {
    if k > 0 {
      ClassHolds(p, rank, r, k - 1, x);
      ClassStep(p, rank, r, k - 1, x);
    }
  }

  lemma ClassStep(p: seq<nat>, rank: seq<nat>, r: nat, k: nat, x: nat)
    requires Forest(p, rank) && k < |p|
    ensures Times(Class(p, rank, r, k + 1), x) ==
            Times(Class(p, rank, r, k), x) + if x == k && RootOf(p, rank, k) == r then 1 else 0
  {
    var before := Class(p, rank, r, k);
    if RootOf(p, rank, k) == r {
      assert Class(p, rank, r, k + 1) == before + [k];
      TimesSnoc(before, k, x);
    } else {
      assert Class(p, rank, r, k + 1) == before;
    }
  }

  lemma {:induction false} ClassRises(p: seq<nat>, rank: seq<nat>, r: nat, k: nat)
    requires Forest(p, rank) && k <= |p|
    ensures Rises(Class(p, rank, r, k)) && forall a | a in Class(p, rank, r, k) :: a < k
  {
    if k > 0 {
      ClassRises(p, rank, r, k - 1);
      var init := Class(p, rank, r, k - 1);
      forall i | 0 <= i < |init| ensures init[i] < k - 1 {
        assert init[i] in init;
      }
    }
  }

  lemma {:induction false} ClassSame(p: seq<nat>, q: seq<nat>, rank: seq<nat>, r: nat, k: nat)
    requires SameRoots(p, q, rank) && |p| == |q| && k <= |p|
    ensures Class(p, rank, r, k) == Class(q, rank, r, k)
  {
    if k > 0 {
      ClassSame(p, q, rank, r, k - 1);
    }
  }

  /** The classes of the first `k` items, by root. */
  ghost predicate Classes(p: seq<nat>, rank: seq<nat>, byRoot: map<nat, seq<nat>>, k: nat)
    requires Forest(p, rank) && k <= |p|
  {
    forall r: nat :: if r in byRoot then byRoot[r] == Class(p, rank, r, k) != [] else Class(p, rank, r, k) == []
  }

  lemma ClassesSame(p: seq<nat>, q: seq<nat>, rank: seq<nat>, byRoot: map<nat, seq<nat>>, k: nat)
    requires SameRoots(p, q, rank) && |p| == |q| && k <= |p| && Classes(p, rank, byRoot, k)
    ensures Classes(q, rank, byRoot, k)
  {
    forall r: nat ensures Class(p, rank, r, k) == Class(q, rank, r, k) {
      ClassSame(p, q, rank, r, k);
    }
  }

  function Appended(byRoot: map<nat, seq<nat>>, r: nat, i: nat): map<nat, seq<nat>> {
    byRoot[r := (if r in byRoot then byRoot[r] else []) + [i]]
  }

  method ByRoot(p: array<nat>, ghost rank: seq<nat>) returns (byRoot: map<nat, seq<nat>>)
    requires Forest(p[..], rank)
    modifies p
    ensures SameRoots(old(p[..]), p[..], rank) && Classes(p[..], rank, byRoot, p.Length)
  {
    byRoot := map[];
    for i := 0 to p.Length
      invariant SameRoots(old(p[..]), p[..], rank) && Classes(p[..], rank, byRoot, i)
    {
      ghost var before := p[..];
      byRoot := Place(p, rank, byRoot, i);
    }
  }

  method Place(p: array<nat>, ghost rank: seq<nat>, byRoot: map<nat, seq<nat>>, i: nat) returns (next: map<nat,
               seq<nat>>)
    requires Forest(p[..], rank) && i < p.Length && Classes(p[..], rank, byRoot, i)
    modifies p
    ensures SameRoots(old(p[..]), p[..], rank) && Classes(p[..], rank, next, i + 1)
  {
    var r := Find(p, i, rank);
    ClassesSame(old(p[..]), p[..], rank, byRoot, i);
    next := Appended(byRoot, r, i);
  }

  /** A component: not empty, in order, and holding with each item everything joined to it. */
  ghost predicate Whole(c: seq<nat>, edges: Edges, n: nat) {
    && c != [] && Rises(c) && (forall a | a in c :: a < n)
    && forall a: nat, b: nat | a in c && b < n :: b in c <==> Joined(edges, a, b)
  }

  /** The connected components of the edges, each once. */
  ghost predicate AreComponents(comps: seq<seq<nat>>, edges: Edges, n: nat) {
    EachOnce(comps, n) && forall c | c in comps :: Whole(c, edges, n)
  }

  lemma ClassWhole(p: seq<nat>, rank: seq<nat>, edges: Edges, r: nat)
    requires Tracks(p, rank, edges) && Class(p, rank, r, |p|) != []
    ensures Whole(Class(p, rank, r, |p|), edges, |p|)
  {
    var c := Class(p, rank, r, |p|);
    ClassRises(p, rank, r, |p|);
    forall a: nat ensures a in c <==> a < |p| && RootOf(p, rank, a) == r {
      ClassHolds(p, rank, r, |p|, a);
      TimesMember(c, a);
    }
  }

  /** The components drawn so far: those whose roots are no longer left. */
  ghost predicate Drawn(p: seq<nat>, rank: seq<nat>, edges: Edges, roots: set<nat>, left: set<nat>,
                        comps: seq<seq<nat>>)
    requires Forest(p, rank)
  {
    && left <= roots && (forall c | c in comps :: Whole(c, edges, |p|))
    && forall x: nat :: Tally(comps, x) == if x < |p| && RootOf(p, rank, x) in roots - left then 1 else 0
  }

  lemma DrawStep(p: seq<nat>, rank: seq<nat>, edges: Edges, roots: set<nat>, left: set<nat>, comps: seq<seq<nat>>,
                 r: nat)
    requires Tracks(p, rank, edges) && Drawn(p, rank, edges, roots, left, comps) && r in left
    requires Class(p, rank, r, |p|) != []
    ensures Drawn(p, rank, edges, roots, left - {r}, comps + [Class(p, rank, r, |p|)])
  {
    var c := Class(p, rank, r, |p|);
    ClassWhole(p, rank, edges, r);
    forall x: nat
      ensures Tally(comps + [c], x) == if x < |p| && RootOf(p, rank, x) in roots - (left - {r}) then 1 else 0
    {
      ClassHolds(p, rank, r, |p|, x);
    }
  }

  lemma DrawnAll(p: seq<nat>, rank: seq<nat>, edges: Edges, byRoot: map<nat, seq<nat>>, comps: seq<seq<nat>>)
    requires Forest(p, rank) && Classes(p, rank, byRoot, |p|) && Drawn(p, rank, edges, byRoot.Keys, {}, comps)
    ensures AreComponents(comps, edges, |p|)
  {
    forall x: nat ensures Tally(comps, x) == if x < |p| then 1 else 0 {
      if x < |p| {
        ClassHolds(p, rank, RootOf(p, rank, x), |p|, x);
      }
    }
  }

  /** The classes in whatever order the map gives them. */
  method Components(byRoot: map<nat, seq<nat>>, ghost p: seq<nat>, ghost rank: seq<nat>, ghost edges: Edges)
    returns (comps: seq<seq<nat>>)
    requires Tracks(p, rank, edges) && Classes(p, rank, byRoot, |p|)
    ensures AreComponents(comps, edges, |p|)
  {
    comps := [];
    var left := byRoot.Keys;
    while left != {}
      invariant Drawn(p, rank, edges, byRoot.Keys, left, comps)
      decreases left
    {
      var r :| r in left;
      DrawStep(p, rank, edges, byRoot.Keys, left, comps, r);
      comps := comps + [byRoot[r]];
      left := left - {r};
    }
    DrawnAll(p, rank, edges, byRoot, comps);
  }

  // -------------------------------------------------------------------- spreading

  function Sizes(comps: seq<seq<nat>>): (r: seq<nat>)
    ensures |r| == |comps| && forall i | 0 <= i < |r| :: r[i] == |comps[i]|
  {
    seq(|comps|, i requires 0 <= i < |comps| => |comps[i]|)
  }

  predicate OfUnits(units: seq<Unit>, c: seq<nat>) {
    c != [] && forall i | i in c :: i < |units|
  }

  /** Larger first, then by the first unit's path and name. */
  predicate Ahead(units: seq<Unit>, a: seq<nat>, b: seq<nat>)
    requires OfUnits(units, a) && OfUnits(units, b)
  {
    assert a[0] in a && b[0] in b;
    || |a| > |b|
    || (|a| == |b| && (Less(units[a[0]].path, units[b[0]].path)
                      || (units[a[0]].path == units[b[0]].path && Less(units[a[0]].name, units[b[0]].name))))
  }

  predicate Proper(units: seq<Unit>, comps: seq<seq<nat>>) {
    forall c | c in comps :: OfUnits(units, c)
  }

  lemma ProperTail(units: seq<Unit>, comps: seq<seq<nat>>)
    requires Proper(units, comps) && comps != []
    ensures OfUnits(units, comps[0]) && Proper(units, comps[1..])
  {
    assert comps == [comps[0]] + comps[1..];
    assert comps[0] in comps;
  }

  /** A component put before the first it is ahead of. */
  function Inserted(units: seq<Unit>, c: seq<nat>, comps: seq<seq<nat>>): (r: seq<seq<nat>>)
    requires OfUnits(units, c) && Proper(units, comps)
    ensures forall x :: x in r <==> x == c || x in comps
    ensures |r| == |comps| + 1
  {
    if comps == [] then [c]
    else
      ProperTail(units, comps);
      assert comps == [comps[0]] + comps[1..];
      if Ahead(units, c, comps[0]) then [c] + comps
      else [comps[0]] + Inserted(units, c, comps[1..])
  }

  lemma {:induction false} InsertedTally(units: seq<Unit>, c: seq<nat>, comps: seq<seq<nat>>, x: nat)
    requires OfUnits(units, c) && Proper(units, comps)
    ensures Tally(Inserted(units, c, comps), x) == Tally(comps, x) + Times(c, x)
  {
    if comps == [] {
      TallyCons(c, [], x);
      assert [c] + [] == [c];
    } else {
      ProperTail(units, comps);
      var first, rest := comps[0], comps[1..];
      assert comps == [first] + rest;
      if Ahead(units, c, first) {
        TallyCons(c, comps, x);
      } else {
        InsertedTally(units, c, rest, x);
        InsertedLater(units, c, comps);
        TallyCons(first, Inserted(units, c, rest), x);
        TallyCons(first, rest, x);
      }
    }
  }

  lemma InsertedLater(units: seq<Unit>, c: seq<nat>, comps: seq<seq<nat>>)
    requires OfUnits(units, c) && Proper(units, comps) && comps != [] && !Ahead(units, c, comps[0])
    ensures Proper(units, comps[1..]) && Inserted(units, c, comps) == [comps[0]] + Inserted(units, c, comps[1..])
  {
    ProperTail(units, comps);
  }

  lemma {:induction false} TallyCons(g: seq<nat>, groups: seq<seq<nat>>, x: nat)
    ensures Tally([g] + groups, x) == Times(g, x) + Tally(groups, x)
    decreases |groups|
  {
    if groups == [] {
      assert [g] + groups == [] + [g];
    } else {
      var init, last := groups[..|groups| - 1], groups[|groups| - 1];
      TallyCons(g, init, x);
      assert [g] + groups == ([g] + init) + [last];
    }
  }

  /** `a` may stand before `b`: it is larger, or as large and its first unit no later by path and name. */
  predicate NotBehind(units: seq<Unit>, a: seq<nat>, b: seq<nat>) {
    && OfUnits(units, a) && OfUnits(units, b) && |a| >= |b|
    && (assert a[0] in a && b[0] in b;
        var x, y := units[a[0]], units[b[0]];
        |a| == |b| ==> Less(x.path, y.path) || (x.path == y.path && (Less(x.name, y.name) || x.name == y.name)))
  }

  ghost predicate InTurn(units: seq<Unit>, comps: seq<seq<nat>>) {
    forall i, j | 0 <= i < j < |comps| :: NotBehind(units, comps[i], comps[j])
  }

  lemma AheadOrBehind(units: seq<Unit>, a: seq<nat>, b: seq<nat>)
    requires OfUnits(units, a) && OfUnits(units, b)
    ensures if Ahead(units, a, b) then NotBehind(units, a, b) else NotBehind(units, b, a)
  {
    assert a[0] in a && b[0] in b;
    LessTotal(units[a[0]].path, units[b[0]].path);
    LessTotal(units[a[0]].name, units[b[0]].name);
  }

  lemma NotBehindTransitive(units: seq<Unit>, a: seq<nat>, b: seq<nat>, c: seq<nat>)
    requires NotBehind(units, a, b) && NotBehind(units, b, c)
    ensures NotBehind(units, a, c)
  {
    assert a[0] in a && b[0] in b && c[0] in c;
    var x, y, z := units[a[0]], units[b[0]], units[c[0]];
    if Less(x.path, y.path) && Less(y.path, z.path) {
      LessTransitive(x.path, y.path, z.path);
    }
    if Less(x.name, y.name) && Less(y.name, z.name) {
      LessTransitive(x.name, y.name, z.name);
    }
  }

  lemma {:induction false} InsertedInTurn(units: seq<Unit>, c: seq<nat>, comps: seq<seq<nat>>)
    requires OfUnits(units, c) && Proper(units, comps) && InTurn(units, comps)
    ensures InTurn(units, Inserted(units, c, comps))
  {
    if comps != [] {
      ProperTail(units, comps);
      AheadOrBehind(units, c, comps[0]);
      if Ahead(units, c, comps[0]) {
        forall j | 0 <= j < |comps| ensures NotBehind(units, c, comps[j]) {
          if j > 0 {
            NotBehindTransitive(units, c, comps[0], comps[j]);
          }
        }
      } else {
        InsertedInTurn(units, c, comps[1..]);
        var rest := Inserted(units, c, comps[1..]);
        forall j | 0 <= j < |rest| ensures NotBehind(units, comps[0], rest[j]) {
          assert rest[j] in rest;
          if rest[j] != c {
            var i :| 0 <= i < |comps[1..]| && comps[1..][i] == rest[j];
            assert comps[i + 1] == rest[j];
          }
        }
      }
    }
  }

  lemma InTurnDescends(units: seq<Unit>, comps: seq<seq<nat>>)
    requires InTurn(units, comps)
    ensures Descending(Sizes(comps))
  {
    forall i, j | 0 <= i < j < |comps| ensures |comps[i]| >= |comps[j]| {
      assert NotBehind(units, comps[i], comps[j]);
    }
  }

  method SortComponents(units: seq<Unit>, comps: seq<seq<nat>>, ghost edges: Edges) returns (sorted: seq<seq<nat>>)
    requires AreComponents(comps, edges, |units|)
    ensures AreComponents(sorted, edges, |units|) && InTurn(units, sorted) && |sorted| == |comps|
  {
    sorted := [];
    for i := 0 to |comps|
      invariant InTurn(units, sorted) && |sorted| == i && forall c | c in sorted :: Whole(c, edges, |units|)
      invariant forall x: nat :: Tally(sorted, x) == Tally(comps[..i], x)
    {
      assert comps[i] in comps && comps[..i + 1] == comps[..i] + [comps[i]];
      InsertedInTurn(units, comps[i], sorted);
      forall x: nat ensures Tally(Inserted(units, comps[i], sorted), x) == Tally(comps[..i + 1], x) {
        InsertedTally(units, comps[i], sorted, x);
      }
      sorted := Inserted(units, comps[i], sorted);
    }
    assert comps[..|comps|] == comps;
  }

  /** The components among the first `k` that went to group `b`, end to end. */
  function Gathered(comps: seq<seq<nat>>, to: seq<nat>, k: nat, b: nat): seq<nat>
    requires k <= |comps| && k <= |to|
  {
    if k == 0 then [] else Gathered(comps, to, k - 1, b) + if to[k - 1] == b then comps[k - 1] else []
  }

  lemma {:induction false} GatheredLoad(comps: seq<seq<nat>>, to: seq<nat>, k: nat, b: nat)
    requires k <= |comps| && k <= |to|
    ensures |Gathered(comps, to, k, b)| == Load(Sizes(comps), to, k, b)
  {
    if k > 0 {
      GatheredLoad(comps, to, k - 1, b);
    }
  }

  method Lightest(groups: seq<seq<nat>>) returns (i: nat)
    requires groups != []
    ensures i < |groups| && forall b | 0 <= b < |groups| :: |groups[i]| <= |groups[b]|
    ensures forall b | 0 <= b < i :: |groups[i]| < |groups[b]|
  {
    i := 0;
    for b := 1 to |groups|
      invariant i < b && forall c | 0 <= c < b :: |groups[i]| <= |groups[c]|
      invariant forall c | 0 <= c < i :: |groups[i]| < |groups[c]|
    {
      if |groups[b]| < |groups[i]| {
        i := b;
      }
    }
  }

  ghost predicate Holding(groups: seq<seq<nat>>, comps: seq<seq<nat>>, to: seq<nat>, k: nat, m: nat)
    requires k <= |comps| && k <= |to|
  {
    |groups| == m && forall b: nat | b < m :: groups[b] == Gathered(comps, to, k, b)
  }

  /** Among the first `k`, a group of a lower number than the one taken would have been heavier. */
  ghost predicate FirstOnTie(w: seq<nat>, to: seq<nat>, k: nat)
    requires k <= |w| && k <= |to|
  {
    forall i: nat | i < k :: FirstLightest(w, to, i)
  }

  ghost predicate FirstLightest(w: seq<nat>, to: seq<nat>, i: nat)
    requires i < |w| && i < |to|
  {
    forall b: nat | b < to[i] :: Load(w, to, i, b) > Load(w, to, i, to[i])
  }

  /** The groups are what the components make, each added to the lightest group, the first of them on a tie. */
  ghost predicate GreedilyHolds(groups: seq<seq<nat>>, comps: seq<seq<nat>>, m: nat) {
    exists to: seq<nat> ::
      Greedy(Sizes(comps), to, m) && FirstOnTie(Sizes(comps), to, |comps|) && Holding(groups, comps, to, |comps|, m)
  }

  /** Each component to the lightest group, the first of them on a tie. */
  method Spread(comps: seq<seq<nat>>, m: nat) returns (groups: seq<seq<nat>>)
    requires m > 0
    ensures GreedilyHolds(groups, comps, m)
  {
    groups := seq(m, _ => []);
    ghost var to: seq<nat> := [];
    for k := 0 to |comps|
      invariant |to| == k && Holding(groups, comps, to, k, m)
      invariant GreedyTo(Sizes(comps), to, m, k)
    {
      var i := Lightest(groups);
      GreedyStep(groups, comps, to, m, k, i);
      groups := groups[i := groups[i] + comps[k]];
      to := to + [i];
    }
  }

  ghost predicate GreedyTo(w: seq<nat>, to: seq<nat>, m: nat, k: nat) {
    && |to| == k <= |w| && (forall i | 0 <= i < k :: to[i] < m)
    && (forall i | 0 <= i < k :: ToLightest(w, to, m, i)) && FirstOnTie(w, to, k)
  }

  lemma {:induction false} GatheredPrefix(comps: seq<seq<nat>>, to: seq<nat>, more: seq<nat>, k: nat, b: nat)
    requires k <= |comps| && k <= |to|
    ensures Gathered(comps, to + more, k, b) == Gathered(comps, to, k, b)
    ensures Load(Sizes(comps), to + more, k, b) == Load(Sizes(comps), to, k, b)
  {
    if k > 0 {
      GatheredPrefix(comps, to, more, k - 1, b);
    }
  }

  lemma GreedyStep(groups: seq<seq<nat>>, comps: seq<seq<nat>>, to: seq<nat>, m: nat, k: nat, i: nat)
    requires k < |comps| && |to| == k && Holding(groups, comps, to, k, m) && GreedyTo(Sizes(comps), to, m, k)
    requires i < m && forall b | 0 <= b < m :: |groups[i]| <= |groups[b]|
    requires forall b | 0 <= b < i :: |groups[i]| < |groups[b]|
    ensures Holding(groups[i := groups[i] + comps[k]], comps, to + [i], k + 1, m)
    ensures GreedyTo(Sizes(comps), to + [i], m, k + 1)
  {
    var w, next := Sizes(comps), to + [i];
    forall b: nat | b < m ensures Load(w, next, k, b) == |groups[b]| && Gathered(comps, next, k, b) == groups[b] {
      GatheredPrefix(comps, to, [i], k, b);
      GatheredLoad(comps, to, k, b);
    }
    forall j | 0 <= j < k + 1 ensures ToLightest(w, next, m, j) {
      if j < k {
        assert ToLightest(w, to, m, j);
        forall b: nat ensures Load(w, next, j, b) == Load(w, to, j, b) {
          GatheredPrefix(comps, to, [i], j, b);
        }
      }
    }
    forall j: nat | j < k + 1 ensures FirstLightest(w, next, j) {
      if j < k {
        assert FirstLightest(w, to, j);
        forall b: nat ensures Load(w, next, j, b) == Load(w, to, j, b) {
          GatheredPrefix(comps, to, [i], j, b);
        }
      }
    }
  }

  // ------------------------------------------------------------------ what it gives

  /** How often item `x` is in each component. */
  function Shares(comps: seq<seq<nat>>, x: nat): (r: seq<nat>)
    ensures |r| == |comps| && forall i | 0 <= i < |r| :: r[i] == Times(comps[i], x)
  {
    seq(|comps|, i requires 0 <= i < |comps| => Times(comps[i], x))
  }

  lemma {:induction false} GatheredShare(comps: seq<seq<nat>>, to: seq<nat>, k: nat, b: nat, x: nat)
    requires k <= |comps| && k <= |to|
    ensures Times(Gathered(comps, to, k, b), x) == Load(Shares(comps, x), to, k, b)
  {
    if k > 0 {
      GatheredShare(comps, to, k - 1, b, x);
      TimesConcat(Gathered(comps, to, k - 1, b), comps[k - 1], x);
      assert Gathered(comps, to, k - 1, b) + [] == Gathered(comps, to, k - 1, b);
    }
  }

  lemma {:induction false} TallyTotal(comps: seq<seq<nat>>, k: nat, x: nat)
    requires k <= |comps|
    ensures Tally(comps[..k], x) == Total(Shares(comps, x), k)
  {
    if k > 0 {
      TallyTotal(comps, k - 1, x);
      assert comps[..k][..k - 1] == comps[..k - 1];
    }
  }

  lemma TallyTake(groups: seq<seq<nat>>, b: nat, x: nat)
    requires b < |groups|
    ensures Tally(groups[..b + 1], x) == Tally(groups[..b], x) + Times(groups[b], x)
  {
    assert groups[..b + 1][..b] == groups[..b];
  }

  lemma {:induction false} TallyLoads(groups: seq<seq<nat>>, comps: seq<seq<nat>>, to: seq<nat>, m: nat, b: nat, x: nat)
    requires |to| == |comps| && Holding(groups, comps, to, |comps|, m) && b <= m
    ensures Tally(groups[..b], x) == Loads(Shares(comps, x), to, |comps|, b)
  {
    if b > 0 {
      var c: nat := b - 1;
      TallyLoads(groups, comps, to, m, c, x);
      TallyTake(groups, c, x);
      assert groups[c] == Gathered(comps, to, |comps|, c);
      GatheredShare(comps, to, |comps|, c, x);
    } else {
      assert groups[..0] == [];
    }
  }

  /** Spreading loses no item and repeats none. */
  lemma {:induction false} SpreadTally(groups: seq<seq<nat>>, comps: seq<seq<nat>>, to: seq<nat>, m: nat, x: nat)
    requires Assigns(to, |comps|, m) && Holding(groups, comps, to, |comps|, m)
    ensures Tally(groups, x) == Tally(comps, x)
  {
    TallyLoads(groups, comps, to, m, m, x);
    TallyTotal(comps, |comps|, x);
    LoadsTotal(Shares(comps, x), to, |comps|, m);
    assert groups[..m] == groups && comps[..|comps|] == comps;
  }

  lemma {:induction false} GatheredWhole(comps: seq<seq<nat>>, to: seq<nat>, k: nat, b: nat, edges: Edges, n: nat,
                                         i: nat, j: nat)
    requires k <= |comps| && k <= |to| && (forall c | c in comps :: Whole(c, edges, n))
    requires i in Gathered(comps, to, k, b) && j < n && Joined(edges, i, j)
    ensures j in Gathered(comps, to, k, b)
  {
    if i in Gathered(comps, to, k - 1, b) {
      GatheredWhole(comps, to, k - 1, b, edges, n, i, j);
    } else {
      assert comps[k - 1] in comps;
    }
  }

  // No group stays empty while there are as many components as groups.

  function Ones(n: nat): (r: seq<nat>)
    ensures |r| == n && forall i | 0 <= i < n :: r[i] == 1
  {
    seq(n, _ => 1)
  }

  lemma {:induction false} OneEach(w: seq<nat>, to: seq<nat>, m: nat, k: nat, a: nat, b: nat)
    requires Greedy(w, to, m) && (forall i | 0 <= i < |w| :: w[i] > 0) && k <= |w| && a < m && b < m
    requires Load(w, to, k, b) == 0
    ensures Load(Ones(|w|), to, k, a) <= 1
    ensures (Load(Ones(|w|), to, k, a) == 0 <==> Load(w, to, k, a) == 0)
  {
    if k > 0 {
      LoadGrows(w, to, k - 1, k, b);
      OneEach(w, to, m, k - 1, a, b);
      assert ToLightest(w, to, m, k - 1);
    }
  }

  lemma {:induction false} LoadsBelow(w: seq<nat>, to: seq<nat>, k: nat, m: nat, b: nat)
    requires k <= |w| && k <= |to| && AllAtMost(w, to, k, m, 1) && b < m && Load(w, to, k, b) == 0
    ensures Loads(w, to, k, m) < m
  {
    if b == m - 1 {
      LoadsAtMost(w, to, k, m - 1, 1);
    } else {
      LoadsBelow(w, to, k, m - 1, b);
    }
  }

  lemma {:induction false} TotalOnes(n: nat, k: nat)
    requires k <= n
    ensures Total(Ones(n), k) == k
  {
    if k > 0 {
      TotalOnes(n, k - 1);
    }
  }

  lemma {:induction false} NoneEmpty(w: seq<nat>, to: seq<nat>, m: nat, b: nat)
    requires Greedy(w, to, m) && (forall i | 0 <= i < |w| :: w[i] > 0) && b < m <= |w|
    ensures Load(w, to, |w|, b) > 0
  {
    if Load(w, to, |w|, b) == 0 {
      forall a: nat | a < m ensures Load(Ones(|w|), to, |w|, a) <= 1 {
        OneEach(w, to, m, |w|, a, b);
      }
      OneEach(w, to, m, |w|, b, b);
      LoadsBelow(Ones(|w|), to, |w|, m, b);
      LoadsTotal(Ones(|w|), to, |w|, m);
      TotalOnes(|w|, |w|);
    }
  }

  function Min(a: nat, b: nat): nat { if a <= b then a else b }

  function Max(a: nat, b: nat): nat { if a >= b then a else b }

  /** No group is above 4/3 - 1/(3m) of what any way to keep the components whole needs. */
  ghost predicate NearBest(sizes: seq<nat>, m: nat, size: nat) {
    forall other: seq<nat>, t: nat | Within(sizes, other, m, t) :: 3 * m * size <= (4 * m - 1) * t
  }

  /** Groups of candidates: each whole component in exactly one, none empty, and balanced. */
  ghost predicate Balanced(groups: seq<seq<nat>>, comps: seq<seq<nat>>, edges: Edges, n: nat) {
    && EachOnce(groups, n)
    && (forall g | g in groups :: g != [])
    && (forall g, i: nat, j: nat | g in groups && i in g && j < n && Joined(edges, i, j) :: j in g)
    && (forall a, b, c | 0 <= a < |groups| && 0 <= b < |groups| && c in comps && Largest(c, comps) ::
          |groups[a]| <= |groups[b]| + |c|)
    && (forall g | g in groups :: NearBest(Sizes(comps), |groups|, |g|))
  }

  predicate Largest(c: seq<nat>, comps: seq<seq<nat>>) {
    forall d | d in comps :: |d| <= |c|
  }

  lemma SizesPositive(comps: seq<seq<nat>>, edges: Edges, n: nat)
    requires AreComponents(comps, edges, n)
    ensures forall i | 0 <= i < |Sizes(comps)| :: Sizes(comps)[i] > 0
  {
    forall i | 0 <= i < |Sizes(comps)| ensures Sizes(comps)[i] > 0 {
      assert comps[i] in comps;
    }
  }

  lemma SpreadFull(groups: seq<seq<nat>>, comps: seq<seq<nat>>, to: seq<nat>, m: nat, edges: Edges, n: nat)
    requires AreComponents(comps, edges, n) && Greedy(Sizes(comps), to, m) && m <= |comps|
    requires Holding(groups, comps, to, |comps|, m)
    ensures forall b | 0 <= b < m :: groups[b] != []
  {
    SizesPositive(comps, edges, n);
    forall b: nat | b < m ensures groups[b] != [] {
      NoneEmpty(Sizes(comps), to, m, b);
      GatheredLoad(comps, to, |comps|, b);
    }
  }

  lemma SpreadKeepsWhole(groups: seq<seq<nat>>, comps: seq<seq<nat>>, to: seq<nat>, m: nat, edges: Edges, n: nat,
                         b: nat, i: nat, j: nat)
    requires AreComponents(comps, edges, n) && |to| == |comps| && Holding(groups, comps, to, |comps|, m)
    requires b < m && i in groups[b] && j < n && Joined(edges, i, j)
    ensures j in groups[b]
  {
    GatheredWhole(comps, to, |comps|, b, edges, n, i, j);
  }

  lemma SpreadClose(groups: seq<seq<nat>>, comps: seq<seq<nat>>, to: seq<nat>, m: nat, a: nat, b: nat, c: seq<nat>)
    requires Greedy(Sizes(comps), to, m) && Holding(groups, comps, to, |comps|, m) && a < m && b < m
    requires c in comps && Largest(c, comps)
    ensures |groups[a]| <= |groups[b]| + |c|
  {
    forall i | 0 <= i < |Sizes(comps)| ensures Sizes(comps)[i] <= |c| {
      assert comps[i] in comps;
    }
    LoadsClose(Sizes(comps), to, m, |comps|, |c|, a, b);
    GatheredLoad(comps, to, |comps|, a);
    GatheredLoad(comps, to, |comps|, b);
  }

  lemma SpreadNearBest(groups: seq<seq<nat>>, comps: seq<seq<nat>>, to: seq<nat>, m: nat, a: nat)
    requires Descending(Sizes(comps)) && Greedy(Sizes(comps), to, m) && Holding(groups, comps, to, |comps|, m) && a < m
    ensures NearBest(Sizes(comps), m, |groups[a]|)
  {
    GatheredLoad(comps, to, |comps|, a);
    forall other: seq<nat>, t: nat | Within(Sizes(comps), other, m, t)
      ensures 3 * m * |groups[a]| <= (4 * m - 1) * t
    {
      GreedyNearBest(Sizes(comps), to, m, a, other, t);
    }
  }

  lemma {:induction false} SpreadBalanced(groups: seq<seq<nat>>, comps: seq<seq<nat>>, to: seq<nat>, m: nat,
                                          edges: Edges, n: nat)
    requires AreComponents(comps, edges, n) && Descending(Sizes(comps)) && Greedy(Sizes(comps), to, m) && m <= |comps|
    requires Holding(groups, comps, to, |comps|, m)
    ensures Balanced(groups, comps, edges, n)
  {
    forall x: nat ensures Tally(groups, x) == if x < n then 1 else 0 {
      SpreadTally(groups, comps, to, m, x);
    }
    SpreadFull(groups, comps, to, m, edges, n);
    forall g, i: nat, j: nat | g in groups && i in g && j < n && Joined(edges, i, j) ensures j in g {
      var b :| 0 <= b < m && groups[b] == g;
      SpreadKeepsWhole(groups, comps, to, m, edges, n, b, i, j);
    }
    forall a, b, c | 0 <= a < m && 0 <= b < m && c in comps && Largest(c, comps)
      ensures |groups[a]| <= |groups[b]| + |c|
    {
      SpreadClose(groups, comps, to, m, a, b, c);
    }
    forall g | g in groups ensures NearBest(Sizes(comps), m, |g|) {
      var a :| 0 <= a < m && groups[a] == g;
      SpreadNearBest(groups, comps, to, m, a);
    }
  }

  method Occupied(groups: seq<seq<nat>>) returns (r: seq<seq<nat>>)
    ensures (forall b | 0 <= b < |groups| :: groups[b] != []) ==> r == groups
    ensures (forall b | 0 <= b < |groups| :: groups[b] == []) ==> r == []
  {
    r := [];
    for i := 0 to |groups|
      invariant (forall b | 0 <= b < i :: groups[b] != []) ==> r == groups[..i]
      invariant (forall b | 0 <= b < i :: groups[b] == []) ==> r == []
    {
      if groups[i] != [] {
        r := r + [groups[i]];
      }
    }
  }

  /**
   The groups are a balanced spread of the components of the dependencies, as many as
   there are agents for them: dealt in turn, largest first, each to the lightest group.
   */
  ghost predicate PartitionOf(groups: seq<seq<nat>>, units: seq<Unit>, agents: nat, comps: seq<seq<nat>>) {
    && AreComponents(comps, AllEdges(units), |units|) && InTurn(units, comps)
    && |groups| == (if agents == 0 && comps != [] then 1 else if agents < |comps| then agents else |comps|)
    && GreedilyHolds(groups, comps, |groups|)
    && Balanced(groups, comps, AllEdges(units), |units|)
  }

  /**
   Partition the candidates among at most `agents` groups, as indices into the
   candidates: exactly min(agents, components) groups, at least one agent.
   */
  method Partition(units: seq<Unit>, agents: nat) returns (groups: seq<seq<nat>>)
    ensures EachOnce(groups, |units|)
    ensures exists comps :: PartitionOf(groups, units, agents, comps)
  {
    var comps := ComponentsOf(units);
    var buckets := Min(Max(agents, 1), Max(|comps|, 1));
    groups := Spread(comps, buckets);
    ghost var to :| Greedy(Sizes(comps), to, buckets) && FirstOnTie(Sizes(comps), to, |comps|)
                    && Holding(groups, comps, to, |comps|, buckets);
    InTurnDescends(units, comps);
    if comps == [] {
      assert Greedy(Sizes(comps), [], 0) && FirstOnTie(Sizes(comps), [], 0) && Holding([], comps, [], 0, 0);
    } else {
      SpreadFull(groups, comps, to, buckets, AllEdges(units), |units|);
      SpreadBalanced(groups, comps, to, buckets, AllEdges(units), |units|);
    }
    groups := Occupied(groups);
    assert PartitionOf(groups, units, agents, comps);
  }

  method ComponentsOf(units: seq<Unit>) returns (comps: seq<seq<nat>>)
    ensures AreComponents(comps, AllEdges(units), |units|) && InTurn(units, comps)
  {
    var p, rank := Join(units);
    ghost var before := p[..];
    var byRoot := ByRoot(p, rank);
    comps := Components(byRoot, p[..], rank, AllEdges(units));
    comps := SortComponents(units, comps, AllEdges(units));
  }
}
