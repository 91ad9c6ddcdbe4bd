/**
 What merging the views of several ops gives, said of ancestry alone: the op with
 the highest ID is merged last, over the view of the latest op all of them descend
 from.
 */
module ForkLaws {
  import opened Ids
  import opened Values
  import opened Views
  import opened World
  import opened MergeRules
  import opened History

  // ----------------------------------------------------------------- ancestors

  ghost predicate HasParent(w: World, h: seq<Op>, d: Oid, p: Oid) {
    exists op :: op in h && w.opId(op) == d && p in op.parents
  }

  /** From `d` parent by parent up to `a`. */
  ghost predicate Climbs(w: World, h: seq<Op>, way: seq<Oid>, d: Oid, a: Oid) {
    && way != [] && way[0] == d && way[|way| - 1] == a
    && forall i | 0 <= i < |way| - 1 :: HasParent(w, h, way[i], way[i + 1])
  }

  lemma {:induction false} WayUp(w: World, h: seq<Op>, d: Oid, a: Oid) returns (way: seq<Oid>)
    requires Shaped(w, h) && a in AncestorsOf(Anc(w, h), d)
    ensures Climbs(w, h, way, d, a)
  {
    AncestorsAccepted(w, h, d, a);
    var init, op := Unsnoc(w, h);
    if d != w.opId(op) {
      OldEntries(w, init, op, d);
      way := WayUp(w, init, d, a);
    } else if a == d {
      way := [d];
    } else {
      NewAncestors(w, init, op);
      var p :| p in ParentSet(op) && a in AncestorsOf(Anc(w, init), p);
      var rest := WayUp(w, init, p, a);
      way := [d] + rest;
      assert op in h && HasParent(w, h, d, p);
      forall i | 0 < i < |way| - 1 ensures HasParent(w, init, way[i], way[i + 1]) {
        assert HasParent(w, init, rest[i - 1], rest[i - 1 + 1]);
      }
    }
    forall i | 0 <= i < |way| - 1 && HasParent(w, init, way[i], way[i + 1])
      ensures HasParent(w, h, way[i], way[i + 1])
    {
      var o :| o in init && w.opId(o) == way[i] && way[i + 1] in o.parents;
      assert o in h;
    }
  }

  lemma LastParentIsAncestor(w: World, h: seq<Op>, op: Op, p: Oid)
    requires Closed(w, h) && Joins(w, h, op) && p in op.parents
    ensures p in AncestorsOf(Anc(w, h + [op]), w.opId(op))
  {
    NewAncestors(w, h, op);
    assert p in ParentSet(op) && p in AncestorsOf(Anc(w, h), p);
  }

  lemma {:induction false} ParentIsAncestor(w: World, h: seq<Op>, op: Op, p: Oid)
    requires Shaped(w, h) && op in h && p in op.parents
    ensures p in AncestorsOf(Anc(w, h), w.opId(op))
  {
    var init, last := Unsnoc(w, h);
    if op in init {
      ParentIsAncestor(w, init, op, p);
      OldEntries(w, init, last, w.opId(op));
    } else {
      ShapedClosed(w, init);
      LastParentIsAncestor(w, init, last, p);
    }
  }

  lemma {:induction false} UpTheWay(w: World, h: seq<Op>, way: seq<Oid>, d: Oid, a: Oid)
    requires Shaped(w, h) && d in OpIds(w, h) && Climbs(w, h, way, d, a)
    ensures a in AncestorsOf(Anc(w, h), d)
    decreases |way|
  {
    ShapedClosed(w, h);
    if |way| > 1 {
      var p, rest := way[1], way[1..];
      assert HasParent(w, h, way[0], way[0 + 1]);
      var op :| op in h && w.opId(op) == d && p in op.parents;
      ParentIsAncestor(w, h, op, p);
      AncestorsAccepted(w, h, d, p);
      forall i | 0 <= i < |rest| - 1 ensures HasParent(w, h, rest[i], rest[i + 1]) {
        assert HasParent(w, h, way[i + 1], way[i + 1 + 1]);
      }
      UpTheWay(w, h, rest, p, a);
      AncTransitive(w, h, d, p, a);
    }
  }

  /** An op's ancestors are the op itself and what lies on a way up through parents. */
  lemma AncestorsExactly(w: World, h: seq<Op>, d: Oid, a: Oid)
    requires Shaped(w, h) && d in OpIds(w, h)
    ensures a in AncestorsOf(Anc(w, h), d) <==> exists way :: Climbs(w, h, way, d, a)
  {
    if a in AncestorsOf(Anc(w, h), d) {
      var way := WayUp(w, h, d, a);
    }
    if way :| Climbs(w, h, way, d, a) {
      UpTheWay(w, h, way, d, a);
    }
  }

  // -------------------------------------------------------------- merged views

  ghost predicate AboveAll(anc: Ancestry, ops: set<Oid>, c: Oid) {
    forall o | o in ops :: c in AncestorsOf(anc, o)
  }

  /** Above all of `ops`, and above no other op that is. */
  ghost predicate LatestAbove(anc: Ancestry, ops: set<Oid>, l: Oid) {
    AboveAll(anc, ops, l) && forall c | AboveAll(anc, ops, c) && c != l :: l !in AncestorsOf(anc, c)
  }

  /** Of several such, the one with the lowest ID. */
  ghost predicate IsBase(anc: Ancestry, ops: set<Oid>, l: Oid) {
    LatestAbove(anc, ops, l) && forall m | LatestAbove(anc, ops, m) :: l <= m
  }

  predicate IsGreatest(ops: set<Oid>, hi: Oid) {
    hi in ops && forall o | o in ops :: o <= hi
  }

  /** `v` merges the views of `ops`: the last into what the others give, by the rules, over the view of their base. */
  ghost predicate Merges(anc: Ancestry, views: ViewTable, ops: set<Oid>, v: View)
    decreases |ops|
  {
    if ops == {} then HoldsNothing(v)
    else
      exists hi: Oid ::
        IsGreatest(ops, hi) && if ops == {hi} then v == ViewOf(views, hi) else MergesLast(anc, views, ops, hi, v)
  }

  ghost predicate MergesLast(anc: Ancestry, views: ViewTable, ops: set<Oid>, hi: Oid, v: View)
    requires hi in ops
    decreases |ops|, 0
  {
    exists before, l: Oid :: Merges(anc, views, ops - {hi}, before) && MergesOver(anc, views, ops, hi, l, before, v)
  }

  ghost predicate MergesOver(anc: Ancestry, views: ViewTable, ops: set<Oid>, hi: Oid, l: Oid, before: View, v: View) {
    IsBase(anc, ops, l) && MergeRuled(ViewOf(views, l), before, ViewOf(views, hi), v)
  }

  // ------------------------------------------------------------------ the base

  lemma BaseIsLca(anc: Ancestry, views: ViewTable, ops: set<Oid>, l: Oid)
    requires ops != {} && IsBase(anc, ops, l)
    ensures BaseView(anc, views, ops) == ViewOf(views, l)
  {
    forall c ensures c in Common(anc, ops) <==> AboveAll(anc, ops, c) {
      var o :| o in ops;
    }
    forall c ensures c in Latest(anc, ops) <==> LatestAbove(anc, ops, c) {
    }
    var first := Ascending(Latest(anc, ops))[0];
    assert first in Latest(anc, ops);
  }

  lemma {:induction false} BaseExists(w: World, h: seq<Op>, ops: set<Oid>) returns (l: Oid)
    requires Shaped(w, h) && ops != {} && ops <= OpIds(w, h)
    ensures IsBase(Anc(w, h), ops, l)
  {
    var anc := Anc(w, h);
    LcaExists(w, h, ops);
    l := Lca(anc, ops).value;
    forall c ensures c in Common(anc, ops) <==> AboveAll(anc, ops, c) {
      var o :| o in ops;
    }
    forall c ensures c in Latest(anc, ops) <==> LatestAbove(anc, ops, c) {
    }
    assert l in Latest(anc, ops);
  }

  /** An op that every common ancestor lies above, or is, is the base. */
  lemma MeetIsBase(anc: Ancestry, ops: set<Oid>, l: Oid)
    requires AboveAll(anc, ops, l) && forall c | AboveAll(anc, ops, c) :: c in AncestorsOf(anc, l)
    requires forall c | l in AncestorsOf(anc, c) && c in AncestorsOf(anc, l) :: c == l
    ensures IsBase(anc, ops, l)
  {
    forall m | LatestAbove(anc, ops, m) ensures m == l {
      assert m in AncestorsOf(anc, l);
    }
  }

  // ------------------------------------------------------------------ the fold

  lemma {:induction false} FoldSnoc(anc: Ancestry, views: ViewTable, acc: View, folded: set<Oid>, rest: seq<Oid>,
                                    last: Oid)
    ensures Fold(anc, views, acc, folded, rest + [last]) ==
            Merge(BaseView(anc, views, folded + Members(rest) + {last}), Fold(anc, views, acc, folded, rest),
                  ViewOf(views, last))
    decreases |rest|
  {
    if rest == [] {
      assert folded + Members(rest) + {last} == folded + {last};
      assert (rest + [last])[1..] == [];
    } else {
      assert (rest + [last])[1..] == rest[1..] + [last];
      var merged := Merge(BaseView(anc, views, folded + {rest[0]}), acc, ViewOf(views, rest[0]));
      FoldSnoc(anc, views, merged, folded + {rest[0]}, rest[1..], last);
      RestStep(folded, rest);
    }
  }

  lemma AscendingLast(ops: set<Oid>, hi: Oid)
    requires IsGreatest(ops, hi)
    ensures Ascending(ops) == Ascending(ops - {hi}) + [hi]
  {
    var init := Ascending(ops - {hi});
    forall o ensures o in Ascending(ops) <==> o in init + [hi] {
    }
    forall i, j | 0 <= i < j < |init + [hi]| ensures (init + [hi])[i] < (init + [hi])[j] {
      assert init[i] in init;
    }
    RisesOnce(Ascending(ops), init + [hi]);
  }

  lemma {:induction false} MergedOne(anc: Ancestry, views: ViewTable, id: Oid)
    ensures Merged(anc, views, {id}) == ViewOf(views, id)
  {
    AscendingLast({id}, id);
    assert {id} - {id} == {};
  }

  lemma MergedFolds(anc: Ancestry, views: ViewTable, ops: set<Oid>, first: Oid, rest: seq<Oid>)
    requires Ascending(ops) == [first] + rest
    ensures Merged(anc, views, ops) == Fold(anc, views, ViewOf(views, first), {first}, rest)
  {
    assert ([first] + rest)[1..] == rest;
  }

  lemma Parts(init: seq<Oid>, ops: set<Oid>, hi: Oid)
    requires init != [] && hi in ops && forall o :: o in init <==> o in ops && o != hi
    ensures init == [init[0]] + init[1..] && init + [hi] == [init[0]] + (init[1..] + [hi])
    ensures {init[0]} + Members(init[1..]) + {hi} == ops
  {
    assert init == [init[0]] + init[1..];
    forall o ensures o in {init[0]} + Members(init[1..]) + {hi} <==> o in ops {
      assert o in init <==> o == init[0] || o in init[1..];
    }
  }

  lemma Listing(ops: set<Oid>, hi: Oid) returns (first: Oid, rest: seq<Oid>)
    requires IsGreatest(ops, hi) && ops != {hi}
    ensures Ascending(ops - {hi}) == [first] + rest && Ascending(ops) == [first] + (rest + [hi])
    ensures {first} + Members(rest) + {hi} == ops
  {
    var init := Ascending(ops - {hi});
    AscendingLast(ops, hi);
    var o :| o in ops && o != hi;
    assert o in init;
    Parts(init, ops, hi);
    first, rest := init[0], init[1..];
  }

  lemma {:induction false} MergedPieces(anc: Ancestry, views: ViewTable, ops: set<Oid>, hi: Oid)
    returns (first: Oid, rest: seq<Oid>)
    requires IsGreatest(ops, hi) && ops != {hi}
    ensures {first} + Members(rest) + {hi} == ops
    ensures Merged(anc, views, ops - {hi}) == Fold(anc, views, ViewOf(views, first), {first}, rest)
    ensures Merged(anc, views, ops) == Fold(anc, views, ViewOf(views, first), {first}, rest + [hi])
  {
    first, rest := Listing(ops, hi);
    MergedFolds(anc, views, ops - {hi}, first, rest);
    MergedFolds(anc, views, ops, first, rest + [hi]);
  }

  lemma {:induction false} FoldRuled(anc: Ancestry, views: ViewTable, first: Oid, rest: seq<Oid>, hi: Oid, l: Oid,
                                     before: View, after: View)
    requires IsBase(anc, {first} + Members(rest) + {hi}, l)
    requires before == Fold(anc, views, ViewOf(views, first), {first}, rest)
    requires after == Fold(anc, views, ViewOf(views, first), {first}, rest + [hi])
    ensures MergeRuled(ViewOf(views, l), before, ViewOf(views, hi), after)
  {
    FoldSnoc(anc, views, ViewOf(views, first), {first}, rest, hi);
    BaseIsLca(anc, views, {first} + Members(rest) + {hi}, l);
    MergeFollows(ViewOf(views, l), before, ViewOf(views, hi));
  }

  /** The last op's view is merged into what the others give, over the view of the base of all. */
  lemma LastFollows(anc: Ancestry, views: ViewTable, ops: set<Oid>, hi: Oid, l: Oid)
    requires IsGreatest(ops, hi) && ops != {hi} && IsBase(anc, ops, l)
    ensures MergeRuled(ViewOf(views, l), Merged(anc, views, ops - {hi}), ViewOf(views, hi), Merged(anc, views, ops))
  {
    var first, rest := MergedPieces(anc, views, ops, hi);
    FoldRuled(anc, views, first, rest, hi, l, Merged(anc, views, ops - {hi}), Merged(anc, views, ops));
  }

  lemma {:induction false} GreatestExists(ops: set<Oid>) returns (hi: Oid)
    requires ops != {}
    ensures IsGreatest(ops, hi)
  {
    var sorted := Ascending(ops);
    var o :| o in ops;
    assert o in sorted;
    hi := sorted[|sorted| - 1];
    assert hi in sorted;
  }

  /** One view merges the views of some accepted ops: the merged view. */
  lemma {:induction false} MergedExactly(w: World, h: seq<Op>, ops: set<Oid>, v: View)
    requires Shaped(w, h) && ops <= OpIds(w, h)
    ensures Merges(Anc(w, h), Replay(w, h), ops, v) <==> v == Merged(Anc(w, h), Replay(w, h), ops)
    decreases |ops|
  {
    var anc, views := Anc(w, h), Replay(w, h);
    if ops != {} {
      var hi := GreatestExists(ops);
      if ops == {hi} {
        MergedOne(anc, views, hi);
      } else {
        var x := Merged(anc, views, ops - {hi});
        forall before ensures Merges(anc, views, ops - {hi}, before) <==> before == x {
          MergedExactly(w, h, ops - {hi}, before);
        }
        var l := BaseExists(w, h, ops);
        LastFollows(anc, views, ops, hi, l);
        LastExactly(anc, views, ops, hi, l, x, Merged(anc, views, ops), v);
      }
      assert forall x | IsGreatest(ops, x) :: x == hi;
    }
  }

  lemma LastExactly(anc: Ancestry, views: ViewTable, ops: set<Oid>, hi: Oid, l: Oid, x: View, made: View, v: View)
    requires hi in ops && IsBase(anc, ops, l) && MergeRuled(ViewOf(views, l), x, ViewOf(views, hi), made)
    requires forall before :: Merges(anc, views, ops - {hi}, before) <==> before == x
    ensures MergesLast(anc, views, ops, hi, v) <==> v == made
  {
    if MergesLast(anc, views, ops, hi, v) {
      var before, m: Oid :| Merges(anc, views, ops - {hi}, before) && MergesOver(anc, views, ops, hi, m, before, v);
      MergeDecided(ViewOf(views, l), x, ViewOf(views, hi), v, made);
    }
    if v == made {
      assert Merges(anc, views, ops - {hi}, x) && MergesOver(anc, views, ops, hi, l, x, v);
    }
  }

  // -------------------------------------------------------------------- a fork

  /** Both ways: where one side left a key of `base` alone, `r` has what the other side has. */
  ghost predicate TakesOther<K(!new)>(base: map<K, TrieValue>, a: map<K, TrieValue>, b: map<K, TrieValue>,
                                      r: map<K, TrieValue>) {
    forall k {:trigger At(r, k)} ::
      && (At(a, k) == At(base, k) ==> At(r, k) == At(b, k))
      && (At(b, k) == At(base, k) ==> At(r, k) == At(a, k))
  }

  ghost predicate ForkTakesOther(base: View, a: View, b: View, r: View) {
    && TakesOther(base.entities, a.entities, b.entities, r.entities)
    && TakesOther(base.claims, a.claims, b.claims, r.claims)
    && TakesOther(base.proposed, a.proposed, b.proposed, r.proposed)
    && TakesOther(base.caps, a.caps, b.caps, r.caps)
  }

  lemma MapTakesOther<K(!new)>(policy: MergePolicy, base: map<K, TrieValue>, a: map<K, TrieValue>,
                               b: map<K, TrieValue>, r: map<K, TrieValue>)
    requires MapRuled(policy, base, a, b, r)
    ensures TakesOther(base, a, b, r) && TakesOther(base, b, a, r)
  {}

  lemma RulesTakeOther(base: View, a: View, b: View, r: View)
    requires MergeRuled(base, a, b, r)
    ensures ForkTakesOther(base, a, b, r) && ForkTakesOther(base, b, a, r)
  {
    MapTakesOther(Pointers, base.entities, a.entities, b.entities, r.entities);
    MapTakesOther(Pointers, base.claims, a.claims, b.claims, r.claims);
    MapTakesOther(SetPolicy, base.proposed, a.proposed, b.proposed, r.proposed);
    MapTakesOther(SetPolicy, base.caps, a.caps, b.caps, r.caps);
  }

  lemma {:induction false} ForkMerges(anc: Ancestry, views: ViewTable, lo: Oid, hi: Oid, l: Oid)
    requires lo < hi && IsBase(anc, {lo, hi}, l)
    ensures MergeRuled(ViewOf(views, l), ViewOf(views, lo), ViewOf(views, hi), Merged(anc, views, {lo, hi}))
  {
    assert IsGreatest({lo, hi}, hi) && {lo, hi} - {hi} == {lo};
    LastFollows(anc, views, {lo, hi}, hi, l);
    MergedOne(anc, views, lo);
  }

  /** What one branch of a fork left as it was at the base, the merged view has as the other branch has it. */
  lemma {:induction false} ForkFollows(anc: Ancestry, views: ViewTable, x: Oid, y: Oid, l: Oid)
    requires x != y && IsBase(anc, {x, y}, l)
    ensures ForkTakesOther(ViewOf(views, l), ViewOf(views, x), ViewOf(views, y), Merged(anc, views, {x, y}))
  {
    var lo, hi := if x < y then x else y, if x < y then y else x;
    assert {lo, hi} == {x, y};
    ForkMerges(anc, views, lo, hi, l);
    RulesTakeOther(ViewOf(views, l), ViewOf(views, lo), ViewOf(views, hi), Merged(anc, views, {x, y}));
  }

  /** What `a` removed and `b` left as it was at the base is not in `r`. */
  ghost predicate Dropped<K(!new)>(base: map<K, TrieValue>, a: map<K, TrieValue>, b: map<K, TrieValue>,
                                   r: map<K, TrieValue>) {
    forall k | k in base && k !in a && k in b && b[k] == base[k] :: k !in r
  }

  lemma OtherDrops<K(!new)>(base: map<K, TrieValue>, a: map<K, TrieValue>, b: map<K, TrieValue>, r: map<K, TrieValue>)
    requires TakesOther(base, a, b, r)
    ensures Dropped(base, a, b, r)
  {
    forall k | k in base && k !in a && k in b && b[k] == base[k] ensures k !in r {
      assert At(r, k) == At(a, k);
    }
  }

  /** Hence what one branch removed and the other left alone is gone: no claim or capability comes back. */
  lemma {:induction false} WithdrawnStays(anc: Ancestry, views: ViewTable, x: Oid, y: Oid, l: Oid)
    requires x != y && IsBase(anc, {x, y}, l)
    ensures var base, a, b, r := ViewOf(views, l), ViewOf(views, x), ViewOf(views, y), Merged(anc, views, {x, y});
            && Dropped(base.entities, a.entities, b.entities, r.entities)
            && Dropped(base.claims, a.claims, b.claims, r.claims)
            && Dropped(base.proposed, a.proposed, b.proposed, r.proposed)
            && Dropped(base.caps, a.caps, b.caps, r.caps)
  {
    var base, a, b, r := ViewOf(views, l), ViewOf(views, x), ViewOf(views, y), Merged(anc, views, {x, y});
    ForkFollows(anc, views, x, y, l);
    OtherDrops(base.entities, a.entities, b.entities, r.entities);
    OtherDrops(base.claims, a.claims, b.claims, r.claims);
    OtherDrops(base.proposed, a.proposed, b.proposed, r.proposed);
    OtherDrops(base.caps, a.caps, b.caps, r.caps);
  }

  lemma OtherAlone(a: View, b: View, r: View)
    requires ForkTakesOther(a, a, b, r)
    ensures r.entities == b.entities && r.claims == b.claims && r.proposed == b.proposed && r.caps == b.caps
  {
    SameMap(r.entities, b.entities);
    SameMap(r.claims, b.claims);
    SameMap(r.proposed, b.proposed);
    SameMap(r.caps, b.caps);
  }

  lemma {:induction false} AncestorIsBase(w: World, h: seq<Op>, x: Oid, y: Oid)
    requires Shaped(w, h) && x in AncestorsOf(Anc(w, h), y)
    ensures IsBase(Anc(w, h), {x, y}, x)
  {
    AncestorsAccepted(w, h, y, x);
    ShapedClosed(w, h);
    forall c | x in AncestorsOf(Anc(w, h), c) && c in AncestorsOf(Anc(w, h), x) ensures c == x {
      AncAcyclic(w, h, x, c);
    }
    MeetIsBase(Anc(w, h), {x, y}, x);
  }

  /** Merging an op with one it descends from keeps its own pointers, claims, proposals and capabilities. */
  lemma {:induction false} DescendantWins(w: World, h: seq<Op>, x: Oid, y: Oid)
    requires Shaped(w, h) && x in AncestorsOf(Anc(w, h), y)
    ensures var r, v := Merged(Anc(w, h), Replay(w, h), {x, y}), ViewOf(Replay(w, h), y);
            r.entities == v.entities && r.claims == v.claims && r.proposed == v.proposed && r.caps == v.caps
  {
    AncestorIsBase(w, h, x, y);
    BaseWins(Anc(w, h), Replay(w, h), x, y);
  }

  lemma {:induction false} BaseWins(anc: Ancestry, views: ViewTable, x: Oid, y: Oid)
    requires IsBase(anc, {x, y}, x)
    ensures var r, v := Merged(anc, views, {x, y}), ViewOf(views, y);
            r.entities == v.entities && r.claims == v.claims && r.proposed == v.proposed && r.caps == v.caps
  {
    if x == y {
      assert {x, y} == {y};
      MergedOne(anc, views, y);
    } else {
      ForkFollows(anc, views, x, y, x);
      OtherAlone(ViewOf(views, x), ViewOf(views, y), Merged(anc, views, {x, y}));
    }
  }
}
