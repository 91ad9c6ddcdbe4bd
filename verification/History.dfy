/**
 The op DAG as a history: accepted ops in the order they were accepted. From
 the history alone come each op's ancestors, the latest common ancestor of a
 set of ops, merged views, and the view each op produces.
 */
module History {
  import opened Options
  import opened Ids
  import opened Views
  import opened World

  type Ancestry = map<Oid, set<Oid>>
  type ViewTable = map<Oid, View>

  ghost function OpIds(w: World, h: seq<Op>): set<Oid> {
    set op | op in h :: w.opId(op)
  }

  function AncestorsOf(anc: Ancestry, id: Oid): set<Oid> {
    if id in anc then anc[id] else {}
  }

  function ViewOf(views: ViewTable, id: Oid): View {
    if id in views then views[id] else EMPTY
  }

  function ParentSet(op: Op): set<Oid> {
    Members(op.parents)
  }

  ghost function AllAncestors(anc: Ancestry, ids: set<Oid>): set<Oid> {
    set p, a | p in ids && a in AncestorsOf(anc, p) :: a
  }

  /** Every op's ancestors, itself among them. */
  ghost function Anc(w: World, h: seq<Op>): Ancestry {
    if h == [] then map[]
    else
      var init, op := h[..|h| - 1], h[|h| - 1];
      Anc(w, init)[w.opId(op) := {w.opId(op)} + AllAncestors(Anc(w, init), ParentSet(op))]
  }

  // --------------------------------------------------- latest common ancestors

  ghost function Common(anc: Ancestry, ops: set<Oid>): set<Oid> {
    set o, a | o in ops && a in AncestorsOf(anc, o) && (forall p | p in ops :: a in AncestorsOf(anc, p)) :: a
  }

  /** The common ancestors that are not proper ancestors of another one. */
  ghost function Latest(anc: Ancestry, ops: set<Oid>): set<Oid> {
    set a | a in Common(anc, ops) && forall c | c in Common(anc, ops) && c != a :: a !in AncestorsOf(anc, c)
  }

  ghost function Lca(anc: Ancestry, ops: set<Oid>): Option<Oid> {
    if Latest(anc, ops) == {} then None else Some(Ascending(Latest(anc, ops))[0])
  }

  // -------------------------------------------------------------- merged views

  ghost function BaseView(anc: Ancestry, views: ViewTable, ops: set<Oid>): View {
    var l := Lca(anc, ops);
    if l.None? then EMPTY else ViewOf(views, l.value)
  }

  /**
   Fold the remaining ops into `acc`, each against the latest common ancestor of all
   folded so far and itself.
   */
  ghost function Fold(anc: Ancestry, views: ViewTable, acc: View, folded: set<Oid>, rest: seq<Oid>): View
    decreases |rest|
  {
    if rest == [] then acc
    else
      var next := rest[0];
      var merged := Merge(BaseView(anc, views, folded + {next}), acc, ViewOf(views, next));
      Fold(anc, views, merged, folded + {next}, rest[1..])
  }

  ghost function Merged(anc: Ancestry, views: ViewTable, ops: set<Oid>): View {
    var sorted := Ascending(ops);
    if sorted == [] then EMPTY
    else Fold(anc, views, ViewOf(views, sorted[0]), {sorted[0]}, sorted[1..])
  }

  function FirstParent(op: Op): Option<Oid> {
    if op.parents == [] then None else Some(op.parents[0])
  }

  ghost function Seen(anc: Ancestry, views: ViewTable, op: Op): View {
    Merged(anc, views, ParentSet(op))
  }

  /** What an op's effects make of its parents' merged view. */
  ghost function Produced(anc: Ancestry, views: ViewTable, op: Op): Option<View> {
    Apply(Seen(anc, views, op), op.effects, FirstParent(op))
  }

  /** Every op's view, replayed from effects alone. */
  ghost function Replay(w: World, h: seq<Op>): ViewTable {
    if h == [] then map[]
    else
      var init, op := h[..|h| - 1], h[|h| - 1];
      Replay(w, init)[w.opId(op) := Produced(Anc(w, init), Replay(w, init), op).GetOr(EMPTY)]
  }

  // ------------------------------------------------------------ good histories

  /** `op` may come after `h`: new, its parents there, and without any only as the first. */
  ghost predicate Joins(w: World, h: seq<Op>, op: Op) {
    w.opId(op) !in OpIds(w, h) && (h == [] <==> op.parents == []) && ParentSet(op) <= OpIds(w, h)
  }

  /** Replaying `op` after `h` gives the view it claims. */
  ghost predicate Claims(w: World, h: seq<Op>, op: Op) {
    var v := Produced(Anc(w, h), Replay(w, h), op);
    v.Some? && w.viewId(v.value) == op.view
  }

  ghost predicate Follows(w: World, h: seq<Op>, op: Op) {
    Joins(w, h, op) && Claims(w, h, op)
  }

  /** Every op joined what came before it. */
  ghost predicate Shaped(w: World, h: seq<Op>) {
    h == [] || (Shaped(w, h[..|h| - 1]) && Joins(w, h[..|h| - 1], h[|h| - 1]))
  }

  /** Every op's claimed view is the replayed one. */
  ghost predicate Replayed(w: World, h: seq<Op>) {
    h == [] || (Replayed(w, h[..|h| - 1]) && Claims(w, h[..|h| - 1], h[|h| - 1]))
  }

  ghost predicate Good(w: World, h: seq<Op>) {
    Shaped(w, h) && Replayed(w, h)
  }

  lemma IdsSnoc(w: World, h: seq<Op>, op: Op)
    ensures OpIds(w, h + [op]) == OpIds(w, h) + {w.opId(op)}
  {
    forall x | x in OpIds(w, h) ensures x in OpIds(w, h + [op]) {
      var o :| o in h && w.opId(o) == x;
      assert o in h + [op];
    }
    assert op in h + [op];
  }

  lemma Unsnoc(w: World, h: seq<Op>) returns (init: seq<Op>, op: Op)
    requires h != []
    ensures init == h[..|h| - 1] && op == h[|h| - 1] && h == init + [op]
    ensures OpIds(w, h) == OpIds(w, init) + {w.opId(op)}
  {
    init, op := h[..|h| - 1], h[|h| - 1];
    IdsSnoc(w, init, op);
  }

  lemma AncSnoc(w: World, h: seq<Op>, op: Op)
    ensures Anc(w, h + [op]) == Anc(w, h)[w.opId(op) := {w.opId(op)} + AllAncestors(Anc(w, h), ParentSet(op))]
  {
    assert (h + [op])[..|h + [op]| - 1] == h;
  }

  lemma NewAncestors(w: World, h: seq<Op>, op: Op)
    ensures AncestorsOf(Anc(w, h + [op]), w.opId(op)) == {w.opId(op)} + AllAncestors(Anc(w, h), ParentSet(op))
  {
    AncSnoc(w, h, op);
  }

  lemma NewView(w: World, h: seq<Op>, op: Op)
    requires Follows(w, h, op)
    ensures Produced(Anc(w, h), Replay(w, h), op) == Some(ViewOf(Replay(w, h + [op]), w.opId(op)))
  {
    assert (h + [op])[..|h + [op]| - 1] == h;
  }

  /** A later op changes nothing about an earlier one. */
  lemma OldEntries(w: World, h: seq<Op>, op: Op, id: Oid)
    requires id != w.opId(op)
    ensures AncestorsOf(Anc(w, h + [op]), id) == AncestorsOf(Anc(w, h), id)
    ensures ViewOf(Replay(w, h + [op]), id) == ViewOf(Replay(w, h), id)
  {
    assert (h + [op])[..|h + [op]| - 1] == h;
  }

  /** Every op is its own ancestor, and ancestors are accepted ops. */
  ghost predicate Closed(w: World, h: seq<Op>) {
    && Anc(w, h).Keys == OpIds(w, h) == Replay(w, h).Keys
    && forall d | d in OpIds(w, h) :: d in Anc(w, h)[d] && Anc(w, h)[d] <= OpIds(w, h)
  }

  lemma {:induction false} ShapedClosed(w: World, h: seq<Op>)
    requires Shaped(w, h)
    ensures Closed(w, h)
  {
    if h != [] {
      var init, op := Unsnoc(w, h);
      ShapedClosed(w, init);
      AncSnoc(w, init, op);
    }
  }

  lemma AncestorsAccepted(w: World, h: seq<Op>, d: Oid, a: Oid)
    requires Shaped(w, h) && a in AncestorsOf(Anc(w, h), d)
    ensures a in OpIds(w, h) && d in OpIds(w, h)
  {
    ShapedClosed(w, h);
  }

  /** Ancestors of ancestors are ancestors. */
  lemma {:induction false} AncTransitive(w: World, h: seq<Op>, d: Oid, a: Oid, x: Oid)
    requires Shaped(w, h) && a in AncestorsOf(Anc(w, h), d) && x in AncestorsOf(Anc(w, h), a)
    ensures x in AncestorsOf(Anc(w, h), d)
  {
    AncestorsAccepted(w, h, d, a);
    var init, op := Unsnoc(w, h);
    if d != w.opId(op) {
      OldAncestor(w, init, op, d, a);
      AncTransitive(w, init, d, a, x);
    } else if a != d {
      NewAncestors(w, init, op);
      var p :| p in ParentSet(op) && a in AncestorsOf(Anc(w, init), p);
      OldEntries(w, init, op, a);
      AncTransitive(w, init, p, a, x);
    }
  }

  /** An earlier op's ancestors are all earlier, and unchanged. */
  lemma OldAncestor(w: World, h: seq<Op>, op: Op, d: Oid, a: Oid)
    requires Shaped(w, h) && Joins(w, h, op) && d != w.opId(op) && a in AncestorsOf(Anc(w, h + [op]), d)
    ensures a in AncestorsOf(Anc(w, h), d) && a != w.opId(op)
    ensures AncestorsOf(Anc(w, h + [op]), a) == AncestorsOf(Anc(w, h), a)
    ensures ViewOf(Replay(w, h + [op]), a) == ViewOf(Replay(w, h), a)
    ensures ViewOf(Replay(w, h + [op]), d) == ViewOf(Replay(w, h), d)
  {
    OldEntries(w, h, op, d);
    AncestorsAccepted(w, h, d, a);
    OldEntries(w, h, op, a);
  }

  /** There are no cycles. */
  lemma {:induction false} AncAcyclic(w: World, h: seq<Op>, d: Oid, a: Oid)
    requires Shaped(w, h) && a in AncestorsOf(Anc(w, h), d) && d in AncestorsOf(Anc(w, h), a)
    ensures a == d
  {
    AncestorsAccepted(w, h, d, a);
    var init, op := Unsnoc(w, h);
    if d != w.opId(op) {
      OldAncestor(w, init, op, d, a);
      AncAcyclic(w, init, d, a);
    } else if a != w.opId(op) {
      OldAncestor(w, init, op, a, d);
    }
  }

  /** The first op is an ancestor of every op. */
  lemma {:induction false} SingleRoot(w: World, h: seq<Op>, d: Oid)
    requires Shaped(w, h) && d in OpIds(w, h)
    ensures w.opId(h[0]) in AncestorsOf(Anc(w, h), d)
  {
    var init, op := Unsnoc(w, h);
    if d != w.opId(op) {
      SingleRoot(w, init, d);
      OldEntries(w, init, op, d);
    } else {
      NewAncestors(w, init, op);
      if init != [] {
        assert op.parents[0] in ParentSet(op);
        SingleRoot(w, init, op.parents[0]);
      }
    }
  }

  /** Only the first op has no parents. */
  lemma {:induction false} OnlyRoot(w: World, h: seq<Op>, i: nat)
    requires Shaped(w, h) && i < |h|
    ensures h[i].parents == [] <==> i == 0
  {
    if i < |h| - 1 {
      OnlyRoot(w, h[..|h| - 1], i);
    }
  }

  lemma RestStep(folded: set<Oid>, rest: seq<Oid>)
    requires rest != []
    ensures folded + Members(rest) == folded + {rest[0]} + Members(rest[1..])
  {
    assert rest == [rest[0]] + rest[1..];
  }

  lemma SortedListing(ops: set<Oid>)
    requires ops != {}
    ensures Ascending(ops) != []
    ensures var sorted := Ascending(ops); {sorted[0]} + Members(sorted[1..]) == ops
  {
    var sorted := Ascending(ops);
    var o :| o in ops;
    assert o in sorted;
    RestStep({}, sorted);
    assert {} + Members(sorted) == ops;
    assert {} + {sorted[0]} == {sorted[0]};
  }

  // --------------------------------------------------------- existence of LCAs

  /** A non-empty set of ops has a member that is no proper ancestor of another. */
  lemma {:induction false} MaximalExists(w: World, h: seq<Op>, xs: set<Oid>) returns (m: Oid)
    requires Shaped(w, h) && xs != {} && xs <= OpIds(w, h)
    ensures m in xs && forall c | c in xs && c != m :: m !in AncestorsOf(Anc(w, h), c)
  {
    var init, op := Unsnoc(w, h);
    if w.opId(op) in xs {
      m := w.opId(op);
      forall c | c in xs && c != m ensures m !in AncestorsOf(Anc(w, h), c) {
        if m in AncestorsOf(Anc(w, h), c) {
          OldAncestor(w, init, op, c, m);
        }
      }
    } else {
      m := MaximalExists(w, init, xs);
      forall c | c in xs ensures AncestorsOf(Anc(w, h), c) == AncestorsOf(Anc(w, init), c) {
        OldEntries(w, init, op, c);
      }
    }
  }

  /** Any accepted ops have a latest common ancestor: common to all, and below no other common one. */
  lemma {:induction false} LcaExists(w: World, h: seq<Op>, ops: set<Oid>)
    requires Shaped(w, h) && ops != {} && ops <= OpIds(w, h)
    ensures Lca(Anc(w, h), ops).Some?
    ensures var l := Lca(Anc(w, h), ops).value;
            && (forall o | o in ops :: l in AncestorsOf(Anc(w, h), o))
            && (forall c | c in Common(Anc(w, h), ops) && c != l :: l !in AncestorsOf(Anc(w, h), c))
  {
    ShapedClosed(w, h);
    var anc := Anc(w, h);
    forall o | o in ops ensures w.opId(h[0]) in AncestorsOf(anc, o) {
      SingleRoot(w, h, o);
    }
    var o :| o in ops;
    assert w.opId(h[0]) in AncestorsOf(anc, o);
    var m := MaximalExists(w, h, Common(anc, ops));
    assert m in Latest(anc, ops);
    assert Ascending(Latest(anc, ops))[0] in Latest(anc, ops);
  }

  /** Whatever a merge takes for its base is empty or a view all merged ops descend from. */
  lemma {:induction false} LcaCommon(anc: Ancestry, ops: set<Oid>)
    requires Lca(anc, ops).Some?
    ensures forall o | o in ops :: Lca(anc, ops).value in AncestorsOf(anc, o)
  {
    assert Ascending(Latest(anc, ops))[0] in Latest(anc, ops);
  }
}
