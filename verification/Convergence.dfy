/**
 Replicas agree: logs holding the same ops have the same ancestry, the same
 views, heads and current view, in whatever order the ops arrived.
 */
module Convergence {
  import opened Options
  import opened Ids
  import opened Views
  import opened World
  import opened History
  import opened Acceptance
  import opened LogTheorems

  ghost predicate AgreeAt(anc1: Ancestry, views1: ViewTable, anc2: Ancestry, views2: ViewTable, d: set<Oid>, x: Oid) {
    AncestorsOf(anc1, x) == AncestorsOf(anc2, x) <= d && ViewOf(views1, x) == ViewOf(views2, x)
  }

  /** Two tables say the same of every op in `d`, a set that holds its own ancestors. */
  ghost predicate AgreeOn(anc1: Ancestry, views1: ViewTable, anc2: Ancestry, views2: ViewTable, d: set<Oid>) {
    forall x {:trigger AgreeAt(anc1, views1, anc2, views2, d, x)} | x in d :: AgreeAt(anc1, views1, anc2, views2, d, x)
  }

  lemma {:induction false} LcaFrame(anc1: Ancestry, views1: ViewTable, anc2: Ancestry, views2: ViewTable, d: set<Oid>,
                                    ops: set<Oid>)
    requires AgreeOn(anc1, views1, anc2, views2, d) && ops <= d
    ensures BaseView(anc1, views1, ops) == BaseView(anc2, views2, ops)
  {
    forall o | o in ops ensures AncestorsOf(anc1, o) == AncestorsOf(anc2, o) <= d {
      assert AgreeAt(anc1, views1, anc2, views2, d, o);
    }
    forall c | c in Common(anc1, ops)
      ensures AncestorsOf(anc1, c) == AncestorsOf(anc2, c) && ViewOf(views1, c) == ViewOf(views2, c)
    {
      assert AgreeAt(anc1, views1, anc2, views2, d, c);
    }
    assert Latest(anc1, ops) == Latest(anc2, ops);
    if Lca(anc1, ops).Some? {
      assert Ascending(Latest(anc1, ops))[0] in Latest(anc1, ops);
    }
  }

  lemma {:induction false} FoldFrame(anc1: Ancestry, views1: ViewTable, anc2: Ancestry, views2: ViewTable, d: set<Oid>,
                                     acc: View, folded: set<Oid>, rest: seq<Oid>)
    requires AgreeOn(anc1, views1, anc2, views2, d) && folded <= d && forall o | o in rest :: o in d
    ensures Fold(anc1, views1, acc, folded, rest) == Fold(anc2, views2, acc, folded, rest)
    decreases |rest|
  {
    if rest != [] {
      var next := rest[0];
      assert next in d && AgreeAt(anc1, views1, anc2, views2, d, next);
      LcaFrame(anc1, views1, anc2, views2, d, folded + {next});
      var acc' := Merge(BaseView(anc1, views1, folded + {next}), acc, ViewOf(views1, next));
      FoldFrame(anc1, views1, anc2, views2, d, acc', folded + {next}, rest[1..]);
    }
  }

  lemma {:induction false} MergedFrame(anc1: Ancestry, views1: ViewTable, anc2: Ancestry, views2: ViewTable,
                                       d: set<Oid>, ops: set<Oid>)
    requires AgreeOn(anc1, views1, anc2, views2, d) && ops <= d
    ensures Merged(anc1, views1, ops) == Merged(anc2, views2, ops)
  {
    var sorted := Ascending(ops);
    if sorted != [] {
      assert sorted[0] in ops && AgreeAt(anc1, views1, anc2, views2, d, sorted[0]);
      FoldFrame(anc1, views1, anc2, views2, d, ViewOf(views1, sorted[0]), {sorted[0]}, sorted[1..]);
    }
  }

  lemma PrefixAgrees(w: World, h: seq<Op>, op: Op)
    requires Shaped(w, h) && Joins(w, h, op)
    ensures AgreeOn(Anc(w, h), Replay(w, h), Anc(w, h + [op]), Replay(w, h + [op]), OpIds(w, h))
  {
    ShapedClosed(w, h);
    forall x | x in OpIds(w, h)
      ensures AgreeAt(Anc(w, h), Replay(w, h), Anc(w, h + [op]), Replay(w, h + [op]), OpIds(w, h), x)
    {
      OldEntries(w, h, op, x);
    }
  }

  lemma AncestorsAgree(anc1: Ancestry, views1: ViewTable, anc2: Ancestry, views2: ViewTable, d: set<Oid>, ops: set<Oid>)
    requires AgreeOn(anc1, views1, anc2, views2, d) && ops <= d
    ensures AllAncestors(anc1, ops) == AllAncestors(anc2, ops) <= d
  {
    forall x | x in ops ensures AncestorsOf(anc1, x) == AncestorsOf(anc2, x) <= d {
      assert AgreeAt(anc1, views1, anc2, views2, d, x);
    }
  }

  /** In the finished tables every op still satisfies the equations it entered with. */
  lemma {:induction false} Entry(w: World, h: seq<Op>, op: Op)
    requires Good(w, h) && op in h
    ensures AncestorsOf(Anc(w, h), w.opId(op)) == {w.opId(op)} + AllAncestors(Anc(w, h), ParentSet(op))
    ensures Produced(Anc(w, h), Replay(w, h), op) == Some(ViewOf(Replay(w, h), w.opId(op)))
    ensures w.viewId(ViewOf(Replay(w, h), w.opId(op))) == op.view
  {
    var init, last := Unsnoc(w, h);
    PrefixAgrees(w, init, last);
    if op in init {
      Entry(w, init, op);
      ParentsAccepted(w, init, op);
      OldEntries(w, init, last, w.opId(op));
    } else {
      NewAncestors(w, init, last);
      NewView(w, init, last);
    }
    AncestorsAgree(Anc(w, init), Replay(w, init), Anc(w, h), Replay(w, h), OpIds(w, init), ParentSet(op));
    MergedFrame(Anc(w, init), Replay(w, init), Anc(w, h), Replay(w, h), OpIds(w, init), ParentSet(op));
  }

  lemma {:induction false} ParentsAccepted(w: World, h: seq<Op>, op: Op)
    requires Shaped(w, h) && op in h
    ensures ParentSet(op) <= OpIds(w, h)
  {
    var init, last := Unsnoc(w, h);
    if op in init {
      ParentsAccepted(w, init, op);
    }
  }

  lemma {:induction false} GoodPrefix(w: World, h: seq<Op>, i: nat)
    requires Good(w, h) && i <= |h|
    ensures Good(w, h[..i])
    ensures i < |h| ==> Follows(w, h[..i], h[i])
  {
    if i == |h| {
      assert h[..i] == h;
    } else {
      var init := h[..|h| - 1];
      GoodLast(w, h);
      GoodPrefix(w, init, i);
      assert init[..i] == h[..i];
      assert i == |init| ==> h[..i] == init;
    }
  }

  lemma GoodLast(w: World, h: seq<Op>)
    requires Good(w, h) && h != []
    ensures Good(w, h[..|h| - 1]) && Follows(w, h[..|h| - 1], h[|h| - 1])
  {}

  /** Tables that agree on an op's parents agree on the op. */
  lemma {:induction false} NextAgrees(w: World, h1: seq<Op>, h2: seq<Op>, d: set<Oid>, op: Op)
    requires Good(w, h1) && Good(w, h2) && op in h1 && op in h2 && ParentSet(op) <= d
    requires AgreeOn(Anc(w, h1), Replay(w, h1), Anc(w, h2), Replay(w, h2), d)
    ensures AgreeAt(Anc(w, h1), Replay(w, h1), Anc(w, h2), Replay(w, h2), d + {w.opId(op)}, w.opId(op))
  {
    Entry(w, h1, op);
    Entry(w, h2, op);
    AncestorsAgree(Anc(w, h1), Replay(w, h1), Anc(w, h2), Replay(w, h2), d, ParentSet(op));
    MergedFrame(Anc(w, h1), Replay(w, h1), Anc(w, h2), Replay(w, h2), d, ParentSet(op));
  }

  lemma SameOp(w: World, h: seq<Op>, op: Op)
    requires Sane(w) && w.opId(op) in OpIds(w, h)
    ensures op in h
  {
    var other :| other in h && w.opId(other) == w.opId(op);
  }

  /** Two histories of the same ops agree on the first `i` ops of one of them. */
  lemma {:induction false} HistoriesAgreeTo(w: World, h1: seq<Op>, h2: seq<Op>, i: nat)
    requires Sane(w) && Good(w, h1) && Good(w, h2) && OpIds(w, h1) == OpIds(w, h2) && i <= |h1|
    ensures AgreeOn(Anc(w, h1), Replay(w, h1), Anc(w, h2), Replay(w, h2), OpIds(w, h1[..i]))
  {
    if i > 0 {
      HistoriesAgreeTo(w, h1, h2, i - 1);
      var op, d := h1[i - 1], OpIds(w, h1[..i - 1]);
      NextIds(w, h1, i - 1);
      NextParents(w, h1, i - 1);
      SameOp(w, h2, op);
      NextAgrees(w, h1, h2, d, op);
      AgreeWider(Anc(w, h1), Replay(w, h1), Anc(w, h2), Replay(w, h2), d, w.opId(op));
    }
  }

  lemma NextParents(w: World, h: seq<Op>, i: nat)
    requires Good(w, h) && i < |h|
    ensures ParentSet(h[i]) <= OpIds(w, h[..i])
  {
    GoodPrefix(w, h, i);
  }

  lemma NextIds(w: World, h: seq<Op>, i: nat)
    requires i < |h|
    ensures OpIds(w, h[..i + 1]) == OpIds(w, h[..i]) + {w.opId(h[i])}
    ensures w.opId(h[i]) in OpIds(w, h) && h[i] in h
  {
    assert h[..i + 1] == h[..i] + [h[i]];
    IdsSnoc(w, h[..i], h[i]);
    assert h[i] in h;
  }

  lemma AgreeWider(anc1: Ancestry, views1: ViewTable, anc2: Ancestry, views2: ViewTable, d: set<Oid>, x: Oid)
    requires AgreeOn(anc1, views1, anc2, views2, d) && AgreeAt(anc1, views1, anc2, views2, d + {x}, x)
    ensures AgreeOn(anc1, views1, anc2, views2, d + {x})
  {
    forall y | y in d + {x} ensures AgreeAt(anc1, views1, anc2, views2, d + {x}, y) {
      assert y in d ==> AgreeAt(anc1, views1, anc2, views2, d, y);
    }
  }

  /** The same ops in any order: the same ancestry, views and maximal ops. */
  lemma {:induction false} HistoriesAgree(w: World, h1: seq<Op>, h2: seq<Op>)
    requires Sane(w) && Good(w, h1) && Good(w, h2) && OpIds(w, h1) == OpIds(w, h2)
    ensures Anc(w, h1) == Anc(w, h2) && Replay(w, h1) == Replay(w, h2)
    ensures Maximal(w, h1) == Maximal(w, h2)
  {
    HistoriesAgreeTo(w, h1, h2, |h1|);
    assert h1[..|h1|] == h1;
    TablesKeyed(w, h1);
    TablesKeyed(w, h2);
    forall x | x in OpIds(w, h1)
      ensures AncestorsOf(Anc(w, h1), x) == AncestorsOf(Anc(w, h2), x)
      ensures ViewOf(Replay(w, h1), x) == ViewOf(Replay(w, h2), x)
    {
      assert AgreeAt(Anc(w, h1), Replay(w, h1), Anc(w, h2), Replay(w, h2), OpIds(w, h1), x);
    }
    MapsAgree(Anc(w, h1), Replay(w, h1), Anc(w, h2), Replay(w, h2));
  }

  lemma TablesKeyed(w: World, h: seq<Op>)
    requires Shaped(w, h)
    ensures Anc(w, h).Keys == OpIds(w, h) == Replay(w, h).Keys
  {
    ShapedClosed(w, h);
  }

  lemma MapsAgree(anc1: Ancestry, views1: ViewTable, anc2: Ancestry, views2: ViewTable)
    requires anc1.Keys == anc2.Keys == views1.Keys == views2.Keys
    requires forall x | x in anc1 ::
               AncestorsOf(anc1, x) == AncestorsOf(anc2, x) && ViewOf(views1, x) == ViewOf(views2, x)
    ensures anc1 == anc2 && views1 == views2
  {}

  /** Two runs of keyed attempts that ended with the same ops ended with the same heads and current view. */
  lemma {:induction false} RunsConverge(w: World, x: seq<Op>, y: seq<Op>)
    requires Sane(w) && Keyed(x) && Keyed(y)
    requires OpIds(w, Run(w, x).history) == OpIds(w, Run(w, y).history)
    ensures Run(w, x).heads == Run(w, y).heads
    ensures Current(w, Run(w, x)) == Current(w, Run(w, y))
  {
    RunKeepsInv(w, x);
    RunKeepsInv(w, y);
    HeadsAreMaximal(w, x);
    HeadsAreMaximal(w, y);
    HistoriesAgree(w, Run(w, x).history, Run(w, y).history);
  }

  /** From the heads every op of the log can be reached, and nothing else. */
  lemma {:induction false} HeadsReachAll(w: World, s: LogState)
    requires Inv(w, s)
    ensures AllAncestors(Anc(w, s.history), s.heads) == OpIds(w, s.history)
  {
    ShapedClosed(w, s.history);
    forall d ensures d in AllAncestors(Anc(w, s.history), s.heads) <==> d in OpIds(w, s.history) {
      if d in OpIds(w, s.history) {
        assert UnderHead(w, s, d);
      }
    }
  }

  // ------------------------------------------------------------- accepted ops

  lemma PassedPrefix(w: World, h: seq<Op>)
    requires Passed(w, h) && h != []
    ensures Passed(w, h[..|h| - 1])
  {
    var init := h[..|h| - 1];
    forall i | 0 <= i < |init| ensures PassedAt(w, init, i) {
      assert PassedAt(w, h, i) && init[..i] == h[..i];
    }
  }

  /** What an accepted op saw stays what it sees, so it passed there, at some receiver's view. */
  lemma {:induction false} AcceptedAt(w: World, h: seq<Op>, op: Op) returns (c: View)
    requires Good(w, h) && Passed(w, h) && op in h && op.parents != []
    ensures VerifyAt(w, Seen(Anc(w, h), Replay(w, h), op), c, op).Ok?
  {
    var init, last := Unsnoc(w, h);
    if op in init {
      PassedPrefix(w, h);
      c := AcceptedAt(w, init, op);
      ParentsAccepted(w, init, op);
    } else {
      assert PassedAt(w, h, |h| - 1);
      var heads :| VerifyOp(w, LogState(h[..|h| - 1], heads), op).Ok?;
      c := Current(w, LogState(init, heads));
    }
    PrefixAgrees(w, init, last);
    MergedFrame(Anc(w, init), Replay(w, init), Anc(w, h), Replay(w, h), OpIds(w, init), ParentSet(op));
  }
}
