/** The tables a log keeps beside its history, and the walks that read and rebuild them. */
module LogTables {
  import opened Options
  import opened Ids
  import opened Values
  import opened Views
  import opened World
  import opened History
  import opened Safety
  import opened Acceptance
  import opened LogTheorems
  import opened Convergence

  type IdemKey = (EntityId, nat)
  type IdemTable = map<IdemKey, Oid>

  /** The stored objects a log reads: ops and views by ID. */
  datatype Objects = Objects(ops: map<Oid, Op>, views: map<Oid, View>)

  /** The store holds every op of the history and the view each produced. */
  ghost predicate Holds(w: World, store: Objects, h: seq<Op>) {
    forall op | op in h ::
      && w.opId(op) in store.ops && store.ops[w.opId(op)] == op
      && op.view in store.views && store.views[op.view] == ViewOf(Replay(w, h), w.opId(op))
  }

  /** No two ops share an author and an idempotency key. */
  ghost predicate UniqueKeys(h: seq<Op>) {
    forall i, j | 0 <= i < j < |h| && h[i].idem.Some? && h[i].author == h[j].author :: h[i].idem != h[j].idem
  }

  /** The view table records the view ID each op claims. */
  ghost predicate RecordsViews(w: World, h: seq<Op>, views: map<Oid, Oid>) {
    views.Keys == OpIds(w, h) && forall op | op in h :: w.opId(op) in views && views[w.opId(op)] == op.view
  }

  /** The index finds for each key the op made under it, and nothing for other keys. */
  ghost predicate Indexes(w: World, h: seq<Op>, idem: IdemTable) {
    forall author: EntityId, key: nat :: At(idem, (author, key)) == LookupIdem(w, h, author, key)
  }

  /** The fields of a log say what its history says. */
  ghost predicate Consistent(w: World, s: LogState, store: Objects, verified: set<Oid>, views: map<Oid, Oid>,
                             idem: IdemTable) {
    && Inv(w, s) && UniqueKeys(s.history)
    && verified == OpIds(w, s.history)
    && Holds(w, store, s.history) && RecordsViews(w, s.history, views) && Indexes(w, s.history, idem)
  }

  function Indexed(idem: IdemTable, op: Op, id: Oid): IdemTable {
    if op.idem.Some? then idem[(op.author, op.idem.value) := id] else idem
  }

  // ------------------------------------------------------- walking the ancestry

  /**
   The state of a walk from `op`: all found is above `op`, and what is above the
   found is found or queued.
   */
  ghost predicate Frontier(w: World, h: seq<Op>, op: Oid, seen: set<Oid>, queue: seq<Oid>) {
    && seen <= AncestorsOf(Anc(w, h), op)
    && (forall q | q in queue :: q in AncestorsOf(Anc(w, h), op))
    && (op in seen || op in queue)
    && forall o | o in h && w.opId(o) in seen :: ParentSet(o) <= seen + Members(queue)
  }

  lemma FrontierStart(w: World, h: seq<Op>, op: Oid)
    requires Shaped(w, h) && op in OpIds(w, h)
    ensures Frontier(w, h, op, {}, [op])
  {
    ShapedClosed(w, h);
  }

  lemma FrontierAccepted(w: World, h: seq<Op>, op: Oid, seen: set<Oid>, queue: seq<Oid>)
    requires Shaped(w, h) && Frontier(w, h, op, seen, queue) && queue != []
    ensures queue[0] in OpIds(w, h)
  {
    AncestorsAccepted(w, h, op, queue[0]);
  }

  lemma FrontierSkip(w: World, h: seq<Op>, op: Oid, seen: set<Oid>, queue: seq<Oid>)
    requires Frontier(w, h, op, seen, queue) && queue != [] && queue[0] in seen
    ensures Frontier(w, h, op, seen, queue[1..])
  {
    assert queue == [queue[0]] + queue[1..];
    assert seen + Members(queue) == seen + Members(queue[1..]);
  }

  lemma FrontierStep(w: World, h: seq<Op>, op: Oid, seen: set<Oid>, queue: seq<Oid>, o: Op)
    requires Sane(w) && Shaped(w, h) && Frontier(w, h, op, seen, queue) && queue != []
    requires o in h && w.opId(o) == queue[0]
    ensures Frontier(w, h, op, seen + {queue[0]}, queue[1..] + o.parents)
  {
    ParentsAbove(w, h, op, queue[0], o);
    var seen' := seen + {queue[0]};
    forall x | x in h && w.opId(x) in seen' ensures ParentSet(x) <= seen' + Members(queue[1..] + o.parents) {
      if w.opId(x) in seen {
        assert ParentSet(x) <= seen + Members(queue);
      } else {
        assert x == o;
      }
    }
  }

  lemma ParentsAbove(w: World, h: seq<Op>, op: Oid, id: Oid, o: Op)
    requires Shaped(w, h) && o in h && w.opId(o) == id && id in AncestorsOf(Anc(w, h), op)
    ensures forall p | p in o.parents :: p in AncestorsOf(Anc(w, h), op)
  {
    forall p | p in o.parents ensures p in AncestorsOf(Anc(w, h), op) {
      assert p in ParentSet(o);
      ParentsAreAncestors(w, h, o, p);
      AncTransitive(w, h, op, id, p);
    }
  }

  lemma FrontierDone(w: World, h: seq<Op>, op: Oid, seen: set<Oid>)
    requires Shaped(w, h) && Frontier(w, h, op, seen, [])
    ensures seen == AncestorsOf(Anc(w, h), op)
  {
    assert seen + Members([]) == seen;
    forall a | a in AncestorsOf(Anc(w, h), op) ensures a in seen {
      ClosedDown(w, h, seen, op, a);
    }
  }

  /** The members of `common` that are no proper ancestor of another one outside `todo`. */
  ghost function Uncovered(anc: Ancestry, common: set<Oid>, todo: set<Oid>): set<Oid> {
    set a | a in common && forall c | c in common && c !in todo && c != a :: a !in AncestorsOf(anc, c)
  }

  lemma UncoveredStep(anc: Ancestry, common: set<Oid>, todo: set<Oid>, c: Oid)
    requires c in todo && todo <= common
    ensures Uncovered(anc, common, todo - {c}) == Uncovered(anc, common, todo) - (AncestorsOf(anc, c) - {c})
  {
    forall a ensures a in Uncovered(anc, common, todo - {c}) <==>
                     a in Uncovered(anc, common, todo) && (a !in AncestorsOf(anc, c) || a == c) {
      assert forall x | x in common && x !in todo - {c} :: x == c || x !in todo;
    }
  }

  // ----------------------------------------------------------------- reopening

  /** The state of a walk from all heads. */
  ghost predicate Walk(w: World, s: LogState, seen: set<Oid>, queue: seq<Oid>) {
    && seen + Members(queue) <= OpIds(w, s.history)
    && s.heads <= seen + Members(queue)
    && forall o | o in s.history && w.opId(o) in seen :: ParentSet(o) <= seen + Members(queue)
  }

  lemma WalkStart(w: World, s: LogState, heads: seq<Oid>)
    requires Covered(w, s) && Members(heads) == s.heads
    ensures Walk(w, s, {}, heads)
  {}

  lemma WalkAccepted(w: World, s: LogState, seen: set<Oid>, queue: seq<Oid>)
    requires Walk(w, s, seen, queue) && queue != []
    ensures queue[0] in OpIds(w, s.history)
  {
    assert queue[0] in Members(queue);
  }

  lemma WalkSkip(w: World, s: LogState, seen: set<Oid>, queue: seq<Oid>)
    requires Walk(w, s, seen, queue) && queue != [] && queue[0] in seen
    ensures Walk(w, s, seen, queue[1..])
  {
    assert queue == [queue[0]] + queue[1..];
    assert seen + Members(queue) == seen + Members(queue[1..]);
  }

  lemma WalkStep(w: World, s: LogState, seen: set<Oid>, queue: seq<Oid>, o: Op)
    requires Sane(w) && Shaped(w, s.history) && Walk(w, s, seen, queue) && queue != []
    requires o in s.history && w.opId(o) == queue[0]
    ensures Walk(w, s, seen + {queue[0]}, queue[1..] + o.parents)
  {
    ParentsAccepted(w, s.history, o);
    var seen', queue' := seen + {queue[0]}, queue[1..] + o.parents;
    assert seen' + Members(queue') == seen + Members(queue) + ParentSet(o);
    forall x | x in s.history && w.opId(x) in seen' ensures ParentSet(x) <= seen' + Members(queue') {
      if w.opId(x) in seen {
        assert ParentSet(x) <= seen + Members(queue);
      } else {
        assert x == o;
      }
    }
  }

  lemma WalkDone(w: World, s: LogState, seen: set<Oid>)
    requires Inv(w, s) && Walk(w, s, seen, [])
    ensures seen == OpIds(w, s.history)
  {
    assert seen + Members([]) == seen;
    forall d | d in OpIds(w, s.history) ensures d in seen {
      assert UnderHead(w, s, d);
      var x :| x in s.heads && d in AncestorsOf(Anc(w, s.history), x);
      ClosedDown(w, s.history, seen, x, d);
    }
  }

  ghost predicate RecordsSeen(w: World, h: seq<Op>, seen: set<Oid>, views: map<Oid, Oid>) {
    views.Keys == seen && forall op | op in h && w.opId(op) in seen :: views[w.opId(op)] == op.view
  }

  /** The index holds exactly the keys of the ops seen. */
  ghost predicate IndexesSeen(w: World, h: seq<Op>, seen: set<Oid>, idem: IdemTable) {
    && (forall k | k in idem ::
          exists op :: op in h && w.opId(op) in seen
                       && w.opId(op) == idem[k] && (op.author, op.idem) == (k.0, Some(k.1)))
    && forall op | op in h && w.opId(op) in seen && op.idem.Some? :: (op.author, op.idem.value) in idem
  }

  lemma SeenStep(w: World, h: seq<Op>, seen: set<Oid>, views: map<Oid, Oid>, idem: IdemTable, op: Op)
    requires Sane(w) && op in h && RecordsSeen(w, h, seen, views) && IndexesSeen(w, h, seen, idem)
    ensures RecordsSeen(w, h, seen + {w.opId(op)}, views[w.opId(op) := op.view])
    ensures IndexesSeen(w, h, seen + {w.opId(op)}, Indexed(idem, op, w.opId(op)))
  {
    var seen', idem' := seen + {w.opId(op)}, Indexed(idem, op, w.opId(op));
    forall k | k in idem'
      ensures exists o :: o in h && w.opId(o) in seen'
                          && w.opId(o) == idem'[k] && (o.author, o.idem) == (k.0, Some(k.1))
    {
      if op.idem.Some? && k == (op.author, op.idem.value) {
        assert w.opId(op) in seen';
      } else {
        var o :| o in h && w.opId(o) in seen && w.opId(o) == idem[k] && (o.author, o.idem) == (k.0, Some(k.1));
        assert w.opId(o) in seen';
      }
    }
  }

  /** A lookup finds the op that made the key; with unique keys there is only one. */
  lemma {:induction false} LookupFinds(w: World, h: seq<Op>, op: Op)
    requires op in h && op.idem.Some? && UniqueKeys(h)
    ensures LookupIdem(w, h, op.author, op.idem.value) == Some(w.opId(op))
  {
    var init, last := h[..|h| - 1], h[|h| - 1];
    assert h == init + [last];
    if op != last {
      var i :| 0 <= i < |init| && init[i] == op;
      assert h[i] == op;
      LookupFinds(w, init, op);
    }
  }

  lemma {:induction false} LookupSound(w: World, h: seq<Op>, author: EntityId, key: nat) returns (op: Op)
    requires LookupIdem(w, h, author, key).Some?
    ensures op in h && op.author == author && op.idem == Some(key)
  {
    var last := h[|h| - 1];
    if last.author == author && last.idem == Some(key) {
      op := last;
    } else {
      op := LookupSound(w, h[..|h| - 1], author, key);
    }
  }

  lemma {:induction false} SeenAll(w: World, h: seq<Op>, seen: set<Oid>, views: map<Oid, Oid>, idem: IdemTable)
    requires UniqueKeys(h) && seen == OpIds(w, h) && RecordsSeen(w, h, seen, views) && IndexesSeen(w, h, seen, idem)
    ensures RecordsViews(w, h, views) && Indexes(w, h, idem)
  {
    forall author: EntityId, key: nat ensures At(idem, (author, key)) == LookupIdem(w, h, author, key) {
      if LookupIdem(w, h, author, key).Some? {
        var op := LookupSound(w, h, author, key);
        assert w.opId(op) in seen;
      }
      if (author, key) in idem {
        var op :| op in h && w.opId(op) in seen && w.opId(op) == idem[(author, key)]
               && (op.author, op.idem) == (author, Some(key));
        LookupFinds(w, h, op);
      }
    }
  }

  lemma FoldStart(anc: Ancestry, table: ViewTable, sorted: seq<Oid>)
    requires sorted != [] && sorted == Ascending(Members(sorted))
    ensures Fold(anc, table, ViewOf(table, sorted[0]), Members(sorted[..1]), sorted[1..]) ==
        Merged(anc, table, Members(sorted))
  {
    assert sorted[..1] == [sorted[0]];
    assert Members(sorted[..1]) == {sorted[0]};
  }

  lemma FoldStep(anc: Ancestry, table: ViewTable, acc: View, sorted: seq<Oid>, i: nat)
    requires i < |sorted|
    ensures Members(sorted[..i + 1]) == Members(sorted[..i]) + {sorted[i]}
    ensures Fold(anc, table, acc, Members(sorted[..i]), sorted[i..]) ==
            Fold(anc, table,
                 Merge(BaseView(anc, table, Members(sorted[..i + 1])), acc, ViewOf(table, sorted[i])),
                 Members(sorted[..i + 1]), sorted[i + 1..])
  {
    assert sorted[..i + 1] == sorted[..i] + [sorted[i]];
    assert sorted[i..][1..] == sorted[i + 1..];
  }

  /** A set holding an op, and with each op its parents, holds every ancestor. */
  lemma {:induction false} ClosedDown(w: World, h: seq<Op>, seen: set<Oid>, d: Oid, a: Oid)
    requires Shaped(w, h) && d in seen && a in AncestorsOf(Anc(w, h), d)
    requires forall o | o in h && w.opId(o) in seen :: ParentSet(o) <= seen
    ensures a in seen
  {
    AncestorsAccepted(w, h, d, a);
    var init, op := Unsnoc(w, h);
    if d != w.opId(op) {
      OldAncestor(w, init, op, d, a);
      ClosedDown(w, init, seen, d, a);
    } else if a != d {
      var p := ParentAbove(w, init, op, a);
      assert op in h;
      ClosedDown(w, init, seen, p, a);
    }
  }

  /** One more op keeps only the common ancestors it also has. */
  lemma CommonStart(anc: Ancestry, ops: seq<Oid>)
    requires ops != []
    ensures Common(anc, Members(ops[..1])) == AncestorsOf(anc, ops[0])
  {
    assert Members(ops[..1]) == {ops[0]};
  }

  lemma CommonStep(anc: Ancestry, ops: seq<Oid>, i: nat)
    requires 1 <= i < |ops|
    ensures Common(anc, Members(ops[..i + 1])) == Common(anc, Members(ops[..i])) * AncestorsOf(anc, ops[i])
  {
    assert ops[..i + 1] == ops[..i] + [ops[i]];
    assert ops[..i][0] in Members(ops[..i]);
    assert Members(ops[..i + 1]) == Members(ops[..i]) + {ops[i]};
  }

  lemma CommonAccepted(w: World, h: seq<Op>, ops: seq<Oid>)
    requires Shaped(w, h)
    ensures Common(Anc(w, h), Members(ops)) <= OpIds(w, h)
  {
    ShapedClosed(w, h);
  }

  lemma LcaAccepted(w: World, h: seq<Op>, ops: set<Oid>)
    requires Shaped(w, h) && ops <= OpIds(w, h) && ops != {} && Lca(Anc(w, h), ops).Some?
    ensures Lca(Anc(w, h), ops).value in OpIds(w, h)
  {
    LcaCommon(Anc(w, h), ops);
    var o :| o in ops;
    AncestorsAccepted(w, h, o, Lca(Anc(w, h), ops).value);
  }

  // ------------------------------------------------------------------- storing

  /** Storing a taken op keeps every field in step with the history. */
  lemma {:induction false} StaysConsistent(w: World, s: LogState, op: Op, v: View,
                                           store: Objects, verified: set<Oid>, views: map<Oid, Oid>, idem: IdemTable)
    requires Sane(w) && Taken(w, s, op) && VerifyOp(w, s, op) == Ok(v)
    requires Consistent(w, s, store, verified, views, idem)
    ensures Consistent(w, Advance(w, s, op), Objects(store.ops[w.opId(op) := op], store.views[op.view := v]),
                       verified + {w.opId(op)}, views[w.opId(op) := op.view], Indexed(idem, op, w.opId(op)))
  {
    AcceptAppends(w, s, op);
    AcceptKeepsInv(w, s, op);
    StoredOp(w, s, op);
    HoldsMore(w, store, s, op, v);
    RecordsMore(w, s, op, views);
    IndexesMore(w, s, op, idem);
  }

  lemma TakenViews(w: World, s: LogState, op: Op, v: View)
    requires Sane(w) && Inv(w, s) && Taken(w, s, op) && VerifyOp(w, s, op) == Ok(v)
    ensures ViewOf(Replay(w, Advance(w, s, op).history), w.opId(op)) == v && w.viewId(v) == op.view
  {
    StoredOp(w, s, op);
    AcceptAppends(w, s, op);
    AcceptKeepsInv(w, s, op);
    Entry(w, Advance(w, s, op).history, op);
    ProducedViews(w, s, op, v);
  }

  /** A passing op comes with the very view its claimed ID names. */
  lemma ProducedViews(w: World, s: LogState, op: Op, v: View)
    requires VerifyOp(w, s, op) == Ok(v)
    ensures w.viewId(v) == op.view
  {
    if op.parents == [] {
      VerifiedInit(w, s.heads, op);
    } else {
      VerifiedAt(w, SeenBy(w, s, op), Current(w, s), op);
    }
  }

  lemma {:induction false} HoldsMore(w: World, store: Objects, s: LogState, op: Op, v: View)
    requires Sane(w) && Inv(w, s) && Taken(w, s, op) && VerifyOp(w, s, op) == Ok(v) && Holds(w, store, s.history)
    ensures Holds(w, Objects(store.ops[w.opId(op) := op], store.views[op.view := v]), Advance(w, s, op).history)
  {
    var h, more := Advance(w, s, op).history, Objects(store.ops[w.opId(op) := op], store.views[op.view := v]);
    TakenViews(w, s, op, v);
    forall o | o in h
      ensures w.opId(o) in more.ops && more.ops[w.opId(o)] == o
      ensures o.view in more.views && more.views[o.view] == ViewOf(Replay(w, h), w.opId(o))
    {
      if o != op {
        assert o in s.history;
        OldViewHeld(w, s, op, o);
        Entry(w, s.history, o);
      }
    }
  }

  lemma OldViewHeld(w: World, s: LogState, op: Op, o: Op)
    requires Sane(w) && o in s.history && o != op
    ensures ViewOf(Replay(w, Advance(w, s, op).history), w.opId(o)) == ViewOf(Replay(w, s.history), w.opId(o))
  {
    if w.opId(op) !in OpIds(w, s.history) {
      OldEntries(w, s.history, op, w.opId(o));
    }
  }

  lemma RecordsMore(w: World, s: LogState, op: Op, views: map<Oid, Oid>)
    requires Sane(w) && RecordsViews(w, s.history, views)
    ensures RecordsViews(w, Advance(w, s, op).history, views[w.opId(op) := op.view])
  {
    StoredOp(w, s, op);
  }

  lemma {:induction false} UniqueSnoc(w: World, s: LogState, op: Op)
    requires Repeats(w, s, op).None? && UniqueKeys(s.history)
    ensures UniqueKeys(s.history + [op])
  {
    forall o | o in s.history && op.idem.Some? && o.author == op.author ensures o.idem != op.idem {
      if o.idem == op.idem {
        IdemKnown(w, s.history, o);
      }
    }
  }

  /** An op taken twice has no key, or its key would have been found. */
  lemma {:induction false} TakenTwiceUnkeyed(w: World, s: LogState, op: Op)
    requires Sane(w) && Taken(w, s, op) && w.opId(op) in OpIds(w, s.history)
    ensures op.idem.None?
  {
    SameOp(w, s.history, op);
    if op.idem.Some? {
      IdemKnown(w, s.history, op);
    }
  }

  lemma {:induction false} IndexesMore(w: World, s: LogState, op: Op, idem: IdemTable)
    requires Sane(w) && Taken(w, s, op) && Indexes(w, s.history, idem) && UniqueKeys(s.history)
    ensures var h := Advance(w, s, op).history;
            Indexes(w, h, Indexed(idem, op, w.opId(op))) && UniqueKeys(h)
  {
    if w.opId(op) !in OpIds(w, s.history) {
      UniqueSnoc(w, s, op);
    } else {
      TakenTwiceUnkeyed(w, s, op);
    }
  }
}
