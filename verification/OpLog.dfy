/**
 The operation log itself: heads, verified set, view table and idempotency index
 over a growing object store. Every method is proved against the history.
 */
module OpLog {
  import opened Options
  import opened Ids
  import opened Values
  import opened Views
  import opened World
  import opened Legality
  import opened History
  import opened ForkLaws
  import opened Acceptance
  import opened LogTables
  import opened AcceptedOps
  import opened ViewState

  class OpLog {
    const w: World
    var store: Objects
    var heads: set<Oid>
    var verified: set<Oid>
    var views: map<Oid, Oid>
    var idem: IdemTable
    ghost var history: seq<Op>

    ghost function State(): LogState
      reads this
    {
      LogState(history, heads)
    }

    ghost predicate Valid()
      reads this
    {
      Sane(w) && Consistent(w, State(), store, verified, views, idem)
    }

    constructor (w: World)
      requires Sane(w)
      ensures Valid() && State() == FRESH && this.w == w
    {
      this.w := w;
      store := Objects(map[], map[]);
      heads, verified, views, idem := {}, {}, map[], map[];
      history := [];
    }

    /**
     From the heads of a log and its stored ops alone, one walk over parents fills the
     same three tables that accepting the ops one by one had filled.
     */
    constructor Open(w: World, store: Objects, heads: seq<Oid>, ghost s: LogState)
      requires Sane(w) && Inv(w, s) && UniqueKeys(s.history)
      requires Holds(w, store, s.history) && Members(heads) == s.heads
      ensures Valid() && State() == s && this.w == w && this.store == store
    {
      this.w, this.store, this.history := w, store, s.history;
      this.heads := Members(heads);
      var seen: set<Oid>, table: map<Oid, Oid>, index: IdemTable, queue := {}, map[], map[], heads;
      WalkStart(w, s, heads);
      while queue != []
        invariant Walk(w, s, seen, queue)
        invariant RecordsSeen(w, s.history, seen, table) && IndexesSeen(w, s.history, seen, index)
        decreases OpIds(w, s.history) - seen, |queue|
      {
        var id := queue[0];
        WalkAccepted(w, s, seen, queue);
        if id in seen {
          WalkSkip(w, s, seen, queue);
          queue := queue[1..];
        } else {
          ghost var o: Op :| o in s.history && w.opId(o) == id;
          var op := store.ops[id];
          WalkStep(w, s, seen, queue, op);
          SeenStep(w, s.history, seen, table, index, op);
          table := table[id := op.view];
          index := Indexed(index, op, id);
          seen, queue := seen + {id}, queue[1..] + op.parents;
        }
      }
      WalkDone(w, s, seen);
      SeenAll(w, s.history, seen, table, index);
      this.verified, this.views, this.idem := seen, table, index;
    }

    /** What the tables hold for an op is its replayed view. */
    method ViewAt(op: Oid) returns (v: View)
      requires Valid() && op in verified
      ensures v == ViewOf(Replay(w, history), op)
    {
      ghost var o :| o in history && w.opId(o) == op;
      v := store.views[views[op]];
    }

    /** The queue over parents ends with the ancestors the history defines. */
    method Ancestors(op: Oid) returns (seen: set<Oid>)
      requires Valid() && op in verified
      ensures seen == AncestorsOf(Anc(w, history), op)
    {
      seen := {};
      var queue := [op];
      FrontierStart(w, history, op);
      while queue != []
        invariant Frontier(w, history, op, seen, queue)
        decreases verified - seen, |queue|
      {
        var id := queue[0];
        FrontierAccepted(w, history, op, seen, queue);
        if id in seen {
          FrontierSkip(w, history, op, seen, queue);
          queue := queue[1..];
        } else {
          ghost var o := Stored(id);
          FrontierStep(w, history, op, seen, queue, o);
          seen, queue := seen + {id}, queue[1..] + store.ops[id].parents;
        }
      }
      FrontierDone(w, history, op, seen);
    }

    lemma Stored(id: Oid) returns (o: Op)
      requires Valid() && id in verified
      ensures o in history && w.opId(o) == id && id in store.ops && store.ops[id] == o
    {
      o :| o in history && w.opId(o) == id;
    }

    method CommonAncestors(ops: seq<Oid>) returns (common: set<Oid>)
      requires Valid() && ops != [] && Members(ops) <= verified
      ensures common == Common(Anc(w, history), Members(ops))
    {
      assert ops[0] in Members(ops);
      common := Ancestors(ops[0]);
      CommonStart(Anc(w, history), ops);
      for i := 1 to |ops|
        invariant common == Common(Anc(w, history), Members(ops[..i]))
      {
        assert ops[i] in Members(ops);
        var more := Ancestors(ops[i]);
        CommonStep(Anc(w, history), ops, i);
        common := common * more;
      }
      assert ops[..|ops|] == ops;
    }

    /** Of the set, what lies properly above no other member. */
    method DropCovered(common: set<Oid>) returns (latest: set<Oid>)
      requires Valid() && common <= verified
      ensures latest == Uncovered(Anc(w, history), common, {})
    {
      var todo := common;
      latest := common;
      while todo != {}
        invariant todo <= common
        invariant latest == Uncovered(Anc(w, history), common, todo)
        decreases todo
      {
        var c :| c in todo;
        var above := Ancestors(c);
        UncoveredStep(Anc(w, history), common, todo, c);
        latest := latest - (above - {c});
        todo := todo - {c};
      }
    }

    /** The history's latest common ancestor, by intersecting and thinning ancestor sets. */
    method FindLca(ops: seq<Oid>) returns (r: Option<Oid>)
      requires Valid() && Members(ops) <= verified
      ensures r == Lca(Anc(w, history), Members(ops))
    {
      if ops == [] {
        return None;
      }
      var common := CommonAncestors(ops);
      CommonAccepted(w, history, ops);
      var latest := DropCovered(common);
      assert Latest(Anc(w, history), Members(ops)) == latest;
      if latest == {} {
        return None;
      }
      var sorted := SortIds(latest);
      r := Some(sorted[0]);
    }

    method BaseOf(ops: seq<Oid>) returns (base: View)
      requires Valid() && ops != [] && Members(ops) <= verified
      ensures base == BaseView(Anc(w, history), Replay(w, history), Members(ops))
    {
      var lca := FindLca(ops);
      if lca.None? {
        return EMPTY;
      }
      assert ops[0] in Members(ops);
      LcaAccepted(w, history, Members(ops));
      base := ViewAt(lca.value);
    }

    /**
     The loop is the fold that defines a merged view: the op with the highest ID is
     merged last, by the rules, over the view of the latest op all descend from.
     */
    method MergedView(ops: seq<Oid>) returns (acc: View)
      requires Valid() && Members(ops) <= verified
      ensures acc == Merged(Anc(w, history), Replay(w, history), Members(ops))
      ensures Merges(Anc(w, history), Replay(w, history), Members(ops), acc)
    {
      acc := FoldAll(ops);
      MergedExactly(w, history, Members(ops), acc);
    }

    method FoldAll(ops: seq<Oid>) returns (acc: View)
      requires Valid() && Members(ops) <= verified
      ensures acc == Merged(Anc(w, history), Replay(w, history), Members(ops))
    {
      var sorted := SortIds(Members(ops));
      if sorted == [] {
        return EMPTY;
      }
      assert Members(sorted) == Members(ops) && sorted[0] in Members(sorted);
      var first := ViewAt(sorted[0]);
      FoldStart(Anc(w, history), Replay(w, history), sorted);
      acc := FoldRest(first, sorted);
    }

    method FoldRest(first: View, sorted: seq<Oid>) returns (acc: View)
      requires Valid() && sorted != [] && Members(sorted) <= verified
      ensures acc == Fold(Anc(w, history), Replay(w, history), first, Members(sorted[..1]), sorted[1..])
    {
      acc := first;
      for i := 1 to |sorted|
        invariant Fold(Anc(w, history), Replay(w, history), acc, Members(sorted[..i]), sorted[i..]) ==
                  Fold(Anc(w, history), Replay(w, history), first, Members(sorted[..1]), sorted[1..])
      {
        acc := FoldIn(acc, sorted, i);
      }
    }

    /** One turn of the fold: its base is looked up first. */
    method FoldIn(acc: View, sorted: seq<Oid>, i: nat) returns (merged: View)
      requires Valid() && 1 <= i < |sorted| && Members(sorted) <= verified
      ensures Fold(Anc(w, history), Replay(w, history), merged, Members(sorted[..i + 1]), sorted[i + 1..]) ==
              Fold(Anc(w, history), Replay(w, history), acc, Members(sorted[..i]), sorted[i..])
    {
      assert Members(sorted[..i + 1]) <= Members(sorted) && sorted[i] in Members(sorted);
      var base := BaseOf(sorted[..i + 1]);
      var next := ViewAt(sorted[i]);
      FoldStep(Anc(w, history), Replay(w, history), acc, sorted, i);
      merged := MergeViews(base, acc, next);
    }

    /** The view a receiver checks against: everything under the heads, merged. */
    method CurrentView() returns (v: View)
      requires Valid()
      ensures v == Current(w, State())
    {
      var listed := SortIds(heads);
      assert Members(listed) == heads;
      v := MergedView(listed);
    }

    method Verify(op: Op) returns (r: Result<View, Rejection>)
      requires Valid()
      ensures r == VerifyOp(w, State(), op)
      ensures forall made :: r == Ok(made) <==> Acceptable(w, State(), op, made)
    {
      forall made ensures Members(op.parents) <= verified && VerifyOp(w, State(), op) == Ok(made) <==>
                          Acceptable(w, State(), op, made)
      {
        AcceptableExactly(w, State(), op, made);
      }
      if op.parents == [] {
        return VerifyInit(w, heads, op);
      }
      if !(ParentSet(op) <= verified) {
        return Err(UnknownParent);
      }
      var v := MergedView(op.parents);
      var c := CurrentView();
      var landed := LandedRevisions(w, v);
      r := VerifyKnowing(w, v, c, op, landed);
    }

    /** One attempt: taken exactly when it repeats no key and keeps every rule, and else nothing changes. */
    method TryAccept(op: Op) returns (r: Result<Oid, Rejection>)
      requires Valid()
      modifies this
      ensures Valid()
      ensures r == Accept(w, old(State()), op).1 && State() == Accept(w, old(State()), op).0
      ensures Attempted(w, old(State()), op, State(), r)
    {
      AttemptedExactly(w, State(), op, Accept(w, State(), op).0, Accept(w, State(), op).1);
      if op.idem.Some? && (op.author, op.idem.value) in idem {
        assert At(idem, (op.author, op.idem.value)) == LookupIdem(w, history, op.author, op.idem.value);
        return Ok(idem[(op.author, op.idem.value)]);
      }
      assert op.idem.Some? ==> At(idem, (op.author, op.idem.value)) == LookupIdem(w, history, op.author, op.idem.value);
      if !(ParentSet(op) <= verified) {
        return Err(UnknownParent);
      }
      var produced := Verify(op);
      if produced.Err? {
        return Err(produced.error);
      }
      StaysConsistent(w, State(), op, produced.value, store, verified, views, idem);
      Record(op, produced.value, Advance(w, State(), op));
      r := Ok(w.opId(op));
    }

    /** Store a verified op and its view, and advance the heads. */
    method Record(op: Op, produced: View, ghost next: LogState)
      requires Sane(w) && next == LogState(next.history, heads - ParentSet(op) + {w.opId(op)})
      requires Consistent(w, next, Objects(store.ops[w.opId(op) := op], store.views[op.view := produced]),
                          verified + {w.opId(op)}, views[w.opId(op) := op.view], Indexed(idem, op, w.opId(op)))
      modifies this
      ensures Valid() && State() == next
    {
      var id := w.opId(op);
      heads, verified, history := heads - ParentSet(op) + {id}, verified + {id}, next.history;
      store, views, idem :=
        Objects(store.ops[id := op], store.views[op.view := produced]), views[id := op.view], Indexed(idem, op, id);
      assert State() == next;
    }
  }
}
