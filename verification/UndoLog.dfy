/**
 Undo in a log: what building an undo computes, and what taking back an accepted
 op does to the view, at once or later.
 */
module UndoLog {
  import opened Options
  import opened Ids
  import opened Values
  import opened Views
  import opened World
  import opened Legality
  import opened History
  import opened ForkLaws
  import opened Acceptance
  import opened Convergence
  import opened OpLog
  import opened Undo
  import opened ViewState
  import opened EffectRules

  /** A principal that signs ops, by its key. */
  datatype Signer = Signer(principal: EntityId, key: PublicKey)

  /** An undo of `target` on the current heads, to be signed. */
  ghost function UndoOf(w: World, s: LogState, target: Op, signer: Signer, cap: Option<Oid>, allowed: set<EntityId>,
                        idem: nat, time: int): Result<Op, Refusal> {
    if target.author !in allowed then Err(NotYours)
    else
      var c := Current(w, s);
      match Inverse(c, target.effects)
      case Err(e) => Err(e)
      case Ok(inverse) =>
        var parents := Ascending(s.heads);
        UndoChangesOnlyTouched(c, target.effects, FirstOf(parents), OfEntity(0));
        var next := Apply(c, inverse, FirstOf(parents)).value;
        Ok(Op(parents, signer.principal, signer.key, cap, "undo", Some(idem), inverse, w.viewId(next), time))
  }

  function FirstOf(parents: seq<Oid>): Option<Oid> {
    if parents == [] then None else Some(parents[0])
  }

  /**
   Refused to those not allowed, and for what cannot be taken back at the current view;
   else an op by the signer, on the current heads, whose effects take the target back
   and whose view they make.
   */
  ghost predicate Builds(w: World, s: LogState, target: Op, signer: Signer, cap: Option<Oid>, allowed: set<EntityId>,
                         idem: nat, time: int, r: Result<Op, Refusal>) {
    exists c ::
      && Merges(Anc(w, s.history), Replay(w, s.history), s.heads, c)
      && (target.author !in allowed ==> r == Err(NotYours))
      && (target.author in allowed && r.Err? ==> RefusesAll(c, target.effects, r.error))
      && (target.author in allowed && r.Ok? ==> UndoRuled(w, s, c, target, signer, cap, idem, time, r.value))
  }

  ghost predicate UndoRuled(w: World, s: LogState, c: View, target: Op, signer: Signer, cap: Option<Oid>, idem: nat,
                            time: int, u: Op) {
    && Rises(u.parents) && (forall d :: d in u.parents <==> d in s.heads)
    && u.author == signer.principal && u.key == signer.key && u.cap == cap && u.kind == "undo"
    && u.idem == Some(idem) && u.time == time
    && Undoes(c, target.effects, u.effects)
    && exists made ::
         && Makes(c, u.effects, if u.parents == [] then None else Some(u.parents[0]), made)
         && w.viewId(made) == u.view
  }

  lemma {:induction false} UndoBuilds(w: World, s: LogState, target: Op, signer: Signer, cap: Option<Oid>,
                                      allowed: set<EntityId>, idem: nat, time: int)
    requires Shaped(w, s.history) && s.heads <= OpIds(w, s.history)
    ensures Builds(w, s, target, signer, cap, allowed, idem, time,
                   UndoOf(w, s, target, signer, cap, allowed, idem, time))
  {
    var c, r := Current(w, s), UndoOf(w, s, target, signer, cap, allowed, idem, time);
    MergedExactly(w, s.history, s.heads, c);
    InverseExactly(c, target.effects);
    if r.Ok? {
      var parents := Ascending(s.heads);
      UndoChangesOnlyTouched(c, target.effects, FirstOf(parents), OfEntity(0));
      var next := Apply(c, r.value.effects, FirstOf(parents)).value;
      AppliesExactly(c, r.value.effects, FirstOf(parents), next);
      assert UndoRuled(w, s, c, target, signer, cap, idem, time, r.value);
    }
  }

  method UndoAs(log: OpLog, target: Op, signer: Signer, cap: Option<Oid>, allowed: set<EntityId>, idem: nat, time: int)
    returns (r: Result<Op, Refusal>)
    requires log.Valid()
    ensures r == UndoOf(log.w, log.State(), target, signer, cap, allowed, idem, time)
    ensures Builds(log.w, log.State(), target, signer, cap, allowed, idem, time, r)
  {
    UndoBuilds(log.w, log.State(), target, signer, cap, allowed, idem, time);
    if target.author !in allowed {
      return Err(NotYours);
    }
    var c := log.CurrentView();
    var inverse := UndoEffects(c, target.effects);
    if inverse.Err? {
      return Err(inverse.error);
    }
    r := BuildUndo(log, c, target, signer, cap, allowed, inverse.value, idem, time);
  }

  method BuildUndo(log: OpLog, c: View, target: Op, signer: Signer, cap: Option<Oid>, ghost allowed: set<EntityId>,
                   inverse: seq<Effect>, idem: nat, time: int) returns (r: Result<Op, Refusal>)
    requires log.Valid() && c == Current(log.w, log.State()) && Inverse(c, target.effects) == Ok(inverse)
    requires target.author in allowed
    ensures r == UndoOf(log.w, log.State(), target, signer, cap, allowed, idem, time)
  {
    var parents := SortIds(log.heads);
    UndoChangesOnlyTouched(c, target.effects, FirstOf(parents), OfEntity(0));
    var next := ApplyEffects(c, inverse, FirstOf(parents));
    var view := log.w.viewId(next.value);
    r := Ok(Op(parents, signer.principal, signer.key, cap, "undo", Some(idem), inverse, view, time));
  }

  // ---------------------------------------------- every view keeps its kinds

  lemma OnePointers(v: View, e: Effect, parent: Option<Oid>)
    requires NoMembers(v.entities) && ApplyOne(v, e, parent).Some?
    ensures NoMembers(ApplyOne(v, e, parent).value.entities)
  {
    match e
    case Point(_, _, _) =>
    case Unpoint(_) =>
    case _ => assert ApplyOne(v, e, parent).value.entities == v.entities;
  }

  lemma OneProposed(v: View, e: Effect, parent: Option<Oid>)
    requires OnlyMembers(v.proposed) && ApplyOne(v, e, parent).Some?
    ensures OnlyMembers(ApplyOne(v, e, parent).value.proposed)
  {
    match e
    case Propose(_) =>
    case Unpropose(_) =>
    case _ => assert ApplyOne(v, e, parent).value.proposed == v.proposed;
  }

  lemma OneCaps(v: View, e: Effect, parent: Option<Oid>)
    requires OnlyMembers(v.caps) && ApplyOne(v, e, parent).Some?
    ensures OnlyMembers(ApplyOne(v, e, parent).value.caps)
  {
    match e
    case Cap(_) =>
    case Uncap(_) =>
    case _ => assert ApplyOne(v, e, parent).value.caps == v.caps;
  }

  lemma OneKinds(v: View, e: Effect, parent: Option<Oid>)
    requires Kinds(v) && ApplyOne(v, e, parent).Some?
    ensures Kinds(ApplyOne(v, e, parent).value)
  {
    OnePointers(v, e, parent);
    OneProposed(v, e, parent);
    OneCaps(v, e, parent);
  }

  lemma {:induction false} ApplyKinds(v: View, es: seq<Effect>, parent: Option<Oid>)
    requires Kinds(v) && Apply(v, es, parent).Some?
    ensures Kinds(Apply(v, es, parent).value)
    decreases |es|
  {
    if es != [] {
      OneKinds(v, es[0], parent);
      ApplyKinds(ApplyOne(v, es[0], parent).value, es[1..], parent);
    }
  }

  lemma MergedPointers<K(!new)>(base: map<K, TrieValue>, a: map<K, TrieValue>, b: map<K, TrieValue>)
    requires NoMembers(base) && NoMembers(a) && NoMembers(b)
    ensures NoMembers(MergeMaps(Pointers, base, a, b))
  {
    var m := MergeMaps(Pointers, base, a, b);
    forall k | k in m ensures !m[k].Member? {
      assert At(m, k) == MergeValue(Pointers, At(base, k), At(a, k), At(b, k));
    }
  }

  lemma MergedMembers<K(!new)>(base: map<K, TrieValue>, a: map<K, TrieValue>, b: map<K, TrieValue>)
    requires OnlyMembers(base) && OnlyMembers(a) && OnlyMembers(b)
    ensures OnlyMembers(MergeMaps(SetPolicy, base, a, b))
  {
    var m := MergeMaps(SetPolicy, base, a, b);
    forall k | k in m ensures m[k].Member? {
      assert At(m, k) == MergeValue(SetPolicy, At(base, k), At(a, k), At(b, k));
    }
  }

  lemma MergeKinds(base: View, a: View, b: View)
    requires Kinds(base) && Kinds(a) && Kinds(b)
    ensures Kinds(Merge(base, a, b))
  {
    MergedPointers(base.entities, a.entities, b.entities);
    MergedMembers(base.proposed, a.proposed, b.proposed);
    MergedMembers(base.caps, a.caps, b.caps);
  }

  ghost predicate AllKinds(views: ViewTable) {
    forall x :: Kinds(ViewOf(views, x))
  }

  lemma {:induction false} FoldKinds(anc: Ancestry, views: ViewTable, acc: View, folded: set<Oid>, rest: seq<Oid>)
    requires AllKinds(views) && Kinds(acc)
    ensures Kinds(Fold(anc, views, acc, folded, rest))
    decreases |rest|
  {
    if rest != [] {
      var next := rest[0];
      var base := BaseView(anc, views, folded + {next});
      MergeKinds(base, acc, ViewOf(views, next));
      FoldKinds(anc, views, Merge(base, acc, ViewOf(views, next)), folded + {next}, rest[1..]);
    }
  }

  lemma MergedKinds(anc: Ancestry, views: ViewTable, ops: set<Oid>)
    requires AllKinds(views)
    ensures Kinds(Merged(anc, views, ops))
  {
    var sorted := Ascending(ops);
    if sorted != [] {
      FoldKinds(anc, views, ViewOf(views, sorted[0]), {sorted[0]}, sorted[1..]);
    }
  }

  lemma {:induction false} ReplayKinds(w: World, h: seq<Op>)
    ensures AllKinds(Replay(w, h))
  {
    if h != [] {
      var init, op := h[..|h| - 1], h[|h| - 1];
      ReplayKinds(w, init);
      MergedKinds(Anc(w, init), Replay(w, init), ParentSet(op));
      var made := Produced(Anc(w, init), Replay(w, init), op);
      if made.Some? {
        ApplyKinds(Seen(Anc(w, init), Replay(w, init), op), op.effects, FirstParent(op));
      }
      assert Replay(w, h) == Replay(w, init)[w.opId(op) := made.GetOr(EMPTY)];
      forall x ensures Kinds(ViewOf(Replay(w, h), x)) {
        assert x != w.opId(op) ==> ViewOf(Replay(w, h), x) == ViewOf(Replay(w, init), x);
      }
    }
  }

  // ------------------------------------------------------------- accepted ops

  lemma LegalFroms(w: World, v: View, c: View, op: Op)
    requires VerifyAt(w, v, c, op).Ok?
    ensures FromsHold(v, op.effects)
  {
    VerifiedAt(w, v, c, op);
    forall e | e in op.effects && e.Point? ensures Entity(v, e.entity) == e.from {
      var i :| 0 <= i < |op.effects| && op.effects[i] == e;
      assert EffectLegal(w, v, op, op.author in v.owners, op.effects[i], Landed(w, v));
    }
  }

  /** `u` undoes the accepted op `op`, built on that op alone. */
  ghost predicate UndoesAtOnce(w: World, s: LogState, op: Op, u: Op) {
    && Inverse(ViewOf(Replay(w, s.history), w.opId(op)), op.effects) == Ok(u.effects)
    && u.parents == [w.opId(op)]
  }

  /** An accepted op's view is its effects applied to the view it saw, which they fit. */
  lemma AcceptedStep(w: World, s: LogState, op: Op)
    requires Inv(w, s) && op in s.history && op.parents != []
    ensures var v := SeenBy(w, s, op);
            && Kinds(v) && FromsHold(v, op.effects)
            && Apply(v, op.effects, FirstParent(op)) == Some(ViewOf(Replay(w, s.history), w.opId(op)))
  {
    var h := s.history;
    var was := AcceptedAt(w, h, op);
    LegalFroms(w, SeenBy(w, s, op), was, op);
    ReplayKinds(w, h);
    MergedKinds(Anc(w, h), Replay(w, h), ParentSet(op));
    Entry(w, h, op);
  }

  lemma SeesOne(w: World, s: LogState, op: Op, u: Op)
    requires u.parents == [w.opId(op)]
    ensures SeenBy(w, s, u) == ViewOf(Replay(w, s.history), w.opId(op))
  {
    assert ParentSet(u) == {w.opId(op)};
    MergedOne(Anc(w, s.history), Replay(w, s.history), w.opId(op));
  }

  /**
   Whatever run led here: an undo built on an accepted op's own view produces the
   view that op saw, if and only if the first effect at every place changed it.
   A scope that was resumed first is paused again, as `Undo.UndoPauses` says.
   */
  lemma {:induction false} UndoOfAccepted(w: World, s: LogState, op: Op, u: Op)
    requires Inv(w, s) && op in s.history && op.parents != [] && UndoesAtOnce(w, s, op, u)
    ensures var made := Produced(Anc(w, s.history), Replay(w, s.history), u);
            && made.Some?
            && (SamePlaces(made.value, SeenBy(w, s, op)) <==> FirstsChange(SeenBy(w, s, op), op.effects))
            && (NoneResumed(op.effects) ==>
                  (made.value == SeenBy(w, s, op) <==> FirstsChange(SeenBy(w, s, op), op.effects)))
  {
    var v, x := SeenBy(w, s, op), ViewOf(Replay(w, s.history), w.opId(op));
    AcceptedStep(w, s, op);
    SeesOne(w, s, op, u);
    UndoRestores(v, op.effects, FirstParent(op), x, FirstParent(u));
    if NoneResumed(op.effects) {
      UndoInverts(v, op.effects, FirstParent(op), x, FirstParent(u));
    }
  }

  /**
   An undo built later, on the current heads: it produces a view, leaves every
   place the op did not touch as the current view has it, and every other field.
   */
  lemma {:induction false} UndoLater(w: World, s: LogState, op: Op, signer: Signer, cap: Option<Oid>,
                                     allowed: set<EntityId>, idem: nat, time: int, p: Place)
    requires UndoOf(w, s, op, signer, cap, allowed, idem, time).Ok?
    ensures var u := UndoOf(w, s, op, signer, cap, allowed, idem, time).value;
            var c, made := Current(w, s), Produced(Anc(w, s.history), Replay(w, s.history), u);
            && SeenBy(w, s, u) == c && made.Some? && w.viewId(made.value) == u.view
            && Rest(made.value) == Rest(c)
            && FromsHold(c, u.effects)
            && Held(made.value, p) == match FirstTouch(op.effects, p) case Some(e) => PutBack(e) case None => Held(c, p)
  {
    var u := UndoOf(w, s, op, signer, cap, allowed, idem, time).value;
    assert ParentSet(u) == s.heads && FirstParent(u) == FirstOf(u.parents);
    var c := Current(w, s);
    UndoChangesOnlyTouched(c, op.effects, FirstParent(u), p);
    forall e | e in u.effects && e.Point? ensures Entity(c, e.entity) == e.from {
      UndoPointsAreCurrent(c, op.effects, e);
    }
  }
}
