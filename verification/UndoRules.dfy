/** Which undos the log takes: what the rules of legality ask of an inverse effect. */
module UndoRules {
  import opened Options
  import opened Ids
  import opened Views
  import opened World
  import opened Capabilities
  import opened Legality
  import opened History
  import opened Acceptance
  import opened Convergence
  import opened Undo
  import opened UndoLog

  /** The inverse effects are those of the single effects. */
  lemma {:induction false} InverseEffects(c: View, es: seq<Effect>, x: Effect)
    requires Inverse(c, es).Ok?
    ensures x in Inverse(c, es).value <==> exists e :: e in es && InverseOf(c, e) == Ok([x])
    decreases |es|
  {
    if es != [] {
      var init, last := es[..|es| - 1], es[|es| - 1];
      InverseEffects(c, init, x);
      assert es == init + [last];
      var one := InverseOf(c, last).value;
      assert one == [] || one == [one[0]];
    }
  }

  /** What an undo by `u` has to respect where it takes back `e`, in the terms of `e` itself. */
  predicate BackLegal(w: World, c: View, u: Op, isOwner: bool, e: Effect, landed: set<Oid>) {
    match e
    case Point(entity, to, Some(Id(prev))) =>
      && prev in w.objects
      && (match w.objects[prev]
          case RevisionObject(r) => r.id == entity && to !in landed && r.prev == Some(to)
          case PrincipalObject(p) => p.id == entity && NextPrincipalLegal(w, c, isOwner, prev, to, p)
          case HookObject(runsAs) => runsAs == u.author || isOwner
          case _ => true)
    case Claim(claim, _) => UnclaimLegal(w, c, u, isOwner, claim)
    case _ => true
  }

  lemma OneBackLegal(w: World, c: View, u: Op, isOwner: bool, e: Effect, landed: set<Oid>)
    requires InverseOf(c, e).Ok? && u.kind == "undo"
    ensures BackLegal(w, c, u, isOwner, e, landed) <==>
            forall x | x in InverseOf(c, e).value :: EffectLegal(w, c, u, isOwner, x, landed)
  {
    var inverse := InverseOf(c, e).value;
    if inverse != [] {
      assert inverse == [inverse[0]] && inverse[0] in inverse;
    }
  }

  lemma LegalEffects(w: World, v: View, op: Op, landed: set<Oid>)
    ensures Legal(w, v, op, landed) <==>
            forall x | x in op.effects :: EffectLegal(w, v, op, op.author in v.owners, x, landed)
  {
    forall i | 0 <= i < |op.effects| ensures op.effects[i] in op.effects {
    }
  }

  lemma {:induction false} BacksLegal(w: World, c: View, es: seq<Effect>, u: Op, landed: set<Oid>)
    requires Inverse(c, es) == Ok(u.effects) && u.kind == "undo"
    ensures Legal(w, c, u, landed) <==>
            forall e | e in es :: BackLegal(w, c, u, u.author in c.owners, e, landed)
  {
    var isOwner := u.author in c.owners;
    LegalEffects(w, c, u, landed);
    UndoAllowed(c, es);
    forall e | e in es ensures InverseOf(c, e).Ok? && (
        BackLegal(w, c, u, isOwner, e, landed) <==>
        forall x | x in InverseOf(c, e).value :: EffectLegal(w, c, u, isOwner, x, landed)) {
      assert Undoable(e) && PointsHold(c, e);
      OneBackLegal(w, c, u, isOwner, e, landed);
    }
    forall x | x in u.effects ensures exists e :: e in es && InverseOf(c, e) == Ok([x]) {
      InverseEffects(c, es, x);
    }
    forall e, x | e in es && x in InverseOf(c, e).value ensures x in u.effects {
      assert InverseOf(c, e) == Ok([x]);
      InverseEffects(c, es, x);
    }
  }

  /** The signer is who it says, and an owner or under a capability that covers the undo. */
  ghost predicate MayAct(w: World, c: View, u: Op) {
    && AuthorSeen(w, c, u).Ok? && AuthorNow(w, c, u, AuthorSeen(w, c, u).value).None?
    && w.opSigned(u, u.key)
    && (u.author in c.owners || CapabilityOk(w, c, c, u))
  }

  /** `u` is an undo of `op` built on the current heads. */
  ghost predicate Built(w: World, s: LogState, op: Op, allowed: set<EntityId>, u: Op) {
    u.idem.Some? && UndoOf(w, s, op, Signer(u.author, u.key), u.cap, allowed, u.idem.value, u.time) == Ok(u)
  }

  lemma SeesCurrent(w: World, s: LogState, op: Op, allowed: set<EntityId>, u: Op)
    requires Built(w, s, op, allowed, u) && s.heads != {}
    ensures ParentSet(u) == s.heads && u.parents != [] && SeenBy(w, s, u) == Current(w, s) && u.kind == "undo"
    ensures Inverse(Current(w, s), op.effects) == Ok(u.effects)
    ensures Apply(Current(w, s), u.effects, FirstParent(u)).Some?
    ensures u.view == w.viewId(Apply(Current(w, s), u.effects, FirstParent(u)).value)
  {
    assert ParentSet(u) == s.heads;
    UndoChangesOnlyTouched(Current(w, s), op.effects, FirstParent(u), OfEntity(0));
  }

  lemma StepsOfUndo(w: World, c: View, u: Op)
    requires Apply(c, u.effects, FirstParent(u)).Some?
    requires u.view == w.viewId(Apply(c, u.effects, FirstParent(u)).value)
    ensures VerifyAt(w, c, c, u).Ok? <==> MayAct(w, c, u) && Legal(w, c, u, Landed(w, c))
  {}

  /**
   Whatever run led here, an undo built on the current heads is taken exactly when
   its key is fresh, its signer may act, and every effect of the op may be taken
   back.
   */
  lemma {:induction false} UndoTaken(w: World, s: LogState, op: Op, allowed: set<EntityId>, u: Op)
    requires Covered(w, s) && op in s.history && Built(w, s, op, allowed, u)
    ensures Taken(w, s, u) <==>
            && Repeats(w, s, u).None? && MayAct(w, Current(w, s), u)
            && forall e | e in op.effects ::
                 BackLegal(w, Current(w, s), u, u.author in Current(w, s).owners, e, Landed(w, Current(w, s)))
  {
    var c := Current(w, s);
    OpsHaveHeads(w, s);
    SeesCurrent(w, s, op, allowed, u);
    StepsOfUndo(w, c, u);
    BacksLegal(w, c, op.effects, u, Landed(w, c));
  }

  // ---------------------------------------------------------- revisions stay on

  function PrevOf(w: World, id: Oid): Option<Oid> {
    if w.RevisionAt(id).Some? then w.RevisionAt(id).value.prev
    else if w.PrincipalAt(id).Some? then w.PrincipalAt(id).value.prev
    else None
  }

  /** No two versions precede each other, as neither content can hold the hash of the other. */
  ghost predicate PrevsApart(w: World) {
    forall x: Oid, y: Oid :: PrevOf(w, x) == Some(y) ==> PrevOf(w, y) != Some(x)
  }

  /** An effect that moves a revision or a principal on from an earlier version. */
  predicate MovesOn(w: World, e: Effect) {
    && e.Point? && e.from.Some? && e.from.value.Id?
    && var prev := e.from.value.id;
       || (w.RevisionAt(e.to).Some? && w.RevisionAt(prev).Some?)
       || (w.PrincipalAt(e.to).Some? && w.PrincipalAt(prev).Some?)
  }

  lemma MoveNamesPrev(w: World, v: View, op: Op, isOwner: bool, e: Effect, landed: set<Oid>)
    requires MovesOn(w, e) && PointLegal(w, v, op, isOwner, e, landed)
    ensures PrevOf(w, e.to) == Some(e.from.value.id)
  {}

  lemma BackNamesNext(w: World, c: View, u: Op, isOwner: bool, e: Effect, landed: set<Oid>)
    requires MovesOn(w, e) && BackLegal(w, c, u, isOwner, e, landed)
    ensures PrevOf(w, e.from.value.id) == Some(e.to)
  {}

  lemma AcceptedMove(w: World, s: LogState, op: Op, e: Effect)
    requires Inv(w, s) && op in s.history && op.parents != [] && e in op.effects && MovesOn(w, e)
    ensures PrevOf(w, e.to) == Some(e.from.value.id)
  {
    var v := SeenBy(w, s, op);
    var was := AcceptedAt(w, s.history, op);
    VerifiedAt(w, v, was, op);
    LegalEffects(w, v, op, Landed(w, v));
    assert EffectLegal(w, v, op, op.author in v.owners, e, Landed(w, v));
    MoveNamesPrev(w, v, op, op.author in v.owners, e, Landed(w, v));
  }

  /** An accepted op that moved a revision or a principal on is never undone: the undo is refused. */
  lemma {:induction false} MovesAreKept(w: World, s: LogState, op: Op, allowed: set<EntityId>, u: Op, e: Effect)
    requires Inv(w, s) && PrevsApart(w) && op in s.history && op.parents != []
    requires Built(w, s, op, allowed, u) && e in op.effects && MovesOn(w, e)
    ensures !Taken(w, s, u)
  {
    var c := Current(w, s);
    AcceptedMove(w, s, op, e);
    UndoTaken(w, s, op, allowed, u);
    if BackLegal(w, c, u, u.author in c.owners, e, Landed(w, c)) {
      BackNamesNext(w, c, u, u.author in c.owners, e, Landed(w, c));
    }
  }
}
