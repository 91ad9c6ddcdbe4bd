/**
 Undo: the inverse of each effect of an op, the last effect first, refused when
 an entity has moved on. What an effect changes is one place of the view, so an undo is
 read as the writes it makes to places.
 */
module Undo {
  import opened Options
  import opened Ids
  import opened Values
  import opened Views
  import opened ViewLaws

  datatype Refusal = NotYours | MovedOn(entity: EntityId) | ConflictResolved | NotUndoable

  /** Whether undo can take an effect back at all. */
  predicate Undoable(e: Effect) {
    e.Put? || e.Point? || e.Propose? || e.Unpropose? || e.Claim? || e.Cap? || e.Uncap? || e.Pause? || e.Resume?
  }

  function InverseOf(c: View, e: Effect): Result<seq<Effect>, Refusal> {
    match e
    case Put(_) => Ok([])
    case Point(entity, to, from) =>
      if Entity(c, entity) != Some(Id(to)) then Err(MovedOn(entity))
      else
        (match from
         case Some(Id(prev)) => Ok([Point(entity, prev, Some(Id(to)))])
         case Some(Conflict(_)) => Err(ConflictResolved)
         case _ => Ok([Unpoint(entity)]))
    case Propose(rev) => Ok([Unpropose(rev)])
    case Unpropose(rev) => Ok([Propose(rev)])
    case Claim(claim, _) => Ok([Unclaim(claim)])
    case Cap(cap) => Ok([Uncap(cap)])
    case Uncap(cap) => Ok([Cap(cap)])
    case Pause(scope) => Ok([Resume(scope)])
    case Resume(scope) => Ok([Pause(scope)])
    case _ => Err(NotUndoable)
  }

  function Then(done: seq<Effect>, r: Result<seq<Effect>, Refusal>): Result<seq<Effect>, Refusal> {
    if r.Err? then r else Ok(done + r.value)
  }

  /** The effects that take `es` back at the current view `c`, the last effect first. */
  function Inverse(c: View, es: seq<Effect>): Result<seq<Effect>, Refusal>
    decreases |es|
  {
    if es == [] then Ok([])
    else
      var last := InverseOf(c, es[|es| - 1]);
      if last.Err? then last else Then(last.value, Inverse(c, es[..|es| - 1]))
  }

  /** `back` takes one effect back at `c`: a point only while its target is current, to what it replaced. */
  ghost predicate TakesBack(c: View, e: Effect, back: seq<Effect>) {
    match e
    case Put(_) => back == []
    case Point(entity, to, from) =>
      && entity in c.entities && c.entities[entity] == Id(to) && !(from.Some? && from.value.Conflict?)
      && back == if from.Some? && from.value.Id? then [Point(entity, from.value.id, Some(Id(to)))]
                 else [Unpoint(entity)]
    case Propose(rev) => back == [Unpropose(rev)]
    case Unpropose(rev) => back == [Propose(rev)]
    case Claim(claim, _) => back == [Unclaim(claim)]
    case Cap(cap) => back == [Uncap(cap)]
    case Uncap(cap) => back == [Cap(cap)]
    case Pause(scope) => back == [Resume(scope)]
    case Resume(scope) => back == [Pause(scope)]
    case _ => false
  }

  /** Why an effect is not taken back: its kind, a later move of its entity, or the conflict it resolved. */
  ghost predicate Refuses(c: View, e: Effect, why: Refusal) {
    if e.Point? then
      if e.entity in c.entities && c.entities[e.entity] == Id(e.to)
      then e.from.Some? && e.from.value.Conflict? && why == ConflictResolved
      else why == MovedOn(e.entity)
    else
      && !e.Put? && !e.Propose? && !e.Unpropose? && !e.Claim? && !e.Cap? && !e.Uncap? && !e.Pause? && !e.Resume?
      && why == NotUndoable
  }

  ghost function Backwards(parts: seq<seq<Effect>>): seq<Effect> {
    if parts == [] then [] else parts[|parts| - 1] + Backwards(parts[..|parts| - 1])
  }

  ghost predicate TakesAllBack(c: View, es: seq<Effect>, parts: seq<seq<Effect>>) {
    |parts| == |es| && forall i | 0 <= i < |es| :: TakesBack(c, es[i], parts[i])
  }

  /** Every effect taken back, the last one first. */
  ghost predicate Undoes(c: View, es: seq<Effect>, back: seq<Effect>) {
    exists parts :: TakesAllBack(c, es, parts) && back == Backwards(parts)
  }

  /** The last effect that is refused, and why. */
  ghost predicate RefusesAll(c: View, es: seq<Effect>, why: Refusal) {
    exists i | 0 <= i < |es| :: Refuses(c, es[i], why) && forall j, x | i < j < |es| :: !Refuses(c, es[j], x)
  }

  lemma OneTakenBack(c: View, e: Effect)
    ensures forall back :: TakesBack(c, e, back) <==> InverseOf(c, e) == Ok(back)
    ensures forall why :: Refuses(c, e, why) <==> InverseOf(c, e) == Err(why)
  {}

  /** The inverse is what takes every effect back, and a refusal that of the last effect refused. */
  lemma {:induction false} InverseExactly(c: View, es: seq<Effect>)
    ensures forall back :: Inverse(c, es) == Ok(back) <==> Undoes(c, es, back)
    ensures forall why :: Inverse(c, es) == Err(why) <==> RefusesAll(c, es, why)
    decreases |es|
  {
    if es == [] {
      assert TakesAllBack(c, es, []);
    } else {
      var init, last := es[..|es| - 1], es[|es| - 1];
      assert es == init + [last];
      InverseExactly(c, init);
      OneTakenBack(c, last);
      forall back ensures Inverse(c, es) == Ok(back) <==> Undoes(c, es, back) {
        UndoesSnoc(c, init, last, back);
      }
      forall why ensures Inverse(c, es) == Err(why) <==> RefusesAll(c, es, why) {
        RefusesSnoc(c, init, last, why);
      }
    }
  }

  lemma UndoesSnoc(c: View, init: seq<Effect>, last: Effect, back: seq<Effect>)
    ensures Undoes(c, init + [last], back) <==>
            exists one, rest :: TakesBack(c, last, one) && Undoes(c, init, rest) && back == one + rest
  {
    var es := init + [last];
    if parts :| TakesAllBack(c, es, parts) && back == Backwards(parts) {
      var few := parts[..|init|];
      assert parts == few + [parts[|init|]];
      forall i | 0 <= i < |init| ensures TakesBack(c, init[i], few[i]) {
        assert TakesBack(c, es[i], parts[i]);
      }
      assert TakesBack(c, es[|init|], parts[|init|]);
      assert TakesAllBack(c, init, few) && Undoes(c, init, Backwards(few));
    }
    if one, rest :| TakesBack(c, last, one) && Undoes(c, init, rest) && back == one + rest {
      var few :| TakesAllBack(c, init, few) && rest == Backwards(few);
      var parts := few + [one];
      assert parts[..|few|] == few;
      assert TakesAllBack(c, es, parts);
    }
  }

  lemma RefusesSnoc(c: View, init: seq<Effect>, last: Effect, why: Refusal)
    ensures RefusesAll(c, init + [last], why) <==>
            Refuses(c, last, why) || ((forall x :: !Refuses(c, last, x)) && RefusesAll(c, init, why))
  {
    var es := init + [last];
    assert es[|init|] == last && forall j | 0 <= j < |init| :: es[j] == init[j];
    if Refuses(c, last, why) {
      assert Refuses(c, es[|init|], why);
    }
    if (forall x :: !Refuses(c, last, x)) && RefusesAll(c, init, why) {
      var i :| 0 <= i < |init| && Refuses(c, init[i], why) && forall j, x | i < j < |init| :: !Refuses(c, init[j], x);
      assert Refuses(c, es[i], why);
    }
    if i :| 0 <= i < |es| && Refuses(c, es[i], why) && forall j, x | i < j < |es| :: !Refuses(c, es[j], x) {
      if i < |init| {
        assert Refuses(c, init[i], why) && forall j, x | i < j < |init| :: !Refuses(c, init[j], x);
        assert forall x :: !Refuses(c, es[|init|], x);
      }
    }
  }

  lemma InverseAnswers(c: View, es: seq<Effect>)
    ensures var r := Inverse(c, es); if r.Ok? then Undoes(c, es, r.value) else RefusesAll(c, es, r.error)
  {
    InverseExactly(c, es);
  }

  lemma InverseStep(c: View, es: seq<Effect>, i: nat, inverse: seq<Effect>)
    requires i < |es|
    ensures InverseOf(c, es[i]).Err? ==> Then(inverse, Inverse(c, es[..i + 1])) == InverseOf(c, es[i])
    ensures var one := InverseOf(c, es[i]);
            one.Ok? ==> Then(inverse, Inverse(c, es[..i + 1])) == Then(inverse + one.value, Inverse(c, es[..i]))
  {
    assert es[..i + 1][..i] == es[..i];
    var one, rest := InverseOf(c, es[i]), Inverse(c, es[..i]);
    if one.Ok? && rest.Ok? {
      assert inverse + (one.value + rest.value) == (inverse + one.value) + rest.value;
    }
  }

  method UndoEffects(c: View, es: seq<Effect>) returns (r: Result<seq<Effect>, Refusal>)
    ensures r == Inverse(c, es)
    ensures if r.Ok? then Undoes(c, es, r.value) else RefusesAll(c, es, r.error)
  {
    InverseAnswers(c, es);
    var inverse: seq<Effect> := [];
    assert es[..|es|] == es && (Inverse(c, es).Ok? ==> [] + Inverse(c, es).value == Inverse(c, es).value);
    for i := |es| downto 0
      invariant Inverse(c, es) == Then(inverse, Inverse(c, es[..i]))
    {
      InverseStep(c, es, i, inverse);
      var one := InverseOf(c, es[i]);
      if one.Err? {
        return one;
      }
      inverse := inverse + one.value;
    }
    assert es[..0] == [] && inverse + [] == inverse;
    return Ok(inverse);
  }

  predicate PointsHold(c: View, e: Effect) {
    e.Point? ==> Entity(c, e.entity) == Some(Id(e.to)) && !(e.from.Some? && e.from.value.Conflict?)
  }

  /**
   Undo is refused exactly when some effect is of a kind never undone, resolved a
   conflict, or has been moved on from.
   */
  lemma {:induction false} UndoAllowed(c: View, es: seq<Effect>)
    ensures Inverse(c, es).Ok? <==> forall e | e in es :: Undoable(e) && PointsHold(c, e)
    decreases |es|
  {
    if es != [] {
      var init, last := es[..|es| - 1], es[|es| - 1];
      UndoAllowed(c, init);
      assert es == init + [last];
      assert InverseOf(c, last).Ok? <==> Undoable(last) && PointsHold(c, last);
    }
  }

  // -------------------------------------------------------------------- places

  datatype Place =
    | OfEntity(id: EntityId)
    | OfProposed(rev: Oid)
    | OfClaim(claim: EntityId)
    | OfCap(cap: Oid)
    | OfScope(scope: string)

  /** What a view holds at a place; of a scope, whether it is paused. */
  function Held(v: View, p: Place): Option<TrieValue> {
    match p
    case OfEntity(id) => At(v.entities, id)
    case OfProposed(rev) => At(v.proposed, rev)
    case OfClaim(claim) => At(v.claims, claim)
    case OfCap(cap) => At(v.caps, cap)
    case OfScope(scope) => if Covers(v.paused, scope) then Some(Member) else None
  }

  /** The fields no undoable effect touches. */
  function Rest(v: View): View {
    v.(entities := map[], proposed := map[], claims := map[], caps := map[], paused := [])
  }

  /** The one place an effect writes, if it is of a kind an undo takes back or makes. */
  function PlaceOf(e: Effect): Option<Place> {
    match e
    case Point(entity, _, _) => Some(OfEntity(entity))
    case Unpoint(entity) => Some(OfEntity(entity))
    case Propose(rev) => Some(OfProposed(rev))
    case Unpropose(rev) => Some(OfProposed(rev))
    case Claim(claim, _) => Some(OfClaim(claim))
    case Unclaim(claim) => Some(OfClaim(claim))
    case Cap(cap) => Some(OfCap(cap))
    case Uncap(cap) => Some(OfCap(cap))
    case Pause(scope) => Some(OfScope(scope))
    case Resume(scope) => Some(OfScope(scope))
    case _ => None
  }

  function Written(e: Effect): Option<TrieValue> {
    match e
    case Point(_, to, _) => Some(Id(to))
    case Claim(_, to) => Some(Id(to))
    case Propose(_) => Some(Member)
    case Cap(_) => Some(Member)
    case Pause(_) => Some(Member)
    case _ => None
  }

  predicate Local(e: Effect) {
    e.Put? || PlaceOf(e).Some?
  }

  lemma CoversWithout(ps: seq<PauseState>, gone: string, scope: string)
    ensures Covers(WithoutScope(ps, gone), scope) <==> Covers(ps, scope) && scope != gone
  {
    if i :| 0 <= i < |ps| && ps[i].scope == scope && scope != gone {
      assert ps[i] in WithoutScope(ps, gone);
    }
    if Covers(WithoutScope(ps, gone), scope) {
      var j :| 0 <= j < |WithoutScope(ps, gone)| && WithoutScope(ps, gone)[j].scope == scope;
      assert WithoutScope(ps, gone)[j] in ps;
    }
  }

  lemma OneLocal(v: View, e: Effect, parent: Option<Oid>)
    requires Local(e)
    ensures ApplyOne(v, e, parent).Some? && Rest(ApplyOne(v, e, parent).value) == Rest(v)
    ensures !e.Pause? && !e.Resume? ==> ApplyOne(v, e, parent).value.paused == v.paused
  {
    match e
    case Pause(scope) =>
    case Resume(scope) =>
    case _ =>
  }

  lemma PauseCovers(v: View, scope: string, parent: Option<Oid>, other: string)
    ensures var r := ApplyOne(v, Pause(scope), parent);
            r.Some? && r.value == v.(paused := r.value.paused) &&
            (Covers(r.value.paused, other) <==> Covers(v.paused, other) || other == scope)
  {
    CoversSnoc(v.paused, PauseState(scope, FirstOwner(v, 0), parent.GetOr(0)), other);
  }

  lemma ResumeCovers(v: View, scope: string, parent: Option<Oid>, other: string)
    ensures var r := ApplyOne(v, Resume(scope), parent);
            r.Some? && r.value == v.(paused := r.value.paused) &&
            (Covers(r.value.paused, other) <==> Covers(v.paused, other) && other != scope)
  {
    CoversWithout(v.paused, scope, other);
  }

  lemma MapWrites(v: View, e: Effect, parent: Option<Oid>, p: Place)
    requires Local(e) && !e.Pause? && !e.Resume? && !p.OfScope?
    ensures var r := ApplyOne(v, e, parent);
            && r.Some? && Held(r.value, p) == (if PlaceOf(e) == Some(p) then Written(e) else Held(v, p))
  {}

  lemma OneWrites(v: View, e: Effect, parent: Option<Oid>, p: Place)
    requires Local(e)
    ensures var r := ApplyOne(v, e, parent);
            && r.Some? && Held(r.value, p) == (if PlaceOf(e) == Some(p) then Written(e) else Held(v, p))
  {
    if e.Pause? {
      PauseCovers(v, e.scope, parent, if p.OfScope? then p.scope else e.scope);
    } else if e.Resume? {
      ResumeCovers(v, e.scope, parent, if p.OfScope? then p.scope else e.scope);
    } else if p.OfScope? {
      OneLocal(v, e, parent);
    } else {
      MapWrites(v, e, parent, p);
    }
  }

  /** What the last effect at a place writes there, if any effect does. */
  function LastWrite(es: seq<Effect>, p: Place): Option<Option<TrieValue>> {
    if es == [] then None
    else
      var later := LastWrite(es[1..], p);
      if later.Some? then later
      else if PlaceOf(es[0]) == Some(p) then Some(Written(es[0]))
      else None
  }

  lemma {:induction false} ApplyWrites(v: View, es: seq<Effect>, parent: Option<Oid>, p: Place)
    requires forall e | e in es :: Local(e)
    ensures var r := Apply(v, es, parent);
            r.Some? && Rest(r.value) == Rest(v) && Held(r.value, p) == LastWrite(es, p).GetOr(Held(v, p))
    decreases |es|
  {
    if es != [] {
      OneLocal(v, es[0], parent);
      OneWrites(v, es[0], parent, p);
      ApplyWrites(ApplyOne(v, es[0], parent).value, es[1..], parent, p);
    }
  }

  /** The first effect at a place. */
  function FirstTouch(es: seq<Effect>, p: Place): Option<Effect> {
    if es == [] then None
    else if PlaceOf(es[0]) == Some(p) then Some(es[0])
    else FirstTouch(es[1..], p)
  }

  lemma {:induction false} LastWriteConcat(a: seq<Effect>, b: seq<Effect>, p: Place)
    ensures LastWrite(a + b, p) == if LastWrite(b, p).Some? then LastWrite(b, p) else LastWrite(a, p)
  {
    if a == [] {
      assert a + b == b;
    } else {
      assert (a + b)[1..] == a[1..] + b;
      LastWriteConcat(a[1..], b, p);
    }
  }

  lemma {:induction false} FirstTouchSnoc(es: seq<Effect>, e: Effect, p: Place)
    ensures FirstTouch(es + [e], p) ==
            if FirstTouch(es, p).Some? then FirstTouch(es, p)
            else if PlaceOf(e) == Some(p) then Some(e)
            else None
  {
    if es != [] {
      assert (es + [e])[1..] == es[1..] + [e];
      FirstTouchSnoc(es[1..], e, p);
    }
  }

  lemma {:induction false} FirstTouchIn(es: seq<Effect>, p: Place)
    requires FirstTouch(es, p).Some?
    ensures FirstTouch(es, p).value in es && PlaceOf(FirstTouch(es, p).value) == Some(p)
  {
    if PlaceOf(es[0]) != Some(p) {
      FirstTouchIn(es[1..], p);
    }
  }

  /** What the inverse of an effect puts back. */
  function PutBack(e: Effect): Option<TrieValue> {
    match e
    case Point(_, _, Some(Id(prev))) => Some(Id(prev))
    case Unpropose(_) => Some(Member)
    case Uncap(_) => Some(Member)
    case Resume(_) => Some(Member)
    case _ => None
  }

  lemma OneInverse(c: View, e: Effect, p: Place)
    requires InverseOf(c, e).Ok?
    ensures forall i | i in InverseOf(c, e).value :: Local(i)
    ensures LastWrite(InverseOf(c, e).value, p) == if PlaceOf(e) == Some(p) then Some(PutBack(e)) else None
  {}

  /** The inverse writes each place the effects touched, and leaves it as the first of them found it. */
  lemma {:induction false} InverseWrites(c: View, es: seq<Effect>, p: Place)
    requires Inverse(c, es).Ok?
    ensures forall e | e in Inverse(c, es).value :: Local(e)
    ensures LastWrite(Inverse(c, es).value, p) ==
            match FirstTouch(es, p) case Some(e) => Some(PutBack(e)) case None => None
    decreases |es|
  {
    if es != [] {
      var init, last := es[..|es| - 1], es[|es| - 1];
      InverseWrites(c, init, p);
      OneInverse(c, last, p);
      LastWriteConcat(InverseOf(c, last).value, Inverse(c, init).value, p);
      FirstTouchSnoc(init, last, p);
      assert es == init + [last];
    }
  }

  // --------------------------------------------------------------- main results

  /**
   An undo applied to whatever view it was computed from, however much later:
   it puts back what the first effect at each touched place had found, and
   changes nothing else.
   */
  lemma {:induction false} UndoChangesOnlyTouched(c: View, es: seq<Effect>, parent: Option<Oid>, p: Place)
    requires Inverse(c, es).Ok?
    ensures var r := Apply(c, Inverse(c, es).value, parent);
            && r.Some? && Rest(r.value) == Rest(c)
            && Held(r.value, p) ==
               match FirstTouch(es, p) case Some(e) => PutBack(e) case None => Held(c, p)
  {
    InverseWrites(c, es, p);
    ApplyWrites(c, Inverse(c, es).value, parent, p);
  }

  /** The `from` of every point an undo makes is the entity's current pointer. */
  lemma {:induction false} UndoPointsAreCurrent(c: View, es: seq<Effect>, i: Effect)
    requires Inverse(c, es).Ok? && i in Inverse(c, es).value && i.Point?
    ensures Entity(c, i.entity) == i.from
    decreases |es|
  {
    if i !in InverseOf(c, es[|es| - 1]).value {
      UndoPointsAreCurrent(c, es[..|es| - 1], i);
    }
  }

  ghost predicate NoMembers<K(!new)>(m: map<K, TrieValue>) {
    forall k | k in m :: !m[k].Member?
  }

  ghost predicate OnlyMembers<K(!new)>(m: map<K, TrieValue>) {
    forall k | k in m :: m[k].Member?
  }

  /** Pointer maps hold pointers, set maps membership: what effects and merges build. */
  ghost predicate Kinds(v: View) {
    NoMembers(v.entities) && OnlyMembers(v.proposed) && OnlyMembers(v.caps)
  }

  /** Every point names the pointer its entity had, as verification demands. */
  predicate FromsHold(v: View, es: seq<Effect>) {
    forall e | e in es && e.Point? :: Entity(v, e.entity) == e.from
  }

  /**
   Whether an effect other than a point finds its place free to change: a claim must
   find none, not just another one.
   */
  predicate Changes(v: View, e: Effect) {
    match e
    case Propose(rev) => rev !in v.proposed
    case Unpropose(rev) => rev in v.proposed
    case Claim(claim, _) => claim !in v.claims
    case Cap(cap) => cap !in v.caps
    case Uncap(cap) => cap in v.caps
    case Pause(scope) => !Covers(v.paused, scope)
    case Resume(scope) => Covers(v.paused, scope)
    case _ => true
  }

  /** The first effect at every place changes it. */
  ghost predicate FirstsChange(v: View, es: seq<Effect>) {
    forall p {:trigger FirstTouch(es, p)} | FirstTouch(es, p).Some? :: Changes(v, FirstTouch(es, p).value)
  }

  lemma PutBackIsHeld(v: View, e: Effect, p: Place)
    requires Kinds(v) && PlaceOf(e) == Some(p) && Undoable(e)
    requires e.Point? ==> Entity(v, e.entity) == e.from && !(e.from.Some? && e.from.value.Conflict?)
    ensures PutBack(e) == Held(v, p) <==> Changes(v, e)
  {}

  ghost predicate SamePlaces(a: View, b: View) {
    && Rest(a) == Rest(b)
    && forall p {:trigger Held(a, p)} {:trigger Held(b, p)} :: Held(a, p) == Held(b, p)
  }

  /**
   Applied to the op's own view, an undo gives back the view the op started from
   (of each scope, whether it is paused) if and only if the first effect at every
   place it touched changed that place.
   */
  lemma {:induction false} UndoRestores(v: View, es: seq<Effect>, parent: Option<Oid>, x: View, later: Option<Oid>)
    requires Kinds(v) && FromsHold(v, es) && Apply(v, es, parent) == Some(x) && Inverse(x, es).Ok?
    ensures Apply(x, Inverse(x, es).value, later).Some?
    ensures SamePlaces(Apply(x, Inverse(x, es).value, later).value, v) <==> FirstsChange(v, es)
  {
    UndoAllowed(x, es);
    UndoChangesOnlyTouched(x, es, later, OfEntity(0));
    var r := Apply(x, Inverse(x, es).value, later).value;
    forall p ensures FirstTouch(es, p).None? ==> Held(r, p) == Held(v, p)
             ensures FirstTouch(es, p).Some? ==> (Held(r, p) == Held(v, p) <==> Changes(v, FirstTouch(es, p).value))
             ensures Rest(r) == Rest(v)
    {
      RestoredAt(v, es, parent, x, later, p);
    }
  }

  lemma {:induction false} RestoredAt(v: View, es: seq<Effect>, parent: Option<Oid>, x: View, later: Option<Oid>,
                                      p: Place)
    requires Kinds(v) && FromsHold(v, es) && Apply(v, es, parent) == Some(x) && Inverse(x, es).Ok?
    ensures var r := Apply(x, Inverse(x, es).value, later);
            && r.Some? && Rest(r.value) == Rest(v)
            && match FirstTouch(es, p)
               case None => Held(r.value, p) == Held(v, p)
               case Some(e) => Held(r.value, p) == Held(v, p) <==> Changes(v, e)
  {
    UndoAllowed(x, es);
    ApplyWrites(v, es, parent, p);
    UndoChangesOnlyTouched(x, es, later, p);
    if FirstTouch(es, p).Some? {
      FirstTouchIn(es, p);
      PutBackIsHeld(v, FirstTouch(es, p).value, p);
    } else {
      NoTouchNoWrite(es, p);
    }
  }

  lemma {:induction false} NoTouchNoWrite(es: seq<Effect>, p: Place)
    requires FirstTouch(es, p).None?
    ensures LastWrite(es, p).None?
  {
    if es != [] {
      NoTouchNoWrite(es[1..], p);
    }
  }

  lemma SamePlacesSameView(a: View, b: View)
    requires SamePlaces(a, b) && a.paused == b.paused
    ensures a == b
  {
    forall k ensures At(a.entities, k) == At(b.entities, k) && At(a.claims, k) == At(b.claims, k) {
      assert Held(a, OfEntity(k)) == Held(b, OfEntity(k)) && Held(a, OfClaim(k)) == Held(b, OfClaim(k));
    }
    forall k ensures At(a.proposed, k) == At(b.proposed, k) && At(a.caps, k) == At(b.caps, k) {
      assert Held(a, OfProposed(k)) == Held(b, OfProposed(k)) && Held(a, OfCap(k)) == Held(b, OfCap(k));
    }
    SameMap(a.entities, b.entities);
    SameMap(a.claims, b.claims);
    SameMap(a.proposed, b.proposed);
    SameMap(a.caps, b.caps);
    assert Rest(a).lines == a.lines && Rest(b).lines == b.lines;
    assert Rest(a).revoked == a.revoked && Rest(b).revoked == b.revoked;
  }

  // -------------------------------------------------------------------- pauses

  /** Pauses of scopes outside `scopes`, in order. */
  function Others(ps: seq<PauseState>, scopes: set<string>): seq<PauseState> {
    if ps == [] then [] else (if ps[0].scope in scopes then [] else [ps[0]]) + Others(ps[1..], scopes)
  }

  lemma {:induction false} OthersConcat(a: seq<PauseState>, b: seq<PauseState>, scopes: set<string>)
    ensures Others(a + b, scopes) == Others(a, scopes) + Others(b, scopes)
  {
    if a == [] {
      assert a + b == b;
    } else {
      assert (a + b)[1..] == a[1..] + b;
      OthersConcat(a[1..], b, scopes);
    }
  }

  lemma {:induction false} OthersWithout(ps: seq<PauseState>, scope: string, scopes: set<string>)
    requires scope in scopes
    ensures Others(WithoutScope(ps, scope), scopes) == Others(ps, scopes)
  {
    if ps != [] {
      OthersWithout(ps[1..], scope, scopes);
      var head := if ps[0].scope == scope then [] else [ps[0]];
      OthersConcat(head, WithoutScope(ps[1..], scope), scopes);
    }
  }

  lemma {:induction false} OthersAll(ps: seq<PauseState>, scopes: set<string>)
    requires forall q | q in ps :: q.scope !in scopes
    ensures Others(ps, scopes) == ps
  {
    if ps != [] {
      assert ps[0] in ps;
      OthersAll(ps[1..], scopes);
    }
  }

  lemma {:induction false} OthersIn(ps: seq<PauseState>, scopes: set<string>, q: PauseState)
    ensures q in Others(ps, scopes) <==> q in ps && q.scope !in scopes
  {
    if ps != [] {
      OthersIn(ps[1..], scopes, q);
    }
  }

  function ScopesOf(es: seq<Effect>): set<string> {
    set e | e in es && (e.Pause? || e.Resume?) :: e.scope
  }

  lemma PausedAfter(v: View, scope: string, parent: Option<Oid>)
    ensures var r := ApplyOne(v, Pause(scope), parent);
            && r.Some?
            && (r.value.paused == v.paused
                || r.value.paused == v.paused + [PauseState(scope, FirstOwner(v, 0), parent.GetOr(0))])
  {}

  lemma PauseKeepsOthers(v: View, scope: string, parent: Option<Oid>, scopes: set<string>)
    requires scope in scopes
    ensures ApplyOne(v, Pause(scope), parent).Some?
    ensures Others(ApplyOne(v, Pause(scope), parent).value.paused, scopes) == Others(v.paused, scopes)
  {
    var q := PauseState(scope, FirstOwner(v, 0), parent.GetOr(0));
    PausedAfter(v, scope, parent);
    OthersConcat(v.paused, [q], scopes);
    OthersNone(q, scopes);
  }

  lemma OthersNone(q: PauseState, scopes: set<string>)
    requires q.scope in scopes
    ensures Others([q], scopes) == []
  {}

  lemma OneKeepsOthers(v: View, e: Effect, parent: Option<Oid>, scopes: set<string>)
    requires Local(e) && (e.Pause? || e.Resume? ==> e.scope in scopes)
    ensures ApplyOne(v, e, parent).Some?
    ensures Others(ApplyOne(v, e, parent).value.paused, scopes) == Others(v.paused, scopes)
  {
    OneLocal(v, e, parent);
    if e.Pause? {
      PauseKeepsOthers(v, e.scope, parent, scopes);
    } else if e.Resume? {
      OthersWithout(v.paused, e.scope, scopes);
    }
  }

  /** Effects leave the pauses of scopes they do not name, and their order. */
  lemma {:induction false} ApplyKeepsOthers(v: View, es: seq<Effect>, parent: Option<Oid>, scopes: set<string>)
    requires (forall e | e in es :: Local(e)) && ScopesOf(es) <= scopes
    ensures Apply(v, es, parent).Some? && Others(Apply(v, es, parent).value.paused, scopes) == Others(v.paused, scopes)
    decreases |es|
  {
    if es != [] {
      assert es[0] in es;
      OneKeepsOthers(v, es[0], parent, scopes);
      ApplyKeepsOthers(ApplyOne(v, es[0], parent).value, es[1..], parent, scopes);
    }
  }

  lemma ScopesConcat(a: seq<Effect>, b: seq<Effect>)
    ensures ScopesOf(a + b) == ScopesOf(a) + ScopesOf(b)
  {}

  lemma OneInverseScopes(c: View, e: Effect)
    requires InverseOf(c, e).Ok?
    ensures ScopesOf(InverseOf(c, e).value) == ScopesOf([e])
  {
    if e.Pause? {
      assert ScopesOf([e]) == {e.scope} == ScopesOf([Resume(e.scope)]);
    } else if e.Resume? {
      assert ScopesOf([e]) == {e.scope} == ScopesOf([Pause(e.scope)]);
    } else {
      assert ScopesOf([e]) == {} == ScopesOf(InverseOf(c, e).value);
    }
  }

  lemma {:induction false} InverseScopes(c: View, es: seq<Effect>)
    requires Inverse(c, es).Ok?
    ensures ScopesOf(Inverse(c, es).value) == ScopesOf(es)
    decreases |es|
  {
    if es != [] {
      var init, last := es[..|es| - 1], es[|es| - 1];
      InverseScopes(c, init);
      OneInverseScopes(c, last);
      ScopesConcat(InverseOf(c, last).value, Inverse(c, init).value);
      ScopesConcat(init, [last]);
      assert es == init + [last];
    }
  }

  lemma {:induction false} OthersRestored(v: View, es: seq<Effect>, parent: Option<Oid>, x: View, later: Option<Oid>)
    requires Apply(v, es, parent) == Some(x) && Inverse(x, es).Ok?
    ensures var r := Apply(x, Inverse(x, es).value, later);
            r.Some? && Others(r.value.paused, ScopesOf(es)) == Others(v.paused, ScopesOf(es))
  {
    UndoAllowed(x, es);
    InverseWrites(x, es, OfEntity(0));
    InverseScopes(x, es);
    ApplyKeepsOthers(v, es, parent, ScopesOf(es));
    ApplyKeepsOthers(x, Inverse(x, es).value, later, ScopesOf(es));
  }

  /** No scope was resumed before it was paused: an undo brings no pause back. */
  ghost predicate NoneResumed(es: seq<Effect>) {
    forall scope {:trigger FirstTouch(es, OfScope(scope))} ::
      FirstTouch(es, OfScope(scope)).Some? ==> FirstTouch(es, OfScope(scope)).value.Pause?
  }

  lemma {:induction false} TouchedScope(es: seq<Effect>, scope: string)
    ensures FirstTouch(es, OfScope(scope)).Some? <==> scope in ScopesOf(es)
  {
    if es != [] {
      TouchedScope(es[1..], scope);
      assert es == [es[0]] + es[1..];
      assert ScopesOf(es) == ScopesOf([es[0]]) + ScopesOf(es[1..]);
    }
  }

  /** Places put back, and scopes only paused in between, leave the list of pauses as it was. */
  lemma {:induction false} PausesRestored(v: View, es: seq<Effect>, r: View)
    requires SamePlaces(r, v) && FirstsChange(v, es) && NoneResumed(es)
    requires Others(r.paused, ScopesOf(es)) == Others(v.paused, ScopesOf(es))
    ensures r.paused == v.paused
  {
    forall scope | scope in ScopesOf(es) ensures !Covers(v.paused, scope) && !Covers(r.paused, scope) {
      TouchedScope(es, scope);
      FirstTouchIn(es, OfScope(scope));
      assert Changes(v, FirstTouch(es, OfScope(scope)).value);
      assert Held(v, OfScope(scope)) == Held(r, OfScope(scope));
    }
    OthersAll(v.paused, ScopesOf(es));
    OthersAll(r.paused, ScopesOf(es));
  }

  /** Unless a scope was resumed first, the view comes back exactly, under the same condition. */
  lemma {:induction false} UndoInverts(v: View, es: seq<Effect>, parent: Option<Oid>, x: View, later: Option<Oid>)
    requires Kinds(v) && FromsHold(v, es) && Apply(v, es, parent) == Some(x) && Inverse(x, es).Ok? && NoneResumed(es)
    ensures Apply(x, Inverse(x, es).value, later) == Some(v) <==> FirstsChange(v, es)
  {
    UndoRestores(v, es, parent, x, later);
    if FirstsChange(v, es) {
      OthersRestored(v, es, parent, x, later);
      var r := Apply(x, Inverse(x, es).value, later).value;
      PausesRestored(v, es, r);
      SamePlacesSameView(r, v);
    }
  }

  /** A pause made by the first owner in an op on `parent`. */
  function NewPause(v: View, scope: string, parent: Option<Oid>): PauseState {
    PauseState(scope, FirstOwner(v, 0), parent.GetOr(0))
  }

  /** Every pause of the scope in `v` is the new one. */
  predicate OnlyNew(v: View, scope: string, parent: Option<Oid>) {
    forall q | q in v.paused && q.scope == scope :: q == NewPause(v, scope, parent)
  }

  lemma OneStaysNew(v: View, e: Effect, parent: Option<Oid>, scope: string)
    requires Local(e) && (OnlyNew(v, scope, parent) || e == Resume(scope))
    ensures ApplyOne(v, e, parent).Some? && OnlyNew(ApplyOne(v, e, parent).value, scope, parent)
  {
    OneLocal(v, e, parent);
    match e
    case Pause(s) =>
      assert Covers(v.paused, s) || ApplyOne(v, e, parent).value.paused == v.paused + [NewPause(v, s, parent)];
    case _ =>
  }

  lemma {:induction false} ApplyStaysNew(v: View, es: seq<Effect>, parent: Option<Oid>, scope: string)
    requires forall e | e in es :: Local(e)
    requires OnlyNew(v, scope, parent) || FirstTouch(es, OfScope(scope)) == Some(Resume(scope))
    ensures Apply(v, es, parent).Some? && OnlyNew(Apply(v, es, parent).value, scope, parent)
    decreases |es|
  {
    if es != [] {
      OneLocal(v, es[0], parent);
      if OnlyNew(v, scope, parent) || es[0] == Resume(scope) {
        OneStaysNew(v, es[0], parent, scope);
      }
      ApplyStaysNew(ApplyOne(v, es[0], parent).value, es[1..], parent, scope);
    }
  }

  lemma {:induction false} FirstTouchConcat(a: seq<Effect>, b: seq<Effect>, p: Place)
    ensures FirstTouch(a + b, p) == if FirstTouch(a, p).Some? then FirstTouch(a, p) else FirstTouch(b, p)
  {
    if a == [] {
      assert a + b == b;
    } else {
      assert (a + b)[1..] == a[1..] + b;
      FirstTouchConcat(a[1..], b, p);
    }
  }

  /** An op that leaves a scope paused has its undo resume that scope before anything else is done to it. */
  lemma {:induction false} InverseResumesFirst(c: View, es: seq<Effect>, scope: string)
    requires Inverse(c, es).Ok? && LastWrite(es, OfScope(scope)) == Some(Some(Member))
    ensures FirstTouch(Inverse(c, es).value, OfScope(scope)) == Some(Resume(scope))
    decreases |es|
  {
    var init, last := es[..|es| - 1], es[|es| - 1];
    var one := InverseOf(c, last).value;
    assert es == init + [last];
    LastWriteConcat(init, [last], OfScope(scope));
    FirstTouchConcat(one, Inverse(c, init).value, OfScope(scope));
    if PlaceOf(last) == Some(OfScope(scope)) {
      assert last == Pause(scope);
    } else {
      InverseResumesFirst(c, init, scope);
    }
  }

  lemma {:induction false} TouchedIsWritten(es: seq<Effect>, p: Place)
    ensures FirstTouch(es, p).Some? <==> LastWrite(es, p).Some?
  {
    if es != [] {
      TouchedIsWritten(es[1..], p);
    }
  }

  /** After an undo on the op's own view, a scope the op touched is paused only anew. */
  lemma {:induction false} TouchedPausesAreNew(v: View, es: seq<Effect>, parent: Option<Oid>, x: View,
                                              later: Option<Oid>, scope: string)
    requires Apply(v, es, parent) == Some(x) && Inverse(x, es).Ok? && scope in ScopesOf(es)
    ensures var r := Apply(x, Inverse(x, es).value, later);
            r.Some? && OnlyNew(r.value, scope, later) && Rest(r.value) == Rest(v)
  {
    UndoAllowed(x, es);
    InverseWrites(x, es, OfScope(scope));
    ApplyWrites(v, es, parent, OfScope(scope));
    UndoChangesOnlyTouched(x, es, later, OfScope(scope));
    TouchedScope(es, scope);
    TouchedIsWritten(es, OfScope(scope));
    if LastWrite(es, OfScope(scope)) == Some(Some(Member)) {
      InverseResumesFirst(x, es, scope);
    } else {
      LastScopeWrite(es, scope);
      assert !Covers(x.paused, scope);
    }
    ApplyStaysNew(x, Inverse(x, es).value, later, scope);
  }

  lemma {:induction false} LastScopeWrite(es: seq<Effect>, scope: string)
    requires LastWrite(es, OfScope(scope)).Some?
    ensures LastWrite(es, OfScope(scope)).value == Some(Member) || LastWrite(es, OfScope(scope)).value == None
  {
    if LastWrite(es[1..], OfScope(scope)).Some? {
      LastScopeWrite(es[1..], scope);
    }
  }

  /**
   The pauses after an undo on the op's own view: those of untouched scopes as
   they were, and of a scope that was resumed first a new one, made by the first
   owner and carrying the undo's parent.
   */
  lemma {:induction false} UndoPauses(v: View, es: seq<Effect>, parent: Option<Oid>, x: View, later: Option<Oid>,
                                      q: PauseState)
    requires Apply(v, es, parent) == Some(x) && Inverse(x, es).Ok?
    ensures var r := Apply(x, Inverse(x, es).value, later);
            && r.Some?
            && (q in r.value.paused <==>
                match FirstTouch(es, OfScope(q.scope))
                case None => q in v.paused
                case Some(e) => e.Resume? && q == NewPause(v, q.scope, later))
  {
    var place := OfScope(q.scope);
    UndoChangesOnlyTouched(x, es, later, place);
    var r := Apply(x, Inverse(x, es).value, later).value;
    OthersRestored(v, es, parent, x, later);
    OthersIn(r.paused, ScopesOf(es), q);
    OthersIn(v.paused, ScopesOf(es), q);
    TouchedScope(es, q.scope);
    if q.scope in ScopesOf(es) {
      TouchedPausesAreNew(v, es, parent, x, later, q.scope);
      FirstTouchIn(es, place);
      SameOwners(r, v);
      if q in r.paused {
        var i :| 0 <= i < |r.paused| && r.paused[i] == q;
        assert Covers(r.paused, q.scope);
      } else if Covers(r.paused, q.scope) {
        var i :| 0 <= i < |r.paused| && r.paused[i].scope == q.scope;
        assert r.paused[i] in r.paused;
      }
    }
  }

  lemma SameOwners(a: View, b: View)
    requires Rest(a) == Rest(b)
    ensures FirstOwner(a, 0) == FirstOwner(b, 0)
  {
    assert Rest(a).owners == a.owners && Rest(b).owners == b.owners;
  }

  /**
   On the op's own view an undo is refused exactly for a kind of effect, a resolved
   conflict, or an entity pointed at twice apart.
   */
  lemma {:induction false} OwnUndoAllowed(v: View, es: seq<Effect>, parent: Option<Oid>, x: View)
    requires Apply(v, es, parent) == Some(x) && forall e | e in es :: Undoable(e)
    ensures Inverse(x, es).Ok? <==>
            && (forall e | e in es && e.Point? :: !(e.from.Some? && e.from.value.Conflict?))
            && (forall e, f | e in es && f in es && e.Point? && f.Point? && e.entity == f.entity :: e.to == f.to)
  {
    UndoAllowed(x, es);
    forall e | e in es && e.Point?
      ensures exists f :: f in es && f.Point? && f.entity == e.entity && Entity(x, e.entity) == Some(Id(f.to))
    {
      ApplyWrites(v, es, parent, OfEntity(e.entity));
      var f := LastPoint(es, e);
    }
  }

  lemma {:induction false} LastPoint(es: seq<Effect>, e: Effect) returns (f: Effect)
    requires e in es && e.Point? && forall i | i in es :: Undoable(i)
    ensures f in es && f.Point? && f.entity == e.entity && LastWrite(es, OfEntity(e.entity)) == Some(Some(Id(f.to)))
  {
    if later :| later in es[1..] && later.Point? && later.entity == e.entity {
      f := LastPoint(es[1..], later);
    } else {
      f := es[0];
      NoPointNoWrite(es[1..], e.entity);
    }
  }

  lemma {:induction false} NoPointNoWrite(es: seq<Effect>, entity: EntityId)
    requires forall i | i in es :: Undoable(i) && !(i.Point? && i.entity == entity)
    ensures LastWrite(es, OfEntity(entity)).None?
  {
    if es != [] {
      NoPointNoWrite(es[1..], entity);
    }
  }

  /** A claim written over another is undone to none: the change is not taken back. */
  lemma {:induction false} ClaimOverClaimNotRestored(v: View, claim: EntityId, was: Oid, to: Oid, parent: Option<Oid>,
                                                     x: View)
    requires At(v.claims, claim) == Some(Id(was)) && was != to && Apply(v, [Claim(claim, to)], parent) == Some(x)
    ensures x != v && Inverse(x, [Claim(claim, to)]).Ok?
    ensures Apply(x, Inverse(x, [Claim(claim, to)]).value, parent) != Some(v)
  {
    var es := [Claim(claim, to)];
    ApplyWrites(v, es, parent, OfClaim(claim));
    assert LastWrite(es, OfClaim(claim)) == Some(Some(Id(to)));
    UndoAllowed(x, es);
    UndoChangesOnlyTouched(x, es, parent, OfClaim(claim));
    assert FirstTouch(es, OfClaim(claim)) == Some(es[0]);
  }
}
