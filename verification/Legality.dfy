/**
 Legality of an op's effects at the view it saw: what may be pointed where, who
 may advance a line, and which revisions have landed and may no longer change.
 */
module Legality {
  import opened Options
  import opened Ids
  import opened Values
  import opened Views
  import opened World

  // ----------------------------------------------------------- landed revisions

  function ParentsOf(w: World, id: Oid): seq<Oid> {
    var r := w.RevisionAt(id);
    if r.Some? then r.value.parents else []
  }

  /** Every ID a line head holds, each side of a conflict counted. */
  function HeadIds(v: View): set<Oid> {
    set line, id | line in v.lines && id in ValueIds(v.lines[line].head) :: id
  }

  /** `id` is `n` parent links below a line head. */
  ghost predicate Below(w: World, v: View, id: Oid, n: nat)
    decreases n
  {
    if n == 0 then id in HeadIds(v)
    else exists child :: Below(w, v, child, n - 1) && id in ParentsOf(w, child)
  }

  ghost predicate HasLanded(w: World, v: View, id: Oid) {
    exists n: nat :: Below(w, v, id, n)
  }

  /** Every ID a stored revision names as a parent, or a line head holds. */
  ghost function Mentioned(w: World, v: View): set<Oid> {
    HeadIds(v) + set child, id | child in w.objects && id in ParentsOf(w, child) :: id
  }

  ghost function Landed(w: World, v: View): set<Oid> {
    set id | id in Mentioned(w, v) && HasLanded(w, v, id)
  }

  lemma LandedIsReached(w: World, v: View, id: Oid)
    ensures id in Landed(w, v) <==> HasLanded(w, v, id)
  {
    if n: nat :| Below(w, v, id, n) {
      if n > 0 {
        var child :| Below(w, v, child, n - 1) && id in ParentsOf(w, child);
        assert child in w.objects;
      }
    }
  }

  lemma HeadsLanded(w: World, v: View)
    ensures HeadIds(v) <= Landed(w, v)
  {
    forall id | id in HeadIds(v) ensures id in Landed(w, v) {
      assert Below(w, v, id, 0);
    }
  }

  lemma ParentsLanded(w: World, v: View, child: Oid)
    requires child in Landed(w, v)
    ensures Members(ParentsOf(w, child)) <= Landed(w, v)
  {
    var n: nat :| Below(w, v, child, n);
    forall id | id in ParentsOf(w, child) ensures id in Landed(w, v) {
      assert Below(w, v, id, n + 1);
      LandedIsReached(w, v, id);
    }
  }

  /** Nothing smaller holds the heads and, with a revision, its parents. */
  lemma {:induction false} LandedIsLeast(w: World, v: View, seen: set<Oid>)
    requires HeadIds(v) <= seen && forall child | child in seen :: Members(ParentsOf(w, child)) <= seen
    ensures Landed(w, v) <= seen
  {
    forall id | id in Landed(w, v) ensures id in seen {
      var n: nat :| Below(w, v, id, n);
      BelowStays(w, v, seen, id, n);
    }
  }

  lemma {:induction false} BelowStays(w: World, v: View, seen: set<Oid>, id: Oid, n: nat)
    requires HeadIds(v) <= seen && forall child | child in seen :: Members(ParentsOf(w, child)) <= seen
    requires Below(w, v, id, n)
    ensures id in seen
    decreases n
  {
    if n > 0 {
      var child :| Below(w, v, child, n - 1) && id in ParentsOf(w, child);
      BelowStays(w, v, seen, child, n - 1);
      assert id in Members(ParentsOf(w, child));
    }
  }

  ghost predicate Walked(w: World, v: View, seen: set<Oid>, queue: seq<Oid>) {
    && HeadIds(v) <= seen + Members(queue) <= Landed(w, v)
    && forall child | child in seen :: Members(ParentsOf(w, child)) <= seen + Members(queue)
  }

  lemma WalkedStep(w: World, v: View, seen: set<Oid>, queue: seq<Oid>)
    requires Walked(w, v, seen, queue) && queue != []
    ensures queue[0] in seen ==> Walked(w, v, seen, queue[1..])
    ensures Walked(w, v, seen + {queue[0]}, queue[1..] + ParentsOf(w, queue[0]))
  {
    var id, rest := queue[0], queue[1..];
    assert Members(queue) == {id} + Members(rest) by {
      assert queue == [id] + rest;
    }
    ParentsLanded(w, v, id);
    assert Members(rest + ParentsOf(w, id)) == Members(rest) + Members(ParentsOf(w, id));
  }

  /** Every revision below a line head, by a queue over parents. */
  method LandedRevisions(w: World, v: View) returns (seen: set<Oid>)
    ensures seen == Landed(w, v)
  {
    seen := {};
    var queue := SortIds(HeadIds(v));
    HeadsLanded(w, v);
    while queue != []
      invariant Walked(w, v, seen, queue)
      decreases w.objects.Keys - seen, |queue|
    {
      var id := queue[0];
      WalkedStep(w, v, seen, queue);
      if id in seen {
        queue := queue[1..];
      } else {
        seen, queue := seen + {id}, queue[1..] + ParentsOf(w, id);
      }
    }
    LandedIsLeast(w, v, seen);
  }

  // ------------------------------------------------------------ effect by effect

  predicate RevisionLegal(op: Op, entity: EntityId, at: Option<TrieValue>, r: Revision, landed: set<Oid>) {
    && r.id == entity
    && match at
       case Some(Id(cur)) => (cur !in landed || op.kind == "restack") && r.prev == Some(cur)
       case _ => true
  }

  /** A session is signed by the agent it belongs to, any other principal by the owner who makes it. */
  predicate NewPrincipalLegal(w: World, v: View, op: Op, isOwner: bool, to: Oid, p: Principal) {
    if p.kind == "session" then
      && p.parent.Some?
      && var agent := ResolvePrincipal(w, v, p.parent.value);
         && agent.Ok? && agent.value.Some?
         && agent.value.value.1.kind == "agent" && agent.value.value.1.key.Some?
         && w.objectSigned(to, agent.value.value.1.key.value)
    else isOwner && w.objectSigned(to, op.key)
  }

  /** A rotation is signed by the key before it; a revocation needs an owner or a revocation on record. */
  predicate NextPrincipalLegal(w: World, v: View, isOwner: bool, to: Oid, cur: Oid, p: Principal) {
    var before := w.PrincipalAt(cur);
    && before.Some? && p.prev == Some(cur)
    && if p.status == "revoked" then isOwner || InSet(v.revoked, p.id)
       else before.value.key.Some? && w.objectSigned(to, before.value.key.value)
  }

  predicate PrincipalLegal(w: World, v: View, op: Op, isOwner: bool, entity: EntityId, to: Oid, p: Principal) {
    && p.id == entity
    && match Entity(v, entity)
       case None => NewPrincipalLegal(w, v, op, isOwner, to, p)
       case Some(Id(cur)) => NextPrincipalLegal(w, v, isOwner, to, cur, p)
       case _ => true
  }

  predicate PointLegal(w: World, v: View, op: Op, isOwner: bool, e: Effect, landed: set<Oid>)
    requires e.Point?
  {
    && Entity(v, e.entity) == e.from
    && e.to in w.objects
    && match w.objects[e.to]
       case RevisionObject(r) => RevisionLegal(op, e.entity, Entity(v, e.entity), r, landed)
       case HookObject(runsAs) => runsAs == op.author || isOwner
       case PrincipalObject(p) => PrincipalLegal(w, v, op, isOwner, e.entity, e.to, p)
       case _ => true
  }

  /** The object an op's first point gives an entity. */
  function PointedIn(es: seq<Effect>, entity: EntityId): Option<Oid> {
    if es == [] then None
    else if es[0].Point? && es[0].entity == entity then Some(es[0].to)
    else PointedIn(es[1..], entity)
  }

  /** Whether a revision's intent is a commit imported as history; none when its object is missing. */
  function LegacyIntent(w: World, v: View, op: Op, rev: Revision): Option<bool> {
    if rev.intent.None? then Some(false)
    else
      var here, there := PointedIn(op.effects, rev.intent.value), Entity(v, rev.intent.value);
      if here.Some? then IntentAt(w, here.value)
      else if there.Some? && there.value.Id? then IntentAt(w, there.value.id)
      else Some(false)
  }

  function IntentAt(w: World, id: Oid): Option<bool> {
    if id in w.objects && w.objects[id].IntentObject? then Some(w.objects[id].legacy) else None
  }

  predicate MeetsStandard(w: World, v: View, ls: LineState, to: Oid, attests: seq<Oid>) {
    match Entity(v, ls.id)
    case Some(Id(line)) =>
      line in w.objects && w.objects[line].LineObject? && w.standardMet(v, w.objects[line].standard, to, attests)
    case _ => false
  }

  /** A landing meets its line's standard, or is an owner's imported commit on the head itself. */
  predicate LandingMet(w: World, v: View, op: Op, isOwner: bool, ls: LineState, to: Oid, rev: Revision,
                       attests: seq<Oid>)
  {
    && (forall i | 0 <= i < |attests| :: attests[i] in w.objects)
    && if isOwner && op.kind == "import" && attests == [] then
         match LegacyIntent(w, v, op, rev)
         case None => false
         case Some(true) => ls.head.Id? && rev.parents != [] && rev.parents[0] == ls.head.id
         case Some(false) => MeetsStandard(w, v, ls, to, attests)
       else MeetsStandard(w, v, ls, to, attests)
  }

  predicate HeadLegal(w: World, v: View, op: Op, isOwner: bool, e: Effect)
    requires e.Head?
  {
    var rev := w.RevisionAt(e.to);
    && rev.Some?
    && if e.line !in v.lines then isOwner && e.lineId.Some? && e.from.None? && e.seqno == 0
       else
         var ls := v.lines[e.line];
         && ls.coordinator == op.author && e.from == Some(ls.head) && e.seqno == ls.seqno + 1
         && LandingMet(w, v, op, isOwner, ls, e.to, rev.value, e.attests)
  }

  predicate ClaimLegal(w: World, op: Op, claim: EntityId, to: Oid) {
    to in w.objects && w.objects[to] == ClaimObject(claim, op.author)
  }

  /** The current pointer of a claim. */
  function ClaimOf(v: View, claim: EntityId): Option<TrieValue> {
    At(v.claims, claim)
  }

  predicate UnclaimLegal(w: World, v: View, op: Op, isOwner: bool, claim: EntityId) {
    match ClaimOf(v, claim)
    case Some(Id(cur)) =>
      cur in w.objects && w.objects[cur].ClaimObject? && (w.objects[cur].holder == op.author || isOwner)
    case _ => true
  }

  predicate EffectLegal(w: World, v: View, op: Op, isOwner: bool, e: Effect, landed: set<Oid>) {
    match e
    case Point(_, _, _) => PointLegal(w, v, op, isOwner, e, landed)
    case Head(_, _, _, _, _, _) => HeadLegal(w, v, op, isOwner, e)
    case Tomb(_, _) => op.kind == "redact"
    case Owner(_) => isOwner
    case Unowner(_) => isOwner
    case Coordinator(_, _) => isOwner
    case Claim(claim, to) => ClaimLegal(w, op, claim, to)
    case Unclaim(claim) => UnclaimLegal(w, v, op, isOwner, claim)
    case _ => true
  }

  predicate Legal(w: World, v: View, op: Op, landed: set<Oid>) {
    forall i | 0 <= i < |op.effects| :: EffectLegal(w, v, op, op.author in v.owners, op.effects[i], landed)
  }
}
