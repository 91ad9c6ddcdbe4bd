/**
 The rules an op keeps when it is accepted, each said of the op, the view it saw and
 the receiver's view: who signed it, what lets its author write, and what each of
 its effects may do. They are what the checks of verification decide, one for one.
 */
module Rulebook {
  import opened Options
  import opened Ids
  import opened Values
  import opened Views
  import opened World
  import opened Globs
  import opened KeyRules
  import opened Capabilities
  import opened Legality

  predicate IsOwner(v: View, op: Op) {
    op.author in v.owners
  }

  /** The entity's current pointer is the one object `at`. */
  predicate PointsTo(v: View, entity: EntityId, at: Oid) {
    entity in v.entities && v.entities[entity] == Id(at)
  }

  /** The view has no pointer for the entity. */
  predicate Unpointed(v: View, entity: EntityId) {
    entity !in v.entities || v.entities[entity] == Member
  }

  /** `p`, stored as `at`, is the principal's current version. */
  predicate Known(w: World, v: View, id: EntityId, at: Oid, p: Principal) {
    PointsTo(v, id, at) && at in w.objects && w.objects[at] == PrincipalObject(p)
  }

  // -------------------------------------------------------------------- author

  /** At the view the op saw, its author is active and holds the key it signed with. */
  ghost predicate AuthorKnown(w: World, v: View, op: Op) {
    exists at: Oid, p :: Known(w, v, op.author, at, p) && p.status == "active" && p.key == Some(op.key)
  }

  /** At the receiver's view, its author is not revoked and, if known, active and holding the same version or key. */
  ghost predicate AuthorStands(w: World, v: View, c: View, op: Op) {
    && op.author !in c.revoked
    && (Unpointed(c, op.author) ||
        exists at: Oid, p ::
          Known(w, c, op.author, at, p) && p.status == "active" &&
          (PointsTo(v, op.author, at) || p.key == Some(op.key)))
  }

  // -------------------------------------------------------------- capabilities

  ghost predicate NoLonger<T(!new)>(c: Option<seq<T>>, p: Option<seq<T>>) {
    p.Some? ==> c.Some? && forall x | x in c.value :: x in p.value
  }

  /** The same pattern, what begins with all but the last `**` of `y`, or a name that `y` matches. */
  ghost predicate WithinOne(x: string, y: string) {
    || x == y
    || (exists stem: string :: y == stem + "**" && stem <= x)
    || ((forall c | c in x :: c != '*' && c != '?') && Matches(y, x))
  }

  ghost predicate WithinSome(x: string, ps: seq<string>) {
    exists y :: y in ps && WithinOne(x, y)
  }

  ghost predicate NoDeeper(c: Option<seq<string>>, p: Option<seq<string>>) {
    p.Some? ==> c.Some? && forall x | x in c.value :: WithinSome(x, p.value)
  }

  ghost predicate NoHigher(c: Option<map<string, nat>>, p: Option<map<string, nat>>) {
    p.Some? ==> c.Some? && forall k | k in c.value :: k in p.value && c.value[k] <= p.value[k]
  }

  /** A capability handed on grants nothing more than the one it comes from. */
  ghost predicate Narrows(c: Capability, p: Capability) {
    && (forall verb | verb in c.verbs :: verb in p.verbs)
    && NoDeeper(c.write.paths, p.write.paths) && NoDeeper(c.readPaths, p.readPaths)
    && NoLonger(c.write.roots, p.write.roots) && NoLonger(c.write.stages, p.write.stages)
    && NoLonger(c.write.memoryScopes, p.write.memoryScopes) && NoLonger(c.write.nodes, p.write.nodes)
    && NoLonger(c.write.lines, p.write.lines) && NoLonger(c.write.targets, p.write.targets)
    && NoHigher(c.hard, p.hard)
  }

  /** A capability is signed by its issuer, a principal the view has as active and not revoked. */
  ghost predicate Issued(w: World, v: View, cap: Capability, id: Oid) {
    && cap.issuer !in v.revoked
    && exists at: Oid, p ::
         Known(w, v, cap.issuer, at, p) && p.status == "active" && p.key.Some? && w.objectSigned(id, p.key.value)
  }

  predicate CapStored(w: World, id: Oid, cap: Capability) {
    id in w.objects && w.objects[id] == CapabilityObject(cap)
  }

  /** `child` was handed on from the stored capability `parent`, active at the view, by its subject. */
  ghost predicate HandedOn(w: World, v: View, child: Capability, parentId: Oid, parent: Capability) {
    && child.parent == Some(parentId) && parentId in v.caps && CapStored(w, parentId, parent)
    && parent.subject == child.issuer && parent.delegable && Narrows(child, parent)
  }

  /** From the first capability, each handed on from the next, up to one an owner issued. */
  ghost predicate Delegated(w: World, v: View, ids: seq<Oid>, caps: seq<Capability>) {
    && |ids| == |caps| > 0
    && (forall i | 0 <= i < |caps| :: Issued(w, v, caps[i], ids[i]))
    && (forall i | 0 <= i < |caps| - 1 :: HandedOn(w, v, caps[i], ids[i + 1], caps[i + 1]))
    && caps[|caps| - 1].parent.None? && caps[|caps| - 1].issuer in v.owners
  }

  /** Every root and path the revision changed is within the write scope. */
  ghost predicate WritesWithin(w: World, cap: Capability, rev: Oid) {
    && w.changes(rev).Some?
    && forall change | change in w.changes(rev).value ::
         && (cap.write.roots.Some? ==> change.root in cap.write.roots.value)
         && forall path | path in change.paths :: Listed(cap.write.paths, path)
  }

  ghost predicate Listed(patterns: Option<seq<string>>, path: string) {
    patterns.Some? ==> exists y :: y in patterns.value && Matches(y, path)
  }

  ghost predicate Granted<T>(list: Option<seq<T>>, x: T) {
    list.Some? ==> x in list.value
  }

  /** What a capability must grant for one effect. */
  ghost predicate Grants(w: World, v: View, cap: Capability, e: Effect) {
    && (e.Propose? ==> WritesWithin(w, cap, e.rev) && Granted(cap.write.stages, "proposed"))
    && (e.Head? ==>
          && WritesWithin(w, cap, e.to) && Granted(cap.write.stages, "landed")
          && e.line in v.lines && Granted(cap.write.lines, v.lines[e.line].id))
    && (e.Deploy? ==> Granted(cap.write.targets, e.target))
    && (e.Point? ==> e.to in w.objects && PointGranted(cap, w.objects[e.to]))
    && !e.Owner? && !e.Unowner? && !e.Coordinator? && !e.Root? && !e.Unroot?
    && (e.Revoke? ==> "revoke" in cap.verbs)
    && (e.Tomb? ==> "redact" in cap.verbs)
  }

  ghost predicate PointGranted(cap: Capability, o: Object) {
    && (o.MemoryObject? ==> Granted(cap.write.memoryScopes, o.scope))
    && (o.StandardObject? ==> "standard" in cap.verbs)
    && (o.HookObject? ==> "hook" in cap.verbs)
    && (o.ChannelObject? ==> "channel" in cap.verbs)
    && (o.TargetObject? ==> "target" in cap.verbs)
    && (o.LineObject? ==> "line" in cap.verbs)
  }

  /** What lets a non-owner write: a capability active at both views, its own, and granting what the op does. */
  ghost predicate MayWrite(w: World, v: View, c: View, op: Op) {
    && op.cap.Some? && op.cap.value in v.caps && op.cap.value in c.caps
    && exists ids, caps :: Entitles(w, v, op, op.cap.value, ids, caps)
  }

  /** A delegation of at most 64 capabilities from the op's, made out to its author, for its kind and effects. */
  ghost predicate Entitles(w: World, v: View, op: Op, id: Oid, ids: seq<Oid>, caps: seq<Capability>) {
    && Delegated(w, v, ids, caps) && |caps| <= 64
    && ids[0] == id && CapStored(w, id, caps[0]) && caps[0].subject == op.author
    && KindGranted(caps[0], op.kind) && forall e | e in op.effects :: Grants(w, v, caps[0], e)
  }

  ghost predicate KindGranted(cap: Capability, kind: string) {
    || kind in cap.verbs
    || kind in {"status", "context", "query", "workspace", "snapshot", "claim", "undo", "sync", "merge_view"}
  }

  // --------------------------------------------------------------------- lines

  /** The object an intent names: by the op's first point at it or, without any, by the view. */
  ghost predicate Intended(v: View, op: Op, intent: EntityId, at: Oid) {
    || (exists i: nat :: FirstPoint(op.effects, intent, at, i))
    || ((forall e | e in op.effects && e.Point? :: e.entity != intent) && PointsTo(v, intent, at))
  }

  ghost predicate FirstPoint(es: seq<Effect>, entity: EntityId, at: Oid, i: nat) {
    && i < |es| && es[i].Point? && es[i].entity == entity && es[i].to == at
    && forall j | 0 <= j < i && es[j].Point? :: es[j].entity != entity
  }

  ghost predicate StandardMet(w: World, v: View, ls: LineState, to: Oid, attests: seq<Oid>) {
    exists at: Oid, standard: EntityId ::
      && PointsTo(v, ls.id, at) && at in w.objects && w.objects[at] == LineObject(standard)
      && w.standardMet(v, standard, to, attests)
  }

  /** The intent of what an owner imports citing nothing. */
  ghost predicate ImportIntent(v: View, op: Op, rev: Revision, attests: seq<Oid>, at: Oid) {
    IsOwner(v, op) && op.kind == "import" && attests == [] && rev.intent.Some? && Intended(v, op, rev.intent.value, at)
  }

  /**
   A landing meets its line's standard, unless an owner imports it, citing nothing, with
   an intent marked as history: its revision then follows the head. Such an intent is stored.
   */
  ghost predicate Lands(w: World, v: View, op: Op, ls: LineState, to: Oid, rev: Revision, attests: seq<Oid>) {
    && (forall at: Oid | ImportIntent(v, op, rev, attests, at) ::
          && at in w.objects && w.objects[at].IntentObject?
          && (w.objects[at].legacy ==> rev.parents != [] && ls.head == Id(rev.parents[0])))
    && (StandardMet(w, v, ls, to, attests) ||
        exists at: Oid :: ImportIntent(v, op, rev, attests, at) && w.objects[at].legacy)
  }

  /**
   A line advances by its coordinator, from its present head, by one number, citing
   attestations that are there; a new line is an owner's, at number 0 and with an ID.
   Either way it is given a stored revision.
   */
  ghost predicate HeadRule(w: World, v: View, op: Op, e: Effect)
    requires e.Head?
  {
    && e.to in w.objects && w.objects[e.to].RevisionObject?
    && (e.line !in v.lines ==> IsOwner(v, op) && e.lineId.Some? && e.from == None && e.seqno == 0)
    && (e.line in v.lines ==>
          var ls := v.lines[e.line];
          && op.author == ls.coordinator && e.from == Some(ls.head) && e.seqno == ls.seqno + 1
          && (forall a | a in e.attests :: a in w.objects)
          && Lands(w, v, op, ls, e.to, w.objects[e.to].revision, e.attests))
  }

  // -------------------------------------------------------------------- points

  /** The pointer an op names is the one the view has. */
  predicate FromCurrent(v: View, entity: EntityId, from: Option<TrieValue>) {
    match from
    case None => Unpointed(v, entity)
    case Some(x) => entity in v.entities && v.entities[entity] == x && x != Member
  }

  ghost predicate NamesParent(w: World, child: Oid, id: Oid) {
    child in w.objects && w.objects[child].RevisionObject? && id in w.objects[child].revision.parents
  }

  /** From the head of a line, or one side of a head in conflict, parent by parent down to `id`. */
  ghost predicate Descends(w: World, v: View, way: seq<Oid>, id: Oid) {
    && way != [] && way[|way| - 1] == id
    && (exists line :: line in v.lines && Names(v.lines[line].head, way[0]))
    && forall i | 0 <= i < |way| - 1 :: NamesParent(w, way[i], way[i + 1])
  }

  ghost predicate InHistory(w: World, v: View, id: Oid) {
    exists way :: Descends(w, v, way, id)
  }

  /** A revision keeps its change's ID, follows the current version, and leaves a landed one to restacks. */
  ghost predicate RevisionRule(w: World, v: View, op: Op, entity: EntityId, r: Revision) {
    && r.id == entity
    && forall cur: Oid | PointsTo(v, entity, cur) ::
         r.prev == Some(cur) && (InHistory(w, v, cur) ==> op.kind == "restack")
  }

  /** A new session is signed by its agent, any other new principal by the owner; a new version by the one before. */
  ghost predicate PrincipalRule(w: World, v: View, op: Op, entity: EntityId, to: Oid, p: Principal) {
    && p.id == entity
    && (Unpointed(v, entity) && p.kind == "session" ==>
          exists at: Oid, agent ::
            && p.parent.Some? && Known(w, v, p.parent.value, at, agent) && agent.kind == "agent"
            && agent.key.Some? && w.objectSigned(to, agent.key.value))
    && (Unpointed(v, entity) && p.kind != "session" ==> IsOwner(v, op) && w.objectSigned(to, op.key))
    && forall cur: Oid | PointsTo(v, entity, cur) ::
         && p.prev == Some(cur) && cur in w.objects && w.objects[cur].PrincipalObject?
         && (p.status == "revoked" ==> IsOwner(v, op) || p.id in v.revoked)
         && (p.status != "revoked" ==>
               w.objects[cur].principal.key.Some? && w.objectSigned(to, w.objects[cur].principal.key.value))
  }

  ghost predicate PointRule(w: World, v: View, op: Op, e: Effect)
    requires e.Point?
  {
    && FromCurrent(v, e.entity, e.from) && e.to in w.objects
    && var o := w.objects[e.to];
       && (o.RevisionObject? ==> RevisionRule(w, v, op, e.entity, o.revision))
       && (o.HookObject? ==> o.runsAs == op.author || IsOwner(v, op))
       && (o.PrincipalObject? ==> PrincipalRule(w, v, op, e.entity, e.to, o.principal))
  }

  // -------------------------------------------------------------- every effect

  /** What each effect may do at the view the op saw. */
  ghost predicate EffectRule(w: World, v: View, op: Op, e: Effect) {
    && (e.Point? ==> PointRule(w, v, op, e))
    && (e.Head? ==> HeadRule(w, v, op, e))
    && (e.Tomb? ==> op.kind == "redact")
    && (e.Owner? || e.Unowner? || e.Coordinator? ==> IsOwner(v, op))
    && (e.Claim? ==> e.to in w.objects && w.objects[e.to] == ClaimObject(e.claim, op.author))
    && (e.Unclaim? ==>
          forall cur: Oid | e.claim in v.claims && v.claims[e.claim] == Id(cur) ::
            && cur in w.objects && w.objects[cur].ClaimObject?
            && (w.objects[cur].holder == op.author || IsOwner(v, op)))
  }

  // ------------------------------------------------- what the checks decide

  lemma SeesPrincipal(w: World, v: View, id: EntityId)
    ensures var r := ResolvePrincipal(w, v, id);
            && (r == Ok(None) <==> Unpointed(v, id))
            && forall at: Oid, p :: Known(w, v, id, at, p) <==> r == Ok(Some((at, p)))
  {}

  lemma ListExactly<T(!new)>(c: Option<seq<T>>, p: Option<seq<T>>)
    ensures ListOk(c, p) <==> NoLonger(c, p)
  {}

  lemma OneExactly(x: string, y: string)
    ensures Contained(x, y) <==> WithinOne(x, y)
  {
    if EndsInStars(y) {
      assert y == y[..|y| - 2] + "**";
    }
    if stem: string :| y == stem + "**" && stem <= x {
      assert y[|y| - 2..] == "**" && y[..|y| - 2] == stem;
    }
  }

  lemma WithinExactly(x: string, ps: seq<string>)
    ensures ContainedInSome(x, ps) <==> WithinSome(x, ps)
  {
    forall y ensures Contained(x, y) <==> WithinOne(x, y) {
      OneExactly(x, y);
    }
    if y :| y in ps && WithinOne(x, y) {
      var j :| 0 <= j < |ps| && ps[j] == y;
      assert Contained(x, ps[j]);
    }
  }

  lemma ListedExactly(patterns: Option<seq<string>>, path: string)
    ensures Admits(patterns, path) <==> Listed(patterns, path)
  {
    if patterns.Some? {
      if y :| y in patterns.value && Matches(y, path) {
        var j :| 0 <= j < |patterns.value| && patterns.value[j] == y;
        assert Matches(patterns.value[j], path);
      }
    }
  }

  lemma PathsExactly(c: Option<seq<string>>, p: Option<seq<string>>)
    ensures PathsOk(c, p) <==> NoDeeper(c, p)
  {
    if c.Some? && p.Some? {
      forall x ensures ContainedInSome(x, p.value) <==> WithinSome(x, p.value) {
        WithinExactly(x, p.value);
      }
    }
  }

  lemma NarrowsExactly(c: Capability, p: Capability)
    ensures ContainedIn(c, p) <==> Narrows(c, p)
  {
    PathsExactly(c.write.paths, p.write.paths);
    PathsExactly(c.readPaths, p.readPaths);
    ListExactly(c.write.roots, p.write.roots);
    ListExactly(c.write.stages, p.write.stages);
    ListExactly(c.write.memoryScopes, p.write.memoryScopes);
    ListExactly(c.write.nodes, p.write.nodes);
    ListExactly(c.write.lines, p.write.lines);
    ListExactly(c.write.targets, p.write.targets);
  }

  lemma IssuedExactly(w: World, v: View, cap: Capability, id: Oid)
    ensures IssuerOk(w, v, cap, id) <==> Issued(w, v, cap, id)
  {
    SeesPrincipal(w, v, cap.issuer);
  }

  lemma HandedOnExactly(w: World, v: View, child: Capability, id: Oid, parent: Capability)
    ensures Above(w, v, child) == Some((id, parent)) <==> HandedOn(w, v, child, id, parent)
  {
    NarrowsExactly(child, parent);
  }

  lemma {:induction false} ChainDelegates(w: World, v: View, cap: Capability, id: Oid, left: nat)
    returns (ids: seq<Oid>, caps: seq<Capability>)
    requires Chain(w, v, cap, id, left).Some?
    ensures Delegated(w, v, ids, caps) && |caps| <= left && ids[0] == id && caps[0] == cap
    decreases left
  {
    IssuedExactly(w, v, cap, id);
    if cap.parent.None? {
      ids, caps := [id], [cap];
    } else {
      var above := Above(w, v, cap).value;
      HandedOnExactly(w, v, cap, above.0, above.1);
      var ids', caps' := ChainDelegates(w, v, above.1, above.0, left - 1);
      ids, caps := [id] + ids', [cap] + caps';
      DelegatedOnto(w, v, id, cap, ids', caps');
    }
  }

  lemma DelegatedOnto(w: World, v: View, id: Oid, cap: Capability, ids: seq<Oid>, caps: seq<Capability>)
    requires Delegated(w, v, ids, caps) && Issued(w, v, cap, id) && HandedOn(w, v, cap, ids[0], caps[0])
    ensures Delegated(w, v, [id] + ids, [cap] + caps)
  {
    var ids', caps' := [id] + ids, [cap] + caps;
    forall i | 0 <= i < |caps'| ensures Issued(w, v, caps'[i], ids'[i]) {
      assert i > 0 ==> Issued(w, v, caps[i - 1], ids[i - 1]);
    }
    forall i | 0 <= i < |caps'| - 1 ensures HandedOn(w, v, caps'[i], ids'[i + 1], caps'[i + 1]) {
      assert i > 0 ==> HandedOn(w, v, caps[i - 1], ids[i], caps[i]);
    }
  }

  lemma DelegatedBelow(w: World, v: View, ids: seq<Oid>, caps: seq<Capability>)
    requires Delegated(w, v, ids, caps) && |caps| > 1
    ensures Delegated(w, v, ids[1..], caps[1..]) && HandedOn(w, v, caps[0], ids[1], caps[1])
  {
    forall i | 0 <= i < |caps[1..]| ensures Issued(w, v, caps[1..][i], ids[1..][i]) {
      assert Issued(w, v, caps[i + 1], ids[i + 1]);
    }
    forall i | 0 <= i < |caps[1..]| - 1 ensures HandedOn(w, v, caps[1..][i], ids[1..][i + 1], caps[1..][i + 1]) {
      assert HandedOn(w, v, caps[i + 1], ids[i + 2], caps[i + 2]);
    }
  }

  lemma {:induction false} DelegationChains(w: World, v: View, ids: seq<Oid>, caps: seq<Capability>, left: nat)
    requires Delegated(w, v, ids, caps) && |caps| <= left
    ensures Chain(w, v, caps[0], ids[0], left).Some?
    decreases left
  {
    IssuedExactly(w, v, caps[0], ids[0]);
    if |caps| > 1 {
      DelegatedBelow(w, v, ids, caps);
      HandedOnExactly(w, v, caps[0], ids[1], caps[1]);
      DelegationChains(w, v, ids[1..], caps[1..], left - 1);
    }
  }

  /** The chain check finds the delegation there is, and there is one where it finds one. */
  lemma {:induction false} DelegatedExactly(w: World, v: View, cap: Capability, id: Oid, left: nat)
    ensures Chain(w, v, cap, id, left).Some? <==>
            exists ids, caps :: Delegated(w, v, ids, caps) && |caps| <= left && ids[0] == id && caps[0] == cap
    decreases left
  {
    if Chain(w, v, cap, id, left).Some? {
      var ids, caps := ChainDelegates(w, v, cap, id, left);
    }
    if ids, caps :| Delegated(w, v, ids, caps) && |caps| <= left && ids[0] == id && caps[0] == cap {
      DelegationChains(w, v, ids, caps, left);
    }
  }

  lemma WritesExactly(w: World, cap: Capability, rev: Oid)
    ensures WriteScopeOk(w, cap, rev) <==> WritesWithin(w, cap, rev)
  {
    var changes := w.changes(rev);
    if changes.Some? {
      forall path ensures Admits(cap.write.paths, path) <==> Listed(cap.write.paths, path) {
        ListedExactly(cap.write.paths, path);
      }
      forall i | 0 <= i < |changes.value|
        ensures (ListOk(Some([changes.value[i].root]), cap.write.roots) <==>
                 (cap.write.roots.Some? ==> changes.value[i].root in cap.write.roots.value))
      {
        assert [changes.value[i].root][0] == changes.value[i].root;
      }
    }
  }

  lemma PointGrantedExactly(w: World, cap: Capability, to: Oid)
    ensures PointAuthorized(w, cap, to) <==> to in w.objects && PointGranted(cap, w.objects[to])
  {}

  lemma GrantsExactly(w: World, v: View, cap: Capability, e: Effect)
    ensures EffectAuthorized(w, v, cap, e) <==> Grants(w, v, cap, e)
  {
    if e.Propose? {
      WritesExactly(w, cap, e.rev);
    } else if e.Head? {
      WritesExactly(w, cap, e.to);
    } else if e.Point? {
      PointGrantedExactly(w, cap, e.to);
    }
  }

  lemma AuthorizesExactly(w: World, v: View, cap: Capability, op: Op)
    ensures Authorizes(w, v, cap, op) <==>
            KindGranted(cap, op.kind) && forall e | e in op.effects :: Grants(w, v, cap, e)
  {
    forall e ensures EffectAuthorized(w, v, cap, e) <==> Grants(w, v, cap, e) {
      GrantsExactly(w, v, cap, e);
    }
    assert op.kind in UNGATED <==>
           op.kind in {"status", "context", "query", "workspace", "snapshot", "claim", "undo", "sync", "merge_view"};
    if Authorizes(w, v, cap, op) {
      forall e | e in op.effects ensures Grants(w, v, cap, e) {
        var i :| 0 <= i < |op.effects| && op.effects[i] == e;
        assert EffectAuthorized(w, v, cap, op.effects[i]);
      }
    }
    if forall e | e in op.effects :: Grants(w, v, cap, e) {
      forall i | 0 <= i < |op.effects| ensures EffectAuthorized(w, v, cap, op.effects[i]) {
        assert op.effects[i] in op.effects;
      }
    }
  }

  lemma {:induction false} MayWriteExactly(w: World, v: View, c: View, op: Op)
    ensures CapabilityOk(w, v, c, op) <==> MayWrite(w, v, c, op)
  {
    if CapabilityOk(w, v, c, op) {
      GrantedMayWrite(w, v, c, op);
    }
    if MayWrite(w, v, c, op) {
      MayWriteGranted(w, v, c, op);
    }
  }

  lemma {:induction false} GrantedMayWrite(w: World, v: View, c: View, op: Op)
    requires CapabilityOk(w, v, c, op)
    ensures MayWrite(w, v, c, op)
  {
    var id, cap := op.cap.value, w.CapabilityAt(op.cap.value).value;
    AuthorizesExactly(w, v, cap, op);
    var ids, caps := ChainDelegates(w, v, cap, id, CHAIN_LIMIT);
    assert Entitles(w, v, op, id, ids, caps);
  }

  lemma {:induction false} MayWriteGranted(w: World, v: View, c: View, op: Op)
    requires MayWrite(w, v, c, op)
    ensures CapabilityOk(w, v, c, op)
  {
    var ids, caps :| Entitles(w, v, op, op.cap.value, ids, caps);
    DelegationChains(w, v, ids, caps, CHAIN_LIMIT);
    AuthorizesExactly(w, v, caps[0], op);
  }

  // ------------------------------------------------------------------ legality

  lemma {:induction false} PointedExactly(es: seq<Effect>, entity: EntityId)
    ensures forall at: Oid :: PointedIn(es, entity) == Some(at) <==> exists i: nat :: FirstPoint(es, entity, at, i)
    ensures PointedIn(es, entity) == None <==> forall e | e in es && e.Point? :: e.entity != entity
  {
    if es != [] {
      PointedExactly(es[1..], entity);
      assert es == [es[0]] + es[1..];
      forall at: Oid ensures PointedIn(es, entity) == Some(at) <==> exists i: nat :: FirstPoint(es, entity, at, i) {
        if i: nat :| FirstPoint(es, entity, at, i) {
          if i > 0 {
            assert FirstPoint(es[1..], entity, at, i - 1);
          }
        }
        if PointedIn(es, entity) == Some(at) {
          if es[0].Point? && es[0].entity == entity {
            assert FirstPoint(es, entity, at, 0);
          } else {
            var i: nat :| FirstPoint(es[1..], entity, at, i);
            FirstPointAfter(es, entity, at, i);
          }
        }
      }
    }
  }

  lemma FirstPointAfter(es: seq<Effect>, entity: EntityId, at: Oid, i: nat)
    requires es != [] && FirstPoint(es[1..], entity, at, i) && !(es[0].Point? && es[0].entity == entity)
    ensures FirstPoint(es, entity, at, i + 1)
  {
    forall j | 0 <= j < i + 1 && es[j].Point? ensures es[j].entity != entity {
      assert j > 0 ==> es[j] == es[1..][j - 1];
    }
  }

  lemma StandardExactly(w: World, v: View, ls: LineState, to: Oid, attests: seq<Oid>)
    ensures MeetsStandard(w, v, ls, to, attests) <==> StandardMet(w, v, ls, to, attests)
  {}

  lemma {:induction false} LandsExactly(w: World, v: View, op: Op, ls: LineState, to: Oid, rev: Revision,
                                        attests: seq<Oid>)
    ensures LandingMet(w, v, op, IsOwner(v, op), ls, to, rev, attests) <==>
            (forall a | a in attests :: a in w.objects) && Lands(w, v, op, ls, to, rev, attests)
  {
    StandardExactly(w, v, ls, to, attests);
    assert (forall i | 0 <= i < |attests| :: attests[i] in w.objects) <==> forall a | a in attests :: a in w.objects;
    if rev.intent.Some? {
      PointedExactly(op.effects, rev.intent.value);
    }
  }

  lemma HeadRuleExactly(w: World, v: View, op: Op, e: Effect)
    requires e.Head?
    ensures HeadLegal(w, v, op, IsOwner(v, op), e) <==> HeadRule(w, v, op, e)
  {
    if e.line in v.lines && w.RevisionAt(e.to).Some? {
      LandsExactly(w, v, op, v.lines[e.line], e.to, w.RevisionAt(e.to).value, e.attests);
    }
  }

  lemma RevisionExactly(w: World, v: View, op: Op, entity: EntityId, r: Revision)
    ensures RevisionLegal(op, entity, Entity(v, entity), r, Landed(w, v)) <==> RevisionRule(w, v, op, entity, r)
  {
    match Entity(v, entity)
    case Some(Id(cur)) =>
      LandedIsReached(w, v, cur);
      HistoryExactly(w, v, cur);
    case _ =>
  }

  lemma HeadsExactly(v: View, id: Oid)
    ensures id in HeadIds(v) <==> exists line :: line in v.lines && Names(v.lines[line].head, id)
  {
    forall line | line in v.lines ensures id in ValueIds(v.lines[line].head) <==> Names(v.lines[line].head, id) {
    }
  }

  lemma ParentsExactly(w: World, child: Oid, id: Oid)
    ensures id in ParentsOf(w, child) <==> NamesParent(w, child, id)
  {}

  lemma {:induction false} WayDown(w: World, v: View, id: Oid, n: nat) returns (way: seq<Oid>)
    requires Below(w, v, id, n)
    ensures Descends(w, v, way, id)
    decreases n
  {
    if n == 0 {
      HeadsExactly(v, id);
      way := [id];
    } else {
      var child :| Below(w, v, child, n - 1) && id in ParentsOf(w, child);
      var before := WayDown(w, v, child, n - 1);
      ParentsExactly(w, child, id);
      way := before + [id];
      forall i | 0 <= i < |way| - 1 ensures NamesParent(w, way[i], way[i + 1]) {
        assert i < |before| - 1 ==> NamesParent(w, before[i], before[i + 1]);
      }
    }
  }

  lemma {:induction false} DownTheWay(w: World, v: View, way: seq<Oid>, id: Oid)
    requires Descends(w, v, way, id)
    ensures Below(w, v, id, |way| - 1)
    decreases |way|
  {
    if |way| == 1 {
      HeadsExactly(v, id);
    } else {
      var before, child := way[..|way| - 1], way[|way| - 2];
      forall i | 0 <= i < |before| - 1 ensures NamesParent(w, before[i], before[i + 1]) {
        assert NamesParent(w, way[i], way[i + 1]);
      }
      DownTheWay(w, v, before, child);
      assert NamesParent(w, way[|way| - 2], way[|way| - 2 + 1]);
      ParentsExactly(w, child, id);
    }
  }

  /** Landed is what lies on a way down from a line's head. */
  lemma HistoryExactly(w: World, v: View, id: Oid)
    ensures HasLanded(w, v, id) <==> InHistory(w, v, id)
  {
    if n: nat :| Below(w, v, id, n) {
      var way := WayDown(w, v, id, n);
    }
    if way :| Descends(w, v, way, id) {
      DownTheWay(w, v, way, id);
    }
  }

  lemma PrincipalExactly(w: World, v: View, op: Op, entity: EntityId, to: Oid, p: Principal)
    ensures PrincipalLegal(w, v, op, IsOwner(v, op), entity, to, p) <==> PrincipalRule(w, v, op, entity, to, p)
  {
    if p.parent.Some? {
      SeesPrincipal(w, v, p.parent.value);
    }
  }

  lemma PointRuleExactly(w: World, v: View, op: Op, e: Effect)
    requires e.Point?
    ensures PointLegal(w, v, op, IsOwner(v, op), e, Landed(w, v)) <==> PointRule(w, v, op, e)
  {
    if e.to in w.objects {
      match w.objects[e.to]
      case RevisionObject(r) => RevisionExactly(w, v, op, e.entity, r);
      case PrincipalObject(p) => PrincipalExactly(w, v, op, e.entity, e.to, p);
      case _ =>
    }
  }

  lemma OtherExactly(w: World, v: View, op: Op, e: Effect)
    requires !e.Point? && !e.Head?
    ensures EffectLegal(w, v, op, IsOwner(v, op), e, Landed(w, v)) <==> EffectRule(w, v, op, e)
  {}

  lemma EffectExactly(w: World, v: View, op: Op, e: Effect)
    ensures EffectLegal(w, v, op, IsOwner(v, op), e, Landed(w, v)) <==> EffectRule(w, v, op, e)
  {
    if e.Point? {
      PointRuleExactly(w, v, op, e);
    } else if e.Head? {
      HeadRuleExactly(w, v, op, e);
    } else {
      OtherExactly(w, v, op, e);
    }
  }

  /** The legality check passes exactly the ops whose every effect keeps its rule. */
  lemma LegalExactly(w: World, v: View, op: Op)
    ensures Legal(w, v, op, Landed(w, v)) <==> forall e | e in op.effects :: EffectRule(w, v, op, e)
  {
    forall e ensures EffectLegal(w, v, op, IsOwner(v, op), e, Landed(w, v)) <==> EffectRule(w, v, op, e) {
      EffectExactly(w, v, op, e);
    }
    if Legal(w, v, op, Landed(w, v)) {
      forall e | e in op.effects ensures EffectRule(w, v, op, e) {
        var i :| 0 <= i < |op.effects| && op.effects[i] == e;
        assert EffectLegal(w, v, op, IsOwner(v, op), op.effects[i], Landed(w, v));
      }
    }
    if forall e | e in op.effects :: EffectRule(w, v, op, e) {
      forall i | 0 <= i < |op.effects| ensures EffectLegal(w, v, op, IsOwner(v, op), op.effects[i], Landed(w, v)) {
        assert op.effects[i] in op.effects;
      }
    }
  }
}
