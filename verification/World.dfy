/**
 Ops, the immutable objects they name, and the environment verification asks:
 the store of objects, and hashing, signatures, tree differences and standards
 given as functions.
 */
module World {
  import opened Options
  import opened Ids
  import opened Values
  import opened Views

  type PublicKey = nat

  datatype Op = Op(
    parents: seq<Oid>,
    author: EntityId,
    key: PublicKey,
    cap: Option<Oid>,
    kind: string,
    idem: Option<nat>,
    effects: seq<Effect>,
    view: Oid,
    time: int)

  datatype Principal = Principal(
    id: EntityId,
    prev: Option<Oid>,
    key: Option<PublicKey>,
    kind: string,
    parent: Option<EntityId>,
    status: string)

  datatype Revision = Revision(id: EntityId, prev: Option<Oid>, parents: seq<Oid>, intent: Option<EntityId>)

  datatype Scope = Scope(
    roots: Option<seq<string>>,
    paths: Option<seq<string>>,
    nodes: Option<seq<EntityId>>,
    lines: Option<seq<EntityId>>,
    targets: Option<seq<EntityId>>,
    stages: Option<seq<string>>,
    memoryScopes: Option<seq<string>>)

  datatype Capability = Capability(
    issuer: EntityId,
    subject: EntityId,
    verbs: seq<string>,
    write: Scope,
    readPaths: Option<seq<string>>,
    hard: Option<map<string, nat>>,
    delegable: bool,
    parent: Option<Oid>)

  /** A root of a revision and the paths it changed there against the first parent. */
  datatype RootChange = RootChange(root: string, paths: seq<string>)

  /** What an object says that verification reads. */
  datatype Object =
    | PrincipalObject(principal: Principal)
    | CapabilityObject(capability: Capability)
    | RevisionObject(revision: Revision)
    | IntentObject(legacy: bool)
    | ClaimObject(claim: EntityId, holder: EntityId)
    | MemoryObject(scope: string)
    | HookObject(runsAs: EntityId)
    | LineObject(standard: EntityId)
    | StandardObject
    | ChannelObject
    | TargetObject
    | OtherObject

  datatype World = World(
    objects: map<Oid, Object>,
    opId: Op -> Oid,
    viewId: View -> Oid,
    opSigned: (Op, PublicKey) -> bool,
    objectSigned: (Oid, PublicKey) -> bool,
    // per root of a revision, the paths it changed against its first parent
    changes: Oid -> Option<seq<RootChange>>,
    // the revision and the cited attestations leave no clause of the standard unmet at the view
    standardMet: (View, EntityId, Oid, seq<Oid>) -> bool)
  {
    function PrincipalAt(id: Oid): Option<Principal> {
      if id in objects && objects[id].PrincipalObject? then Some(objects[id].principal) else None
    }

    function CapabilityAt(id: Oid): Option<Capability> {
      if id in objects && objects[id].CapabilityObject? then Some(objects[id].capability) else None
    }

    function RevisionAt(id: Oid): Option<Revision> {
      if id in objects && objects[id].RevisionObject? then Some(objects[id].revision) else None
    }
  }

  ghost predicate Sane(w: World) {
    && (forall x, y :: w.opId(x) == w.opId(y) ==> x == y)
    && (forall x, y :: w.viewId(x) == w.viewId(y) ==> x == y)
  }

  /** The step of the verification algorithm that refused. */
  datatype Rejection = UnknownParent | NotFound | Rejected(step: nat)

  /** A principal's current version at a view, if it has one. */
  function ResolvePrincipal(w: World, v: View, id: EntityId): Result<Option<(Oid, Principal)>, Rejection> {
    match Entity(v, id)
    case None => Ok(None)
    case Some(Id(oid)) =>
      var p := w.PrincipalAt(oid);
      if p.None? then Err(NotFound) else Ok(Some((oid, p.value)))
    case Some(_) => Err(Rejected(3))
  }

  predicate InSet<K>(m: map<K, TrieValue>, k: K) {
    k in m
  }
}
