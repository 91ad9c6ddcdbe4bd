/**
 The view: what a repository is after an op. Effects change it, and diverged views
 merge three ways. A trie root is written as the contents it names (module
 TrieStore: equal roots exactly when equal contents); sorted duplicate-free
 vectors of owners and roots are written as sets, and an absent pause list as
 the empty one.
 */
module Views {
  import opened Options
  import opened Ids
  import opened Values
  import opened Order

  datatype LineState = LineState(id: EntityId, head: TrieValue, seqno: nat, coordinator: EntityId)

  datatype PauseState = PauseState(scope: string, author: EntityId, op: Oid)

  datatype View = View(
    entities: map<EntityId, TrieValue>,
    proposed: map<Oid, TrieValue>,
    claims: map<EntityId, TrieValue>,
    caps: map<Oid, TrieValue>,
    revoked: map<EntityId, TrieValue>,
    tombstoned: map<Oid, TrieValue>,
    lines: map<string, LineState>,
    roots: set<string>,
    owners: set<EntityId>,
    deployed: map<EntityId, Oid>,
    paused: seq<PauseState>)

  datatype Effect =
    | Put(id: Oid)
    | Point(entity: EntityId, to: Oid, from: Option<TrieValue>)
    | Unpoint(entity: EntityId)
    | Head(line: string, to: Oid, from: Option<TrieValue>, seqno: nat, attests: seq<Oid>, lineId: Option<EntityId>)
    | Propose(rev: Oid)
    | Unpropose(rev: Oid)
    | Claim(claim: EntityId, to: Oid)
    | Unclaim(claim: EntityId)
    | Cap(cap: Oid)
    | Uncap(cap: Oid)
    | Revoke(principal: EntityId)
    | Tomb(of: Oid, tomb: Oid)
    | Deploy(target: EntityId, deployment: Oid)
    | Pause(scope: string)
    | Resume(scope: string)
    | Owner(principal: EntityId)
    | Unowner(principal: EntityId)
    | Root(name: string)
    | Unroot(name: string)
    | Coordinator(line: string, coordinator: EntityId)

  const EMPTY := View(map[], map[], map[], map[], map[], map[], map[], {}, {}, map[], [])

  /** The current pointer of an entity; set membership is no pointer. */
  function Entity(v: View, id: EntityId): Option<TrieValue> {
    var at := At(v.entities, id);
    if at == Some(Member) then None else at
  }

  // ------------------------------------------------------------------- effects

  /** The first of the sorted owners. */
  function FirstOwner(v: View, default: EntityId): EntityId {
    if v.owners == {} then default else Ascending(v.owners)[0]
  }

  function WithoutScope(ps: seq<PauseState>, scope: string): (r: seq<PauseState>)
    ensures forall p :: p in r <==> p in ps && p.scope != scope
  {
    if ps == [] then []
    else (if ps[0].scope == scope then [] else [ps[0]]) + WithoutScope(ps[1..], scope)
  }

  predicate Covers(ps: seq<PauseState>, scope: string) {
    exists i | 0 <= i < |ps| :: ps[i].scope == scope
  }

  /** One effect; none when a head names an unknown line without its ID. */
  function ApplyOne(v: View, e: Effect, parent: Option<Oid>): Option<View> {
    match e
    case Put(_) => Some(v)
    case Point(entity, to, _) => Some(v.(entities := v.entities[entity := Id(to)]))
    case Unpoint(entity) => Some(v.(entities := v.entities - {entity}))
    case Head(line, to, _, n, _, id) =>
      if line in v.lines then
        Some(v.(lines := v.lines[line := v.lines[line].(head := Id(to), seqno := n)]))
      else if id.None? then None
      else Some(v.(lines := v.lines[line := LineState(id.value, Id(to), n, FirstOwner(v, id.value))]))
    case Propose(rev) => Some(v.(proposed := v.proposed[rev := Member]))
    case Unpropose(rev) => Some(v.(proposed := v.proposed - {rev}))
    case Claim(claim, to) => Some(v.(claims := v.claims[claim := Id(to)]))
    case Unclaim(claim) => Some(v.(claims := v.claims - {claim}))
    case Cap(cap) => Some(v.(caps := v.caps[cap := Member]))
    case Uncap(cap) => Some(v.(caps := v.caps - {cap}))
    case Revoke(principal) => Some(v.(revoked := v.revoked[principal := Member]))
    case Tomb(of, _) => Some(v.(tombstoned := v.tombstoned[of := Member]))
    case Deploy(target, to) => Some(v.(deployed := v.deployed[target := to]))
    case Pause(scope) =>
      if Covers(v.paused, scope) then Some(v)
      else Some(v.(paused := v.paused + [PauseState(scope, FirstOwner(v, 0), parent.GetOr(0))]))
    case Resume(scope) => Some(v.(paused := WithoutScope(v.paused, scope)))
    case Owner(principal) => Some(v.(owners := v.owners + {principal}))
    case Unowner(principal) => Some(v.(owners := v.owners - {principal}))
    case Root(name) => Some(v.(roots := v.roots + {name}))
    case Unroot(name) => Some(v.(roots := v.roots - {name}))
    case Coordinator(line, to) =>
      if line in v.lines then Some(v.(lines := v.lines[line := v.lines[line].(coordinator := to)])) else Some(v)
  }

  function Apply(v: View, es: seq<Effect>, parent: Option<Oid>): Option<View>
    decreases |es|
  {
    if es == [] then Some(v)
    else
      var next := ApplyOne(v, es[0], parent);
      if next.None? then None else Apply(next.value, es[1..], parent)
  }

  // --------------------------------------------------------------------- merge

  function MergeLine(base: LineState, a: LineState, b: LineState): LineState {
    LineState(
      a.id,
      if a.head == base.head then b.head
      else if b.head == base.head || a.head == b.head then a.head
      else Union(a.head, b.head),
      if a.seqno >= b.seqno then a.seqno else b.seqno,
      if a.coordinator == base.coordinator then b.coordinator
      else if b.coordinator == base.coordinator || a.coordinator == b.coordinator then a.coordinator
      else if a.coordinator <= b.coordinator then a.coordinator else b.coordinator)
  }

  function MergeLineAt(base: Option<LineState>, a: Option<LineState>, b: Option<LineState>): Option<LineState> {
    match (a, b)
    case (Some(x), Some(y)) =>
      if x == y then a
      else if base.None? then Some(MergeLine(x, x, y))
      else if x == base.value then b
      else if y == base.value then a
      else Some(MergeLine(base.value, x, y))
    case (Some(_), None) => a
    case (None, _) => b
  }

  function MergeDeployedAt(base: Option<Oid>, a: Option<Oid>, b: Option<Oid>): Option<Oid> {
    if a == base then b
    else if b == base || a == b then a
    else
      match (a, b)
      case (Some(x), Some(y)) => Some(if x <= y then x else y)
      case (Some(_), None) => a
      case (None, _) => b
  }

  /** Members of both sides, and members a side added. */
  function MergeSet<T>(base: set<T>, a: set<T>, b: set<T>): set<T> {
    a * b + (a - base) + (b - base)
  }

  function MergeLines(base: map<string, LineState>, a: map<string, LineState>, b: map<string, LineState>)
    : (r: map<string, LineState>)
    ensures forall k :: At(r, k) == MergeLineAt(At(base, k), At(a, k), At(b, k))
  {
    map k | k in a.Keys + b.Keys :: MergeLineAt(At(base, k), At(a, k), At(b, k)).value
  }

  function MergeDeployed(base: map<EntityId, Oid>, a: map<EntityId, Oid>, b: map<EntityId, Oid>)
    : (r: map<EntityId, Oid>)
    ensures forall k :: At(r, k) == MergeDeployedAt(At(base, k), At(a, k), At(b, k))
  {
    map k | k in a.Keys + b.Keys && MergeDeployedAt(At(base, k), At(a, k), At(b, k)).Some?
      :: MergeDeployedAt(At(base, k), At(a, k), At(b, k)).value
  }

  /** The first pause of each scope. */
  function FirstPauses(ps: seq<PauseState>): (r: seq<PauseState>)
  {
    if ps == [] then []
    else
      var init := FirstPauses(ps[..|ps| - 1]);
      var last := ps[|ps| - 1];
      if Covers(init, last.scope) then init else init + [last]
  }

  function PauseScope(p: PauseState): string { p.scope }

  /** Every pause of either side, in scope order; the base is not consulted. */
  function MergePauses(a: seq<PauseState>, b: seq<PauseState>): seq<PauseState> {
    SortBy(FirstPauses(a + b), PauseScope)
  }

  function UnionSets<K(!new)>(base: map<K, TrieValue>, a: map<K, TrieValue>, b: map<K, TrieValue>): map<K, TrieValue> {
    map k | k in base.Keys + a.Keys + b.Keys :: Member
  }

  function Merge(base: View, a: View, b: View): View {
    View(
      MergeMaps(Pointers, base.entities, a.entities, b.entities),
      MergeMaps(SetPolicy, base.proposed, a.proposed, b.proposed),
      MergeMaps(Pointers, base.claims, a.claims, b.claims),
      MergeMaps(SetPolicy, base.caps, a.caps, b.caps),
      UnionSets(base.revoked, a.revoked, b.revoked),
      UnionSets(base.tombstoned, a.tombstoned, b.tombstoned),
      MergeLines(base.lines, a.lines, b.lines),
      MergeSet(base.roots, a.roots, b.roots),
      MergeSet(base.owners, a.owners, b.owners),
      MergeDeployed(base.deployed, a.deployed, b.deployed),
      MergePauses(a.paused, b.paused))
  }
}
