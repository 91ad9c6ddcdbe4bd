/**
 What a merge of views gives, field by field, said of what base, a and b hold: which
 pointers and members survive, whose line state and deployment is taken. The rules
 leave no choice: two views that follow them are equal.
 */
module MergeRules {
  import opened Options
  import opened Ids
  import opened Values
  import opened KeyRules
  import opened Order
  import opened Views
  import opened ViewLaws

  // --------------------------------------------------------------------- views

  ghost predicate MapRuled<K(!new)>(policy: MergePolicy, base: map<K, TrieValue>, a: map<K, TrieValue>,
                                    b: map<K, TrieValue>, r: map<K, TrieValue>) {
    forall k {:trigger At(r, k)} :: KeyRuled(policy, At(base, k), At(a, k), At(b, k), At(r, k))
  }

  /** Everything that was ever in, and nothing else. */
  ghost predicate AllKept<K(!new)>(base: map<K, TrieValue>, a: map<K, TrieValue>, b: map<K, TrieValue>,
                                   r: map<K, TrieValue>) {
    forall k :: (k in r <==> k in base || k in a || k in b) && (k in r ==> r[k] == Member)
  }

  /** A member of the base stays when both sides kept it; any other is there when a side added it. */
  ghost predicate MembersRuled<T(!new)>(base: set<T>, a: set<T>, b: set<T>, r: set<T>) {
    forall x :: x in r <==> if x in base then x in a && x in b else x in a || x in b
  }

  /** A part of a state: one side's change is taken, of two different changes what `otherwise` says. */
  predicate Settled<T(==)>(base: T, a: T, b: T, r: T, otherwise: bool) {
    && (a == base ==> r == b) && (b == base ==> r == a) && (a == b ==> r == a)
    && (Apart(base, a, b) ==> otherwise)
  }

  /** The lines of a name: the one side's, or part by part where both have it. */
  ghost predicate LineRuled(base: Option<LineState>, a: Option<LineState>, b: Option<LineState>, r: Option<LineState>) {
    && (a.None? ==> r == b) && (b.None? ==> r == a)
    && (a.Some? && b.Some? ==>
          && r.Some?
          && (a == b || b == base ==> r == a)
          && (a == base ==> r == b)
          && (Apart(base, a, b) ==> PartsRuled(base.GetOr(a.value), a.value, b.value, r.value)))
  }

  /** The ID of a, the greater number, one side's head and coordinator, or both heads and the lower coordinator. */
  ghost predicate PartsRuled(base: LineState, a: LineState, b: LineState, r: LineState) {
    && r.id == a.id
    && r.seqno >= a.seqno && r.seqno >= b.seqno && (r.seqno == a.seqno || r.seqno == b.seqno)
    && Settled(base.head, a.head, b.head, r.head, ListsBoth(a.head, b.head, r.head))
    && Settled(base.coordinator, a.coordinator, b.coordinator, r.coordinator,
             Lower(a.coordinator, b.coordinator, r.coordinator))
  }

  predicate Lower(x: nat, y: nat, r: nat) {
    (r == x || r == y) && r <= x && r <= y
  }

  /** A deployment changed on one side is that side's; of two, the lower; one withdrawn and one changed, the changed. */
  ghost predicate DeploymentRuled(base: Option<Oid>, a: Option<Oid>, b: Option<Oid>, r: Option<Oid>) {
    Settled(base, a, b, r,
      if a.Some? && b.Some? then r.Some? && Lower(a.value, b.value, r.value) else r == if a.Some? then a else b)
  }

  /** One pause for each scope either side has, a's before b's, the earliest listed, in scope order. */
  ghost predicate PausesRuled(a: seq<PauseState>, b: seq<PauseState>, r: seq<PauseState>) {
    && SortedBy(r, PauseScope)
    && forall p :: p in r <==> Earliest(a, p) || (Earliest(b, p) && forall q | q in a :: q.scope != p.scope)
  }

  ghost predicate Earliest(ps: seq<PauseState>, p: PauseState) {
    exists i | 0 <= i < |ps| :: ps[i] == p && forall j | 0 <= j < i :: ps[j].scope != p.scope
  }

  ghost predicate LinesRuled(base: map<string, LineState>, a: map<string, LineState>, b: map<string, LineState>,
                             r: map<string, LineState>) {
    forall name {:trigger At(r, name)} :: LineRuled(At(base, name), At(a, name), At(b, name), At(r, name))
  }

  ghost predicate DeployedRuled(base: map<EntityId, Oid>, a: map<EntityId, Oid>, b: map<EntityId, Oid>,
                                r: map<EntityId, Oid>) {
    forall target {:trigger At(r, target)} ::
      DeploymentRuled(At(base, target), At(a, target), At(b, target), At(r, target))
  }

  /** The view before any op. */
  predicate HoldsNothing(v: View) {
    && v.entities == map[] && v.proposed == map[] && v.claims == map[] && v.caps == map[] && v.revoked == map[]
    && v.tombstoned == map[] && v.lines == map[] && v.roots == {} && v.owners == {} && v.deployed == map[]
    && v.paused == []
  }

  /** What a merge of views gives, field by field. */
  ghost predicate MergeRuled(base: View, a: View, b: View, r: View) {
    && MapRuled(Pointers, base.entities, a.entities, b.entities, r.entities)
    && MapRuled(Pointers, base.claims, a.claims, b.claims, r.claims)
    && MapRuled(SetPolicy, base.proposed, a.proposed, b.proposed, r.proposed)
    && MapRuled(SetPolicy, base.caps, a.caps, b.caps, r.caps)
    && AllKept(base.revoked, a.revoked, b.revoked, r.revoked)
    && AllKept(base.tombstoned, a.tombstoned, b.tombstoned, r.tombstoned)
    && LinesRuled(base.lines, a.lines, b.lines, r.lines)
    && MembersRuled(base.roots, a.roots, b.roots, r.roots)
    && MembersRuled(base.owners, a.owners, b.owners, r.owners)
    && DeployedRuled(base.deployed, a.deployed, b.deployed, r.deployed)
    && PausesRuled(a.paused, b.paused, r.paused)
  }

  lemma MapsRuled<K(!new)>(policy: MergePolicy, base: map<K, TrieValue>, a: map<K, TrieValue>, b: map<K, TrieValue>)
    ensures MapRuled(policy, base, a, b, MergeMaps(policy, base, a, b))
  {
    var r := MergeMaps(policy, base, a, b);
    forall k ensures KeyRuled(policy, At(base, k), At(a, k), At(b, k), At(r, k)) {
      ValueRuled(policy, At(base, k), At(a, k), At(b, k));
    }
  }

  lemma LineFollows(base: Option<LineState>, a: Option<LineState>, b: Option<LineState>)
    ensures LineRuled(base, a, b, MergeLineAt(base, a, b))
  {
    if a.Some? && b.Some? {
      UnionLists(a.value.head, b.value.head);
    }
  }

  lemma LinesFollow(base: map<string, LineState>, a: map<string, LineState>, b: map<string, LineState>)
    ensures LinesRuled(base, a, b, MergeLines(base, a, b))
  {
    var r := MergeLines(base, a, b);
    forall name ensures LineRuled(At(base, name), At(a, name), At(b, name), At(r, name)) {
      LineFollows(At(base, name), At(a, name), At(b, name));
    }
  }

  lemma DeployedFollows(base: map<EntityId, Oid>, a: map<EntityId, Oid>, b: map<EntityId, Oid>)
    ensures DeployedRuled(base, a, b, MergeDeployed(base, a, b))
  {
    var r := MergeDeployed(base, a, b);
    forall target ensures DeploymentRuled(At(base, target), At(a, target), At(b, target), At(r, target)) {
    }
  }

  lemma SetsKept<K(!new)>(base: map<K, TrieValue>, a: map<K, TrieValue>, b: map<K, TrieValue>)
    ensures AllKept(base, a, b, UnionSets(base, a, b))
  {}

  lemma MembersFollow<T(!new)>(base: set<T>, a: set<T>, b: set<T>)
    ensures MembersRuled(base, a, b, MergeSet(base, a, b))
  {}

  lemma {:induction false} FirstIsEarliest(ps: seq<PauseState>, p: PauseState)
    ensures p in FirstPauses(ps) <==> Earliest(ps, p)
  {
    if ps != [] {
      var init, last := ps[..|ps| - 1], ps[|ps| - 1];
      FirstIsEarliest(init, p);
      FirstPausesDistinct(init);
      EarliestSnoc(init, last, p);
      assert ps == init + [last];
    }
  }

  lemma EarliestSnoc(ps: seq<PauseState>, last: PauseState, p: PauseState)
    ensures Earliest(ps + [last], p) <==> Earliest(ps, p) || (p == last && !Covers(ps, p.scope))
  {
    var all := ps + [last];
    if i :| 0 <= i < |all| && all[i] == p && forall j | 0 <= j < i :: all[j].scope != p.scope {
      if i < |ps| {
        assert ps[i] == p && forall j | 0 <= j < i :: ps[j] == all[j];
      } else {
        assert forall j | 0 <= j < |ps| :: ps[j] == all[j];
      }
    }
    if i :| 0 <= i < |ps| && ps[i] == p && forall j | 0 <= j < i :: ps[j].scope != p.scope {
      assert all[i] == p && forall j | 0 <= j < i :: all[j] == ps[j];
    }
    if p == last && !Covers(ps, p.scope) {
      assert all[|ps|] == p && forall j | 0 <= j < |ps| :: all[j] == ps[j];
    }
  }

  lemma PausesFollow(a: seq<PauseState>, b: seq<PauseState>)
    ensures PausesRuled(a, b, MergePauses(a, b))
  {
    MergePausesMembers(a, b);
    forall p ensures p in MergePauses(a, b) <==>
                     Earliest(a, p) || (Earliest(b, p) && forall q | q in a :: q.scope != p.scope)
    {
      FirstIsEarliest(a, p);
      FirstIsEarliest(b, p);
      assert Covers(a, p.scope) <==> exists q :: q in a && q.scope == p.scope;
    }
  }

  /** A merge of views follows the rules. */
  lemma {:induction false} MergeFollows(base: View, a: View, b: View)
    ensures MergeRuled(base, a, b, Merge(base, a, b))
  {
    MapsRuled(Pointers, base.entities, a.entities, b.entities);
    MapsRuled(Pointers, base.claims, a.claims, b.claims);
    MapsRuled(SetPolicy, base.proposed, a.proposed, b.proposed);
    MapsRuled(SetPolicy, base.caps, a.caps, b.caps);
    SetsKept(base.revoked, a.revoked, b.revoked);
    SetsKept(base.tombstoned, a.tombstoned, b.tombstoned);
    LinesFollow(base.lines, a.lines, b.lines);
    MembersFollow(base.roots, a.roots, b.roots);
    MembersFollow(base.owners, a.owners, b.owners);
    DeployedFollows(base.deployed, a.deployed, b.deployed);
    PausesFollow(a.paused, b.paused);
  }

  // ------------------------------------------------------- the rules are complete

  lemma MapDecided<K(!new)>(policy: MergePolicy, base: map<K, TrieValue>, a: map<K, TrieValue>, b: map<K, TrieValue>,
                            r: map<K, TrieValue>, s: map<K, TrieValue>)
    requires MapRuled(policy, base, a, b, r) && MapRuled(policy, base, a, b, s)
    ensures r == s
  {
    forall k ensures At(r, k) == At(s, k) {
      KeyDecided(policy, At(base, k), At(a, k), At(b, k), At(r, k), At(s, k));
    }
    SameMap(r, s);
  }

  lemma KeptDecided<K(!new)>(base: map<K, TrieValue>, a: map<K, TrieValue>, b: map<K, TrieValue>,
                             r: map<K, TrieValue>, s: map<K, TrieValue>)
    requires AllKept(base, a, b, r) && AllKept(base, a, b, s)
    ensures r == s
  {
    forall k ensures At(r, k) == At(s, k) {
    }
    SameMap(r, s);
  }

  lemma LineDecided(base: Option<LineState>, a: Option<LineState>, b: Option<LineState>, r: Option<LineState>,
                    s: Option<LineState>)
    requires LineRuled(base, a, b, r) && LineRuled(base, a, b, s)
    ensures r == s
  {
    if a.Some? && b.Some? && Apart(base, a, b) {
      if Apart(base.GetOr(a.value).head, a.value.head, b.value.head) {
        ListsOnce(a.value.head, b.value.head, r.value.head, s.value.head);
      }
    }
  }

  lemma LinesDecided(base: map<string, LineState>, a: map<string, LineState>, b: map<string, LineState>,
                     r: map<string, LineState>, s: map<string, LineState>)
    requires LinesRuled(base, a, b, r) && LinesRuled(base, a, b, s)
    ensures r == s
  {
    forall name ensures At(r, name) == At(s, name) {
      LineDecided(At(base, name), At(a, name), At(b, name), At(r, name), At(s, name));
    }
    SameMap(r, s);
  }

  lemma DeployedDecided(base: map<EntityId, Oid>, a: map<EntityId, Oid>, b: map<EntityId, Oid>,
                        r: map<EntityId, Oid>, s: map<EntityId, Oid>)
    requires DeployedRuled(base, a, b, r) && DeployedRuled(base, a, b, s)
    ensures r == s
  {
    forall target ensures At(r, target) == At(s, target) {
    }
    SameMap(r, s);
  }

  /** No two results follow the rules. */
  lemma {:induction false} MergeDecided(base: View, a: View, b: View, r: View, s: View)
    requires MergeRuled(base, a, b, r) && MergeRuled(base, a, b, s)
    ensures r == s
  {
    MapDecided(Pointers, base.entities, a.entities, b.entities, r.entities, s.entities);
    MapDecided(Pointers, base.claims, a.claims, b.claims, r.claims, s.claims);
    MapDecided(SetPolicy, base.proposed, a.proposed, b.proposed, r.proposed, s.proposed);
    MapDecided(SetPolicy, base.caps, a.caps, b.caps, r.caps, s.caps);
    KeptDecided(base.revoked, a.revoked, b.revoked, r.revoked, s.revoked);
    KeptDecided(base.tombstoned, a.tombstoned, b.tombstoned, r.tombstoned, s.tombstoned);
    LinesDecided(base.lines, a.lines, b.lines, r.lines, s.lines);
    DeployedDecided(base.deployed, a.deployed, b.deployed, r.deployed, s.deployed);
    SortedUnique(r.paused, s.paused, PauseScope);
    assert r.roots == s.roots && r.owners == s.owners;
  }
}
