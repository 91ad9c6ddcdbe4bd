/** When merging views is symmetric, and when it gives one side back unchanged. */
module ViewLaws {
  import opened Options
  import opened Ids
  import opened Values
  import opened Order
  import opened Views

  // -------------------------------------------------------------------- pauses

  lemma {:induction false} FirstPausesDistinct(ps: seq<PauseState>)
    ensures DistinctBy(FirstPauses(ps), PauseScope)
    ensures forall s :: Covers(FirstPauses(ps), s) <==> Covers(ps, s)
    ensures forall p | p in FirstPauses(ps) :: p in ps
  {
    if ps != [] {
      var init, last := ps[..|ps| - 1], ps[|ps| - 1];
      FirstPausesDistinct(init);
      assert ps == init + [last];
      forall s ensures Covers(FirstPauses(ps), s) <==> Covers(ps, s) {
        CoversSnoc(init, last, s);
        CoversSnoc(FirstPauses(init), last, s);
      }
    }
  }

  lemma CoversSnoc(ps: seq<PauseState>, p: PauseState, scope: string)
    ensures Covers(ps + [p], scope) <==> Covers(ps, scope) || p.scope == scope
  {
    if Covers(ps, scope) {
      var i :| 0 <= i < |ps| && ps[i].scope == scope;
      assert (ps + [p])[i].scope == scope;
    }
    assert (ps + [p])[|ps|] == p;
  }

  /** In a concatenation the left side's pauses come first. */
  lemma {:induction false} FirstPausesConcat(a: seq<PauseState>, b: seq<PauseState>, p: PauseState)
    ensures p in FirstPauses(a + b) <==> p in FirstPauses(a) || (p in FirstPauses(b) && !Covers(a, p.scope))
  {
    if b == [] {
      assert a + b == a;
    } else {
      var init, last := b[..|b| - 1], b[|b| - 1];
      assert (a + b)[..|a + b| - 1] == a + init;
      FirstPausesConcat(a, init, p);
      FirstPausesDistinct(a + init);
      FirstPausesDistinct(init);
      CoversConcat(a, init, last.scope);
      if p in FirstPauses(a) {
        FirstPausesDistinct(a);
      }
    }
  }

  lemma CoversConcat(a: seq<PauseState>, b: seq<PauseState>, scope: string)
    ensures Covers(a + b, scope) <==> Covers(a, scope) || Covers(b, scope)
  {
    if Covers(a, scope) {
      var i :| 0 <= i < |a| && a[i].scope == scope;
      assert (a + b)[i].scope == scope;
    }
    if Covers(b, scope) {
      var i :| 0 <= i < |b| && b[i].scope == scope;
      assert (a + b)[|a| + i].scope == scope;
    }
  }

  /** The merged pauses: sorted, one per scope, the left side's first. */
  lemma {:induction false} MergePausesMembers(a: seq<PauseState>, b: seq<PauseState>)
    ensures SortedBy(MergePauses(a, b), PauseScope)
    ensures forall p :: p in MergePauses(a, b) <==>
                        p in FirstPauses(a) || (p in FirstPauses(b) && !Covers(a, p.scope))
  {
    FirstPausesDistinct(a + b);
    SortSorted(FirstPauses(a + b), PauseScope);
    SameMembers(FirstPauses(a + b), SortBy(FirstPauses(a + b), PauseScope));
    forall p ensures p in MergePauses(a, b) <==> p in FirstPauses(a) || (p in FirstPauses(b) && !Covers(a, p.scope)) {
      FirstPausesConcat(a, b, p);
    }
  }

  /** The two sides pause no scope differently. */
  ghost predicate PausesAgree(a: seq<PauseState>, b: seq<PauseState>) {
    forall p, q | p in FirstPauses(a) && q in FirstPauses(b) && p.scope == q.scope :: p == q
  }

  lemma PauseOfScope(ps: seq<PauseState>, scope: string) returns (p: PauseState)
    requires Covers(ps, scope)
    ensures p in FirstPauses(ps) && p.scope == scope
  {
    FirstPausesDistinct(ps);
    var i :| 0 <= i < |FirstPauses(ps)| && FirstPauses(ps)[i].scope == scope;
    p := FirstPauses(ps)[i];
  }

  lemma {:induction false} MergePausesSymmetric(a: seq<PauseState>, b: seq<PauseState>)
    ensures MergePauses(a, b) == MergePauses(b, a) <==> PausesAgree(a, b)
  {
    MergePausesMembers(a, b);
    MergePausesMembers(b, a);
    if PausesAgree(a, b) {
      forall p ensures p in MergePauses(a, b) <==> p in MergePauses(b, a) {
        if p in FirstPauses(a) && Covers(b, p.scope) {
          var q := PauseOfScope(b, p.scope);
        }
        if p in FirstPauses(b) && Covers(a, p.scope) {
          var q := PauseOfScope(a, p.scope);
        }
      }
      SortedUnique(MergePauses(a, b), MergePauses(b, a), PauseScope);
    }
    if MergePauses(a, b) == MergePauses(b, a) {
      forall p, q | p in FirstPauses(a) && q in FirstPauses(b) && p.scope == q.scope ensures p == q {
        SortedScopeUnique(MergePauses(a, b), p, q);
      }
    }
  }

  lemma SortedScopeUnique(ps: seq<PauseState>, p: PauseState, q: PauseState)
    requires SortedBy(ps, PauseScope) && p in ps && q in ps && p.scope == q.scope
    ensures p == q
  {
    var i :| 0 <= i < |ps| && ps[i] == p;
    var j :| 0 <= j < |ps| && ps[j] == q;
    assert i < j ==> Less(PauseScope(ps[i]), PauseScope(ps[j]));
    assert j < i ==> Less(PauseScope(ps[j]), PauseScope(ps[i]));
    LessTotal(p.scope, p.scope);
  }

  // --------------------------------------------------------------------- lines

  /** One line both sides hold, read the same from either side. */
  ghost predicate LineAgrees(base: Option<LineState>, a: LineState, b: LineState) {
    || a == b
    || (if base.None? then a.id == b.id && a.head == b.head && a.coordinator == b.coordinator
        else a == base.value || b == base.value || a.id == b.id)
  }

  ghost predicate LinesAgree(base: map<string, LineState>, a: map<string, LineState>, b: map<string, LineState>) {
    forall k | k in a && k in b :: LineAgrees(At(base, k), a[k], b[k])
  }

  lemma MergeLineSymmetric(base: Option<LineState>, a: LineState, b: LineState)
    ensures MergeLineAt(base, Some(a), Some(b)) == MergeLineAt(base, Some(b), Some(a)) <==> LineAgrees(base, a, b)
  {
    UnionSymmetric(a.head, b.head);
  }

  lemma {:induction false} MergeLinesSymmetric(base: map<string, LineState>, a: map<string, LineState>, b: map<string,
                                               LineState>)
    ensures MergeLines(base, a, b) == MergeLines(base, b, a) <==> LinesAgree(base, a, b)
  {
    if LinesAgree(base, a, b) {
      forall k ensures At(MergeLines(base, a, b), k) == At(MergeLines(base, b, a), k) {
        if k in a && k in b {
          MergeLineSymmetric(At(base, k), a[k], b[k]);
        }
      }
      SameMap(MergeLines(base, a, b), MergeLines(base, b, a));
    }
    if MergeLines(base, a, b) == MergeLines(base, b, a) {
      forall k | k in a && k in b ensures LineAgrees(At(base, k), a[k], b[k]) {
        assert At(MergeLines(base, a, b), k) == At(MergeLines(base, b, a), k);
        MergeLineSymmetric(At(base, k), a[k], b[k]);
      }
    }
  }

  // --------------------------------------------------------------- whole views

  lemma {:induction false} MergeMapsSymmetric<K(!new)>(policy: MergePolicy, base: map<K, TrieValue>, a: map<K,
                                                TrieValue>, b: map<K, TrieValue>)
    ensures MergeMaps(policy, base, a, b) == MergeMaps(policy, base, b, a)
  {
    forall k ensures At(MergeMaps(policy, base, a, b), k) == At(MergeMaps(policy, base, b, a), k) {
      MergeValueSymmetric(policy, At(base, k), At(a, k), At(b, k));
    }
    SameMap(MergeMaps(policy, base, a, b), MergeMaps(policy, base, b, a));
  }

  lemma DeployedSymmetric(base: map<EntityId, Oid>, a: map<EntityId, Oid>, b: map<EntityId, Oid>)
    ensures MergeDeployed(base, a, b) == MergeDeployed(base, b, a)
  {
    SameMap(MergeDeployed(base, a, b), MergeDeployed(base, b, a));
  }

  lemma UnionSetsSymmetric<K(!new)>(base: map<K, TrieValue>, a: map<K, TrieValue>, b: map<K, TrieValue>)
    ensures UnionSets(base, a, b) == UnionSets(base, b, a)
  {
    assert UnionSets(base, a, b).Keys == UnionSets(base, b, a).Keys;
  }

  /** All of a view but its lines and pauses. */
  ghost predicate SameElsewhere(x: View, y: View) {
    && x.entities == y.entities && x.proposed == y.proposed && x.claims == y.claims && x.caps == y.caps
    && x.revoked == y.revoked && x.tombstoned == y.tombstoned
    && x.roots == y.roots && x.owners == y.owners && x.deployed == y.deployed
  }

  lemma SetsSymmetric<T>(base: set<T>, a: set<T>, b: set<T>)
    ensures MergeSet(base, a, b) == MergeSet(base, b, a)
  {}

  lemma {:induction false} MergeSymmetricElsewhere(base: View, a: View, b: View)
    ensures SameElsewhere(Merge(base, a, b), Merge(base, b, a))
  {
    MergeMapsSymmetric(Pointers, base.entities, a.entities, b.entities);
    MergeMapsSymmetric(SetPolicy, base.proposed, a.proposed, b.proposed);
    MergeMapsSymmetric(Pointers, base.claims, a.claims, b.claims);
    MergeMapsSymmetric(SetPolicy, base.caps, a.caps, b.caps);
    DeployedSymmetric(base.deployed, a.deployed, b.deployed);
    UnionSetsSymmetric(base.revoked, a.revoked, b.revoked);
    UnionSetsSymmetric(base.tombstoned, a.tombstoned, b.tombstoned);
    SetsSymmetric(base.roots, a.roots, b.roots);
    SetsSymmetric(base.owners, a.owners, b.owners);
  }

  /**
   Merging is symmetric exactly when the two sides hold no line they would
   describe differently and pause no scope differently. Everything else in a
   view merges the same from either side.
   */
  lemma {:induction false} MergeSymmetric(base: View, a: View, b: View)
    ensures Merge(base, a, b) == Merge(base, b, a) <==>
            LinesAgree(base.lines, a.lines, b.lines) && PausesAgree(a.paused, b.paused)
  {
    var x, y := Merge(base, a, b), Merge(base, b, a);
    MergeSymmetricElsewhere(base, a, b);
    MergeLinesSymmetric(base.lines, a.lines, b.lines);
    MergePausesSymmetric(a.paused, b.paused);
  }

  /** Every stored value of a set is its membership mark. */
  ghost predicate IsSet<K(!new)>(m: map<K, TrieValue>) {
    forall k | k in m :: m[k] == Member
  }

  /** `next` lost nothing of `base` that a merge never drops. */
  ghost predicate KeepsAll(base: View, next: View) {
    && IsSet(next.revoked) && base.revoked.Keys <= next.revoked.Keys
    && IsSet(next.tombstoned) && base.tombstoned.Keys <= next.tombstoned.Keys
    && base.lines.Keys <= next.lines.Keys
    && SortedBy(next.paused, PauseScope)
    && forall p | p in FirstPauses(base.paused) :: p in next.paused
  }

  lemma {:induction false} SortedIsFirst(ps: seq<PauseState>)
    requires SortedBy(ps, PauseScope)
    ensures FirstPauses(ps) == ps
  {
    if ps != [] {
      var init, last := ps[..|ps| - 1], ps[|ps| - 1];
      SortedIsFirst(init);
      if Covers(init, last.scope) {
        var i :| 0 <= i < |init| && init[i].scope == last.scope;
        SortedScopeUnique(ps, ps[i], last);
        LessTotal(last.scope, last.scope);
      }
    }
  }

  lemma {:induction false} MergePausesUnchanged(base: seq<PauseState>, b: seq<PauseState>)
    ensures MergePauses(base, b) == b <==>
            SortedBy(b, PauseScope) && forall p | p in FirstPauses(base) :: p in b
  {
    MergePausesMembers(base, b);
    if SortedBy(b, PauseScope) && forall p | p in FirstPauses(base) :: p in b {
      SortedIsFirst(b);
      forall p ensures p in MergePauses(base, b) <==> p in b {
        if p in b && Covers(base, p.scope) {
          var q := PauseOfScope(base, p.scope);
          SortedScopeUnique(b, p, q);
        }
      }
      SortedUnique(MergePauses(base, b), b, PauseScope);
    }
  }

  lemma {:induction false} MergeUnchangedMaps<K(!new)>(policy: MergePolicy, base: map<K, TrieValue>, b: map<K,
                                                TrieValue>)
    ensures MergeMaps(policy, base, base, b) == b
  {
    SameMap(MergeMaps(policy, base, base, b), b);
  }

  lemma UnionUnchanged<K(!new)>(base: map<K, TrieValue>, b: map<K, TrieValue>)
    ensures UnionSets(base, base, b) == b <==> IsSet(b) && base.Keys <= b.Keys
  {
    if UnionSets(base, base, b) == b {
      assert UnionSets(base, base, b).Keys == base.Keys + b.Keys;
    }
    if IsSet(b) && base.Keys <= b.Keys {
      assert UnionSets(base, base, b).Keys == b.Keys;
    }
  }

  /**
   Merging with a side that did nothing gives the other side back exactly when
   that side kept every revocation, tombstone, line and pause of the base.
   */
  lemma {:induction false} MergeUnchangedSide(base: View, b: View)
    ensures Merge(base, base, b) == b <==> KeepsAll(base, b)
  {
    var m := Merge(base, base, b);
    UnionUnchanged(base.revoked, b.revoked);
    UnionUnchanged(base.tombstoned, b.tombstoned);
    MergePausesUnchanged(base.paused, b.paused);
    if m.revoked == b.revoked && m.tombstoned == b.tombstoned {
      MergeUnchangedElsewhere(base, b);
    }
  }

  lemma {:induction false} MergeUnchangedElsewhere(base: View, b: View)
    requires UnionSets(base.revoked, base.revoked, b.revoked) == b.revoked
    requires UnionSets(base.tombstoned, base.tombstoned, b.tombstoned) == b.tombstoned
    ensures SameElsewhere(Merge(base, base, b), b)
  {
    MergeUnchangedMaps(Pointers, base.entities, b.entities);
    MergeUnchangedMaps(SetPolicy, base.proposed, b.proposed);
    MergeUnchangedMaps(Pointers, base.claims, b.claims);
    MergeUnchangedMaps(SetPolicy, base.caps, b.caps);
    SameMap(MergeDeployed(base.deployed, base.deployed, b.deployed), b.deployed);
  }
}
