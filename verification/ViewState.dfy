/**
 Applying effects to a view and merging views, as the loops that do it. Trie
 merges are the method TrieStore.Store.Merge3, which names the maps merged here.
 */
module ViewState {
  import opened Options
  import opened Ids
  import opened Values
  import opened Order
  import opened Views
  import opened MergeRules
  import opened EffectRules

  /** Apply effects in order; none at the first that names an unknown line without its ID. */
  method ApplyEffects(v: View, es: seq<Effect>, parent: Option<Oid>) returns (r: Option<View>)
    ensures r == Apply(v, es, parent)
    ensures forall x :: r == Some(x) <==> Makes(v, es, parent, x)
  {
    forall x ensures Apply(v, es, parent) == Some(x) <==> Makes(v, es, parent, x) {
      AppliesExactly(v, es, parent, x);
    }
    var next := v;
    for i := 0 to |es|
      invariant Apply(next, es[i..], parent) == Apply(v, es, parent)
    {
      assert es[i..][0] == es[i] && es[i..][1..] == es[i + 1..];
      var one := ApplyOne(next, es[i], parent);
      if one.None? {
        return None;
      }
      next := one.value;
    }
    r := Some(next);
  }

  method MergeLineMaps(base: map<string, LineState>, a: map<string, LineState>, b: map<string, LineState>)
    returns (lines: map<string, LineState>)
    ensures lines == MergeLines(base, a, b)
  {
    lines := map[];
    var left := base.Keys + a.Keys + b.Keys;
    while left != {}
      invariant left <= base.Keys + a.Keys + b.Keys
      invariant forall k :: At(lines, k) == if k in left then None else MergeLineAt(At(base, k), At(a, k), At(b, k))
      decreases left
    {
      var name :| name in left;
      left := left - {name};
      var merged := MergeLineAt(At(base, name), At(a, name), At(b, name));
      if merged.Some? {
        lines := lines[name := merged.value];
      }
    }
    SameMap(lines, MergeLines(base, a, b));
  }

  method MergeDeployedMaps(base: map<EntityId, Oid>, a: map<EntityId, Oid>, b: map<EntityId, Oid>)
    returns (deployed: map<EntityId, Oid>)
    ensures deployed == MergeDeployed(base, a, b)
  {
    deployed := map[];
    var left := base.Keys + a.Keys + b.Keys;
    while left != {}
      invariant left <= base.Keys + a.Keys + b.Keys
      invariant forall k ::
                  At(deployed, k) == if k in left then None else MergeDeployedAt(At(base, k), At(a, k), At(b, k))
      decreases left
    {
      var target :| target in left;
      left := left - {target};
      var merged := MergeDeployedAt(At(base, target), At(a, target), At(b, target));
      if merged.Some? {
        deployed := deployed[target := merged.value];
      }
    }
    SameMap(deployed, MergeDeployed(base, a, b));
  }

  /** Members on both sides, or on one side and not in the base. */
  method MergeMembers<T(==, !new)>(base: set<T>, a: set<T>, b: set<T>) returns (out: set<T>)
    ensures out == MergeSet(base, a, b)
    ensures MembersRuled(base, a, b, out)
  {
    out := {};
    var left := base + a + b;
    while left != {}
      invariant left <= base + a + b && out == MergeSet(base, a, b) - left
      decreases left
    {
      var x :| x in left;
      left := left - {x};
      if (x in a && x in b) || (x in a && x !in base) || (x in b && x !in base) {
        out := out + {x};
      }
    }
  }

  /** The first pause of each scope on either side, sorted by scope. */
  method MergePauseLists(a: seq<PauseState>, b: seq<PauseState>) returns (paused: seq<PauseState>)
    ensures paused == MergePauses(a, b)
  {
    var all := a + b;
    paused := [];
    for i := 0 to |all|
      invariant paused == FirstPauses(all[..i])
    {
      assert all[..i + 1][..i] == all[..i];
      if !Covers(paused, all[i].scope) {
        paused := paused + [all[i]];
      }
    }
    assert all[..|all|] == all;
    paused := SortBy(paused, PauseScope);
  }

  /** Every key of three sets, inserted into an empty one. */
  method UnionOf<K(!new, ==)>(base: map<K, TrieValue>, a: map<K, TrieValue>, b: map<K,
                   TrieValue>) returns (out: map<K, TrieValue>)
    ensures out == UnionSets(base, a, b)
  {
    out := map[];
    var left := base.Keys + a.Keys + b.Keys;
    while left != {}
      invariant left <= base.Keys + a.Keys + b.Keys && out.Keys == base.Keys + a.Keys + b.Keys - left
      invariant forall k | k in out :: out[k] == Member
      decreases left
    {
      var k :| k in left;
      left, out := left - {k}, out[k := Member];
    }
  }

  /** The loops over the fields build `Merge`, which is what the rules ask of each field. */
  method MergeViews(base: View, a: View, b: View) returns (merged: View)
    ensures merged == Merge(base, a, b)
    ensures MergeRuled(base, a, b, merged)
  {
    var revoked := UnionOf(base.revoked, a.revoked, b.revoked);
    var tombstoned := UnionOf(base.tombstoned, a.tombstoned, b.tombstoned);
    var lines := MergeLineMaps(base.lines, a.lines, b.lines);
    var roots := MergeMembers(base.roots, a.roots, b.roots);
    var owners := MergeMembers(base.owners, a.owners, b.owners);
    var deployed := MergeDeployedMaps(base.deployed, a.deployed, b.deployed);
    var paused := MergePauseLists(a.paused, b.paused);
    merged := View(
      MergeMaps(Pointers, base.entities, a.entities, b.entities),
      MergeMaps(SetPolicy, base.proposed, a.proposed, b.proposed),
      MergeMaps(Pointers, base.claims, a.claims, b.claims),
      MergeMaps(SetPolicy, base.caps, a.caps, b.caps),
      revoked, tombstoned, lines, roots, owners, deployed, paused);
    MergeFollows(base, a, b);
  }
}
