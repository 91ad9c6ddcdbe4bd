/**
 What effects do to a view, field by field: which key, line, member or pause
 changes, to what, and that nothing else does. The rules leave no choice.
 */
module EffectRules {
  import opened Options
  import opened Ids
  import opened Values
  import opened Views

  /** `r` holds `x` at `k`, and elsewhere what `m` holds. */
  ghost predicate OnlyAt<K(!new), V(!new)>(m: map<K, V>, r: map<K, V>, k: K, x: Option<V>) {
    At(r, k) == x && forall j | j != k :: At(r, j) == At(m, j)
  }

  ghost predicate OnlyMember<T(!new)>(s: set<T>, r: set<T>, x: T, present: bool) {
    (x in r <==> present) && forall y | y != x :: y in r <==> y in s
  }

  /** The owner with the lowest ID, or `default` where there is none. */
  predicate Leads(owners: set<EntityId>, default: EntityId, p: EntityId) {
    if owners == {} then p == default else IsLeast(owners, p)
  }

  /** `r` lists, in order, the pauses of other scopes: those at the indices `at`. */
  ghost predicate ListsOthers(ps: seq<PauseState>, scope: string, r: seq<PauseState>, at: seq<nat>) {
    && Rises(at) && (forall i: nat :: i in at <==> i < |ps| && ps[i].scope != scope)
    && |r| == |at| && forall n | 0 <= n < |at| :: at[n] < |ps| && r[n] == ps[at[n]]
  }

  /** One key of one map, one line, one member or one pause changes. */
  ghost predicate Does(v: View, e: Effect, parent: Option<Oid>, r: View) {
    match e
    case Put(_) => r == v
    case Point(entity, to, _) =>
      r == v.(entities := r.entities) && OnlyAt(v.entities, r.entities, entity, Some(Id(to)))
    case Unpoint(entity) => r == v.(entities := r.entities) && OnlyAt(v.entities, r.entities, entity, None)
    case Head(line, to, _, n, _, id) =>
      r == v.(lines := r.lines) && HeadLines(v, line, to, n, id, r.lines)
    case Propose(rev) => r == v.(proposed := r.proposed) && OnlyAt(v.proposed, r.proposed, rev, Some(Member))
    case Unpropose(rev) => r == v.(proposed := r.proposed) && OnlyAt(v.proposed, r.proposed, rev, None)
    case Claim(claim, to) => r == v.(claims := r.claims) && OnlyAt(v.claims, r.claims, claim, Some(Id(to)))
    case Unclaim(claim) => r == v.(claims := r.claims) && OnlyAt(v.claims, r.claims, claim, None)
    case Cap(cap) => r == v.(caps := r.caps) && OnlyAt(v.caps, r.caps, cap, Some(Member))
    case Uncap(cap) => r == v.(caps := r.caps) && OnlyAt(v.caps, r.caps, cap, None)
    case Revoke(p) => r == v.(revoked := r.revoked) && OnlyAt(v.revoked, r.revoked, p, Some(Member))
    case Tomb(of, _) => r == v.(tombstoned := r.tombstoned) && OnlyAt(v.tombstoned, r.tombstoned, of, Some(Member))
    case Deploy(target, to) => r == v.(deployed := r.deployed) && OnlyAt(v.deployed, r.deployed, target, Some(to))
    case Pause(scope) =>
      r == v.(paused := r.paused) && PauseMade(v, scope, parent, r.paused)
    case Resume(scope) =>
      r == v.(paused := r.paused) && exists at :: ListsOthers(v.paused, scope, r.paused, at)
    case Owner(p) => r == v.(owners := r.owners) && OnlyMember(v.owners, r.owners, p, true)
    case Unowner(p) => r == v.(owners := r.owners) && OnlyMember(v.owners, r.owners, p, false)
    case Root(name) => r == v.(roots := r.roots) && OnlyMember(v.roots, r.roots, name, true)
    case Unroot(name) => r == v.(roots := r.roots) && OnlyMember(v.roots, r.roots, name, false)
    case Coordinator(line, to) =>
      && r == v.(lines := r.lines)
      && (line !in v.lines ==> r == v)
      && (line in v.lines ==>
            var s := v.lines[line]; OnlyAt(v.lines, r.lines, line, Some(LineState(s.id, s.head, s.seqno, to))))
  }

  ghost predicate HeadLines(v: View, line: string, to: Oid, n: nat, id: Option<EntityId>, r: map<string, LineState>) {
    exists s :: OnlyAt(v.lines, r, line, Some(s)) && HeadMade(v, line, to, n, id, s)
  }

  /** A known line keeps its ID and coordinator; a new one needs an ID, and the first owner coordinates it. */
  ghost predicate HeadMade(v: View, line: string, to: Oid, n: nat, id: Option<EntityId>, s: LineState) {
    && s.head == Id(to) && s.seqno == n
    && (line in v.lines ==> s.id == v.lines[line].id && s.coordinator == v.lines[line].coordinator)
    && (line !in v.lines ==> id == Some(s.id) && Leads(v.owners, s.id, s.coordinator))
  }

  /** A paused scope stays as it is; any other is added last, for the first owner and under the op's first parent. */
  ghost predicate PauseMade(v: View, scope: string, parent: Option<Oid>, r: seq<PauseState>) {
    if exists q | q in v.paused :: q.scope == scope then r == v.paused
    else
      exists p: PauseState ::
        && r == v.paused + [p] && p.scope == scope && Leads(v.owners, 0, p.author)
        && p.op == if parent.Some? then parent.value else 0
  }

  /** `vs` are the views after none, one, two, … of the effects. */
  ghost predicate Steps(v: View, es: seq<Effect>, parent: Option<Oid>, vs: seq<View>) {
    |vs| == |es| + 1 && vs[0] == v && forall i | 0 <= i < |es| :: Does(vs[i], es[i], parent, vs[i + 1])
  }

  ghost predicate Makes(v: View, es: seq<Effect>, parent: Option<Oid>, r: View) {
    exists vs :: Steps(v, es, parent, vs) && vs[|es|] == r
  }

  // ---------------------------------------------------------------- one effect

  lemma OnlyAtOnce<K(!new), V(!new)>(m: map<K, V>, r: map<K, V>, s: map<K, V>, k: K, x: Option<V>)
    requires OnlyAt(m, r, k, x) && OnlyAt(m, s, k, x)
    ensures r == s
  {
    forall j ensures At(r, j) == At(s, j) {
    }
    SameMap(r, s);
  }

  lemma PutAt<K(!new), V(!new)>(m: map<K, V>, k: K, x: V)
    ensures OnlyAt(m, m[k := x], k, Some(x)) && forall r :: OnlyAt(m, r, k, Some(x)) ==> r == m[k := x]
  {
    forall r | OnlyAt(m, r, k, Some(x)) ensures r == m[k := x] {
      OnlyAtOnce(m, r, m[k := x], k, Some(x));
    }
  }

  lemma GoneAt<K(!new), V(!new)>(m: map<K, V>, k: K)
    ensures OnlyAt(m, m - {k}, k, None) && forall r :: OnlyAt(m, r, k, None) ==> r == m - {k}
  {
    forall r | OnlyAt(m, r, k, None) ensures r == m - {k} {
      OnlyAtOnce(m, r, m - {k}, k, None);
    }
  }

  lemma FirstOwnerLeads(v: View, default: EntityId, p: EntityId)
    ensures Leads(v.owners, default, p) <==> p == FirstOwner(v, default)
  {
    if v.owners != {} {
      var sorted := Ascending(v.owners);
      var o :| o in v.owners;
      assert o in sorted;
      assert IsLeast(v.owners, sorted[0]) by {
        assert sorted[0] in sorted;
        forall x | x in v.owners ensures sorted[0] <= x {
          assert x in sorted;
        }
      }
    }
  }

  lemma {:induction false} WithoutLists(ps: seq<PauseState>, scope: string) returns (at: seq<nat>)
    ensures ListsOthers(ps, scope, WithoutScope(ps, scope), at)
  {
    if ps == [] {
      at := [];
    } else {
      var below := WithoutLists(ps[1..], scope);
      if ps[0].scope == scope {
        at := seq(|below|, n requires 0 <= n < |below| => below[n] + 1);
        Skipped(ps, scope, WithoutScope(ps[1..], scope), below, at);
      } else {
        at := [0] + seq(|below|, n requires 0 <= n < |below| => below[n] + 1);
        Listed(ps, scope, WithoutScope(ps[1..], scope), below, at);
      }
    }
  }

  lemma Skipped(ps: seq<PauseState>, scope: string, r: seq<PauseState>, below: seq<nat>, at: seq<nat>)
    requires ps != [] && ps[0].scope == scope && ListsOthers(ps[1..], scope, r, below)
    requires |at| == |below| && forall n | 0 <= n < |below| :: at[n] == below[n] + 1
    ensures ListsOthers(ps, scope, r, at)
  {
    forall i: nat ensures i in at <==> i < |ps| && ps[i].scope != scope {
      NextIndices(below, at, i);
    }
  }

  lemma Listed(ps: seq<PauseState>, scope: string, r: seq<PauseState>, below: seq<nat>, at: seq<nat>)
    requires ps != [] && ps[0].scope != scope && ListsOthers(ps[1..], scope, r, below)
    requires |at| == |below| + 1 && at[0] == 0 && forall n | 0 <= n < |below| :: at[n + 1] == below[n] + 1
    ensures ListsOthers(ps, scope, [ps[0]] + r, at)
  {
    forall i: nat ensures i in at <==> i < |ps| && ps[i].scope != scope {
      AfterNone(below, at, i);
    }
    ListedInOrder(ps, r, below, at);
  }

  lemma AfterNone(below: seq<nat>, at: seq<nat>, i: nat)
    requires |at| == |below| + 1 && at[0] == 0 && forall n | 0 <= n < |below| :: at[n + 1] == below[n] + 1
    ensures i in at <==> i == 0 || i - 1 in below
  {
    if i > 0 && i - 1 in below {
      var n :| 0 <= n < |below| && below[n] == i - 1;
      assert at[n + 1] == i;
    }
    if i > 0 && i in at {
      var n :| 0 <= n < |at| && at[n] == i;
      assert below[n - 1] == i - 1;
    }
  }

  lemma ListedInOrder(ps: seq<PauseState>, r: seq<PauseState>, below: seq<nat>, at: seq<nat>)
    requires ps != [] && Rises(below) && |r| == |below|
    requires forall n | 0 <= n < |below| :: below[n] < |ps[1..]| && r[n] == ps[1..][below[n]]
    requires |at| == |below| + 1 && at[0] == 0 && forall n | 0 <= n < |below| :: at[n + 1] == below[n] + 1
    ensures Rises(at) && forall n | 0 <= n < |at| :: at[n] < |ps| && ([ps[0]] + r)[n] == ps[at[n]]
  {
    forall i, j | 0 <= i < j < |at| ensures at[i] < at[j] {
      assert at[j] == below[j - 1] + 1 && (i > 0 ==> at[i] == below[i - 1] + 1);
    }
    forall n | 0 <= n < |at| ensures at[n] < |ps| && ([ps[0]] + r)[n] == ps[at[n]] {
      if n > 0 {
        assert at[n] == below[n - 1] + 1 && r[n - 1] == ps[1..][below[n - 1]];
      }
    }
  }

  lemma NextIndices(below: seq<nat>, next: seq<nat>, i: nat)
    requires |next| == |below| && forall n | 0 <= n < |below| :: next[n] == below[n] + 1
    ensures i in next <==> i > 0 && i - 1 in below
  {
    if i > 0 && i - 1 in below {
      var n :| 0 <= n < |below| && below[n] == i - 1;
      assert next[n] == i;
    }
  }

  lemma ListsOnce(ps: seq<PauseState>, scope: string, r: seq<PauseState>, s: seq<PauseState>, x: seq<nat>, y: seq<nat>)
    requires ListsOthers(ps, scope, r, x) && ListsOthers(ps, scope, s, y)
    ensures r == s
  {
    RisesOnce(x, y);
  }

  lemma ResumeExactly(ps: seq<PauseState>, scope: string, r: seq<PauseState>)
    ensures (exists at :: ListsOthers(ps, scope, r, at)) <==> r == WithoutScope(ps, scope)
  {
    var kept := WithoutLists(ps, scope);
    if at :| ListsOthers(ps, scope, r, at) {
      ListsOnce(ps, scope, r, WithoutScope(ps, scope), at, kept);
    }
  }

  lemma PauseExactly(v: View, scope: string, parent: Option<Oid>, r: seq<PauseState>)
    ensures PauseMade(v, scope, parent, r) <==>
            r == if Covers(v.paused, scope) then v.paused
                 else v.paused + [PauseState(scope, FirstOwner(v, 0), parent.GetOr(0))]
  {
    var p := PauseState(scope, FirstOwner(v, 0), parent.GetOr(0));
    forall author ensures Leads(v.owners, 0, author) <==> author == p.author {
      FirstOwnerLeads(v, 0, author);
    }
    assert Covers(v.paused, scope) <==> exists q | q in v.paused :: q.scope == scope;
  }

  lemma KnownHeadExactly(v: View, line: string, to: Oid, n: nat, id: Option<EntityId>, s: LineState)
    requires line in v.lines
    ensures HeadMade(v, line, to, n, id, s) <==> s == v.lines[line].(head := Id(to), seqno := n)
  {}

  lemma NewHeadExactly(v: View, line: string, to: Oid, n: nat, id: Option<EntityId>, s: LineState)
    requires line !in v.lines
    ensures HeadMade(v, line, to, n, id, s) <==>
            id.Some? && s == LineState(id.value, Id(to), n, FirstOwner(v, id.value))
  {
    FirstOwnerLeads(v, id.GetOr(0), s.coordinator);
  }

  lemma KnownLineExactly(v: View, line: string, to: Oid, n: nat, id: Option<EntityId>, r: map<string, LineState>)
    requires line in v.lines
    ensures HeadLines(v, line, to, n, id, r) <==> r == v.lines[line := v.lines[line].(head := Id(to), seqno := n)]
  {
    var made := v.lines[line].(head := Id(to), seqno := n);
    KnownHeadExactly(v, line, to, n, id, made);
    if s :| OnlyAt(v.lines, r, line, Some(s)) && HeadMade(v, line, to, n, id, s) {
      KnownHeadExactly(v, line, to, n, id, s);
      OnlyAtOnce(v.lines, r, v.lines[line := made], line, Some(made));
    }
  }

  lemma NewLineExactly(v: View, line: string, to: Oid, n: nat, id: Option<EntityId>, r: map<string, LineState>)
    requires line !in v.lines
    ensures HeadLines(v, line, to, n, id, r) <==>
            id.Some? && r == v.lines[line := LineState(id.value, Id(to), n, FirstOwner(v, id.value))]
  {
    if id.Some? {
      NewHeadExactly(v, line, to, n, id, LineState(id.value, Id(to), n, FirstOwner(v, id.value)));
    }
    if s :| OnlyAt(v.lines, r, line, Some(s)) && HeadMade(v, line, to, n, id, s) {
      NewHeadExactly(v, line, to, n, id, s);
      OnlyAtOnce(v.lines, r, v.lines[line := s], line, Some(s));
    }
  }

  lemma WithLines(v: View, r: View, lines: map<string, LineState>)
    ensures r == v.(lines := lines) <==> r == v.(lines := r.lines) && r.lines == lines
  {}

  lemma HeadExactly(v: View, e: Effect, parent: Option<Oid>, r: View)
    requires e.Head?
    ensures Does(v, e, parent, r) <==> ApplyOne(v, e, parent) == Some(r)
  {
    var Head(line, to, _, n, _, id) := e;
    assert Does(v, e, parent, r) <==> r == v.(lines := r.lines) && HeadLines(v, line, to, n, id, r.lines);
    if line in v.lines {
      KnownLineExactly(v, line, to, n, id, r.lines);
      WithLines(v, r, v.lines[line := v.lines[line].(head := Id(to), seqno := n)]);
    } else {
      NewLineExactly(v, line, to, n, id, r.lines);
      if id.Some? {
        WithLines(v, r, v.lines[line := LineState(id.value, Id(to), n, FirstOwner(v, id.value))]);
      }
    }
  }

  lemma CoordinatorExactly(v: View, line: string, to: EntityId, parent: Option<Oid>, r: View)
    ensures Does(v, Coordinator(line, to), parent, r) <==> ApplyOne(v, Coordinator(line, to), parent) == Some(r)
  {
    if line in v.lines {
      var was := v.lines[line];
      var s := LineState(was.id, was.head, was.seqno, to);
      PutAt(v.lines, line, s);
      assert s == was.(coordinator := to);
      WithLines(v, r, v.lines[line := s]);
    }
  }

  lemma OnlyMemberOnce<T(!new)>(s: set<T>, r: set<T>, x: T, present: bool)
    ensures OnlyMember(s, r, x, present) <==> r == if present then s + {x} else s - {x}
  {}

  lemma PointersExactly(v: View, e: Effect, parent: Option<Oid>, r: View)
    requires e.Point? || e.Unpoint? || e.Claim? || e.Unclaim? || e.Deploy?
    ensures Does(v, e, parent, r) <==> ApplyOne(v, e, parent) == Some(r)
  {
    match e
    case Point(entity, to, _) => PutAt(v.entities, entity, Id(to));
    case Unpoint(entity) => GoneAt(v.entities, entity);
    case Claim(claim, to) => PutAt(v.claims, claim, Id(to));
    case Unclaim(claim) => GoneAt(v.claims, claim);
    case Deploy(target, to) => PutAt(v.deployed, target, to);
  }

  lemma SetsExactly(v: View, e: Effect, parent: Option<Oid>, r: View)
    requires e.Propose? || e.Unpropose? || e.Cap? || e.Uncap? || e.Revoke? || e.Tomb?
    ensures Does(v, e, parent, r) <==> ApplyOne(v, e, parent) == Some(r)
  {
    match e
    case Propose(rev) => PutAt(v.proposed, rev, Member);
    case Unpropose(rev) => GoneAt(v.proposed, rev);
    case Cap(cap) => PutAt(v.caps, cap, Member);
    case Uncap(cap) => GoneAt(v.caps, cap);
    case Revoke(p) => PutAt(v.revoked, p, Member);
    case Tomb(of, _) => PutAt(v.tombstoned, of, Member);
  }

  lemma MembersExactly(v: View, e: Effect, parent: Option<Oid>, r: View)
    requires e.Owner? || e.Unowner? || e.Root? || e.Unroot?
    ensures Does(v, e, parent, r) <==> ApplyOne(v, e, parent) == Some(r)
  {
    match e
    case Owner(p) => OnlyMemberOnce(v.owners, r.owners, p, true);
    case Unowner(p) => OnlyMemberOnce(v.owners, r.owners, p, false);
    case Root(name) => OnlyMemberOnce(v.roots, r.roots, name, true);
    case Unroot(name) => OnlyMemberOnce(v.roots, r.roots, name, false);
  }

  lemma WithPaused(v: View, r: View, paused: seq<PauseState>)
    ensures r == v.(paused := paused) <==> r == v.(paused := r.paused) && r.paused == paused
  {}

  lemma PauseEffectExactly(v: View, scope: string, parent: Option<Oid>, r: View)
    ensures Does(v, Pause(scope), parent, r) <==> ApplyOne(v, Pause(scope), parent) == Some(r)
  {
    var paused := if Covers(v.paused, scope) then v.paused
                  else v.paused + [PauseState(scope, FirstOwner(v, 0), parent.GetOr(0))];
    PauseExactly(v, scope, parent, r.paused);
    WithPaused(v, r, paused);
    assert ApplyOne(v, Pause(scope), parent) == Some(v.(paused := paused));
  }

  lemma ResumeEffectExactly(v: View, scope: string, parent: Option<Oid>, r: View)
    ensures Does(v, Resume(scope), parent, r) <==> ApplyOne(v, Resume(scope), parent) == Some(r)
  {
    ResumeExactly(v.paused, scope, r.paused);
    WithPaused(v, r, WithoutScope(v.paused, scope));
  }

  /** One effect gives the one view its rule allows, or none. */
  lemma DoesExactly(v: View, e: Effect, parent: Option<Oid>, r: View)
    ensures Does(v, e, parent, r) <==> ApplyOne(v, e, parent) == Some(r)
  {
    if e.Point? || e.Unpoint? || e.Claim? || e.Unclaim? || e.Deploy? {
      PointersExactly(v, e, parent, r);
    } else if e.Propose? || e.Unpropose? || e.Cap? || e.Uncap? || e.Revoke? || e.Tomb? {
      SetsExactly(v, e, parent, r);
    } else if e.Owner? || e.Unowner? || e.Root? || e.Unroot? {
      MembersExactly(v, e, parent, r);
    } else if e.Pause? {
      PauseEffectExactly(v, e.scope, parent, r);
    } else if e.Resume? {
      ResumeEffectExactly(v, e.scope, parent, r);
    } else if e.Head? {
      HeadExactly(v, e, parent, r);
    } else if e.Coordinator? {
      CoordinatorExactly(v, e.line, e.coordinator, parent, r);
    }
  }

  // --------------------------------------------------------------- all effects

  /** Applying effects gives exactly the view they make one after the other, and none where they make none. */
  lemma {:induction false} AppliesExactly(v: View, es: seq<Effect>, parent: Option<Oid>, r: View)
    ensures Apply(v, es, parent) == Some(r) <==> Makes(v, es, parent, r)
    decreases |es|
  {
    if es == [] {
      assert Steps(v, es, parent, [v]);
    } else {
      var next := ApplyOne(v, es[0], parent);
      if Apply(v, es, parent) == Some(r) {
        AppliesExactly(next.value, es[1..], parent, r);
        var vs :| Steps(next.value, es[1..], parent, vs) && vs[|es| - 1] == r;
        DoesExactly(v, es[0], parent, next.value);
        StepFirst(v, es, parent, vs);
      }
      if vs :| Steps(v, es, parent, vs) && vs[|es|] == r {
        DoesExactly(v, es[0], parent, vs[1]);
        assert Steps(vs[1], es[1..], parent, vs[1..]);
        AppliesExactly(vs[1], es[1..], parent, r);
      }
    }
  }

  lemma StepFirst(v: View, es: seq<Effect>, parent: Option<Oid>, vs: seq<View>)
    requires es != [] && |vs| == |es| && Steps(vs[0], es[1..], parent, vs) && Does(v, es[0], parent, vs[0])
    ensures Steps(v, es, parent, [v] + vs)
  {
    var all := [v] + vs;
    forall i | 0 <= i < |es| ensures Does(all[i], es[i], parent, all[i + 1]) {
      if i > 0 {
        assert es[i] == es[1..][i - 1] && all[i] == vs[i - 1];
      }
    }
  }
}
