/** Delegation chains: what a capability admits, every capability above it admits. */
module Capabilities {
  import opened Options
  import opened Ids
  import opened Paths
  import opened Globs
  import opened Containment
  import opened Views
  import opened World

  const CHAIN_LIMIT := 64

  const UNGATED := ["status", "context", "query", "workspace", "snapshot", "claim", "undo", "sync", "merge_view"]

  predicate ContainedInSome(child: string, parents: seq<string>) {
    exists j | 0 <= j < |parents| :: Contained(child, parents[j])
  }

  predicate PathsOk(c: Option<seq<string>>, p: Option<seq<string>>) {
    p.None? || (c.Some? && forall i | 0 <= i < |c.value| :: ContainedInSome(c.value[i], p.value))
  }

  predicate ListOk<T(==)>(c: Option<seq<T>>, p: Option<seq<T>>) {
    p.None? || (c.Some? && forall i | 0 <= i < |c.value| :: c.value[i] in p.value)
  }

  predicate HardOk(c: Option<map<string, nat>>, p: Option<map<string, nat>>) {
    p.None? || (c.Some? && forall k | k in c.value :: k in p.value && c.value[k] <= p.value[k])
  }

  predicate ContainedIn(child: Capability, parent: Capability) {
    && (forall i | 0 <= i < |child.verbs| :: child.verbs[i] in parent.verbs)
    && PathsOk(child.write.paths, parent.write.paths)
    && PathsOk(child.readPaths, parent.readPaths)
    && ListOk(child.write.roots, parent.write.roots)
    && ListOk(child.write.stages, parent.write.stages)
    && ListOk(child.write.memoryScopes, parent.write.memoryScopes)
    && ListOk(child.write.nodes, parent.write.nodes)
    && ListOk(child.write.lines, parent.write.lines)
    && ListOk(child.write.targets, parent.write.targets)
    && HardOk(child.hard, parent.hard)
  }

  /** The issuer is known, active, not revoked at the view, and signed this capability. */
  predicate IssuerOk(w: World, v: View, cap: Capability, id: Oid) {
    var r := ResolvePrincipal(w, v, cap.issuer);
    && r.Ok? && r.value.Some?
    && r.value.value.1.status == "active" && !InSet(v.revoked, cap.issuer)
    && r.value.value.1.key.Some? && w.objectSigned(id, r.value.value.1.key.value)
  }

  /** The capability that `child` was delegated from, when the link is good. */
  function Above(w: World, v: View, child: Capability): Option<(Oid, Capability)> {
    if child.parent.None? || !InSet(v.caps, child.parent.value) then None
    else
      var parent := w.CapabilityAt(child.parent.value);
      if parent.Some? && parent.value.subject == child.issuer && parent.value.delegable
         && ContainedIn(child, parent.value)
      then Some((child.parent.value, parent.value)) else None
  }

  /** The chain from `cap` up to one an owner issued, within `left` links; none if any check fails. */
  function Chain(w: World, v: View, cap: Capability, id: Oid, left: nat): Option<seq<Capability>>
    decreases left
  {
    if left == 0 || !IssuerOk(w, v, cap, id) then None
    else if cap.parent.None? then
      if cap.issuer in v.owners then Some([cap]) else None
    else
      var above := Above(w, v, cap);
      if above.None? then None
      else
        var rest := Chain(w, v, above.value.1, above.value.0, left - 1);
        if rest.None? then None else Some([cap] + rest.value)
  }

  /** The chain check as the code loops it. */
  method CheckChain(w: World, v: View, cap: Capability, capId: Oid) returns (ok: bool)
    ensures ok <==> Chain(w, v, cap, capId, CHAIN_LIMIT).Some?
  {
    var cur, curId, guard := cap, capId, 0;
    while true
      invariant 0 <= guard <= CHAIN_LIMIT
      invariant Chain(w, v, cap, capId, CHAIN_LIMIT).Some? <==> Chain(w, v, cur, curId, CHAIN_LIMIT - guard).Some?
      decreases CHAIN_LIMIT - guard
    {
      guard := guard + 1;
      if guard > CHAIN_LIMIT || !IssuerOk(w, v, cur, curId) {
        return false;
      }
      if cur.parent.None? {
        return cur.issuer in v.owners;
      }
      var above := Above(w, v, cur);
      if above.None? {
        return false;
      }
      curId, cur := above.value.0, above.value.1;
    }
  }

  // -------------------------------------------------------------- attenuation

  /** An absent list admits every path. */
  predicate Admits(paths: Option<seq<string>>, path: string) {
    paths.None? || AnyMatch(paths.value, path)
  }

  /** Each pattern handed on is contained in one of the holder's that the test is right about. */
  predicate SafeStep(c: Option<seq<string>>, p: Option<seq<string>>) {
    c.Some? && p.Some? ==>
      forall i | 0 <= i < |c.value| ::
        exists j | 0 <= j < |p.value| :: Contained(c.value[i], p.value[j]) && Safe(c.value[i], p.value[j])
  }

  lemma {:induction false} StepSound(c: Option<seq<string>>, p: Option<seq<string>>, path: string)
    requires PathsOk(c, p) && SafeStep(c, p) && NormalPath(path) && Admits(c, path)
    ensures Admits(p, path)
  {
    if p.Some? {
      var i :| 0 <= i < |c.value| && Matches(c.value[i], path);
      var j :| 0 <= j < |p.value| && Contained(c.value[i], p.value[j]) && Safe(c.value[i], p.value[j]);
      ContainedSound(c.value[i], p.value[j], path);
    }
  }

  /** Of one pattern handed on under one: the step hands on no further path exactly when it is safe. */
  lemma StepExactly(child: string, parent: string)
    requires NormalPath(child) && NormalPath(parent) && PathsOk(Some([child]), Some([parent]))
    requires '/' in child && Cut(parent) ==> PlainCut(parent)
    ensures Includes(child, parent) <==> SafeStep(Some([child]), Some([parent]))
  {
    assert Contained([child][0], [parent][0]);
    ContainedExactly(child, parent);
  }

  /** Every link hands on no more than it holds, and the top one comes from an owner. */
  ghost predicate Linked(v: View, chain: seq<Capability>) {
    && chain != []
    && chain[|chain| - 1].issuer in v.owners
    && forall i: nat | i + 1 < |chain| :: Delegates(chain, i)
  }

  ghost predicate Delegates(chain: seq<Capability>, i: nat)
    requires i + 1 < |chain|
  {
    var child, parent := chain[i], chain[i + 1];
    parent.subject == child.issuer && parent.delegable && ContainedIn(child, parent)
  }

  lemma {:induction false} ChainLinked(w: World, v: View, cap: Capability, id: Oid, left: nat)
    requires Chain(w, v, cap, id, left).Some?
    ensures var chain := Chain(w, v, cap, id, left).value;
            Linked(v, chain) && chain[0] == cap && |chain| <= left
    decreases left
  {
    if cap.parent.Some? {
      var above := Above(w, v, cap).value;
      ChainLinked(w, v, above.1, above.0, left - 1);
      var rest := Chain(w, v, above.1, above.0, left - 1).value;
      var chain := [cap] + rest;
      forall i: nat | i + 1 < |chain| ensures Delegates(chain, i) {
        assert i > 0 ==> Delegates(rest, i - 1);
      }
    }
  }

  ghost predicate SafeWrites(chain: seq<Capability>, i: nat)
    requires i + 1 < |chain|
  {
    SafeStep(chain[i].write.paths, chain[i + 1].write.paths)
  }

  ghost predicate SafeReads(chain: seq<Capability>, i: nat)
    requires i + 1 < |chain|
  {
    SafeStep(chain[i].readPaths, chain[i + 1].readPaths)
  }

  /** Along a chain, the first capability writes nowhere that one above it may not. */
  lemma {:induction false} WritesAttenuate(v: View, chain: seq<Capability>, i: nat, path: string)
    requires Linked(v, chain) && i < |chain| && NormalPath(path)
    requires forall j: nat | j < i :: SafeWrites(chain, j)
    requires Admits(chain[0].write.paths, path)
    ensures Admits(chain[i].write.paths, path)
  {
    if i > 0 {
      WritesAttenuate(v, chain, i - 1, path);
      assert Delegates(chain, i - 1) && SafeWrites(chain, i - 1);
      StepSound(chain[i - 1].write.paths, chain[i].write.paths, path);
    }
  }

  lemma {:induction false} ReadsAttenuate(v: View, chain: seq<Capability>, i: nat, path: string)
    requires Linked(v, chain) && i < |chain| && NormalPath(path)
    requires forall j: nat | j < i :: SafeReads(chain, j)
    requires Admits(chain[0].readPaths, path)
    ensures Admits(chain[i].readPaths, path)
  {
    if i > 0 {
      ReadsAttenuate(v, chain, i - 1, path);
      assert Delegates(chain, i - 1) && SafeReads(chain, i - 1);
      StepSound(chain[i - 1].readPaths, chain[i].readPaths, path);
    }
  }

  /** Whatever is limited by a list or a number is limited at least as much further down. */
  ghost predicate NoWider(child: Capability, parent: Capability) {
    && (forall verb | verb in child.verbs :: verb in parent.verbs)
    && ListOk(child.write.roots, parent.write.roots)
    && ListOk(child.write.stages, parent.write.stages)
    && ListOk(child.write.memoryScopes, parent.write.memoryScopes)
    && ListOk(child.write.nodes, parent.write.nodes)
    && ListOk(child.write.lines, parent.write.lines)
    && ListOk(child.write.targets, parent.write.targets)
    && HardOk(child.hard, parent.hard)
  }

  lemma ListsCompose<T>(a: Option<seq<T>>, b: Option<seq<T>>, c: Option<seq<T>>)
    requires ListOk(a, b) && ListOk(b, c)
    ensures ListOk(a, c)
  {
    if c.Some? {
      forall i | 0 <= i < |a.value| ensures a.value[i] in c.value {
        var j :| 0 <= j < |b.value| && b.value[j] == a.value[i];
      }
    }
  }

  lemma NoWiderComposes(a: Capability, b: Capability, c: Capability)
    requires NoWider(a, b) && ContainedIn(b, c)
    ensures NoWider(a, c)
  {
    ListsCompose(a.write.roots, b.write.roots, c.write.roots);
    ListsCompose(a.write.stages, b.write.stages, c.write.stages);
    ListsCompose(a.write.memoryScopes, b.write.memoryScopes, c.write.memoryScopes);
    ListsCompose(a.write.nodes, b.write.nodes, c.write.nodes);
    ListsCompose(a.write.lines, b.write.lines, c.write.lines);
    ListsCompose(a.write.targets, b.write.targets, c.write.targets);
  }

  /** Verbs, roots, stages, scopes, nodes, lines, targets and hard limits only narrow down a chain. */
  lemma {:induction false} LimitsAttenuate(v: View, chain: seq<Capability>, i: nat)
    requires Linked(v, chain) && i < |chain|
    ensures NoWider(chain[0], chain[i])
  {
    if i > 0 {
      LimitsAttenuate(v, chain, i - 1);
      assert Delegates(chain, i - 1);
      NoWiderComposes(chain[0], chain[i - 1], chain[i]);
    }
  }

  // ------------------------------------------------------------ authorization

  predicate WriteScopeOk(w: World, cap: Capability, rev: Oid) {
    var changes := w.changes(rev);
    && changes.Some?
    && forall i | 0 <= i < |changes.value| ::
         && ListOk(Some([changes.value[i].root]), cap.write.roots)
         && forall j | 0 <= j < |changes.value[i].paths| :: Admits(cap.write.paths, changes.value[i].paths[j])
  }

  predicate StageOk(cap: Capability, stage: string) {
    cap.write.stages.None? || stage in cap.write.stages.value
  }

  /** What is pointed at must be within the capability's memory scopes, or covered by a verb of its own. */
  predicate PointAuthorized(w: World, cap: Capability, to: Oid) {
    && to in w.objects
    && match w.objects[to]
       case MemoryObject(scope) => cap.write.memoryScopes.None? || scope in cap.write.memoryScopes.value
       case StandardObject => "standard" in cap.verbs
       case HookObject(_) => "hook" in cap.verbs
       case ChannelObject => "channel" in cap.verbs
       case TargetObject => "target" in cap.verbs
       case LineObject(_) => "line" in cap.verbs
       case _ => true
  }

  predicate EffectAuthorized(w: World, v: View, cap: Capability, e: Effect) {
    match e
    case Propose(rev) => WriteScopeOk(w, cap, rev) && StageOk(cap, "proposed")
    case Head(line, to, _, _, _, _) =>
      && WriteScopeOk(w, cap, to) && line in v.lines && StageOk(cap, "landed")
      && (cap.write.lines.None? || v.lines[line].id in cap.write.lines.value)
    case Deploy(target, _) => cap.write.targets.None? || target in cap.write.targets.value
    case Point(_, to, _) => PointAuthorized(w, cap, to)
    case Owner(_) => false
    case Unowner(_) => false
    case Coordinator(_, _) => false
    case Root(_) => false
    case Unroot(_) => false
    case Revoke(_) => "revoke" in cap.verbs
    case Tomb(_, _) => "redact" in cap.verbs
    case _ => true
  }

  predicate Authorizes(w: World, v: View, cap: Capability, op: Op) {
    && (op.kind in UNGATED || op.kind in cap.verbs)
    && forall i | 0 <= i < |op.effects| :: EffectAuthorized(w, v, cap, op.effects[i])
  }

  /** A non-owner's capability is active at both views, its own, chained to an owner, and covers the op. */
  predicate CapabilityOk(w: World, v: View, c: View, op: Op) {
    && op.cap.Some? && InSet(v.caps, op.cap.value) && InSet(c.caps, op.cap.value)
    && var cap := w.CapabilityAt(op.cap.value);
       && cap.Some? && cap.value.subject == op.author
       && Chain(w, v, cap.value, op.cap.value, CHAIN_LIMIT).Some?
       && Authorizes(w, v, cap.value, op)
  }
}
