/**
 Verifying and accepting ops, and what holds of a log after any run of attempts:
 each op is verified at its parents' merged view and at the receiver's current
 view, and a refused op changes nothing.
 */
module Acceptance {
  import opened Options
  import opened Ids
  import opened Views
  import opened World
  import opened Capabilities
  import opened Legality
  import opened History
  import opened Safety

  /** A log: its ops in acceptance order, and its heads. */
  datatype LogState = LogState(history: seq<Op>, heads: set<Oid>)

  const FRESH := LogState([], {})

  ghost function Current(w: World, s: LogState): View {
    Merged(Anc(w, s.history), Replay(w, s.history), s.heads)
  }

  ghost function SeenBy(w: World, s: LogState, op: Op): View {
    Seen(Anc(w, s.history), Replay(w, s.history), op)
  }

  // -------------------------------------------------------------- verification

  /** What the init scan found: the author made an owner, and given a principal it signed itself. */
  function InitScan(w: World, op: Op, es: seq<Effect>): Result<(bool, bool), Rejection> {
    if es == [] then Ok((false, false))
    else
      var e := es[|es| - 1];
      var before := InitScan(w, op, es[..|es| - 1]);
      if before.Err? then before
      else if e == Owner(op.author) then Ok((true, before.value.1))
      else if e.Point? && e.entity == op.author then
        var p := w.PrincipalAt(e.to);
        if p.None? then Err(NotFound)
        else if p.value.id == op.author && p.value.key == Some(op.key) && p.value.status == "active" then
          if w.objectSigned(e.to, op.key) then Ok((before.value.0, true)) else Err(Rejected(5))
        else before
      else before
  }

  function Deterministic(w: World, op: Op, produced: Option<View>): Result<View, Rejection> {
    if produced.None? then Err(Rejected(0))
    else if w.viewId(produced.value) != op.view then Err(Rejected(8))
    else Ok(produced.value)
  }

  function VerifyInit(w: World, heads: set<Oid>, op: Op): Result<View, Rejection> {
    if op.kind != "init" || heads != {} then Err(Rejected(2))
    else if !w.opSigned(op, op.key) then Err(Rejected(5))
    else
      var scan := InitScan(w, op, op.effects);
      if scan.Err? then Err(scan.error)
      else if !scan.value.0 || !scan.value.1 then Err(Rejected(7))
      else Deterministic(w, op, Apply(EMPTY, op.effects, None))
  }

  /** Step 3: the author at the parents' view. */
  function AuthorSeen(w: World, v: View, op: Op): Result<Oid, Rejection> {
    var p := ResolvePrincipal(w, v, op.author);
    if p.Err? then Err(p.error)
    else if p.value.None? then Err(Rejected(3))
    else
      var (version, author) := p.value.value;
      if author.status != "active" || author.key != Some(op.key) then Err(Rejected(3)) else Ok(version)
  }

  /** Step 4: the author at the receiver's current view. */
  function AuthorNow(w: World, c: View, op: Op, seen: Oid): Option<Rejection> {
    if InSet(c.revoked, op.author) then Some(Rejected(4))
    else
      var p := ResolvePrincipal(w, c, op.author);
      if p.Err? then Some(p.error)
      else if p.value.None? then None
      else
        var (version, author) := p.value.value;
        if version != seen && author.key != Some(op.key) then Some(Rejected(4))
        else if author.status != "active" then Some(Rejected(4))
        else None
  }

  /** Steps 3 to 8 at the view the op saw, where `landed` has landed, and the view the receiver has. */
  function VerifyKnowing(w: World, v: View, c: View, op: Op, landed: set<Oid>): Result<View, Rejection> {
    var seen := AuthorSeen(w, v, op);
    if seen.Err? then Err(seen.error)
    else
      var now := AuthorNow(w, c, op, seen.value);
      if now.Some? then Err(now.value)
      else if !w.opSigned(op, op.key) then Err(Rejected(5))
      else if op.author !in v.owners && !CapabilityOk(w, v, c, op) then Err(Rejected(6))
      else if !Legal(w, v, op, landed) then Err(Rejected(7))
      else Deterministic(w, op, Apply(v, op.effects, FirstParent(op)))
  }

  ghost function VerifyAt(w: World, v: View, c: View, op: Op): Result<View, Rejection> {
    VerifyKnowing(w, v, c, op, Landed(w, v))
  }

  ghost function VerifyOp(w: World, s: LogState, op: Op): Result<View, Rejection> {
    if op.parents == [] then VerifyInit(w, s.heads, op)
    else if !(ParentSet(op) <= OpIds(w, s.history)) then Err(UnknownParent)
    else VerifyAt(w, SeenBy(w, s, op), Current(w, s), op)
  }

  // ---------------------------------------------------------------- acceptance

  /** The latest op this author made under this idempotency key. */
  ghost function LookupIdem(w: World, h: seq<Op>, author: EntityId, key: nat): Option<Oid> {
    if h == [] then None
    else
      var op := h[|h| - 1];
      if op.author == author && op.idem == Some(key) then Some(w.opId(op))
      else LookupIdem(w, h[..|h| - 1], author, key)
  }

  ghost function Repeats(w: World, s: LogState, op: Op): Option<Oid> {
    if op.idem.None? then None else LookupIdem(w, s.history, op.author, op.idem.value)
  }

  /** Store a verified op and advance the heads. */
  ghost function Advance(w: World, s: LogState, op: Op): LogState {
    LogState(
      if w.opId(op) in OpIds(w, s.history) then s.history else s.history + [op],
      s.heads - ParentSet(op) + {w.opId(op)})
  }

  ghost function Accept(w: World, s: LogState, op: Op): (LogState, Result<Oid, Rejection>) {
    if Repeats(w, s, op).Some? then (s, Ok(Repeats(w, s, op).value))
    else if !(ParentSet(op) <= OpIds(w, s.history)) then (s, Err(UnknownParent))
    else
      var v := VerifyOp(w, s, op);
      if v.Err? then (s, Err(v.error)) else (Advance(w, s, op), Ok(w.opId(op)))
  }

  /** The op was verified and stored by this attempt. */
  ghost predicate Taken(w: World, s: LogState, op: Op) {
    Repeats(w, s, op).None? && ParentSet(op) <= OpIds(w, s.history) && VerifyOp(w, s, op).Ok?
  }

  /** A log after a run of attempts, whatever became of each. */
  ghost function Run(w: World, attempts: seq<Op>): LogState {
    if attempts == [] then FRESH
    else Accept(w, Run(w, attempts[..|attempts| - 1]), attempts[|attempts| - 1]).0
  }

  // ---------------------------------------------------------------- invariants

  /** Every op was verified against some heads of the log before it. */
  ghost predicate Passed(w: World, h: seq<Op>) {
    forall i | 0 <= i < |h| :: PassedAt(w, h, i)
  }

  ghost predicate PassedAt(w: World, h: seq<Op>, i: nat)
    requires i < |h|
  {
    exists heads :: VerifyOp(w, LogState(h[..i], heads), h[i]).Ok?
  }

  ghost predicate UnderHead(w: World, s: LogState, d: Oid) {
    exists x :: x in s.heads && d in AncestorsOf(Anc(w, s.history), x)
  }

  /** Every op is an ancestor of some head. */
  ghost predicate Covered(w: World, s: LogState) {
    && s.heads <= OpIds(w, s.history)
    && forall d {:trigger UnderHead(w, s, d)} | d in OpIds(w, s.history) :: UnderHead(w, s, d)
  }

  ghost predicate Inv(w: World, s: LogState) {
    Good(w, s.history) && Passed(w, s.history) && Stepped(w, s.history) && Covered(w, s)
  }

  lemma {:induction false} ParentsAreAncestors(w: World, h: seq<Op>, op: Op, p: Oid)
    requires Shaped(w, h) && op in h && p in ParentSet(op)
    ensures p in AncestorsOf(Anc(w, h), w.opId(op))
  {
    var init, last := Unsnoc(w, h);
    if op in init {
      ParentsAreAncestors(w, init, op, p);
      OldEntries(w, init, last, w.opId(op));
    } else {
      NewAncestors(w, init, last);
      ShapedClosed(w, init);
      assert p in AncestorsOf(Anc(w, init), p);
    }
  }

  lemma LegalInStep(w: World, v: View, op: Op)
    requires Legal(w, v, op, Landed(w, v))
    ensures InStep(v, op.effects)
  {
    forall i | 0 <= i < |op.effects| ensures HeadInStep(v, op.effects[i]) {
      assert EffectLegal(w, v, op, op.author in v.owners, op.effects[i], Landed(w, v));
    }
  }

  lemma VerifiedAt(w: World, v: View, c: View, op: Op)
    requires VerifyAt(w, v, c, op).Ok?
    ensures Legal(w, v, op, Landed(w, v)) && op.author !in c.revoked
    ensures op.author in v.owners || CapabilityOk(w, v, c, op)
    ensures Apply(v, op.effects, FirstParent(op)).Some?
    ensures w.viewId(Apply(v, op.effects, FirstParent(op)).value) == op.view
    ensures VerifyAt(w, v, c, op) == Ok(Apply(v, op.effects, FirstParent(op)).value)
  {}

  lemma VerifiedInit(w: World, heads: set<Oid>, op: Op)
    requires VerifyInit(w, heads, op).Ok?
    ensures heads == {} && Apply(EMPTY, op.effects, None).Some?
    ensures w.viewId(Apply(EMPTY, op.effects, None).value) == op.view
    ensures VerifyInit(w, heads, op) == Ok(Apply(EMPTY, op.effects, None).value)
  {}

  lemma OpsHaveHeads(w: World, s: LogState)
    requires Covered(w, s) && s.history != []
    ensures s.heads != {}
  {
    var first := s.history[0];
    assert first in s.history;
    assert UnderHead(w, s, w.opId(first));
  }

  lemma SeesNothing(w: World, s: LogState, op: Op)
    requires op.parents == []
    ensures ParentSet(op) == {} && SeenBy(w, s, op) == EMPTY
  {}

  lemma InitFollows(w: World, s: LogState, op: Op)
    requires Covered(w, s) && op.parents == [] && VerifyInit(w, s.heads, op).Ok?
    ensures Follows(w, s.history, op) && s.history == []
  {
    VerifiedInit(w, s.heads, op);
    SeesNothing(w, s, op);
    if s.history != [] {
      OpsHaveHeads(w, s);
    }
  }

  /** What a taken op new to the log adds keeps the history good. */
  lemma {:induction false} TakenFollows(w: World, s: LogState, op: Op)
    requires Covered(w, s) && Taken(w, s, op) && w.opId(op) !in OpIds(w, s.history)
    ensures Follows(w, s.history, op)
    ensures s.history != [] ==> InStep(SeenBy(w, s, op), op.effects)
  {
    if op.parents == [] {
      InitFollows(w, s, op);
    } else {
      assert op.parents[0] in ParentSet(op);
      var v, c := SeenBy(w, s, op), Current(w, s);
      assert VerifyAt(w, v, c, op).Ok?;
      VerifiedAt(w, v, c, op);
      LegalInStep(w, v, op);
      assert Produced(Anc(w, s.history), Replay(w, s.history), op) == Apply(v, op.effects, FirstParent(op));
    }
  }

  lemma SnocPassed(w: World, s: LogState, op: Op)
    requires Passed(w, s.history) && VerifyOp(w, s, op).Ok?
    ensures Passed(w, s.history + [op])
  {
    var h, all := s.history, s.history + [op];
    forall i | 0 <= i < |all| ensures PassedAt(w, all, i) {
      if i < |h| {
        assert all[..i] == h[..i] && PassedAt(w, h, i);
      } else {
        assert all[..i] == h && s == LogState(h, s.heads);
      }
    }
  }

  lemma SnocStepped(w: World, h: seq<Op>, op: Op)
    requires Stepped(w, h)
    requires h != [] ==> InStep(Seen(Anc(w, h), Replay(w, h), op), op.effects)
    ensures Stepped(w, h + [op])
  {
    var all := h + [op];
    forall i | 1 <= i < |all| ensures StepAt(w, all, i) {
      if i < |h| {
        assert StepAt(w, h, i) && all[..i] == h[..i];
      } else {
        assert all[..i] == h;
      }
    }
  }

  lemma {:induction false} AdvanceCovers(w: World, s: LogState, op: Op)
    requires Sane(w) && Covered(w, s) && Shaped(w, s.history) && ParentSet(op) <= OpIds(w, s.history)
    requires Shaped(w, Advance(w, s, op).history)
    ensures Covered(w, Advance(w, s, op))
  {
    var t := Advance(w, s, op);
    StoredOp(w, s, op);
    forall d | d in OpIds(w, t.history) ensures UnderHead(w, t, d) {
      var x := HeadAbove(w, s, op, d);
    }
  }

  lemma {:induction false} HeadAbove(w: World, s: LogState, op: Op, d: Oid) returns (x: Oid)
    requires Sane(w) && Covered(w, s) && Shaped(w, s.history) && ParentSet(op) <= OpIds(w, s.history)
    requires Shaped(w, Advance(w, s, op).history) && d in OpIds(w, Advance(w, s, op).history)
    ensures x in Advance(w, s, op).heads && d in AncestorsOf(Anc(w, Advance(w, s, op).history), x)
  {
    var h, id := Advance(w, s, op).history, w.opId(op);
    StoredOp(w, s, op);
    if d == id {
      ShapedClosed(w, h);
      x := id;
    } else {
      assert UnderHead(w, s, d);
      var y :| y in s.heads && d in AncestorsOf(Anc(w, s.history), y);
      StillAncestor(w, s, op, y, d);
      if y in ParentSet(op) {
        ParentsAreAncestors(w, h, op, y);
        AncTransitive(w, h, id, y, d);
        x := id;
      } else {
        x := y;
      }
    }
  }

  lemma StoredOp(w: World, s: LogState, op: Op)
    requires Sane(w)
    ensures op in Advance(w, s, op).history
    ensures OpIds(w, Advance(w, s, op).history) == OpIds(w, s.history) + {w.opId(op)}
  {
    IdsSnoc(w, s.history, op);
  }

  lemma StillAncestor(w: World, s: LogState, op: Op, x: Oid, d: Oid)
    requires Shaped(w, s.history) && x in OpIds(w, s.history) && d in AncestorsOf(Anc(w, s.history), x)
    ensures d in AncestorsOf(Anc(w, Advance(w, s, op).history), x)
  {
    if w.opId(op) !in OpIds(w, s.history) {
      OldEntries(w, s.history, op, x);
    }
  }

  lemma {:induction false} TakenKeepsGood(w: World, s: LogState, op: Op)
    requires Inv(w, s) && Taken(w, s, op)
    ensures var h := Advance(w, s, op).history; Good(w, h) && Passed(w, h) && Stepped(w, h)
  {
    if w.opId(op) !in OpIds(w, s.history) {
      TakenFollows(w, s, op);
      SnocPassed(w, s, op);
      SnocStepped(w, s.history, op);
      assert (s.history + [op])[..|s.history + [op]| - 1] == s.history;
    }
  }

  lemma {:induction false} AcceptKeepsInv(w: World, s: LogState, op: Op)
    requires Sane(w) && Inv(w, s)
    ensures Inv(w, Accept(w, s, op).0)
  {
    if Taken(w, s, op) {
      assert Accept(w, s, op).0 == Advance(w, s, op);
      TakenKeepsGood(w, s, op);
      AdvanceCovers(w, s, op);
    } else {
      assert Accept(w, s, op).0 == s;
    }
  }

  /** Whatever was attempted, in whatever order, the log is well formed. */
  lemma {:induction false} RunKeepsInv(w: World, attempts: seq<Op>)
    requires Sane(w)
    ensures Inv(w, Run(w, attempts))
  {
    if attempts != [] {
      RunKeepsInv(w, attempts[..|attempts| - 1]);
      AcceptKeepsInv(w, Run(w, attempts[..|attempts| - 1]), attempts[|attempts| - 1]);
    }
  }

  /** An attempt leaves the history as it is, or adds the op at its end. */
  lemma AcceptAppends(w: World, s: LogState, op: Op)
    ensures Accept(w, s, op).0.history == s.history || Accept(w, s, op).0.history == s.history + [op]
    ensures Accept(w, s, op).0 != s ==> Taken(w, s, op)
    ensures Taken(w, s, op) ==> Accept(w, s, op).0 == Advance(w, s, op)
  {}

  /** A log only grows. */
  lemma {:induction false} RunGrows(w: World, attempts: seq<Op>, later: seq<Op>)
    ensures Run(w, attempts).history <= Run(w, attempts + later).history
    decreases |later|
  {
    if later == [] {
      assert attempts + later == attempts;
    } else {
      var init, op := later[..|later| - 1], later[|later| - 1];
      assert attempts + later == (attempts + init) + [op];
      RunGrows(w, attempts, init);
      StillBelow(w, attempts, attempts + init, op);
    }
  }

  lemma StillBelow(w: World, a: seq<Op>, b: seq<Op>, op: Op)
    requires Run(w, a).history <= Run(w, b).history
    ensures Run(w, a).history <= Run(w, b + [op]).history
  {
    RunSnoc(w, b, op);
  }

  lemma RunSnoc(w: World, attempts: seq<Op>, op: Op)
    ensures Run(w, attempts + [op]) == Accept(w, Run(w, attempts), op).0
    ensures Run(w, attempts + [op]).history == Run(w, attempts).history ||
            Run(w, attempts + [op]).history == Run(w, attempts).history + [op]
  {
    assert (attempts + [op])[..|attempts|] == attempts;
    AcceptAppends(w, Run(w, attempts), op);
  }
}
