/** What holds of every log, after every run of attempts to accept ops. */
module LogTheorems {
  import opened Ids
  import opened Views
  import opened World
  import opened Paths
  import opened Capabilities
  import opened History
  import opened Safety
  import opened Acceptance

  // ---------------------------------------------------------------- revocation

  ghost predicate EverRevoked(h: seq<Op>, p: EntityId) {
    exists op :: op in h && Revoke(p) in op.effects
  }

  /** The current view's revoked set is exactly what was ever revoked, on any branch. */
  lemma {:induction false} CurrentRevokedExactly(w: World, s: LogState, p: EntityId)
    requires Inv(w, s)
    ensures p in Current(w, s).revoked <==> EverRevoked(s.history, p)
  {
    var anc, views := Anc(w, s.history), Replay(w, s.history);
    RevocationsGrow(w, s.history);
    MergedRevokes(anc, views, s.heads);
    if p in Current(w, s).revoked {
      var x :| x in s.heads && p in ViewOf(views, x).revoked;
      RevokedExactly(w, s.history, x, p);
      var op :| op in s.history && w.opId(op) in AncestorsOf(anc, x) && Revoke(p) in op.effects;
    }
    if EverRevoked(s.history, p) {
      var op :| op in s.history && Revoke(p) in op.effects;
      assert w.opId(op) in OpIds(w, s.history) && UnderHead(w, s, w.opId(op));
      var x :| x in s.heads && w.opId(op) in AncestorsOf(anc, x);
      RevokedExactly(w, s.history, x, p);
      assert RevokedIn(w, s.history, AncestorsOf(anc, x), p);
    }
  }

  lemma {:induction false} RevokedNotTaken(w: World, s: LogState, op: Op)
    requires Sane(w) && Inv(w, s) && EverRevoked(s.history, op.author)
    ensures Accept(w, s, op).0 == s
  {
    if Taken(w, s, op) {
      CurrentRevokedExactly(w, s, op.author);
      OpsHaveHeads(w, s);
      if op.parents != [] {
        var v, c := SeenBy(w, s, op), Current(w, s);
        assert VerifyAt(w, v, c, op).Ok?;
        VerifiedAt(w, v, c, op);
      }
    }
  }

  /** Once a revocation is in the log, no run of later attempts adds an op by that principal. */
  lemma {:induction false} RevocationIsPermanent(w: World, attempts: seq<Op>, later: seq<Op>, p: EntityId)
    requires Sane(w) && EverRevoked(Run(w, attempts).history, p)
    ensures var before, after := Run(w, attempts).history, Run(w, attempts + later).history;
            before <= after && forall i | |before| <= i < |after| :: after[i].author != p
    decreases |later|
  {
    if later == [] {
      assert attempts + later == attempts;
    } else {
      var init, op := later[..|later| - 1], later[|later| - 1];
      assert (attempts + later)[..|attempts + later| - 1] == attempts + init;
      RevocationIsPermanent(w, attempts, init, p);
      RunKeepsInv(w, attempts + init);
      NextNotBy(w, Run(w, attempts + init), op, p);
    }
  }

  lemma NextNotBy(w: World, s: LogState, op: Op, p: EntityId)
    requires Sane(w) && Inv(w, s) && EverRevoked(s.history, p)
    ensures var h := Accept(w, s, op).0.history; h == s.history || (h == s.history + [op] && op.author != p)
  {
    AcceptAppends(w, s, op);
    if op.author == p {
      RevokedNotTaken(w, s, op);
    }
  }

  // ---------------------------------------------------------- sequence numbers

  /** An op that advances a line shows, in its own view, the number its head effect carries. */
  lemma {:induction false} LandedAtSeq(w: World, h: seq<Op>, i: nat, k: nat)
    requires Good(w, h) && Stepped(w, h) && 1 <= i < |h| && k < |h[i].effects| && h[i].effects[k].Head?
    ensures SeqAt(ViewOf(Replay(w, h), w.opId(h[i])), h[i].effects[k].line) == h[i].effects[k].seqno
  {
    var init, op := Unsnoc(w, h);
    SteppedPrefix(w, init, op);
    var e := h[i].effects[k];
    if i < |init| {
      assert h[i] in init;
      LandedAtSeq(w, init, i, k);
      OldEntries(w, init, op, w.opId(h[i]));
    } else {
      NewView(w, init, op);
      var seen := Seen(Anc(w, init), Replay(w, init), op);
      assert HeadInStep(seen, e);
      ApplySeq(seen, op.effects, FirstParent(op), e.line, e.seqno);
      assert Advances(op.effects, e.line);
    }
  }

  /** Two landings of one line at one number are never ancestor and descendant. */
  lemma {:induction false} SameSeqUnrelated(w: World, s: LogState, i: nat, j: nat, line: string)
    requires Inv(w, s) && i < |s.history| && j < |s.history|
    requires Advances(s.history[i].effects, line) && Advances(s.history[j].effects, line)
    requires w.opId(s.history[i]) in AncestorsOf(Anc(w, s.history), w.opId(s.history[j]))
    requires SeqAt(ViewOf(Replay(w, s.history), w.opId(s.history[i])), line) ==
             SeqAt(ViewOf(Replay(w, s.history), w.opId(s.history[j])), line)
    ensures w.opId(s.history[i]) == w.opId(s.history[j])
  {
    if w.opId(s.history[i]) != w.opId(s.history[j]) {
      SeqRisesStrictly(w, s.history, j, w.opId(s.history[i]), line);
    }
  }

  /** The current view has each line at the highest number any op ever gave it. */
  lemma {:induction false} CurrentSeqIsGreatest(w: World, s: LogState, line: string, d: Oid)
    requires Inv(w, s) && d in OpIds(w, s.history)
    ensures SeqAt(ViewOf(Replay(w, s.history), d), line) <= SeqAt(Current(w, s), line)
    ensures GreatestSeq(Replay(w, s.history), s.heads, line, SeqAt(Current(w, s), line))
  {
    SeqsGrow(w, s.history, line);
    assert UnderHead(w, s, d);
    var x :| x in s.heads && d in AncestorsOf(Anc(w, s.history), x);
    MergedSeq(Anc(w, s.history), Replay(w, s.history), s.heads, line);
  }

  // --------------------------------------------------------------------- heads

  /** The ops nothing descends from. */
  ghost function Maximal(w: World, h: seq<Op>): set<Oid> {
    set x | x in OpIds(w, h) && forall y | y in OpIds(w, h) && y != x :: x !in AncestorsOf(Anc(w, h), y)
  }

  lemma {:induction false} MaximalSnoc(w: World, h: seq<Op>, op: Op)
    requires Shaped(w, h) && Joins(w, h, op)
    ensures Maximal(w, h + [op]) == Maximal(w, h) - ParentSet(op) + {w.opId(op)}
  {
    IdsSnoc(w, h, op);
    NewIsMaximal(w, h, op);
    forall x | x in OpIds(w, h) ensures x in Maximal(w, h + [op]) <==> x in Maximal(w, h) && x !in ParentSet(op) {
      MaximalKept(w, h, op, x);
    }
  }

  lemma {:induction false} NewIsMaximal(w: World, h: seq<Op>, op: Op)
    requires Shaped(w, h) && Joins(w, h, op)
    ensures w.opId(op) in Maximal(w, h + [op])
  {
    var id, all := w.opId(op), h + [op];
    IdsSnoc(w, h, op);
    assert all[..|all| - 1] == h;
    forall y | y in OpIds(w, all) && y != id ensures id !in AncestorsOf(Anc(w, all), y) {
      if id in AncestorsOf(Anc(w, all), y) {
        OldAncestor(w, h, op, y, id);
      }
    }
  }

  /** An old op stays maximal unless it is a parent of the new one. */
  lemma {:induction false} MaximalKept(w: World, h: seq<Op>, op: Op, x: Oid)
    requires Shaped(w, h) && Joins(w, h, op) && x in OpIds(w, h)
    ensures x in Maximal(w, h + [op]) <==> x in Maximal(w, h) && x !in ParentSet(op)
  {
    var id, all := w.opId(op), h + [op];
    IdsSnoc(w, h, op);
    NewAncestors(w, h, op);
    ShapedClosed(w, h);
    forall y | y in OpIds(w, h) ensures AncestorsOf(Anc(w, all), y) == AncestorsOf(Anc(w, h), y) {
      OldEntries(w, h, op, y);
    }
    if x in ParentSet(op) {
      assert x in AncestorsOf(Anc(w, h), x);
      assert x in AncestorsOf(Anc(w, all), id);
    }
    if x in Maximal(w, h) && x in AncestorsOf(Anc(w, all), id) {
      var p :| p in ParentSet(op) && x in AncestorsOf(Anc(w, h), p);
      assert p == x;
    }
  }

  lemma {:induction false} OwnParent(w: World, h: seq<Op>, op: Op, p: Oid)
    requires Shaped(w, h) && op in h && p in ParentSet(op)
    ensures p != w.opId(op)
  {
    var init, last := Unsnoc(w, h);
    if op in init {
      OwnParent(w, init, op, p);
    }
  }

  lemma {:induction false} IdemKnown(w: World, h: seq<Op>, op: Op)
    requires op in h && op.idem.Some?
    ensures LookupIdem(w, h, op.author, op.idem.value).Some?
  {
    var last := h[|h| - 1];
    if !(last.author == op.author && last.idem == op.idem) {
      assert h == h[..|h| - 1] + [last];
      IdemKnown(w, h[..|h| - 1], op);
    }
  }

  /** No parent of an op in the log is a head of it. */
  lemma {:induction false} ParentsAreNoHeads(w: World, s: LogState, op: Op)
    requires Shaped(w, s.history) && s.heads == Maximal(w, s.history) && op in s.history
    ensures ParentSet(op) !! s.heads
  {
    forall p | p in ParentSet(op) ensures p !in s.heads {
      ParentsAreAncestors(w, s.history, op, p);
      OwnParent(w, s.history, op, p);
      assert w.opId(op) in OpIds(w, s.history);
    }
  }

  lemma NewOpKeepsMaximal(w: World, s: LogState, op: Op)
    requires Shaped(w, s.history) && Follows(w, s.history, op) && s.heads == Maximal(w, s.history)
    requires w.opId(op) !in OpIds(w, s.history)
    ensures Advance(w, s, op).heads == Maximal(w, Advance(w, s, op).history)
  {
    MaximalSnoc(w, s.history, op);
  }

  lemma OldOpAmongHeads(w: World, s: LogState, op: Op)
    requires Shaped(w, s.history) && s.heads == Maximal(w, s.history) && op in s.history
    ensures Advance(w, s, op) == LogState(s.history, s.heads + {w.opId(op)})
  {
    ParentsAreNoHeads(w, s, op);
    assert w.opId(op) in OpIds(w, s.history);
  }

  lemma AdvanceKeepsMaximal(w: World, s: LogState, op: Op)
    requires Sane(w) && Shaped(w, s.history) && s.heads == Maximal(w, s.history)
    requires w.opId(op) !in OpIds(w, s.history) ==> Follows(w, s.history, op)
    ensures var t := Advance(w, s, op);
            t.heads == Maximal(w, t.history) <==> w.opId(op) !in OpIds(w, s.history) || w.opId(op) in s.heads
  {
    if w.opId(op) !in OpIds(w, s.history) {
      NewOpKeepsMaximal(w, s, op);
    } else {
      var o :| o in s.history && w.opId(o) == w.opId(op);
      OldOpAmongHeads(w, s, o);
    }
  }

  /**
   Taking an op keeps the heads exactly the maximal ops if and only if the op is
   new to the log or is a head already.
   */
  lemma {:induction false} TakingKeepsHeadsMaximal(w: World, s: LogState, op: Op)
    requires Sane(w) && Inv(w, s) && s.heads == Maximal(w, s.history) && Taken(w, s, op)
    ensures var t := Accept(w, s, op).0;
            t.heads == Maximal(w, t.history) <==> w.opId(op) !in OpIds(w, s.history) || w.opId(op) in s.heads
  {
    AcceptAppends(w, s, op);
    if w.opId(op) !in OpIds(w, s.history) {
      TakenFollows(w, s, op);
    }
    AdvanceKeepsMaximal(w, s, op);
  }

  /** Ops made by the daemon's builders: every one but an init carries an idempotency key. */
  ghost predicate Keyed(attempts: seq<Op>) {
    forall op | op in attempts :: op.parents == [] || op.idem.Some?
  }

  /** In every run of keyed attempts the heads are exactly the ops with no descendants. */
  lemma {:induction false} HeadsAreMaximal(w: World, attempts: seq<Op>)
    requires Sane(w) && Keyed(attempts)
    ensures Run(w, attempts).heads == Maximal(w, Run(w, attempts).history)
  {
    if attempts != [] {
      var init, op := attempts[..|attempts| - 1], attempts[|attempts| - 1];
      HeadsAreMaximal(w, init);
      RunKeepsInv(w, init);
      var s := Run(w, init);
      if Taken(w, s, op) {
        if o :| o in s.history && w.opId(o) == w.opId(op) {
          assert o == op;
          if op.parents == [] {
            OpsHaveHeads(w, s);
          } else {
            IdemKnown(w, s.history, op);
          }
        }
        TakingKeepsHeadsMaximal(w, s, op);
      }
    }
  }

  // --------------------------------------------------------------------- scope

  /** The capability chain of an op at the view it saw. */
  ghost function ChainOf(w: World, v: View, op: Op): seq<Capability>
    requires op.cap.Some? && w.CapabilityAt(op.cap.value).Some?
    requires Chain(w, v, w.CapabilityAt(op.cap.value).value, op.cap.value, CHAIN_LIMIT).Some?
  {
    Chain(w, v, w.CapabilityAt(op.cap.value).value, op.cap.value, CHAIN_LIMIT).value
  }

  /** A path an op's proposal or landing changed. */
  ghost predicate Writes(w: World, op: Op, path: string) {
    exists e: Effect, i: nat, j: nat :: e in op.effects && WritesAt(w, e, i, j) && RevisionOf(w, e)[i].paths[j] == path
  }

  ghost function RevisionOf(w: World, e: Effect): seq<RootChange> {
    match e
    case Propose(rev) => w.changes(rev).GetOr([])
    case Head(_, to, _, _, _, _) => w.changes(to).GetOr([])
    case _ => []
  }

  ghost predicate WritesAt(w: World, e: Effect, i: nat, j: nat) {
    i < |RevisionOf(w, e)| && j < |RevisionOf(w, e)[i].paths|
  }

  /**
   Whatever run led here, every path a non-owner's op proposes or lands is
   admitted by its capability and by every capability above it as far as the
   patterns handed on are safe ones; the last is issued by an owner of the view
   the op saw.
   */
  lemma {:induction false} WritesStayInScope(w: World, s: LogState, i: nat, path: string, k: nat)
    requires Inv(w, s) && 1 <= i < |s.history|
    requires var op, v := s.history[i], Seen(Anc(w, s.history[..i]), Replay(w, s.history[..i]), s.history[i]);
             && op.author !in v.owners && Writes(w, op, path) && NormalPath(path)
    ensures var op, v := s.history[i], Seen(Anc(w, s.history[..i]), Replay(w, s.history[..i]), s.history[i]);
            && op.cap.Some? && w.CapabilityAt(op.cap.value).Some?
            && Chain(w, v, w.CapabilityAt(op.cap.value).value, op.cap.value, CHAIN_LIMIT).Some?
            && Linked(v, ChainOf(w, v, op)) && ChainOf(w, v, op)[0].subject == op.author
            && Admits(ChainOf(w, v, op)[0].write.paths, path)
            && (k < |ChainOf(w, v, op)| && (forall j: nat | j < k :: SafeWrites(ChainOf(w, v, op), j)) ==>
                  Admits(ChainOf(w, v, op)[k].write.paths, path))
  {
    var h, op := s.history[..i], s.history[i];
    var v := Seen(Anc(w, h), Replay(w, h), op);
    OnlyRoot(w, s.history, i);
    assert PassedAt(w, s.history, i);
    var heads :| VerifyOp(w, LogState(h, heads), op).Ok?;
    VerifiedAt(w, v, Current(w, LogState(h, heads)), op);
    var cap := w.CapabilityAt(op.cap.value).value;
    ChainLinked(w, v, cap, op.cap.value, CHAIN_LIMIT);
    AuthorizedWrites(w, v, cap, op, path);
    if k < |ChainOf(w, v, op)| && forall j: nat | j < k :: SafeWrites(ChainOf(w, v, op), j) {
      WritesAttenuate(v, ChainOf(w, v, op), k, path);
    }
  }

  lemma {:induction false} AuthorizedWrites(w: World, v: View, cap: Capability, op: Op, path: string)
    requires Authorizes(w, v, cap, op) && Writes(w, op, path)
    ensures Admits(cap.write.paths, path)
  {
    var e: Effect, i: nat, j: nat :| e in op.effects && WritesAt(w, e, i, j) && RevisionOf(w, e)[i].paths[j] == path;
    var n :| 0 <= n < |op.effects| && op.effects[n] == e;
    assert EffectAuthorized(w, v, cap, op.effects[n]);
  }
}
