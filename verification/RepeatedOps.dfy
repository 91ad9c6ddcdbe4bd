/**
 An op that comes back: when a log takes it a second time, and what that does to
 the heads.
 */
module RepeatedOps {
  import opened Views
  import opened World
  import opened History
  import opened Acceptance
  import opened LogTheorems
  import opened Convergence

  /** The author may still act at the current view, as an owner or under a capability still active. */
  ghost predicate StillAllowed(w: World, s: LogState, op: Op) {
    var v, c := SeenBy(w, s, op), Current(w, s);
    && AuthorSeen(w, v, op).Ok? && AuthorNow(w, c, op, AuthorSeen(w, v, op).value).None?
    && (op.author in v.owners || (op.cap.Some? && InSet(c.caps, op.cap.value)))
  }

  /** Checked again at the view it saw, an op fails only at what the receiver has learned since. */
  lemma CheckedAgain(w: World, v: View, was: View, now: View, op: Op)
    requires VerifyAt(w, v, was, op).Ok?
    ensures AuthorSeen(w, v, op).Ok?
    ensures VerifyAt(w, v, now, op).Ok? <==>
            && AuthorNow(w, now, op, AuthorSeen(w, v, op).value).None?
            && (op.author in v.owners || (op.cap.Some? && InSet(now.caps, op.cap.value)))
  {}

  /**
   An op already in the log is taken again exactly when it is no init, carries no
   idempotency key, and its author may still act.
   */
  lemma {:induction false} TakenAgain(w: World, s: LogState, op: Op)
    requires Sane(w) && Inv(w, s) && op in s.history
    ensures Taken(w, s, op) <==> op.parents != [] && op.idem.None? && StillAllowed(w, s, op)
  {
    if op.idem.Some? {
      IdemKnown(w, s.history, op);
    } else if op.parents == [] {
      OpsHaveHeads(w, s);
    } else {
      var was := AcceptedAt(w, s.history, op);
      ParentsAccepted(w, s.history, op);
      CheckedAgain(w, SeenBy(w, s, op), was, Current(w, s), op);
    }
  }

  /** So the heads go wrong exactly when an op without a key comes back once others have built on it. */
  lemma {:induction false} RepeatsSpoilHeads(w: World, s: LogState, op: Op)
    requires Sane(w) && Inv(w, s) && s.heads == Maximal(w, s.history) && op in s.history
    ensures var t := Accept(w, s, op).0;
            t.heads != Maximal(w, t.history) <==>
            op.parents != [] && op.idem.None? && StillAllowed(w, s, op) && w.opId(op) !in s.heads
  {
    TakenAgain(w, s, op);
    if Taken(w, s, op) {
      TakingKeepsHeadsMaximal(w, s, op);
      assert w.opId(op) in OpIds(w, s.history);
    } else {
      assert Accept(w, s, op).0 == s;
    }
  }
}
