/**
 Which ops a log accepts, said of the ops, their ancestry and the rules of module
 Rulebook: taken exactly when nobody repeats a key, the parents are there and every
 rule is kept, and refused at the first step whose rule fails.
 */
module AcceptedOps {
  import opened Options
  import opened Ids
  import opened Values
  import opened Views
  import opened World
  import opened Rulebook
  import opened EffectRules
  import opened History
  import opened MergeRules
  import opened ForkLaws
  import opened Acceptance
  import opened Convergence

  // ------------------------------------------------------------ after the init

  /** An op with parents keeps every rule at the view it saw and the receiver's, and makes the view it claims. */
  ghost predicate Keeps(w: World, v: View, c: View, op: Op, made: View)
    requires op.parents != []
  {
    && AuthorKnown(w, v, op) && AuthorStands(w, v, c, op)
    && w.opSigned(op, op.key)
    && (IsOwner(v, op) || MayWrite(w, v, c, op))
    && (forall e | e in op.effects :: EffectRule(w, v, op, e))
    && Makes(v, op.effects, Some(op.parents[0]), made) && w.viewId(made) == op.view
  }

  lemma {:induction false} AuthorExactly(w: World, v: View, c: View, op: Op)
    ensures AuthorSeen(w, v, op).Ok? <==> AuthorKnown(w, v, op)
    ensures AuthorSeen(w, v, op).Ok? ==>
              (AuthorNow(w, c, op, AuthorSeen(w, v, op).value) == None <==> AuthorStands(w, v, c, op))
  {
    SeesPrincipal(w, v, op.author);
    SeesPrincipal(w, c, op.author);
    var r := ResolvePrincipal(w, v, op.author);
    if r.Ok? && r.value.Some? {
      assert Known(w, v, op.author, r.value.value.0, r.value.value.1);
    }
    var n := ResolvePrincipal(w, c, op.author);
    if n.Ok? && n.value.Some? {
      assert Known(w, c, op.author, n.value.value.0, n.value.value.1);
    }
  }

  /** Verification passes exactly the ops that keep the rules, and returns the view they make. */
  lemma {:induction false} VerifiedExactly(w: World, v: View, c: View, op: Op, made: View)
    requires op.parents != []
    ensures VerifyAt(w, v, c, op) == Ok(made) <==> Keeps(w, v, c, op, made)
  {
    AuthorExactly(w, v, c, op);
    MayWriteExactly(w, v, c, op);
    LegalExactly(w, v, op);
    AppliesExactly(v, op.effects, Some(op.parents[0]), made);
  }

  /** The step that refused is the first whose rule fails. */
  lemma {:induction false} RefusedExactly(w: World, v: View, c: View, op: Op)
    requires op.parents != []
    ensures var r := VerifyAt(w, v, c, op);
            var author := AuthorKnown(w, v, op) && AuthorStands(w, v, c, op);
            var signed := author && w.opSigned(op, op.key);
            var entitled := signed && (IsOwner(v, op) || MayWrite(w, v, c, op));
            var legal := entitled && forall e | e in op.effects :: EffectRule(w, v, op, e);
            && (!author <==> r.Err? && r.error in {NotFound, Rejected(3), Rejected(4)})
            && (author && !signed <==> r == Err(Rejected(5)))
            && (signed && !entitled <==> r == Err(Rejected(6)))
            && (entitled && !legal <==> r == Err(Rejected(7)))
            && (legal && (forall made :: !Makes(v, op.effects, Some(op.parents[0]), made)) <==> r == Err(Rejected(0)))
            && (legal && (exists made :: Makes(v, op.effects, Some(op.parents[0]), made) && w.viewId(made) != op.view)
                <==> r == Err(Rejected(8)))
  {
    AuthorExactly(w, v, c, op);
    MayWriteExactly(w, v, c, op);
    LegalExactly(w, v, op);
    var made := Apply(v, op.effects, Some(op.parents[0]));
    forall x ensures Makes(v, op.effects, Some(op.parents[0]), x) <==> made == Some(x) {
      AppliesExactly(v, op.effects, Some(op.parents[0]), x);
    }
    if made.Some? {
      assert Makes(v, op.effects, Some(op.parents[0]), made.value);
    }
  }

  // ------------------------------------------------------------------ the init

  /** A stored principal in the author's own name that it signed with the op's key. */
  ghost predicate Vouches(w: World, op: Op, e: Effect) {
    && e.Point? && e.entity == op.author
    && exists p :: OwnPrincipal(w, op, e.to, p) && w.objectSigned(e.to, op.key)
  }

  /** The principal is in the author's own name and key. */
  predicate Own(op: Op, p: Principal) {
    p.id == op.author && p.key == Some(op.key) && p.status == "active"
  }

  predicate OwnPrincipal(w: World, op: Op, at: Oid, p: Principal) {
    at in w.objects && w.objects[at] == PrincipalObject(p) && Own(op, p)
  }

  /** Nothing but principals is pointed to as the author, and those in its own name and key are signed. */
  ghost predicate PointsSoundly(w: World, op: Op, e: Effect) {
    e.Point? && e.entity == op.author ==>
      && e.to in w.objects && w.objects[e.to].PrincipalObject?
      && forall p | OwnPrincipal(w, op, e.to, p) :: w.objectSigned(e.to, op.key)
  }

  ghost predicate MakesFirst(op: Op, made: View) {
    exists v :: HoldsNothing(v) && Makes(v, op.effects, None, made)
  }

  /** The first op: signed by an author it makes an owner and gives a principal that it signed itself. */
  ghost predicate Initial(w: World, heads: set<Oid>, op: Op, made: View) {
    && op.kind == "init" && heads == {} && w.opSigned(op, op.key)
    && Owner(op.author) in op.effects
    && (exists e :: e in op.effects && Vouches(w, op, e))
    && (forall e | e in op.effects :: PointsSoundly(w, op, e))
    && MakesFirst(op, made) && w.viewId(made) == op.view
  }

  lemma PointScanned(w: World, op: Op, e: Effect)
    requires e.Point? && e.entity == op.author
    ensures var p := w.PrincipalAt(e.to);
            && (PointsSoundly(w, op, e) <==> p.Some? && (Own(op, p.value) ==> w.objectSigned(e.to, op.key)))
            && (Vouches(w, op, e) <==> p.Some? && Own(op, p.value) && w.objectSigned(e.to, op.key))
  {
    var p := w.PrincipalAt(e.to);
    assert p.Some? && Own(op, p.value) ==> OwnPrincipal(w, op, e.to, p.value);
  }

  lemma OtherScanned(w: World, op: Op, e: Effect)
    requires !(e.Point? && e.entity == op.author)
    ensures PointsSoundly(w, op, e) && !Vouches(w, op, e)
  {}

  lemma {:induction false} InitScanExactly(w: World, op: Op, es: seq<Effect>)
    ensures var r := InitScan(w, op, es);
            && (r.Ok? <==> forall e | e in es :: PointsSoundly(w, op, e))
            && (r.Ok? ==> (r.value.0 <==> Owner(op.author) in es))
            && (r.Ok? ==> (r.value.1 <==> exists e :: e in es && Vouches(w, op, e)))
  {
    if es != [] {
      var init, e := es[..|es| - 1], es[|es| - 1];
      InitScanExactly(w, op, init);
      assert es == init + [e];
      assert (forall x | x in es :: PointsSoundly(w, op, x)) <==>
             PointsSoundly(w, op, e) && forall x | x in init :: PointsSoundly(w, op, x);
      assert (exists x :: x in es && Vouches(w, op, x)) <==>
             Vouches(w, op, e) || exists x :: x in init && Vouches(w, op, x);
      if e.Point? && e.entity == op.author {
        PointScanned(w, op, e);
      } else {
        OtherScanned(w, op, e);
      }
    }
  }

  lemma {:induction false} InitialExactly(w: World, heads: set<Oid>, op: Op, made: View)
    ensures VerifyInit(w, heads, op) == Ok(made) <==> Initial(w, heads, op, made)
  {
    InitScanExactly(w, op, op.effects);
    AppliesExactly(EMPTY, op.effects, None, made);
    assert forall v :: HoldsNothing(v) <==> v == EMPTY;
  }

  // -------------------------------------------------------------- attempts

  /** `h[i]` is the latest op of this author under this idempotency key. */
  ghost predicate RepeatOf(h: seq<Op>, op: Op, i: nat) {
    && op.idem.Some? && i < |h| && h[i].author == op.author && h[i].idem == op.idem
    && forall j | i < j < |h| :: h[j].author != op.author || h[j].idem != op.idem
  }

  /** What may be taken: parents in the log and every rule kept at the views the log gives. */
  ghost predicate Acceptable(w: World, s: LogState, op: Op, made: View) {
    && Members(op.parents) <= OpIds(w, s.history)
    && if op.parents == [] then Initial(w, s.heads, op, made)
       else exists v, c :: Shows(w, s, op, v, c) && Keeps(w, v, c, op, made)
  }

  /** `v` merges the views of the op's parents, and `c` those of the heads. */
  ghost predicate Shows(w: World, s: LogState, op: Op, v: View, c: View) {
    && Merges(Anc(w, s.history), Replay(w, s.history), Members(op.parents), v)
    && Merges(Anc(w, s.history), Replay(w, s.history), s.heads, c)
  }

  lemma {:induction false} RepeatExactly(w: World, s: LogState, op: Op)
    ensures Repeats(w, s, op).None? <==> forall i: nat :: !RepeatOf(s.history, op, i)
    ensures forall i: nat | RepeatOf(s.history, op, i) :: Repeats(w, s, op) == Some(w.opId(s.history[i]))
    decreases |s.history|
  {
    var h := s.history;
    if h != [] && op.idem.Some? {
      var last := h[|h| - 1];
      if last.author == op.author && last.idem == op.idem {
        assert RepeatOf(h, op, |h| - 1);
        assert forall i: nat :: RepeatOf(h, op, i) ==> i == |h| - 1;
      } else {
        var init := h[..|h| - 1];
        RepeatExactly(w, LogState(init, s.heads), op);
        forall i: nat ensures RepeatOf(h, op, i) <==> RepeatOf(init, op, i) {
          assert i < |init| ==> init[i] == h[i];
          assert forall j | i < j < |init| :: init[j] == h[j];
        }
      }
    }
  }

  lemma ShowsExactly(w: World, s: LogState, op: Op, v: View, c: View)
    requires Inv(w, s) && Members(op.parents) <= OpIds(w, s.history)
    ensures Shows(w, s, op, v, c) <==> v == SeenBy(w, s, op) && c == Current(w, s)
  {
    MergedExactly(w, s.history, Members(op.parents), v);
    MergedExactly(w, s.history, s.heads, c);
  }

  lemma {:induction false} AcceptableExactly(w: World, s: LogState, op: Op, made: View)
    requires Inv(w, s)
    ensures Members(op.parents) <= OpIds(w, s.history) && VerifyOp(w, s, op) == Ok(made) <==> Acceptable(w, s, op, made)
  {
    if Members(op.parents) <= OpIds(w, s.history) {
      if op.parents == [] {
        InitialExactly(w, s.heads, op, made);
      } else {
        var v, c := SeenBy(w, s, op), Current(w, s);
        ShowsExactly(w, s, op, v, c);
        VerifiedExactly(w, v, c, op, made);
        forall x, y | Shows(w, s, op, x, y) ensures x == v && y == c {
          ShowsExactly(w, s, op, x, y);
        }
      }
    }
  }

  /** An op is taken exactly when it repeats no key of its author and is acceptable. */
  lemma {:induction false} TakenExactly(w: World, s: LogState, op: Op)
    requires Inv(w, s)
    ensures Taken(w, s, op) <==>
            (forall i: nat :: !RepeatOf(s.history, op, i)) && exists made :: Acceptable(w, s, op, made)
  {
    RepeatExactly(w, s, op);
    forall made ensures Members(op.parents) <= OpIds(w, s.history) && VerifyOp(w, s, op) == Ok(made) <==>
                        Acceptable(w, s, op, made)
    {
      AcceptableExactly(w, s, op, made);
    }
    if Taken(w, s, op) {
      assert Acceptable(w, s, op, VerifyOp(w, s, op).value);
    }
  }

  lemma AdvancedExactly(w: World, s: LogState, op: Op)
    requires Sane(w)
    ensures var t := Advance(w, s, op);
            && t.history == (if op in s.history then s.history else s.history + [op])
            && forall d :: d in t.heads <==> d == w.opId(op) || (d in s.heads && d !in op.parents)
  {
    assert w.opId(op) in OpIds(w, s.history) <==> op in s.history;
  }

  /** A taken op joins the history and its parents stop being heads; any other attempt changes nothing. */
  ghost predicate Attempted(w: World, s: LogState, op: Op, t: LogState, r: Result<Oid, Rejection>) {
    if exists i: nat :: RepeatOf(s.history, op, i) then
      t == s && exists i: nat :: RepeatOf(s.history, op, i) && r == Ok(w.opId(s.history[i]))
    else if exists made :: Acceptable(w, s, op, made) then
      && t.history == (if op in s.history then s.history else s.history + [op])
      && (forall d :: d in t.heads <==> d == w.opId(op) || (d in s.heads && d !in op.parents))
      && r == Ok(w.opId(op))
    else t == s && r.Err?
  }

  lemma {:induction false} AttemptedExactly(w: World, s: LogState, op: Op, t: LogState, r: Result<Oid, Rejection>)
    requires Sane(w) && Inv(w, s) && Accept(w, s, op) == (t, r)
    ensures Attempted(w, s, op, t, r)
  {
    TakenExactly(w, s, op);
    RepeatExactly(w, s, op);
    if Taken(w, s, op) {
      AdvancedExactly(w, s, op);
    }
  }

  // ------------------------------------------------------------ ops of a log

  /** Whatever run led here, every op but the first kept the rules at the view it saw, and shows the view they made. */
  lemma {:induction false} EveryOpKept(w: World, s: LogState, op: Op) returns (v: View, c: View)
    requires Inv(w, s) && op in s.history && op.parents != []
    ensures Merges(Anc(w, s.history), Replay(w, s.history), Members(op.parents), v)
    ensures Keeps(w, v, c, op, ViewOf(Replay(w, s.history), w.opId(op)))
  {
    var h := s.history;
    v := SeenBy(w, s, op);
    c := AcceptedAt(w, h, op);
    ParentsAccepted(w, h, op);
    MergedExactly(w, h, Members(op.parents), v);
    Entry(w, h, op);
    VerifiedAt(w, v, c, op);
    VerifiedExactly(w, v, c, op, ViewOf(Replay(w, h), w.opId(op)));
  }

  /** And the first op's view is what its effects made of nothing. */
  lemma {:induction false} FirstOpKept(w: World, s: LogState, op: Op)
    requires Inv(w, s) && op in s.history && op.parents == []
    ensures MakesFirst(op, ViewOf(Replay(w, s.history), w.opId(op)))
  {
    var v := ViewOf(Replay(w, s.history), w.opId(op));
    Entry(w, s.history, op);
    SeesNothing(w, s, op);
    AppliesExactly(EMPTY, op.effects, None, v);
    assert HoldsNothing(EMPTY);
  }

  /** So a known line advanced only by its coordinator, from its head, one number on, to a stored revision. */
  lemma CoordinatorsLand(w: World, s: LogState, op: Op, e: Effect) returns (v: View)
    requires Inv(w, s) && op in s.history && op.parents != [] && e in op.effects && e.Head?
    ensures Merges(Anc(w, s.history), Replay(w, s.history), Members(op.parents), v)
    ensures e.to in w.objects && w.objects[e.to].RevisionObject?
    ensures e.line in v.lines ==>
              var ls := v.lines[e.line];
              op.author == ls.coordinator && e.from == Some(ls.head) && e.seqno == ls.seqno + 1
    ensures e.line !in v.lines ==> op.author in v.owners && e.lineId.Some? && e.from.None? && e.seqno == 0
  {
    var c;
    v, c := EveryOpKept(w, s, op);
    assert EffectRule(w, v, op, e);
  }

  predicate Governs(e: Effect) {
    e.Owner? || e.Unowner? || e.Root? || e.Unroot? || e.Coordinator?
  }

  /** Owners, roots and coordinators were only ever changed by an owner: by the rules, or as no capability grants it. */
  lemma OwnersGovern(w: World, s: LogState, op: Op, e: Effect) returns (v: View)
    requires Inv(w, s) && op in s.history && op.parents != [] && e in op.effects && Governs(e)
    ensures Merges(Anc(w, s.history), Replay(w, s.history), Members(op.parents), v)
    ensures op.author in v.owners
  {
    var c;
    v, c := EveryOpKept(w, s, op);
  }
}
