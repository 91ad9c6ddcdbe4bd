/**
 What views keep along the DAG, whatever forks and merges it holds: revocations
 exactly, and line sequence numbers rising.
 */
module Safety {
  import opened Options
  import opened Ids
  import opened Values
  import opened Views
  import opened World
  import opened History

  // --------------------------------------------------------------- revocations

  /** Some op whose ID is in `ids` revokes `p`. */
  ghost predicate RevokedIn(w: World, h: seq<Op>, ids: set<Oid>, p: EntityId) {
    exists op :: op in h && w.opId(op) in ids && Revoke(p) in op.effects
  }

  lemma OneRevokes(v: View, e: Effect, parent: Option<Oid>, p: EntityId)
    requires ApplyOne(v, e, parent).Some?
    ensures p in ApplyOne(v, e, parent).value.revoked <==> p in v.revoked || e == Revoke(p)
  {}

  lemma {:induction false} ApplyRevokes(v: View, es: seq<Effect>, parent: Option<Oid>, p: EntityId)
    requires Apply(v, es, parent).Some?
    ensures p in Apply(v, es, parent).value.revoked <==> p in v.revoked || Revoke(p) in es
    decreases |es|
  {
    if es != [] {
      OneRevokes(v, es[0], parent, p);
      ApplyRevokes(ApplyOne(v, es[0], parent).value, es[1..], parent, p);
      assert es == [es[0]] + es[1..];
    }
  }

  /** An ancestor's revocations are in its descendants' views. */
  ghost predicate RevokedGrows(anc: Ancestry, views: ViewTable) {
    forall d, a, p | a in AncestorsOf(anc, d) && p in ViewOf(views, a).revoked :: p in ViewOf(views, d).revoked
  }

  ghost predicate RevokedSomewhere(views: ViewTable, ops: set<Oid>, p: EntityId) {
    exists o :: o in ops && p in ViewOf(views, o).revoked
  }

  lemma SomewhereGrows(views: ViewTable, ops: set<Oid>, next: Oid, p: EntityId)
    ensures RevokedSomewhere(views, ops + {next}, p) <==>
            RevokedSomewhere(views, ops, p) || p in ViewOf(views, next).revoked
  {
    if o :| o in ops && p in ViewOf(views, o).revoked {
      assert o in ops + {next};
    }
    assert next in ops + {next};
  }

  /** Folding views loses no revocation and invents none. */
  lemma {:induction false} FoldRevokes(anc: Ancestry, views: ViewTable, acc: View, folded: set<Oid>, rest: seq<Oid>)
    requires RevokedGrows(anc, views)
    requires forall p :: p in acc.revoked <==> RevokedSomewhere(views, folded, p)
    ensures forall p :: p in Fold(anc, views, acc, folded, rest).revoked <==>
                        RevokedSomewhere(views, folded + Members(rest), p)
    decreases |rest|
  {
    if rest == [] {
      assert folded + Members(rest) == folded;
    } else {
      var next := rest[0];
      var base := BaseView(anc, views, folded + {next});
      var acc' := Merge(base, acc, ViewOf(views, next));
      forall p ensures p in acc'.revoked <==> RevokedSomewhere(views, folded + {next}, p) {
        SomewhereGrows(views, folded, next, p);
      }
      FoldRevokes(anc, views, acc', folded + {next}, rest[1..]);
      RestStep(folded, rest);
    }
  }

  lemma {:induction false} MergedRevokes(anc: Ancestry, views: ViewTable, ops: set<Oid>)
    requires RevokedGrows(anc, views)
    ensures forall p :: p in Merged(anc, views, ops).revoked <==> RevokedSomewhere(views, ops, p)
  {
    if ops != {} {
      var sorted := Ascending(ops);
      SortedListing(ops);
      forall p ensures p in ViewOf(views, sorted[0]).revoked <==> RevokedSomewhere(views, {sorted[0]}, p) {
        assert sorted[0] in {sorted[0]};
      }
      FoldRevokes(anc, views, ViewOf(views, sorted[0]), {sorted[0]}, sorted[1..]);
    }
  }

  /** A view's revoked set is exactly what its op and the op's ancestors revoke. */
  lemma {:induction false} RevokedExactly(w: World, h: seq<Op>, d: Oid, p: EntityId)
    requires Good(w, h) && d in OpIds(w, h)
    ensures p in ViewOf(Replay(w, h), d).revoked <==> RevokedIn(w, h, AncestorsOf(Anc(w, h), d), p)
    decreases |h|, 0
  {
    var init, op := Unsnoc(w, h);
    if d != w.opId(op) {
      ShapedClosed(w, init);
      AncSnoc(w, init, op);
      RevokedExactly(w, init, d, p);
    } else {
      NewRevokes(w, init, op, p);
      forall o | o in ParentSet(op)
        ensures p in ViewOf(Replay(w, init), o).revoked <==> RevokedIn(w, init, AncestorsOf(Anc(w, init), o), p)
      {
        RevokedExactly(w, init, o, p);
      }
      RevokedByParents(w, init, op, p);
    }
  }

  /** An op and its ancestors revoke what its own effects do and what its parents and theirs did. */
  lemma {:induction false} RevokedByParents(w: World, h: seq<Op>, op: Op, p: EntityId)
    requires Shaped(w, h) && Joins(w, h, op)
    ensures RevokedIn(w, h + [op], AncestorsOf(Anc(w, h + [op]), w.opId(op)), p) <==>
            Revoke(p) in op.effects ||
            exists o :: o in ParentSet(op) && RevokedIn(w, h, AncestorsOf(Anc(w, h), o), p)
  {
    NewAncestors(w, h, op);
    ShapedClosed(w, h);
  }

  /** What an op adds to the revocations its parents' views hold. */
  lemma {:induction false} NewRevokes(w: World, h: seq<Op>, op: Op, p: EntityId)
    requires Good(w, h) && Follows(w, h, op)
    ensures p in ViewOf(Replay(w, h + [op]), w.opId(op)).revoked <==>
            RevokedSomewhere(Replay(w, h), ParentSet(op), p) || Revoke(p) in op.effects
    decreases |h|, 2
  {
    NewView(w, h, op);
    RevocationsGrow(w, h);
    MergedRevokes(Anc(w, h), Replay(w, h), ParentSet(op));
    ApplyRevokes(Seen(Anc(w, h), Replay(w, h), op), op.effects, FirstParent(op), p);
  }

  lemma {:induction false} RevocationsGrow(w: World, h: seq<Op>)
    requires Good(w, h)
    ensures RevokedGrows(Anc(w, h), Replay(w, h))
    decreases |h|, 1
  {
    ShapedClosed(w, h);
    forall d, a, p | a in AncestorsOf(Anc(w, h), d) && p in ViewOf(Replay(w, h), a).revoked
      ensures p in ViewOf(Replay(w, h), d).revoked
    {
      RevokedExactly(w, h, a, p);
      RevokedExactly(w, h, d, p);
      var r :| r in h && w.opId(r) in AncestorsOf(Anc(w, h), a) && Revoke(p) in r.effects;
      AncTransitive(w, h, d, a, w.opId(r));
    }
  }

  // ---------------------------------------------------------- sequence numbers

  /** A line's sequence number at a view; below zero when the view has no such line. */
  function SeqAt(v: View, line: string): int {
    if line in v.lines then v.lines[line].seqno else -1
  }

  ghost predicate SeqGrows(anc: Ancestry, views: ViewTable, line: string) {
    forall d, a | a in AncestorsOf(anc, d) :: SeqAt(ViewOf(views, a), line) <= SeqAt(ViewOf(views, d), line)
  }

  /** `n` is the greatest sequence number the line has among the ops' views. */
  ghost predicate GreatestSeq(views: ViewTable, ops: set<Oid>, line: string, n: int) {
    && (exists o :: o in ops && SeqAt(ViewOf(views, o), line) == n)
    && forall o | o in ops :: SeqAt(ViewOf(views, o), line) <= n
  }

  lemma MergeSeq(base: View, a: View, b: View, line: string)
    requires SeqAt(base, line) <= SeqAt(a, line) && SeqAt(base, line) <= SeqAt(b, line)
    ensures SeqAt(Merge(base, a, b), line) ==
            if SeqAt(a, line) >= SeqAt(b, line) then SeqAt(a, line) else SeqAt(b, line)
  {
    assert At(MergeLines(base.lines, a.lines, b.lines), line) ==
           MergeLineAt(At(base.lines, line), At(a.lines, line), At(b.lines, line));
  }

  lemma {:induction false} FoldSeq(anc: Ancestry, views: ViewTable, acc: View, folded: set<Oid>, rest: seq<Oid>,
                                   line: string)
    requires SeqGrows(anc, views, line) && GreatestSeq(views, folded, line, SeqAt(acc, line))
    ensures GreatestSeq(views, folded + Members(rest), line, SeqAt(Fold(anc, views, acc, folded, rest), line))
    decreases |rest|
  {
    if rest == [] {
      assert folded + Members(rest) == folded;
    } else {
      var next := rest[0];
      var acc' := Merge(BaseView(anc, views, folded + {next}), acc, ViewOf(views, next));
      FoldSeqStep(anc, views, acc, folded, next, line);
      FoldSeq(anc, views, acc', folded + {next}, rest[1..], line);
      RestStep(folded, rest);
    }
  }

  lemma {:induction false} FoldSeqStep(anc: Ancestry, views: ViewTable, acc: View, folded: set<Oid>, next: Oid,
                                       line: string)
    requires SeqGrows(anc, views, line) && GreatestSeq(views, folded, line, SeqAt(acc, line))
    ensures GreatestSeq(views, folded + {next}, line,
                        SeqAt(Merge(BaseView(anc, views, folded + {next}), acc, ViewOf(views, next)), line))
  {
    BaseSeq(anc, views, folded, next, line);
    var o :| o in folded && SeqAt(ViewOf(views, o), line) == SeqAt(acc, line);
    assert o in folded + {next} && next in folded + {next};
    MergeSeq(BaseView(anc, views, folded + {next}), acc, ViewOf(views, next), line);
  }

  lemma BaseSeq(anc: Ancestry, views: ViewTable, folded: set<Oid>, next: Oid, line: string)
    requires SeqGrows(anc, views, line)
    ensures forall o | o in folded + {next} ::
              SeqAt(BaseView(anc, views, folded + {next}), line) <= SeqAt(ViewOf(views, o), line)
  {
    if Lca(anc, folded + {next}).Some? {
      LcaCommon(anc, folded + {next});
    }
  }

  /** The merged view has, of every line, the greatest sequence number of the merged ops. */
  lemma {:induction false} MergedSeq(anc: Ancestry, views: ViewTable, ops: set<Oid>, line: string)
    requires SeqGrows(anc, views, line) && ops != {}
    ensures GreatestSeq(views, ops, line, SeqAt(Merged(anc, views, ops), line))
  {
    var sorted := Ascending(ops);
    SortedListing(ops);
    FoldSeq(anc, views, ViewOf(views, sorted[0]), {sorted[0]}, sorted[1..], line);
  }

  /** A head effect as legality demands it: a new line starts at zero, a known one moves up by one. */
  predicate HeadInStep(v: View, e: Effect) {
    e.Head? ==> e.seqno == SeqAt(v, e.line) + 1
  }

  predicate InStep(v: View, es: seq<Effect>) {
    forall i | 0 <= i < |es| :: HeadInStep(v, es[i])
  }

  predicate Advances(es: seq<Effect>, line: string) {
    exists i | 0 <= i < |es| :: es[i].Head? && es[i].line == line
  }

  lemma OneSeq(v: View, e: Effect, parent: Option<Oid>, line: string)
    requires ApplyOne(v, e, parent).Some?
    ensures SeqAt(ApplyOne(v, e, parent).value, line) ==
            if e.Head? && e.line == line then e.seqno else SeqAt(v, line)
  {
    match e
    case Head(_, _, _, _, _, _) =>
    case Coordinator(_, _) =>
    case _ => LinesKept(v, e, parent);
  }

  lemma LinesKept(v: View, e: Effect, parent: Option<Oid>)
    requires ApplyOne(v, e, parent).Some? && !e.Head? && !e.Coordinator?
    ensures ApplyOne(v, e, parent).value.lines == v.lines
  {}

  lemma {:induction false} ApplySeq(v: View, es: seq<Effect>, parent: Option<Oid>, line: string, n: int)
    requires Apply(v, es, parent).Some?
    requires forall i | 0 <= i < |es| :: es[i].Head? && es[i].line == line ==> es[i].seqno == n
    ensures SeqAt(Apply(v, es, parent).value, line) == if Advances(es, line) then n else SeqAt(v, line)
    decreases |es|
  {
    if es != [] {
      var rest := es[1..];
      OneSeq(v, es[0], parent, line);
      ApplySeq(ApplyOne(v, es[0], parent).value, rest, parent, line, n);
      if Advances(rest, line) {
        var i :| 0 <= i < |rest| && rest[i].Head? && rest[i].line == line;
        assert es[i + 1] == rest[i];
      }
      if Advances(es, line) && !(es[0].Head? && es[0].line == line) {
        var i :| 0 <= i < |es| && es[i].Head? && es[i].line == line;
        assert rest[i - 1] == es[i];
      }
    }
  }

  /** Every op after the first passed the legality check of its head effects. */
  ghost predicate Stepped(w: World, h: seq<Op>) {
    forall i | 1 <= i < |h| :: StepAt(w, h, i)
  }

  ghost predicate StepAt(w: World, h: seq<Op>, i: nat)
    requires i < |h|
  {
    InStep(Seen(Anc(w, h[..i]), Replay(w, h[..i]), h[i]), h[i].effects)
  }

  /** The op at index `i` produces its lines' next sequence numbers from its parents' greatest. */
  lemma {:induction false} NewSeq(w: World, h: seq<Op>, op: Op, line: string)
    requires Good(w, h) && Stepped(w, h) && h != [] && Follows(w, h, op)
    requires InStep(Seen(Anc(w, h), Replay(w, h), op), op.effects)
    ensures var n := SeqAt(ViewOf(Replay(w, h + [op]), w.opId(op)), line);
            exists m :: GreatestSeq(Replay(w, h), ParentSet(op), line, m)
                        && n == m + if Advances(op.effects, line) then 1 else 0
    decreases |h|, 2
  {
    NewView(w, h, op);
    SeqsGrow(w, h, line);
    assert op.parents[0] in ParentSet(op);
    MergedSeq(Anc(w, h), Replay(w, h), ParentSet(op), line);
    var seen := Seen(Anc(w, h), Replay(w, h), op);
    ApplySeq(seen, op.effects, FirstParent(op), line, SeqAt(seen, line) + 1);
  }

  lemma {:induction false} SeqsGrow(w: World, h: seq<Op>, line: string)
    requires Good(w, h) && Stepped(w, h)
    ensures SeqGrows(Anc(w, h), Replay(w, h), line)
    decreases |h|, 1
  {
    forall d, a | a in AncestorsOf(Anc(w, h), d)
      ensures SeqAt(ViewOf(Replay(w, h), a), line) <= SeqAt(ViewOf(Replay(w, h), d), line)
    {
      SeqRises(w, h, d, a, line);
    }
  }

  /** Along ancestry a line's number never falls. */
  lemma {:induction false} SeqRises(w: World, h: seq<Op>, d: Oid, a: Oid, line: string)
    requires Good(w, h) && Stepped(w, h) && a in AncestorsOf(Anc(w, h), d)
    ensures SeqAt(ViewOf(Replay(w, h), a), line) <= SeqAt(ViewOf(Replay(w, h), d), line)
    decreases |h|, 0
  {
    AncestorsAccepted(w, h, d, a);
    var init, op := Unsnoc(w, h);
    SteppedPrefix(w, init, op);
    if d != w.opId(op) {
      OldAncestor(w, init, op, d, a);
      SeqRises(w, init, d, a, line);
    } else if a != d {
      var p := ParentAbove(w, init, op, a);
      SeqRises(w, init, p, a, line);
      NewSeq(w, init, op, line);
    }
  }

  /** An ancestor of a new op is an ancestor of one of its parents. */
  lemma ParentAbove(w: World, h: seq<Op>, op: Op, a: Oid) returns (p: Oid)
    requires Shaped(w, h) && Joins(w, h, op)
    requires a in AncestorsOf(Anc(w, h + [op]), w.opId(op)) && a != w.opId(op)
    ensures p in ParentSet(op) && a in AncestorsOf(Anc(w, h), p)
    ensures ViewOf(Replay(w, h + [op]), a) == ViewOf(Replay(w, h), a)
  {
    NewAncestors(w, h, op);
    p :| p in ParentSet(op) && a in AncestorsOf(Anc(w, h), p);
    OldEntries(w, h, op, a);
  }

  /** At an op that advances a line the number is above what every proper ancestor had. */
  lemma {:induction false} SeqRisesStrictly(w: World, h: seq<Op>, i: nat, a: Oid, line: string)
    requires Good(w, h) && Stepped(w, h) && i < |h| && Advances(h[i].effects, line)
    requires a in AncestorsOf(Anc(w, h), w.opId(h[i])) && a != w.opId(h[i])
    ensures SeqAt(ViewOf(Replay(w, h), a), line) < SeqAt(ViewOf(Replay(w, h), w.opId(h[i])), line)
    decreases |h|
  {
    var init, op := Unsnoc(w, h);
    SteppedPrefix(w, init, op);
    if i < |init| {
      assert h[i] in init;
      OldAncestor(w, init, op, w.opId(h[i]), a);
      SeqRisesStrictly(w, init, i, a, line);
    } else {
      var p := ParentAbove(w, init, op, a);
      SeqRises(w, init, p, a, line);
      NewSeq(w, init, op, line);
    }
  }

  lemma SteppedPrefix(w: World, h: seq<Op>, op: Op)
    requires Stepped(w, h + [op])
    ensures Stepped(w, h)
    ensures h != [] ==> InStep(Seen(Anc(w, h), Replay(w, h), op), op.effects)
  {
    var all := h + [op];
    forall i | 1 <= i < |h| ensures StepAt(w, h, i) {
      assert StepAt(w, all, i) && all[..i] == h[..i] && all[i] == h[i];
    }
    if h != [] {
      assert StepAt(w, all, |h|) && all[..|h|] == h && all[|h|] == op;
    }
  }
}
