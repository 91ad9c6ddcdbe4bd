/**
 What evaluating a standard lists, said of one-clause standards and of what is
 attested: how the parts of a predicate decide it, when each kind of condition is
 met, which risk sections count, and which clauses of a chain appear, in order.
 */
module StandardRules {
  import opened Options
  import opened Predicates
  import opened Standards

  /** Evaluating a standard of this one clause lists it. */
  predicate Listed(ctx: Context, ls: seq<Loaded>, c: Clause) {
    Unmet(0, None, Some(0)) in UnmetClauses(ctx, ls, [Standard([c], [])])
  }

  /** Evaluating a standard that only requires `p` lists nothing. */
  predicate Met(ctx: Context, ls: seq<Loaded>, p: Pred) {
    UnmetClauses(ctx, ls, [Standard([Clause("require", p, None)], [])]) == []
  }

  lemma OneClause(ctx: Context, ls: seq<Loaded>, c: Clause)
    ensures UnmetClauses(ctx, ls, [Standard([c], [])]) ==
            if ClauseUnmet(ctx, ls, c) then [Unmet(0, None, Some(0))] else []
  {
    var chain, cs := [Standard([c], [])], [c];
    assert chain[..0] == [] && cs[..0] == [];
    assert UnmetClauses(ctx, ls, chain[..0]) == [];
    assert UnmetIn(ctx, ls, cs[..0], 0, None) == [];
    assert UnmetWhens(ctx, ls, chain[0].whens, 0) == [];
  }

  lemma MetHolds(ctx: Context, ls: seq<Loaded>, p: Pred)
    ensures Met(ctx, ls, p) <==> Holds(ctx, ls, p)
  {
    OneClause(ctx, ls, Clause("require", p, None));
  }

  lemma ListedUnmet(ctx: Context, ls: seq<Loaded>, c: Clause)
    ensures Listed(ctx, ls, c) <==> ClauseUnmet(ctx, ls, c)
  {
    OneClause(ctx, ls, c);
  }

  // ------------------------------------------------------------------- clauses

  /**
   What is required is listed when it is not met, what is forbidden when it is, and a
   clause of any other sort always; but none whose exception is met.
   */
  lemma ClauseListed(ctx: Context, ls: seq<Loaded>, op: string, p: Pred, q: Pred)
    ensures Listed(ctx, ls, Clause("require", p, None)) <==> !Met(ctx, ls, p)
    ensures Listed(ctx, ls, Clause("forbid", p, None)) <==> Met(ctx, ls, p)
    ensures op != "require" && op != "forbid" ==> Listed(ctx, ls, Clause(op, p, None))
    ensures Listed(ctx, ls, Clause(op, p, Some(q))) <==> Listed(ctx, ls, Clause(op, p, None)) && !Met(ctx, ls, q)
  {
    MetHolds(ctx, ls, p);
    MetHolds(ctx, ls, q);
    ListedUnmet(ctx, ls, Clause("require", p, None));
    ListedUnmet(ctx, ls, Clause("forbid", p, None));
    ListedUnmet(ctx, ls, Clause(op, p, None));
    ListedUnmet(ctx, ls, Clause(op, p, Some(q)));
  }

  function Parts(p: Pred): seq<Pred> {
    if p.preds.Subs? then p.preds.list else []
  }

  lemma {:induction false} PartsMet(ctx: Context, ls: seq<Loaded>, ps: seq<Pred>)
    ensures forall q | q in ps :: Met(ctx, ls, q) <==> Holds(ctx, ls, q)
  {
    forall q | q in ps ensures Met(ctx, ls, q) <==> Holds(ctx, ls, q) {
      MetHolds(ctx, ls, q);
    }
  }

  /** `all` is met when every part is, `any` when some part is, and `not` when its first part is not. */
  lemma {:induction false} CombinedMet(ctx: Context, ls: seq<Loaded>, p: Pred)
    ensures p.kind == "all" ==> (Met(ctx, ls, p) <==> forall q | q in Parts(p) :: Met(ctx, ls, q))
    ensures p.kind == "any" ==> (Met(ctx, ls, p) <==> exists q :: q in Parts(p) && Met(ctx, ls, q))
    ensures p.kind == "not" ==> (Met(ctx, ls, p) <==> Parts(p) != [] && !Met(ctx, ls, Parts(p)[0]))
  {
    MetHolds(ctx, ls, p);
    PartsMet(ctx, ls, Parts(p));
    forall i | 0 <= i < |Parts(p)| ensures Parts(p)[i] in Parts(p) {
    }
  }
}
