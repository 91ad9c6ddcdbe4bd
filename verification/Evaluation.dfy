/**
 Evaluating a chain of standards: the loops, and what they list. Every clause of a
 standard that is unmet on its own appears once, those of a risk section from its
 level up, in the order of the chain.
 */
module Evaluation {
  import opened Options
  import opened Predicates
  import opened Standards
  import opened StandardRules
  import opened ConditionRules

  // ---------------------------------------------------------------------- risk

  ghost predicate RiskCited(ctx: Context, l: Loaded) {
    l.att.kind == "risk.change" && Credible(l) && Concerns(ctx, l)
  }

  /** The latest trusted risk attestation on the revision; of several at one time, the first cited. */
  ghost predicate LatestRiskIs(ctx: Context, ls: seq<Loaded>, a: Attestation) {
    exists i | 0 <= i < |ls| ::
      && ls[i].att == a && RiskCited(ctx, ls[i])
      && forall j | 0 <= j < |ls| && RiskCited(ctx, ls[j]) ::
           ls[j].att.time < a.time || (ls[j].att.time == a.time && i <= j)
  }

  /** The value of the first entry of that name. */
  ghost predicate FirstEntry(entries: seq<(Value, Value)>, key: string, v: Value) {
    exists i | 0 <= i < |entries| ::
      entries[i] == (Text(key), v) && forall j | 0 <= j < i :: entries[j].0 != Text(key)
  }

  /** The latest risk attestation states a whole score and this level. */
  ghost predicate LevelIs(ctx: Context, ls: seq<Loaded>, level: string) {
    exists a, n :: LatestRiskIs(ctx, ls, a) && a.result.Map?
                   && FirstEntry(a.result.entries, "score", Int(n))
                   && FirstEntry(a.result.entries, "level", Text(level))
  }

  /** Low, medium, high, critical; any other name counts as low. */
  predicate AtLeast(level: string, least: string) {
    && (least == "medium" ==> level in {"medium", "high", "critical"})
    && (least == "high" ==> level in {"high", "critical"})
    && (least == "critical" ==> level == "critical")
  }

  lemma {:induction false} LatestRiskExactly(ctx: Context, ls: seq<Loaded>)
    ensures forall a :: LatestRisk(ctx, ls) == Some(a) <==> LatestRiskIs(ctx, ls, a)
    ensures LatestRisk(ctx, ls).None? <==> forall l | l in ls :: !RiskCited(ctx, l)
  {
    if ls != [] {
      var init, last := ls[..|ls| - 1], ls[|ls| - 1];
      LatestRiskExactly(ctx, init);
      assert ls == init + [last];
      forall a ensures LatestRisk(ctx, ls) == Some(a) <==> LatestRiskIs(ctx, ls, a) {
        RiskSnoc(ctx, init, last, a);
      }
    }
  }

  lemma RiskSnoc(ctx: Context, init: seq<Loaded>, last: Loaded, a: Attestation)
    requires forall x :: LatestRisk(ctx, init) == Some(x) <==> LatestRiskIs(ctx, init, x)
    requires LatestRisk(ctx, init).None? <==> forall l | l in init :: !RiskCited(ctx, l)
    ensures LatestRiskIs(ctx, init + [last], a) <==>
            var before := LatestRisk(ctx, init);
            if RiskCited(ctx, last) && (before.None? || last.att.time > before.value.time) then a == last.att
            else before == Some(a)
  {
    var all, before := init + [last], LatestRisk(ctx, init);
    assert all[|init|] == last && forall j | 0 <= j < |init| :: all[j] == init[j];
    if before.Some? {
      assert LatestRiskIs(ctx, init, before.value);
    }
  }

  lemma {:induction false} EntryExactly(entries: seq<(Value, Value)>, key: string, v: Value)
    ensures Entry(entries, key) == Some(v) <==> FirstEntry(entries, key, v)
  {
    if entries != [] {
      EntryExactly(entries[1..], key, v);
      if entries[0].0 == Text(key) {
        assert FirstEntry(entries, key, v) <==> entries[0].1 == v by {
          assert entries[0] == (entries[0].0, entries[0].1);
        }
      } else {
        EntryAfter(entries, key, v);
      }
    }
  }

  lemma EntryAfter(entries: seq<(Value, Value)>, key: string, v: Value)
    requires entries != [] && entries[0].0 != Text(key)
    ensures FirstEntry(entries, key, v) <==> FirstEntry(entries[1..], key, v)
  {
    var rest := entries[1..];
    if i :| 0 <= i < |rest| && rest[i] == (Text(key), v) && forall j | 0 <= j < i :: rest[j].0 != Text(key) {
      assert entries[i + 1] == (Text(key), v);
      forall j | 0 <= j < i + 1 ensures entries[j].0 != Text(key) {
        assert j > 0 ==> entries[j] == rest[j - 1];
      }
    }
    if i :| 0 <= i < |entries| && entries[i] == (Text(key), v) && forall j | 0 <= j < i :: entries[j].0 != Text(key) {
      assert rest[i - 1] == (Text(key), v);
      forall j | 0 <= j < i - 1 ensures rest[j].0 != Text(key) {
        assert rest[j] == entries[j + 1];
      }
    }
  }

  lemma LevelExactly(ctx: Context, ls: seq<Loaded>, level: string)
    ensures RiskLevel(ctx, ls) == Some(level) <==> LevelIs(ctx, ls, level)
  {
    LatestRiskExactly(ctx, ls);
    var latest := LatestRisk(ctx, ls);
    if latest.Some? && latest.value.result.Map? {
      var entries := latest.value.result.entries;
      forall key, v ensures Entry(entries, key) == Some(v) <==> FirstEntry(entries, key, v) {
        EntryExactly(entries, key, v);
      }
    }
  }

  lemma RankExactly(level: string, least: string)
    ensures LevelRank(level) >= LevelRank(least) <==> AtLeast(level, least)
  {}

  // ------------------------------------------------------------------- listing

  /** A clause of the standard or of a risk section that applies, unmet on its own; or a section of unknown risk. */
  ghost predicate Expected(ctx: Context, ls: seq<Loaded>, chain: seq<Standard>, u: Unmet) {
    && u.standard < |chain|
    && match (u.section, u.clause)
       case (None, Some(i)) => i < |chain[u.standard].clauses| && Listed(ctx, ls, chain[u.standard].clauses[i])
       case (Some(k), None) => k < |chain[u.standard].whens| && forall level :: !LevelIs(ctx, ls, level)
       case (Some(k), Some(i)) =>
         && k < |chain[u.standard].whens| && i < |chain[u.standard].whens[k].clauses|
         && Listed(ctx, ls, chain[u.standard].whens[k].clauses[i])
         && exists level :: LevelIs(ctx, ls, level) && AtLeast(level, chain[u.standard].whens[k].atLeast)
       case (None, None) => false
  }

  function Place(n: Option<nat>): nat {
    match n
    case None => 0
    case Some(i) => i + 1
  }

  /** Standard by standard, its own clauses before its risk sections, clause by clause. */
  predicate Before(x: Unmet, y: Unmet) {
    || x.standard < y.standard
    || (x.standard == y.standard && Place(x.section) < Place(y.section))
    || (x.standard == y.standard && x.section == y.section && Place(x.clause) < Place(y.clause))
  }

  ghost predicate InOrder(us: seq<Unmet>) {
    forall i, j | 0 <= i < j < |us| :: Before(us[i], us[j])
  }

  ghost predicate ListsExactly(ctx: Context, ls: seq<Loaded>, chain: seq<Standard>, us: seq<Unmet>) {
    InOrder(us) && forall u :: u in us <==> Expected(ctx, ls, chain, u)
  }

  lemma InOrderConcat(xs: seq<Unmet>, ys: seq<Unmet>)
    requires InOrder(xs) && InOrder(ys) && forall x, y | x in xs && y in ys :: Before(x, y)
    ensures InOrder(xs + ys)
  {
    var all := xs + ys;
    forall i, j | 0 <= i < j < |all| ensures Before(all[i], all[j]) {
      if i < |xs| <= j {
        assert xs[i] in xs && ys[j - |xs|] in ys;
      }
    }
  }

  lemma {:induction false} ClausesExactly(ctx: Context, ls: seq<Loaded>, cs: seq<Clause>, s: nat, section: Option<nat>)
    ensures var us := UnmetIn(ctx, ls, cs, s, section);
            && InOrder(us)
            && forall u :: u in us <==>
                 u.standard == s && u.section == section && u.clause.Some? && u.clause.value < |cs|
                 && Listed(ctx, ls, cs[u.clause.value])
  {
    if cs != [] {
      var init, k := cs[..|cs| - 1], |cs| - 1;
      ClausesExactly(ctx, ls, init, s, section);
      ListedUnmet(ctx, ls, cs[k]);
      var more := if ClauseUnmet(ctx, ls, cs[k]) then [Unmet(s, section, Some(k))] else [];
      InOrderConcat(UnmetIn(ctx, ls, init, s, section), more);
    }
  }

  /** What the `k`-th risk section lists. */
  ghost predicate SectionLists(ctx: Context, ls: seq<Loaded>, w: RiskClauses, s: nat, k: nat, u: Unmet) {
    && u.standard == s && u.section == Some(k)
    && match u.clause
       case None => forall level :: !LevelIs(ctx, ls, level)
       case Some(i) =>
         && i < |w.clauses| && Listed(ctx, ls, w.clauses[i])
         && exists level :: LevelIs(ctx, ls, level) && AtLeast(level, w.atLeast)
  }

  lemma SectionExactly(ctx: Context, ls: seq<Loaded>, w: RiskClauses, s: nat, k: nat)
    ensures var us := UnmetSection(ctx, ls, w, s, k);
            InOrder(us) && forall u :: u in us <==> SectionLists(ctx, ls, w, s, k, u)
  {
    ClausesExactly(ctx, ls, w.clauses, s, Some(k));
    forall level ensures RiskLevel(ctx, ls) == Some(level) <==> LevelIs(ctx, ls, level) {
      LevelExactly(ctx, ls, level);
    }
    var level := RiskLevel(ctx, ls);
    if level.Some? {
      RankExactly(level.value, w.atLeast);
      assert LevelIs(ctx, ls, level.value);
    }
  }

  lemma {:induction false} WhensExactly(ctx: Context, ls: seq<Loaded>, ws: seq<RiskClauses>, s: nat)
    ensures var us := UnmetWhens(ctx, ls, ws, s);
            && InOrder(us)
            && forall u :: u in us <==>
                 u.section.Some? && u.section.value < |ws|
                 && SectionLists(ctx, ls, ws[u.section.value], s, u.section.value, u)
  {
    if ws != [] {
      var init, k := ws[..|ws| - 1], |ws| - 1;
      WhensExactly(ctx, ls, init, s);
      SectionExactly(ctx, ls, ws[k], s, k);
      InOrderConcat(UnmetWhens(ctx, ls, init, s), UnmetSection(ctx, ls, ws[k], s, k));
      assert UnmetWhens(ctx, ls, ws, s) == UnmetWhens(ctx, ls, init, s) + UnmetSection(ctx, ls, ws[k], s, k);
    }
  }

  lemma {:induction false} UnmetExactly(ctx: Context, ls: seq<Loaded>, chain: seq<Standard>)
    ensures ListsExactly(ctx, ls, chain, UnmetClauses(ctx, ls, chain))
  {
    if chain != [] {
      var init, s := chain[..|chain| - 1], |chain| - 1;
      UnmetExactly(ctx, ls, init);
      ClausesExactly(ctx, ls, chain[s].clauses, s, None);
      WhensExactly(ctx, ls, chain[s].whens, s);
      var before, own := UnmetClauses(ctx, ls, init), UnmetIn(ctx, ls, chain[s].clauses, s, None);
      var risky := UnmetWhens(ctx, ls, chain[s].whens, s);
      InOrderConcat(before, own);
      InOrderConcat(before + own, risky);
      forall u ensures Expected(ctx, ls, chain, u) <==> u in before || u in own || u in risky {
        ExpectedLast(ctx, ls, chain, u);
      }
    }
  }

  lemma ExpectedLast(ctx: Context, ls: seq<Loaded>, chain: seq<Standard>, u: Unmet)
    requires chain != []
    ensures var init, s := chain[..|chain| - 1], |chain| - 1;
            Expected(ctx, ls, chain, u) <==>
              || Expected(ctx, ls, init, u)
              || (u.standard == s && u.section.None? && u.clause.Some? && u.clause.value < |chain[s].clauses|
                  && Listed(ctx, ls, chain[s].clauses[u.clause.value]))
              || (u.section.Some? && u.section.value < |chain[s].whens|
                  && SectionLists(ctx, ls, chain[s].whens[u.section.value], s, u.section.value, u))
  {}

  // ----------------------------------------------------------------- the loops

  method CheckClauses(ctx: Context, ls: seq<Loaded>, cs: seq<Clause>, s: nat,
                      section: Option<nat>) returns (unmet: seq<Unmet>)
    ensures unmet == UnmetIn(ctx, ls, cs, s, section)
  {
    unmet := [];
    for i := 0 to |cs|
      invariant unmet == UnmetIn(ctx, ls, cs[..i], s, section)
    {
      assert cs[..i + 1][..i] == cs[..i];
      if ClauseUnmet(ctx, ls, cs[i]) {
        unmet := unmet + [Unmet(s, section, Some(i))];
      }
    }
    assert cs[..|cs|] == cs;
  }

  method CheckWhens(ctx: Context, ls: seq<Loaded>, ws: seq<RiskClauses>, s: nat) returns (unmet: seq<Unmet>)
    ensures unmet == UnmetWhens(ctx, ls, ws, s)
  {
    unmet := [];
    for i := 0 to |ws|
      invariant unmet == UnmetWhens(ctx, ls, ws[..i], s)
    {
      assert ws[..i + 1][..i] == ws[..i];
      var level := RiskLevel(ctx, ls);
      if level.None? {
        unmet := unmet + [Unmet(s, Some(i), None)];
      } else if LevelRank(level.value) >= LevelRank(ws[i].atLeast) {
        var more := CheckClauses(ctx, ls, ws[i].clauses, s, Some(i));
        unmet := unmet + more;
      }
    }
    assert ws[..|ws|] == ws;
  }

  /** Evaluate a chain of standards for a revision with the attestations cited. */
  method Evaluate(ctx: Context, ls: seq<Loaded>, chain: seq<Standard>) returns (unmet: seq<Unmet>)
    ensures unmet == UnmetClauses(ctx, ls, chain)
    ensures ListsExactly(ctx, ls, chain, unmet)
  {
    UnmetExactly(ctx, ls, chain);
    unmet := [];
    for i := 0 to |chain|
      invariant unmet == UnmetClauses(ctx, ls, chain[..i])
    {
      assert chain[..i + 1][..i] == chain[..i];
      var own := CheckClauses(ctx, ls, chain[i].clauses, i, None);
      var risky := CheckWhens(ctx, ls, chain[i].whens, i);
      unmet := unmet + own + risky;
    }
    assert chain[..|chain|] == chain;
  }
}
