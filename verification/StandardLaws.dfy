/** What the attestations cited can change about which clauses of a standard are unmet. */
module StandardLaws {
  import opened Options
  import opened Ids
  import opened Predicates
  import opened Standards

  // ------------------------------------------------ untrusted signers count for nothing

  function TrustedOnly(ls: seq<Loaded>): seq<Loaded> {
    if ls == [] then []
    else TrustedOnly(ls[..|ls| - 1]) + if Trusted(ls[|ls| - 1]) then [ls[|ls| - 1]] else []
  }

  /** Reads no judge's verdict and accepts no author's own word. */
  predicate Impartial(p: Pred)
    decreases p
  {
    && p.kind != "judge" && !(p.kind == "attest" && FlagArg(p, "self"))
    && (p.preds.Subs? ==> forall i | 0 <= i < |p.preds.list| :: Impartial(p.preds.list[i]))
  }

  predicate ImpartialClauses(cs: seq<Clause>) {
    forall i | 0 <= i < |cs| :: Impartial(cs[i].pred) && (cs[i].unlessPred.Some? ==> Impartial(cs[i].unlessPred.value))
  }

  predicate ImpartialStandard(s: Standard) {
    ImpartialClauses(s.clauses) && forall i | 0 <= i < |s.whens| :: ImpartialClauses(s.whens[i].clauses)
  }

  lemma {:induction false} TrustedHolds(ls: seq<Loaded>, l: Loaded)
    ensures l in TrustedOnly(ls) <==> l in ls && Trusted(l)
  {
    if ls != [] {
      var init, last := ls[..|ls| - 1], ls[|ls| - 1];
      TrustedHolds(init, l);
      assert ls == init + [last];
    }
  }

  /** The same trusted attestations, whatever else each cites. */
  ghost predicate SameTrusted(a: seq<Loaded>, b: seq<Loaded>) {
    TrustedOnly(a) == TrustedOnly(b)
  }

  lemma TrustedMember(a: seq<Loaded>, b: seq<Loaded>, i: nat) returns (j: nat)
    requires SameTrusted(a, b) && i < |a| && Trusted(a[i])
    ensures j < |b| && b[j] == a[i]
  {
    TrustedHolds(a, a[i]);
    TrustedHolds(b, a[i]);
    j :| 0 <= j < |b| && b[j] == a[i];
  }

  lemma SubjectTrusted(ctx: Context, a: seq<Loaded>, b: seq<Loaded>, kind: string)
    requires SameTrusted(a, b) && SubjectAttested(ctx, a, kind, false)
    ensures SubjectAttested(ctx, b, kind, false)
  {
    var i: nat :| i < |a| && Says(a[i], kind, false) && OnSubject(ctx, a[i]);
    var j := TrustedMember(a, b, i);
  }

  lemma BodyTrusted(a: seq<Loaded>, b: seq<Loaded>, kind: string, body: Oid)
    requires SameTrusted(a, b) && BodyAttested(a, kind, false, body)
    ensures BodyAttested(b, kind, false, body)
  {
    var i: nat :| i < |a| && Says(a[i], kind, false) && body in a[i].att.bodies;
    var j := TrustedMember(a, b, i);
  }

  lemma BodiesTrusted(a: seq<Loaded>, b: seq<Loaded>, kind: string, units: seq<Unit>)
    requires SameTrusted(a, b)
    ensures BodiesAttested(a, kind, false, units) <==> BodiesAttested(b, kind, false, units)
  {
    forall i | 0 <= i < |units|
      ensures BodyAttested(a, kind, false, units[i].body) <==> BodyAttested(b, kind, false, units[i].body)
    {
      if BodyAttested(a, kind, false, units[i].body) { BodyTrusted(a, b, kind, units[i].body); }
      if BodyAttested(b, kind, false, units[i].body) { BodyTrusted(b, a, kind, units[i].body); }
    }
  }

  lemma AttestedTrusted(ctx: Context, a: seq<Loaded>, b: seq<Loaded>, p: Pred)
    requires SameTrusted(a, b) && !FlagArg(p, "self")
    ensures Attested(ctx, a, p) <==> Attested(ctx, b, p)
  {
    var kind := p.name.GetOr("");
    if SubjectAttested(ctx, a, kind, false) { SubjectTrusted(ctx, a, b, kind); }
    if SubjectAttested(ctx, b, kind, false) { SubjectTrusted(ctx, b, a, kind); }
    forall units: seq<Unit>
      ensures BodiesAttested(a, kind, false, units) <==> BodiesAttested(b, kind, false, units)
    {
      BodiesTrusted(a, b, kind, units);
    }
  }

  lemma ApprovedTrusted(ctx: Context, a: seq<Loaded>, b: seq<Loaded>, p: Pred)
    requires SameTrusted(a, b) && Approved(ctx, a, p)
    ensures Approved(ctx, b, p)
  {
    var i: nat :| i < |a| && Approves(ctx, a[i], FlagArg(p, "keysigned"));
    assert "human" == TRUSTED_ATTESTERS[4];
    var j := TrustedMember(a, b, i);
  }

  lemma {:induction false} LatestObservedTrusted(ctx: Context, ls: seq<Loaded>, signal: string)
    ensures LatestObserved(ctx, TrustedOnly(ls), signal) == LatestObserved(ctx, ls, signal)
  {
    if ls != [] {
      var init, last := ls[..|ls| - 1], ls[|ls| - 1];
      LatestObservedTrusted(ctx, init, signal);
      if Trusted(last) {
        assert (TrustedOnly(init) + [last])[..|TrustedOnly(init)|] == TrustedOnly(init);
      } else {
        assert TrustedOnly(ls) == TrustedOnly(init);
      }
    }
  }

  lemma {:induction false} LatestRiskTrusted(ctx: Context, ls: seq<Loaded>)
    ensures LatestRisk(ctx, TrustedOnly(ls)) == LatestRisk(ctx, ls)
  {
    if ls != [] {
      var init, last := ls[..|ls| - 1], ls[|ls| - 1];
      LatestRiskTrusted(ctx, init);
      if Trusted(last) {
        assert (TrustedOnly(init) + [last])[..|TrustedOnly(init)|] == TrustedOnly(init);
      } else {
        assert TrustedOnly(ls) == TrustedOnly(init);
      }
    }
  }

  lemma {:induction false} HoldsTrusted(ctx: Context, a: seq<Loaded>, b: seq<Loaded>, p: Pred)
    requires SameTrusted(a, b) && Impartial(p)
    ensures Holds(ctx, a, p) <==> Holds(ctx, b, p)
    decreases p
  {
    if p.kind == "attest" {
      AttestedTrusted(ctx, a, b, p);
    } else if p.kind == "approved" {
      if Approved(ctx, a, p) { ApprovedTrusted(ctx, a, b, p); }
      if Approved(ctx, b, p) { ApprovedTrusted(ctx, b, a, p); }
    } else if p.kind == "observe" {
      LatestObservedTrusted(ctx, a, p.name.GetOr(""));
      LatestObservedTrusted(ctx, b, p.name.GetOr(""));
    } else if p.preds.Subs? {
      forall i | 0 <= i < |p.preds.list| ensures Holds(ctx, a, p.preds.list[i]) <==> Holds(ctx, b, p.preds.list[i]) {
        HoldsTrusted(ctx, a, b, p.preds.list[i]);
      }
    }
  }

  lemma {:induction false} ClausesTrusted(ctx: Context, a: seq<Loaded>, b: seq<Loaded>, cs: seq<Clause>, s: nat,
                                          section: Option<nat>)
    requires SameTrusted(a, b) && ImpartialClauses(cs)
    ensures UnmetIn(ctx, a, cs, s, section) == UnmetIn(ctx, b, cs, s, section)
  {
    if cs != [] {
      var c := cs[|cs| - 1];
      ClausesTrusted(ctx, a, b, cs[..|cs| - 1], s, section);
      HoldsTrusted(ctx, a, b, c.pred);
      if c.unlessPred.Some? {
        HoldsTrusted(ctx, a, b, c.unlessPred.value);
      }
    }
  }

  lemma {:induction false} WhensTrusted(ctx: Context, a: seq<Loaded>, b: seq<Loaded>, ws: seq<RiskClauses>, s: nat)
    requires SameTrusted(a, b) && forall i | 0 <= i < |ws| :: ImpartialClauses(ws[i].clauses)
    ensures UnmetWhens(ctx, a, ws, s) == UnmetWhens(ctx, b, ws, s)
  {
    if ws != [] {
      WhensTrusted(ctx, a, b, ws[..|ws| - 1], s);
      ClausesTrusted(ctx, a, b, ws[|ws| - 1].clauses, s, Some(|ws| - 1));
      LatestRiskTrusted(ctx, a);
      LatestRiskTrusted(ctx, b);
    }
  }

  /**
   Two citations with the same trusted attestations leave the same clauses unmet,
   under any nesting of all, any, not, unless, forbid and when, unless some
   predicate reads judges or accepts the author's own attestation.
   */
  lemma {:induction false} OnlyTrustedCount(ctx: Context, a: seq<Loaded>, b: seq<Loaded>, chain: seq<Standard>)
    requires SameTrusted(a, b) && forall i | 0 <= i < |chain| :: ImpartialStandard(chain[i])
    ensures UnmetClauses(ctx, a, chain) == UnmetClauses(ctx, b, chain)
  {
    if chain != [] {
      var s := |chain| - 1;
      OnlyTrustedCount(ctx, a, b, chain[..s]);
      ClausesTrusted(ctx, a, b, chain[s].clauses, s, None);
      WhensTrusted(ctx, a, b, chain[s].whens, s);
    }
  }

  /** Dropping every attestation from an untrusted signer changes nothing. */
  lemma {:induction false} UntrustedDropped(ctx: Context, ls: seq<Loaded>, chain: seq<Standard>)
    requires forall i | 0 <= i < |chain| :: ImpartialStandard(chain[i])
    ensures UnmetClauses(ctx, TrustedOnly(ls), chain) == UnmetClauses(ctx, ls, chain)
  {
    TrustedTwice(ls);
    OnlyTrustedCount(ctx, TrustedOnly(ls), ls, chain);
  }

  lemma {:induction false} TrustedTwice(ls: seq<Loaded>)
    ensures TrustedOnly(TrustedOnly(ls)) == TrustedOnly(ls)
  {
    if ls != [] {
      var init, last := ls[..|ls| - 1], ls[|ls| - 1];
      TrustedTwice(init);
      if Trusted(last) {
        assert (TrustedOnly(init) + [last])[..|TrustedOnly(init)|] == TrustedOnly(init);
      } else {
        assert TrustedOnly(ls) == TrustedOnly(init);
      }
    }
  }

  // ------------------------------------------------------- citing more attestations

  predicate Cites(b: seq<Loaded>, a: seq<Loaded>) {
    forall i | 0 <= i < |a| :: a[i] in b
  }

  /** Whether citing more can only make a predicate hold (`up`), or only make it fail. */
  predicate Moves(p: Pred, up: bool)
    decreases p
  {
    if p.kind == "attest" || p.kind == "approved" then up
    else if p.kind == "all" || p.kind == "any" then
      p.preds.Subs? ==> forall i | 0 <= i < |p.preds.list| :: Moves(p.preds.list[i], up)
    else if p.kind == "not" then p.preds.Subs? && p.preds.list != [] ==> Moves(p.preds.list[0], !up)
    else p.kind != "judge" && p.kind != "observe"
  }

  predicate Among(x: seq<Unmet>, y: seq<Unmet>) {
    forall u | u in x :: u in y
  }

  predicate ClauseOnlyEases(c: Clause) {
    && (c.unlessPred.Some? ==> Moves(c.unlessPred.value, true))
    && (c.op == "require" ==> Moves(c.pred, true))
    && (c.op == "forbid" ==> Moves(c.pred, false))
  }

  predicate ClausesOnlyEase(cs: seq<Clause>) {
    forall i | 0 <= i < |cs| :: ClauseOnlyEases(cs[i])
  }

  predicate OnlyEases(s: Standard) {
    ClausesOnlyEase(s.clauses) && forall i | 0 <= i < |s.whens| :: ClausesOnlyEase(s.whens[i].clauses)
  }

  lemma CitedAt(a: seq<Loaded>, b: seq<Loaded>, i: nat) returns (j: nat)
    requires Cites(b, a) && i < |a|
    ensures j < |b| && b[j] == a[i]
  {
    assert a[i] in b;
    j :| 0 <= j < |b| && b[j] == a[i];
  }

  lemma BodiesMore(a: seq<Loaded>, b: seq<Loaded>, kind: string, own: bool, units: seq<Unit>)
    requires Cites(b, a) && BodiesAttested(a, kind, own, units)
    ensures BodiesAttested(b, kind, own, units)
  {
    forall n | 0 <= n < |units| ensures BodyAttested(b, kind, own, units[n].body) {
      assert BodyAttested(a, kind, own, units[n].body);
      var i: nat :| i < |a| && Says(a[i], kind, own) && units[n].body in a[i].att.bodies;
      var j := CitedAt(a, b, i);
    }
  }

  lemma AttestedMore(ctx: Context, a: seq<Loaded>, b: seq<Loaded>, p: Pred)
    requires Cites(b, a) && Attested(ctx, a, p)
    ensures Attested(ctx, b, p)
  {
    var kind, own := p.name.GetOr(""), FlagArg(p, "self");
    if SubjectAttested(ctx, a, kind, own) {
      var i: nat :| i < |a| && Says(a[i], kind, own) && OnSubject(ctx, a[i]);
      var j := CitedAt(a, b, i);
      assert SubjectAttested(ctx, b, kind, own);
    }
    forall units: seq<Unit> | BodiesAttested(a, kind, own, units) ensures BodiesAttested(b, kind, own, units) {
      BodiesMore(a, b, kind, own, units);
    }
  }

  lemma ApprovedMore(ctx: Context, a: seq<Loaded>, b: seq<Loaded>, p: Pred)
    requires Cites(b, a) && Approved(ctx, a, p)
    ensures Approved(ctx, b, p)
  {
    var i: nat :| i < |a| && Approves(ctx, a[i], FlagArg(p, "keysigned"));
    var j := CitedAt(a, b, i);
  }

  lemma {:induction false} HoldsMore(ctx: Context, a: seq<Loaded>, b: seq<Loaded>, p: Pred, up: bool)
    requires Cites(b, a) && Moves(p, up)
    ensures if up then Holds(ctx, a, p) ==> Holds(ctx, b, p) else Holds(ctx, b, p) ==> Holds(ctx, a, p)
    decreases p, 1
  {
    if p.kind == "attest" {
      if Attested(ctx, a, p) { AttestedMore(ctx, a, b, p); }
    } else if p.kind == "approved" {
      if Approved(ctx, a, p) { ApprovedMore(ctx, a, b, p); }
    } else if p.kind == "not" {
      if p.preds.Subs? && p.preds.list != [] { HoldsMore(ctx, a, b, p.preds.list[0], !up); }
    } else if p.kind == "all" || p.kind == "any" {
      SubsMore(ctx, a, b, p, up);
    }
  }

  lemma {:induction false} SubsMore(ctx: Context, a: seq<Loaded>, b: seq<Loaded>, p: Pred, up: bool)
    requires Cites(b, a) && Moves(p, up) && (p.kind == "all" || p.kind == "any")
    ensures if up then Holds(ctx, a, p) ==> Holds(ctx, b, p) else Holds(ctx, b, p) ==> Holds(ctx, a, p)
    decreases p, 0
  {
    if p.preds.Subs? {
      forall i | 0 <= i < |p.preds.list|
        ensures if up then Holds(ctx, a, p.preds.list[i]) ==> Holds(ctx, b, p.preds.list[i])
                else Holds(ctx, b, p.preds.list[i]) ==> Holds(ctx, a, p.preds.list[i])
      {
        HoldsMore(ctx, a, b, p.preds.list[i], up);
      }
    }
  }

  lemma {:induction false} ClausesMore(ctx: Context, a: seq<Loaded>, b: seq<Loaded>, cs: seq<Clause>, s: nat,
                                       section: Option<nat>)
    requires Cites(b, a) && ClausesOnlyEase(cs)
    ensures Among(UnmetIn(ctx, b, cs, s, section), UnmetIn(ctx, a, cs, s, section))
  {
    if cs != [] {
      var c := cs[|cs| - 1];
      ClausesMore(ctx, a, b, cs[..|cs| - 1], s, section);
      assert ClauseOnlyEases(c);
      if ClauseUnmet(ctx, b, c) {
        ClauseMore(ctx, a, b, c);
      }
    }
  }

  lemma ClauseMore(ctx: Context, a: seq<Loaded>, b: seq<Loaded>, c: Clause)
    requires Cites(b, a) && ClauseOnlyEases(c) && ClauseUnmet(ctx, b, c)
    ensures ClauseUnmet(ctx, a, c)
  {
    if c.unlessPred.Some? { HoldsMore(ctx, a, b, c.unlessPred.value, true); }
    if c.op == "require" { HoldsMore(ctx, a, b, c.pred, true); }
    if c.op == "forbid" { HoldsMore(ctx, a, b, c.pred, false); }
  }

  lemma {:induction false} WhensMore(ctx: Context, a: seq<Loaded>, b: seq<Loaded>, ws: seq<RiskClauses>, s: nat)
    requires Cites(b, a) && RiskLevel(ctx, a) == RiskLevel(ctx, b)
    requires forall i | 0 <= i < |ws| :: ClausesOnlyEase(ws[i].clauses)
    ensures Among(UnmetWhens(ctx, b, ws, s), UnmetWhens(ctx, a, ws, s))
  {
    if ws != [] {
      WhensMore(ctx, a, b, ws[..|ws| - 1], s);
      ClausesMore(ctx, a, b, ws[|ws| - 1].clauses, s, Some(|ws| - 1));
    }
  }

  /**
   Citing more attestations never unmeets a clause, when what is required can only
   be helped and what is forbidden only be avoided by them, and the risk level stays.
   */
  lemma {:induction false} MoreNeverUnmeets(ctx: Context, a: seq<Loaded>, b: seq<Loaded>, chain: seq<Standard>)
    requires Cites(b, a) && forall i | 0 <= i < |chain| :: OnlyEases(chain[i])
    requires (forall i | 0 <= i < |chain| :: chain[i].whens == []) || RiskLevel(ctx, a) == RiskLevel(ctx, b)
    ensures Among(UnmetClauses(ctx, b, chain), UnmetClauses(ctx, a, chain))
  {
    if chain != [] {
      var s := |chain| - 1;
      MoreNeverUnmeets(ctx, a, b, chain[..s]);
      ClausesMore(ctx, a, b, chain[s].clauses, s, None);
      if chain[s].whens != [] {
        WhensMore(ctx, a, b, chain[s].whens, s);
      }
    }
  }

  // ------------------------------------------------------------------------ judges

  predicate SaysYes(ctx: Context, l: Loaded, rubric: string, least: int) {
    Judges(ctx, l, rubric) && Confident(l, least) && Truthy(l.att.result)
  }

  predicate SaysNo(ctx: Context, l: Loaded, rubric: string, least: int) {
    Judges(ctx, l, rubric) && Confident(l, least) && !Truthy(l.att.result)
  }

  /** The agents whose judges said yes. */
  function YesKeys(ctx: Context, ls: seq<Loaded>, rubric: string, least: int): set<EntityId> {
    set i | 0 <= i < |ls| && SaysYes(ctx, ls[i], rubric, least) :: JudgeKey(ls[i])
  }

  function KeysOf(yes: seq<(EntityId, Option<string>)>): set<EntityId> {
    set i | 0 <= i < |yes| :: yes[i].0
  }

  predicate Refused(ctx: Context, ls: seq<Loaded>, rubric: string, least: int) {
    exists i | 0 <= i < |ls| :: SaysNo(ctx, ls[i], rubric, least)
  }

  lemma RefusedSnoc(ctx: Context, init: seq<Loaded>, l: Loaded, rubric: string, least: int)
    ensures Refused(ctx, init + [l], rubric, least) <==>
        Refused(ctx, init, rubric, least) || SaysNo(ctx, l, rubric, least)
  {
    var all := init + [l];
    assert all[|init|] == l;
    if i :| 0 <= i < |init| && SaysNo(ctx, init[i], rubric, least) {
      assert all[i] == init[i];
    }
  }

  lemma {:induction false} TallyRefused(ctx: Context, ls: seq<Loaded>, rubric: string, least: int)
    ensures Tally(ctx, ls, rubric, least).refused <==> Refused(ctx, ls, rubric, least)
  {
    if ls != [] {
      var init, l := ls[..|ls| - 1], ls[|ls| - 1];
      TallyRefused(ctx, init, rubric, least);
      RefusedSnoc(ctx, init, l, rubric, least);
      assert ls == init + [l];
    }
  }

  lemma KeysSnoc(yes: seq<(EntityId, Option<string>)>, y: (EntityId, Option<string>))
    ensures KeysOf(yes + [y]) == KeysOf(yes) + {y.0}
    ensures HasKey(yes, y.0) <==> y.0 in KeysOf(yes)
  {
    var all := yes + [y];
    assert all[|yes|] == y;
    forall k | k in KeysOf(yes) ensures k in KeysOf(all) {
      var i :| 0 <= i < |yes| && yes[i].0 == k;
      assert all[i] == yes[i];
    }
  }

  /** Counting one more adds its agent if it says yes, and leaves one entry for each agent. */
  lemma CountedKeys(ctx: Context, v: Verdicts, l: Loaded, rubric: string, least: int)
    requires |KeysOf(v.yes)| == |v.yes|
    ensures var r := Counted(ctx, v, l, rubric, least);
            && |KeysOf(r.yes)| == |r.yes|
            && KeysOf(r.yes) == KeysOf(v.yes) + if SaysYes(ctx, l, rubric, least) then {JudgeKey(l)} else {}
  {
    KeysSnoc(v.yes, (JudgeKey(l), l.signerModel));
  }

  lemma {:induction false} TallyKeys(ctx: Context, ls: seq<Loaded>, rubric: string, least: int)
    ensures var yes := Tally(ctx, ls, rubric, least).yes;
            KeysOf(yes) == YesKeys(ctx, ls, rubric, least) && |KeysOf(yes)| == |yes|
  {
    if ls != [] {
      var init, l := ls[..|ls| - 1], ls[|ls| - 1];
      TallyKeys(ctx, init, rubric, least);
      YesKeysSnoc(ctx, init, l, rubric, least);
      CountedKeys(ctx, Tally(ctx, init, rubric, least), l, rubric, least);
      assert ls == init + [l];
    }
  }

  lemma YesKeysSnoc(ctx: Context, init: seq<Loaded>, l: Loaded, rubric: string, least: int)
    ensures YesKeys(ctx, init + [l], rubric, least) ==
            YesKeys(ctx, init, rubric, least) + if SaysYes(ctx, l, rubric, least) then {JudgeKey(l)} else {}
  {
    var all := init + [l];
    forall k | k in YesKeys(ctx, init, rubric, least) ensures k in YesKeys(ctx, all, rubric, least) {
      var i :| 0 <= i < |init| && SaysYes(ctx, init[i], rubric, least) && JudgeKey(init[i]) == k;
      assert all[i] == init[i];
    }
    assert all[|init|] == l;
  }

  /** The first of the agent's judges, in citation order, to say yes. */
  predicate FirstYes(ctx: Context, ls: seq<Loaded>, rubric: string, least: int, i: nat)
    requires i < |ls|
  {
    && SaysYes(ctx, ls[i], rubric, least)
    && forall j | 0 <= j < i && SaysYes(ctx, ls[j], rubric, least) :: JudgeKey(ls[j]) != JudgeKey(ls[i])
  }

  /** The models that speak for the agents: each agent by the first of its judges to say yes. */
  function FirstModels(ctx: Context, ls: seq<Loaded>, rubric: string, least: int): set<Option<string>> {
    set i: nat | i < |ls| && FirstYes(ctx, ls, rubric, least, i) :: ls[i].signerModel
  }

  lemma FirstYesSnoc(ctx: Context, init: seq<Loaded>, l: Loaded, rubric: string, least: int, i: nat)
    requires i <= |init|
    ensures FirstYes(ctx, init + [l], rubric, least, i) <==>
            if i < |init| then FirstYes(ctx, init, rubric, least, i)
            else SaysYes(ctx, l, rubric, least) && JudgeKey(l) !in YesKeys(ctx, init, rubric, least)
  {
    var all := init + [l];
    assert forall j | 0 <= j < |init| :: all[j] == init[j];
    assert all[|init|] == l;
  }

  lemma FirstModelsSnoc(ctx: Context, init: seq<Loaded>, l: Loaded, rubric: string, least: int)
    ensures FirstModels(ctx, init + [l], rubric, least) ==
            FirstModels(ctx, init, rubric, least) +
            if SaysYes(ctx, l, rubric, least) && JudgeKey(l) !in YesKeys(ctx, init, rubric, least) then {l.signerModel}
            else {}
  {
    var all := init + [l];
    forall i: nat | i <= |init|
      ensures FirstYes(ctx, all, rubric, least, i) <==>
              if i < |init| then FirstYes(ctx, init, rubric, least, i)
              else SaysYes(ctx, l, rubric, least) && JudgeKey(l) !in YesKeys(ctx, init, rubric, least)
    {
      FirstYesSnoc(ctx, init, l, rubric, least, i);
    }
    forall m | m in FirstModels(ctx, init, rubric, least) ensures m in FirstModels(ctx, all, rubric, least) {
      var i: nat :| i < |init| && FirstYes(ctx, init, rubric, least, i) && init[i].signerModel == m;
      assert all[i] == init[i];
    }
    assert all[|init|] == l;
  }

  lemma ModelsSnoc(yes: seq<(EntityId, Option<string>)>, y: (EntityId, Option<string>))
    ensures Models(yes + [y]) == Models(yes) + {y.1}
  {
    var all := yes + [y];
    assert all[|yes|] == y;
    forall m | m in Models(yes) ensures m in Models(all) {
      var i :| 0 <= i < |yes| && yes[i].1 == m;
      assert all[i] == yes[i];
    }
  }

  lemma CountedModels(ctx: Context, v: Verdicts, l: Loaded, rubric: string, least: int)
    ensures Models(Counted(ctx, v, l, rubric, least).yes) ==
            Models(v.yes) +
            if SaysYes(ctx, l, rubric, least) && JudgeKey(l) !in KeysOf(v.yes) then {l.signerModel} else {}
  {
    KeysSnoc(v.yes, (JudgeKey(l), l.signerModel));
    ModelsSnoc(v.yes, (JudgeKey(l), l.signerModel));
  }

  lemma TallySnoc(ctx: Context, init: seq<Loaded>, l: Loaded, rubric: string, least: int)
    ensures Tally(ctx, init + [l], rubric, least) == Counted(ctx, Tally(ctx, init, rubric, least), l, rubric, least)
  {
    assert (init + [l])[..|init|] == init;
  }

  lemma {:induction false} TallyModels(ctx: Context, ls: seq<Loaded>, rubric: string, least: int)
    ensures Models(Tally(ctx, ls, rubric, least).yes) == FirstModels(ctx, ls, rubric, least)
  {
    if ls != [] {
      var init, l := ls[..|ls| - 1], ls[|ls| - 1];
      TallyModels(ctx, init, rubric, least);
      ModelsOneMore(ctx, init, l, rubric, least);
      assert ls == init + [l];
    }
  }

  lemma ModelsOneMore(ctx: Context, init: seq<Loaded>, l: Loaded, rubric: string, least: int)
    requires Models(Tally(ctx, init, rubric, least).yes) == FirstModels(ctx, init, rubric, least)
    ensures Models(Tally(ctx, init + [l], rubric, least).yes) == FirstModels(ctx, init + [l], rubric, least)
  {
    TallySnoc(ctx, init, l, rubric, least);
    TallyKeys(ctx, init, rubric, least);
    CountedModels(ctx, Tally(ctx, init, rubric, least), l, rubric, least);
    FirstModelsSnoc(ctx, init, l, rubric, least);
  }

  /**
   A judge clause holds exactly when no confident judge refuses, enough separate
   agents' judges say yes and, where distinct models are asked for, the judges who
   said it first for their agents are of enough of them. One refusal outweighs any
   number of approvals, one agent counts once, and the order of citations decides
   which of its models counts.
   */
  lemma {:induction false} JudgedExactly(ctx: Context, ls: seq<Loaded>, p: Pred)
    ensures var rubric, least := p.name.GetOr(""), IntArg(p, "min_confidence").GetOr(0);
            var needed := Most(IntArg(p, "judges").GetOr(1), 1);
            Judged(ctx, ls, p) <==>
              && !Refused(ctx, ls, rubric, least)
              && |YesKeys(ctx, ls, rubric, least)| >= needed
              && (FlagArg(p, "distinct_models") ==> |FirstModels(ctx, ls, rubric, least)| >= needed)
  {
    var rubric, least := p.name.GetOr(""), IntArg(p, "min_confidence").GetOr(0);
    TallyRefused(ctx, ls, rubric, least);
    TallyKeys(ctx, ls, rubric, least);
    TallyModels(ctx, ls, rubric, least);
  }
}
