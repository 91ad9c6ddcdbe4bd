/**
 When each kind of condition of a standard is met, said of the units of the revision
 and its parent and of the attestations cited: what changed, who speaks for what.
 */
module ConditionRules {
  import opened Options
  import opened Ids
  import opened Predicates
  import opened Standards
  import opened StandardLaws
  import opened StandardRules

  // --------------------------------------------------------------------- units

  /** The last of the units with that entity. */
  predicate LastOf(units: seq<Unit>, nid: EntityId, u: Unit) {
    exists i | 0 <= i < |units| ::
      units[i] == u && u.nid == nid && forall j | i < j < |units| :: units[j].nid != nid
  }

  /** A unit of the revision that its parent lacks, or last had with another body or name. */
  ghost predicate ChangedUnit(ctx: Context, u: Unit) {
    && ctx.index.Some? && ctx.parentIndex.Some? && u in ctx.index.value
    && forall p | LastOf(ctx.parentIndex.value, u.nid, p) :: p.body != u.body || p.name != u.name
  }

  ghost predicate DeletedUnit(ctx: Context, u: Unit) {
    && ctx.index.Some? && ctx.parentIndex.Some? && u in ctx.parentIndex.value
    && forall x | x in ctx.index.value :: x.nid != u.nid
  }

  ghost predicate InParent(ctx: Context, nid: EntityId) {
    ctx.parentIndex.Some? && exists x :: x in ctx.parentIndex.value && x.nid == nid
  }

  predicate IsTest(u: Unit) {
    u.kind in {"test", "test.skipped"}
  }

  predicate Coverable(u: Unit) {
    u.kind !in {"import", "chunk", "test", "test.skipped", "impl", "module", "variant", "field"}
  }

  /** A changed test that the parent has neither by entity nor by body. */
  ghost predicate NewTest(ctx: Context, u: Unit) {
    && ChangedUnit(ctx, u) && IsTest(u) && !InParent(ctx, u.nid)
    && forall x | x in ctx.parentIndex.value :: x.body != u.body
  }

  lemma {:induction false} PreviousIsLast(units: seq<Unit>, nid: EntityId)
    ensures forall u :: Previous(units, nid) == Some(u) <==> LastOf(units, nid, u)
    ensures Previous(units, nid).None? <==> forall x | x in units :: x.nid != nid
  {
    if units != [] {
      var init, last := units[..|units| - 1], units[|units| - 1];
      PreviousIsLast(init, nid);
      assert units == init + [last];
      forall u ensures Previous(units, nid) == Some(u) <==> LastOf(units, nid, u) {
        LastOfSnoc(init, last, nid, u);
      }
    }
  }

  lemma LastOfSnoc(init: seq<Unit>, last: Unit, nid: EntityId, u: Unit)
    ensures LastOf(init + [last], nid, u) <==> if last.nid == nid then u == last else LastOf(init, nid, u)
  {
    var all := init + [last];
    assert all[|init|] == last && forall j | 0 <= j < |init| :: all[j] == init[j];
    if last.nid == nid {
      assert LastOf(all, nid, last);
    }
    if i :| 0 <= i < |init| && init[i] == u && u.nid == nid && forall j | i < j < |init| :: init[j].nid != nid {
      assert all[i] == u;
    }
    if i :| 0 <= i < |all| && all[i] == u && u.nid == nid && forall j | i < j < |all| :: all[j].nid != nid {
      assert i < |init| ==> init[i] == u && forall j | i < j < |init| :: init[j] == all[j];
    }
  }

  lemma {:induction false} WhereMembers(units: seq<Unit>, keep: Unit -> bool)
    ensures forall u :: u in Where(units, keep) <==> u in units && keep(u)
    ensures Where(units, keep) == [] <==> forall u | u in units :: !keep(u)
  {
    if units != [] {
      WhereMembers(units[1..], keep);
      assert units == [units[0]] + units[1..];
      assert units[0] in units;
      forall u ensures u in Where(units, keep) <==> u in units && keep(u) {
        assert u in units <==> u == units[0] || u in units[1..];
      }
    }
  }

  lemma ChangedMembers(ctx: Context)
    ensures ChangedUnits(ctx).Some? <==> ctx.index.Some? && ctx.parentIndex.Some?
    ensures ChangedUnits(ctx).Some? ==> forall u :: u in ChangedUnits(ctx).value <==> ChangedUnit(ctx, u)
  {
    if ctx.index.Some? && ctx.parentIndex.Some? {
      WhereMembers(ctx.index.value, (u: Unit) => Changed(ctx.parentIndex.value, u));
      forall u ensures Changed(ctx.parentIndex.value, u) <==>
                       forall p | LastOf(ctx.parentIndex.value, u.nid, p) :: p.body != u.body || p.name != u.name
      {
        PreviousIsLast(ctx.parentIndex.value, u.nid);
        var was := Previous(ctx.parentIndex.value, u.nid);
        assert was.Some? ==> LastOf(ctx.parentIndex.value, u.nid, was.value);
      }
    }
  }

  lemma DeletedMembers(ctx: Context)
    ensures DeletedUnits(ctx).Some? <==> ctx.index.Some? && ctx.parentIndex.Some?
    ensures DeletedUnits(ctx).Some? ==> forall u :: u in DeletedUnits(ctx).value <==> DeletedUnit(ctx, u)
  {
    if ctx.index.Some? && ctx.parentIndex.Some? {
      WhereMembers(ctx.parentIndex.value, (u: Unit) => !HasUnit(ctx.index.value, u.nid));
      forall u: Unit ensures HasUnit(ctx.index.value, u.nid) <==> !forall x | x in ctx.index.value :: x.nid != u.nid {
        PreviousIsLast(ctx.index.value, u.nid);
      }
    }
  }

  // ---------------------------------------------------------------- structural

  ghost predicate Indexed(ctx: Context) {
    ctx.index.Some? && ctx.parentIndex.Some?
  }

  predicate Named(s: string) {
    && s != "" && !('0' <= s[0] <= '9')
    && forall c | c in s :: 'a' <= c <= 'z' || 'A' <= c <= 'Z' || '0' <= c <= '9' || c == '_'
  }

  /** A changed unit that can be covered and that no test of the revision calls. */
  ghost predicate Uncovered(ctx: Context, u: Unit) {
    && ChangedUnit(ctx, u) && Coverable(u) && Named(u.name)
    && forall t | t in ctx.index.value && t.kind == "test" :: u.nid !in t.deps
  }

  ghost predicate ModifiedTest(ctx: Context, u: Unit) {
    ChangedUnit(ctx, u) && IsTest(u) && InParent(ctx, u.nid)
  }

  ghost predicate DeletedTest(ctx: Context, u: Unit) {
    DeletedUnit(ctx, u) && IsTest(u)
  }

  ghost predicate StructuralMet(ctx: Context, name: string) {
    || (name == "flags.none" && ctx.unflagged)
    || (name == "intent.linked" && ctx.intentLinked)
    || (name in {"test.modified", "test.weakened"} && exists u :: ModifiedTest(ctx, u))
    || (name in {"test.deleted", "test.weakened"} && exists u :: DeletedTest(ctx, u))
    || (name == "test.skipped" && exists u :: ChangedUnit(ctx, u) && u.kind == "test.skipped")
    || (name == "changed.covered" && Indexed(ctx) && forall u :: !Uncovered(ctx, u))
  }

  lemma SomeUnit(units: seq<Unit>)
    ensures units != [] <==> exists u :: u in units
  {
    if units != [] {
      assert units[0] in units;
    }
  }

  lemma HasUnitInParent(ctx: Context)
    requires ctx.parentIndex.Some?
    ensures forall nid :: HasUnit(ctx.parentIndex.value, nid) <==> InParent(ctx, nid)
  {
    forall nid ensures HasUnit(ctx.parentIndex.value, nid) <==> InParent(ctx, nid) {
      PreviousIsLast(ctx.parentIndex.value, nid);
    }
  }

  lemma ModifiedExactly(ctx: Context)
    requires Indexed(ctx)
    ensures StructuralUnits(ctx, "test.modified").value != [] <==> exists u :: ModifiedTest(ctx, u)
  {
    ChangedMembers(ctx);
    HasUnitInParent(ctx);
    var keep := (u: Unit) => ctx.parentIndex.Some? && TestKind(u.kind) && HasUnit(ctx.parentIndex.value, u.nid);
    var modified := Where(ChangedUnits(ctx).value, keep);
    assert StructuralUnits(ctx, "test.modified") == Some(modified);
    WhereMembers(ChangedUnits(ctx).value, keep);
    forall u ensures u in modified <==> ModifiedTest(ctx, u) {
    }
    SomeUnit(modified);
  }

  lemma DeletedExactly(ctx: Context)
    requires Indexed(ctx)
    ensures StructuralUnits(ctx, "test.deleted").value != [] <==> exists u :: DeletedTest(ctx, u)
  {
    DeletedMembers(ctx);
    var keep := (u: Unit) => TestKind(u.kind);
    var gone := Where(DeletedUnits(ctx).value, keep);
    assert StructuralUnits(ctx, "test.deleted") == Some(gone);
    WhereMembers(DeletedUnits(ctx).value, keep);
    forall u ensures u in gone <==> DeletedTest(ctx, u) {
    }
    SomeUnit(gone);
  }

  lemma SkippedExactly(ctx: Context)
    requires Indexed(ctx)
    ensures StructuralUnits(ctx, "test.skipped").value != [] <==>
            exists u :: ChangedUnit(ctx, u) && u.kind == "test.skipped"
  {
    ChangedMembers(ctx);
    WhereMembers(ChangedUnits(ctx).value, (u: Unit) => u.kind == "test.skipped");
    SomeUnit(StructuralUnits(ctx, "test.skipped").value);
  }

  lemma CallsExactly(units: seq<Unit>, nid: EntityId)
    ensures TestCalls(units, nid) <==> !forall t | t in units && t.kind == "test" :: nid !in t.deps
  {
    if TestCalls(units, nid) {
      var i :| 0 <= i < |units| && units[i].kind == "test" && nid in units[i].deps;
      assert units[i] in units;
    }
  }

  lemma NamedExactly(s: string)
    ensures Identifier(s) <==> Named(s)
  {
    if s != "" {
      assert s[0] in s;
    }
  }

  lemma UncoveredExactly(ctx: Context, u: Unit)
    requires Indexed(ctx)
    ensures Uncovered(ctx, u) <==>
            && ChangedUnit(ctx, u) && u.kind !in UNCOVERABLE_KINDS && Identifier(u.name)
            && !TestCalls(ctx.index.value, u.nid)
  {
    NamedExactly(u.name);
    CallsExactly(ctx.index.value, u.nid);
  }

  lemma CoveredExactly(ctx: Context)
    ensures Structural(ctx, Some("changed.covered")) <==> Indexed(ctx) && forall u :: !Uncovered(ctx, u)
  {
    ChangedMembers(ctx);
    if Indexed(ctx) {
      var keep := (u: Unit) =>
        && ctx.index.Some? && u.kind !in UNCOVERABLE_KINDS
        && Identifier(u.name) && !TestCalls(ctx.index.value, u.nid);
      var left := Where(ChangedUnits(ctx).value, keep);
      assert Structural(ctx, Some("changed.covered")) <==> left == [];
      WhereMembers(ChangedUnits(ctx).value, keep);
      forall u ensures u in left <==> Uncovered(ctx, u) {
        UncoveredExactly(ctx, u);
      }
      SomeUnit(left);
    }
  }

  lemma UnitsExactly(ctx: Context, name: string)
    requires name in {"test.modified", "test.deleted", "test.weakened", "test.skipped"}
    ensures Structural(ctx, Some(name)) <==> StructuralMet(ctx, name)
  {
    ChangedMembers(ctx);
    DeletedMembers(ctx);
    if Indexed(ctx) {
      if name == "test.skipped" {
        SkippedExactly(ctx);
      } else {
        ModifiedExactly(ctx);
        DeletedExactly(ctx);
      }
    }
  }

  /** Each structural condition; one of any other name is never met. */
  lemma StructuralExactly(ctx: Context, name: string)
    ensures Structural(ctx, Some(name)) <==> StructuralMet(ctx, name)
  {
    if name in {"test.modified", "test.deleted", "test.weakened", "test.skipped"} {
      UnitsExactly(ctx, name);
    } else if name == "changed.covered" {
      CoveredExactly(ctx);
    }
  }

  // -------------------------------------------------------------- attestations

  ghost predicate Affirms(v: Value) {
    v == Bool(true) || v.Int? || v.Text? || v.Array? || (v.Map? && (Text("ok"), Bool(true)) in v.entries)
  }

  /** A signer the standard trusts. */
  ghost predicate Credible(l: Loaded) {
    && l.signerKind.Some?
    && l.signerKind.value in {"verifier", "daemon", "hook", "external", "human", "observer", "deployer"}
  }

  ghost predicate Speaks(l: Loaded, kind: string, own: bool) {
    l.att.kind == kind && Affirms(l.att.result) && (own || Credible(l))
  }

  ghost predicate Concerns(ctx: Context, l: Loaded) {
    exists s :: s in ctx.subjects && l.att.subject == Some(s)
  }

  ghost predicate SpokenFor(ls: seq<Loaded>, kind: string, own: bool, body: Oid) {
    exists l :: l in ls && Speaks(l, kind, own) && body in l.att.bodies
  }

  ghost predicate Arg(p: Pred, key: string, v: Value) {
    p.args.Some? && key in p.args.value && p.args.value[key] == v
  }

  ghost predicate NameIs(p: Pred, otherwise: string, name: string) {
    name == if p.name.Some? then p.name.value else otherwise
  }

  /** Without a scope, the subject or the bodies of all changed units are spoken for; a scope names its units. */
  ghost predicate AttestMet(ctx: Context, ls: seq<Loaded>, kind: string, own: bool, over: Option<string>) {
    match over
    case None =>
      || (exists l :: l in ls && Speaks(l, kind, own) && Concerns(ctx, l))
      || (&& (exists u :: ChangedUnit(ctx, u) && (Coverable(u) || IsTest(u)))
          && forall u | ChangedUnit(ctx, u) && (Coverable(u) || IsTest(u)) :: SpokenFor(ls, kind, own, u.body))
    case Some(name) =>
      || (name == "new_tests" && Indexed(ctx) && forall u | NewTest(ctx, u) :: SpokenFor(ls, kind, own, u.body))
      || (name == "changed_nodes" && Indexed(ctx) &&
          forall u | ChangedUnit(ctx, u) && Coverable(u) :: SpokenFor(ls, kind, own, u.body))
  }

  lemma TruthyExactly(v: Value)
    ensures Truthy(v) <==> Affirms(v)
  {
    if v.Map? && (Text("ok"), Bool(true)) in v.entries {
      var i :| 0 <= i < |v.entries| && v.entries[i] == (Text("ok"), Bool(true));
    }
  }

  lemma SaysExactly(l: Loaded, kind: string, own: bool)
    ensures Says(l, kind, own) <==> Speaks(l, kind, own)
  {
    TruthyExactly(l.att.result);
  }

  lemma SubjectExactly(ctx: Context, ls: seq<Loaded>, kind: string, own: bool)
    ensures SubjectAttested(ctx, ls, kind, own) <==> exists l :: l in ls && Speaks(l, kind, own) && Concerns(ctx, l)
  {
    forall l ensures Says(l, kind, own) <==> Speaks(l, kind, own) {
      SaysExactly(l, kind, own);
    }
    if l :| l in ls && Speaks(l, kind, own) && Concerns(ctx, l) {
      var i :| 0 <= i < |ls| && ls[i] == l;
    }
  }

  lemma BodyExactly(ls: seq<Loaded>, kind: string, own: bool, body: Oid)
    ensures BodyAttested(ls, kind, own, body) <==> SpokenFor(ls, kind, own, body)
  {
    forall l ensures Says(l, kind, own) <==> Speaks(l, kind, own) {
      SaysExactly(l, kind, own);
    }
    if l :| l in ls && Speaks(l, kind, own) && body in l.att.bodies {
      var i :| 0 <= i < |ls| && ls[i] == l;
    }
  }

  lemma BodiesExactly(ls: seq<Loaded>, kind: string, own: bool, units: seq<Unit>)
    ensures BodiesAttested(ls, kind, own, units) <==> forall u | u in units :: SpokenFor(ls, kind, own, u.body)
  {
    forall i | 0 <= i < |units|
      ensures BodyAttested(ls, kind, own, units[i].body) <==> SpokenFor(ls, kind, own, units[i].body)
    {
      BodyExactly(ls, kind, own, units[i].body);
    }
    if BodiesAttested(ls, kind, own, units) {
      forall u | u in units ensures SpokenFor(ls, kind, own, u.body) {
        var i :| 0 <= i < |units| && units[i] == u;
      }
    }
  }

  lemma NewTestMembers(ctx: Context)
    ensures NewTests(ctx).Some? <==> Indexed(ctx)
    ensures NewTests(ctx).Some? ==> forall u :: u in NewTests(ctx).value <==> NewTest(ctx, u)
  {
    ChangedMembers(ctx);
    if Indexed(ctx) {
      HasUnitInParent(ctx);
      WhereMembers(ChangedUnits(ctx).value, (u: Unit) =>
        ctx.parentIndex.Some? && TestKind(u.kind) && !HasUnit(ctx.parentIndex.value, u.nid)
        && !HasBody(ctx.parentIndex.value, u.body));
      forall body
        ensures HasBody(ctx.parentIndex.value, body) <==> !forall x | x in ctx.parentIndex.value :: x.body != body
      {
        if HasBody(ctx.parentIndex.value, body) {
          var i :| 0 <= i < |ctx.parentIndex.value| && ctx.parentIndex.value[i].body == body;
          assert ctx.parentIndex.value[i] in ctx.parentIndex.value;
        }
      }
    }
  }

  /** All the units given are spoken for, when the units kept are those asked about. */
  lemma KeptSpokenFor(ls: seq<Loaded>, kind: string, own: bool, units: seq<Unit>, keep: Unit -> bool)
    ensures BodiesAttested(ls, kind, own, Where(units, keep)) <==>
            forall u | u in units && keep(u) :: SpokenFor(ls, kind, own, u.body)
  {
    BodiesExactly(ls, kind, own, Where(units, keep));
    WhereMembers(units, keep);
  }

  lemma ScopelessExactly(ctx: Context, ls: seq<Loaded>, p: Pred)
    requires TextArg(p, "for").None?
    ensures Attested(ctx, ls, p) <==> AttestMet(ctx, ls, p.name.GetOr(""), FlagArg(p, "self"), None)
  {
    var kind, own := p.name.GetOr(""), FlagArg(p, "self");
    SubjectExactly(ctx, ls, kind, own);
    ChangedMembers(ctx);
    if Indexed(ctx) {
      var keep := (u: Unit) => u.kind !in UNCOVERABLE_KINDS || TestKind(u.kind);
      var coverable := Where(ChangedUnits(ctx).value, keep);
      WhereMembers(ChangedUnits(ctx).value, keep);
      KeptSpokenFor(ls, kind, own, ChangedUnits(ctx).value, keep);
      forall u ensures u in coverable <==> ChangedUnit(ctx, u) && (Coverable(u) || IsTest(u)) {
      }
      SomeUnit(coverable);
    }
  }

  lemma ScopedExactly(ctx: Context, ls: seq<Loaded>, p: Pred)
    requires TextArg(p, "for").Some?
    ensures Attested(ctx, ls, p) <==> AttestMet(ctx, ls, p.name.GetOr(""), FlagArg(p, "self"), TextArg(p, "for"))
  {
    var kind, own := p.name.GetOr(""), FlagArg(p, "self");
    ChangedMembers(ctx);
    NewTestMembers(ctx);
    if Indexed(ctx) {
      var keep := (u: Unit) => u.kind !in UNCOVERABLE_KINDS;
      KeptSpokenFor(ls, kind, own, ChangedUnits(ctx).value, keep);
      BodiesExactly(ls, kind, own, NewTests(ctx).value);
    }
  }

  ghost predicate ForText(p: Pred, over: Option<string>) {
    match over
    case Some(t) => Arg(p, "for", Text(t))
    case None => forall t :: !Arg(p, "for", Text(t))
  }

  /** An `attest` condition, by the kind it names, its scope and whether the author's own word counts. */
  lemma AttestExactly(ctx: Context, ls: seq<Loaded>, p: Pred, kind: string, over: Option<string>)
    requires p.kind == "attest" && NameIs(p, "", kind) && ForText(p, over)
    ensures Met(ctx, ls, p) <==> AttestMet(ctx, ls, kind, Arg(p, "self", Bool(true)), over)
  {
    MetHolds(ctx, ls, p);
    var own := FlagArg(p, "self");
    assert own <==> Arg(p, "self", Bool(true));
    assert TextArg(p, "for") == over by {
      if TextArg(p, "for").Some? {
        assert Arg(p, "for", Text(TextArg(p, "for").value));
      }
    }
    if over.None? {
      ScopelessExactly(ctx, ls, p);
    } else {
      ScopedExactly(ctx, ls, p);
    }
  }

  /** An `approved` condition is met by a human's truthful approval of the revision, without a runner if asked. */
  lemma ApprovedExactly(ctx: Context, ls: seq<Loaded>, p: Pred)
    requires p.kind == "approved"
    ensures Met(ctx, ls, p) <==>
            && NameIs(p, "human", "human")
            && exists l :: l in ls && l.att.kind == "approval.human" && Affirms(l.att.result) && Concerns(ctx, l)
                 && l.signerKind == Some("human") && (Arg(p, "keysigned", Bool(true)) ==> !l.att.byRunner)
  {
    MetHolds(ctx, ls, p);
    forall l: Loaded ensures Truthy(l.att.result) <==> Affirms(l.att.result) {
      TruthyExactly(l.att.result);
    }
    if l :| l in ls && l.att.kind == "approval.human" && Affirms(l.att.result) && Concerns(ctx, l)
            && l.signerKind == Some("human") && (Arg(p, "keysigned", Bool(true)) ==> !l.att.byRunner) {
      var i :| 0 <= i < |ls| && ls[i] == l;
    }
  }

  /** A `structural` condition needs a name; any kind of predicate not listed here is never met. */
  lemma OtherExactly(ctx: Context, ls: seq<Loaded>, p: Pred)
    ensures p.kind == "structural" ==> (Met(ctx, ls, p) <==> p.name.Some? && StructuralMet(ctx, p.name.value))
    ensures p.kind !in {"structural", "attest", "all", "any", "not", "approved", "judge", "observe"} ==>
              !Met(ctx, ls, p)
  {
    MetHolds(ctx, ls, p);
    if p.name.Some? {
      StructuralExactly(ctx, p.name.value);
    }
  }

  // -------------------------------------------------------------------- judges

  /** The last confidence of a result map; certain where there is none. */
  ghost predicate ConfidenceIs(v: Value, n: int) {
    if v.Map? && exists i :: StatesConfidence(v.entries, i) then
      exists i ::
        && StatesConfidence(v.entries, i) && n == Stated(v.entries[i].1)
        && forall j | StatesConfidence(v.entries, j) :: j <= i
    else n == 1000
  }

  predicate IsConfidence(entry: (Value, Value)) {
    entry.0 == Text("confidence") && (entry.1.Int? || entry.1.Float?)
  }

  predicate StatesConfidence(entries: seq<(Value, Value)>, i: int) {
    0 <= i < |entries| && IsConfidence(entries[i])
  }

  function Stated(v: Value): int
    requires v.Int? || v.Float?
  {
    if v.Int? then v.n else v.permille
  }

  /** A confident verdict on the revision under the rubric, by a judge of another agent than the author's. */
  ghost predicate Verdict(ctx: Context, l: Loaded, rubric: string, least: int) {
    && l.att.kind == "judge." + rubric && Concerns(ctx, l)
    && (l.signerParent.None? || l.signerParent != ctx.authorParent)
    && exists n :: ConfidenceIs(l.att.result, n) && n >= least
  }

  /** `l` is the first in its agent's name to approve. */
  ghost predicate FirstToApprove(ctx: Context, ls: seq<Loaded>, rubric: string, least: int, i: nat) {
    && i < |ls| && Verdict(ctx, ls[i], rubric, least) && Affirms(ls[i].att.result)
    && forall j | 0 <= j < i && Verdict(ctx, ls[j], rubric, least) && Affirms(ls[j].att.result) ::
         AgentOf(ls[j]) != AgentOf(ls[i])
  }

  function AgentOf(l: Loaded): EntityId {
    if l.signerParent.Some? then l.signerParent.value else l.att.verifier
  }

  lemma ConfidenceSnoc(init: seq<(Value, Value)>, last: (Value, Value), n: int)
    ensures ConfidenceIs(Map(init + [last]), n) <==>
            if IsConfidence(last) then n == Stated(last.1) else ConfidenceIs(Map(init), n)
  {
    var all := init + [last];
    assert all[|init|] == last && forall j | 0 <= j < |init| :: all[j] == init[j];
    forall i ensures StatesConfidence(all, i) <==> StatesConfidence(init, i) || (i == |init| && IsConfidence(last)) {
    }
    if IsConfidence(last) {
      assert StatesConfidence(all, |init|);
    }
  }

  lemma {:induction false} LastConfidenceExactly(entries: seq<(Value, Value)>, n: int)
    ensures ConfidenceIs(Map(entries), n) <==> n == LastConfidence(entries)
  {
    if entries != [] {
      var init, last := entries[..|entries| - 1], entries[|entries| - 1];
      LastConfidenceExactly(init, n);
      ConfidenceSnoc(init, last, n);
      assert entries == init + [last];
    }
  }

  lemma ConfidenceExactly(v: Value, n: int)
    ensures ConfidenceIs(v, n) <==> n == Confidence(v)
  {
    if v.Map? {
      LastConfidenceExactly(v.entries, n);
      assert v == Map(v.entries);
    }
  }

  lemma VerdictExactly(ctx: Context, l: Loaded, rubric: string, least: int)
    ensures Verdict(ctx, l, rubric, least) <==> Judges(ctx, l, rubric) && Confident(l, least)
  {
    forall n ensures ConfidenceIs(l.att.result, n) <==> n == Confidence(l.att.result) {
      ConfidenceExactly(l.att.result, n);
    }
    assert ConfidenceIs(l.att.result, Confidence(l.att.result));
  }

  /** The argument is this number, or text that reads as it. */
  ghost predicate Given(p: Pred, key: string, n: int) {
    Arg(p, key, Int(n)) || exists t :: Arg(p, key, Text(t)) && ParseInt(t) == Some(n)
  }

  ghost predicate NumberIs(p: Pred, key: string, otherwise: int, n: int) {
    if exists m :: Given(p, key, m) then Given(p, key, n) else n == otherwise
  }

  lemma GivenExactly(p: Pred, key: string)
    ensures forall n :: IntArg(p, key) == Some(n) <==> Given(p, key, n)
  {
    forall n ensures IntArg(p, key) == Some(n) <==> Given(p, key, n) {
      if ArgOf(p, key).Some? && ArgOf(p, key).value.Text? {
        assert Arg(p, key, Text(ArgOf(p, key).value.t));
      }
    }
  }

  lemma NumberExactly(p: Pred, key: string, otherwise: int, n: int)
    ensures NumberIs(p, key, otherwise, n) <==> n == IntArg(p, key).GetOr(otherwise)
  {
    GivenExactly(p, key);
    if IntArg(p, key).Some? {
      assert Given(p, key, IntArg(p, key).value);
    }
  }

  /** The agents in whose name a judge approves. */
  ghost function Approvers(ctx: Context, ls: seq<Loaded>, rubric: string, least: int): set<EntityId> {
    set l | l in ls && Verdict(ctx, l, rubric, least) && Affirms(l.att.result) :: AgentOf(l)
  }

  /** The models of the judges who were first to approve in their agents' names. */
  ghost function ApproverModels(ctx: Context, ls: seq<Loaded>, rubric: string, least: int): set<Option<string>> {
    set i: nat | i < |ls| && FirstToApprove(ctx, ls, rubric, least, i) :: ls[i].signerModel
  }

  lemma YesExactly(ctx: Context, l: Loaded, rubric: string, least: int)
    ensures SaysYes(ctx, l, rubric, least) <==> Verdict(ctx, l, rubric, least) && Affirms(l.att.result)
    ensures SaysNo(ctx, l, rubric, least) <==> Verdict(ctx, l, rubric, least) && !Affirms(l.att.result)
  {
    VerdictExactly(ctx, l, rubric, least);
    TruthyExactly(l.att.result);
  }

  lemma ApproversExactly(ctx: Context, ls: seq<Loaded>, rubric: string, least: int)
    ensures YesKeys(ctx, ls, rubric, least) == Approvers(ctx, ls, rubric, least)
    ensures FirstModels(ctx, ls, rubric, least) == ApproverModels(ctx, ls, rubric, least)
    ensures Refused(ctx, ls, rubric, least) <==>
            exists l :: l in ls && Verdict(ctx, l, rubric, least) && !Affirms(l.att.result)
  {
    forall l
      ensures SaysYes(ctx, l, rubric, least) <==> Verdict(ctx, l, rubric, least) && Affirms(l.att.result)
      ensures SaysNo(ctx, l, rubric, least) <==> Verdict(ctx, l, rubric, least) && !Affirms(l.att.result)
    {
      YesExactly(ctx, l, rubric, least);
    }
    forall i: nat | i < |ls|
      ensures FirstYes(ctx, ls, rubric, least, i) <==> FirstToApprove(ctx, ls, rubric, least, i)
    {
    }
    forall k | k in Approvers(ctx, ls, rubric, least) ensures k in YesKeys(ctx, ls, rubric, least) {
      var l :| l in ls && Verdict(ctx, l, rubric, least) && Affirms(l.att.result) && AgentOf(l) == k;
      var i :| 0 <= i < |ls| && ls[i] == l;
      assert SaysYes(ctx, ls[i], rubric, least);
    }
    if l :| l in ls && Verdict(ctx, l, rubric, least) && !Affirms(l.att.result) {
      var i :| 0 <= i < |ls| && ls[i] == l;
      assert SaysNo(ctx, ls[i], rubric, least);
    }
  }

  ghost predicate JudgeMet(ctx: Context, ls: seq<Loaded>, rubric: string, needed: int, least: int, distinct: bool) {
    && (forall l | l in ls && Verdict(ctx, l, rubric, least) :: Affirms(l.att.result))
    && |Approvers(ctx, ls, rubric, least)| >= needed
    && (distinct ==> |ApproverModels(ctx, ls, rubric, least)| >= needed)
  }

  lemma JudgedMet(ctx: Context, ls: seq<Loaded>, p: Pred)
    ensures Judged(ctx, ls, p) <==>
            JudgeMet(ctx, ls, p.name.GetOr(""), Most(IntArg(p, "judges").GetOr(1), 1),
                     IntArg(p, "min_confidence").GetOr(0), FlagArg(p, "distinct_models"))
  {
    ApproversExactly(ctx, ls, p.name.GetOr(""), IntArg(p, "min_confidence").GetOr(0));
    JudgedExactly(ctx, ls, p);
  }

  /** A `judge` condition: nobody refuses, enough agents approve and, if asked, with as many models. */
  lemma JudgeExactly(ctx: Context, ls: seq<Loaded>, p: Pred, rubric: string, judges: int, least: int)
    requires p.kind == "judge" && NameIs(p, "", rubric)
    requires NumberIs(p, "judges", 1, judges) && NumberIs(p, "min_confidence", 0, least)
    ensures Met(ctx, ls, p) <==>
            JudgeMet(ctx, ls, rubric, if judges > 1 then judges else 1, least, Arg(p, "distinct_models", Bool(true)))
  {
    MetHolds(ctx, ls, p);
    NumberExactly(p, "judges", 1, judges);
    NumberExactly(p, "min_confidence", 0, least);
    JudgedMet(ctx, ls, p);
    assert FlagArg(p, "distinct_models") <==> Arg(p, "distinct_models", Bool(true));
  }

  // -------------------------------------------------------------- observations

  ghost predicate Sighting(ctx: Context, l: Loaded, signal: string) {
    l.att.kind == "observe." + signal && Concerns(ctx, l) && Credible(l)
  }

  /** The latest sighting; of several at one time, the last cited. */
  ghost predicate LatestSighting(ctx: Context, ls: seq<Loaded>, signal: string, a: Attestation) {
    exists i | 0 <= i < |ls| ::
      && ls[i].att == a && Sighting(ctx, ls[i], signal)
      && forall j | 0 <= j < |ls| && Sighting(ctx, ls[j], signal) ::
           ls[j].att.time < a.time || (ls[j].att.time == a.time && j <= i)
  }

  predicate Measures(v: Value, n: int) {
    match v
    case Int(m) => n == m
    case Float(m) => n == m
    case _ => n == 0
  }

  lemma {:induction false} LatestSightingExactly(ctx: Context, ls: seq<Loaded>, signal: string)
    ensures forall a :: LatestObserved(ctx, ls, signal) == Some(a) <==> LatestSighting(ctx, ls, signal, a)
    ensures LatestObserved(ctx, ls, signal).None? <==> forall l | l in ls :: !Sighting(ctx, l, signal)
  {
    if ls != [] {
      var init, last := ls[..|ls| - 1], ls[|ls| - 1];
      LatestSightingExactly(ctx, init, signal);
      assert ls == init + [last];
      forall a ensures LatestObserved(ctx, ls, signal) == Some(a) <==> LatestSighting(ctx, ls, signal, a) {
        SightingSnoc(ctx, init, last, signal, a);
      }
    }
  }

  lemma SightingSnoc(ctx: Context, init: seq<Loaded>, last: Loaded, signal: string, a: Attestation)
    requires forall x :: LatestObserved(ctx, init, signal) == Some(x) <==> LatestSighting(ctx, init, signal, x)
    requires LatestObserved(ctx, init, signal).None? <==> forall l | l in init :: !Sighting(ctx, l, signal)
    ensures LatestSighting(ctx, init + [last], signal, a) <==>
            var before := LatestObserved(ctx, init, signal);
            if Sighting(ctx, last, signal) && (before.None? || last.att.time >= before.value.time) then a == last.att
            else before == Some(a)
  {
    var all, before := init + [last], LatestObserved(ctx, init, signal);
    assert all[|init|] == last && forall j | 0 <= j < |init| :: all[j] == init[j];
    if before.Some? {
      assert LatestSighting(ctx, init, signal, before.value);
    }
  }

  /** An `observe` condition is met by the latest trusted measurement of the signal, within the bounds given. */
  lemma ObserveExactly(ctx: Context, ls: seq<Loaded>, p: Pred, signal: string)
    requires p.kind == "observe" && NameIs(p, "", signal)
    ensures Met(ctx, ls, p) <==>
            exists a, n: int ::
              && LatestSighting(ctx, ls, signal, a) && Measures(a.result, n)
              && (forall m | Given(p, "max", m) :: n <= m) && (forall m | Given(p, "min", m) :: m <= n)
  {
    MetHolds(ctx, ls, p);
    LatestSightingExactly(ctx, ls, signal);
    GivenExactly(p, "max");
    GivenExactly(p, "min");
    var latest := LatestObserved(ctx, ls, signal);
    if latest.Some? {
      var n := match latest.value.result case Int(m) => m case Float(m) => m case _ => 0;
      assert Measures(latest.value.result, n);
      WithinExactly(p, n);
    }
  }

  lemma WithinExactly(p: Pred, n: int)
    ensures (forall m | Given(p, "max", m) :: n <= m) <==> (IntArg(p, "max").Some? ==> n <= IntArg(p, "max").value)
    ensures (forall m | Given(p, "min", m) :: m <= n) <==> (IntArg(p, "min").Some? ==> IntArg(p, "min").value <= n)
  {
    GivenExactly(p, "max");
    GivenExactly(p, "min");
    if IntArg(p, "max").Some? {
      assert Given(p, "max", IntArg(p, "max").value);
    }
    if IntArg(p, "min").Some? {
      assert Given(p, "min", IntArg(p, "min").value);
    }
  }
}
