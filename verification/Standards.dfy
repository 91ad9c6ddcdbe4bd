/**
 What evaluating a standard for a revision with the attestations cited says: which
 of its clauses are unmet.
 */
module Standards {
  import opened Options
  import opened Ids
  import opened Predicates

  datatype Unit = Unit(nid: EntityId, body: Oid, name: string, kind: string, deps: seq<EntityId>)

  datatype Attestation = Attestation(
    kind: string, subject: Option<Oid>, bodies: seq<Oid>, result: Value, byRunner: bool, verifier: EntityId, time: int)

  /** An attestation with what is known of its signer at the view. */
  datatype Loaded = Loaded(
    att: Attestation, signerKind: Option<string>, signerParent: Option<EntityId>, signerModel: Option<string>)

  datatype Context = Context(
    unflagged: bool,
    intentLinked: bool,
    subjects: set<Oid>,
    index: Option<seq<Unit>>,
    parentIndex: Option<seq<Unit>>,
    authorParent: Option<EntityId>)

  datatype Clause = Clause(op: string, pred: Pred, unlessPred: Option<Pred>)

  datatype RiskClauses = RiskClauses(atLeast: string, clauses: seq<Clause>)

  datatype Standard = Standard(clauses: seq<Clause>, whens: seq<RiskClauses>)

  const TRUSTED_ATTESTERS := ["verifier", "daemon", "hook", "external", "human", "observer", "deployer"]

  const UNCOVERABLE_KINDS := ["import", "chunk", "test", "test.skipped", "impl", "module", "variant", "field"]

  // ------------------------------------------------------------------ the units

  /** The last unit of that entity. */
  function Previous(units: seq<Unit>, nid: EntityId): Option<Unit> {
    if units == [] then None
    else if units[|units| - 1].nid == nid then Some(units[|units| - 1])
    else Previous(units[..|units| - 1], nid)
  }

  function Where(units: seq<Unit>, keep: Unit -> bool): seq<Unit> {
    if units == [] then [] else (if keep(units[0]) then [units[0]] else []) + Where(units[1..], keep)
  }

  predicate HasUnit(units: seq<Unit>, nid: EntityId) {
    Previous(units, nid).Some?
  }

  predicate Changed(parent: seq<Unit>, u: Unit) {
    match Previous(parent, u.nid)
    case None => true
    case Some(p) => p.body != u.body || p.name != u.name
  }

  function ChangedUnits(ctx: Context): Option<seq<Unit>> {
    if ctx.index.None? || ctx.parentIndex.None? then None
    else Some(Where(ctx.index.value, (u: Unit) => Changed(ctx.parentIndex.value, u)))
  }

  function DeletedUnits(ctx: Context): Option<seq<Unit>> {
    if ctx.index.None? || ctx.parentIndex.None? then None
    else Some(Where(ctx.parentIndex.value, (u: Unit) => !HasUnit(ctx.index.value, u.nid)))
  }

  predicate TestKind(kind: string) {
    kind == "test" || kind == "test.skipped"
  }

  predicate HasBody(units: seq<Unit>, body: Oid) {
    exists i | 0 <= i < |units| :: units[i].body == body
  }

  function NewTests(ctx: Context): Option<seq<Unit>> {
    match ChangedUnits(ctx)
    case None => None
    case Some(changed) =>
      Some(Where(changed, (u: Unit) =>
        ctx.parentIndex.Some? && TestKind(u.kind) && !HasUnit(ctx.parentIndex.value, u.nid)
        && !HasBody(ctx.parentIndex.value, u.body)))
  }

  /** Units that a structural condition asks about. */
  function StructuralUnits(ctx: Context, name: string): Option<seq<Unit>> {
    var changed, deleted := ChangedUnits(ctx), DeletedUnits(ctx);
    if changed.None? || deleted.None? then None
    else
      var modified := Where(changed.value, (u: Unit) =>
        ctx.parentIndex.Some? && TestKind(u.kind) && HasUnit(ctx.parentIndex.value, u.nid));
      var gone := Where(deleted.value, (u: Unit) => TestKind(u.kind));
      if name == "test.modified" then Some(modified)
      else if name == "test.deleted" then Some(gone)
      else if name == "test.weakened" then Some(modified + gone)
      else if name == "test.skipped" then Some(Where(changed.value, (u: Unit) => u.kind == "test.skipped"))
      else None
  }

  predicate Identifier(s: string) {
    && s != "" && (Letter(s[0]) || s[0] == '_')
    && forall c | c in s :: Letter(c) || IsDigit(c) || c == '_'
  }

  predicate Letter(c: char) {
    'a' <= c <= 'z' || 'A' <= c <= 'Z'
  }

  predicate TestCalls(units: seq<Unit>, nid: EntityId) {
    exists i | 0 <= i < |units| :: units[i].kind == "test" && nid in units[i].deps
  }

  predicate Structural(ctx: Context, name: Option<string>) {
    if name == Some("flags.none") then ctx.unflagged
    else if name == Some("intent.linked") then ctx.intentLinked
    else if name == Some("changed.covered") then
      ctx.index.Some? && ChangedUnits(ctx).Some?
      && Where(ChangedUnits(ctx).value, (u: Unit) =>
           && ctx.index.Some? && u.kind !in UNCOVERABLE_KINDS
           && Identifier(u.name) && !TestCalls(ctx.index.value, u.nid)) == []
    else
      name.Some? && match StructuralUnits(ctx, name.value) case Some(units) => units != [] case None => false
  }

  // -------------------------------------------------------------- attestations

  predicate Truthy(v: Value) {
    match v
    case Bool(b) => b
    case Map(entries) => exists i | 0 <= i < |entries| :: entries[i] == (Text("ok"), Bool(true))
    case Int(_) => true
    case Text(_) => true
    case Array(_) => true
    case _ => false
  }

  predicate Trusted(l: Loaded) {
    l.signerKind.Some? && l.signerKind.value in TRUSTED_ATTESTERS
  }

  predicate OnSubject(ctx: Context, l: Loaded) {
    l.att.subject.Some? && l.att.subject.value in ctx.subjects
  }

  predicate Says(l: Loaded, kind: string, allowSelf: bool) {
    l.att.kind == kind && Truthy(l.att.result) && (allowSelf || Trusted(l))
  }

  predicate SubjectAttested(ctx: Context, ls: seq<Loaded>, kind: string, allowSelf: bool) {
    exists i | 0 <= i < |ls| :: Says(ls[i], kind, allowSelf) && OnSubject(ctx, ls[i])
  }

  predicate BodyAttested(ls: seq<Loaded>, kind: string, allowSelf: bool, body: Oid) {
    exists i | 0 <= i < |ls| :: Says(ls[i], kind, allowSelf) && body in ls[i].att.bodies
  }

  /** Every one of the units is named by body in an attestation that counts. */
  predicate BodiesAttested(ls: seq<Loaded>, kind: string, allowSelf: bool, units: seq<Unit>) {
    forall i | 0 <= i < |units| :: BodyAttested(ls, kind, allowSelf, units[i].body)
  }

  function ArgOf(p: Pred, key: string): Option<Value> {
    if p.args.Some? && key in p.args.value then Some(p.args.value[key]) else None
  }

  function TextArg(p: Pred, key: string): Option<string> {
    match ArgOf(p, key)
    case Some(Text(t)) => Some(t)
    case _ => None
  }

  predicate FlagArg(p: Pred, key: string) {
    ArgOf(p, key) == Some(Bool(true))
  }

  function IntArg(p: Pred, key: string): Option<int> {
    match ArgOf(p, key)
    case Some(Int(n)) => Some(n)
    case Some(Text(t)) => ParseInt(t)
    case _ => None
  }

  predicate Attested(ctx: Context, ls: seq<Loaded>, p: Pred) {
    var kind, own, over := p.name.GetOr(""), FlagArg(p, "self"), TextArg(p, "for");
    match over
    case None =>
      || SubjectAttested(ctx, ls, kind, own)
      || (match ChangedUnits(ctx)
          case None => false
          case Some(changed) =>
            var coverable := Where(changed, (u: Unit) => u.kind !in UNCOVERABLE_KINDS || TestKind(u.kind));
            coverable != [] && BodiesAttested(ls, kind, own, coverable))
    case Some(name) =>
      if name == "new_tests" then
        (match NewTests(ctx) case None => false case Some(tests) => BodiesAttested(ls, kind, own, tests))
      else if name == "changed_nodes" then
        (match ChangedUnits(ctx)
         case None => false
         case Some(changed) => BodiesAttested(ls, kind, own, Where(changed, (u: Unit) => u.kind !in UNCOVERABLE_KINDS)))
      else false
  }

  predicate Approves(ctx: Context, l: Loaded, keysigned: bool) {
    && l.att.kind == "approval.human" && Truthy(l.att.result) && l.signerKind == Some("human")
    && (!keysigned || !l.att.byRunner) && OnSubject(ctx, l)
  }

  predicate Approved(ctx: Context, ls: seq<Loaded>, p: Pred) {
    p.name.GetOr("human") == "human" && exists i | 0 <= i < |ls| :: Approves(ctx, ls[i], FlagArg(p, "keysigned"))
  }

  // -------------------------------------------------------------------- judges

  function Confidence(v: Value): int {
    match v
    case Map(entries) => LastConfidence(entries)
    case _ => 1000
  }

  function LastConfidence(entries: seq<(Value, Value)>): int {
    if entries == [] then 1000
    else
      match entries[|entries| - 1]
      case (Text(t), Int(n)) => if t == "confidence" then n else LastConfidence(entries[..|entries| - 1])
      case (Text(t), Float(n)) => if t == "confidence" then n else LastConfidence(entries[..|entries| - 1])
      case _ => LastConfidence(entries[..|entries| - 1])
  }

  predicate Judges(ctx: Context, l: Loaded, rubric: string) {
    && l.att.kind == "judge." + rubric && OnSubject(ctx, l)
    && !(l.signerParent.Some? && l.signerParent == ctx.authorParent)
  }

  predicate Confident(l: Loaded, least: int) {
    Confidence(l.att.result) >= least
  }

  function JudgeKey(l: Loaded): EntityId {
    l.signerParent.GetOr(l.att.verifier)
  }

  datatype Verdicts = Verdicts(yes: seq<(EntityId, Option<string>)>, refused: bool)

  predicate HasKey(yes: seq<(EntityId, Option<string>)>, key: EntityId) {
    exists i | 0 <= i < |yes| :: yes[i].0 == key
  }

  function Counted(ctx: Context, before: Verdicts, l: Loaded, rubric: string, least: int): Verdicts {
    if !Judges(ctx, l, rubric) || !Confident(l, least) then before
    else if !Truthy(l.att.result) then before.(refused := true)
    else if HasKey(before.yes, JudgeKey(l)) then before
    else before.(yes := before.yes + [(JudgeKey(l), l.signerModel)])
  }

  /** The verdicts counted: one yes for each judge's agent, and whether any said no. */
  function Tally(ctx: Context, ls: seq<Loaded>, rubric: string, least: int): Verdicts {
    if ls == [] then Verdicts([], false)
    else Counted(ctx, Tally(ctx, ls[..|ls| - 1], rubric, least), ls[|ls| - 1], rubric, least)
  }

  method TallyVerdicts(ctx: Context, ls: seq<Loaded>, rubric: string, least: int) returns (v: Verdicts)
    ensures v == Tally(ctx, ls, rubric, least)
  {
    v := Verdicts([], false);
    for i := 0 to |ls|
      invariant v == Tally(ctx, ls[..i], rubric, least)
    {
      assert ls[..i + 1][..i] == ls[..i];
      if Judges(ctx, ls[i], rubric) && Confident(ls[i], least) {
        if !Truthy(ls[i].att.result) {
          v := v.(refused := true);
        } else if !HasKey(v.yes, JudgeKey(ls[i])) {
          v := v.(yes := v.yes + [(JudgeKey(ls[i]), ls[i].signerModel)]);
        }
      }
    }
    assert ls[..|ls|] == ls;
  }

  function Models(yes: seq<(EntityId, Option<string>)>): set<Option<string>> {
    set i | 0 <= i < |yes| :: yes[i].1
  }

  function Most(a: int, b: int): int { if a >= b then a else b }

  function Least(a: int, b: int): int { if a <= b then a else b }

  predicate Judged(ctx: Context, ls: seq<Loaded>, p: Pred) {
    var v := Tally(ctx, ls, p.name.GetOr(""), IntArg(p, "min_confidence").GetOr(0));
    var needed := Most(IntArg(p, "judges").GetOr(1), 1);
    && !v.refused && |v.yes| >= needed
    && (FlagArg(p, "distinct_models") ==> |Models(v.yes)| >= Least(needed, |v.yes|))
  }

  // -------------------------------------------------------------- observations

  predicate Observes(ctx: Context, l: Loaded, signal: string) {
    l.att.kind == "observe." + signal && OnSubject(ctx, l) && Trusted(l)
  }

  /** The latest; among equals the last cited. */
  function LatestObserved(ctx: Context, ls: seq<Loaded>, signal: string): Option<Attestation> {
    if ls == [] then None
    else
      var before, l := LatestObserved(ctx, ls[..|ls| - 1], signal), ls[|ls| - 1];
      if Observes(ctx, l, signal) && (before.None? || l.att.time >= before.value.time) then Some(l.att) else before
  }

  predicate Observed(ctx: Context, ls: seq<Loaded>, p: Pred) {
    match LatestObserved(ctx, ls, p.name.GetOr(""))
    case None => false
    case Some(a) =>
      var value := match a.result case Int(n) => n case Float(n) => n case _ => 0;
      && (IntArg(p, "max").Some? ==> value <= IntArg(p, "max").value)
      && (IntArg(p, "min").Some? ==> value >= IntArg(p, "min").value)
  }

  // ------------------------------------------------------------------ predicates

  predicate Holds(ctx: Context, ls: seq<Loaded>, p: Pred)
    decreases p
  {
    if p.kind == "structural" then Structural(ctx, p.name)
    else if p.kind == "attest" then Attested(ctx, ls, p)
    else if p.kind == "all" then
      p.preds.Subs? ==> forall i | 0 <= i < |p.preds.list| :: Holds(ctx, ls, p.preds.list[i])
    else if p.kind == "any" then
      p.preds.Subs? && exists i | 0 <= i < |p.preds.list| :: Holds(ctx, ls, p.preds.list[i])
    else if p.kind == "not" then p.preds.Subs? && p.preds.list != [] && !Holds(ctx, ls, p.preds.list[0])
    else if p.kind == "approved" then Approved(ctx, ls, p)
    else if p.kind == "judge" then Judged(ctx, ls, p)
    else if p.kind == "observe" then Observed(ctx, ls, p)
    else false
  }

  // --------------------------------------------------------------------- clauses

  predicate ClauseUnmet(ctx: Context, ls: seq<Loaded>, c: Clause) {
    && !(c.unlessPred.Some? && Holds(ctx, ls, c.unlessPred.value))
    && (if c.op == "require" then !Holds(ctx, ls, c.pred)
        else if c.op == "forbid" then Holds(ctx, ls, c.pred)
        else true)
  }

  predicate OnRisk(ctx: Context, l: Loaded) {
    l.att.kind == "risk.change" && Trusted(l) && OnSubject(ctx, l)
  }

  /** The latest; among equals the first cited. */
  function LatestRisk(ctx: Context, ls: seq<Loaded>): Option<Attestation> {
    if ls == [] then None
    else
      var before, l := LatestRisk(ctx, ls[..|ls| - 1]), ls[|ls| - 1];
      if OnRisk(ctx, l) && (before.None? || l.att.time > before.value.time) then Some(l.att) else before
  }

  function Entry(entries: seq<(Value, Value)>, key: string): Option<Value> {
    if entries == [] then None
    else if entries[0].0 == Text(key) then Some(entries[0].1)
    else Entry(entries[1..], key)
  }

  /** The risk level, when the latest risk attestation states a score and a level. */
  function RiskLevel(ctx: Context, ls: seq<Loaded>): Option<string> {
    match LatestRisk(ctx, ls)
    case None => None
    case Some(a) =>
      if a.result.Map? && Entry(a.result.entries, "score").Some? && Entry(a.result.entries, "score").value.Int? then
        (match Entry(a.result.entries, "level")
         case Some(Text(level)) => Some(level)
         case _ => None)
      else None
  }

  function LevelRank(level: string): nat {
    if level == "medium" then 1 else if level == "high" then 2 else if level == "critical" then 3 else 0
  }

  /**
   Which clause is unmet: the standard in the chain, its risk section if any, and the
   clause; no clause when risk is unknown.
   */
  datatype Unmet = Unmet(standard: nat, section: Option<nat>, clause: Option<nat>)

  function UnmetIn(ctx: Context, ls: seq<Loaded>, cs: seq<Clause>, s: nat, section: Option<nat>): seq<Unmet> {
    if cs == [] then []
    else
      UnmetIn(ctx, ls, cs[..|cs| - 1], s, section)
      + if ClauseUnmet(ctx, ls, cs[|cs| - 1]) then [Unmet(s, section, Some(|cs| - 1))] else []
  }

  function UnmetSection(ctx: Context, ls: seq<Loaded>, w: RiskClauses, s: nat, k: nat): seq<Unmet> {
    match RiskLevel(ctx, ls)
    case None => [Unmet(s, Some(k), None)]
    case Some(level) =>
      if LevelRank(level) >= LevelRank(w.atLeast) then UnmetIn(ctx, ls, w.clauses, s, Some(k)) else []
  }

  function UnmetWhens(ctx: Context, ls: seq<Loaded>, ws: seq<RiskClauses>, s: nat): seq<Unmet> {
    if ws == [] then []
    else
      var k, w := |ws| - 1, ws[|ws| - 1];
      UnmetWhens(ctx, ls, ws[..k], s) + UnmetSection(ctx, ls, w, s, k)
  }

  /** Every unmet clause of the chain, the most general standard first. */
  function UnmetClauses(ctx: Context, ls: seq<Loaded>, chain: seq<Standard>): seq<Unmet> {
    if chain == [] then []
    else
      var s := |chain| - 1;
      UnmetClauses(ctx, ls, chain[..s])
      + UnmetIn(ctx, ls, chain[s].clauses, s, None)
      + UnmetWhens(ctx, ls, chain[s].whens, s)
  }
}
