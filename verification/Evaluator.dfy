/** The deterministic outcome evaluator and its template registry. Instants are microseconds; `sha` is
    whatever hex digest the evaluator takes of a canonical document. */
module Evaluator {
  import opened Basics
  import opened Ordering
  import J = CanonicalJson

  const EVALUATOR_SCHEMA_VERSION := 1
  const MAX_WINDOW_SECONDS := 366 * 24 * 60 * 60
  const MICROS := 1_000_000

  type Instant = int

  // ---------------------------------------------------------------- templates

  datatype Strategy = Strategy(
    required: set<string>, disqualifying: set<string>, conflicting: seq<set<string>>, monetary: set<string>)

  const TEMPLATE_REGISTRY: map<string, Strategy> := map[
    "delivered_paid_order" := Strategy(
      {"order.confirmed", "fulfillment.delivered", "payment.succeeded"},
      {"order.returned", "payment.refunded"}, [],
      {"order.confirmed", "payment.succeeded", "payment.refunded"}),
    "attended_booking" := Strategy(
      {"booking.created", "booking.attended"},
      {"booking.no_show"}, [{"booking.attended", "booking.no_show"}], {}),
    "qualified_lead_accepted" := Strategy(
      {"lead.captured", "lead.qualified", "lead.accepted"}, {}, [], {}),
    "paid_activated_subscription" := Strategy(
      {"account.activated", "payment.succeeded"},
      {"payment.refunded"}, [], {"payment.succeeded", "payment.refunded"})
  ]

  // ---------------------------------------------------------------- inputs and results

  datatype Money = Money(minorUnits: int, currency: string)

  datatype TrustedEvent = TrustedEvent(
    tenantId: string, eventId: string, eventDigest: string, eventType: string, schemaVersion: int,
    occurredAt: Instant, receivedAt: Instant, subjectType: string, subjectId: string,
    references: seq<(string, string)>, money: Option<Money>, status: Option<string>)

  datatype Request = Request(
    tenantId: string, outcomeId: string, evaluationId: string, schemaVersion: int, asOf: Instant,
    sourceType: string, sourceId: string, contractVersionId: string, contractDigest: string,
    ruleVersionId: string, ruleDigest: string, rulePublished: bool, template: string, anchorEventType: string,
    evaluationWindow: int, finalizationWindow: int, subjectType: string, subjectId: string)

  datatype Verdict = Pending | Verified | Rejected

  datatype ReasonCode =
    | AwaitingRequiredEvidence | AwaitingFinalization | TemplateSatisfied
    | RequiredEventMissing | DisqualifyingEventPresent

  /** Operational errors: they fail the evaluation instead of deciding it. */
  datatype Failure =
    | InvalidConfiguration | UnsupportedTemplate | RuleNotPublished | ContractRuleDigestMismatch
    | CrossTenantEvidence | SubjectMismatch | EventDigestMismatch | AmbiguousAnchor
    | ConflictingTerminalEvents | CurrencyMismatch

  datatype Role = Anchor | Required | Disqualifying

  datatype Evidence = Evidence(eventId: string, eventDigest: string, eventType: string, role: Role)

  /** The decision before digests are attached. */
  datatype Assessment = Assessment(
    verdict: Verdict, reason: ReasonCode, evidence: seq<Evidence>, anchorAt: Instant, finalization: Instant)

  datatype EvaluationResult = EvaluationResult(
    outcomeId: string, evaluationId: string, assessment: Assessment, inputDigest: string, decisionDigest: string)

  // ---------------------------------------------------------------- request validation

  predicate HexDigest(s: string) {
    |s| == 64 && forall i :: 0 <= i < 64 ==> '0' <= s[i] <= '9' || 'a' <= s[i] <= 'f'
  }

  function ValidateRequest(r: Request): Result<Strategy, Failure> {
    if r.schemaVersion != EVALUATOR_SCHEMA_VERSION then Err(InvalidConfiguration)
    else if r.template !in TEMPLATE_REGISTRY then Err(UnsupportedTemplate)
    else
      var strategy := TEMPLATE_REGISTRY[r.template];
      if r.anchorEventType !in strategy.required then Err(InvalidConfiguration)
      else if !(0 < r.evaluationWindow <= MAX_WINDOW_SECONDS) then Err(InvalidConfiguration)
      else if !(0 <= r.finalizationWindow <= MAX_WINDOW_SECONDS) then Err(InvalidConfiguration)
      else if !r.rulePublished then Err(RuleNotPublished)
      else if !HexDigest(r.contractDigest) || !HexDigest(r.ruleDigest) then Err(ContractRuleDigestMismatch)
      else Ok(strategy)
  }

  // ---------------------------------------------------------------- deduplication and order

  /** The dict of the loop, in insertion order; its keys are the event ids. */
  function Find(unique: seq<TrustedEvent>, id: string): (i: nat)
    ensures i <= |unique|
    ensures i < |unique| ==> unique[i].eventId == id
    ensures forall k :: 0 <= k < i ==> unique[k].eventId != id
  {
    if unique == [] || unique[0].eventId == id then 0 else 1 + Find(unique[1..], id)
  }

  /** One turn of the loop: check the event, compare it with a prior one of the same id, store it. */
  function Admit(r: Request, unique: seq<TrustedEvent>, e: TrustedEvent): Result<seq<TrustedEvent>, Failure> {
    if e.tenantId != r.tenantId then Err(CrossTenantEvidence)
    else if (e.subjectType, e.subjectId) != (r.subjectType, r.subjectId) then Err(SubjectMismatch)
    else
      var i := Find(unique, e.eventId);
      if i == |unique| then Ok(unique + [e])
      else if unique[i] != e then Err(EventDigestMismatch)
      else Ok(unique[i := e])
  }

  function Dedup(r: Request, events: seq<TrustedEvent>): Result<seq<TrustedEvent>, Failure> {
    if events == [] then Ok([])
    else
      var n := |events| - 1;
      var before := Dedup(r, events[..n]);
      if before.Err? then before else Admit(r, before.value, events[n])
  }

  /** sorted(key=(occurred_at, event_type, event_id)). */
  predicate EventLess(a: TrustedEvent, b: TrustedEvent) {
    a.occurredAt < b.occurredAt ||
    (a.occurredAt == b.occurredAt &&
     (StringLess(a.eventType, b.eventType) || (a.eventType == b.eventType && StringLess(a.eventId, b.eventId))))
  }

  // ---------------------------------------------------------------- the decision

  function AnchorsOf(r: Request, events: seq<TrustedEvent>): seq<TrustedEvent> {
    if events == [] then []
    else (if events[0].eventType == r.anchorEventType then [events[0]] else []) + AnchorsOf(r, events[1..])
  }

  function EvaluationEnd(r: Request, anchor: TrustedEvent): Instant { anchor.occurredAt + r.evaluationWindow * MICROS }

  function Finalization(r: Request, anchor: TrustedEvent): Instant {
    EvaluationEnd(r, anchor) + r.finalizationWindow * MICROS
  }

  /** The anchor itself, or inside the half-open window and received by as_of and by finalization.
      Events of one evaluation have distinct ids, so "is the anchor" is having its id. */
  predicate Admits(r: Request, anchor: TrustedEvent, e: TrustedEvent) {
    || e.eventId == anchor.eventId
    || (&& anchor.occurredAt <= e.occurredAt < EvaluationEnd(r, anchor)
        && e.receivedAt <= r.asOf && e.receivedAt <= Finalization(r, anchor))
  }

  function AdmissibleOf(r: Request, anchor: TrustedEvent, events: seq<TrustedEvent>): seq<TrustedEvent> {
    if events == [] then []
    else (if Admits(r, anchor, events[0]) then [events[0]] else []) + AdmissibleOf(r, anchor, events[1..])
  }

  function TypesOf(events: seq<TrustedEvent>): set<string> { set e | e in events :: e.eventType }

  function CurrenciesOf(s: Strategy, events: seq<TrustedEvent>): set<string> {
    set e | e in events && e.eventType in s.monetary && e.money.Some? :: e.money.value.currency
  }

  predicate Conflicts(s: Strategy, present: set<string>) {
    exists i :: 0 <= i < |s.conflicting| && s.conflicting[i] <= present
  }

  function Decide(r: Request, s: Strategy, present: set<string>, finalization: Instant): (Verdict, ReasonCode) {
    if present * s.disqualifying != {} then (Rejected, DisqualifyingEventPresent)
    else if !(s.required <= present) then
      if r.asOf < finalization then (Pending, AwaitingRequiredEvidence) else (Rejected, RequiredEventMissing)
    else if r.asOf < finalization then (Pending, AwaitingFinalization)
    else (Verified, TemplateSatisfied)
  }

  predicate Relevant(s: Strategy, e: TrustedEvent) { e.eventType in s.required || e.eventType in s.disqualifying }

  function EvidenceFor(s: Strategy, anchor: TrustedEvent, e: TrustedEvent): Evidence {
    Evidence(e.eventId, e.eventDigest, e.eventType,
             if e.eventId == anchor.eventId then Anchor
             else if e.eventType in s.required then Required else Disqualifying)
  }

  function EvidenceOf(s: Strategy, anchor: TrustedEvent, events: seq<TrustedEvent>): seq<Evidence> {
    if events == [] then []
    else (if Relevant(s, events[0]) then [EvidenceFor(s, anchor, events[0])] else []) + EvidenceOf(s, anchor, events[1..])
  }

  function Assess(r: Request, s: Strategy, ordered: seq<TrustedEvent>): Result<Assessment, Failure> {
    var anchors := AnchorsOf(r, ordered);
    if |anchors| != 1 then Err(AmbiguousAnchor)
    else
      var anchor := anchors[0];
      var finalization := Finalization(r, anchor);
      var admissible := AdmissibleOf(r, anchor, ordered);
      var present := TypesOf(admissible);
      if Conflicts(s, present) then Err(ConflictingTerminalEvents)
      else if |CurrenciesOf(s, admissible)| > 1 then Err(CurrencyMismatch)
      else
        var d := Decide(r, s, present, finalization);
        Ok(Assessment(d.0, d.1, EvidenceOf(s, anchor, admissible), anchor.occurredAt, finalization))
  }

  /** The assessment from its anchor and its admissible events. */
  lemma AssessedFrom(r: Request, s: Strategy, ordered: seq<TrustedEvent>, a: TrustedEvent, m: seq<TrustedEvent>, f: Instant)
    requires AnchorsOf(r, ordered) == [a] && AdmissibleOf(r, a, ordered) == m && Finalization(r, a) == f
    ensures var d := Decide(r, s, TypesOf(m), f);
      Assess(r, s, ordered) ==
        if Conflicts(s, TypesOf(m)) then Err(ConflictingTerminalEvents)
        else if |CurrenciesOf(s, m)| > 1 then Err(CurrencyMismatch)
        else Ok(Assessment(d.0, d.1, EvidenceOf(s, a, m), a.occurredAt, f))
  {
  }

  // ---------------------------------------------------------------- documents and digests

  /** The ISO text of an instant in UTC; any injective rendering will do. */
  function IsoText(t: Instant): string { J.IntText(t) }

  predicate PairLess(a: (string, string), b: (string, string)) {
    StringLess(a.0, b.0) || (a.0 == b.0 && StringLess(a.1, b.1))
  }

  function PairValues(pairs: seq<(string, string)>): seq<J.Value> {
    if pairs == [] then [] else [J.List([J.Str(pairs[0].0), J.Str(pairs[0].1)])] + PairValues(pairs[1..])
  }

  function OptionalText(t: Option<string>): J.Value { if t.None? then J.Null else J.Str(t.value) }

  function MoneyDocument(m: Option<Money>): J.Value {
    if m.None? then J.Null
    else J.Dict([J.Field("minor_units", J.Int(m.value.minorUnits)), J.Field("currency", J.Str(m.value.currency))])
  }

  /** `TrustedEvent.canonical`. */
  function EventFields(e: TrustedEvent): seq<J.Field> {
    [J.Field("tenant_id", J.Str(e.tenantId)), J.Field("event_id", J.Str(e.eventId)),
     J.Field("event_digest", J.Str(e.eventDigest)), J.Field("event_type", J.Str(e.eventType)),
     J.Field("schema_version", J.Int(e.schemaVersion)), J.Field("occurred_at", J.Str(IsoText(e.occurredAt))),
     J.Field("received_at", J.Str(IsoText(e.receivedAt))), J.Field("subject_type", J.Str(e.subjectType)),
     J.Field("subject_id", J.Str(e.subjectId)), J.Field("references", J.List(PairValues(Sort(e.references, PairLess)))),
     J.Field("money", MoneyDocument(e.money)), J.Field("status", OptionalText(e.status))]
  }

  function EventDocuments(events: seq<TrustedEvent>): seq<J.Value> {
    if events == [] then [] else [J.Dict(EventFields(events[0]))] + EventDocuments(events[1..])
  }

  function InputFields(r: Request, ordered: seq<TrustedEvent>): seq<J.Field> {
    [J.Field("schema_version", J.Int(r.schemaVersion)), J.Field("tenant_id", J.Str(r.tenantId)),
     J.Field("as_of", J.Str(IsoText(r.asOf))), J.Field("source", J.List([J.Str(r.sourceType), J.Str(r.sourceId)])),
     J.Field("contract", J.List([J.Str(r.contractVersionId), J.Str(r.contractDigest)])),
     J.Field("rule", J.List([J.Str(r.ruleVersionId), J.Str(r.ruleDigest)])),
     J.Field("template", J.Str(r.template)), J.Field("anchor_event_type", J.Str(r.anchorEventType)),
     J.Field("evaluation_window_seconds", J.Int(r.evaluationWindow)),
     J.Field("finalization_window_seconds", J.Int(r.finalizationWindow)),
     J.Field("subject", J.List([J.Str(r.subjectType), J.Str(r.subjectId)])),
     J.Field("events", J.List(EventDocuments(ordered)))]
  }

  function VerdictText(v: Verdict): string {
    match v case Pending => "pending" case Verified => "verified" case Rejected => "rejected"
  }

  function ReasonText(c: ReasonCode): string {
    match c
    case AwaitingRequiredEvidence => "awaiting_required_evidence"
    case AwaitingFinalization => "awaiting_finalization"
    case TemplateSatisfied => "template_satisfied"
    case RequiredEventMissing => "required_event_missing"
    case DisqualifyingEventPresent => "disqualifying_event_present"
  }

  /** The progress state: verified and rejected as decided, converted while pending. */
  function ProgressText(v: Verdict): string {
    match v case Pending => "converted" case Verified => "verified" case Rejected => "rejected"
  }

  function RoleText(role: Role): string {
    match role case Anchor => "anchor" case Required => "required" case Disqualifying => "disqualifying"
  }

  function EvidenceDocuments(evidence: seq<Evidence>): seq<J.Value> {
    if evidence == [] then []
    else
      var e := evidence[0];
      [J.List([J.Str(e.eventId), J.Str(e.eventDigest), J.Str(e.eventType), J.Str(RoleText(e.role))])]
      + EvidenceDocuments(evidence[1..])
  }

  function DecisionFields(r: Request, inputDigest: string, a: Assessment): seq<J.Field> {
    [J.Field("outcome_id", J.Str(r.outcomeId)), J.Field("evaluation_id", J.Str(r.evaluationId)),
     J.Field("input_digest", J.Str(inputDigest)), J.Field("verdict", J.Str(VerdictText(a.verdict))),
     J.Field("reason_code", J.Str(ReasonText(a.reason))), J.Field("progress_state", J.Str(ProgressText(a.verdict))),
     J.Field("evidence", J.List(EvidenceDocuments(a.evidence))),
     J.Field("finalization_boundary", J.Str(IsoText(a.finalization)))]
  }

  function InputText(r: Request, ordered: seq<TrustedEvent>): string { J.CanonicalDocument(J.Dict(InputFields(r, ordered))) }

  function DecisionText(r: Request, inputDigest: string, a: Assessment): string {
    J.CanonicalDocument(J.Dict(DecisionFields(r, inputDigest, a)))
  }

  /** How the two digests of a result are taken. No verdict depends on it; the code hashes the canonical
      documents. */
  datatype Digests = Digests(input: (Request, seq<TrustedEvent>) -> string, decision: (Request, string, Assessment) -> string)

  function Documented(sha: string -> string): Digests {
    Digests((r, ordered) => sha(InputText(r, ordered)), (r, inputDigest, a) => sha(DecisionText(r, inputDigest, a)))
  }

  function Conclude(digests: Digests, r: Request, s: Strategy, ordered: seq<TrustedEvent>): Result<EvaluationResult, Failure> {
    var a := Assess(r, s, ordered);
    if a.Err? then Err(a.error)
    else
      var inputDigest := digests.input(r, ordered);
      Ok(EvaluationResult(r.outcomeId, r.evaluationId, a.value, inputDigest, digests.decision(r, inputDigest, a.value)))
  }

  function Evaluate(digests: Digests, r: Request, events: seq<TrustedEvent>): Result<EvaluationResult, Failure> {
    var s := ValidateRequest(r);
    if s.Err? then Err(s.error)
    else
      var unique := Dedup(r, events);
      if unique.Err? then Err(unique.error)
      else Conclude(digests, r, s.value, Sort(unique.value, EventLess))
  }

  // ---------------------------------------------------------------- the loops of `evaluate`

  /** The loop that fills `unique`, raising at the first bad event. */
  method FillUnique(r: Request, events: seq<TrustedEvent>) returns (res: Result<seq<TrustedEvent>, Failure>)
    ensures res == Dedup(r, events)
  {
    var unique: seq<TrustedEvent> := [];
    var i := 0;
    while i < |events|
      invariant 0 <= i <= |events| && Dedup(r, events[..i]) == Ok(unique)
    {
      var e := events[i];
      DedupTurn(r, events, i);
      if e.tenantId != r.tenantId {
        DedupStops(r, events, i + 1);
        return Err(CrossTenantEvidence);
      }
      if (e.subjectType, e.subjectId) != (r.subjectType, r.subjectId) {
        DedupStops(r, events, i + 1);
        return Err(SubjectMismatch);
      }
      var k := Find(unique, e.eventId);
      if k < |unique| && unique[k] != e {
        DedupStops(r, events, i + 1);
        return Err(EventDigestMismatch);
      }
      unique := if k < |unique| then unique[k := e] else unique + [e];
      i := i + 1;
    }
    assert events[..|events|] == events;
    return Ok(unique);
  }

  lemma DedupTurn(r: Request, events: seq<TrustedEvent>, i: nat)
    requires i < |events| && Dedup(r, events[..i]).Ok?
    ensures Dedup(r, events[..i + 1]) == Admit(r, Dedup(r, events[..i]).value, events[i])
  {
    assert events[..i + 1][..i] == events[..i] && events[..i + 1][i] == events[i];
  }

  /** Once a prefix raises, the whole loop has raised, for the same reason. */
  lemma {:induction false} DedupStops(r: Request, events: seq<TrustedEvent>, n: nat)
    requires n <= |events| && Dedup(r, events[..n]).Err?
    ensures Dedup(r, events) == Dedup(r, events[..n])
    decreases |events|
  {
    if n == |events| {
      assert events[..n] == events;
    } else {
      var m := |events| - 1;
      assert events[..m][..n] == events[..n];
      DedupStops(r, events[..m], n);
    }
  }

  /** for conflict in strategy.conflicting: raise if conflict <= present. */
  method FindConflict(s: Strategy, present: set<string>) returns (found: bool)
    ensures found == Conflicts(s, present)
  {
    for i := 0 to |s.conflicting|
      invariant forall k :: 0 <= k < i ==> !(s.conflicting[k] <= present)
    {
      if s.conflicting[i] <= present { return true; }
    }
    return false;
  }

  method Run(sha: string -> string, r: Request, events: seq<TrustedEvent>) returns (res: Result<EvaluationResult, Failure>)
    ensures res == Evaluate(Documented(sha), r, events)
  {
    var strategy := ValidateRequest(r);
    if strategy.Err? { return Err(strategy.error); }
    var s := strategy.value;
    var unique := FillUnique(r, events);
    if unique.Err? { return Err(unique.error); }
    var ordered := Sort(unique.value, EventLess);
    var anchors := AnchorsOf(r, ordered);
    if |anchors| != 1 { return Err(AmbiguousAnchor); }
    var anchor := anchors[0];
    var finalization := Finalization(r, anchor);
    var admissible := AdmissibleOf(r, anchor, ordered);
    var present := TypesOf(admissible);
    var conflict := FindConflict(s, present);
    if conflict { return Err(ConflictingTerminalEvents); }
    if |CurrenciesOf(s, admissible)| > 1 { return Err(CurrencyMismatch); }
    var d := Decide(r, s, present, finalization);
    var a := Assessment(d.0, d.1, EvidenceOf(s, anchor, admissible), anchor.occurredAt, finalization);
    var inputDigest := sha(InputText(r, ordered));
    return Ok(EvaluationResult(r.outcomeId, r.evaluationId, a, inputDigest, sha(DecisionText(r, inputDigest, a))));
  }
}
