/** What the evaluator promises: order and duplicates do not matter, verdicts mean what the template
    says, terminal verdicts do not flip, and the digests pin the decision down. */
module EvaluatorTheorems {
  import opened Basics
  import opened Ordering
  import opened Evaluator

  // ---------------------------------------------------------------- deduplication

  /** Every event belongs to the request, and events that share an id are the same event. */
  ghost predicate Coherent(r: Request, events: seq<TrustedEvent>) {
    && (forall e :: e in events ==> e.tenantId == r.tenantId && e.subjectType == r.subjectType && e.subjectId == r.subjectId)
    && (forall e, f :: e in events && f in events && e.eventId == f.eventId ==> e == f)
  }

  ghost predicate DistinctIds(events: seq<TrustedEvent>) {
    forall i, j :: 0 <= i < j < |events| ==> events[i].eventId != events[j].eventId
  }

  lemma {:induction false} DedupExactly(r: Request, events: seq<TrustedEvent>)
    ensures Dedup(r, events).Ok? <==> Coherent(r, events)
    ensures Dedup(r, events).Ok? ==>
      DistinctIds(Dedup(r, events).value) && forall e :: e in Dedup(r, events).value <==> e in events
    decreases |events|
  {
    if events != [] {
      var n := |events| - 1;
      var before, last := events[..n], events[n];
      assert events == before + [last];
      DedupExactly(r, before);
      CoherentSplit(r, before, last);
      if Dedup(r, before).Ok? { AdmitExactly(r, before, Dedup(r, before).value, last); }
    }
  }

  /** The new event belongs to the request and agrees with those before it. */
  ghost predicate Fits(r: Request, before: seq<TrustedEvent>, last: TrustedEvent) {
    && last.tenantId == r.tenantId && last.subjectType == r.subjectType && last.subjectId == r.subjectId
    && forall e :: e in before && e.eventId == last.eventId ==> e == last
  }

  lemma CoherentSplit(r: Request, before: seq<TrustedEvent>, last: TrustedEvent)
    ensures Coherent(r, before + [last]) <==> Coherent(r, before) && Fits(r, before, last)
  {
    var events := before + [last];
    assert forall e :: e in events <==> e in before || e == last;
  }

  lemma AdmitExactly(r: Request, before: seq<TrustedEvent>, u: seq<TrustedEvent>, last: TrustedEvent)
    requires DistinctIds(u) && forall e :: e in u <==> e in before
    ensures Admit(r, u, last).Ok? <==> Fits(r, before, last)
    ensures Admit(r, u, last).Ok? ==>
      DistinctIds(Admit(r, u, last).value) && forall e :: e in Admit(r, u, last).value <==> e in before + [last]
  {
    var i := Find(u, last.eventId);
    if i < |u| {
      assert u[i] in u;
      assert u[i] == last ==> u[i := last] == u;
    } else {
      forall e | e in before ensures e.eventId != last.eventId {
        var k :| 0 <= k < |u| && u[k] == e;
      }
    }
  }

  lemma EventsOrdered(events: seq<TrustedEvent>)
    requires DistinctIds(events)
    ensures NoRepeats(events) && Orders(EventLess, events)
  {
    forall a, b | a in events && b in events ensures a == b || EventLess(a, b) || EventLess(b, a) {
      StringTotal(a.eventType, b.eventType);
      StringTotal(a.eventId, b.eventId);
    }
    forall a, b | a in events && b in events && EventLess(a, b) ensures !EventLess(b, a) {
      EventLessAsymmetric(a, b);
    }
    forall a, b, c | a in events && b in events && c in events && EventLess(a, b) && EventLess(b, c)
      ensures EventLess(a, c)
    {
      EventLessTransitive(a, b, c);
    }
  }

  lemma EventLessAsymmetric(a: TrustedEvent, b: TrustedEvent)
    requires EventLess(a, b)
    ensures !EventLess(b, a)
  {
    if StringLess(a.eventType, b.eventType) { StringAsymmetric(a.eventType, b.eventType); }
    if StringLess(b.eventType, a.eventType) { StringAsymmetric(b.eventType, a.eventType); }
    if StringLess(a.eventId, b.eventId) { StringAsymmetric(a.eventId, b.eventId); }
  }

  lemma EventLessTransitive(a: TrustedEvent, b: TrustedEvent, c: TrustedEvent)
    requires EventLess(a, b) && EventLess(b, c)
    ensures EventLess(a, c)
  {
    if StringLess(a.eventType, b.eventType) && StringLess(b.eventType, c.eventType) {
      StringTransitive(a.eventType, b.eventType, c.eventType);
    }
    if StringLess(a.eventId, b.eventId) && StringLess(b.eventId, c.eventId) {
      StringTransitive(a.eventId, b.eventId, c.eventId);
    }
  }

  /** Order and multiplicity are irrelevant: two inputs with the same set of events both fail, or both
      succeed with the identical result, digests included. */
  lemma OrderAndMultiplicityIrrelevant(digests: Digests, r: Request, a: seq<TrustedEvent>, b: seq<TrustedEvent>)
    requires forall e :: e in a <==> e in b
    ensures Evaluate(digests, r, a).Ok? <==> Evaluate(digests, r, b).Ok?
    ensures Coherent(r, a) || Evaluate(digests, r, a).Ok? ==> Evaluate(digests, r, a) == Evaluate(digests, r, b)
  {
    DedupExactly(r, a);
    DedupExactly(r, b);
    assert Coherent(r, a) <==> Coherent(r, b);
    if Dedup(r, a).Ok? {
      var u, v := Dedup(r, a).value, Dedup(r, b).value;
      EventsOrdered(u);
      EventsOrdered(v);
      SortForgetsOrder(u, v, EventLess);
    }
  }

  // ---------------------------------------------------------------- the sorted, deduplicated events

  /** The events the decision is taken on: each id once, in time order. */
  ghost predicate Arranged(events: seq<TrustedEvent>, ordered: seq<TrustedEvent>) {
    && Ascending(ordered, EventLess)
    && (forall e :: e in ordered <==> e in events)
    && (forall e, f :: e in ordered && f in ordered && e.eventId == f.eventId ==> e == f)
  }

  lemma EvaluateArranges(digests: Digests, r: Request, events: seq<TrustedEvent>)
    requires ValidateRequest(r).Ok? && Coherent(r, events)
    ensures Dedup(r, events).Ok?
    ensures var ordered := Sort(Dedup(r, events).value, EventLess);
      Arranged(events, ordered) && Evaluate(digests, r, events) == Conclude(digests, r, ValidateRequest(r).value, ordered)
  {
    DedupExactly(r, events);
    var u := Dedup(r, events).value;
    EventsOrdered(u);
    SortAscends(u, EventLess);
    SortContents(u, EventLess);
  }

  lemma {:induction false} AnchorsAre(r: Request, events: seq<TrustedEvent>)
    ensures forall e :: e in AnchorsOf(r, events) <==> e in events && e.eventType == r.anchorEventType
    decreases |events|
  {
    if events != [] {
      AnchorsAre(r, events[1..]);
      assert forall e :: e in events <==> e == events[0] || e in events[1..];
    }
  }

  lemma {:induction false} AdmissibleAre(r: Request, anchor: TrustedEvent, events: seq<TrustedEvent>)
    ensures forall e :: e in AdmissibleOf(r, anchor, events) <==> e in events && Admits(r, anchor, e)
    ensures Ascending(events, EventLess) ==> Ascending(AdmissibleOf(r, anchor, events), EventLess)
    decreases |events|
  {
    if events != [] {
      AdmissibleAre(r, anchor, events[1..]);
      assert forall e :: e in events <==> e == events[0] || e in events[1..];
      if Ascending(events, EventLess) {
        var rest := AdmissibleOf(r, anchor, events[1..]);
        forall j | 0 <= j < |rest| ensures EventLess(events[0], rest[j]) {
          assert rest[j] in rest;
          var k :| 0 <= k < |events| - 1 && events[1..][k] == rest[j];
          assert EventLess(events[0], events[k + 1]);
        }
      }
    }
  }

  /** `a` is the only event of the anchor type. */
  ghost predicate IsAnchor(r: Request, events: seq<TrustedEvent>, a: TrustedEvent) {
    && a in events && a.eventType == r.anchorEventType
    && forall e :: e in events && e.eventType == r.anchorEventType ==> e == a
  }

  lemma {:induction false} AnchorsAscend(r: Request, events: seq<TrustedEvent>)
    requires Ascending(events, EventLess)
    ensures Ascending(AnchorsOf(r, events), EventLess)
    decreases |events|
  {
    if events != [] {
      AnchorsAscend(r, events[1..]);
      AnchorsAre(r, events[1..]);
      var rest := AnchorsOf(r, events[1..]);
      forall j | 0 <= j < |rest| ensures EventLess(events[0], rest[j]) {
        assert rest[j] in rest;
        var k :| 0 <= k < |events| - 1 && events[1..][k] == rest[j];
        assert EventLess(events[0], events[k + 1]);
      }
    }
  }

  lemma AnchorExactly(r: Request, events: seq<TrustedEvent>, ordered: seq<TrustedEvent>)
    requires Arranged(events, ordered)
    ensures |AnchorsOf(r, ordered)| == 1 <==> exists a :: IsAnchor(r, events, a)
    ensures forall a :: IsAnchor(r, events, a) ==> AnchorsOf(r, ordered) == [a]
  {
    var anchors := AnchorsOf(r, ordered);
    AnchorsAre(r, ordered);
    AnchorsAscend(r, ordered);
    if |anchors| == 1 {
      assert anchors[0] in anchors;
      forall e | e in events && e.eventType == r.anchorEventType ensures e == anchors[0] { assert e in anchors; }
      assert IsAnchor(r, events, anchors[0]);
    }
    forall a | IsAnchor(r, events, a) ensures anchors == [a] {
      assert a in anchors;
      forall i | 0 <= i < |anchors| ensures anchors[i] == a { assert anchors[i] in anchors; }
      if |anchors| > 1 { EventLessAsymmetric(anchors[0], anchors[1]); }
    }
  }

  // ---------------------------------------------------------------- what is asked, written out

  /** The four templates: what each requires, what disqualifies, what conflicts, what is paid. */
  ghost function TemplateOf(name: string): Strategy {
    if name == "delivered_paid_order" then
      Strategy({"order.confirmed", "fulfillment.delivered", "payment.succeeded"}, {"order.returned", "payment.refunded"}, [],
               {"order.confirmed", "payment.succeeded", "payment.refunded"})
    else if name == "attended_booking" then
      Strategy({"booking.created", "booking.attended"}, {"booking.no_show"}, [{"booking.attended", "booking.no_show"}], {})
    else if name == "qualified_lead_accepted" then
      Strategy({"lead.captured", "lead.qualified", "lead.accepted"}, {}, [], {})
    else
      Strategy({"account.activated", "payment.succeeded"}, {"payment.refunded"}, [], {"payment.succeeded", "payment.refunded"})
  }

  ghost predicate KnownTemplate(name: string) {
    name in {"delivered_paid_order", "attended_booking", "qualified_lead_accepted", "paid_activated_subscription"}
  }

  /** Sixty-four lower-case hexadecimal digits. */
  ghost predicate Sha256Text(s: string) {
    |s| == 64 && forall i :: 0 <= i < |s| ==> s[i] in "0123456789abcdef"
  }

  /** A request that can be evaluated: the schema, a known template anchored on a type it requires, a window of
      a second to 366 days and a finalization of at most 366 days, a published rule and two digests. */
  ghost predicate RequestAccepted(r: Request) {
    && r.schemaVersion == 1 && KnownTemplate(r.template) && r.anchorEventType in TemplateOf(r.template).required
    && 1 <= r.evaluationWindow <= 31_622_400 && 0 <= r.finalizationWindow <= 31_622_400
    && r.rulePublished && Sha256Text(r.contractDigest) && Sha256Text(r.ruleDigest)
  }

  lemma HexTexts(s: string)
    ensures HexDigest(s) <==> Sha256Text(s)
  {
    forall i | 0 <= i < |s| ensures ('0' <= s[i] <= '9' || 'a' <= s[i] <= 'f') <==> s[i] in "0123456789abcdef" { HexChar(s[i]); }
  }

  lemma HexChar(c: char)
    ensures ('0' <= c <= '9' || 'a' <= c <= 'f') <==> c in "0123456789abcdef"
  {
    var hex := "0123456789abcdef";
    if '0' <= c <= '9' { assert hex[c as int - '0' as int] == c; }
    if 'a' <= c <= 'f' { assert hex[c as int - 'a' as int + 10] == c; }
  }

  lemma RegistryIs(name: string)
    ensures name in TEMPLATE_REGISTRY <==> KnownTemplate(name)
    ensures name in TEMPLATE_REGISTRY ==> TEMPLATE_REGISTRY[name] == TemplateOf(name)
  {
  }

  /** Requests are validated exactly so, and the first thing wrong is reported. */
  lemma RequestExactly(r: Request)
    ensures ValidateRequest(r).Ok? <==> RequestAccepted(r)
    ensures ValidateRequest(r).Ok? ==> ValidateRequest(r).value == TemplateOf(r.template)
    ensures ValidateRequest(r) == Err(UnsupportedTemplate) <==> r.schemaVersion == 1 && !KnownTemplate(r.template)
    ensures ValidateRequest(r) == Err(InvalidConfiguration) <==>
      || r.schemaVersion != 1
      || (KnownTemplate(r.template) &&
            !(&& r.anchorEventType in TemplateOf(r.template).required
              && 1 <= r.evaluationWindow <= 31_622_400 && 0 <= r.finalizationWindow <= 31_622_400))
    ensures ValidateRequest(r) == Err(RuleNotPublished) ==> !r.rulePublished
    ensures ValidateRequest(r) == Err(ContractRuleDigestMismatch) ==>
      r.rulePublished && !(Sha256Text(r.contractDigest) && Sha256Text(r.ruleDigest))
  {
    RegistryIs(r.template);
    HexTexts(r.contractDigest);
    HexTexts(r.ruleDigest);
  }

  /** The finalization boundary: both windows after the anchor, in microseconds. */
  ghost function FinalAt(r: Request, a: TrustedEvent): Instant {
    a.occurredAt + (r.evaluationWindow + r.finalizationWindow) * 1_000_000
  }

  /** An event counts when it is the anchor, or when it occurred within the window, which its end is outside of,
      and was received by the time asked about and by finalization. */
  ghost predicate Counts(r: Request, a: TrustedEvent, e: TrustedEvent) {
    || e == a
    || (&& a.occurredAt <= e.occurredAt < a.occurredAt + r.evaluationWindow * 1_000_000
        && e.receivedAt <= r.asOf && e.receivedAt <= FinalAt(r, a))
  }

  lemma CountsAdmits(r: Request, a: TrustedEvent, e: TrustedEvent)
    requires e.eventId == a.eventId ==> e == a
    ensures Counts(r, a, e) <==> Admits(r, a, e)
    ensures FinalAt(r, a) == Finalization(r, a)
  {
  }

  /** By the time they occurred, then by type, then by id. */
  ghost predicate Earlier(e: TrustedEvent, f: TrustedEvent) {
    || e.occurredAt < f.occurredAt
    || (e.occurredAt == f.occurredAt &&
          (Precedes(e.eventType, f.eventType) || (e.eventType == f.eventType && Precedes(e.eventId, f.eventId))))
  }

  lemma EarlierIs(e: TrustedEvent, f: TrustedEvent)
    ensures Earlier(e, f) <==> EventLess(e, f)
  {
    StringLessExactly(e.eventType, f.eventType);
    StringLessExactly(e.eventId, f.eventId);
  }

  // ---------------------------------------------------------------- the declarative verdict

  /** The event types among the events of the log that count. */
  ghost function Present(r: Request, events: seq<TrustedEvent>, a: TrustedEvent): set<string> {
    set e | e in events && Counts(r, a, e) :: e.eventType
  }

  /** Two admissible monetary events name different currencies. */
  ghost predicate CurrencyClash(r: Request, s: Strategy, events: seq<TrustedEvent>, a: TrustedEvent) {
    exists e, f ::
      Priced(r, s, events, a, e) && Priced(r, s, events, a, f) && e.money.value.currency != f.money.value.currency
  }

  lemma TwoElements<T>(s: set<T>)
    ensures |s| > 1 <==> exists x, y :: x in s && y in s && x != y
  {
    if |s| > 1 {
      var x :| x in s;
      assert |s - {x}| >= 1;
      var y :| y in s - {x};
    } else if |s| == 1 {
      var x :| x in s;
      assert |s - {x}| == 0;
    }
  }

  /** The verdict and reason the template prescribes for the types present. */
  ghost predicate Prescribed(r: Request, s: Strategy, present: set<string>, finalization: Instant, v: Verdict, c: ReasonCode) {
    var disqualified := exists t :: t in s.disqualifying && t in present;
    var satisfied := forall t :: t in s.required ==> t in present;
    && (v == Verified <==> r.asOf >= finalization && satisfied && !disqualified)
    && (v == Rejected <==> disqualified || (r.asOf >= finalization && !satisfied))
    && (c == TemplateSatisfied <==> v == Verified)
    && (c == DisqualifyingEventPresent <==> disqualified)
    && (c == RequiredEventMissing <==> v == Rejected && !disqualified)
    && (c == AwaitingFinalization <==> v == Pending && satisfied)
    && (c == AwaitingRequiredEvidence <==> v == Pending && !satisfied)
  }

  lemma DecideIsPrescribed(r: Request, s: Strategy, present: set<string>, finalization: Instant)
    ensures var d := Decide(r, s, present, finalization); Prescribed(r, s, present, finalization, d.0, d.1)
  {
    if present * s.disqualifying != {} {
      var t :| t in present * s.disqualifying;
    }
    assert forall t :: t in present && t in s.disqualifying ==> t in present * s.disqualifying;
  }

  lemma PresentIs(r: Request, events: seq<TrustedEvent>, ordered: seq<TrustedEvent>, a: TrustedEvent)
    requires Arranged(events, ordered) && a in events
    ensures TypesOf(AdmissibleOf(r, a, ordered)) == Present(r, events, a)
  {
    CountingAre(r, events, ordered, a);
  }

  /** The admissible events are those that count. */
  lemma CountingAre(r: Request, events: seq<TrustedEvent>, ordered: seq<TrustedEvent>, a: TrustedEvent)
    requires Arranged(events, ordered) && a in events
    ensures forall e :: e in AdmissibleOf(r, a, ordered) <==> e in events && Counts(r, a, e)
  {
    AdmissibleAre(r, a, ordered);
    forall e | e in events ensures Counts(r, a, e) <==> Admits(r, a, e) { CountsAdmits(r, a, e); }
  }

  ghost predicate Priced(r: Request, s: Strategy, events: seq<TrustedEvent>, a: TrustedEvent, e: TrustedEvent) {
    e in events && Counts(r, a, e) && e.eventType in s.monetary && e.money.Some?
  }

  lemma ClashIs(r: Request, s: Strategy, events: seq<TrustedEvent>, ordered: seq<TrustedEvent>, a: TrustedEvent)
    requires Arranged(events, ordered) && a in events
    ensures |CurrenciesOf(s, AdmissibleOf(r, a, ordered))| > 1 <==> CurrencyClash(r, s, events, a)
  {
    CountingAre(r, events, ordered, a);
    var admissible := AdmissibleOf(r, a, ordered);
    var cs := CurrenciesOf(s, admissible);
    assert forall e :: Priced(r, s, events, a, e) <==> e in admissible && e.eventType in s.monetary && e.money.Some?;
    if |cs| > 1 {
      var x, y :| x in cs && y in cs && x != y by { TwoElements(cs); }
      var e :| e in admissible && e.eventType in s.monetary && e.money.Some? && e.money.value.currency == x;
      var f :| f in admissible && f.eventType in s.monetary && f.money.Some? && f.money.value.currency == y;
      assert Priced(r, s, events, a, e) && Priced(r, s, events, a, f);
    }
    if CurrencyClash(r, s, events, a) {
      var e, f :| Priced(r, s, events, a, e) && Priced(r, s, events, a, f) && e.money.value.currency != f.money.value.currency;
      assert e.money.value.currency in cs && f.money.value.currency in cs;
    }
    TwoElements(cs);
  }

  /** The whole table of outcomes for a log with a single anchor: a conflict, a currency clash, or the
      verdict and reason the template prescribes. */
  lemma VerdictTable(digests: Digests, r: Request, events: seq<TrustedEvent>, a: TrustedEvent)
    requires RequestAccepted(r) && Coherent(r, events) && IsAnchor(r, events, a)
    ensures var s, res := TemplateOf(r.template), Evaluate(digests, r, events);
      var present := Present(r, events, a);
      && (Conflicts(s, present) ==> res == Err(ConflictingTerminalEvents))
      && (!Conflicts(s, present) && CurrencyClash(r, s, events, a) ==> res == Err(CurrencyMismatch))
      && (!Conflicts(s, present) && !CurrencyClash(r, s, events, a) ==>
            && res.Ok?
            && Prescribed(r, s, present, FinalAt(r, a), res.value.assessment.verdict, res.value.assessment.reason)
            && res.value.assessment.anchorAt == a.occurredAt
            && res.value.assessment.finalization == FinalAt(r, a))
  {
    RequestExactly(r);
    CountsAdmits(r, a, a);
    EvaluateArranges(digests, r, events);
    var s, ordered := ValidateRequest(r).value, Sort(Dedup(r, events).value, EventLess);
    AnchorExactly(r, events, ordered);
    PresentIs(r, events, ordered, a);
    ClashIs(r, s, events, ordered, a);
    DecideIsPrescribed(r, s, Present(r, events, a), Finalization(r, a));
  }

  /** Without exactly one anchor event a coherent log is ambiguous. */
  lemma NoSingleAnchor(digests: Digests, r: Request, events: seq<TrustedEvent>)
    requires RequestAccepted(r) && Coherent(r, events) && !exists a :: IsAnchor(r, events, a)
    ensures Evaluate(digests, r, events) == Err(AmbiguousAnchor)
  {
    RequestExactly(r);
    EvaluateArranges(digests, r, events);
    AnchorExactly(r, events, Sort(Dedup(r, events).value, EventLess));
  }

  /** Verified, exactly: an acceptable request, a coherent log with a single anchor, evaluated at or after
      finalization, with an event that counts of every required type and none of a disqualifying type, and
      without two amounts that count in different currencies. What conflicts also disqualifies. */
  lemma VerifiedExactly(digests: Digests, r: Request, events: seq<TrustedEvent>)
    ensures var res := Evaluate(digests, r, events);
      res.Ok? && res.value.assessment.verdict == Verified <==>
      RequestAccepted(r) && Coherent(r, events) &&
      exists a :: IsAnchor(r, events, a) &&
        var s := TemplateOf(r.template);
        r.asOf >= FinalAt(r, a)
        && (forall t :: t in s.required ==> exists e :: e in events && Counts(r, a, e) && e.eventType == t)
        && (forall e :: e in events && Counts(r, a, e) ==> e.eventType !in s.disqualifying)
        && !CurrencyClash(r, s, events, a)
  {
    RequestExactly(r);
    DedupExactly(r, events);
    if RequestAccepted(r) && Coherent(r, events) {
      if exists a :: IsAnchor(r, events, a) {
        var a :| IsAnchor(r, events, a);
        VerdictTable(digests, r, events, a);
        assert forall b :: IsAnchor(r, events, b) ==> b == a;
        ConflictDisqualifies(r.template, Present(r, events, a));
      } else {
        NoSingleAnchor(digests, r, events);
      }
    }
  }

  lemma ConflictDisqualifies(name: string, present: set<string>)
    ensures Conflicts(TemplateOf(name), present) ==> exists t :: t in TemplateOf(name).disqualifying && t in present
  {
    if Conflicts(TemplateOf(name), present) { assert "booking.no_show" in present; }
  }

  /** An attended booking: created, attended within the window, no absence recorded, evaluated at or after
      finalization. It is verified, whatever the windows and instants. */
  lemma AttendedBookingVerifies(digests: Digests, r: Request, created: TrustedEvent, attended: TrustedEvent)
    requires RequestAccepted(r) && r.template == "attended_booking" && r.anchorEventType == "booking.created"
    requires Coherent(r, [created, attended])
    requires created.eventType == "booking.created" && attended.eventType == "booking.attended"
    requires created.occurredAt <= attended.occurredAt < created.occurredAt + r.evaluationWindow * 1_000_000
    requires attended.receivedAt <= FinalAt(r, created) <= r.asOf
    ensures Evaluate(digests, r, [created, attended]).Ok?
    ensures Evaluate(digests, r, [created, attended]).value.assessment.verdict == Verified
  {
    var events := [created, attended];
    var s := TemplateOf(r.template);
    assert events[0] == created && events[1] == attended;
    Apart();
    assert IsAnchor(r, events, created);
    assert created in events && Counts(r, created, created) && attended in events && Counts(r, created, attended);
    forall e | e in events ensures e.eventType !in s.disqualifying { }
    VerifiedExactly(digests, r, events);
  }

  /** The event types of a booking are told apart by their ninth character. */
  lemma Apart()
    ensures "booking.created" != "booking.attended" && "booking.no_show" !in {"booking.created", "booking.attended"}
  {
    assert "booking.created"[8] == 'c' && "booking.attended"[8] == 'a' && "booking.no_show"[8] == 'n';
  }

  // ---------------------------------------------------------------- the evidence

  function RelevantOf(s: Strategy, events: seq<TrustedEvent>): seq<TrustedEvent> {
    if events == [] then [] else (if Relevant(s, events[0]) then [events[0]] else []) + RelevantOf(s, events[1..])
  }

  lemma {:induction false} EvidenceIsRelevant(s: Strategy, a: TrustedEvent, events: seq<TrustedEvent>)
    ensures |EvidenceOf(s, a, events)| == |RelevantOf(s, events)|
    ensures forall i :: 0 <= i < |RelevantOf(s, events)| ==> EvidenceOf(s, a, events)[i] == EvidenceFor(s, a, RelevantOf(s, events)[i])
    decreases |events|
  {
    if events != [] { EvidenceIsRelevant(s, a, events[1..]); }
  }

  lemma {:induction false} RelevantAre(s: Strategy, events: seq<TrustedEvent>)
    ensures forall e :: e in RelevantOf(s, events) <==> e in events && Relevant(s, e)
    ensures Ascending(events, EventLess) ==> Ascending(RelevantOf(s, events), EventLess)
    decreases |events|
  {
    if events != [] {
      RelevantAre(s, events[1..]);
      assert forall e :: e in events <==> e == events[0] || e in events[1..];
      if Ascending(events, EventLess) {
        var rest := RelevantOf(s, events[1..]);
        forall j | 0 <= j < |rest| ensures EventLess(events[0], rest[j]) {
          assert rest[j] in rest;
          var k :| 0 <= k < |events| - 1 && events[1..][k] == rest[j];
          assert EventLess(events[0], events[k + 1]);
        }
      }
    }
  }

  /** `rel` is what counts of the log and is of a required or disqualifying type, in time order. */
  ghost predicate RelevantEvidence(r: Request, s: Strategy, events: seq<TrustedEvent>, a: TrustedEvent, rel: seq<TrustedEvent>) {
    && (forall i, j :: 0 <= i < j < |rel| ==> Earlier(rel[i], rel[j]))
    && forall e :: e in rel <==>
         e in events && Counts(r, a, e) && (e.eventType in s.required || e.eventType in s.disqualifying)
  }

  /** Each item shows its event, and its role: anchor for the anchor alone, required for a required
      type, disqualifying otherwise. */
  ghost predicate Shows(s: Strategy, a: TrustedEvent, item: Evidence, e: TrustedEvent) {
    && item.eventId == e.eventId && item.eventDigest == e.eventDigest && item.eventType == e.eventType
    && (item.role == Anchor <==> e == a)
    && (item.role == Required <==> e != a && e.eventType in s.required)
    && (item.role == Disqualifying ==> e.eventType in s.disqualifying)
  }

  lemma EvidenceShows(r: Request, s: Strategy, events: seq<TrustedEvent>, ordered: seq<TrustedEvent>, a: TrustedEvent)
    requires Arranged(events, ordered) && a in events
    ensures var rel, ev := RelevantOf(s, AdmissibleOf(r, a, ordered)), EvidenceOf(s, a, AdmissibleOf(r, a, ordered));
      && RelevantEvidence(r, s, events, a, rel)
      && |ev| == |rel| && forall i :: 0 <= i < |rel| ==> Shows(s, a, ev[i], rel[i])
  {
    var admissible := AdmissibleOf(r, a, ordered);
    AdmissibleAre(r, a, ordered);
    CountingAre(r, events, ordered, a);
    RelevantAre(s, admissible);
    forall e, f ensures Earlier(e, f) <==> EventLess(e, f) { EarlierIs(e, f); }
    EvidenceIsRelevant(s, a, admissible);
    var rel, ev := RelevantOf(s, admissible), EvidenceOf(s, a, admissible);
    forall i | 0 <= i < |rel| ensures Shows(s, a, ev[i], rel[i]) {
      assert rel[i] in rel && rel[i] in ordered && a in ordered && Relevant(s, rel[i]);
    }
  }

  /** The evidence lists exactly the relevant admissible events, in time order, each in its role; the
      anchor is among them. */
  lemma EvidenceExactly(digests: Digests, r: Request, events: seq<TrustedEvent>, a: TrustedEvent)
      returns (rel: seq<TrustedEvent>)
    requires IsAnchor(r, events, a)
    ensures Evaluate(digests, r, events).Ok? ==>
      && RequestAccepted(r) && RelevantEvidence(r, TemplateOf(r.template), events, a, rel) && a in rel
      && var ev := Evaluate(digests, r, events).value.assessment.evidence;
         |ev| == |rel| && forall i :: 0 <= i < |rel| ==> Shows(TemplateOf(r.template), a, ev[i], rel[i])
  {
    rel := [];
    RequestExactly(r);
    if Evaluate(digests, r, events).Err? { return; }
    DedupExactly(r, events);
    EvaluateArranges(digests, r, events);
    var s, ordered := ValidateRequest(r).value, Sort(Dedup(r, events).value, EventLess);
    AnchorExactly(r, events, ordered);
    EvidenceShows(r, s, events, ordered, a);
    AnchorTypeRequired(r);
    rel := RelevantOf(s, AdmissibleOf(r, a, ordered));
  }

  /** A verified result shows evidence of every required type. */
  lemma VerifiedShowsEveryRequiredType(digests: Digests, r: Request, events: seq<TrustedEvent>, t: string)
    requires RequestAccepted(r) && t in TemplateOf(r.template).required
    ensures var res := Evaluate(digests, r, events);
      res.Ok? && res.value.assessment.verdict == Verified ==>
      var ev := res.value.assessment.evidence; exists i :: 0 <= i < |ev| && ev[i].eventType == t
  {
    var res := Evaluate(digests, r, events);
    if res.Err? || res.value.assessment.verdict != Verified { return; }
    var a := OkHasAnchor(digests, r, events);
    VerdictTable(digests, r, events, a);
    var rel := EvidenceExactly(digests, r, events, a);
    assert t in Present(r, events, a);
    var e :| e in events && Counts(r, a, e) && e.eventType == t;
    assert e in rel;
    var i :| 0 <= i < |rel| && rel[i] == e;
    assert Evaluate(digests, r, events).value.assessment.evidence[i].eventType == t;
  }

  lemma AnchorTypeRequired(r: Request)
    requires ValidateRequest(r).Ok?
    ensures r.anchorEventType in ValidateRequest(r).value.required
    ensures 0 < r.evaluationWindow && 0 <= r.finalizationWindow
  {
  }

  // ---------------------------------------------------------------- a growing log

  /** The log only gains events of this request, under fresh ids, that are not anchors. */
  ghost predicate Gains(r: Request, before: seq<TrustedEvent>, after: seq<TrustedEvent>) {
    && (forall e :: e in before ==> e in after)
    && Coherent(r, after)
    && (forall e :: e in after && e !in before ==> e.eventType != r.anchorEventType)
  }

  ghost predicate NewReceivedAfter(before: seq<TrustedEvent>, after: seq<TrustedEvent>, t: Instant) {
    forall e :: e in after && e !in before ==> e.receivedAt > t
  }

  lemma AdmissionGrows(r1: Request, r2: Request, a: TrustedEvent, e: TrustedEvent)
    requires r2 == r1.(asOf := r2.asOf) && r1.asOf <= r2.asOf
    ensures Finalization(r2, a) == Finalization(r1, a)
    ensures Admits(r1, a, e) ==> Admits(r2, a, e)
    ensures r1.asOf >= Finalization(r1, a) ==> (Admits(r1, a, e) <==> Admits(r2, a, e))
  {
  }

  lemma OkHasAnchor(digests: Digests, r: Request, events: seq<TrustedEvent>) returns (a: TrustedEvent)
    requires Evaluate(digests, r, events).Ok?
    ensures ValidateRequest(r).Ok? && RequestAccepted(r) && Coherent(r, events) && IsAnchor(r, events, a)
    ensures Evaluate(digests, r, events).value.assessment.finalization == Finalization(r, a)
  {
    RequestExactly(r);
    DedupExactly(r, events);
    EvaluateArranges(digests, r, events);
    AnchorExactly(r, events, Sort(Dedup(r, events).value, EventLess));
    a :| IsAnchor(r, events, a);
    VerdictTable(digests, r, events, a);
    CountsAdmits(r, a, a);
  }

  lemma SameAdmissible(
      r1: Request, r2: Request, before: seq<TrustedEvent>, after: seq<TrustedEvent>,
      o1: seq<TrustedEvent>, o2: seq<TrustedEvent>, a: TrustedEvent)
    requires r2 == r1.(asOf := r2.asOf) && r1.asOf <= r2.asOf && Gains(r1, before, after) && a in before
    requires Arranged(before, o1) && Arranged(after, o2)
    requires r1.asOf >= Finalization(r1, a) && NewReceivedAfter(before, after, Finalization(r1, a))
    ensures AdmissibleOf(r1, a, o1) == AdmissibleOf(r2, a, o2)
  {
    AdmissibleAre(r1, a, o1);
    AdmissibleAre(r2, a, o2);
    var m1, m2 := AdmissibleOf(r1, a, o1), AdmissibleOf(r2, a, o2);
    forall e ensures e in m1 <==> e in m2 {
      AdmissionGrows(r1, r2, a, e);
      assert e in after && e !in before ==> e.eventId != a.eventId;
    }
    forall x, y | x in m1 && y in m1 && EventLess(x, y) ensures !EventLess(y, x) { EventLessAsymmetric(x, y); }
    AscendingIsUnique(m1, m2, EventLess);
  }

  /** Once evaluated at or after finalization, a result recurs exactly, evidence included, however late
      it is evaluated again, as long as the log only gained events received after finalization. */
  lemma FinalizedResultRecurs(digests: Digests, r1: Request, r2: Request, before: seq<TrustedEvent>, after: seq<TrustedEvent>)
    requires r2 == r1.(asOf := r2.asOf) && r1.asOf <= r2.asOf
    requires Evaluate(digests, r1, before).Ok? && Gains(r1, before, after)
    requires var f := Evaluate(digests, r1, before).value.assessment.finalization; r1.asOf >= f && NewReceivedAfter(before, after, f)
    ensures Evaluate(digests, r2, after).Ok?
    ensures Evaluate(digests, r2, after).value.assessment == Evaluate(digests, r1, before).value.assessment
  {
    var a := OkHasAnchor(digests, r1, before);
    EvaluateArranges(digests, r1, before);
    EvaluateArranges(digests, r2, after);
    var o1, o2 := Sort(Dedup(r1, before).value, EventLess), Sort(Dedup(r2, after).value, EventLess);
    assert IsAnchor(r2, after, a);
    AnchorExactly(r1, before, o1);
    AnchorExactly(r2, after, o2);
    SameAdmissible(r1, r2, before, after, o1, o2, a);
    SameAssessment(r1, r2, ValidateRequest(r1).value, o1, o2, a);
  }

  lemma SameAssessment(r1: Request, r2: Request, s: Strategy, o1: seq<TrustedEvent>, o2: seq<TrustedEvent>, a: TrustedEvent)
    requires r2 == r1.(asOf := r2.asOf) && r1.asOf <= r2.asOf && r1.asOf >= Finalization(r1, a)
    requires AnchorsOf(r1, o1) == [a] && AnchorsOf(r2, o2) == [a]
    requires AdmissibleOf(r1, a, o1) == AdmissibleOf(r2, a, o2)
    ensures Assess(r2, s, o2) == Assess(r1, s, o1)
  {
    var f, m := Finalization(r1, a), AdmissibleOf(r1, a, o1);
    assert Finalization(r2, a) == f;
    DecidedAlike(r1, r2, s, TypesOf(m), f);
    AssessedFrom(r1, s, o1, a, m, f);
    AssessedFrom(r2, s, o2, a, m, f);
  }

  /** From finalization on the verdict does not look at the clock. */
  lemma DecidedAlike(r1: Request, r2: Request, s: Strategy, present: set<string>, finalization: Instant)
    requires r1.asOf >= finalization && r2.asOf >= finalization
    ensures Decide(r1, s, present, finalization) == Decide(r2, s, present, finalization)
  {
  }

  /** A terminal verdict never flips: evaluated later over a log that only gained events received after
      the first evaluation, a verified or rejected result recurs with the same reason, unless the new
      evidence makes the evaluation fail as conflicting or as mixing currencies. */
  lemma TerminalNeverFlips(digests: Digests, r1: Request, r2: Request, before: seq<TrustedEvent>, after: seq<TrustedEvent>)
    requires r2 == r1.(asOf := r2.asOf) && r1.asOf <= r2.asOf
    requires Evaluate(digests, r1, before).Ok?
    requires Gains(r1, before, after) && NewReceivedAfter(before, after, r1.asOf)
    ensures var first, second := Evaluate(digests, r1, before).value.assessment, Evaluate(digests, r2, after);
      || first.verdict == Pending
      || (second.Ok? && second.value.assessment.verdict == first.verdict && second.value.assessment.reason == first.reason)
      || second == Err(ConflictingTerminalEvents) || second == Err(CurrencyMismatch)
  {
    var a := OkHasAnchor(digests, r1, before);
    if Evaluate(digests, r1, before).value.assessment.verdict == Pending { return; }
    if r1.asOf >= Finalization(r1, a) {
      FinalizedResultRecurs(digests, r1, r2, before, after);
    } else {
      CountsAdmits(r1, a, a);
      VerdictTable(digests, r1, before, a);
      assert IsAnchor(r2, after, a);
      VerdictTable(digests, r2, after, a);
      var s := TemplateOf(r1.template);
      var t :| t in s.disqualifying && t in Present(r1, before, a);
      var e :| e in before && Counts(r1, a, e) && e.eventType == t;
      assert Counts(r2, a, e) && e in after;
      assert t in Present(r2, after, a);
    }
  }
}
