/** What the digests of an evaluation pin down. No property of the hash is assumed: where the digests
    agree and the conclusion fails, the two documents are themselves a collision. */
module EvaluatorDigests {
  import opened Basics
  import opened Ordering
  import opened Evaluator
  import J = CanonicalJson

  predicate Collides(sha: string -> string, x: string, y: string) { x != y && sha(x) == sha(y) }

  // ---------------------------------------------------------------- documents of one shape

  ghost predicate SameKeys(f: seq<J.Field>, g: seq<J.Field>) {
    |f| == |g| && forall i :: 0 <= i < |f| ==> f[i].key == g[i].key
  }

  ghost function Values(f: seq<J.Field>): (vs: seq<J.Json>)
    ensures |vs| == |f| && forall i :: 0 <= i < |f| ==> vs[i] == J.Canon(f[i].value)
  {
    seq(|f|, i requires 0 <= i < |f| => J.Canon(f[i].value))
  }

  /** Documents with the same keys print equally exactly when they agree key by key. */
  lemma RecordsAgree(f: seq<J.Field>, g: seq<J.Field>)
    requires SameKeys(f, g) && J.DistinctKeys(f)
    ensures J.Canon(J.Dict(f)) == J.Canon(J.Dict(g)) <==> Values(f) == Values(g)
  {
    var ms, ns := J.CanonFields(f), J.CanonFields(g);
    forall i: nat | i < |f|
      ensures |ms| == |ns| == |f| && ms[i] == J.Member(f[i].key, J.Canon(f[i].value)) && ns[i] == J.Member(g[i].key, J.Canon(g[i].value))
    {
      J.CanonFieldsAt(f, i);
      J.CanonFieldsAt(g, i);
    }
    if J.Canon(J.Dict(f)) == J.Canon(J.Dict(g)) {
      J.EqualSortsSameMembers(ms, ns);
      forall i: nat | i < |f| ensures J.Canon(f[i].value) == J.Canon(g[i].value) {
        assert ms[i] in ns;
        var j: nat :| j < |ns| && ns[j] == ms[i];
        assert f[j].key == f[i].key;
      }
    }
    if Values(f) == Values(g) {
      assert forall i :: 0 <= i < |f| ==> Values(f)[i] == Values(g)[i];
      if f == [] { assert ms == ns; } else { J.CanonFieldsAt(f, 0); assert ms == ns; }
    }
  }

  lemma RecordTexts(f: seq<J.Field>, g: seq<J.Field>)
    requires SameKeys(f, g) && J.DistinctKeys(f)
    ensures J.CanonicalDocument(J.Dict(f)) == J.CanonicalDocument(J.Dict(g)) <==> Values(f) == Values(g)
  {
    J.DocumentInjective(J.Dict(f), J.Dict(g));
    RecordsAgree(f, g);
  }

  // ---------------------------------------------------------------- events

  const EVENT_KEYS := [
    "tenant_id", "event_id", "event_digest", "event_type", "schema_version", "occurred_at", "received_at",
    "subject_type", "subject_id", "references", "money", "status"]

  lemma EventKeysDiffer()
    ensures |EVENT_KEYS| == 12 && forall i, j :: 0 <= i < j < 12 ==> EVENT_KEYS[i] != EVENT_KEYS[j]
  {
  }

  lemma EventKeys(e: TrustedEvent)
    ensures |EventFields(e)| == 12 && J.DistinctKeys(EventFields(e))
    ensures forall i :: 0 <= i < 12 ==> EventFields(e)[i].key == EVENT_KEYS[i]
  {
    EventKeysDiffer();
  }

  lemma TextPair(a: string, b: string)
    ensures J.Canon(J.List([J.Str(a), J.Str(b)])) == J.JArray([J.JStr(a), J.JStr(b)])
  {
    var pair, last: seq<J.Value> := [J.Str(a), J.Str(b)], [J.Str(b)];
    assert pair[1..] == last && last[1..] == [];
    assert J.CanonAll(last) == [J.JStr(b)] + J.CanonAll([]);
    assert J.CanonAll(pair) == [J.JStr(a)] + J.CanonAll(last);
    assert J.CanonAll(pair) == [J.JStr(a), J.JStr(b)];
  }

  lemma PairText(a: seq<(string, string)>)
    requires a != []
    ensures J.CanonAll(PairValues(a))
      == [J.JArray([J.JStr(a[0].0), J.JStr(a[0].1)])] + J.CanonAll(PairValues(a[1..]))
  {
    TextPair(a[0].0, a[0].1);
    assert PairValues(a)[1..] == PairValues(a[1..]);
  }

  lemma {:induction false} PairsAgree(a: seq<(string, string)>, b: seq<(string, string)>)
    ensures J.CanonAll(PairValues(a)) == J.CanonAll(PairValues(b)) <==> a == b
    decreases |a|
  {
    if a != [] { PairText(a); }
    if b != [] { PairText(b); }
    if a != [] && b != [] {
      PairsAgree(a[1..], b[1..]);
      assert a == [a[0]] + a[1..] && b == [b[0]] + b[1..];
      var x, y := J.CanonAll(PairValues(a)), J.CanonAll(PairValues(b));
      assert x[1..] == J.CanonAll(PairValues(a[1..])) && y[1..] == J.CanonAll(PairValues(b[1..]));
      assert x[0] == y[0] <==> a[0] == b[0];
    }
  }

  /** Equal up to the order in which references were attached. */
  ghost predicate SameEvent(e: TrustedEvent, f: TrustedEvent) {
    e.(references := []) == f.(references := []) && Sort(e.references, PairLess) == Sort(f.references, PairLess)
  }

  /** References sort by their type, then by their id. */
  lemma PairLessExactly(a: (string, string), b: (string, string))
    ensures PairLess(a, b) <==> Precedes(a.0, b.0) || (a.0 == b.0 && Precedes(a.1, b.1))
  {
    StringLessExactly(a.0, b.0);
    StringLessExactly(a.1, b.1);
  }

  /** Money is null, or its currency and its minor units. */
  ghost predicate MoneyIs(m: Option<Money>, j: J.Json) {
    match m
    case None => j == J.JNull
    case Some(money) => j == J.JObject([J.Member("currency", J.JStr(money.currency)), J.Member("minor_units", J.JInt(money.minorUnits))])
  }

  lemma MoneyDescribed(m: Option<Money>)
    ensures MoneyIs(m, J.Canon(MoneyDocument(m)))
  {
    if m.Some? {
      var fields := MoneyDocument(m).fields;
      var minor, currency := J.Member("minor_units", J.JInt(m.value.minorUnits)), J.Member("currency", J.JStr(m.value.currency));
      assert fields[1..][1..] == [];
      assert J.CanonFields(fields[1..]) == [currency] + J.CanonFields([]);
      assert J.CanonFields(fields) == [minor] + J.CanonFields(fields[1..]);
      assert J.CanonFields(fields) == [minor, currency];
      assert "currency"[0] < "minor_units"[0];
      assert J.KeyLess(currency, minor);
      assert Sort([currency], J.KeyLess) == [currency] by { assert [currency][1..] == []; }
      assert [minor, currency][1..] == [currency];
      assert Insert(minor, [currency], J.KeyLess) == [currency, minor] by { assert [currency][1..] == []; }
    }
  }

  /** The twelve values of an event document. */
  ghost predicate Describes(e: TrustedEvent, vs: seq<J.Json>) {
    && |vs| == 12
    && vs[0] == J.JStr(e.tenantId) && vs[1] == J.JStr(e.eventId) && vs[2] == J.JStr(e.eventDigest)
    && vs[3] == J.JStr(e.eventType) && vs[4] == J.JInt(e.schemaVersion)
    && vs[5] == J.JStr(J.IntText(e.occurredAt)) && vs[6] == J.JStr(J.IntText(e.receivedAt))
    && vs[7] == J.JStr(e.subjectType) && vs[8] == J.JStr(e.subjectId)
    && vs[9] == J.JArray(J.CanonAll(PairValues(Sort(e.references, PairLess))))
    && MoneyIs(e.money, vs[10]) && vs[11] == (if e.status.None? then J.JNull else J.JStr(e.status.value))
  }

  lemma EventDescribed(e: TrustedEvent)
    ensures Describes(e, Values(EventFields(e)))
  {
    EventKeys(e);
    var x, vs := EventFields(e), Values(EventFields(e));
    assert vs[0] == J.Canon(x[0].value) && vs[1] == J.Canon(x[1].value) && vs[2] == J.Canon(x[2].value);
    assert vs[3] == J.Canon(x[3].value) && vs[4] == J.Canon(x[4].value) && vs[5] == J.Canon(x[5].value);
    assert vs[6] == J.Canon(x[6].value) && vs[7] == J.Canon(x[7].value) && vs[8] == J.Canon(x[8].value);
    assert vs[9] == J.Canon(x[9].value) && vs[10] == J.Canon(x[10].value) && vs[11] == J.Canon(x[11].value);
    MoneyDescribed(e.money);
  }

  lemma MoneyAgrees(m: Option<Money>, n: Option<Money>, x: J.Json, y: J.Json)
    requires MoneyIs(m, x) && MoneyIs(n, y)
    ensures x == y <==> m == n
  {
    if m.Some? && n.Some? && x == y {
      assert x.members[0] == y.members[0] && x.members[1] == y.members[1];
    }
  }

  lemma DescribedAgree(e: TrustedEvent, f: TrustedEvent, vs: seq<J.Json>, ws: seq<J.Json>)
    requires Describes(e, vs) && Describes(f, ws)
    ensures vs == ws <==> SameEvent(e, f)
  {
    MoneyAgrees(e.money, f.money, vs[10], ws[10]);
    PairsAgree(Sort(e.references, PairLess), Sort(f.references, PairLess));
    if vs == ws {
      J.IntTextInjective(e.occurredAt, f.occurredAt);
      J.IntTextInjective(e.receivedAt, f.receivedAt);
    }
  }

  lemma SameEventKeys(e: TrustedEvent, f: TrustedEvent)
    ensures SameKeys(EventFields(e), EventFields(f)) && J.DistinctKeys(EventFields(e))
  {
    EventKeys(e);
    EventKeys(f);
  }

  /** Two events are described by the same text exactly when they differ at most in the order of their
      references. */
  lemma EventAgrees(e: TrustedEvent, f: TrustedEvent)
    ensures J.Canon(J.Dict(EventFields(e))) == J.Canon(J.Dict(EventFields(f))) <==> SameEvent(e, f)
  {
    SameEventKeys(e, f);
    EventDescribed(e);
    EventDescribed(f);
    FieldsAgree(e, f, EventFields(e), EventFields(f));
  }

  lemma FieldsAgree(e: TrustedEvent, f: TrustedEvent, x: seq<J.Field>, y: seq<J.Field>)
    requires SameKeys(x, y) && J.DistinctKeys(x) && Describes(e, Values(x)) && Describes(f, Values(y))
    ensures J.Canon(J.Dict(x)) == J.Canon(J.Dict(y)) <==> SameEvent(e, f)
  {
    DescribedAgree(e, f, Values(x), Values(y));
    RecordsAgree(x, y);
  }

  ghost predicate SameEvents(a: seq<TrustedEvent>, b: seq<TrustedEvent>) {
    |a| == |b| && forall i :: 0 <= i < |a| ==> SameEvent(a[i], b[i])
  }

  lemma EventDocumentsSplit(a: seq<TrustedEvent>)
    requires a != []
    ensures var ds := J.CanonAll(EventDocuments(a));
      ds != [] && ds[0] == J.Canon(J.Dict(EventFields(a[0]))) && ds[1..] == J.CanonAll(EventDocuments(a[1..]))
  {
    assert EventDocuments(a)[1..] == EventDocuments(a[1..]);
  }

  lemma {:induction false} EventsAgree(a: seq<TrustedEvent>, b: seq<TrustedEvent>)
    ensures J.CanonAll(EventDocuments(a)) == J.CanonAll(EventDocuments(b)) <==> SameEvents(a, b)
    decreases |a|
  {
    if a != [] { EventDocumentsSplit(a); }
    if b != [] { EventDocumentsSplit(b); }
    if a != [] && b != [] {
      EventAgrees(a[0], b[0]);
      EventsAgree(a[1..], b[1..]);
      var x, y := J.CanonAll(EventDocuments(a)), J.CanonAll(EventDocuments(b));
      assert x == [x[0]] + x[1..] && y == [y[0]] + y[1..];
      assert SameEvents(a, b) <==> SameEvent(a[0], b[0]) && SameEvents(a[1..], b[1..]) by {
        SplitSame(a, b);
      }
    }
  }

  lemma SplitSame(a: seq<TrustedEvent>, b: seq<TrustedEvent>)
    requires a != [] && b != []
    ensures SameEvents(a, b) <==> SameEvent(a[0], b[0]) && SameEvents(a[1..], b[1..])
  {
    if SameEvents(a, b) {
      forall i | 0 <= i < |a| - 1 ensures SameEvent(a[1..][i], b[1..][i]) {
        var k := i + 1;
        assert SameEvent(a[k], b[k]);
      }
    }
    if SameEvent(a[0], b[0]) && SameEvents(a[1..], b[1..]) {
      forall i | 0 <= i < |a| ensures SameEvent(a[i], b[i]) {
        if i > 0 { var k := i - 1; assert SameEvent(a[1..][k], b[1..][k]); }
      }
    }
  }

  // ---------------------------------------------------------------- the input document

  const INPUT_KEYS := [
    "schema_version", "tenant_id", "as_of", "source", "contract", "rule", "template", "anchor_event_type",
    "evaluation_window_seconds", "finalization_window_seconds", "subject", "events"]

  lemma InputKeys(r: Request, events: seq<TrustedEvent>)
    ensures |InputFields(r, events)| == 12 && J.DistinctKeys(InputFields(r, events))
    ensures forall i :: 0 <= i < 12 ==> InputFields(r, events)[i].key == INPUT_KEYS[i]
  {
  }

  /** The twelve values of an input document. */
  ghost predicate Inputs(r: Request, events: seq<TrustedEvent>, vs: seq<J.Json>) {
    && |vs| == 12
    && vs[0] == J.JInt(r.schemaVersion) && vs[1] == J.JStr(r.tenantId) && vs[2] == J.JStr(J.IntText(r.asOf))
    && vs[3] == J.JArray([J.JStr(r.sourceType), J.JStr(r.sourceId)])
    && vs[4] == J.JArray([J.JStr(r.contractVersionId), J.JStr(r.contractDigest)])
    && vs[5] == J.JArray([J.JStr(r.ruleVersionId), J.JStr(r.ruleDigest)])
    && vs[6] == J.JStr(r.template) && vs[7] == J.JStr(r.anchorEventType)
    && vs[8] == J.JInt(r.evaluationWindow) && vs[9] == J.JInt(r.finalizationWindow)
    && vs[10] == J.JArray([J.JStr(r.subjectType), J.JStr(r.subjectId)])
    && vs[11] == J.JArray(J.CanonAll(EventDocuments(events)))
  }

  lemma InputDescribed(r: Request, events: seq<TrustedEvent>)
    ensures Inputs(r, events, Values(InputFields(r, events)))
  {
    InputKeys(r, events);
    TextPair(r.sourceType, r.sourceId);
    TextPair(r.contractVersionId, r.contractDigest);
    TextPair(r.ruleVersionId, r.ruleDigest);
    TextPair(r.subjectType, r.subjectId);
    var x, vs := InputFields(r, events), Values(InputFields(r, events));
    assert vs[0] == J.Canon(x[0].value) && vs[1] == J.Canon(x[1].value) && vs[2] == J.Canon(x[2].value);
    assert vs[3] == J.Canon(x[3].value) && vs[4] == J.Canon(x[4].value) && vs[5] == J.Canon(x[5].value);
    assert vs[6] == J.Canon(x[6].value) && vs[7] == J.Canon(x[7].value) && vs[8] == J.Canon(x[8].value);
    assert vs[9] == J.Canon(x[9].value) && vs[10] == J.Canon(x[10].value) && vs[11] == J.Canon(x[11].value);
  }

  /** Requests that differ at most in the ids of the outcome and evaluation and in the publication flag,
      which a successful evaluation has found set. */
  predicate SameQuestion(r: Request, q: Request) {
    q == r.(outcomeId := q.outcomeId, evaluationId := q.evaluationId, rulePublished := q.rulePublished)
  }

  lemma InputsAgree(r: Request, q: Request, a: seq<TrustedEvent>, b: seq<TrustedEvent>, vs: seq<J.Json>, ws: seq<J.Json>)
    requires Inputs(r, a, vs) && Inputs(q, b, ws)
    ensures vs == ws <==> SameQuestion(r, q) && SameEvents(a, b)
  {
    EventsAgree(a, b);
    if vs == ws {
      J.IntTextInjective(r.asOf, q.asOf);
      TextPairsAgree(r.sourceType, r.sourceId, q.sourceType, q.sourceId);
      TextPairsAgree(r.contractVersionId, r.contractDigest, q.contractVersionId, q.contractDigest);
      TextPairsAgree(r.ruleVersionId, r.ruleDigest, q.ruleVersionId, q.ruleDigest);
      TextPairsAgree(r.subjectType, r.subjectId, q.subjectType, q.subjectId);
    }
  }

  lemma TextPairsAgree(a: string, b: string, c: string, d: string)
    ensures J.JArray([J.JStr(a), J.JStr(b)]) == J.JArray([J.JStr(c), J.JStr(d)]) <==> a == c && b == d
  {
    var x, y := [J.JStr(a), J.JStr(b)], [J.JStr(c), J.JStr(d)];
    if x == y { assert x[0] == y[0] && x[1] == y[1]; }
  }

  lemma SameInputKeys(r: Request, q: Request, a: seq<TrustedEvent>, b: seq<TrustedEvent>)
    ensures SameKeys(InputFields(r, a), InputFields(q, b)) && J.DistinctKeys(InputFields(r, a))
  {
    InputKeys(r, a);
    InputKeys(q, b);
  }

  /** The input document captures the question and the evidence, and nothing else. */
  lemma InputTextExactly(r: Request, q: Request, a: seq<TrustedEvent>, b: seq<TrustedEvent>)
    ensures InputText(r, a) == InputText(q, b) <==> SameQuestion(r, q) && SameEvents(a, b)
  {
    SameInputKeys(r, q, a, b);
    RecordTexts(InputFields(r, a), InputFields(q, b));
    InputDescribed(r, a);
    InputDescribed(q, b);
    InputsAgree(r, q, a, b, Values(InputFields(r, a)), Values(InputFields(q, b)));
  }

  // ---------------------------------------------------------------- references decide nothing

  lemma {:induction false} AnchorsAgree(r: Request, a: seq<TrustedEvent>, b: seq<TrustedEvent>)
    requires SameEvents(a, b)
    ensures SameEvents(AnchorsOf(r, a), AnchorsOf(r, b))
    decreases |a|
  {
    if a != [] { SplitSame(a, b); AnchorsAgree(r, a[1..], b[1..]); }
  }

  lemma {:induction false} AdmissibleAgree(r: Request, x: TrustedEvent, y: TrustedEvent, a: seq<TrustedEvent>, b: seq<TrustedEvent>)
    requires SameEvents(a, b) && SameEvent(x, y)
    ensures SameEvents(AdmissibleOf(r, x, a), AdmissibleOf(r, y, b))
    decreases |a|
  {
    if a != [] { SplitSame(a, b); AdmissibleAgree(r, x, y, a[1..], b[1..]); }
  }

  lemma {:induction false} EvidenceAgree(s: Strategy, x: TrustedEvent, y: TrustedEvent, a: seq<TrustedEvent>, b: seq<TrustedEvent>)
    requires SameEvents(a, b) && SameEvent(x, y)
    ensures EvidenceOf(s, x, a) == EvidenceOf(s, y, b)
    decreases |a|
  {
    if a != [] { SplitSame(a, b); EvidenceAgree(s, x, y, a[1..], b[1..]); }
  }

  lemma TypesWithin(s: Strategy, a: seq<TrustedEvent>, b: seq<TrustedEvent>)
    requires SameEvents(a, b)
    ensures TypesOf(a) <= TypesOf(b)
    ensures CurrenciesOf(s, a) <= CurrenciesOf(s, b)
  {
    forall t | t in TypesOf(a) ensures t in TypesOf(b) {
      var i :| 0 <= i < |a| && a[i].eventType == t;
      assert SameEvent(a[i], b[i]) && b[i] in b;
    }
    forall c | c in CurrenciesOf(s, a) ensures c in CurrenciesOf(s, b) {
      var e :| e in a && e.eventType in s.monetary && e.money.Some? && e.money.value.currency == c;
      var i :| 0 <= i < |a| && a[i] == e;
      assert SameEvent(a[i], b[i]) && b[i] in b;
    }
  }

  lemma FindingsAgree(
      r: Request, q: Request, s: Strategy, x: TrustedEvent, y: TrustedEvent, a: seq<TrustedEvent>, b: seq<TrustedEvent>)
    requires SameQuestion(r, q) && SameEvents(a, b) && SameEvent(x, y)
    ensures var m, n := AdmissibleOf(r, x, a), AdmissibleOf(q, y, b);
      TypesOf(m) == TypesOf(n) && CurrenciesOf(s, m) == CurrenciesOf(s, n) && EvidenceOf(s, x, m) == EvidenceOf(s, y, n)
  {
    AdmissibleAgree(r, x, y, a, b);
    AdmissibleIgnoresIds(r, q, y, b);
    var m, n := AdmissibleOf(r, x, a), AdmissibleOf(q, y, b);
    TypesWithin(s, m, n);
    TypesWithin(s, n, m);
    EvidenceAgree(s, x, y, m, n);
  }

  /** The assessment reads the question and the events, never the order of references nor the ids. */
  lemma AssessmentsAgree(r: Request, q: Request, s: Strategy, a: seq<TrustedEvent>, b: seq<TrustedEvent>)
    requires SameQuestion(r, q) && SameEvents(a, b)
    ensures Assess(r, s, a) == Assess(q, s, b)
  {
    AnchorsAgree(r, a, b);
    AnchorsIgnoreIds(r, q, b);
    var xs, ys := AnchorsOf(r, a), AnchorsOf(q, b);
    if |xs| == 1 {
      var x, y := xs[0], ys[0];
      assert SameEvent(x, y);
      FindingsAgree(r, q, s, x, y, a, b);
      AssessedFrom(r, s, a, x, AdmissibleOf(r, x, a), Finalization(r, x));
      AssessedFrom(q, s, b, y, AdmissibleOf(q, y, b), Finalization(q, y));
    }
  }

  lemma {:induction false} AnchorsIgnoreIds(r: Request, q: Request, a: seq<TrustedEvent>)
    requires SameQuestion(r, q)
    ensures AnchorsOf(r, a) == AnchorsOf(q, a)
    decreases |a|
  {
    if a != [] { AnchorsIgnoreIds(r, q, a[1..]); }
  }

  lemma {:induction false} AdmissibleIgnoresIds(r: Request, q: Request, x: TrustedEvent, a: seq<TrustedEvent>)
    requires SameQuestion(r, q)
    ensures AdmissibleOf(r, x, a) == AdmissibleOf(q, x, a)
    decreases |a|
  {
    if a != [] { AdmissibleIgnoresIds(r, q, x, a[1..]); }
  }

  // ---------------------------------------------------------------- the digests

  lemma OkConcludes(sha: string -> string, r: Request, events: seq<TrustedEvent>)
    ensures Evaluate(Documented(sha), r, events).Ok? ==>
      && ValidateRequest(r).Ok? && Dedup(r, events).Ok?
      && var ordered, res := Sort(Dedup(r, events).value, EventLess), Evaluate(Documented(sha), r, events).value;
      && Assess(r, ValidateRequest(r).value, ordered) == Ok(res.assessment)
      && res == EvaluationResult(r.outcomeId, r.evaluationId, res.assessment, res.inputDigest, res.decisionDigest)
      && res.inputDigest == sha(InputText(r, ordered))
      && res.decisionDigest == sha(DecisionText(r, res.inputDigest, res.assessment))
  {
  }

  /** The input digest captures everything the decision depends on: two successful evaluations of one
      outcome and evaluation id with equal input digests are identical, or their input documents are a
      collision of the hash. */
  lemma InputDigestPinsResult(sha: string -> string, r: Request, q: Request, a: seq<TrustedEvent>, b: seq<TrustedEvent>)
    requires r.outcomeId == q.outcomeId && r.evaluationId == q.evaluationId
    ensures var x, y := Evaluate(Documented(sha), r, a), Evaluate(Documented(sha), q, b);
      x.Ok? && y.Ok? && x.value.inputDigest == y.value.inputDigest ==>
        && Dedup(r, a).Ok? && Dedup(q, b).Ok?
        && (|| x == y
            || Collides(sha, InputText(r, Sort(Dedup(r, a).value, EventLess)), InputText(q, Sort(Dedup(q, b).value, EventLess))))
  {
    var x, y := Evaluate(Documented(sha), r, a), Evaluate(Documented(sha), q, b);
    if x.Err? || y.Err? || x.value.inputDigest != y.value.inputDigest { return; }
    OkConcludes(sha, r, a);
    OkConcludes(sha, q, b);
    var o, p := Sort(Dedup(r, a).value, EventLess), Sort(Dedup(q, b).value, EventLess);
    if InputText(r, o) == InputText(q, p) {
      InputTextExactly(r, q, o, p);
      assert ValidateRequest(r) == ValidateRequest(q);
      AssessmentsAgree(r, q, ValidateRequest(r).value, o, p);
      SameDecisionText(r, q, x.value.inputDigest, x.value.assessment);
    }
  }

  lemma SameDecisionText(r: Request, q: Request, digest: string, a: Assessment)
    requires r.outcomeId == q.outcomeId && r.evaluationId == q.evaluationId
    ensures DecisionText(r, digest, a) == DecisionText(q, digest, a)
  {
  }

  // ---------------------------------------------------------------- the decision document

  const DECISION_KEYS := [
    "outcome_id", "evaluation_id", "input_digest", "verdict", "reason_code", "progress_state", "evidence",
    "finalization_boundary"]

  lemma DecisionKeys(r: Request, digest: string, a: Assessment)
    ensures |DecisionFields(r, digest, a)| == 8 && J.DistinctKeys(DecisionFields(r, digest, a))
    ensures forall i :: 0 <= i < 8 ==> DecisionFields(r, digest, a)[i].key == DECISION_KEYS[i]
  {
  }

  lemma SameDecisionKeys(r: Request, q: Request, d: string, e: string, a: Assessment, b: Assessment)
    ensures SameKeys(DecisionFields(r, d, a), DecisionFields(q, e, b)) && J.DistinctKeys(DecisionFields(r, d, a))
  {
    DecisionKeys(r, d, a);
    DecisionKeys(q, e, b);
  }

  /** The words of the decision document. */
  ghost predicate WordsFor(a: Assessment, verdict: string, reason: string, progress: string) {
    && (a.verdict == Pending ==> verdict == "pending" && progress == "converted")
    && (a.verdict == Verified ==> verdict == "verified" && progress == "verified")
    && (a.verdict == Rejected ==> verdict == "rejected" && progress == "rejected")
    && (a.reason == AwaitingRequiredEvidence ==> reason == "awaiting_required_evidence")
    && (a.reason == AwaitingFinalization ==> reason == "awaiting_finalization")
    && (a.reason == TemplateSatisfied ==> reason == "template_satisfied")
    && (a.reason == RequiredEventMissing ==> reason == "required_event_missing")
    && (a.reason == DisqualifyingEventPresent ==> reason == "disqualifying_event_present")
  }

  ghost predicate Decides(r: Request, digest: string, a: Assessment, vs: seq<J.Json>) {
    && |vs| == 8
    && vs[0] == J.JStr(r.outcomeId) && vs[1] == J.JStr(r.evaluationId) && vs[2] == J.JStr(digest)
    && vs[3].JStr? && vs[4].JStr? && vs[5].JStr? && WordsFor(a, vs[3].s, vs[4].s, vs[5].s)
    && vs[6] == J.JArray(J.CanonAll(EvidenceDocuments(a.evidence)))
    && vs[7] == J.JStr(J.IntText(a.finalization))
  }

  lemma DecisionDescribed(r: Request, digest: string, a: Assessment)
    ensures Decides(r, digest, a, Values(DecisionFields(r, digest, a)))
  {
    DecisionKeys(r, digest, a);
    var x, vs := DecisionFields(r, digest, a), Values(DecisionFields(r, digest, a));
    assert vs[0] == J.Canon(x[0].value) && vs[1] == J.Canon(x[1].value) && vs[2] == J.Canon(x[2].value);
    assert vs[3] == J.Canon(x[3].value) && vs[4] == J.Canon(x[4].value) && vs[5] == J.Canon(x[5].value);
    assert vs[6] == J.Canon(x[6].value) && vs[7] == J.Canon(x[7].value);
  }

  /** Verdicts differ in the first letter of their words, reasons in its length or first letter. */
  lemma WordsInjective(a: Assessment, b: Assessment, verdict: string, reason: string, progress: string)
    requires WordsFor(a, verdict, reason, progress) && WordsFor(b, verdict, reason, progress)
    ensures a.verdict == b.verdict && a.reason == b.reason
  {
    assert verdict[0] == 'p' <==> a.verdict == Pending;
    assert reason[0] == 'd' <==> a.reason == DisqualifyingEventPresent;
  }

  ghost predicate RoleWord(role: Role, word: string) {
    match role case Anchor => word == "anchor" case Required => word == "required" case Disqualifying => word == "disqualifying"
  }

  lemma RoleWordInjective(x: Role, y: Role, word: string)
    requires RoleWord(x, word) && RoleWord(y, word)
    ensures x == y
  {
    assert word[0] == 'a' <==> x == Anchor;
  }

  /** One item of evidence: its id, digest, type and role. */
  ghost predicate Testifies(e: Evidence, vs: seq<J.Json>) {
    && |vs| == 4
    && vs[0] == J.JStr(e.eventId) && vs[1] == J.JStr(e.eventDigest) && vs[2] == J.JStr(e.eventType)
    && vs[3].JStr? && RoleWord(e.role, vs[3].s)
  }

  lemma EvidenceText(e: Evidence)
    ensures J.Canon(J.List([J.Str(e.eventId), J.Str(e.eventDigest), J.Str(e.eventType), J.Str(RoleText(e.role))]))
      == J.JArray([J.JStr(e.eventId), J.JStr(e.eventDigest), J.JStr(e.eventType), J.JStr(RoleText(e.role))])
  {
    var role := RoleText(e.role);
    var four, three: seq<J.Value> :=
      [J.Str(e.eventId), J.Str(e.eventDigest), J.Str(e.eventType), J.Str(role)], [J.Str(e.eventDigest), J.Str(e.eventType), J.Str(role)];
    TextPair(e.eventType, role);
    assert four[1..] == three && three[1..] == [J.Str(e.eventType), J.Str(role)];
    assert J.CanonAll(three) == [J.JStr(e.eventDigest)] + J.CanonAll(three[1..]);
    assert J.CanonAll(four) == [J.JStr(e.eventId)] + J.CanonAll(three);
    assert J.CanonAll(four) == [J.JStr(e.eventId), J.JStr(e.eventDigest), J.JStr(e.eventType), J.JStr(role)];
  }

  lemma EvidenceDocumentsSplit(ev: seq<Evidence>)
    requires ev != []
    ensures var ds := J.CanonAll(EvidenceDocuments(ev));
      && ds != []
      && ds[0].JArray? && Testifies(ev[0], ds[0].items)
      && ds[1..] == J.CanonAll(EvidenceDocuments(ev[1..]))
  {
    EvidenceText(ev[0]);
    assert EvidenceDocuments(ev)[1..] == EvidenceDocuments(ev[1..]);
  }

  lemma {:induction false} EvidenceDocumentsInjective(x: seq<Evidence>, y: seq<Evidence>)
    requires J.CanonAll(EvidenceDocuments(x)) == J.CanonAll(EvidenceDocuments(y))
    ensures x == y
    decreases |x|
  {
    if x != [] { EvidenceDocumentsSplit(x); }
    if y != [] { EvidenceDocumentsSplit(y); }
    if x != [] && y != [] {
      var ds, es := J.CanonAll(EvidenceDocuments(x)), J.CanonAll(EvidenceDocuments(y));
      SameItem(x[0], y[0], ds[0].items);
      EvidenceDocumentsInjective(x[1..], y[1..]);
      assert x == [x[0]] + x[1..] && y == [y[0]] + y[1..];
    }
  }

  lemma SameItem(e: Evidence, f: Evidence, vs: seq<J.Json>)
    requires Testifies(e, vs) && Testifies(f, vs)
    ensures e == f
  {
    RoleWordInjective(e.role, f.role, vs[3].s);
  }

  lemma DecisionsAgree(r: Request, q: Request, d: string, e: string, a: Assessment, b: Assessment, vs: seq<J.Json>)
    requires Decides(r, d, a, vs) && Decides(q, e, b, vs)
    ensures r.outcomeId == q.outcomeId && r.evaluationId == q.evaluationId && d == e
    ensures a.verdict == b.verdict && a.reason == b.reason && a.evidence == b.evidence && a.finalization == b.finalization
  {
    WordsInjective(a, b, vs[3].s, vs[4].s, vs[5].s);
    EvidenceDocumentsInjective(a.evidence, b.evidence);
    J.IntTextInjective(a.finalization, b.finalization);
  }

  /** Equal decision digests mean the same outcome, input digest, verdict, reason, evidence and
      finalization boundary, or the decision documents are a collision of the hash. */
  lemma DecisionDigestPinsDecision(sha: string -> string, r: Request, q: Request, a: seq<TrustedEvent>, b: seq<TrustedEvent>)
    ensures var u, v := Evaluate(Documented(sha), r, a), Evaluate(Documented(sha), q, b);
      u.Ok? && v.Ok? && u.value.decisionDigest == v.value.decisionDigest ==>
      var x, y := u.value, v.value;
      || (&& x.outcomeId == y.outcomeId && x.evaluationId == y.evaluationId && x.inputDigest == y.inputDigest
          && x.assessment.verdict == y.assessment.verdict && x.assessment.reason == y.assessment.reason
          && x.assessment.evidence == y.assessment.evidence && x.assessment.finalization == y.assessment.finalization)
      || Collides(sha, DecisionText(r, x.inputDigest, x.assessment), DecisionText(q, y.inputDigest, y.assessment))
  {
    var u, v := Evaluate(Documented(sha), r, a), Evaluate(Documented(sha), q, b);
    if u.Err? || v.Err? || u.value.decisionDigest != v.value.decisionDigest { return; }
    OkConcludes(sha, r, a);
    OkConcludes(sha, q, b);
    var x, y := u.value, v.value;
    if DecisionText(r, x.inputDigest, x.assessment) == DecisionText(q, y.inputDigest, y.assessment) {
      EqualDecisionTexts(r, q, x.inputDigest, y.inputDigest, x.assessment, y.assessment);
    }
  }

  lemma EqualDecisionTexts(r: Request, q: Request, d: string, e: string, a: Assessment, b: Assessment)
    requires DecisionText(r, d, a) == DecisionText(q, e, b)
    ensures r.outcomeId == q.outcomeId && r.evaluationId == q.evaluationId && d == e
    ensures a.verdict == b.verdict && a.reason == b.reason && a.evidence == b.evidence && a.finalization == b.finalization
  {
    SameDecisionKeys(r, q, d, e, a, b);
    RecordTexts(DecisionFields(r, d, a), DecisionFields(q, e, b));
    DecisionDescribed(r, d, a);
    DecisionDescribed(q, e, b);
    DecisionsAgree(r, q, d, e, a, b, Values(DecisionFields(r, d, a)));
  }
}
