/** What holds of the pipeline tables after any deliveries, uploads and import attempts. */
module PipelineInvariant {
  import opened Basics
  import opened Envelope
  import opened Pipeline
  import J = CanonicalJson

  // ---------------------------------------------------------------- one run of an import

  function RunEvents(results: seq<Option<Event>>, n: nat): seq<Event>
    requires n <= |results|
  {
    if n == 0 then [] else RunEvents(results, n - 1) + if results[n - 1].None? then [] else [results[n - 1].value]
  }

  function RunJobs(id: nat, results: seq<Option<Event>>, n: nat): seq<Job>
    requires n <= |results|
  {
    if n == 0 then []
    else
      RunJobs(id, results, n - 1)
      + if results[n - 1].None? then [] else [Job(RowJob(id, n + 1), results[n - 1].value.id, EVENT_KIND)]
  }

  function RunErrors(id: nat, results: seq<Option<Event>>, n: nat): seq<RowError>
    requires n <= |results|
  {
    if n == 0 then [] else RunErrors(id, results, n - 1) + if results[n - 1].Some? then [] else [RowError(id, n + 1)]
  }

  /** Row k + 2 of the file was accepted as this event. */
  ghost predicate AcceptedAs(results: seq<Option<Event>>, n: nat, e: Event) {
    exists k :: 0 <= k < n <= |results| && results[k] == Some(e)
  }

  predicate Refused(results: seq<Option<Event>>, n: nat, row: nat) { 2 <= row <= n + 1 <= |results| + 1 && results[row - 2].None? }

  lemma {:induction false} RunEventsExactly(results: seq<Option<Event>>, n: nat, e: Event)
    requires n <= |results|
    ensures e in RunEvents(results, n) <==> AcceptedAs(results, n, e)
    decreases n
  {
    if n > 0 {
      RunEventsExactly(results, n - 1, e);
      var last := results[n - 1];
      assert e in RunEvents(results, n) <==> e in RunEvents(results, n - 1) || last == Some(e);
      if AcceptedAs(results, n, e) && !AcceptedAs(results, n - 1, e) {
        var k :| 0 <= k < n && results[k] == Some(e);
        assert k == n - 1;
      }
    }
  }

  lemma {:induction false} RunErrorsExactly(id: nat, results: seq<Option<Event>>, n: nat, x: RowError)
    requires n <= |results|
    ensures x in RunErrors(id, results, n) <==> x.importId == id && Refused(results, n, x.row)
    decreases n
  {
    if n > 0 {
      RunErrorsExactly(id, results, n - 1, x);
      var last := results[n - 1];
      assert x in RunErrors(id, results, n) <==> x in RunErrors(id, results, n - 1) || (last.None? && x == RowError(id, n + 1));
    }
  }

  lemma {:induction false} RunCounts(id: nat, results: seq<Option<Event>>, n: nat)
    requires n <= |results|
    ensures |RunEvents(results, n)| + |RunErrors(id, results, n)| == n
    decreases n
  {
    if n > 0 { RunCounts(id, results, n - 1); }
  }

  /** A run leaves an event for exactly each row the parser accepts, an error for exactly each row it
      refuses, and together they are all the rows. */
  lemma OneRunExactly(id: nat, results: seq<Option<Event>>)
    ensures forall e :: e in RunEvents(results, |results|) <==> AcceptedAs(results, |results|, e)
    ensures forall x :: x in RunErrors(id, results, |results|) <==> x.importId == id && Refused(results, |results|, x.row)
    ensures |RunEvents(results, |results|)| + |RunErrors(id, results, |results|)| == |results|
  {
    var n := |results|;
    forall e ensures e in RunEvents(results, n) <==> AcceptedAs(results, n, e) { RunEventsExactly(results, n, e); }
    forall x ensures x in RunErrors(id, results, n) <==> x.importId == id && Refused(results, n, x.row) {
      RunErrorsExactly(id, results, n, x);
    }
    RunCounts(id, results, n);
  }

  /** Each accepted row has its derived id. */
  ghost predicate Named(id: nat, results: seq<Option<Event>>) {
    forall k :: 0 <= k < |results| ==> results[k].Some? ==> results[k].value.id == FromRow(id, k + 2) && results[k].value.receipt.None?
  }

  lemma ResultsAreNamed(w: World, id: nat, lines: seq<string>, now: string)
    requires lines != []
    ensures Named(id, RowResults(w, id, lines, now))
  {
  }

  ghost predicate RowsOfRun(id: nat, es: seq<Event>, js: seq<Job>, n: nat) {
    && |js| == |es|
    && (forall i :: 0 <= i < |es| ==> es[i].id.FromRow? && es[i].id.importId == id && es[i].id.row <= n + 1 && es[i].receipt.None?)
    && (forall i, j :: 0 <= i < j < |es| ==> es[i].id.row < es[j].id.row)
    && (forall i :: 0 <= i < |es| ==> js[i] == Job(RowJob(id, es[i].id.row), es[i].id, EVENT_KIND))
  }

  /** The events of a run are of its own rows, in row order, each beside its job. */
  lemma {:induction false} RunRows(id: nat, results: seq<Option<Event>>, n: nat)
    requires n <= |results| && Named(id, results)
    ensures RowsOfRun(id, RunEvents(results, n), RunJobs(id, results, n), n)
    decreases n
  {
    if n > 0 { RunRows(id, results, n - 1); }
  }

  lemma {:induction false} RunErrorsAre(id: nat, results: seq<Option<Event>>, n: nat)
    requires n <= |results|
    ensures forall i :: 0 <= i < |RunErrors(id, results, n)| ==>
      RunErrors(id, results, n)[i].importId == id && RunErrors(id, results, n)[i].row <= n + 1
    decreases n
  {
    if n > 0 { RunErrorsAre(id, results, n - 1); }
  }

  ghost predicate NoEvents(events: seq<Event>, id: nat) {
    forall i :: 0 <= i < |events| ==> events[i].id.FromRow? ==> events[i].id.importId != id
  }

  ghost predicate NoJobs(jobs: seq<Job>, id: nat) {
    forall i :: 0 <= i < |jobs| ==> jobs[i].event.FromRow? ==> jobs[i].event.importId != id
  }

  ghost predicate NoErrors(errors: seq<RowError>, id: nat) {
    forall i :: 0 <= i < |errors| ==> errors[i].importId != id
  }

  /** The progress of a run that starts from tables without rows of the import. */
  function OneRun(s: Store, id: nat, results: seq<Option<Event>>, n: nat): Progress
    requires n <= |results|
  {
    Progress(
      s.(events := s.events + RunEvents(results, n), jobs := s.jobs + RunJobs(id, results, n),
         errors := s.errors + RunErrors(id, results, n)),
      |RunEvents(results, n)|, |RunErrors(id, results, n)|)
  }

  /** On such tables the loop inserts exactly one run: ON CONFLICT never fires. */
  lemma {:induction false} LoopIsOneRun(s: Store, id: nat, results: seq<Option<Event>>, n: nat)
    requires n <= |results| && Named(id, results)
    requires NoEvents(s.events, id) && NoJobs(s.jobs, id) && NoErrors(s.errors, id)
    ensures AddRows(s, id, results, n) == OneRun(s, id, results, n)
    decreases n
  {
    if n == 0 {
      assert s.events + [] == s.events && s.jobs + [] == s.jobs && s.errors + [] == s.errors;
    } else {
      LoopIsOneRun(s, id, results, n - 1);
      var es, js, xs := RunEvents(results, n - 1), RunJobs(id, results, n - 1), RunErrors(id, results, n - 1);
      RunRows(id, results, n - 1);
      RunErrorsAre(id, results, n - 1);
      var result := results[n - 1];
      if result.Some? {
        FreshEvent(s.events, es, result.value, id, n + 1);
        FreshJob(s.jobs, js, Job(RowJob(id, n + 1), result.value.id, EVENT_KIND), id, n + 1);
        assert RunErrors(id, results, n) == xs;
      } else {
        FreshError(s.errors, xs, RowError(id, n + 1));
        assert RunEvents(results, n) == es && RunJobs(id, results, n) == js;
      }
    }
  }

  lemma FreshEvent(events: seq<Event>, es: seq<Event>, e: Event, id: nat, row: nat)
    requires NoEvents(events, id) && e.id == FromRow(id, row)
    requires forall i :: 0 <= i < |es| ==> es[i].id.FromRow? && es[i].id.row < row
    ensures InsertEvent(events + es, e) == events + (es + [e])
  {
  }

  lemma FreshJob(jobs: seq<Job>, js: seq<Job>, j: Job, id: nat, row: nat)
    requires NoJobs(jobs, id) && j.event == FromRow(id, row)
    requires forall i :: 0 <= i < |js| ==> js[i].event.FromRow? && js[i].event.row < row
    ensures InsertJob(jobs + js, j) == jobs + (js + [j])
  {
    var all := jobs + js;
    forall i | 0 <= i < |all| ensures all[i].event != j.event {
      if i >= |jobs| { assert all[i] == js[i - |jobs|]; }
    }
  }

  lemma FreshError(errors: seq<RowError>, xs: seq<RowError>, x: RowError)
    requires NoErrors(errors, x.importId) && forall i :: 0 <= i < |xs| ==> xs[i].row < x.row
    ensures InsertError(errors + xs, x) == errors + (xs + [x])
  {
  }

  // ---------------------------------------------------------------- rows of one import

  function EventsOf(events: seq<Event>, id: nat): seq<Event> {
    if events == [] then []
    else
      var n := |events| - 1;
      EventsOf(events[..n], id) + if events[n].id.FromRow? && events[n].id.importId == id then [events[n]] else []
  }

  function ErrorsOf(errors: seq<RowError>, id: nat): seq<RowError> {
    if errors == [] then []
    else
      var n := |errors| - 1;
      ErrorsOf(errors[..n], id) + if errors[n].importId == id then [errors[n]] else []
  }

  lemma {:induction false} EventsOfAppend(a: seq<Event>, b: seq<Event>, id: nat)
    ensures EventsOf(a + b, id) == EventsOf(a, id) + EventsOf(b, id)
    decreases |b|
  {
    if b == [] {
      assert a + b == a;
    } else {
      var n := |b| - 1;
      assert (a + b)[..|a| + n] == a + b[..n];
      EventsOfAppend(a, b[..n], id);
    }
  }

  lemma {:induction false} ErrorsOfAppend(a: seq<RowError>, b: seq<RowError>, id: nat)
    ensures ErrorsOf(a + b, id) == ErrorsOf(a, id) + ErrorsOf(b, id)
    decreases |b|
  {
    if b == [] {
      assert a + b == a;
    } else {
      var n := |b| - 1;
      assert (a + b)[..|a| + n] == a + b[..n];
      ErrorsOfAppend(a, b[..n], id);
    }
  }

  lemma {:induction false} EventsOfNone(events: seq<Event>, id: nat)
    ensures EventsOf(events, id) == [] <==> NoEvents(events, id)
    decreases |events|
  {
    if events != [] {
      var n := |events| - 1;
      EventsOfNone(events[..n], id);
      assert forall i :: 0 <= i < n ==> events[..n][i] == events[i];
    }
  }

  lemma {:induction false} ErrorsOfNone(errors: seq<RowError>, id: nat)
    ensures ErrorsOf(errors, id) == [] <==> NoErrors(errors, id)
    decreases |errors|
  {
    if errors != [] {
      var n := |errors| - 1;
      ErrorsOfNone(errors[..n], id);
      assert forall i :: 0 <= i < n ==> errors[..n][i] == errors[i];
    }
  }

  lemma {:induction false} EventsOfAll(events: seq<Event>, id: nat)
    requires forall i :: 0 <= i < |events| ==> events[i].id.FromRow? && events[i].id.importId == id
    ensures EventsOf(events, id) == events
    decreases |events|
  {
    if events != [] {
      var n := |events| - 1;
      EventsOfAll(events[..n], id);
      assert events == events[..n] + [events[n]];
    }
  }

  lemma {:induction false} ErrorsOfAll(errors: seq<RowError>, id: nat)
    requires forall i :: 0 <= i < |errors| ==> errors[i].importId == id
    ensures ErrorsOf(errors, id) == errors
    decreases |errors|
  {
    if errors != [] {
      var n := |errors| - 1;
      ErrorsOfAll(errors[..n], id);
      assert errors == errors[..n] + [errors[n]];
    }
  }

  // ---------------------------------------------------------------- the invariant

  function ReceiptIds(receipts: seq<Receipt>): (ids: seq<nat>)
    ensures |ids| == |receipts| && forall i :: 0 <= i < |ids| ==> ids[i] == receipts[i].id
  {
    seq(|receipts|, i requires 0 <= i < |receipts| => receipts[i].id)
  }

  /** The receipts that events name, in order. */
  function NamedReceipts(events: seq<Event>): seq<nat> {
    if events == [] then []
    else
      var n := |events| - 1;
      NamedReceipts(events[..n]) + if events[n].receipt.Some? then [events[n].receipt.value] else []
  }

  /** An event and the job beside it belong together. */
  predicate Paired(w: World, e: Event, j: Job) {
    && j.event == e.id
    && match e.id
       case FromRow(id, row) => e.receipt.None? && j.id == RowJob(id, row) && j.kind == EVENT_KIND
       case Random(n) => j.id == RandomJob(n) && (if e.receipt.None? then j.kind == CSV_KIND else e.receipt.value == n && j.kind == w.jobKind)
  }

  /** Ingestion sealed this event; a CSV control event is not sealed. */
  ghost predicate WasSealed(w: World, e: Event) {
    exists o: Origin, incoming: Incoming, key: Option<string> :: SealedAs(w, e, o, incoming, key)
  }

  ghost predicate SealedAs(w: World, e: Event, o: Origin, incoming: Incoming, key: Option<string>) {
    e.payload == J.Dict(Sealed(w.sha, o, incoming, key)) && e.digest == EnvelopeDigest(w.sha, CanonicalFields(o, incoming))
  }

  ghost predicate ReceiptsLawful(receipts: seq<Receipt>, next: nat) {
    && (forall i :: 0 <= i < |receipts| ==> receipts[i].id < next)
    && (forall i, j :: 0 <= i < j < |receipts| ==> receipts[i].id != receipts[j].id)
    && (forall i, j :: 0 <= i < j < |receipts| ==>
          (receipts[i].endpoint, receipts[i].providerEventId) != (receipts[j].endpoint, receipts[j].providerEventId))
  }

  ghost predicate EventsLawful(w: World, receipts: seq<Receipt>, events: seq<Event>, jobs: seq<Job>, next: nat) {
    && |jobs| == |events|
    && (forall i :: 0 <= i < |events| ==> Paired(w, events[i], jobs[i]))
    && (forall i, j :: 0 <= i < j < |events| ==> events[i].id != events[j].id)
    && (forall i :: 0 <= i < |events| ==> events[i].id.Random? ==> events[i].id.n < next)
    && NamedReceipts(events) == ReceiptIds(receipts)
  }

  ghost predicate AllSealed(w: World, events: seq<Event>) {
    forall i :: 0 <= i < |events| ==> (events[i].id.FromRow? || events[i].receipt.Some?) ==> WasSealed(w, events[i])
  }

  /** The rows of a completed import are one run over the file its digest names, at one instant. */
  ghost predicate ResultOf(w: World, events: seq<Event>, errors: seq<RowError>, imp: Import, body: string, now: string) {
    var lines := SplitLines(body);
    && w.sha(body) == imp.digest && lines != []
    && var results := RowResults(w, imp.id, lines, now);
       && EventsOf(events, imp.id) == RunEvents(results, |results|)
       && ErrorsOf(errors, imp.id) == RunErrors(imp.id, results, |results|)
       && imp.state == Completed(|lines| - 1, |EventsOf(events, imp.id)|, |ErrorsOf(errors, imp.id)|)
  }

  ghost predicate ImportLawful(w: World, events: seq<Event>, errors: seq<RowError>, imp: Import) {
    match imp.state
    case Uploaded => NoEvents(events, imp.id) && NoErrors(errors, imp.id)
    case Completed(_, _, _) => exists body, now :: ResultOf(w, events, errors, imp, body, now)
  }

  ghost predicate ImportsLawful(w: World, events: seq<Event>, errors: seq<RowError>, imports: seq<Import>, next: nat) {
    && (forall i :: 0 <= i < |imports| ==> imports[i].id < next && ImportLawful(w, events, errors, imports[i]))
    && (forall i, j :: 0 <= i < j < |imports| ==> imports[i].id != imports[j].id && imports[i].key != imports[j].key)
    && (forall id :: id >= next ==> NoEvents(events, id) && NoErrors(errors, id))
  }

  ghost predicate Lawful(w: World, s: Store) {
    && ReceiptsLawful(s.receipts, s.next)
    && EventsLawful(w, s.receipts, s.events, s.jobs, s.next)
    && AllSealed(w, s.events)
    && ImportsLawful(w, s.events, s.errors, s.imports, s.next)
  }

  // ---------------------------------------------------------------- steps keep the laws

  /** The rows of imports are the same in both event tables. */
  ghost predicate SameImportRows(before: seq<Event>, after: seq<Event>) {
    forall id :: EventsOf(after, id) == EventsOf(before, id) && (NoEvents(before, id) ==> NoEvents(after, id))
  }

  lemma AppendKeepsImportRows(events: seq<Event>, e: Event)
    requires e.id.Random?
    ensures SameImportRows(events, events + [e])
  {
    forall id ensures EventsOf(events + [e], id) == EventsOf(events, id) && (NoEvents(events, id) ==> NoEvents(events + [e], id)) {
      assert (events + [e])[..|events|] == events;
    }
  }

  lemma ImportsKept(w: World, before: seq<Event>, after: seq<Event>, errors: seq<RowError>, imports: seq<Import>, next: nat)
    requires ImportsLawful(w, before, errors, imports, next) && SameImportRows(before, after)
    ensures ImportsLawful(w, after, errors, imports, next + 1)
  {
    forall i | 0 <= i < |imports| ensures ImportLawful(w, after, errors, imports[i]) {
      assert ImportLawful(w, before, errors, imports[i]);
      if imports[i].state.Completed? {
        var body, now :| ResultOf(w, before, errors, imports[i], body, now);
        assert ResultOf(w, after, errors, imports[i], body, now);
      }
    }
    forall id | id >= next + 1 ensures NoEvents(after, id) && NoErrors(errors, id) { assert NoEvents(before, id); }
  }

  /** Appending an event with a new random id, its job beside it and its receipt if it names one. */
  lemma AppendEvent(
      w: World, receipts: seq<Receipt>, more: seq<Receipt>, events: seq<Event>, jobs: seq<Job>, next: nat, e: Event, j: Job)
    requires EventsLawful(w, receipts, events, jobs, next) && e.id == Random(next) && Paired(w, e, j)
    requires if e.receipt.Some? then |more| == 1 && more[0].id == e.receipt.value else more == []
    ensures EventsLawful(w, receipts + more, events + [e], jobs + [j], next + 1)
  {
    var es, js := events + [e], jobs + [j];
    assert es[..|events|] == events;
    forall i | 0 <= i < |es| ensures Paired(w, es[i], js[i]) {
      if i < |events| { assert Paired(w, events[i], jobs[i]); }
    }
    assert ReceiptIds(receipts + more) == ReceiptIds(receipts) + ReceiptIds(more);
  }

  lemma AppendReceipt(receipts: seq<Receipt>, next: nat, r: Receipt)
    requires ReceiptsLawful(receipts, next) && r.id == next
    requires FindReceipt(receipts, r.endpoint, r.providerEventId) == |receipts|
    ensures ReceiptsLawful(receipts + [r], next + 1)
  {
  }

  lemma WebhookEventIs(w: World, d: Delivery, incoming: Incoming, n: nat)
    ensures var e := WebhookEvent(w, d, incoming, n);
      e.id == Random(n) && e.receipt == Some(n) && WasSealed(w, e)
  {
    assert SealedAs(w, WebhookEvent(w, d, incoming, n), WebhookOrigin(w, d, Random(n)), incoming,
                    Some(ObjectKey(w, d.endpoint, incoming.providerEventId)));
  }

  lemma RowEventIs(w: World, importId: nat, row: nat, incoming: Incoming, now: string)
    ensures WasSealed(w, RowEvent(w, importId, row, incoming, now))
  {
    assert SealedAs(w, RowEvent(w, importId, row, incoming, now), RowOrigin(w, importId, row, now), incoming, None);
  }

  /** A delivery that commits adds one receipt, one event and one job under fresh ids. */
  ghost predicate Delivered(w: World, s: Store, t: Store, r: Receipt, e: Event) {
    && r.id == s.next && FindReceipt(s.receipts, r.endpoint, r.providerEventId) == |s.receipts|
    && e.id == Random(s.next) && e.receipt == Some(s.next) && WasSealed(w, e)
    && t == s.(receipts := s.receipts + [r], events := s.events + [e],
               jobs := s.jobs + [Job(RandomJob(s.next), Random(s.next), w.jobKind)], next := s.next + 1)
  }

  lemma DeliveredKeeps(w: World, s: Store, t: Store, r: Receipt, e: Event)
    requires Lawful(w, s) && Delivered(w, s, t, r, e)
    ensures Lawful(w, t)
  {
    AppendReceipt(s.receipts, s.next, r);
    AppendEvent(w, s.receipts, [r], s.events, s.jobs, s.next, e, Job(RandomJob(s.next), Random(s.next), w.jobKind));
    AppendKeepsImportRows(s.events, e);
    ImportsKept(w, s.events, t.events, s.errors, s.imports, s.next);
  }

  /** A delivery either changes nothing or is delivered. */
  lemma ReceiveDelivers(w: World, s: Store, d: Delivery) returns (r: Receipt, e: Event)
    ensures var t := Receive(w, s, d).0; t == s || Delivered(w, s, t, r, e)
  {
    r, e := Receipt(0, 0, "", ""), Event(Random(0), None, J.Null, "");
    if w.decode(d.body).Some? {
      var incoming := w.decode(d.body).value;
      r := Receipt(s.next, d.endpoint, incoming.providerEventId, w.sha(d.body));
      e := WebhookEvent(w, d, incoming, s.next);
      WebhookEventIs(w, d, incoming, s.next);
    }
  }

  lemma UploadKeeps(w: World, s: Store, key: string, body: string, aborts: bool)
    requires Lawful(w, s)
    ensures Lawful(w, Upload(w, s, key, body, aborts).0)
  {
    var t := Upload(w, s, key, body, aborts).0;
    if t != s {
      var n := s.next;
      var e, imp := ControlEvent(w, n), Import(n, key, w.sha(body), Uploaded);
      AppendEvent(w, s.receipts, [], s.events, s.jobs, n, e, Job(RandomJob(n), Random(n), CSV_KIND));
      assert s.receipts + [] == s.receipts;
      AppendKeepsImportRows(s.events, e);
      ImportsKept(w, s.events, t.events, s.errors, s.imports, n);
      AppendImport(w, t.events, s.errors, s.imports, n + 1, imp);
    }
  }

  lemma AppendImport(w: World, events: seq<Event>, errors: seq<RowError>, imports: seq<Import>, next: nat, imp: Import)
    requires ImportsLawful(w, events, errors, imports, next)
    requires imp.state == Uploaded && imp.id < next && NoEvents(events, imp.id) && NoErrors(errors, imp.id)
    requires forall i :: 0 <= i < |imports| ==> imports[i].id != imp.id && imports[i].key != imp.key
    ensures ImportsLawful(w, events, errors, imports + [imp], next)
  {
    var all := imports + [imp];
    assert ImportLawful(w, events, errors, imp);
    forall i | 0 <= i < |all| ensures all[i].id < next && ImportLawful(w, events, errors, all[i]) {
      if i < |imports| { assert all[i] == imports[i] && ImportLawful(w, events, errors, imports[i]); } else { assert all[i] == imp; }
    }
    forall i, j | 0 <= i < j < |all| ensures all[i].id != all[j].id && all[i].key != all[j].key {
      assert all[i] == imports[i];
      if j < |imports| { assert all[j] == imports[j]; }
    }
  }

  lemma {:induction false} NamedReceiptsAppend(a: seq<Event>, b: seq<Event>)
    requires forall i :: 0 <= i < |b| ==> b[i].receipt.None?
    ensures NamedReceipts(a + b) == NamedReceipts(a)
    decreases |b|
  {
    if b == [] {
      assert a + b == a;
    } else {
      var n := |b| - 1;
      assert (a + b)[..|a| + n] == a + b[..n];
      NamedReceiptsAppend(a, b[..n]);
    }
  }

  lemma AppendRun(
      w: World, receipts: seq<Receipt>, events: seq<Event>, jobs: seq<Job>, next: nat, id: nat, es: seq<Event>, js: seq<Job>, n: nat)
    requires EventsLawful(w, receipts, events, jobs, next) && NoEvents(events, id) && RowsOfRun(id, es, js, n)
    ensures EventsLawful(w, receipts, events + es, jobs + js, next)
  {
    NamedReceiptsAppend(events, es);
    var all, both := events + es, jobs + js;
    forall i | 0 <= i < |all| ensures Paired(w, all[i], both[i]) && (all[i].id.Random? ==> all[i].id.n < next) {
      if i < |events| { assert Paired(w, events[i], jobs[i]); }
      else { assert all[i] == es[i - |events|] && both[i] == js[i - |events|]; }
    }
    forall i, j | 0 <= i < j < |all| ensures all[i].id != all[j].id {
      if j >= |events| {
        assert all[j] == es[j - |events|];
        if i >= |events| { assert all[i] == es[i - |events|]; }
      }
    }
  }

  lemma NoJobsEither(w: World, receipts: seq<Receipt>, events: seq<Event>, jobs: seq<Job>, next: nat, id: nat)
    requires EventsLawful(w, receipts, events, jobs, next) && NoEvents(events, id)
    ensures NoJobs(jobs, id)
  {
    forall i | 0 <= i < |jobs| && jobs[i].event.FromRow? ensures jobs[i].event.importId != id { assert Paired(w, events[i], jobs[i]); }
  }

  lemma RunIsSealed(w: World, id: nat, lines: seq<string>, now: string)
    requires lines != []
    ensures var results := RowResults(w, id, lines, now); AllSealed(w, RunEvents(results, |results|))
  {
    var results := RowResults(w, id, lines, now);
    OneRunExactly(id, results);
    var es := RunEvents(results, |results|);
    forall i | 0 <= i < |es| ensures WasSealed(w, es[i]) {
      assert es[i] in es;
      var k :| 0 <= k < |results| && results[k] == Some(es[i]);
      assert results[k] == RowResult(w, id, lines[0], lines[k + 1], k + 2, now);
      RowEventIs(w, id, k + 2, w.parseRow(lines[0], lines[k + 1]).value, now);
    }
  }

  /** An attempt ran the uploaded import at position i over this file, once, and completed it. */
  ghost predicate Imported(w: World, s: Store, t: Store, i: nat, body: string, now: string) {
    && i < |s.imports| && s.imports[i].state == Uploaded && w.sha(body) == s.imports[i].digest && SplitLines(body) != []
    && var id := s.imports[i].id;
       var results := RowResults(w, id, SplitLines(body), now);
       var es, xs := RunEvents(results, |results|), RunErrors(id, results, |results|);
       t == s.(events := s.events + es, jobs := s.jobs + RunJobs(id, results, |results|), errors := s.errors + xs,
               imports := s.imports[i := s.imports[i].(state := Completed(|es| + |xs|, |es|, |xs|))])
  }

  lemma CompletionImports(w: World, s: Store, i: nat, body: string, now: string)
    requires Lawful(w, s) && i < |s.imports| && s.imports[i].state == Uploaded
    requires w.sha(body) == s.imports[i].digest && SplitLines(body) != []
    ensures Imported(w, s, CompleteImport(w, s, i, SplitLines(body), now), i, body, now)
  {
    var id, lines := s.imports[i].id, SplitLines(body);
    assert NoEvents(s.events, id) && NoErrors(s.errors, id) by { assert ImportLawful(w, s.events, s.errors, s.imports[i]); }
    NoJobsEither(w, s.receipts, s.events, s.jobs, s.next, id);
    ResultsAreNamed(w, id, lines, now);
    var results := RowResults(w, id, lines, now);
    RunOfResults(w, s, i, body, now, results);
  }

  lemma RunOfResults(w: World, s: Store, i: nat, body: string, now: string, results: seq<Option<Event>>)
    requires i < |s.imports| && s.imports[i].state == Uploaded && w.sha(body) == s.imports[i].digest && SplitLines(body) != []
    requires results == RowResults(w, s.imports[i].id, SplitLines(body), now) && Named(s.imports[i].id, results)
    requires NoEvents(s.events, s.imports[i].id) && NoJobs(s.jobs, s.imports[i].id) && NoErrors(s.errors, s.imports[i].id)
    ensures Imported(w, s, CompleteImport(w, s, i, SplitLines(body), now), i, body, now)
  {
    LoopIsOneRun(s, s.imports[i].id, results, |results|);
  }

  /** An attempt on lawful tables either changes nothing or runs one uploaded import. */
  lemma AttemptImports(w: World, s: Store, a: Attempt)
    requires Lawful(w, s)
    ensures var t := ProcessCsv(w, s, a).0;
      t == s || (a.stored.Some? && exists i: nat :: Imported(w, s, t, i, a.stored.value, a.now))
  {
    if ProcessCsv(w, s, a).0 != s {
      CompletionImports(w, s, ImportFor(s, a.event).value, a.stored.value, a.now);
    }
  }

  /** Rows of other imports stay; the run's rows are all of its own. */
  lemma RunImportRows(events: seq<Event>, errors: seq<RowError>, id: nat, es: seq<Event>, js: seq<Job>, xs: seq<RowError>, n: nat)
    requires NoEvents(events, id) && NoErrors(errors, id) && RowsOfRun(id, es, js, n)
    requires forall i :: 0 <= i < |xs| ==> xs[i].importId == id
    ensures EventsOf(events + es, id) == es && ErrorsOf(errors + xs, id) == xs
    ensures forall other :: other != id ==>
      EventsOf(events + es, other) == EventsOf(events, other) && ErrorsOf(errors + xs, other) == ErrorsOf(errors, other)
  {
    EventsOfAppend(events, es, id);
    EventsOfNone(events, id);
    EventsOfAll(es, id);
    ErrorsOfAppend(errors, xs, id);
    ErrorsOfNone(errors, id);
    ErrorsOfAll(xs, id);
    forall other | other != id
      ensures EventsOf(events + es, other) == EventsOf(events, other) && ErrorsOf(errors + xs, other) == ErrorsOf(errors, other)
    {
      EventsOfAppend(events, es, other);
      EventsOfNone(es, other);
      ErrorsOfAppend(errors, xs, other);
      ErrorsOfNone(xs, other);
    }
  }

  lemma OtherImportKept(w: World, before: seq<Event>, after: seq<Event>, errors: seq<RowError>, more: seq<RowError>, imp: Import)
    requires ImportLawful(w, before, errors, imp)
    requires EventsOf(after, imp.id) == EventsOf(before, imp.id) && ErrorsOf(more, imp.id) == ErrorsOf(errors, imp.id)
    ensures ImportLawful(w, after, more, imp)
  {
    EventsOfNone(before, imp.id);
    EventsOfNone(after, imp.id);
    ErrorsOfNone(errors, imp.id);
    ErrorsOfNone(more, imp.id);
    if imp.state.Completed? {
      var body, now :| ResultOf(w, before, errors, imp, body, now);
      assert ResultOf(w, after, more, imp, body, now);
    }
  }

  /** After a run, the import's row and rows are the result of that run. */
  lemma ImportedResult(w: World, s: Store, t: Store, i: nat, body: string, now: string)
    requires Imported(w, s, t, i, body, now) && ImportLawful(w, s.events, s.errors, s.imports[i])
    ensures ResultOf(w, t.events, t.errors, t.imports[i], body, now)
    ensures forall other :: other != s.imports[i].id ==>
      EventsOf(t.events, other) == EventsOf(s.events, other) && ErrorsOf(t.errors, other) == ErrorsOf(s.errors, other)
  {
    var id, lines := s.imports[i].id, SplitLines(body);
    var results := RowResults(w, id, lines, now);
    ResultsAreNamed(w, id, lines, now);
    RunRows(id, results, |results|);
    RunErrorsAre(id, results, |results|);
    OneRunExactly(id, results);
    RunImportRows(s.events, s.errors, id, RunEvents(results, |results|), RunJobs(id, results, |results|),
                  RunErrors(id, results, |results|), |results|);
  }

  lemma ImportedImports(w: World, s: Store, t: Store, i: nat, body: string, now: string)
    requires Imported(w, s, t, i, body, now) && ImportsLawful(w, s.events, s.errors, s.imports, s.next)
    ensures ImportsLawful(w, t.events, t.errors, t.imports, t.next)
  {
    assert ImportLawful(w, s.events, s.errors, s.imports[i]);
    ImportedResult(w, s, t, i, body, now);
    forall k | 0 <= k < |t.imports| ensures t.imports[k].id < t.next && ImportLawful(w, t.events, t.errors, t.imports[k]) {
      assert ImportLawful(w, s.events, s.errors, s.imports[k]);
      if k != i { OtherImportKept(w, s.events, t.events, s.errors, t.errors, s.imports[k]); }
    }
    forall id | id >= t.next ensures NoEvents(t.events, id) && NoErrors(t.errors, id) {
      assert NoEvents(s.events, id) && NoErrors(s.errors, id);
      EventsOfNone(s.events, id);
      EventsOfNone(t.events, id);
      ErrorsOfNone(s.errors, id);
      ErrorsOfNone(t.errors, id);
    }
  }

  lemma ImportedKeeps(w: World, s: Store, t: Store, i: nat, body: string, now: string)
    requires Lawful(w, s) && Imported(w, s, t, i, body, now)
    ensures Lawful(w, t)
  {
    var id, lines := s.imports[i].id, SplitLines(body);
    var results := RowResults(w, id, lines, now);
    assert ImportLawful(w, s.events, s.errors, s.imports[i]);
    ResultsAreNamed(w, id, lines, now);
    RunRows(id, results, |results|);
    AppendRun(w, s.receipts, s.events, s.jobs, s.next, id, RunEvents(results, |results|), RunJobs(id, results, |results|), |results|);
    RunIsSealed(w, id, lines, now);
    ImportedImports(w, s, t, i, body, now);
  }

  lemma StepKeeps(w: World, s: Store, step: Step)
    requires Lawful(w, s)
    ensures Lawful(w, Apply(w, s, step))
  {
    match step
    case Deliver(d) =>
      var r, e := ReceiveDelivers(w, s, d);
      if Receive(w, s, d).0 != s { DeliveredKeeps(w, s, Receive(w, s, d).0, r, e); }
    case UploadCsv(key, body, aborts) => UploadKeeps(w, s, key, body, aborts);
    case RunImport(a) =>
      AttemptImports(w, s, a);
      var t := ProcessCsv(w, s, a).0;
      if t != s {
        var i: nat :| Imported(w, s, t, i, a.stored.value, a.now);
        ImportedKeeps(w, s, t, i, a.stored.value, a.now);
      }
  }

  /** After any deliveries, uploads and import attempts, aborted or not, the tables are lawful. */
  lemma {:induction false} ReachableIsLawful(w: World, steps: seq<Step>)
    ensures Lawful(w, Run(w, EMPTY, steps))
    decreases |steps|
  {
    if steps != [] {
      var n := |steps| - 1;
      ReachableIsLawful(w, steps[..n]);
      StepKeeps(w, Run(w, EMPTY, steps[..n]), steps[n]);
    }
  }
}
