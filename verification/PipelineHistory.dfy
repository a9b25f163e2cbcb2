/** Whole histories of the pipeline: redelivery, the bijection of receipts, events and jobs, imports that
    run once, and seals that hold. */
module PipelineHistory {
  import opened Basics
  import opened Envelope
  import opened Pipeline
  import opened PipelineInvariant
  import J = CanonicalJson

  // ---------------------------------------------------------------- what no step undoes

  predicate ImportKept(before: Import, after: Import) {
    && after == before.(state := after.state)
    && (before.state.Completed? ==> after == before)
  }

  /** Rows are only inserted, and a completed import is never altered. */
  ghost predicate Kept(before: Store, after: Store) {
    && before.receipts <= after.receipts && before.events <= after.events && before.jobs <= after.jobs
    && before.errors <= after.errors && |before.imports| <= |after.imports|
    && (forall i :: 0 <= i < |before.imports| ==> ImportKept(before.imports[i], after.imports[i]))
    && (forall i :: 0 <= i < |before.imports| && before.imports[i].state.Completed? ==>
          EventsOf(after.events, before.imports[i].id) == EventsOf(before.events, before.imports[i].id)
          && ErrorsOf(after.errors, before.imports[i].id) == ErrorsOf(before.errors, before.imports[i].id))
  }

  lemma KeptTransitive(a: Store, b: Store, c: Store)
    requires Kept(a, b) && Kept(b, c)
    ensures Kept(a, c)
  {
    forall i | 0 <= i < |a.imports| ensures ImportKept(a.imports[i], c.imports[i]) {
      assert ImportKept(a.imports[i], b.imports[i]) && ImportKept(b.imports[i], c.imports[i]);
    }
    forall i | 0 <= i < |a.imports| && a.imports[i].state.Completed?
      ensures EventsOf(c.events, a.imports[i].id) == EventsOf(a.events, a.imports[i].id)
      ensures ErrorsOf(c.errors, a.imports[i].id) == ErrorsOf(a.errors, a.imports[i].id)
    {
      assert ImportKept(a.imports[i], b.imports[i]);
    }
  }

  lemma StepKept(w: World, s: Store, step: Step)
    requires Lawful(w, s)
    ensures Kept(s, Apply(w, s, step))
  {
    match step
    case Deliver(d) =>
      var r, e := ReceiveDelivers(w, s, d);
      if Receive(w, s, d).0 != s { AppendKept(s, Receive(w, s, d).0, e); }
    case UploadCsv(key, body, aborts) =>
      if Upload(w, s, key, body, aborts).0 != s { AppendKept(s, Upload(w, s, key, body, aborts).0, ControlEvent(w, s.next)); }
    case RunImport(a) => AttemptKept(w, s, a);
  }

  lemma AttemptKept(w: World, s: Store, a: Attempt)
    requires Lawful(w, s)
    ensures Kept(s, ProcessCsv(w, s, a).0)
  {
    var t := ProcessCsv(w, s, a).0;
    AttemptImports(w, s, a);
    if t != s {
      var i: nat :| Imported(w, s, t, i, a.stored.value, a.now);
      ImportedKept(w, s, t, i, a.stored.value, a.now);
    }
  }

  lemma AppendKept(s: Store, t: Store, e: Event)
    requires e.id.Random? && t.events == s.events + [e] && t.errors == s.errors
    requires s.receipts <= t.receipts && s.jobs <= t.jobs && s.imports <= t.imports
    ensures Kept(s, t)
  {
    AppendKeepsImportRows(s.events, e);
  }

  lemma ImportedKept(w: World, s: Store, t: Store, i: nat, body: string, now: string)
    requires Lawful(w, s) && Imported(w, s, t, i, body, now)
    ensures Kept(s, t)
  {
    assert ImportLawful(w, s.events, s.errors, s.imports[i]);
    ImportedResult(w, s, t, i, body, now);
    OnlyImport(w, s, t, i, body, now);
  }

  lemma OnlyImport(w: World, s: Store, t: Store, i: nat, body: string, now: string)
    requires Lawful(w, s) && Imported(w, s, t, i, body, now)
    ensures s.receipts <= t.receipts && s.events <= t.events && s.jobs <= t.jobs && s.errors <= t.errors
    ensures |t.imports| == |s.imports| && forall k :: 0 <= k < |s.imports| ==> ImportKept(s.imports[k], t.imports[k])
    ensures forall k :: 0 <= k < |s.imports| && s.imports[k].state.Completed? ==> s.imports[k].id != s.imports[i].id
  {
  }

  lemma {:induction false} HistoryKept(w: World, s: Store, steps: seq<Step>)
    requires Lawful(w, s)
    ensures Lawful(w, Run(w, s, steps)) && Kept(s, Run(w, s, steps))
    decreases |steps|
  {
    if steps != [] {
      var n := |steps| - 1;
      var before := Run(w, s, steps[..n]);
      HistoryKept(w, s, steps[..n]);
      StepKeeps(w, before, steps[n]);
      StepKept(w, before, steps[n]);
      KeptTransitive(s, before, Run(w, s, steps));
    }
  }

  // ---------------------------------------------------------------- redelivery

  lemma FoundReceipt(rows: seq<Receipt>, more: seq<Receipt>, endpoint: nat, providerEventId: string)
    requires rows <= more && FindReceipt(rows, endpoint, providerEventId) < |rows|
    ensures FindReceipt(more, endpoint, providerEventId) == FindReceipt(rows, endpoint, providerEventId)
  {
    var i, k := FindReceipt(rows, endpoint, providerEventId), FindReceipt(more, endpoint, providerEventId);
    assert forall m :: 0 <= m <= i ==> more[m] == rows[m];
  }

  lemma FoundEvent(rows: seq<Event>, more: seq<Event>, receipt: nat)
    requires rows <= more && FindByReceipt(rows, receipt) < |rows|
    ensures FindByReceipt(more, receipt) == FindByReceipt(rows, receipt)
  {
    var i, k := FindByReceipt(rows, receipt), FindByReceipt(more, receipt);
    assert forall m :: 0 <= m <= i ==> more[m] == rows[m];
  }

  lemma FoundJob(rows: seq<Job>, more: seq<Job>, event: EventId)
    requires rows <= more && FindJob(rows, event) < |rows|
    ensures FindJob(more, event) == FindJob(rows, event)
  {
    var i, k := FindJob(rows, event), FindJob(more, event);
    assert forall m :: 0 <= m <= i ==> more[m] == rows[m];
  }

  lemma ExistingKept(s: Store, t: Store, endpoint: nat, providerEventId: string)
    requires Kept(s, t) && Existing(s, endpoint, providerEventId).Some?
    ensures Existing(t, endpoint, providerEventId) == Existing(s, endpoint, providerEventId)
  {
    var r := FindReceipt(s.receipts, endpoint, providerEventId);
    var e := FindByReceipt(s.events, s.receipts[r].id);
    FoundReceipt(s.receipts, t.receipts, endpoint, providerEventId);
    FoundEvent(s.events, t.events, s.receipts[r].id);
    FoundJob(s.jobs, t.jobs, s.events[e].id);
  }

  lemma AppendedReceipt(rows: seq<Receipt>, r: Receipt)
    requires FindReceipt(rows, r.endpoint, r.providerEventId) == |rows|
    ensures FindReceipt(rows + [r], r.endpoint, r.providerEventId) == |rows|
  {
    assert (rows + [r])[|rows|] == r;
    assert forall k :: 0 <= k < |rows| ==> (rows + [r])[k] == rows[k];
  }

  lemma AppendedEvent(rows: seq<Event>, e: Event, receipt: nat)
    requires e.receipt == Some(receipt) && forall k :: 0 <= k < |rows| ==> rows[k].receipt != Some(receipt)
    ensures FindByReceipt(rows + [e], receipt) == |rows|
  {
    assert (rows + [e])[|rows|] == e;
    assert forall k :: 0 <= k < |rows| ==> (rows + [e])[k] == rows[k];
  }

  lemma AppendedJob(rows: seq<Job>, j: Job)
    requires forall k :: 0 <= k < |rows| ==> rows[k].event != j.event
    ensures FindJob(rows + [j], j.event) == |rows|
  {
    assert (rows + [j])[|rows|] == j;
    assert forall k :: 0 <= k < |rows| ==> (rows + [j])[k] == rows[k];
  }

  lemma FreshIds(w: World, receipts: seq<Receipt>, events: seq<Event>, jobs: seq<Job>, next: nat)
    requires EventsLawful(w, receipts, events, jobs, next)
    ensures forall k :: 0 <= k < |events| ==> events[k].receipt != Some(next)
    ensures forall k :: 0 <= k < |jobs| ==> jobs[k].event != Random(next)
  {
    forall k | 0 <= k < |events| ensures events[k].receipt != Some(next) && jobs[k].event != Random(next) {
      assert Paired(w, events[k], jobs[k]);
    }
  }

  lemma DeliveredIsFound(w: World, s: Store, t: Store, r: Receipt, e: Event)
    requires Lawful(w, s) && Delivered(w, s, t, r, e)
    ensures Existing(t, r.endpoint, r.providerEventId) == Some((r, Random(r.id), RandomJob(r.id)))
  {
    FreshIds(w, s.receipts, s.events, s.jobs, s.next);
    AppendedReceipt(s.receipts, r);
    AppendedEvent(s.events, e, r.id);
    AppendedJob(s.jobs, Job(RandomJob(r.id), Random(r.id), w.jobKind));
  }

  /** An accepted delivery is found again under its key. */
  lemma AcceptedIsFound(w: World, s: Store, d: Delivery)
    requires Lawful(w, s) && Receive(w, s, d).1.Accepted?
    ensures var (t, a) := Receive(w, s, d);
      var x := Existing(t, d.endpoint, w.decode(d.body).value.providerEventId);
      x.Some? && x.value.0.id == a.receipt && x.value.0.digest == w.sha(d.body) && x.value.1 == a.event && x.value.2 == a.job
  {
    if !Receive(w, s, d).1.duplicate {
      var incoming := w.decode(d.body).value;
      var r := Receipt(s.next, d.endpoint, incoming.providerEventId, w.sha(d.body));
      WebhookEventIs(w, d, incoming, s.next);
      DeliveredIsFound(w, s, Receive(w, s, d).0, r, WebhookEvent(w, d, incoming, s.next));
    }
  }

  /** Redelivery: once a delivery was accepted, any later delivery of the same provider event to the same
      endpoint changes nothing; with the same body digest it is answered with the same ids, with another it is
      a conflict. */
  lemma RedeliveryAnswers(w: World, s: Store, d: Delivery, steps: seq<Step>, again: Delivery)
    requires Lawful(w, s) && Receive(w, s, d).1.Accepted?
    requires again.endpoint == d.endpoint && w.decode(again.body).Some?
    requires w.decode(again.body).value.providerEventId == w.decode(d.body).value.providerEventId
    ensures var (t, first) := Receive(w, s, d);
      var later := Run(w, t, steps);
      Receive(w, later, again) ==
        (later, if w.sha(again.body) == w.sha(d.body) then Accepted(first.receipt, first.event, first.job, true) else Conflict)
  {
    var t := Receive(w, s, d).0;
    StepKeeps(w, s, Deliver(d));
    AcceptedIsFound(w, s, d);
    HistoryKept(w, t, steps);
    ExistingKept(t, Run(w, t, steps), d.endpoint, w.decode(d.body).value.providerEventId);
  }

  // ---------------------------------------------------------------- receipts, events and jobs

  lemma {:induction false} NamedByEvent(events: seq<Event>, receipt: nat)
    ensures receipt in NamedReceipts(events) <==> exists k :: 0 <= k < |events| && events[k].receipt == Some(receipt)
    decreases |events|
  {
    if events != [] {
      var n := |events| - 1;
      NamedByEvent(events[..n], receipt);
      assert forall k :: 0 <= k < n ==> events[..n][k] == events[k];
      if exists k :: 0 <= k < |events| && events[k].receipt == Some(receipt) {
        var k :| 0 <= k < |events| && events[k].receipt == Some(receipt);
        if k < n { assert events[..n][k].receipt == Some(receipt); }
      }
    }
  }

  /** The event at k and the job at k are the receipt's only ones. */
  ghost predicate OnlyPair(s: Store, receipt: nat, k: nat) {
    && k < |s.events| && |s.jobs| == |s.events| && s.events[k].receipt == Some(receipt) && s.jobs[k].event == s.events[k].id
    && (forall m :: 0 <= m < |s.events| && s.events[m].receipt == Some(receipt) ==> m == k)
    && (forall m :: 0 <= m < |s.jobs| && s.jobs[m].event == s.events[k].id ==> m == k)
  }

  ghost predicate HasOnlyPair(s: Store, receipt: nat) { exists k: nat :: OnlyPair(s, receipt, k) }

  ghost predicate Bijective(s: Store) {
    && (forall i :: 0 <= i < |s.receipts| ==> HasOnlyPair(s, s.receipts[i].id))
    && (forall k :: 0 <= k < |s.events| && s.events[k].receipt.Some? ==> s.events[k].receipt.value in ReceiptIds(s.receipts))
    && (forall i, j :: 0 <= i < j < |s.receipts| ==> s.receipts[i].id != s.receipts[j].id)
    && (forall i, j :: 0 <= i < j < |s.receipts| ==>
          (s.receipts[i].endpoint, s.receipts[i].providerEventId) != (s.receipts[j].endpoint, s.receipts[j].providerEventId))
  }

  /** Receipts, their events and their jobs are in bijection, with at most one receipt per endpoint and
      provider event: every receipt has exactly one event, that event exactly one job, and every webhook event
      exactly one receipt. */
  lemma ReceiptsEventsJobs(w: World, steps: seq<Step>)
    ensures Bijective(Run(w, EMPTY, steps))
  {
    PipelineInvariant.ReachableIsLawful(w, steps);
    LawfulIsBijective(w, Run(w, EMPTY, steps));
  }

  lemma LawfulIsBijective(w: World, s: Store)
    requires Lawful(w, s)
    ensures Bijective(s)
  {
    forall i | 0 <= i < |s.receipts| ensures HasOnlyPair(s, s.receipts[i].id) {
      var k := EventOfReceipt(w, s, i);
    }
    forall k | 0 <= k < |s.events| && s.events[k].receipt.Some? ensures s.events[k].receipt.value in ReceiptIds(s.receipts) {
      NamedByEvent(s.events, s.events[k].receipt.value);
    }
  }

  lemma EventOfReceipt(w: World, s: Store, i: nat) returns (k: nat)
    requires Lawful(w, s) && i < |s.receipts|
    ensures OnlyPair(s, s.receipts[i].id, k)
  {
    var id := s.receipts[i].id;
    assert ReceiptIds(s.receipts)[i] == id;
    NamedByEvent(s.events, id);
    k :| 0 <= k < |s.events| && s.events[k].receipt == Some(id);
    assert Paired(w, s.events[k], s.jobs[k]);
    forall m | 0 <= m < |s.events| ensures s.events[m].receipt == Some(id) ==> m == k { assert Paired(w, s.events[m], s.jobs[m]); }
    forall m | 0 <= m < |s.jobs| ensures s.jobs[m].event == s.events[k].id ==> m == k { assert Paired(w, s.events[m], s.jobs[m]); }
  }

  /** Every event has exactly one job and every job exactly one event: the reconciliation queries for a
      receipt without event and an event without job stay empty. */
  lemma EveryEventHasItsJob(w: World, steps: seq<Step>, k: nat)
    ensures var s := Run(w, EMPTY, steps);
      && |s.jobs| == |s.events|
      && (k < |s.events| ==> s.jobs[k].event == s.events[k].id)
      && (k < |s.events| ==> forall m :: 0 <= m < |s.jobs| && s.jobs[m].event == s.events[k].id ==> m == k)
  {
    PipelineInvariant.ReachableIsLawful(w, steps);
    var s := Run(w, EMPTY, steps);
    forall m | 0 <= m < |s.jobs| ensures s.jobs[m].event == s.events[m].id { assert Paired(w, s.events[m], s.jobs[m]); }
  }

  // ---------------------------------------------------------------- seals

  /** Every event of a webhook or of a CSV row passes the canonical event handler, in whatever order jsonb
      gives back the keys of its payload. */
  lemma IngestedEventsPass(w: World, steps: seq<Step>, k: nat, read: J.Value)
    requires var s := Run(w, EMPTY, steps);
      && k < |s.events| && (s.events[k].id.FromRow? || s.events[k].receipt.Some?)
      && s.events[k].payload.Dict? && Reread(s.events[k].payload.fields, read)
    ensures CheckEvent(w.sha, read, Run(w, EMPTY, steps).events[k].digest) == Passes
  {
    PipelineInvariant.ReachableIsLawful(w, steps);
    var e := Run(w, EMPTY, steps).events[k];
    assert WasSealed(w, e);
    var o, incoming, key :| SealedAs(w, e, o, incoming, key);
    SealedPasses(w.sha, o, incoming, key, read);
  }

  // ---------------------------------------------------------------- imports

  /** The physical lines of a file are the whole file. */
  lemma {:induction false} LinesAreTheFile(body: string)
    ensures Concat(SplitLines(body)) == body
    decreases |body|
  {
    if body != [] {
      var n := LineLength(body);
      var first, rest := body[..n], body[n..];
      LinesAreTheFile(rest);
      ConcatFirst(first, SplitLines(rest));
      assert body == first + rest;
    }
  }

  lemma ConcatFirst(first: string, rest: seq<string>)
    ensures Concat([first] + rest) == first + Concat(rest)
  {
    assert ([first] + rest)[1..] == rest;
  }

  /** Row r is line r of the file, the header being line 1. */
  function LineResult(w: World, id: nat, lines: seq<string>, r: nat, now: string): Option<Event>
    requires 2 <= r <= |lines|
  {
    RowResult(w, id, lines[0], lines[r - 1], r, now)
  }

  /** Some line of the file was accepted as this event. */
  ghost predicate FromLine(w: World, id: nat, lines: seq<string>, now: string, e: Event) {
    exists r: nat :: 2 <= r <= |lines| && LineResult(w, id, lines, r, now) == Some(e)
  }

  /** Exactly the accepted rows left an event and exactly the refused rows an error. */
  ghost predicate RowByRow(w: World, s: Store, imp: Import, lines: seq<string>, now: string) {
    && (forall e :: e in EventsOf(s.events, imp.id) <==> FromLine(w, imp.id, lines, now, e))
    && (forall x :: x in ErrorsOf(s.errors, imp.id) <==>
          x.importId == imp.id && 2 <= x.row <= |lines| && LineResult(w, imp.id, lines, x.row, now).None?)
  }

  lemma ResultIsRowByRow(w: World, s: Store, imp: Import, body: string, now: string)
    requires ResultOf(w, s.events, s.errors, imp, body, now)
    ensures RowByRow(w, s, imp, SplitLines(body), now)
    ensures imp.state.Completed? && imp.state.accepted + imp.state.rejected == imp.state.total == |SplitLines(body)| - 1
    ensures imp.state.accepted == |EventsOf(s.events, imp.id)| && imp.state.rejected == |ErrorsOf(s.errors, imp.id)|
  {
    var lines := SplitLines(body);
    var results := RowResults(w, imp.id, lines, now);
    OneRunExactly(imp.id, results);
    LinesAreResults(w, imp.id, lines, now);
    LinesAndResults(w, imp.id, lines, now, results);
    RunIsRowByRow(w, imp.id, lines, now, results, EventsOf(s.events, imp.id), ErrorsOf(s.errors, imp.id));
  }

  lemma LinesAreResults(w: World, id: nat, lines: seq<string>, now: string)
    requires lines != []
    ensures forall r: nat :: 2 <= r <= |lines| ==> LineResult(w, id, lines, r, now) == RowResults(w, id, lines, now)[r - 2]
  {
  }

  lemma RunIsRowByRow(
      w: World, id: nat, lines: seq<string>, now: string, results: seq<Option<Event>>, events: seq<Event>, errors: seq<RowError>)
    requires forall e :: e in events <==> AcceptedAs(results, |results|, e)
    requires forall e :: AcceptedAs(results, |results|, e) <==> FromLine(w, id, lines, now, e)
    requires forall x :: x in errors <==> x.importId == id && Refused(results, |results|, x.row)
    requires forall r: nat :: Refused(results, |results|, r) <==> 2 <= r <= |lines| && LineResult(w, id, lines, r, now).None?
    ensures forall e :: e in events <==> FromLine(w, id, lines, now, e)
    ensures forall x :: x in errors <==>
      x.importId == id && 2 <= x.row <= |lines| && LineResult(w, id, lines, x.row, now).None?
  {
  }

  lemma LinesAndResults(w: World, id: nat, lines: seq<string>, now: string, results: seq<Option<Event>>)
    requires |results| + 1 == |lines|
    requires forall r: nat :: 2 <= r <= |lines| ==> LineResult(w, id, lines, r, now) == results[r - 2]
    ensures forall e :: AcceptedAs(results, |results|, e) <==> FromLine(w, id, lines, now, e)
    ensures forall r: nat :: Refused(results, |results|, r) <==> 2 <= r <= |lines| && LineResult(w, id, lines, r, now).None?
  {
    forall e | AcceptedAs(results, |results|, e) ensures FromLine(w, id, lines, now, e) {
      var k :| 0 <= k < |results| && results[k] == Some(e);
      var r: nat := k + 2;
      assert LineResult(w, id, lines, r, now) == Some(e);
    }
  }

  /** In every reachable state an import is either untouched, with no rows, or completed, and then its rows
      and counts are exactly those of one run over the file its digest names, however many times its job was
      delivered and rolled back. */
  lemma ImportRunsOnce(w: World, steps: seq<Step>, i: nat)
    requires i < |Run(w, EMPTY, steps).imports|
    ensures var s := Run(w, EMPTY, steps);
      var imp := s.imports[i];
      if imp.state == Uploaded then NoEvents(s.events, imp.id) && NoJobs(s.jobs, imp.id) && NoErrors(s.errors, imp.id)
      else exists body, now :: ResultOf(w, s.events, s.errors, imp, body, now)
  {
    PipelineInvariant.ReachableIsLawful(w, steps);
    var s := Run(w, EMPTY, steps);
    assert ImportLawful(w, s.events, s.errors, s.imports[i]);
    if s.imports[i].state == Uploaded { NoJobsEither(w, s.receipts, s.events, s.jobs, s.next, s.imports[i].id); }
  }

  /** A completed import is never altered: its row, its events and its errors stay as they are. */
  lemma CompletedImportIsFinal(w: World, s: Store, steps: seq<Step>, i: nat)
    requires Lawful(w, s) && i < |s.imports| && s.imports[i].state.Completed?
    ensures var t := Run(w, s, steps);
      && i < |t.imports| && t.imports[i] == s.imports[i]
      && EventsOf(t.events, s.imports[i].id) == EventsOf(s.events, s.imports[i].id)
      && ErrorsOf(t.errors, s.imports[i].id) == ErrorsOf(s.errors, s.imports[i].id)
  {
    HistoryKept(w, s, steps);
    assert ImportKept(s.imports[i], Run(w, s, steps).imports[i]);
  }

  // ---------------------------------------------------------------- an import's job reaches it

  /** Each import has its control event. */
  ghost predicate Controlled(w: World, events: seq<Event>, imports: seq<Import>) {
    forall i :: 0 <= i < |imports| ==> ControlEvent(w, imports[i].id) in events
  }

  lemma StepControlled(w: World, s: Store, step: Step)
    requires Lawful(w, s) && Controlled(w, s.events, s.imports)
    ensures var t := Apply(w, s, step); Controlled(w, t.events, t.imports)
  {
    var t := Apply(w, s, step);
    StepKept(w, s, step);
    if |t.imports| > |s.imports| { NewImportControlled(w, s, step); }
    OldImportsControlled(w, s, t);
  }

  lemma OldImportsControlled(w: World, s: Store, t: Store)
    requires Kept(s, t) && Controlled(w, s.events, s.imports)
    requires |t.imports| == |s.imports| || (|t.imports| == |s.imports| + 1 && ControlEvent(w, t.imports[|s.imports|].id) in t.events)
    ensures Controlled(w, t.events, t.imports)
  {
    forall i | 0 <= i < |s.imports| ensures ControlEvent(w, t.imports[i].id) in t.events {
      assert ImportKept(s.imports[i], t.imports[i]) && ControlEvent(w, s.imports[i].id) in s.events;
    }
  }

  lemma NewImportControlled(w: World, s: Store, step: Step)
    requires Lawful(w, s) && |Apply(w, s, step).imports| > |s.imports|
    ensures var t := Apply(w, s, step); |t.imports| == |s.imports| + 1 && ControlEvent(w, t.imports[|s.imports|].id) in t.events
  {
    match step
    case Deliver(d) => assert false;
    case RunImport(a) => AttemptImports(w, s, a); assert false;
    case UploadCsv(key, body, aborts) =>
      var t := Apply(w, s, step);
      assert t.events[|s.events|] == ControlEvent(w, s.next);
  }

  lemma {:induction false} ReachableControlled(w: World, steps: seq<Step>)
    ensures var s := Run(w, EMPTY, steps); Controlled(w, s.events, s.imports)
    decreases |steps|
  {
    if steps != [] {
      var n := |steps| - 1;
      ReachableControlled(w, steps[..n]);
      PipelineInvariant.ReachableIsLawful(w, steps[..n]);
      StepControlled(w, Run(w, EMPTY, steps[..n]), steps[n]);
    }
  }

  lemma FoundImport(imports: seq<Import>, i: nat)
    requires i < |imports| && forall k, m :: 0 <= k < m < |imports| ==> imports[k].id != imports[m].id
    ensures FindImport(imports, J.Str(J.IntText(imports[i].id))) == i
  {
    var f := FindImport(imports, J.Str(J.IntText(imports[i].id)));
    assert f <= i;
    J.IntTextInjective(imports[f].id, imports[i].id);
  }

  lemma FoundControl(events: seq<Event>, control: Event)
    requires control in events && forall k, m :: 0 <= k < m < |events| ==> events[k].id != events[m].id
    ensures FindEvent(events, control.id) < |events| && events[FindEvent(events, control.id)] == control
  {
    var k :| 0 <= k < |events| && events[k] == control;
  }

  lemma ControlNamesImport(w: World, s: Store, i: nat)
    requires Lawful(w, s) && Controlled(w, s.events, s.imports) && i < |s.imports|
    ensures ImportFor(s, Random(s.imports[i].id)) == Some(i)
  {
    var control := ControlEvent(w, s.imports[i].id);
    FoundControl(s.events, control);
    FoundImport(s.imports, i);
    assert Get(control.payload.fields, "import_id") == Some(J.Str(J.IntText(s.imports[i].id)));
  }

  /** The digest of an import is that of a file the upload accepted. */
  ghost predicate FromUpload(w: World, digest: string) { exists body :: w.acceptsCsv(body) && w.sha(body) == digest }

  ghost predicate AllFromUploads(w: World, imports: seq<Import>) {
    forall i :: 0 <= i < |imports| ==> FromUpload(w, imports[i].digest)
  }

  lemma StepFromUploads(w: World, s: Store, step: Step)
    requires Lawful(w, s) && AllFromUploads(w, s.imports)
    ensures AllFromUploads(w, Apply(w, s, step).imports)
  {
    var t := Apply(w, s, step);
    StepKept(w, s, step);
    if |t.imports| > |s.imports| { NewImportFromUpload(w, s, step); }
    OldImportsFromUploads(w, s, t);
  }

  lemma OldImportsFromUploads(w: World, s: Store, t: Store)
    requires Kept(s, t) && AllFromUploads(w, s.imports)
    requires |t.imports| == |s.imports| || (|t.imports| == |s.imports| + 1 && FromUpload(w, t.imports[|s.imports|].digest))
    ensures AllFromUploads(w, t.imports)
  {
    forall i | 0 <= i < |s.imports| ensures FromUpload(w, t.imports[i].digest) {
      assert ImportKept(s.imports[i], t.imports[i]) && FromUpload(w, s.imports[i].digest);
    }
  }

  lemma NewImportFromUpload(w: World, s: Store, step: Step)
    requires Lawful(w, s) && |Apply(w, s, step).imports| > |s.imports|
    ensures var t := Apply(w, s, step); |t.imports| == |s.imports| + 1 && FromUpload(w, t.imports[|s.imports|].digest)
  {
    match step
    case Deliver(d) => assert false;
    case RunImport(a) => AttemptImports(w, s, a); assert false;
    case UploadCsv(key, body, aborts) => assert w.acceptsCsv(body);
  }

  lemma {:induction false} ReachableFromUploads(w: World, steps: seq<Step>)
    ensures AllFromUploads(w, Run(w, EMPTY, steps).imports)
    decreases |steps|
  {
    if steps != [] {
      var n := |steps| - 1;
      ReachableFromUploads(w, steps[..n]);
      PipelineInvariant.ReachableIsLawful(w, steps[..n]);
      StepFromUploads(w, Run(w, EMPTY, steps[..n]), steps[n]);
    }
  }

  /** The import is completed with the result of this attempt, or was completed before it. */
  ghost predicate CompletedBy(w: World, s: Store, t: Store, i: nat, a: Attempt)
    requires i < |s.imports| && a.stored.Some?
  {
    && i < |t.imports| && t.imports[i].state.Completed?
    && (s.imports[i].state.Completed? ==> t == s)
    && (s.imports[i].state == Uploaded ==> ResultOf(w, t.events, t.errors, t.imports[i], a.stored.value, a.now))
  }

  /** The upload refuses an empty file, so an import has the digest of the empty file only by a collision. */
  ghost predicate EmptyCollides(w: World) { exists body :: body != "" && w.acceptsCsv(body) && w.sha(body) == w.sha("") }

  /** Nothing but a missing or altered file or a rollback keeps an import from completing: an attempt of its job
      without these completes it, and a later one finds it completed. */
  lemma IntactAttemptCompletes(w: World, steps: seq<Step>, i: nat, a: Attempt)
    requires !w.acceptsCsv("")
    requires var s := Run(w, EMPTY, steps);
      && i < |s.imports| && a.event == Random(s.imports[i].id) && !a.aborts
      && a.stored.Some? && w.sha(a.stored.value) == s.imports[i].digest
    ensures var s := Run(w, EMPTY, steps);
      var (t, outcome) := ProcessCsv(w, s, a);
      (outcome == Succeeded && CompletedBy(w, s, t, i, a)) || (a.stored == Some("") && EmptyCollides(w))
  {
    PipelineInvariant.ReachableIsLawful(w, steps);
    ReachableControlled(w, steps);
    ReachableFromUploads(w, steps);
    var s := Run(w, EMPTY, steps);
    ControlNamesImport(w, s, i);
    if a.stored.value == "" {
      assert FromUpload(w, s.imports[i].digest);
    } else if s.imports[i].state == Uploaded {
      assert ImportLawful(w, s.events, s.errors, s.imports[i]);
      CompletionImports(w, s, i, a.stored.value, a.now);
      ImportedResult(w, s, ProcessCsv(w, s, a).0, i, a.stored.value, a.now);
    }
  }
}
