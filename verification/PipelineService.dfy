/** The producers as they write: a delivery inserts three rows, an import attempt inserts row after row;
    a failure on the way rolls the transaction back. */
module PipelineService {
  import opened Basics
  import opened Pipeline
  import opened PipelineInvariant

  class Database {
    const world: World
    var receipts: seq<Receipt>
    var events: seq<Event>
    var jobs: seq<Job>
    var imports: seq<Import>
    var errors: seq<RowError>
    var next: nat

    function Rows(): Store
      reads this
    {
      Store(receipts, events, jobs, imports, errors, next)
    }

    constructor (world: World)
      ensures Rows() == EMPTY && this.world == world && Lawful(world, Rows())
    {
      this.world := world;
      receipts, events, jobs, imports, errors, next := [], [], [], [], [], 0;
      new;
      PipelineInvariant.ReachableIsLawful(world, []);
      assert Run(world, EMPTY, []) == EMPTY;
    }

    /** ROLLBACK. */
    method Restore(saved: Store)
      modifies this
      ensures Rows() == saved
    {
      receipts, events, jobs, imports, errors, next :=
        saved.receipts, saved.events, saved.jobs, saved.imports, saved.errors, saved.next;
    }

    /** The three inserts of a delivery; storage or the database may fail after the first two. */
    method InsertRows(r: seq<Receipt>, e: Event, j: Job, fails: bool) returns (ok: bool)
      modifies this
      ensures ok == !fails
      ensures Rows() == if fails then old(Rows()) else
        old(Rows()).(receipts := old(receipts) + r, events := old(events) + [e], jobs := old(jobs) + [j], next := old(next) + 1)
    {
      var saved := Rows();
      receipts := receipts + r;
      events := events + [e];
      if fails {
        Restore(saved);
        return false;
      }
      jobs := jobs + [j];
      next := next + 1;
      return true;
    }

    /** One webhook delivery, from the lock on the provider identity to the commit. */
    method Receive(d: Delivery) returns (answer: Answer)
      modifies this
      ensures (Rows(), answer) == Pipeline.Receive(world, old(Rows()), d)
    {
      var decoded := world.decode(d.body);
      if decoded.None? { return Invalid; }
      var incoming, digest := decoded.value, world.sha(d.body);
      var existing := Existing(Rows(), d.endpoint, incoming.providerEventId);
      if existing.Some? {
        if existing.value.0.digest != digest { return Conflict; }
        return Accepted(existing.value.0.id, existing.value.1, existing.value.2, true);
      }
      var n := next;
      var taken := FindReceipt(receipts, d.endpoint, incoming.providerEventId) < |receipts|;
      var ok := InsertRows([Receipt(n, d.endpoint, incoming.providerEventId, digest)], WebhookEvent(world, d, incoming, n),
                           Job(RandomJob(n), Random(n), world.jobKind), d.aborts || taken);
      if !ok { return Failed; }
      return Accepted(n, Random(n), RandomJob(n), false);
    }

    /** The loop over the rows of a file; a failure strikes at row `failsAt`, or at the final update. */
    method InsertResults(importId: nat, results: seq<Option<Event>>, fails: bool, failsAt: nat) returns (ok: bool, accepted: nat, rejected: nat)
      modifies this
      ensures ok == !fails
      ensures ok ==> Progress(Rows(), accepted, rejected) == AddRows(old(Rows()), importId, results, |results|)
      ensures !ok ==> Rows() == old(Rows())
    {
      var saved := Rows();
      accepted, rejected := 0, 0;
      var k := 0;
      while k < |results|
        invariant 0 <= k <= |results|
        invariant Progress(Rows(), accepted, rejected) == AddRows(saved, importId, results, k)
      {
        if fails && k == failsAt {
          Restore(saved);
          return false, 0, 0;
        }
        var row := k + 2;
        if results[k].Some? {
          events := InsertEvent(events, results[k].value);
          jobs := InsertJob(jobs, Job(RowJob(importId, row), results[k].value.id, EVENT_KIND));
          accepted := accepted + 1;
        } else {
          errors := InsertError(errors, RowError(importId, row));
          rejected := rejected + 1;
        }
        k := k + 1;
      }
      if fails { Restore(saved); }
      ok := !fails;
    }

    /** The rows, then the counts and the state of the import. */
    method Complete(i: nat, results: seq<Option<Event>>, fails: bool, failsAt: nat) returns (ok: bool)
      requires i < |imports|
      modifies this
      ensures ok == !fails
      ensures !ok ==> Rows() == old(Rows())
      ensures ok ==>
        var p := AddRows(old(Rows()), old(imports)[i].id, results, |results|);
        Rows() == p.store.(imports := old(imports)[i := old(imports)[i].(state := Completed(p.accepted + p.rejected, p.accepted, p.rejected))])
    {
      var record := imports[i];
      AddRowsKeepsImports(Rows(), record.id, results, |results|);
      var accepted, rejected;
      ok, accepted, rejected := InsertResults(record.id, results, fails, failsAt);
      if ok { imports := imports[i := record.(state := Completed(accepted + rejected, accepted, rejected))]; }
    }

    method Check(a: Attempt) returns (r: Result<(nat, seq<string>), Outcome>)
      ensures r == Screen(world, Rows(), a)
    {
      var target := ImportFor(Rows(), a.event);
      if target.None? { return Err(Permanent); }
      var record := imports[target.value];
      if record.state.Completed? { return Err(Succeeded); }
      if a.stored.None? { return Err(Error); }
      if world.sha(a.stored.value) != record.digest { return Err(Permanent); }
      var lines := SplitLines(a.stored.value);
      if lines == [] { return Err(Permanent); }
      return Ok((target.value, lines));
    }

    /** The file that passed the checks is imported, unless the attempt is rolled back. */
    method ImportFile(i: nat, lines: seq<string>, a: Attempt, failsAt: nat) returns (outcome: Outcome)
      requires i < |imports| && lines != []
      modifies this
      ensures outcome == if a.aborts then Error else Succeeded
      ensures Rows() == if a.aborts then old(Rows()) else CompleteImport(world, old(Rows()), i, lines, a.now)
    {
      var ok := Complete(i, RowResults(world, imports[i].id, lines, a.now), a.aborts, failsAt);
      return if ok then Succeeded else Error;
    }

    /** One delivery of a CSV job. */
    method HandleCsv(a: Attempt, failsAt: nat) returns (outcome: Outcome)
      modifies this
      ensures (Rows(), outcome) == ProcessCsv(world, old(Rows()), a)
    {
      var screened := Check(a);
      if screened.Err? { return screened.error; }
      outcome := ImportFile(screened.value.0, screened.value.1, a, failsAt);
    }

    method UploadCsv(key: string, body: string, aborts: bool) returns (answer: UploadAnswer)
      modifies this
      ensures (Rows(), answer) == Upload(world, old(Rows()), key, body, aborts)
    {
      if !world.acceptsCsv(body) { return Unacceptable; }
      var i, digest := FindKey(imports, key), world.sha(body);
      if i < |imports| {
        if imports[i].digest != digest { return KeyConflict; }
        return Created(imports[i].id, true);
      }
      var n := next;
      var ok := InsertRows([], ControlEvent(world, n), Job(RandomJob(n), Random(n), CSV_KIND), aborts);
      if !ok { return UploadFailed; }
      assert receipts == old(receipts);
      imports := imports + [Import(n, key, digest, Uploaded)];
      return Created(n, false);
    }

    /** A worker keeps delivering whatever is asked of it: the tables stay lawful over any sequence. */
    method Serve(steps: seq<Step>)
      requires Lawful(world, Rows())
      modifies this
      ensures Rows() == Run(world, old(Rows()), steps)
      ensures Lawful(world, Rows())
    {
      ghost var start := Rows();
      assert steps[..0] == [];
      for i := 0 to |steps|
        invariant Rows() == Run(world, start, steps[..i]) && Lawful(world, Rows())
      {
        StepKeeps(world, Rows(), steps[i]);
        RunStep(world, start, steps, i);
        match steps[i]
        case Deliver(d) => var answer := Receive(d);
        case UploadCsv(key, body, aborts) => var answer := UploadCsv(key, body, aborts);
        case RunImport(a) => var outcome := HandleCsv(a, 0);
      }
      assert steps[..|steps|] == steps;
    }
  }

  lemma RunStep(w: World, s: Store, steps: seq<Step>, i: nat)
    requires i < |steps|
    ensures Run(w, s, steps[..i + 1]) == Apply(w, Run(w, s, steps[..i]), steps[i])
  {
    assert steps[..i + 1][..i] == steps[..i];
  }

  lemma {:induction false} AddRowsKeepsImports(s: Store, importId: nat, results: seq<Option<Event>>, n: nat)
    requires n <= |results|
    ensures AddRows(s, importId, results, n).store.imports == s.imports
    decreases n
  {
    if n > 0 { AddRowsKeepsImports(s, importId, results, n - 1); }
  }
}
