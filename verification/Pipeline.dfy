/** The producers that feed the queue: webhook deliveries, CSV uploads and the CSV import handler, each as
    one transaction over the receipt, event, job, import and error tables of a tenant. */
module Pipeline {
  import opened Basics
  import opened Envelope
  import J = CanonicalJson

  // ---------------------------------------------------------------- rows

  /** uuid4, or uuid5 of an import and a row number. */
  datatype EventId = Random(n: nat) | FromRow(importId: nat, row: nat)
  datatype JobId = RandomJob(n: nat) | RowJob(importId: nat, row: nat)

  datatype Receipt = Receipt(id: nat, endpoint: nat, providerEventId: string, digest: string)

  datatype Event = Event(id: EventId, receipt: Option<nat>, payload: J.Value, digest: string)

  datatype Job = Job(id: JobId, event: EventId, kind: string)

  datatype ImportState = Uploaded | Completed(total: nat, accepted: nat, rejected: nat)

  datatype Import = Import(id: nat, key: string, digest: string, state: ImportState)

  datatype RowError = RowError(importId: nat, row: nat)

  datatype Store = Store(
    receipts: seq<Receipt>, events: seq<Event>, jobs: seq<Job>, imports: seq<Import>, errors: seq<RowError>, next: nat)

  const EMPTY := Store([], [], [], [], [], 0)

  const EVENT_KIND := "ingest.canonical_event.v1"
  const CSV_KIND := "ingest.csv.v1"

  /** What the pipeline calls but this model leaves open: the hash, the parsers, the text of an id. */
  datatype World = World(
    sha: string -> string, tenant: string, idText: EventId -> string, jobKind: string,
    decode: string -> Option<Incoming>, acceptsCsv: string -> bool, parseRow: (string, string) -> Option<Incoming>)

  // ---------------------------------------------------------------- look-ups

  /** The first row a WHERE clause admits, or the number of rows. */
  function First<T>(rows: seq<T>, admits: T -> bool): (i: nat)
    ensures i <= |rows|
    ensures i < |rows| ==> admits(rows[i])
    ensures forall k :: 0 <= k < i ==> !admits(rows[k])
  {
    if rows == [] || admits(rows[0]) then 0 else 1 + First(rows[1..], admits)
  }

  function FindReceipt(rows: seq<Receipt>, endpoint: nat, providerEventId: string): (i: nat)
    ensures i <= |rows|
    ensures i < |rows| ==> rows[i].endpoint == endpoint && rows[i].providerEventId == providerEventId
    ensures forall k :: 0 <= k < i ==> !(rows[k].endpoint == endpoint && rows[k].providerEventId == providerEventId)
  {
    First(rows, (r: Receipt) => r.endpoint == endpoint && r.providerEventId == providerEventId)
  }

  function FindByReceipt(rows: seq<Event>, receipt: nat): (i: nat)
    ensures i <= |rows|
    ensures i < |rows| ==> rows[i].receipt == Some(receipt)
    ensures forall k :: 0 <= k < i ==> rows[k].receipt != Some(receipt)
  {
    First(rows, (e: Event) => e.receipt == Some(receipt))
  }

  function FindEvent(rows: seq<Event>, id: EventId): (i: nat)
    ensures i <= |rows|
    ensures i < |rows| ==> rows[i].id == id
    ensures forall k :: 0 <= k < i ==> rows[k].id != id
  {
    First(rows, (e: Event) => e.id == id)
  }

  function FindJob(rows: seq<Job>, event: EventId): (i: nat)
    ensures i <= |rows|
    ensures i < |rows| ==> rows[i].event == event
    ensures forall k :: 0 <= k < i ==> rows[k].event != event
  {
    First(rows, (j: Job) => j.event == event)
  }

  function FindKey(rows: seq<Import>, key: string): (i: nat)
    ensures i <= |rows|
    ensures i < |rows| ==> rows[i].key == key
    ensures forall k :: 0 <= k < i ==> rows[k].key != key
  {
    First(rows, (imp: Import) => imp.key == key)
  }

  /** The import whose id has this text. */
  function FindImport(rows: seq<Import>, text: J.Value): (i: nat)
    ensures i <= |rows|
    ensures i < |rows| ==> J.Str(J.IntText(rows[i].id)) == text
    ensures forall k :: 0 <= k < i ==> J.Str(J.IntText(rows[k].id)) != text
  {
    First(rows, (imp: Import) => J.Str(J.IntText(imp.id)) == text)
  }

  // ---------------------------------------------------------------- webhook deliveries

  /** An authenticated delivery; `aborts` when storage or the database fails before the commit. */
  datatype Delivery = Delivery(endpoint: nat, provider: string, body: string, now: string, aborts: bool)

  datatype Answer =
    | Accepted(receipt: nat, event: EventId, job: JobId, duplicate: bool)
    | Invalid
    | Conflict
    | Failed

  /** The receipt joined with its event and that event's job. */
  function Existing(s: Store, endpoint: nat, providerEventId: string): Option<(Receipt, EventId, JobId)> {
    var r := FindReceipt(s.receipts, endpoint, providerEventId);
    if r == |s.receipts| then None
    else
      var e := FindByReceipt(s.events, s.receipts[r].id);
      if e == |s.events| then None
      else
        var j := FindJob(s.jobs, s.events[e].id);
        if j == |s.jobs| then None else Some((s.receipts[r], s.events[e].id, s.jobs[j].id))
  }

  /** f"webhooks/{endpoint_id}/{identity_digest}.json". */
  function ObjectKey(w: World, endpoint: nat, providerEventId: string): string {
    "webhooks/" + J.IntText(endpoint) + "/" + w.sha(providerEventId) + ".json"
  }

  function WebhookOrigin(w: World, d: Delivery, id: EventId): Origin {
    Origin(w.idText(id), w.tenant, d.provider, "public_webhook", d.now, Some(w.sha(d.body)))
  }

  function WebhookEvent(w: World, d: Delivery, incoming: Incoming, n: nat): Event {
    var o := WebhookOrigin(w, d, Random(n));
    Event(Random(n), Some(n), J.Dict(Sealed(w.sha, o, incoming, Some(ObjectKey(w, d.endpoint, incoming.providerEventId)))),
          EnvelopeDigest(w.sha, CanonicalFields(o, incoming)))
  }

  /** From the advisory lock to the commit. */
  function Receive(w: World, s: Store, d: Delivery): (Store, Answer) {
    var decoded := w.decode(d.body);
    if decoded.None? then (s, Invalid)
    else
      var incoming, digest := decoded.value, w.sha(d.body);
      var existing := Existing(s, d.endpoint, incoming.providerEventId);
      if existing.Some? then
        (s, if existing.value.0.digest != digest then Conflict
            else Accepted(existing.value.0.id, existing.value.1, existing.value.2, true))
      else if d.aborts || FindReceipt(s.receipts, d.endpoint, incoming.providerEventId) < |s.receipts| then (s, Failed)
      else
        var n := s.next;
        (s.(receipts := s.receipts + [Receipt(n, d.endpoint, incoming.providerEventId, digest)],
            events := s.events + [WebhookEvent(w, d, incoming, n)],
            jobs := s.jobs + [Job(RandomJob(n), Random(n), w.jobKind)],
            next := n + 1),
         Accepted(n, Random(n), RandomJob(n), false))
  }

  // ---------------------------------------------------------------- CSV uploads

  datatype UploadAnswer = Created(importId: nat, duplicate: bool) | Unacceptable | KeyConflict | UploadFailed

  function ControlEvent(w: World, n: nat): Event {
    var payload := J.Dict([J.Field("import_id", J.Str(J.IntText(n)))]);
    Event(Random(n), None, payload, w.sha(J.CanonicalDocument(payload)))
  }

  function Upload(w: World, s: Store, key: string, body: string, aborts: bool): (Store, UploadAnswer) {
    if !w.acceptsCsv(body) then (s, Unacceptable)
    else
      var i, digest := FindKey(s.imports, key), w.sha(body);
      if i < |s.imports| then (s, if s.imports[i].digest != digest then KeyConflict else Created(s.imports[i].id, true))
      else if aborts then (s, UploadFailed)
      else
        var n := s.next;
        (s.(imports := s.imports + [Import(n, key, digest, Uploaded)], events := s.events + [ControlEvent(w, n)],
            jobs := s.jobs + [Job(RandomJob(n), Random(n), CSV_KIND)], next := n + 1),
         Created(n, false))
  }

  // ---------------------------------------------------------------- physical lines

  /** The length of the first line with its terminator: \n, \r\n or \r. */
  function LineLength(body: string): (n: nat)
    requires body != []
    ensures 1 <= n <= |body|
  {
    if body[0] == '\n' then 1
    else if body[0] == '\r' then if |body| > 1 && body[1] == '\n' then 2 else 1
    else if |body| == 1 then 1
    else 1 + LineLength(body[1..])
  }

  /** bytes.splitlines(keepends=True). */
  function SplitLines(body: string): seq<string>
    decreases |body|
  {
    if body == [] then [] else [body[..LineLength(body)]] + SplitLines(body[LineLength(body)..])
  }

  // ---------------------------------------------------------------- the CSV import handler

  function RowOrigin(w: World, importId: nat, row: nat, now: string): Origin {
    Origin(w.idText(FromRow(importId, row)), w.tenant, "csv", "csv_import", now, None)
  }

  function RowEvent(w: World, importId: nat, row: nat, incoming: Incoming, now: string): Event {
    var o := RowOrigin(w, importId, row, now);
    Event(FromRow(importId, row), None, J.Dict(Sealed(w.sha, o, incoming, None)), EnvelopeDigest(w.sha, CanonicalFields(o, incoming)))
  }

  /** ON CONFLICT (tenant_id, id) DO NOTHING. */
  function InsertEvent(events: seq<Event>, e: Event): seq<Event> {
    if FindEvent(events, e.id) < |events| then events else events + [e]
  }

  /** ON CONFLICT (tenant_id, event_id, kind) DO NOTHING. */
  function InsertJob(jobs: seq<Job>, j: Job): seq<Job> {
    if exists i :: 0 <= i < |jobs| && jobs[i].event == j.event && jobs[i].kind == j.kind then jobs else jobs + [j]
  }

  /** ON CONFLICT (tenant_id, import_id, row_number, code) DO NOTHING. */
  function InsertError(errors: seq<RowError>, e: RowError): seq<RowError> {
    if e in errors then errors else errors + [e]
  }

  /** What each line after the header becomes: an event, or a rejection. Rows are counted from 2. */
  function RowResults(w: World, importId: nat, lines: seq<string>, now: string): (results: seq<Option<Event>>)
    requires lines != []
    ensures |results| == |lines| - 1
  {
    seq(|lines| - 1, i requires 0 <= i < |lines| - 1 => RowResult(w, importId, lines[0], lines[i + 1], i + 2, now))
  }

  function RowResult(w: World, importId: nat, header: string, line: string, row: nat, now: string): Option<Event> {
    var incoming := w.parseRow(header, line);
    if incoming.None? then None else Some(RowEvent(w, importId, row, incoming.value, now))
  }

  datatype Progress = Progress(store: Store, accepted: nat, rejected: nat)

  /** One turn of the loop. */
  function AddRow(p: Progress, importId: nat, result: Option<Event>, row: nat): Progress {
    var s := p.store;
    if result.Some? then
      Progress(s.(events := InsertEvent(s.events, result.value),
                  jobs := InsertJob(s.jobs, Job(RowJob(importId, row), result.value.id, EVENT_KIND))),
               p.accepted + 1, p.rejected)
    else
      Progress(s.(errors := InsertError(s.errors, RowError(importId, row))), p.accepted, p.rejected + 1)
  }

  /** The loop over the first n rows. */
  function AddRows(s: Store, importId: nat, results: seq<Option<Event>>, n: nat): Progress
    requires n <= |results|
  {
    if n == 0 then Progress(s, 0, 0) else AddRow(AddRows(s, importId, results, n - 1), importId, results[n - 1], n + 1)
  }

  /** One delivery of a CSV job to the handler: what storage returns, the clock, and whether the
      transaction is rolled back on the way. */
  datatype Attempt = Attempt(event: EventId, stored: Option<string>, now: string, aborts: bool)

  datatype Outcome = Succeeded | Permanent | Error

  /** The import the job's control event names, if both exist. */
  function ImportFor(s: Store, event: EventId): (i: Option<nat>)
    ensures i.Some? ==> i.value < |s.imports|
  {
    var e := FindEvent(s.events, event);
    if e == |s.events| || !s.events[e].payload.Dict? then None
    else
      var id := Get(s.events[e].payload.fields, "import_id");
      if id.None? || FindImport(s.imports, id.value) == |s.imports| then None else Some(FindImport(s.imports, id.value))
  }

  /** The loop over all rows and the final update of the import. */
  function CompleteImport(w: World, s: Store, i: nat, lines: seq<string>, now: string): Store
    requires i < |s.imports| && lines != []
  {
    var p := AddRows(s, s.imports[i].id, RowResults(w, s.imports[i].id, lines, now), |lines| - 1);
    p.store.(imports := s.imports[i := s.imports[i].(state := Completed(p.accepted + p.rejected, p.accepted, p.rejected))])
  }

  /** The checks ahead of the loop: the import to run and its physical lines, or how the attempt ends. */
  function Screen(w: World, s: Store, a: Attempt): (r: Result<(nat, seq<string>), Outcome>)
    ensures r.Ok? ==> r.value.0 < |s.imports| && r.value.1 != []
  {
    var i := ImportFor(s, a.event);
    if i.None? then Err(Permanent)
    else if s.imports[i.value].state.Completed? then Err(Succeeded)
    else if a.stored.None? then Err(Error)
    else if w.sha(a.stored.value) != s.imports[i.value].digest then Err(Permanent)
    else if SplitLines(a.stored.value) == [] then Err(Permanent)
    else Ok((i.value, SplitLines(a.stored.value)))
  }

  function ProcessCsv(w: World, s: Store, a: Attempt): (Store, Outcome) {
    var screened := Screen(w, s, a);
    if screened.Err? then (s, screened.error)
    else if a.aborts then (s, Error)
    else (CompleteImport(w, s, screened.value.0, screened.value.1, a.now), Succeeded)
  }

  // ---------------------------------------------------------------- runs

  datatype Step =
    | Deliver(delivery: Delivery)
    | UploadCsv(key: string, body: string, aborts: bool)
    | RunImport(attempt: Attempt)

  function Apply(w: World, s: Store, step: Step): Store {
    match step
    case Deliver(d) => Receive(w, s, d).0
    case UploadCsv(key, body, aborts) => Upload(w, s, key, body, aborts).0
    case RunImport(a) => ProcessCsv(w, s, a).0
  }

  function Run(w: World, s: Store, steps: seq<Step>): Store
    decreases |steps|
  {
    if steps == [] then s
    else
      var n := |steps| - 1;
      Apply(w, Run(w, s, steps[..n]), steps[n])
  }
}
