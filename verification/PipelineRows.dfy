/** What deliveries, uploads and import attempts write, column by column, and what a physical line is. */
module PipelineRows {
  import opened Basics
  import opened Envelope
  import opened Pipeline
  import opened PipelineInvariant
  import opened PipelineHistory
  import opened Ordering
  import J = CanonicalJson

  // ---------------------------------------------------------------- physical lines

  /** A line has a terminator at its end at most: \n, \r\n or \r. */
  ghost predicate OneLine(line: string) {
    && line != ""
    && (forall k :: 0 <= k < |line| - 1 ==> line[k] != '\n')
    && (forall k :: 0 <= k < |line| - 1 && line[k] == '\r' ==> k == |line| - 2 && line[k + 1] == '\n')
  }

  ghost predicate Terminated(line: string) { line != "" && (line[|line| - 1] == '\n' || line[|line| - 1] == '\r') }

  /** Every line but the last ends in its terminator, and none begins between \r and \n. */
  ghost predicate Physical(lines: seq<string>) {
    && (forall i :: 0 <= i < |lines| ==> OneLine(lines[i]))
    && (forall i :: 0 <= i < |lines| - 1 ==> Terminated(lines[i]))
    && (forall i :: 0 < i < |lines| ==> !(lines[i - 1][|lines[i - 1]| - 1] == '\r' && lines[i][0] == '\n'))
  }

  /** The first line is taken whole: it is one line, and the file ends there or goes on with another. */
  lemma {:induction false} FirstLine(body: string)
    requires body != ""
    ensures var n := LineLength(body);
      && OneLine(body[..n]) && (n < |body| ==> Terminated(body[..n]) && !(body[n - 1] == '\r' && body[n] == '\n'))
    decreases |body|
  {
    if body[0] != '\n' && body[0] != '\r' && |body| > 1 {
      FirstLine(body[1..]);
      var n := LineLength(body);
      assert body[..n] == [body[0]] + body[1..][..n - 1];
      assert forall k :: 0 < k < n ==> body[..n][k] == body[1..][..n - 1][k - 1];
    }
  }

  lemma {:induction false} SplitIsPhysical(body: string)
    ensures Physical(SplitLines(body)) && Concat(SplitLines(body)) == body
    ensures body != "" ==> SplitLines(body) != [] && SplitLines(body)[0] == body[..LineLength(body)]
    decreases |body|
  {
    LinesAreTheFile(body);
    if body != "" {
      var n := LineLength(body);
      FirstLine(body);
      SplitIsPhysical(body[n..]);
      var rest := SplitLines(body[n..]);
      if rest != [] { assert rest[0][0] == body[n..][0]; }
      assert SplitLines(body) == [body[..n]] + rest;
    }
  }

  /** A line of a file is its first one when the file ends with it or it is terminated before what follows. */
  lemma {:induction false} FirstLineIs(line: string, rest: string)
    requires OneLine(line) && (rest != "" ==> Terminated(line) && !(line[|line| - 1] == '\r' && rest[0] == '\n'))
    ensures LineLength(line + rest) == |line|
    decreases |line|
  {
    var body := line + rest;
    assert body[0] == line[0];
    if |line| > 1 {
      assert body[1] == line[1];
      if line[0] != '\r' {
        assert OneLine(line[1..]) by { assert forall k :: 0 <= k < |line| - 1 ==> line[1..][k] == line[k + 1]; }
        assert body[1..] == line[1..] + rest;
        FirstLineIs(line[1..], rest);
      }
    } else if rest != "" {
      assert body[1] == rest[0];
    }
  }

  lemma ConcatHead(lines: seq<string>)
    requires lines != [] && Physical(lines)
    ensures Concat(lines) == lines[0] + Concat(lines[1..]) && Physical(lines[1..])
    ensures Concat(lines[1..]) != "" ==> |lines| > 1 && Concat(lines[1..])[0] == lines[1][0]
  {
    var rest := lines[1..];
    assert forall i :: 0 <= i < |rest| ==> rest[i] == lines[i + 1];
    forall i | 0 < i < |rest| ensures !(rest[i - 1][|rest[i - 1]| - 1] == '\r' && rest[i][0] == '\n') {
      var k := i + 1;
      assert !(lines[k - 1][|lines[k - 1]| - 1] == '\r' && lines[k][0] == '\n');
    }
    if rest != [] { assert OneLine(lines[1]); }
  }

  /** The lines of a file are the one way to cut it into physical lines. */
  lemma {:induction false} LinesExactly(body: string, lines: seq<string>)
    ensures lines == SplitLines(body) <==> Physical(lines) && Concat(lines) == body
    decreases |lines|
  {
    SplitIsPhysical(body);
    if Physical(lines) && Concat(lines) == body && lines != [] {
      ConcatHead(lines);
      var rest := Concat(lines[1..]);
      assert OneLine(lines[0]);
      if rest != "" {
        var i := 1;
        assert !(lines[i - 1][|lines[i - 1]| - 1] == '\r' && lines[i][0] == '\n');
      }
      FirstLineIs(lines[0], rest);
      assert body[..LineLength(body)] == lines[0] && body[LineLength(body)..] == rest;
      LinesExactly(rest, lines[1..]);
    }
  }

  // ---------------------------------------------------------------- webhook deliveries

  /** The event of a delivery: its envelope, and the object it was read from. */
  ghost predicate WebhookStored(w: World, d: Delivery, incoming: Incoming, n: nat, e: Event) {
    && e.id == Random(n) && e.receipt == Some(n) && e.payload.Dict?
    && StoredAs(w.sha, Origin(w.idText(Random(n)), w.tenant, d.provider, "public_webhook", d.now, Some(w.sha(d.body))), incoming,
                Some("webhooks/" + J.IntText(d.endpoint) + "/" + w.sha(incoming.providerEventId) + ".json"), e.payload.fields, e.digest)
  }

  /** One receipt, one event and one job, under fresh ids. */
  ghost predicate DeliveryStored(w: World, s: Store, d: Delivery, incoming: Incoming, t: Store) {
    && t.receipts == s.receipts + [Receipt(s.next, d.endpoint, incoming.providerEventId, w.sha(d.body))]
    && |t.events| == |s.events| + 1 && t.events[..|s.events|] == s.events
    && WebhookStored(w, d, incoming, s.next, t.events[|s.events|])
    && t.jobs == s.jobs + [Job(RandomJob(s.next), Random(s.next), w.jobKind)]
    && t.imports == s.imports && t.errors == s.errors && t.next == s.next + 1
  }

  lemma NewDeliveryStored(w: World, s: Store, d: Delivery, incoming: Incoming)
    ensures WebhookStored(w, d, incoming, s.next, WebhookEvent(w, d, incoming, s.next))
  {
    SealedExactly(w.sha, WebhookOrigin(w, d, Random(s.next)), incoming, Some(ObjectKey(w, d.endpoint, incoming.providerEventId)));
  }

  lemma ReceiptIsFound(w: World, s: Store, i: nat)
    requires Lawful(w, s) && i < |s.receipts|
    ensures var r := s.receipts[i];
      Existing(s, r.endpoint, r.providerEventId) == Some((r, Random(r.id), RandomJob(r.id)))
  {
    var r := s.receipts[i];
    OnlyReceipt(s.receipts, s.next, i);
    var k := EventOfReceipt(w, s, i);
    OnlyRows(s, r.id, k);
    assert Paired(w, s.events[k], s.jobs[k]);
  }

  lemma OnlyReceipt(receipts: seq<Receipt>, next: nat, i: nat)
    requires ReceiptsLawful(receipts, next) && i < |receipts|
    ensures FindReceipt(receipts, receipts[i].endpoint, receipts[i].providerEventId) == i
  {
  }

  lemma OnlyRows(s: Store, receipt: nat, k: nat)
    requires OnlyPair(s, receipt, k)
    ensures FindByReceipt(s.events, receipt) == k && FindJob(s.jobs, s.events[k].id) == k
  {
  }

  /** The receipt is of this provider event, delivered to this endpoint. */
  ghost predicate Concerns(r: Receipt, d: Delivery, incoming: Incoming) {
    r.endpoint == d.endpoint && r.providerEventId == incoming.providerEventId
  }

  lemma KnownDelivery(w: World, s: Store, d: Delivery, incoming: Incoming, i: nat)
    requires Lawful(w, s) && w.decode(d.body) == Some(incoming) && i < |s.receipts| && Concerns(s.receipts[i], d, incoming)
    ensures var r := s.receipts[i];
      Receive(w, s, d) ==
        (s, if r.digest == w.sha(d.body) then Accepted(r.id, Random(r.id), RandomJob(r.id), true) else Conflict)
  {
    ReceiptIsFound(w, s, i);
  }

  lemma NewDelivery(w: World, s: Store, d: Delivery, incoming: Incoming)
    requires w.decode(d.body) == Some(incoming) && forall i :: 0 <= i < |s.receipts| ==> !Concerns(s.receipts[i], d, incoming)
    ensures var (t, answer) := Receive(w, s, d);
      if d.aborts then t == s && answer == Failed
      else DeliveryStored(w, s, d, incoming, t) && answer == Accepted(s.next, Random(s.next), RandomJob(s.next), false)
  {
    assert FindReceipt(s.receipts, d.endpoint, incoming.providerEventId) == |s.receipts|;
    NewDeliveryStored(w, s, d, incoming);
  }

  /** A delivery is invalid exactly when its body does not decode. Otherwise, if a receipt of its endpoint and
      provider event exists, it is answered with that receipt's ids when the body digests agree, else it is a conflict,
      and nothing changes; if none exists, it is stored, unless storage or the database fails. */
  lemma ReceiveExactly(w: World, s: Store, d: Delivery)
    requires Lawful(w, s)
    ensures var (t, answer) := Receive(w, s, d);
      match w.decode(d.body)
      case None => t == s && answer == Invalid
      case Some(incoming) =>
        && (forall i :: 0 <= i < |s.receipts| && Concerns(s.receipts[i], d, incoming) ==>
              var r := s.receipts[i];
              && t == s
              && answer == if r.digest == w.sha(d.body) then Accepted(r.id, Random(r.id), RandomJob(r.id), true) else Conflict)
        && ((forall i :: 0 <= i < |s.receipts| ==> !Concerns(s.receipts[i], d, incoming)) ==>
              if d.aborts then t == s && answer == Failed
              else DeliveryStored(w, s, d, incoming, t) && answer == Accepted(s.next, Random(s.next), RandomJob(s.next), false))
  {
    if w.decode(d.body).Some? {
      var incoming := w.decode(d.body).value;
      if i :| 0 <= i < |s.receipts| && Concerns(s.receipts[i], d, incoming) {
        forall k | 0 <= k < |s.receipts| && Concerns(s.receipts[k], d, incoming)
          ensures var r := s.receipts[k];
            Receive(w, s, d) ==
              (s, if r.digest == w.sha(d.body) then Accepted(r.id, Random(r.id), RandomJob(r.id), true) else Conflict)
        {
          KnownDelivery(w, s, d, incoming, k);
        }
      } else {
        NewDelivery(w, s, d, incoming);
      }
    }
  }

  // ---------------------------------------------------------------- CSV uploads

  predicate Unescaped(t: string) { forall i :: 0 <= i < |t| ==> t[i] >= ' ' && t[i] != '\"' && t[i] != '\\' }

  lemma {:induction false} NothingEscaped(t: string)
    requires Unescaped(t)
    ensures J.Escape(t) == t
    decreases |t|
  {
    if t != [] {
      NothingEscaped(t[1..]);
      assert t == [t[0]] + t[1..];
    }
  }

  lemma TextMember(key: string, text: string)
    requires J.Escape(key) == key && J.Escape(text) == text
    ensures J.PrintMember(J.Member(key, J.JStr(text))) == "\"" + key + "\":\"" + text + "\""
  {
    assert J.StringText(key) == "\"" + key + "\"" && J.Print(J.JStr(text)) == "\"" + text + "\"";
  }

  lemma OneMemberText(m: J.Member)
    ensures J.Print(J.JObject([m])) == "{" + J.PrintMember(m) + "}"
  {
    var none: seq<J.Member> := [];
    assert [m][1..] == none;
    assert J.PrintMember(m) + J.PrintMoreMembers(none) == J.PrintMember(m);
  }

  /** The text of a mapping with one member. */
  lemma OneEntry(key: string, text: string)
    requires Unescaped(key) && Unescaped(text)
    ensures J.CanonicalDocument(J.Dict([J.Field(key, J.Str(text))])) == "{\"" + key + "\":\"" + text + "\"}"
  {
    var member := J.Member(key, J.JStr(text));
    assert J.CanonicalDocument(J.Dict([J.Field(key, J.Str(text))])) == J.Print(J.JObject([member])) by {
      J.PlainKeepsCanon(J.Dict([J.Field(key, J.Str(text))]));
      OneMember(key, text);
    }
    assert J.Print(J.JObject([member])) == "{" + J.PrintMember(member) + "}" by { OneMemberText(member); }
    assert J.PrintMember(member) == "\"" + key + "\":\"" + text + "\"" by {
      NothingEscaped(text);
      NothingEscaped(key);
      TextMember(key, text);
    }
    Enclosed(J.PrintMember(member), key, text);
  }

  lemma Enclosed(inside: string, key: string, text: string)
    requires inside == "\"" + key + "\":\"" + text + "\""
    ensures "{" + inside + "}" == "{\"" + key + "\":\"" + text + "\"}"
  {
  }

  lemma ControlText(n: nat)
    ensures J.CanonicalDocument(J.Dict([J.Field("import_id", J.Str(J.IntText(n)))])) == "{\"" + "import_id" + "\":\"" + J.IntText(n) + "\"}"
  {
    J.NatTextDigits(n);
    OneEntry("import_id", J.IntText(n));
  }

  lemma OneMember(key: string, text: string)
    ensures J.Canon(J.Dict([J.Field(key, J.Str(text))])) == J.JObject([J.Member(key, J.JStr(text))])
  {
    var fields, member := [J.Field(key, J.Str(text))], J.Member(key, J.JStr(text));
    assert fields[1..] == [] && [member][1..] == [];
    assert J.CanonFields(fields) == [member] + J.CanonFields([]);
    assert Sort([member], J.KeyLess) == Insert(member, Sort([], J.KeyLess), J.KeyLess);
  }

  /** The import, its control event and its job, under fresh ids. */
  ghost predicate UploadStored(w: World, s: Store, key: string, body: string, t: Store) {
    var n := s.next;
    && t.imports == s.imports + [Import(n, key, w.sha(body), Uploaded)]
    && t.events == s.events + [Event(Random(n), None, J.Dict([J.Field("import_id", J.Str(J.IntText(n)))]),
                                     w.sha("{\"" + "import_id" + "\":\"" + J.IntText(n) + "\"}"))]
    && t.jobs == s.jobs + [Job(RandomJob(n), Random(n), "ingest.csv.v1")]
    && t.receipts == s.receipts && t.errors == s.errors && t.next == n + 1
  }

  /** An upload is unacceptable exactly when its file does not parse. Otherwise, under a key in use it is answered
      with that import when the file digests agree, else it is a conflict, and nothing changes; under a new key it is
      stored, unless storage or the database fails. */
  lemma UploadExactly(w: World, s: Store, key: string, body: string, aborts: bool)
    requires Lawful(w, s)
    ensures var (t, answer) := Upload(w, s, key, body, aborts);
      if !w.acceptsCsv(body) then t == s && answer == Unacceptable
      else
        && (forall i :: 0 <= i < |s.imports| && s.imports[i].key == key ==>
              t == s && answer == if s.imports[i].digest == w.sha(body) then Created(s.imports[i].id, true) else KeyConflict)
        && ((forall i :: 0 <= i < |s.imports| ==> s.imports[i].key != key) ==>
              if aborts then t == s && answer == UploadFailed
              else UploadStored(w, s, key, body, t) && answer == Created(s.next, false))
  {
    if exists i :: 0 <= i < |s.imports| && s.imports[i].key == key {
      OnlyKey(w, s.events, s.errors, s.imports, s.next, key);
    } else if w.acceptsCsv(body) && !aborts {
      ControlText(s.next);
      NewUpload(w, s, key, body);
    }
  }

  lemma OnlyKey(w: World, events: seq<Event>, errors: seq<RowError>, imports: seq<Import>, next: nat, key: string)
    requires ImportsLawful(w, events, errors, imports, next)
    ensures forall i :: 0 <= i < |imports| && imports[i].key == key ==> FindKey(imports, key) == i
  {
  }

  lemma NewUpload(w: World, s: Store, key: string, body: string)
    requires w.acceptsCsv(body) && forall i :: 0 <= i < |s.imports| ==> s.imports[i].key != key
    ensures UploadStored(w, s, key, body, Upload(w, s, key, body, false).0) && Upload(w, s, key, body, false).1 == Created(s.next, false)
  {
    ControlText(s.next);
  }

  // ---------------------------------------------------------------- the rows of an import

  /** Row r of the file: an event under the row's own id exactly when the line parses under the header. */
  lemma RowExactly(w: World, id: nat, lines: seq<string>, r: nat, now: string)
    requires 2 <= r <= |lines|
    ensures var result := LineResult(w, id, lines, r, now);
      match w.parseRow(lines[0], lines[r - 1])
      case None => result == None
      case Some(incoming) =>
        && result.Some? && result.value.id == FromRow(id, r) && result.value.receipt == None && result.value.payload.Dict?
        && StoredAs(w.sha, Origin(w.idText(FromRow(id, r)), w.tenant, "csv", "csv_import", now, None), incoming, None,
                    result.value.payload.fields, result.value.digest)
  {
    if w.parseRow(lines[0], lines[r - 1]).Some? {
      SealedExactly(w.sha, RowOrigin(w, id, r, now), w.parseRow(lines[0], lines[r - 1]).value, None);
    }
  }

  /** What a successful attempt adds: an event and its job for every accepted row, in row order, an error for every
      refused one, and the counts. */
  ghost predicate ImportStored(
      w: World, s: Store, i: nat, body: string, now: string, t: Store, es: seq<Event>, js: seq<Job>, xs: seq<RowError>)
    requires i < |s.imports|
  {
    var imp, lines := s.imports[i], SplitLines(body);
    && t == s.(events := s.events + es, jobs := s.jobs + js, errors := s.errors + xs,
               imports := s.imports[i := imp.(state := Completed(|es| + |xs|, |es|, |xs|))])
    && (forall e :: e in es <==> FromLine(w, imp.id, lines, now, e))
    && |js| == |es|
    && (forall k :: 0 <= k < |es| ==>
          es[k].id.FromRow? && js[k] == Job(RowJob(imp.id, es[k].id.row), es[k].id, "ingest.canonical_event.v1"))
    && (forall k, m :: 0 <= k < m < |es| && es[k].id.FromRow? && es[m].id.FromRow? ==> es[k].id.row < es[m].id.row)
    && (forall x :: x in xs <==>
          x.importId == imp.id && 2 <= x.row <= |lines| && LineResult(w, imp.id, lines, x.row, now).None?)
    && |lines| == |es| + |xs| + 1
  }

  ghost predicate ImportRan(w: World, s: Store, i: nat, body: string, now: string, t: Store)
    requires i < |s.imports|
  {
    exists es, js, xs :: ImportStored(w, s, i, body, now, t, es, js, xs)
  }

  lemma CompletionStored(w: World, s: Store, t: Store, i: nat, body: string, now: string)
    requires Imported(w, s, t, i, body, now)
    ensures ImportRan(w, s, i, body, now, t)
  {
    var id, lines := s.imports[i].id, SplitLines(body);
    var results := RowResults(w, id, lines, now);
    var es, js, xs := RunEvents(results, |results|), RunJobs(id, results, |results|), RunErrors(id, results, |results|);
    ResultsAreNamed(w, id, lines, now);
    OneRunExactly(id, results);
    RunRows(id, results, |results|);
    LinesAreResults(w, id, lines, now);
    LinesAndResults(w, id, lines, now, results);
    RunIsRowByRow(w, id, lines, now, results, es, xs);
    assert ImportStored(w, s, i, body, now, t, es, js, xs);
  }

  /** An attempt of an import's job: done if the import is completed; an error, to be tried again, if the file cannot
      be read or the transaction is rolled back; refused for good if the file is empty or not the one uploaded; and
      otherwise the import runs. Only the last changes anything. */
  lemma AttemptExactly(w: World, s: Store, i: nat, a: Attempt)
    requires Lawful(w, s) && Controlled(w, s.events, s.imports) && i < |s.imports| && a.event == Random(s.imports[i].id)
    ensures var (t, outcome) := ProcessCsv(w, s, a);
      if s.imports[i].state.Completed? then t == s && outcome == Succeeded
      else if a.stored.None? then t == s && outcome == Error
      else if w.sha(a.stored.value) != s.imports[i].digest || a.stored.value == "" then t == s && outcome == Permanent
      else if a.aborts then t == s && outcome == Error
      else outcome == Succeeded && ImportRan(w, s, i, a.stored.value, a.now, t)
  {
    ControlNamesImport(w, s, i);
    if s.imports[i].state == Uploaded && a.stored.Some? && w.sha(a.stored.value) == s.imports[i].digest
       && a.stored.value != "" && !a.aborts {
      assert ImportLawful(w, s.events, s.errors, s.imports[i]);
      CompletionImports(w, s, i, a.stored.value, a.now);
      CompletionStored(w, s, ProcessCsv(w, s, a).0, i, a.stored.value, a.now);
    }
  }

  /** The job of an event that does not exist is refused for good. */
  lemma MissingControl(w: World, s: Store, a: Attempt)
    requires forall k :: 0 <= k < |s.events| ==> s.events[k].id != a.event
    ensures ProcessCsv(w, s, a) == (s, Permanent)
  {
  }
}
