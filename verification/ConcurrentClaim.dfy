/** Claim and finish transactions running at the same time. A claim fixes the due rows in order, then tries
    to lock them one by one: a row locked by another transaction is skipped, a row that is no longer due
    is left, and when the batch is full or the rows are exhausted the locked due rows are updated
    together and the locks released. A finish locks the row it will update until it commits. */
module ConcurrentClaim {
  import opened Basics
  import opened Queue
  import opened QueueInvariant
  import opened QueueSchedule
  import opened JobStore

  type TxId = nat

  /** What a transaction saw when it reached a row: who else held its lock, and whether it was due. */
  datatype Look = Look(holder: Option<TxId>, due: bool)

  /** `began`: the tables when the statement started; `order`: the rows due then; `looks`: what was seen of the
      first of them. */
  datatype Tx = Tx(batch: int, lease: int, began: Tables, order: seq<JobId>, looks: seq<Look>, taken: seq<JobId>)

  /** A finish that holds the lock of its row and has not committed. */
  datatype Report = Report(job: JobId, token: Token, outcome: Outcome, error: Option<string>, delay: int)

  datatype System = System(q: Tables, locks: map<JobId, TxId>, open: map<TxId, Tx>, reports: map<TxId, Report>)

  datatype Move =
    | Begin(tx: TxId, batch: int, lease: int, order: seq<JobId>)
    | Advance(tx: TxId)
    | Commit(tx: TxId, tokens: seq<Token>)
    | LockReport(tx: TxId, report: Report)
    | CommitReport(tx: TxId)
    | Abort(tx: TxId)
    | Other(step: Step)

  /** `order` lists exactly the due rows by (available_at, id). */
  ghost predicate InOrder(q: Tables, order: seq<JobId>) {
    && Distinct(order) && (forall id :: id in order <==> Eligible(q, id))
    && forall i, j :: 0 <= i < j < |order| ==> Eligible(q, order[i]) && Eligible(q, order[j]) && Before(q, order[i], order[j])
  }

  predicate Scanning(t: Tx) { |t.looks| < |t.order| && |t.taken| < ClampBatch(t.batch) }

  ghost predicate Allowed(s: System, m: Move)
  {
    match m
    case Begin(tx, _, _, order) => tx !in s.open && tx !in s.reports && InOrder(s.q, order)
    case Advance(tx) => tx in s.open && Scanning(s.open[tx])
    case Commit(tx, tokens) =>
      && tx in s.open && !Scanning(s.open[tx]) && |tokens| == |s.open[tx].taken| && Distinct(tokens)
      && (forall i :: 0 <= i < |tokens| ==> !Issued(s.q, tokens[i]))
      && (forall i :: 0 <= i < |tokens| ==> s.open[tx].taken[i] in s.q.jobs)
    // A finish whose token matches waits for the row lock.
    case LockReport(tx, report) =>
      && tx !in s.open && tx !in s.reports && report.job !in s.locks
      && HoldsLease(s.q, report.job, report.token) && ValidFinish(report.outcome, report.error)
    case CommitReport(tx) => tx in s.reports
    case Abort(tx) => tx in s.open || tx in s.reports
    // A finish whose token does not match finds no row, and so asks for no lock.
    case Other(step) => Enabled(s.q, step) && !step.Claim? && (step.Finish? ==> !HoldsLease(s.q, step.job, step.token))
  }

  function FinishOf(r: Report): Step { Finish(r.job, r.token, r.outcome, r.error, r.delay) }

  function Release(s: System, tx: TxId): System {
    s.(locks := map id | id in s.locks && s.locks[id] != tx :: s.locks[id],
       open := map t | t in s.open && t != tx :: s.open[t],
       reports := map t | t in s.reports && t != tx :: s.reports[t])
  }

  function LookAt(s: System, tx: TxId): System
    requires tx in s.open && Scanning(s.open[tx])
  {
    var t := s.open[tx];
    var id := t.order[|t.looks|];
    if id in s.locks && s.locks[id] != tx then
      s.(open := s.open[tx := t.(looks := t.looks + [Look(Some(s.locks[id]), Eligible(s.q, id))])])
    else
      var due := Eligible(s.q, id);
      s.(locks := s.locks[id := tx],
         open := s.open[tx := t.(looks := t.looks + [Look(None, due)],
                                 taken := if due then t.taken + [id] else t.taken)])
  }

  ghost function Do(s: System, m: Move): System
    requires SameKeys(s.q) && Allowed(s, m)
  {
    match m
    case Begin(tx, batch, lease, order) => s.(open := s.open[tx := Tx(batch, lease, s.q, order, [], [])])
    case Advance(tx) => LookAt(s, tx)
    case Commit(tx, tokens) => Release(s, tx).(q := ClaimAll(s.q, s.open[tx].taken, s.open[tx].lease, tokens))
    case LockReport(tx, report) => s.(locks := s.locks[report.job := tx], reports := s.reports[tx := report])
    case CommitReport(tx) => Release(s, tx).(q := Apply(s.q, FinishOf(s.reports[tx])))
    case Abort(tx) => Release(s, tx)
    case Other(step) => s.(q := Apply(s.q, step))
  }

  // ---------------------------------------------------------------- what the transactions keep

  predicate TakenLook(l: Look) { l.holder.None? && l.due }

  /** The rows of `order` whose look was unlocked and due, in order. */
  function TakenRows(order: seq<JobId>, looks: seq<Look>): seq<JobId>
    requires |looks| <= |order|
    decreases |looks|
  {
    if looks == [] then []
    else
      var n := |looks| - 1;
      TakenRows(order, looks[..n]) + if TakenLook(looks[n]) then [order[n]] else []
  }

  lemma {:induction false} TakenRowsAre(order: seq<JobId>, looks: seq<Look>)
    requires |looks| <= |order| && Distinct(order)
    ensures Distinct(TakenRows(order, looks))
    ensures forall id :: id in TakenRows(order, looks) <==> exists i :: 0 <= i < |looks| && order[i] == id && TakenLook(looks[i])
    decreases |looks|
  {
    if looks != [] {
      var n := |looks| - 1;
      TakenRowsAre(order, looks[..n]);
      assert order[n] !in TakenRows(order, looks[..n]);
      forall id | id in TakenRows(order, looks)
        ensures exists i :: 0 <= i < |looks| && order[i] == id && TakenLook(looks[i])
      {
        if id in TakenRows(order, looks[..n]) {
          var i :| 0 <= i < n && order[i] == id && TakenLook(looks[..n][i]);
          assert TakenLook(looks[i]);
        }
      }
      forall i | 0 <= i < |looks| && TakenLook(looks[i]) ensures order[i] in TakenRows(order, looks) {
        if i < n { assert TakenLook(looks[..n][i]); }
      }
    }
  }

  ghost predicate TxSound(s: System, tx: TxId)
    requires tx in s.open
  {
    var t := s.open[tx];
    && InOrder(t.began, t.order) && |t.looks| <= |t.order| && |t.taken| <= ClampBatch(t.batch)
    && t.taken == TakenRows(t.order, t.looks)
    && (forall i :: 0 <= i < |t.looks| ==> t.looks[i].holder != Some(tx))
    && HoldsTaken(s, tx)
    && LocksLooked(s, tx)
  }

  /** The rows it took are due and locked by it. */
  ghost predicate HoldsTaken(s: System, tx: TxId)
    requires tx in s.open
  {
    forall i :: 0 <= i < |s.open[tx].taken| ==>
      var id := s.open[tx].taken[i]; Eligible(s.q, id) && id in s.locks && s.locks[id] == tx
  }

  /** The row is held until the finish commits, and no other row is. */
  ghost predicate ReportSound(s: System, tx: TxId)
    requires tx in s.reports
  {
    var r := s.reports[tx];
    && HoldsLease(s.q, r.job, r.token) && ValidFinish(r.outcome, r.error) && r.job in s.locks && s.locks[r.job] == tx
  }

  ghost predicate SystemSound(s: System) {
    && Consistent(s.q) && s.open.Keys !! s.reports.Keys
    && (forall id :: id in s.locks ==> s.locks[id] in s.open || s.locks[id] in s.reports)
    && (forall tx :: tx in s.open ==> TxSound(s, tx))
    && (forall tx :: tx in s.reports ==> ReportSound(s, tx))
  }

  /** The queue step a move amounts to, if any. */
  ghost function QueueStep(s: System, m: Move): Option<Step> {
    match m
    case Commit(tx, tokens) => if tx in s.open then Some(Claim(s.open[tx].taken, s.open[tx].lease, tokens)) else None
    case CommitReport(tx) => if tx in s.reports then Some(FinishOf(s.reports[tx])) else None
    case Other(step) => Some(step)
    case _ => None
  }

  /** A commit is one atomic claim of its rows: they are distinct, due at that moment and fresh-tokened. */
  lemma CommitIsClaim(s: System, m: Move)
    requires SystemSound(s) && Allowed(s, m) && m.Commit?
    ensures var t := s.open[m.tx]; Enabled(s.q, Claim(t.taken, t.lease, m.tokens)) && |t.taken| <= ClampBatch(t.batch)
  {
    var t := s.open[m.tx];
    assert TxSound(s, m.tx);
    TakenRowsAre(t.order, t.looks);
  }

  /** The step leaves row `id` alone. */
  ghost predicate Spares(q: Tables, step: Step, id: JobId) {
    match step
    case Claim(ids, _, _) => id !in ids
    case Finish(job, token, _, _, _) => job != id || !HoldsLease(q, job, token)
    case _ => true
  }

  /** Rows a transaction holds stay as they are: due rows due, leased rows leased. The clock only advances,
      finishes wait for the lock, and other commits touch only their own rows. */
  lemma HeldStays(q: Tables, step: Step, id: JobId, token: Token)
    requires SameKeys(q) && Enabled(q, step) && Spares(q, step, id)
    ensures Eligible(q, id) ==> Eligible(Apply(q, step), id)
    ensures HoldsLease(q, id, token) ==> HoldsLease(Apply(q, step), id, token)
  {
    match step
    case Claim(ids, lease, tokens) =>
      assert forall i :: 0 <= i < |ids| ==> Eligible(q, ids[i]);
      if id in q.jobs { ClaimAllFrame(q, ids, lease, tokens, id); }
    case _ =>
  }

  /** The rows held by transactions other than `tx` are spared. */
  ghost predicate SparesOthers(s: System, step: Step, tx: TxId) {
    forall id :: id in s.locks && s.locks[id] != tx ==> Spares(s.q, step, id)
  }

  /** The two systems differ only in what transaction `tx` holds and does. */
  ghost predicate SameOthers(s: System, r: System, tx: TxId) {
    && (forall x :: x != tx ==> (x in s.open <==> x in r.open) && (x in s.reports <==> x in r.reports))
    && (forall x :: x != tx && x in s.open ==> r.open[x] == s.open[x])
    && (forall x :: x != tx && x in s.reports ==> r.reports[x] == s.reports[x])
    && (forall id :: id in s.locks && s.locks[id] != tx ==> id in r.locks && r.locks[id] == s.locks[id])
    && (forall id :: id in r.locks && r.locks[id] != tx ==> id in s.locks && s.locks[id] == r.locks[id])
  }

  /** What every transaction holds is unharmed. */
  ghost predicate RowsUnharmed(s: System, r: System, x: TxId) {
    && (x in s.open ==> forall i :: 0 <= i < |s.open[x].taken| ==> Eligible(r.q, s.open[x].taken[i]))
    && (x in s.reports ==> HoldsLease(r.q, s.reports[x].job, s.reports[x].token))
  }

  lemma OtherSound(s: System, r: System, tx: TxId, x: TxId)
    requires SystemSound(s) && SameOthers(s, r, tx) && x != tx && RowsUnharmed(s, r, x)
    ensures x in r.open ==> TxSound(r, x)
    ensures x in r.reports ==> ReportSound(r, x)
  {
    if x in r.open {
      assert TxSound(s, x);
      var o := s.open[x];
      forall i | 0 <= i < |o.taken| ensures o.taken[i] in r.locks && r.locks[o.taken[i]] == x {
        assert s.locks[o.taken[i]] == x;
      }
    }
    if x in r.reports { assert ReportSound(s, x); }
  }

  /** After a step of the queue by `tx` that spares the rows of others, the others are sound. */
  lemma OthersSound(s: System, r: System, tx: TxId, step: Step)
    requires SystemSound(s) && SameOthers(s, r, tx) && Enabled(s.q, step) && SparesOthers(s, step, tx)
    requires r.q == s.q || r.q == Apply(s.q, step)
    ensures forall x :: x != tx && x in r.open ==> TxSound(r, x)
    ensures forall x :: x != tx && x in r.reports ==> ReportSound(r, x)
  {
    forall x: TxId | x != tx ensures (x in r.open ==> TxSound(r, x)) && (x in r.reports ==> ReportSound(r, x)) {
      Unharmed(s, r, tx, step, x);
      OtherSound(s, r, tx, x);
    }
  }

  lemma Unharmed(s: System, r: System, tx: TxId, step: Step, x: TxId)
    requires SystemSound(s) && Enabled(s.q, step) && SparesOthers(s, step, tx) && x != tx
    requires r.q == s.q || r.q == Apply(s.q, step)
    ensures RowsUnharmed(s, r, x)
  {
    if x in s.open {
      assert TxSound(s, x);
      var o := s.open[x];
      forall i | 0 <= i < |o.taken| ensures Eligible(r.q, o.taken[i]) { HeldStays(s.q, step, o.taken[i], 0); }
    }
    if x in s.reports {
      assert ReportSound(s, x);
      HeldStays(s.q, step, s.reports[x].job, s.reports[x].token);
    }
  }

  lemma TakenNext(order: seq<JobId>, looks: seq<Look>, look: Look)
    requires |looks| < |order|
    ensures TakenRows(order, looks + [look]) == TakenRows(order, looks) + if TakenLook(look) then [order[|looks|]] else []
  {
    assert (looks + [look])[..|looks|] == looks;
  }

  /** Every row the transaction locked is one it looked at. */
  ghost predicate LocksLooked(s: System, tx: TxId)
    requires tx in s.open
  {
    forall id :: id in s.locks && s.locks[id] == tx ==> Looked(s.open[tx], id)
  }

  ghost predicate Looked(t: Tx, id: JobId) { exists i :: 0 <= i < |t.looks| && i < |t.order| && t.order[i] == id }

  lemma AdvanceLocks(s: System, tx: TxId)
    requires tx in s.open && Scanning(s.open[tx]) && LocksLooked(s, tx)
    ensures LocksLooked(LookAt(s, tx), tx)
  {
    var r, t := LookAt(s, tx), s.open[tx];
    var n := |t.looks|;
    forall x | x in r.locks && r.locks[x] == tx ensures Looked(r.open[tx], x) {
      if x == t.order[n] {
        assert r.open[tx].order[n] == x;
      } else {
        assert Looked(t, x);
        var i :| 0 <= i < n && i < |t.order| && t.order[i] == x;
        assert r.open[tx].order[i] == x;
      }
    }
  }

  lemma AdvanceTaken(s: System, tx: TxId)
    requires tx in s.open && Scanning(s.open[tx]) && HoldsTaken(s, tx)
    ensures HoldsTaken(LookAt(s, tx), tx)
  {
    var r, t := LookAt(s, tx), s.open[tx];
    forall i | 0 <= i < |r.open[tx].taken|
      ensures var id := r.open[tx].taken[i]; Eligible(r.q, id) && id in r.locks && r.locks[id] == tx
    {
      if i < |t.taken| { assert Eligible(s.q, t.taken[i]) && s.locks[t.taken[i]] == tx; }
    }
  }

  /** A look never shows the transaction's own lock. */
  lemma AdvanceLooks(s: System, tx: TxId)
    requires tx in s.open && Scanning(s.open[tx])
    requires s.open[tx].taken == TakenRows(s.open[tx].order, s.open[tx].looks)
    ensures var t, u := s.open[tx], LookAt(s, tx).open[tx];
      && u.began == t.began && u.order == t.order && |u.looks| == |t.looks| + 1 && u.looks[..|t.looks|] == t.looks
      && u.looks[|t.looks|].holder != Some(tx) && |u.taken| <= |t.taken| + 1 && u.batch == t.batch
      && u.taken == TakenRows(u.order, u.looks)
  {
    var t, u := s.open[tx], LookAt(s, tx).open[tx];
    TakenNext(t.order, t.looks, u.looks[|t.looks|]);
    assert u.looks == t.looks + [u.looks[|t.looks|]];
  }

  lemma AdvanceOwn(s: System, tx: TxId)
    requires tx in s.open && Scanning(s.open[tx]) && TxSound(s, tx)
    ensures TxSound(LookAt(s, tx), tx)
  {
    AdvanceLocks(s, tx);
    AdvanceTaken(s, tx);
    AdvanceLooks(s, tx);
    var t, u := s.open[tx], LookAt(s, tx).open[tx];
    forall i | 0 <= i < |u.looks| ensures u.looks[i].holder != Some(tx) {
      if i < |t.looks| { assert u.looks[..|t.looks|][i] == t.looks[i]; }
    }
  }

  /** A move of `tx` that leaves the tables alone. */
  lemma QuietMove(s: System, r: System, tx: TxId)
    requires SystemSound(s) && SameOthers(s, r, tx) && r.q == s.q && !(tx in r.open && tx in r.reports)
    requires tx in r.open ==> TxSound(r, tx)
    requires tx in r.reports ==> ReportSound(r, tx)
    requires (exists id :: id in r.locks && r.locks[id] == tx) ==> tx in r.open || tx in r.reports
    ensures SystemSound(r)
  {
    OthersSound(s, r, tx, Tick(0));
  }

  /** A commit of `tx`: its step is taken and its locks are released. */
  lemma CommitSound(s: System, tx: TxId, step: Step)
    requires SystemSound(s) && Enabled(s.q, step) && SparesOthers(s, step, tx)
    ensures SystemSound(Release(s, tx).(q := Apply(s.q, step)))
  {
    StepKeeps(s.q, step);
    OthersSound(s, Release(s, tx).(q := Apply(s.q, step)), tx, step);
  }

  /** A claim commits over rows that nobody else holds. */
  lemma ClaimSparesOthers(s: System, m: Move)
    requires SystemSound(s) && Allowed(s, m) && m.Commit?
    ensures SparesOthers(s, Claim(s.open[m.tx].taken, s.open[m.tx].lease, m.tokens), m.tx)
  {
    assert TxSound(s, m.tx);
  }

  lemma OtherMoveSound(s: System, step: Step)
    requires SystemSound(s) && Allowed(s, Other(step))
    ensures SystemSound(Do(s, Other(step)))
  {
    var r := Do(s, Other(step));
    StepKeeps(s.q, step);
    forall x: TxId ensures (x in r.open ==> TxSound(r, x)) && (x in r.reports ==> ReportSound(r, x)) {
      var bystander: TxId := x + 1;
      assert forall id :: Spares(s.q, step, id);
      Unharmed(s, r, bystander, step, x);
      OtherSound(s, r, bystander, x);
    }
  }

  lemma AdvanceSameOthers(s: System, tx: TxId)
    requires tx in s.open && Scanning(s.open[tx])
    ensures SameOthers(s, LookAt(s, tx), tx)
  {
  }

  lemma AdvanceSound(s: System, tx: TxId)
    requires SystemSound(s) && tx in s.open && Scanning(s.open[tx])
    ensures SystemSound(LookAt(s, tx))
  {
    assert TxSound(s, tx);
    AdvanceOwn(s, tx);
    AdvanceSameOthers(s, tx);
    QuietMove(s, LookAt(s, tx), tx);
  }

  lemma LockSameOthers(s: System, tx: TxId, report: Report)
    requires report.job !in s.locks
    ensures SameOthers(s, s.(locks := s.locks[report.job := tx], reports := s.reports[tx := report]), tx)
  {
  }

  lemma LockReportSound(s: System, tx: TxId, report: Report)
    requires SystemSound(s) && Allowed(s, LockReport(tx, report))
    ensures SystemSound(Do(s, LockReport(tx, report)))
  {
    LockSameOthers(s, tx, report);
    QuietMove(s, Do(s, LockReport(tx, report)), tx);
  }

  lemma BeginSound(s: System, m: Move)
    requires SystemSound(s) && Allowed(s, m) && m.Begin?
    ensures SystemSound(Do(s, m))
  {
    QuietMove(s, Do(s, m), m.tx);
  }

  lemma AbortSound(s: System, tx: TxId)
    requires SystemSound(s)
    ensures SystemSound(Release(s, tx))
  {
    QuietMove(s, Release(s, tx), tx);
  }

  lemma CommitReportSound(s: System, tx: TxId)
    requires SystemSound(s) && tx in s.reports
    ensures Enabled(s.q, FinishOf(s.reports[tx])) && SystemSound(Release(s, tx).(q := Apply(s.q, FinishOf(s.reports[tx]))))
  {
    assert ReportSound(s, tx);
    CommitSound(s, tx, FinishOf(s.reports[tx]));
  }

  lemma MoveSound(s: System, m: Move)
    requires SystemSound(s) && Allowed(s, m)
    ensures SystemSound(Do(s, m))
  {
    match m
    case Begin(_, _, _, _) => BeginSound(s, m);
    case Advance(tx) => AdvanceSound(s, tx);
    case Commit(tx, tokens) =>
      CommitIsClaim(s, m);
      ClaimSparesOthers(s, m);
      CommitSound(s, tx, Claim(s.open[tx].taken, s.open[tx].lease, tokens));
    case LockReport(tx, report) => LockReportSound(s, tx, report);
    case CommitReport(tx) => CommitReportSound(s, tx);
    case Abort(tx) => AbortSound(s, tx);
    case Other(step) => OtherMoveSound(s, step);
  }

  /** A move is one enabled step of the queue, or none. */
  lemma MoveIsStep(s: System, m: Move)
    requires SystemSound(s) && Allowed(s, m)
    ensures match QueueStep(s, m)
      case None => Do(s, m).q == s.q
      case Some(step) => Enabled(s.q, step) && SameKeys(Apply(s.q, step)) && Do(s, m).q == Apply(s.q, step)
    ensures QueueStep(s, m).Some? && QueueStep(s, m).value.LostCall? ==> m.Other?
  {
    if m.Commit? { CommitIsClaim(s, m); }
    if m.CommitReport? { CommitReportSound(s, m.tx); }
  }

  /** `steps` is a run of the queue from `q` to `end`, without lease-lost calls if `workers`. */
  ghost predicate Serialized(q: Tables, steps: seq<Step>, end: Tables, workers: bool) {
    SameKeys(q) && ValidRun(q, steps) && Run(q, steps) == end && (workers ==> WorkerRun(q, steps))
  }

  /** Taking a step first. */
  lemma StepFirst(q: Tables, step: Step, m: Tables, rest: seq<Step>, end: Tables, workers: bool)
    requires SameKeys(q) && Enabled(q, step) && m == Apply(q, step) && Serialized(m, rest, end, workers)
    requires workers ==> !step.LostCall?
    ensures Serialized(q, [step] + rest, end, workers)
  {
    assert ([step] + rest)[1..] == rest;
  }

  /** Two open transactions never hold the same job. */
  lemma NoSharedRow(s: System, a: TxId, b: TxId, id: JobId)
    requires SystemSound(s) && a in s.open && b in s.open && a != b && id in s.open[b].taken
    ensures id !in s.open[a].taken
  {
    assert TxSound(s, a) && TxSound(s, b);
  }
}
