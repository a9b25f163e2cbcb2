/** How a worker turns a handler's outcome into a finish, and what that bounds over a whole run. */
module RunnerPolicy {
  import opened Basics
  import opened Queue
  import opened QueueInvariant
  import opened QueueSchedule

  datatype Config = Config(leaseSeconds: int, batchSize: int, maxAttempts: int, backoffBase: int, backoffMax: int)

  /** The checks of Settings on the worker fields. */
  predicate ValidConfig(c: Config) {
    && c.leaseSeconds >= 1 && c.batchSize >= 1 && c.maxAttempts >= 1
    && 1 <= c.backoffBase <= c.backoffMax
  }

  /** A handler returns, raises PermanentJobError, raises RetryableJobError, or raises anything else. */
  datatype HandlerResult = Success | Permanent(code: string) | Retryable(code: string) | Crashed

  datatype Decision = Decision(outcome: Outcome, error: Option<string>, delay: int)

  function Pow2(n: nat): (r: nat)
    ensures r >= 1
  {
    if n == 0 then 1 else 2 * Pow2(n - 1)
  }

  lemma PowersDouble(n: nat)
    ensures Pow2(0) == 1 && Pow2(n + 1) == Pow2(n) + Pow2(n)
  {
  }

  function Backoff(c: Config, attempt: int): int {
    Min(c.backoffMax, c.backoffBase * Pow2(Max(0, attempt - 1)))
  }

  function Decide(c: Config, attemptCount: int, r: HandlerResult): Decision {
    var again := if attemptCount >= c.maxAttempts then GaveUp else RetryLater;
    match r
    case Success => Decision(Succeeded, None, 0)
    case Permanent(code) => Decision(GaveUp, Some(code), 0)
    case Retryable(code) => Decision(again, Some(code), Backoff(c, attemptCount))
    case Crashed => Decision(again, Some("handler_failure"), Backoff(c, attemptCount))
  }

  /** A finish that some worker under this configuration may send: it quotes the attempt its claim
      returned and the decision for that attempt's number. */
  ghost predicate FromWorker(c: Config, q: Tables, s: Step) {
    && WorkerStep(q, s)
    && (s.Finish? ==> forall i: nat :: HasToken(q, s.job, i, s.token) ==>
          exists r :: Decision(s.outcome, s.error, s.delay) == Decide(c, q.attempts[s.job][i].number, r))
  }

  ghost predicate DisciplinedRun(c: Config, q: Tables, steps: seq<Step>)
    requires SameKeys(q)
    decreases |steps|
  {
    steps != [] ==>
      && FromWorker(c, q, steps[0]) && SameKeys(Apply(q, steps[0]))
      && DisciplinedRun(c, Apply(q, steps[0]), steps[1..])
  }

  /** Where a disciplined run from an empty queue leads, with what it recorded on the way. */
  ghost function Outcomes(c: Config, now: int, steps: seq<Step>): History
    requires DisciplinedRun(c, EmptyTables(now), steps)
  {
    DisciplinedIsWorkerRun(c, EmptyTables(now), steps);
    Replay(NoHistory(now), steps)
  }

  lemma {:induction false} DisciplinedIsWorkerRun(c: Config, q: Tables, steps: seq<Step>)
    requires SameKeys(q) && DisciplinedRun(c, q, steps)
    ensures WorkerRun(q, steps)
    decreases |steps|
  {
    if steps != [] { DisciplinedIsWorkerRun(c, Apply(q, steps[0]), steps[1..]); }
  }

  /** The number in a claimed snapshot is the number of the attempt that carries its token. */
  lemma SnapshotQuotesItsAttempt(q: Tables, id: JobId, i: nat)
    requires Consistent(q) && id in q.jobs && q.jobs[id].state == Leased
    requires HasToken(q, id, i, SnapshotOf(q, id).token)
    ensures q.attempts[id][i].number == SnapshotOf(q, id).attemptCount
  {
    assert JobConsistent(q.jobs[id], q.attempts[id]);
    assert HasToken(q, id, |q.attempts[id]| - 1, SnapshotOf(q, id).token);
  }

  // ---------------------------------------------------------------- what discipline keeps

  /** A retried attempt was below the limit and was put off by exactly its backoff. */
  ghost predicate RetriesByPolicy(c: Config, rows: seq<Attempt>, delays: map<Token, nat>) {
    forall i :: 0 <= i < |rows| && rows[i].outcome == Some(RetryLater) ==>
      i + 1 < c.maxAttempts && rows[i].token in delays && delays[rows[i].token] == Max(0, Backoff(c, i + 1))
  }

  ghost predicate ByPolicy(c: Config, h: History) {
    OnSchedule(h) && forall id :: id in h.q.jobs ==> RetriesByPolicy(c, h.q.attempts[id], h.delays)
  }

  lemma ClaimedRowByPolicy(c: Config, q: Tables, id: JobId, lease: int, token: Token, delays: map<Token, nat>)
    requires id in q.jobs && id in q.attempts && RetriesByPolicy(c, q.attempts[id], delays)
    ensures RetriesByPolicy(c, ClaimOne(q, id, lease, token).attempts[id], delays)
  {
  }

  lemma ClaimByPolicy(c: Config, h: History, ids: seq<JobId>, lease: int, tokens: seq<Token>, id: JobId)
    requires ByPolicy(c, h) && Enabled(h.q, Claim(ids, lease, tokens)) && id in h.q.jobs
    ensures var r := Apply(h.q, Claim(ids, lease, tokens));
      id in r.attempts && RetriesByPolicy(c, r.attempts[id], h.delays)
  {
    assert RetriesByPolicy(c, h.q.attempts[id], h.delays);
    if id in ids {
      var k :| 0 <= k < |ids| && ids[k] == id;
      ClaimedRowByPolicy(c, h.q, id, lease, tokens[k], h.delays);
      ClaimAllAt(h.q, ids, lease, tokens, k);
    } else {
      ClaimAllFrame(h.q, ids, lease, tokens, id);
    }
  }

  /** The finished attempt is the last one, so its number is the row count and the decision fits it. */
  lemma FinishedRowByPolicy(
      c: Config, rows: seq<Attempt>, now: int, token: Token, d: Decision, r: HandlerResult,
      before: map<Token, nat>, after: map<Token, nat>)
    requires rows != [] && RetriesByPolicy(c, rows, before)
    requires rows[|rows| - 1].token == token && d == Decide(c, |rows|, r)
    requires forall i :: 0 <= i < |rows| - 1 ==> rows[i].token != token
    requires after == if d.outcome == RetryLater then before[token := Max(0, d.delay)] else before
    ensures RetriesByPolicy(c, CloseRows(rows, token, now, d.outcome, d.error), after)
  {
  }

  lemma OtherRowsByPolicy(c: Config, rows: seq<Attempt>, before: map<Token, nat>, token: Token, delay: nat)
    requires RetriesByPolicy(c, rows, before) && forall i :: 0 <= i < |rows| ==> rows[i].token != token
    ensures RetriesByPolicy(c, rows, before[token := delay])
  {
  }

  /** Who holds a lease holds the token of its job's last attempt, and no other attempt carries it. */
  lemma HeldRows(q: Tables, job: JobId, token: Token, id: JobId)
    requires Consistent(q) && HoldsLease(q, job, token) && id in q.jobs && id in q.attempts
    ensures var rows := q.attempts[id];
      && (forall i :: 0 <= i < |rows| && (id != job || i < |rows| - 1) ==> rows[i].token != token)
      && (id == job ==> rows != [] && rows[|rows| - 1].token == token && |rows| == q.jobs[id].attemptCount)
  {
    var rows := q.attempts[id];
    forall i | 0 <= i < |rows| && (id != job || i < |rows| - 1) ensures rows[i].token != token {
      HeldTokenIsLast(q, job, token, id, i);
    }
    assert JobConsistent(q.jobs[id], rows);
  }

  lemma FinishByPolicy(c: Config, h: History, s: Step, id: JobId)
    requires ByPolicy(c, h) && FromWorker(c, h.q, s) && s.Finish? && id in h.q.jobs
    ensures var r := Record(h, s); id in r.q.attempts && RetriesByPolicy(c, r.q.attempts[id], r.delays)
  {
    assert RetriesByPolicy(c, h.q.attempts[id], h.delays);
    if HoldsLease(h.q, s.job, s.token) { HeldFinishByPolicy(c, h.q, s, id, h.delays); }
  }

  lemma HeldFinishByPolicy(c: Config, q: Tables, s: Step, id: JobId, delays: map<Token, nat>)
    requires Consistent(q) && FromWorker(c, q, s) && s.Finish? && HoldsLease(q, s.job, s.token)
    requires id in q.jobs && id in q.attempts && RetriesByPolicy(c, q.attempts[id], delays)
    ensures var after := if s.outcome == RetryLater then delays[s.token := Max(0, s.delay)] else delays;
      RetriesByPolicy(c, FinishJob(q, s.job, s.token, s.outcome, s.error, s.delay).attempts[id], after)
  {
    var rows, d := q.attempts[id], Decision(s.outcome, s.error, s.delay);
    HeldRows(q, s.job, s.token, id);
    if id == s.job {
      assert HasToken(q, id, |rows| - 1, s.token);
      var result :| d == Decide(c, |rows|, result);
      var after := if d.outcome == RetryLater then delays[s.token := Max(0, d.delay)] else delays;
      FinishedRowByPolicy(c, rows, q.now, s.token, d, result, delays, after);
    } else {
      OtherRowsByPolicy(c, rows, delays, s.token, Max(0, s.delay));
    }
  }

  lemma KnownRowsByPolicy(c: Config, h: History, s: Step, id: JobId)
    requires ByPolicy(c, h) && FromWorker(c, h.q, s) && id in h.q.jobs
    ensures var r := Record(h, s); id in r.q.attempts && RetriesByPolicy(c, r.q.attempts[id], r.delays)
  {
    assert RetriesByPolicy(c, h.q.attempts[id], h.delays);
    match s
    case Claim(ids, lease, tokens) => ClaimByPolicy(c, h, ids, lease, tokens, id);
    case Finish(_, _, _, _, _) => FinishByPolicy(c, h, s, id);
    case _ =>
  }

  lemma NewRowsByPolicy(c: Config, h: History, s: Step, id: JobId)
    requires OnSchedule(h) && FromWorker(c, h.q, s) && id !in h.q.jobs && id in Record(h, s).q.jobs
    ensures var r := Record(h, s); id in r.q.attempts && r.q.attempts[id] == []
  {
  }

  lemma StepByPolicy(c: Config, h: History, s: Step)
    requires ByPolicy(c, h) && FromWorker(c, h.q, s)
    ensures ByPolicy(c, Record(h, s))
  {
    assert OnSchedule(Record(h, s)) by { StepOnSchedule(h, s); }
    var r := Record(h, s);
    forall id | id in r.q.jobs ensures RetriesByPolicy(c, r.q.attempts[id], r.delays) {
      if id in h.q.jobs { KnownRowsByPolicy(c, h, s, id); } else { NewRowsByPolicy(c, h, s, id); }
    }
  }

  lemma {:induction false} RunByPolicy(c: Config, h: History, steps: seq<Step>)
    requires ByPolicy(c, h) && DisciplinedRun(c, h.q, steps)
    ensures WorkerRun(h.q, steps) && ByPolicy(c, Replay(h, steps))
    decreases |steps|
  {
    DisciplinedIsWorkerRun(c, h.q, steps);
    if steps != [] {
      StepByPolicy(c, h, steps[0]);
      RunByPolicy(c, Record(h, steps[0]), steps[1..]);
    }
  }

  /** Whatever the workers do, the attempt after a retried one waits out its backoff from the reported
      finish, and an attempt is followed by another only after a retry or a lost lease. */
  lemma RetryWaitsBackoff(c: Config, now: int, steps: seq<Step>, id: JobId, i: nat, k: nat)
    requires DisciplinedRun(c, EmptyTables(now), steps)
    requires var q := Outcomes(c, now, steps).q; id in q.jobs && id in q.attempts && i < k < |q.attempts[id]|
    ensures var rows := Outcomes(c, now, steps).q.attempts[id];
      && (rows[i].outcome == Some(LeaseLost) ||
          (&& rows[i].outcome == Some(RetryLater) && rows[i].finishedAt.Some? && i + 1 < c.maxAttempts
           && rows[k].startedAt >= rows[i].finishedAt.value + Max(0, Backoff(c, i + 1))))
  {
    RunByPolicy(c, NoHistory(now), steps);
    var h := Outcomes(c, now, steps);
    assert RetriesByPolicy(c, h.q.attempts[id], h.delays);
    LaterStart(h.q.jobs[id], h.q.attempts[id], h, i, k);
  }

  // ---------------------------------------------------------------- bounded attempts

  function LostLeases(rows: seq<Attempt>): nat {
    if rows == [] then 0
    else LostLeases(rows[..|rows| - 1]) + if rows[|rows| - 1].outcome == Some(LeaseLost) then 1 else 0
  }

  lemma {:induction false} ClosedAttemptsBounded(c: Config, rows: seq<Attempt>, delays: map<Token, nat>)
    requires c.maxAttempts >= 1 && RetriesByPolicy(c, rows, delays)
    requires forall i :: 0 <= i < |rows| ==> rows[i].outcome == Some(RetryLater) || rows[i].outcome == Some(LeaseLost)
    ensures |rows| <= c.maxAttempts - 1 + LostLeases(rows)
    decreases |rows|
  {
    if rows != [] { ClosedAttemptsBounded(c, rows[..|rows| - 1], delays); }
  }

  /** attempt_count exceeds the limit by no more than the number of leases that were lost. */
  lemma AttemptsBounded(c: Config, now: int, steps: seq<Step>, id: JobId)
    requires c.maxAttempts >= 1
    requires DisciplinedRun(c, EmptyTables(now), steps)
    requires var q := Outcomes(c, now, steps).q; id in q.jobs && id in q.attempts
    ensures var q := Outcomes(c, now, steps).q;
      q.jobs[id].attemptCount <= c.maxAttempts + LostLeases(q.attempts[id])
  {
    RunByPolicy(c, NoHistory(now), steps);
    AttemptsBoundedIn(c, Outcomes(c, now, steps), id);
  }

  lemma AttemptsBoundedIn(c: Config, h: History, id: JobId)
    requires c.maxAttempts >= 1 && ByPolicy(c, h) && id in h.q.jobs
    ensures |h.q.attempts[id]| == h.q.jobs[id].attemptCount
    ensures h.q.jobs[id].attemptCount <= c.maxAttempts + LostLeases(h.q.attempts[id])
  {
    var rows := h.q.attempts[id];
    assert JobConsistent(h.q.jobs[id], rows) && RetriesByPolicy(c, rows, h.delays);
    if rows != [] { ClosedAttemptsBounded(c, rows[..|rows| - 1], h.delays); }
  }

  ghost function AttemptsOf(q: Tables): JobId -> nat {
    id => if id in q.attempts then |q.attempts[id]| else 0
  }

  ghost predicate NothingLost(q: Tables) {
    forall id :: id in q.attempts ==> LostLeases(q.attempts[id]) == 0
  }

  /** With no lost lease, n jobs cost at most n times max_attempts handler calls, whatever the schedule. */
  lemma CallsBounded(c: Config, now: int, steps: seq<Step>)
    requires c.maxAttempts >= 1
    requires DisciplinedRun(c, EmptyTables(now), steps)
    requires NothingLost(Outcomes(c, now, steps).q)
    ensures var q := Outcomes(c, now, steps).q;
      SumOver(q.jobs.Keys, AttemptsOf(q)) <= |q.jobs| * c.maxAttempts
  {
    RunByPolicy(c, NoHistory(now), steps);
    CallsBoundedIn(c, Outcomes(c, now, steps));
  }

  lemma CallsBoundedIn(c: Config, h: History)
    requires c.maxAttempts >= 1 && ByPolicy(c, h)
    requires NothingLost(h.q)
    ensures SumOver(h.q.jobs.Keys, AttemptsOf(h.q)) <= |h.q.jobs| * c.maxAttempts
  {
    forall id | id in h.q.jobs.Keys ensures AttemptsOf(h.q)(id) <= c.maxAttempts {
      AttemptsBoundedIn(c, h, id);
    }
    SumOverBound(h.q.jobs.Keys, AttemptsOf(h.q), c.maxAttempts);
    assert |h.q.jobs.Keys| == |h.q.jobs|;
  }

  // ---------------------------------------------------------------- bounded backoff

  /** All the delay a job was ever scheduled. */
  ghost function ScheduledDelay(rows: seq<Attempt>, delays: map<Token, nat>): nat {
    if rows == [] then 0
    else
      var last := rows[|rows| - 1];
      ScheduledDelay(rows[..|rows| - 1], delays)
      + if last.outcome == Some(RetryLater) && last.token in delays then delays[last.token] else 0
  }

  function BackoffSum(c: Config, n: nat): int {
    if n == 0 then 0 else BackoffSum(c, n - 1) + Backoff(c, n)
  }

  lemma {:induction false} BackoffSumLinear(c: Config, n: nat)
    requires ValidConfig(c)
    ensures 0 <= BackoffSum(c, n) <= n * c.backoffMax
    decreases n
  {
    if n > 0 {
      BackoffSumLinear(c, n - 1);
      assert c.backoffBase * Pow2(n - 1) >= 0;
      assert n * c.backoffMax == (n - 1) * c.backoffMax + c.backoffMax;
    }
  }

  lemma {:induction false} BackoffSumGeometric(c: Config, n: nat)
    requires ValidConfig(c)
    ensures BackoffSum(c, n) <= c.backoffBase * (Pow2(n) - 1)
    decreases n
  {
    if n > 0 {
      BackoffSumGeometric(c, n - 1);
      Doubled(c.backoffBase, Pow2(n - 1));
      assert Backoff(c, n) <= c.backoffBase * Pow2(n - 1);
    }
  }

  lemma Doubled(base: int, p: int)
    ensures base * (2 * p - 1) == base * (p - 1) + base * p
  {
  }

  lemma {:induction false} DelaysWithinBackoffSum(c: Config, rows: seq<Attempt>, delays: map<Token, nat>)
    requires ValidConfig(c) && RetriesByPolicy(c, rows, delays)
    ensures ScheduledDelay(rows, delays) <= BackoffSum(c, Min(|rows|, c.maxAttempts - 1))
    decreases |rows|
  {
    if rows != [] {
      var n := |rows|;
      DelaysWithinBackoffSum(c, rows[..n - 1], delays);
      assert c.backoffBase * Pow2(n - 1) >= 0;
    }
  }

  /** The total backoff of a job is at most min((M-1) * max, base * (2^(M-1) - 1)). */
  lemma BackoffBounded(c: Config, now: int, steps: seq<Step>, id: JobId)
    requires ValidConfig(c)
    requires DisciplinedRun(c, EmptyTables(now), steps)
    requires var q := Outcomes(c, now, steps).q; id in q.jobs && id in q.attempts
    ensures var h := Outcomes(c, now, steps);
      var total := ScheduledDelay(h.q.attempts[id], h.delays);
      && total <= (c.maxAttempts - 1) * c.backoffMax
      && total <= c.backoffBase * (Pow2(c.maxAttempts - 1) - 1)
  {
    RunByPolicy(c, NoHistory(now), steps);
    BackoffBoundedIn(c, Outcomes(c, now, steps), id);
  }

  lemma BackoffBoundedIn(c: Config, h: History, id: JobId)
    requires ValidConfig(c) && ByPolicy(c, h) && id in h.q.jobs && id in h.q.attempts
    ensures var total := ScheduledDelay(h.q.attempts[id], h.delays);
      && total <= (c.maxAttempts - 1) * c.backoffMax
      && total <= c.backoffBase * (Pow2(c.maxAttempts - 1) - 1)
  {
    assert RetriesByPolicy(c, h.q.attempts[id], h.delays);
    DelaysBounded(c, h.q.attempts[id], h.delays);
  }

  lemma DelaysBounded(c: Config, rows: seq<Attempt>, delays: map<Token, nat>)
    requires ValidConfig(c) && RetriesByPolicy(c, rows, delays)
    ensures var total := ScheduledDelay(rows, delays);
      && total <= (c.maxAttempts - 1) * c.backoffMax
      && total <= c.backoffBase * (Pow2(c.maxAttempts - 1) - 1)
  {
    DelaysWithinBackoffSum(c, rows, delays);
    BackoffSumMonotone(c, Min(|rows|, c.maxAttempts - 1), c.maxAttempts - 1);
    BackoffSumLinear(c, c.maxAttempts - 1);
    BackoffSumGeometric(c, c.maxAttempts - 1);
  }

  lemma {:induction false} BackoffSumMonotone(c: Config, m: nat, n: nat)
    requires ValidConfig(c) && m <= n
    ensures BackoffSum(c, m) <= BackoffSum(c, n)
    decreases n
  {
    if m < n {
      BackoffSumMonotone(c, m, n - 1);
      assert c.backoffBase * Pow2(n - 1) >= 0;
    }
  }
}
