/** The leased outbox queue: the rows of `outbox_jobs` and `job_attempts`, and the SQL functions
    that move them (claim, finish, lease-lost), each as one step at one clock reading. */
module Queue {
  import opened Basics

  type JobId = nat
  type Token = nat

  datatype JobState = Pending | Leased | Retrying | Completed | Dead

  /** The `outcome` column of an attempt: succeeded, retry, dead or lease_lost. */
  datatype Outcome = Succeeded | RetryLater | GaveUp | LeaseLost

  datatype Job = Job(
    eventId: nat, kind: string, state: JobState, availableAt: int, attemptCount: nat,
    leaseToken: Option<Token>, leaseExpiresAt: Option<int>,
    completedAt: Option<int>, lastError: Option<string>)

  datatype Attempt = Attempt(
    number: nat, token: Token, startedAt: int,
    finishedAt: Option<int>, outcome: Option<Outcome>, error: Option<string>)

  /** Both tables and the clock; the attempts of one job are kept in insertion order. */
  datatype Tables = Tables(now: int, jobs: map<JobId, Job>, attempts: map<JobId, seq<Attempt>>)

  /** What a claim returns to the worker for one job. */
  datatype Snapshot = Snapshot(id: JobId, eventId: nat, kind: string, token: Token, attemptCount: nat)

  // ---------------------------------------------------------------- claim

  function ClampBatch(batch: int): nat { Max(0, Min(batch, 100)) }

  function ClampLease(seconds: int): nat { Max(1, Min(seconds, 3600)) }

  predicate EligibleRow(job: Job, now: int) {
    || ((job.state == Pending || job.state == Retrying) && job.availableAt <= now)
    || (job.state == Leased && job.leaseExpiresAt.Some? && job.leaseExpiresAt.value <= now)
  }

  predicate Eligible(q: Tables, id: JobId) {
    id in q.jobs && EligibleRow(q.jobs[id], q.now)
  }

  /** finish: SET finished_at, outcome, error_code WHERE lease_token = token AND finished_at IS NULL. */
  function CloseRow(a: Attempt, token: Token, now: int, outcome: Outcome, error: Option<string>): Attempt {
    if a.token == token && a.finishedAt.None?
    then a.(finishedAt := Some(now), outcome := Some(outcome), error := error)
    else a
  }

  function CloseRows(rows: seq<Attempt>, token: Token, now: int, outcome: Outcome, error: Option<string>): (r: seq<Attempt>)
    ensures |r| == |rows|
    ensures forall i :: 0 <= i < |r| ==> r[i] == CloseRow(rows[i], token, now, outcome, error)
  {
    seq(|rows|, i requires 0 <= i < |rows| => CloseRow(rows[i], token, now, outcome, error))
  }

  /** lease_lost: SET finished_at, outcome='lease_lost'; the error column keeps its value. */
  function LoseRow(a: Attempt, token: Token, now: int): Attempt {
    CloseRow(a, token, now, LeaseLost, a.error)
  }

  function LoseRows(rows: seq<Attempt>, token: Token, now: int): (r: seq<Attempt>)
    ensures |r| == |rows|
    ensures forall i :: 0 <= i < |r| ==> r[i] == LoseRow(rows[i], token, now)
  {
    seq(|rows|, i requires 0 <= i < |rows| => LoseRow(rows[i], token, now))
  }

  /** The claim of one candidate row: close a superseded attempt, lease the job, insert the next attempt. */
  function ClaimOne(q: Tables, id: JobId, lease: int, token: Token): Tables
    requires id in q.jobs && id in q.attempts
  {
    var job := q.jobs[id];
    var kept :=
      if job.state == Leased && job.leaseToken.Some?
      then LoseRows(q.attempts[id], job.leaseToken.value, q.now)
      else q.attempts[id];
    var leased := job.(state := Leased, leaseToken := Some(token),
                       leaseExpiresAt := Some(q.now + ClampLease(lease)),
                       attemptCount := job.attemptCount + 1);
    var started := Attempt(job.attemptCount + 1, token, q.now, None, None, None);
    q.(jobs := q.jobs[id := leased], attempts := q.attempts[id := kept + [started]])
  }

  function ClaimAll(q: Tables, ids: seq<JobId>, lease: int, tokens: seq<Token>): (r: Tables)
    requires |ids| == |tokens| && q.jobs.Keys == q.attempts.Keys
    requires forall i :: 0 <= i < |ids| ==> ids[i] in q.jobs
    ensures r.jobs.Keys == q.jobs.Keys == r.attempts.Keys && r.now == q.now
    decreases |ids|
  {
    if ids == [] then q
    else ClaimAll(ClaimOne(q, ids[0], lease, tokens[0]), ids[1..], lease, tokens[1..])
  }

  /** The row a claim hands back, read after the claim. */
  function SnapshotOf(q: Tables, id: JobId): Snapshot
    requires id in q.jobs && q.jobs[id].leaseToken.Some?
  {
    var job := q.jobs[id];
    Snapshot(id, job.eventId, job.kind, job.leaseToken.value, job.attemptCount)
  }

  // ---------------------------------------------------------------- finish and lease-lost

  predicate SafeCodeChar(c: char) {
    'a' <= c <= 'z' || '0' <= c <= '9' || c == '_' || c == '.' || c == '-'
  }

  /** The check on p_error: ^[a-z0-9_.-]{1,80}$, or no code at all. */
  predicate SafeCode(error: Option<string>) {
    error.Some? ==>
      && 1 <= |error.value| <= 80
      && forall i :: 0 <= i < |error.value| ==> SafeCodeChar(error.value[i])
  }

  predicate ValidFinish(outcome: Outcome, error: Option<string>) {
    outcome != LeaseLost && SafeCode(error)
  }

  /** The WHERE clause of finish: the row is leased under this very token. Expiry is not looked at. */
  predicate HoldsLease(q: Tables, id: JobId, token: Token) {
    id in q.jobs && q.jobs[id].state == Leased && q.jobs[id].leaseToken == Some(token)
  }

  function FinishedRow(job: Job, now: int, outcome: Outcome, error: Option<string>, delay: int): Job {
    job.(state := match outcome
           case Succeeded => Completed
           case RetryLater => Retrying
           case _ => Dead,
         completedAt := if outcome == RetryLater then None else Some(now),
         availableAt := if outcome == RetryLater then now + Max(0, delay) else job.availableAt,
         leaseToken := None, leaseExpiresAt := None, lastError := error)
  }

  function FinishJob(q: Tables, id: JobId, token: Token, outcome: Outcome, error: Option<string>, delay: int): Tables
    requires q.jobs.Keys == q.attempts.Keys
  {
    if HoldsLease(q, id, token)
    then q.(jobs := q.jobs[id := FinishedRow(q.jobs[id], q.now, outcome, error, delay)],
            attempts := q.attempts[id := CloseRows(q.attempts[id], token, q.now, outcome, error)])
    else q
  }

  /** `outcomeos_lease_lost`: closes the attempt and leaves the job row alone. */
  function LoseLease(q: Tables, id: JobId, token: Token): Tables {
    if id in q.attempts
    then q.(attempts := q.attempts[id := LoseRows(q.attempts[id], token, q.now)])
    else q
  }

  // ---------------------------------------------------------------- steps and runs

  datatype Step =
    | Enqueue(id: JobId, eventId: nat, kind: string, availableAt: int)
    | Claim(ids: seq<JobId>, lease: int, tokens: seq<Token>)
    | Finish(job: JobId, token: Token, outcome: Outcome, error: Option<string>, delay: int)
    | LostCall(job: JobId, token: Token)
    | Tick(elapsed: nat)

  /** Attempt `i` of job `id` was started under `token`. */
  ghost predicate HasToken(q: Tables, id: JobId, i: nat, token: Token) {
    id in q.attempts && i < |q.attempts[id]| && q.attempts[id][i].token == token
  }

  ghost predicate Issued(q: Tables, token: Token) {
    exists id: JobId, i: nat :: HasToken(q, id, i, token)
  }

  ghost predicate Distinct<T>(s: seq<T>) {
    forall i, j :: 0 <= i < j < |s| ==> s[i] != s[j]
  }

  /** When a step may be taken: rows exist, claimed rows are eligible, tokens are fresh. */
  ghost predicate Enabled(q: Tables, s: Step) {
    match s
    case Enqueue(id, _, _, _) => id !in q.jobs
    case Claim(ids, _, tokens) =>
      && |ids| == |tokens| && Distinct(ids) && Distinct(tokens)
      && (forall i :: 0 <= i < |ids| ==> Eligible(q, ids[i]))
      && (forall i :: 0 <= i < |tokens| ==> !Issued(q, tokens[i]))
    case Finish(_, _, outcome, error, _) => ValidFinish(outcome, error)
    case LostCall(_, _) => true
    case Tick(_) => true
  }

  function Apply(q: Tables, s: Step): Tables
    requires q.jobs.Keys == q.attempts.Keys
    requires s.Claim? ==> |s.ids| == |s.tokens| && forall i :: 0 <= i < |s.ids| ==> s.ids[i] in q.jobs
  {
    match s
    case Enqueue(id, eventId, kind, at) =>
      q.(jobs := q.jobs[id := Job(eventId, kind, Pending, at, 0, None, None, None, None)],
         attempts := q.attempts[id := []])
    case Claim(ids, lease, tokens) => ClaimAll(q, ids, lease, tokens)
    case Finish(id, token, outcome, error, delay) => FinishJob(q, id, token, outcome, error, delay)
    case LostCall(id, token) => LoseLease(q, id, token)
    case Tick(elapsed) => q.(now := q.now + elapsed)
  }

  /** A row for every job, with no attempts for unknown jobs. */
  predicate SameKeys(q: Tables) { q.jobs.Keys == q.attempts.Keys }

  ghost predicate ValidRun(q: Tables, steps: seq<Step>)
    requires SameKeys(q)
    decreases |steps|
  {
    steps != [] ==>
      Enabled(q, steps[0]) && SameKeys(Apply(q, steps[0])) && ValidRun(Apply(q, steps[0]), steps[1..])
  }

  ghost function Run(q: Tables, steps: seq<Step>): (r: Tables)
    requires SameKeys(q) && ValidRun(q, steps)
    ensures SameKeys(r)
    decreases |steps|
  {
    if steps == [] then q else Run(Apply(q, steps[0]), steps[1..])
  }
}
