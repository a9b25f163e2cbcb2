/** `JobRunner.run_once` and the worker loop around it. One batch is claimed in one transaction; each
    job is then handled and finished in its own. */
module JobRunner {
  import opened Basics
  import opened Queue
  import opened QueueInvariant
  import opened QueueSchedule
  import opened RunnerPolicy
  import opened JobStore

  /** What one handler call comes to, and how long it takes. */
  datatype HandlerRun = HandlerRun(result: HandlerResult, elapsed: nat)

  type Handlers = map<string, Snapshot -> HandlerRun>

  function Handle(handlers: Handlers, job: Snapshot): HandlerRun {
    if job.kind in handlers then handlers[job.kind](job)
    else HandlerRun(Permanent("unsupported_job_kind"), 0)
  }

  /** Time passes while the handler works, then its outcome is reported. */
  function FinishFirst(c: Config, q: Tables, job: Snapshot, run: HandlerRun): Tables
    requires SameKeys(q)
  {
    var d := Decide(c, job.attemptCount, run.result);
    FinishJob(q.(now := q.now + run.elapsed), job.id, job.token, d.outcome, d.error, d.delay)
  }

  /** The tables after the claimed jobs are finished one by one; false when a finish raised. */
  datatype Settled = Settled(q: Tables, ok: bool)

  function Settle(c: Config, handlers: Handlers, q: Tables, jobs: seq<Snapshot>): Settled
    requires SameKeys(q)
    decreases |jobs|
  {
    if jobs == [] then Settled(q, true)
    else
      var run := Handle(handlers, jobs[0]);
      var d := Decide(c, jobs[0].attemptCount, run.result);
      if !ValidFinish(d.outcome, d.error) then Settled(q.(now := q.now + run.elapsed), false)
      else Settle(c, handlers, FinishFirst(c, q, jobs[0], run), jobs[1..])
  }

  // ---------------------------------------------------------------- a batch is a disciplined run

  function SettleSteps(c: Config, handlers: Handlers, jobs: seq<Snapshot>): seq<Step>
    decreases |jobs|
  {
    if jobs == [] then []
    else
      var run := Handle(handlers, jobs[0]);
      var d := Decide(c, jobs[0].attemptCount, run.result);
      if !ValidFinish(d.outcome, d.error) then [Tick(run.elapsed)]
      else [Tick(run.elapsed), Finish(jobs[0].id, jobs[0].token, d.outcome, d.error, d.delay)]
           + SettleSteps(c, handlers, jobs[1..])
  }

  /** The snapshot carries the number of the attempt that was started under its token. */
  ghost predicate Quotes(q: Tables, job: Snapshot) {
    forall i: nat :: HasToken(q, job.id, i, job.token) ==> q.attempts[job.id][i].number == job.attemptCount
  }

  lemma QuotesKept(q: Tables, s: Step, job: Snapshot)
    requires Consistent(q) && WorkerStep(q, s) && (s.Tick? || s.Finish?) && Quotes(q, job)
    ensures Quotes(Apply(q, s), job)
  {
    var r := Apply(q, s);
    forall i: nat | HasToken(r, job.id, i, job.token) ensures r.attempts[job.id][i].number == job.attemptCount {
      assert HasToken(q, job.id, i, job.token);
    }
  }

  /** The jobs after the first, as the first one is handled. */
  lemma QuotesAllKept(q: Tables, tick: Step, finish: Step, jobs: seq<Snapshot>)
    requires Consistent(q) && tick.Tick? && finish.Finish? && WorkerStep(q, tick) && WorkerStep(Apply(q, tick), finish)
    requires forall i :: 0 <= i < |jobs| ==> Quotes(q, jobs[i])
    ensures var m := Apply(q, tick);
      Consistent(m) && Consistent(Apply(m, finish)) && forall i :: 0 <= i < |jobs| ==> Quotes(m, jobs[i]) && Quotes(Apply(m, finish), jobs[i])
  {
    var m := Apply(q, tick);
    StepKeeps(q, tick);
    StepKeeps(m, finish);
    forall i | 0 <= i < |jobs| ensures Quotes(m, jobs[i]) && Quotes(Apply(m, finish), jobs[i]) {
      QuotesKept(q, tick, jobs[i]);
      QuotesKept(m, finish, jobs[i]);
    }
  }

  lemma FirstIsDisciplined(c: Config, q: Tables, job: Snapshot, run: HandlerRun)
    requires Quotes(q, job)
    ensures var d := Decide(c, job.attemptCount, run.result);
      ValidFinish(d.outcome, d.error) ==> FromWorker(c, q, Finish(job.id, job.token, d.outcome, d.error, d.delay))
  {
  }

  /** `steps` is a disciplined run from `q` to `end`. */
  ghost predicate Leads(c: Config, q: Tables, steps: seq<Step>, end: Tables) {
    SameKeys(q) && DisciplinedRun(c, q, steps) && ValidRun(q, steps) && Run(q, steps) == end
  }

  lemma LeadsOneMore(c: Config, q: Tables, step: Step, rest: seq<Step>, end: Tables)
    requires SameKeys(q) && FromWorker(c, q, step) && Leads(c, Apply(q, step), rest, end)
    ensures Leads(c, q, [step] + rest, end)
  {
    assert ([step] + rest)[1..] == rest;
  }

  lemma LeadsTwoMore(c: Config, q: Tables, a: Step, m: Tables, b: Step, r: Tables, rest: seq<Step>, end: Tables)
    requires SameKeys(q) && FromWorker(c, q, a) && m == Apply(q, a)
    requires SameKeys(m) && FromWorker(c, m, b) && r == Apply(m, b) && Leads(c, r, rest, end)
    ensures Leads(c, q, [a, b] + rest, end)
  {
    LeadsOneMore(c, m, b, rest, end);
    LeadsOneMore(c, q, a, [b] + rest, end);
    assert [a, b] + rest == [a] + ([b] + rest);
  }

  /** What one turn of the loop does, as steps. */
  lemma FirstSettled(c: Config, q: Tables, job: Snapshot, run: HandlerRun, d: Decision)
    requires SameKeys(q) && d == Decide(c, job.attemptCount, run.result)
    ensures FinishFirst(c, q, job, run) == Apply(Apply(q, Tick(run.elapsed)), Finish(job.id, job.token, d.outcome, d.error, d.delay))
  {
  }

  lemma SettleOnce(c: Config, handlers: Handlers, q: Tables, jobs: seq<Snapshot>, run: HandlerRun, d: Decision)
    requires SameKeys(q) && jobs != [] && run == Handle(handlers, jobs[0]) && d == Decide(c, jobs[0].attemptCount, run.result)
    ensures ValidFinish(d.outcome, d.error) ==>
      Settle(c, handlers, q, jobs) == Settle(c, handlers, FinishFirst(c, q, jobs[0], run), jobs[1..])
    ensures !ValidFinish(d.outcome, d.error) ==> Settle(c, handlers, q, jobs).q == q.(now := q.now + run.elapsed)
  {
  }

  lemma StepsOnce(c: Config, handlers: Handlers, jobs: seq<Snapshot>, run: HandlerRun, d: Decision)
    requires jobs != [] && run == Handle(handlers, jobs[0]) && d == Decide(c, jobs[0].attemptCount, run.result)
    ensures SettleSteps(c, handlers, jobs) ==
      if !ValidFinish(d.outcome, d.error) then [Tick(run.elapsed)]
      else [Tick(run.elapsed), Finish(jobs[0].id, jobs[0].token, d.outcome, d.error, d.delay)]
           + SettleSteps(c, handlers, jobs[1..])
  {
  }

  /** Handling a batch takes only steps that some worker may take, so every theorem about disciplined
      runs holds across it. */
  lemma {:induction false} SettleIsDisciplined(c: Config, handlers: Handlers, q: Tables, jobs: seq<Snapshot>)
    requires Consistent(q) && forall i :: 0 <= i < |jobs| ==> Quotes(q, jobs[i])
    ensures Leads(c, q, SettleSteps(c, handlers, jobs), Settle(c, handlers, q, jobs).q)
    decreases |jobs|
  {
    if jobs != [] {
      var run := Handle(handlers, jobs[0]);
      var d := Decide(c, jobs[0].attemptCount, run.result);
      var tick := Tick(run.elapsed);
      var m := Apply(q, tick);
      FirstSettled(c, q, jobs[0], run, d);
      SettleOnce(c, handlers, q, jobs, run, d);
      StepsOnce(c, handlers, jobs, run, d);
      if ValidFinish(d.outcome, d.error) {
        var finish := Finish(jobs[0].id, jobs[0].token, d.outcome, d.error, d.delay);
        var r, rest := Apply(m, finish), jobs[1..];
        QuotesAllKept(q, tick, finish, jobs);
        FirstIsDisciplined(c, m, jobs[0], run);
        SettleIsDisciplined(c, handlers, r, rest);
        LeadsTwoMore(c, q, tick, m, finish, r, SettleSteps(c, handlers, rest), Settle(c, handlers, r, rest).q);
      } else {
        RefusedRun(c, q, tick);
      }
    }
  }

  /** The handler's time passes even when its finish is refused. */
  lemma RefusedRun(c: Config, q: Tables, tick: Step)
    requires SameKeys(q) && tick.Tick?
    ensures Leads(c, q, [tick], Apply(q, tick))
  {
    assert [tick][1..] == [];
  }

  // ---------------------------------------------------------------- the potential of the queue

  /** How many more handler calls a job can cost: what its attempt_count leaves of max_attempts, and one at
      least if a worker abandoned its lease; a job in the hands of this batch has had its call. */
  function Remaining(c: Config, job: Job, held: bool): nat {
    if Terminal(job) then 0 else Max(if job.state == Leased && !held then 1 else 0, c.maxAttempts - job.attemptCount)
  }

  ghost function RemainingOf(c: Config, q: Tables, held: set<JobId>): JobId -> nat {
    id => if id in q.jobs then Remaining(c, q.jobs[id], id in held) else 0
  }

  ghost function Potential(c: Config, q: Tables, held: set<JobId>): nat { SumOver(q.jobs.Keys, RemainingOf(c, q, held)) }

  /** No worker holds the job, and if it is not finished it may be tried again. */
  predicate Idle(c: Config, job: Job) {
    Terminal(job) || ((job.state == Pending || job.state == Retrying) && job.attemptCount < c.maxAttempts)
  }

  /** Idle, or left leased by a worker that is gone. */
  predicate Free(c: Config, job: Job) { Idle(c, job) || (job.state == Leased && job.leaseExpiresAt.Some?) }

  lemma PotentialPoint(c: Config, q: Tables, r: Tables, id: JobId, before: set<JobId>, after: set<JobId>)
    requires q.jobs.Keys == r.jobs.Keys && id in q.jobs && before - {id} == after - {id}
    requires forall other :: other in q.jobs && other != id ==> q.jobs[other] == r.jobs[other]
    ensures Potential(c, r, after) + Remaining(c, q.jobs[id], id in before)
         == Potential(c, q, before) + Remaining(c, r.jobs[id], id in after)
  {
    forall other | other in q.jobs.Keys && other != id
      ensures RemainingOf(c, q, before)(other) == RemainingOf(c, r, after)(other)
    {
      assert other in before <==> other in before - {id};
    }
    SumOverUpdate(q.jobs.Keys, RemainingOf(c, q, before), RemainingOf(c, r, after), id);
  }

  function Elements(ids: seq<JobId>): set<JobId> { set id | id in ids }

  ghost predicate EachFree(c: Config, q: Tables, ids: seq<JobId>, held: set<JobId>) {
    forall i :: 0 <= i < |ids| ==> ids[i] in q.jobs && ids[i] !in held && Free(c, q.jobs[ids[i]])
  }

  lemma ElementsFirst(ids: seq<JobId>, held: set<JobId>)
    ensures ids == [] ==> held + Elements(ids) == held
    ensures ids != [] ==> held + Elements(ids) == (held + {ids[0]}) + Elements(ids[1..])
  {
  }

  /** Each claimed job costs at least one unit of potential. */
  lemma {:induction false} ClaimSpends(
      c: Config, q: Tables, ids: seq<JobId>, lease: int, tokens: seq<Token>, held: set<JobId>, after: set<JobId>)
    requires SameKeys(q) && Enabled(q, Claim(ids, lease, tokens)) && EachFree(c, q, ids, held)
    requires after == held + Elements(ids)
    ensures Potential(c, ClaimAll(q, ids, lease, tokens), after) + |ids| <= Potential(c, q, held)
    decreases |ids|
  {
    ElementsFirst(ids, held);
    if ids != [] {
      var m := ClaimOne(q, ids[0], lease, tokens[0]);
      ClaimOneSpends(c, q, ids[0], lease, tokens[0], held);
      assert Enabled(m, Claim(ids[1..], lease, tokens[1..])) by { ClaimHeadTail(q, ids, lease, tokens); }
      assert EachFree(c, m, ids[1..], held + {ids[0]}) by { RestIsFree(c, q, m, ids, held); }
      ClaimSpends(c, m, ids[1..], lease, tokens[1..], held + {ids[0]}, after);
    }
  }

  lemma ClaimOneSpends(c: Config, q: Tables, id: JobId, lease: int, token: Token, held: set<JobId>)
    requires SameKeys(q) && id in q.jobs && id !in held && Free(c, q.jobs[id]) && Eligible(q, id)
    ensures Potential(c, ClaimOne(q, id, lease, token), held + {id}) + 1 <= Potential(c, q, held)
  {
    PotentialPoint(c, q, ClaimOne(q, id, lease, token), id, held, held + {id});
  }

  lemma RestIsFree(c: Config, q: Tables, m: Tables, ids: seq<JobId>, held: set<JobId>)
    requires ids != [] && Distinct(ids) && EachFree(c, q, ids, held) && m.jobs.Keys == q.jobs.Keys
    requires forall other :: other in q.jobs && other != ids[0] ==> m.jobs[other] == q.jobs[other]
    ensures EachFree(c, m, ids[1..], held + {ids[0]})
  {
    forall i | 0 <= i < |ids| - 1
      ensures ids[1..][i] in m.jobs && ids[1..][i] !in held + {ids[0]} && Free(c, m.jobs[ids[1..][i]])
    {
      assert ids[1..][i] == ids[i + 1] && ids[i + 1] != ids[0];
    }
  }

  ghost predicate SafeHandlers(handlers: Handlers) {
    forall job: Snapshot ::
      match Handle(handlers, job).result
      case Permanent(code) => SafeCode(Some(code))
      case Retryable(code) => SafeCode(Some(code))
      case _ => true
  }

  /** The job is leased under the snapshot's token, and it is the attempt the snapshot shows. */
  predicate HeldAs(q: Tables, job: Snapshot) {
    HoldsLease(q, job.id, job.token) && q.jobs[job.id].attemptCount == job.attemptCount
  }

  ghost predicate Outstanding(q: Tables, jobs: seq<Snapshot>) {
    && (forall i :: 0 <= i < |jobs| ==> HeldAs(q, jobs[i]))
    && (forall i, j :: 0 <= i < j < |jobs| ==> jobs[i].id != jobs[j].id)
  }

  /** The ids of a batch. */
  function Held(jobs: seq<Snapshot>): set<JobId> { set i | 0 <= i < |jobs| :: jobs[i].id }

  lemma HeldIs(jobs: seq<Snapshot>)
    ensures Held(jobs) == Elements(IdsOf(jobs))
  {
    forall id | id in Elements(IdsOf(jobs)) ensures id in Held(jobs) {
      var i :| 0 <= i < |jobs| && IdsOf(jobs)[i] == id;
      assert jobs[i].id == id;
    }
    forall id | id in Held(jobs) ensures id in Elements(IdsOf(jobs)) {
      var i :| 0 <= i < |jobs| && jobs[i].id == id;
      assert IdsOf(jobs)[i] == id;
    }
  }

  /** One finished job is idle again or terminal, costs nothing more, and disturbs no other row. */
  lemma FinishSettles(c: Config, q: Tables, job: Snapshot, run: HandlerRun, held: set<JobId>)
    requires SameKeys(q) && HeldAs(q, job) && job.id in held
    ensures var m := FinishFirst(c, q, job, run);
      && SameKeys(m) && m.jobs.Keys == q.jobs.Keys && Idle(c, m.jobs[job.id])
      && Potential(c, m, held - {job.id}) <= Potential(c, q, held)
      && forall other :: other in q.jobs && other != job.id ==> m.jobs[other] == q.jobs[other]
  {
    var m := FinishFirst(c, q, job, run);
    PotentialPoint(c, q, m, job.id, held, held - {job.id});
  }

  /** Only jobs of the batch may still be held. */
  ghost predicate FreeExcept(c: Config, q: Tables, jobs: seq<Snapshot>) {
    forall id :: id in q.jobs ==> Free(c, q.jobs[id]) || id in Held(jobs)
  }

  lemma SettleFirst(c: Config, q: Tables, jobs: seq<Snapshot>, run: HandlerRun)
    requires SameKeys(q) && Outstanding(q, jobs) && jobs != []
    ensures var m := FinishFirst(c, q, jobs[0], run);
      && SameKeys(m) && m.jobs.Keys == q.jobs.Keys && Potential(c, m, Held(jobs[1..])) <= Potential(c, q, Held(jobs))
      && Idle(c, m.jobs[jobs[0].id])
      && forall other :: other in q.jobs && other != jobs[0].id ==> m.jobs[other] == q.jobs[other]
  {
    assert HeldAs(q, jobs[0]);
    HeldRest(jobs);
    FinishSettles(c, q, jobs[0], run, Held(jobs));
  }

  lemma LaterPotential(c: Config, q: Tables, later: int, held: set<JobId>)
    ensures Potential(c, q.(now := later), held) == Potential(c, q, held)
  {
    SumOverSame(q.jobs.Keys, RemainingOf(c, q, held), RemainingOf(c, q.(now := later), held));
  }

  lemma HeldRest(jobs: seq<Snapshot>)
    requires jobs != [] && forall i, j :: 0 <= i < j < |jobs| ==> jobs[i].id != jobs[j].id
    ensures Held(jobs[1..]) == Held(jobs) - {jobs[0].id} && jobs[0].id in Held(jobs)
  {
    forall id | id in Held(jobs) - {jobs[0].id} ensures id in Held(jobs[1..]) {
      var i :| 0 <= i < |jobs| && jobs[i].id == id;
      assert jobs[1..][i - 1].id == id;
    }
    assert forall i :: 0 <= i < |jobs| - 1 ==> jobs[1..][i] == jobs[i + 1];
  }

  lemma SettleRest(c: Config, q: Tables, m: Tables, jobs: seq<Snapshot>)
    requires Outstanding(q, jobs) && FreeExcept(c, q, jobs) && jobs != [] && m.jobs.Keys == q.jobs.Keys
    requires jobs[0].id in m.jobs && Idle(c, m.jobs[jobs[0].id])
    requires forall other :: other in q.jobs && other != jobs[0].id ==> m.jobs[other] == q.jobs[other]
    ensures Outstanding(m, jobs[1..]) && FreeExcept(c, m, jobs[1..])
  {
    HeldRest(jobs);
    forall i | 0 <= i < |jobs| - 1 ensures HeldAs(m, jobs[1..][i]) { assert HeldAs(q, jobs[i + 1]); }
  }

  ghost predicate AllFree(c: Config, q: Tables) {
    forall id :: id in q.jobs ==> Free(c, q.jobs[id])
  }

  /** A batch settles: no finish raises, every job ends free, and no potential comes back. */
  lemma {:induction false} SettleSettles(c: Config, handlers: Handlers, q: Tables, jobs: seq<Snapshot>)
    requires SameKeys(q) && SafeHandlers(handlers) && Outstanding(q, jobs) && FreeExcept(c, q, jobs)
    ensures var r := Settle(c, handlers, q, jobs);
      && r.ok && SameKeys(r.q) && r.q.jobs.Keys == q.jobs.Keys
      && Potential(c, r.q, {}) <= Potential(c, q, Held(jobs)) && AllFree(c, r.q)
    decreases |jobs|
  {
    if jobs == [] {
      assert Held(jobs) == {};
    } else {
      var run := Handle(handlers, jobs[0]);
      var d := Decide(c, jobs[0].attemptCount, run.result);
      assert ValidFinish(d.outcome, d.error);
      var m := FinishFirst(c, q, jobs[0], run);
      assert HeldAs(q, jobs[0]);
      SettleFirst(c, q, jobs, run);
      SettleRest(c, q, m, jobs);
      SettleSettles(c, handlers, m, jobs[1..]);
    }
  }

  /** A claim leaves the batch outstanding and every other job as it was. */
  lemma ClaimOutstanding(c: Config, q: Tables, lease: int, start: nat, jobs: seq<Snapshot>)
    requires SameKeys(q) && Enabled(q, Claim(IdsOf(jobs), lease, FreshTokens(start, |jobs|)))
    requires forall i :: 0 <= i < |jobs| ==> jobs[i].id in q.jobs
    requires Returned(ClaimAll(q, IdsOf(jobs), lease, FreshTokens(start, |jobs|)), jobs, start)
    ensures var m := ClaimAll(q, IdsOf(jobs), lease, FreshTokens(start, |jobs|));
      Outstanding(m, jobs) && (AllFree(c, q) ==> FreeExcept(c, m, jobs))
  {
    var ids, tokens := IdsOf(jobs), FreshTokens(start, |jobs|);
    var m := ClaimAll(q, ids, lease, tokens);
    forall i | 0 <= i < |jobs| ensures HeldAs(m, jobs[i]) { assert HoldsLease(m, jobs[i].id, start + i); }
    forall i, j | 0 <= i < j < |jobs| ensures jobs[i].id != jobs[j].id { assert ids[i] != ids[j]; }
    if AllFree(c, q) {
      HeldIs(jobs);
      forall id | id in m.jobs && id !in Held(jobs) ensures Free(c, m.jobs[id]) { ClaimAllFrame(q, ids, lease, tokens, id); }
    }
  }

  /** One undisturbed batch over free jobs: each claimed job costs at least one unit of potential and
      everything is free again. */
  lemma BatchSpends(c: Config, handlers: Handlers, q: Tables, lease: int, start: nat, jobs: seq<Snapshot>)
    requires SameKeys(q) && SafeHandlers(handlers) && AllFree(c, q)
    requires Enabled(q, Claim(IdsOf(jobs), lease, FreshTokens(start, |jobs|)))
    requires forall i :: 0 <= i < |jobs| ==> jobs[i].id in q.jobs
    requires Returned(ClaimAll(q, IdsOf(jobs), lease, FreshTokens(start, |jobs|)), jobs, start)
    ensures var r := Settle(c, handlers, ClaimAll(q, IdsOf(jobs), lease, FreshTokens(start, |jobs|)), jobs);
      && r.ok && SameKeys(r.q) && r.q.jobs.Keys == q.jobs.Keys
      && Potential(c, r.q, {}) + |jobs| <= Potential(c, q, {}) && AllFree(c, r.q)
  {
    var ids, tokens := IdsOf(jobs), FreshTokens(start, |jobs|);
    var m := ClaimAll(q, ids, lease, tokens);
    BatchIsFree(c, q, jobs);
    assert Potential(c, m, Held(jobs)) + |jobs| <= Potential(c, q, {}) by {
      HeldIs(jobs);
      ClaimSpends(c, q, ids, lease, tokens, {}, Held(jobs));
    }
    ClaimOutstanding(c, q, lease, start, jobs);
    SettleSettles(c, handlers, m, jobs);
  }

  lemma BatchIsFree(c: Config, q: Tables, jobs: seq<Snapshot>)
    requires AllFree(c, q) && forall i :: 0 <= i < |jobs| ==> jobs[i].id in q.jobs
    ensures EachFree(c, q, IdsOf(jobs), {})
  {
  }

  // ---------------------------------------------------------------- from the handler's outcome to the row

  /** What calling the job's handler comes to; a kind nobody registered is a permanent error at once. */
  ghost function Called(handlers: Handlers, job: Snapshot): HandlerRun {
    if job.kind !in handlers then HandlerRun(Permanent("unsupported_job_kind"), 0) else handlers[job.kind](job)
  }

  /** When job k of the batch is reported. */
  ghost function DoneAt(handlers: Handlers, now: int, jobs: seq<Snapshot>, k: nat): int
    requires k < |jobs|
    decreases k
  {
    var then_ := now + Called(handlers, jobs[0]).elapsed;
    if k == 0 then then_ else DoneAt(handlers, then_, jobs[1..], k - 1)
  }

  /** A failed attempt, reported at `at`: given up from max_attempts on, else put off by the backoff of its number. */
  ghost predicate FailedRow(c: Config, attempt: nat, code: string, at: int, row: Job) {
    && row.lastError == Some(code)
    && (attempt >= c.maxAttempts ==> row.state == Dead && row.completedAt == Some(at))
    && (attempt < c.maxAttempts ==>
          && row.state == Retrying && row.completedAt == None
          && var delay := c.backoffBase * Pow2(if attempt > 0 then attempt - 1 else 0);
             row.availableAt == at + (if delay > c.backoffMax then c.backoffMax else delay))
  }

  /** The row a handler's outcome leaves: completed after a return, dead with its code after a permanent error,
      a failed attempt after any other exception; no longer leased in any case. */
  ghost predicate HandledRow(c: Config, job: Snapshot, result: HandlerResult, at: int, row: Job) {
    && row.leaseToken == None && row.leaseExpiresAt == None && row.attemptCount == job.attemptCount
    && match result
       case Success => row.state == Completed && row.completedAt == Some(at) && row.lastError == None
       case Permanent(code) => row.state == Dead && row.completedAt == Some(at) && row.lastError == Some(code)
       case Retryable(code) => FailedRow(c, job.attemptCount, code, at, row)
       case Crashed => FailedRow(c, job.attemptCount, "handler_failure", at, row)
  }

  /** The first n jobs of the batch were handled, each as its handler's outcome says. */
  ghost predicate HandledUpTo(c: Config, handlers: Handlers, now: int, jobs: seq<Snapshot>, n: nat, q: Tables)
    requires n <= |jobs|
  {
    forall k :: 0 <= k < n ==>
      && jobs[k].id in q.jobs
      && HandledRow(c, jobs[k], Called(handlers, jobs[k]).result, DoneAt(handlers, now, jobs, k), q.jobs[jobs[k].id])
  }

  /** Job n was the first whose handler gave an unsafe code; it and the rest are still leased. */
  ghost predicate StoppedAt(c: Config, handlers: Handlers, now: int, jobs: seq<Snapshot>, n: nat, q: Tables) {
    && n < |jobs| && HandledUpTo(c, handlers, now, jobs, n, q)
    && (match Called(handlers, jobs[n]).result
        case Permanent(code) => !SafeCode(Some(code))
        case Retryable(code) => !SafeCode(Some(code))
        case _ => false)
    && forall k :: n <= k < |jobs| ==> HeldAs(q, jobs[k])
  }

  /** Either every job of the batch was handled, or the batch stopped at an unsafe code. */
  ghost predicate BatchOutcome(c: Config, handlers: Handlers, now: int, jobs: seq<Snapshot>, end: Settled) {
    if end.ok then HandledUpTo(c, handlers, now, jobs, |jobs|, end.q)
    else exists n: nat :: StoppedAt(c, handlers, now, jobs, n, end.q)
  }

  lemma FirstHandled(c: Config, q: Tables, job: Snapshot, run: HandlerRun)
    requires ValidConfig(c) && SameKeys(q) && HeldAs(q, job)
    ensures var m := FinishFirst(c, q, job, run);
      && SameKeys(m) && m.now == q.now + run.elapsed && job.id in m.jobs
      && HandledRow(c, job, run.result, q.now + run.elapsed, m.jobs[job.id])
      && forall other :: other in q.jobs && other != job.id ==> other in m.jobs && m.jobs[other] == q.jobs[other]
  {
    assert c.backoffBase * Pow2(if job.attemptCount > 0 then job.attemptCount - 1 else 0) >= 0;
  }

  /** Handling touches the rows of the batch alone. */
  lemma {:induction false} SettleFrame(c: Config, handlers: Handlers, q: Tables, jobs: seq<Snapshot>, id: JobId)
    requires SameKeys(q) && id in q.jobs && forall k :: 0 <= k < |jobs| ==> jobs[k].id != id
    ensures var r := Settle(c, handlers, q, jobs).q; id in r.jobs && r.jobs[id] == q.jobs[id]
    decreases |jobs|
  {
    if jobs != [] {
      var run := Handle(handlers, jobs[0]);
      var d := Decide(c, jobs[0].attemptCount, run.result);
      if ValidFinish(d.outcome, d.error) { SettleFrame(c, handlers, FinishFirst(c, q, jobs[0], run), jobs[1..], id); }
    }
  }

  lemma HandledMore(
      c: Config, handlers: Handlers, now: int, jobs: seq<Snapshot>, n: nat, q: Tables)
    requires jobs != [] && n < |jobs|
    requires HandledUpTo(c, handlers, now + Called(handlers, jobs[0]).elapsed, jobs[1..], n, q)
    requires jobs[0].id in q.jobs
    requires HandledRow(c, jobs[0], Called(handlers, jobs[0]).result, now + Called(handlers, jobs[0]).elapsed, q.jobs[jobs[0].id])
    ensures HandledUpTo(c, handlers, now, jobs, n + 1, q)
  {
    var later := now + Called(handlers, jobs[0]).elapsed;
    forall k | 0 <= k < n + 1
      ensures jobs[k].id in q.jobs
      ensures HandledRow(c, jobs[k], Called(handlers, jobs[k]).result, DoneAt(handlers, now, jobs, k), q.jobs[jobs[k].id])
    {
      if k > 0 { assert jobs[1..][k - 1] == jobs[k]; }
    }
  }

  lemma StoppedMore(c: Config, handlers: Handlers, now: int, jobs: seq<Snapshot>, n: nat, q: Tables)
    requires jobs != [] && StoppedAt(c, handlers, now + Called(handlers, jobs[0]).elapsed, jobs[1..], n, q)
    requires jobs[0].id in q.jobs
    requires HandledRow(c, jobs[0], Called(handlers, jobs[0]).result, now + Called(handlers, jobs[0]).elapsed, q.jobs[jobs[0].id])
    ensures StoppedAt(c, handlers, now, jobs, n + 1, q)
  {
    HandledMore(c, handlers, now, jobs, n, q);
    assert jobs[1..][n] == jobs[n + 1];
    forall k | n + 1 <= k < |jobs| ensures HeldAs(q, jobs[k]) { assert jobs[1..][k - 1] == jobs[k]; }
  }

  lemma RestOutstanding(q: Tables, m: Tables, jobs: seq<Snapshot>)
    requires Outstanding(q, jobs) && jobs != []
    requires forall other :: other in q.jobs && other != jobs[0].id ==> other in m.jobs && m.jobs[other] == q.jobs[other]
    ensures Outstanding(m, jobs[1..])
  {
    forall i | 0 <= i < |jobs| - 1 ensures HeldAs(m, jobs[1..][i]) { assert HeldAs(q, jobs[i + 1]); }
  }

  /** The first job handled, the rest is an outstanding batch of other jobs. */
  lemma FirstOfBatch(c: Config, handlers: Handlers, q: Tables, jobs: seq<Snapshot>, run: HandlerRun)
    requires ValidConfig(c) && SameKeys(q) && Outstanding(q, jobs) && jobs != [] && run == Handle(handlers, jobs[0])
    ensures var m, at := FinishFirst(c, q, jobs[0], run), q.now + Called(handlers, jobs[0]).elapsed;
      && SameKeys(m) && m.now == at && Outstanding(m, jobs[1..]) && jobs[0].id in m.jobs
      && HandledRow(c, jobs[0], Called(handlers, jobs[0]).result, at, m.jobs[jobs[0].id])
      && forall k :: 0 <= k < |jobs[1..]| ==> jobs[1..][k].id != jobs[0].id
  {
    assert HeldAs(q, jobs[0]);
    FirstHandled(c, q, jobs[0], run);
    RestOutstanding(q, FinishFirst(c, q, jobs[0], run), jobs);
  }

  /** Every job of an outstanding batch ends as its handler's outcome says. */
  lemma {:induction false} SettleHandles(c: Config, handlers: Handlers, q: Tables, jobs: seq<Snapshot>)
    requires ValidConfig(c) && SameKeys(q) && Outstanding(q, jobs)
    ensures BatchOutcome(c, handlers, q.now, jobs, Settle(c, handlers, q, jobs))
    decreases |jobs|
  {
    if jobs != [] {
      var run := Handle(handlers, jobs[0]);
      var d := Decide(c, jobs[0].attemptCount, run.result);
      if ValidFinish(d.outcome, d.error) {
        var m, rest, end := FinishFirst(c, q, jobs[0], run), jobs[1..], Settle(c, handlers, q, jobs);
        assert end == Settle(c, handlers, m, rest) by { SettleOnce(c, handlers, q, jobs, run, d); }
        FirstOfBatch(c, handlers, q, jobs, run);
        assert BatchOutcome(c, handlers, m.now, rest, end) by { SettleHandles(c, handlers, m, rest); }
        assert jobs[0].id in end.q.jobs && end.q.jobs[jobs[0].id] == m.jobs[jobs[0].id] by { SettleFrame(c, handlers, m, rest, jobs[0].id); }
        OutcomeMore(c, handlers, q.now, jobs, end);
      } else {
        RefusedOutcome(c, handlers, q, jobs, run, d);
      }
    }
  }

  lemma RefusedOutcome(c: Config, handlers: Handlers, q: Tables, jobs: seq<Snapshot>, run: HandlerRun, d: Decision)
    requires SameKeys(q) && Outstanding(q, jobs) && jobs != [] && run == Handle(handlers, jobs[0])
    requires d == Decide(c, jobs[0].attemptCount, run.result) && !ValidFinish(d.outcome, d.error)
    ensures BatchOutcome(c, handlers, q.now, jobs, Settle(c, handlers, q, jobs))
  {
    var end := Settle(c, handlers, q, jobs);
    forall k | 0 <= k < |jobs| ensures HeldAs(end.q, jobs[k]) { assert HeldAs(q, jobs[k]); }
    assert StoppedAt(c, handlers, q.now, jobs, 0, end.q);
  }

  lemma HandlesIf(c: Config, handlers: Handlers, q: Tables, jobs: seq<Snapshot>)
    requires SameKeys(q)
    ensures ValidConfig(c) && Outstanding(q, jobs) ==> BatchOutcome(c, handlers, q.now, jobs, Settle(c, handlers, q, jobs))
  {
    if ValidConfig(c) && Outstanding(q, jobs) { SettleHandles(c, handlers, q, jobs); }
  }

  /** The first job's outcome in front of the others'. */
  lemma OutcomeMore(c: Config, handlers: Handlers, now: int, jobs: seq<Snapshot>, end: Settled)
    requires jobs != [] && BatchOutcome(c, handlers, now + Called(handlers, jobs[0]).elapsed, jobs[1..], end)
    requires jobs[0].id in end.q.jobs
    requires HandledRow(c, jobs[0], Called(handlers, jobs[0]).result, now + Called(handlers, jobs[0]).elapsed, end.q.jobs[jobs[0].id])
    ensures BatchOutcome(c, handlers, now, jobs, end)
  {
    if end.ok {
      HandledMore(c, handlers, now, jobs, |jobs| - 1, end.q);
    } else {
      var n: nat :| StoppedAt(c, handlers, now + Called(handlers, jobs[0]).elapsed, jobs[1..], n, end.q);
      StoppedMore(c, handlers, now, jobs, n, end.q);
    }
  }

  // ---------------------------------------------------------------- the worker

  ghost function ClaimOf(c: Config, start: nat, jobs: seq<Snapshot>): Step {
    Claim(IdsOf(jobs), c.leaseSeconds, FreshTokens(start, |jobs|))
  }

  /** The claim of one run_once: the first due rows, under fresh tokens, read back as `jobs`. */
  ghost predicate Claimed(c: Config, q: Tables, start: nat, locked: set<JobId>, jobs: seq<Snapshot>) {
    && SameKeys(q) && Chosen(q, locked, c.batchSize, IdsOf(jobs)) && Enabled(q, ClaimOf(c, start, jobs))
    && (forall i :: 0 <= i < |jobs| ==> IdsOf(jobs)[i] in q.jobs)
    && Returned(Apply(q, ClaimOf(c, start, jobs)), jobs, start)
  }

  /** One run_once: the jobs are claimed, and `end` is what handling them leaves. */
  ghost predicate BatchOf(
      c: Config, handlers: Handlers, q: Tables, start: nat, locked: set<JobId>, jobs: seq<Snapshot>, end: Settled)
  {
    Claimed(c, q, start, locked, jobs) && end == Settle(c, handlers, Apply(q, ClaimOf(c, start, jobs)), jobs)
  }

  /** The jobs a claim hands out quote the attempts it started. */
  lemma ClaimedQuotes(c: Config, q: Tables, start: nat, locked: set<JobId>, jobs: seq<Snapshot>)
    requires Consistent(q) && Claimed(c, q, start, locked, jobs)
    ensures var m := Apply(q, ClaimOf(c, start, jobs)); Consistent(m) && forall i :: 0 <= i < |jobs| ==> Quotes(m, jobs[i])
  {
    var m := Apply(q, ClaimOf(c, start, jobs));
    StepKeeps(q, ClaimOf(c, start, jobs));
    forall i | 0 <= i < |jobs| ensures Quotes(m, jobs[i]) {
      assert HoldsLease(m, jobs[i].id, start + i);
      forall n: nat | HasToken(m, jobs[i].id, n, jobs[i].token)
        ensures m.attempts[jobs[i].id][n].number == jobs[i].attemptCount
      {
        SnapshotQuotesItsAttempt(m, jobs[i].id, n);
      }
    }
  }

  /** Each job that run_once claims ends as its handler's outcome says. */
  lemma BatchHandles(
      c: Config, handlers: Handlers, q: Tables, start: nat, locked: set<JobId>, jobs: seq<Snapshot>, end: Settled)
    requires ValidConfig(c) && BatchOf(c, handlers, q, start, locked, jobs, end)
    ensures BatchOutcome(c, handlers, q.now, jobs, end)
  {
    var m := Apply(q, ClaimOf(c, start, jobs));
    assert forall i :: 0 <= i < |jobs| ==> IdsOf(jobs)[i] == jobs[i].id;
    ClaimOutstanding(c, q, c.leaseSeconds, start, jobs);
    SettleHandles(c, handlers, m, jobs);
  }

  /** run_once as a whole is a disciplined run. */
  lemma BatchIsDisciplined(
      c: Config, handlers: Handlers, q: Tables, start: nat, locked: set<JobId>, jobs: seq<Snapshot>, end: Settled)
    requires Consistent(q)
    ensures BatchOf(c, handlers, q, start, locked, jobs, end) ==>
      Leads(c, q, [ClaimOf(c, start, jobs)] + SettleSteps(c, handlers, jobs), end.q)
  {
    if !BatchOf(c, handlers, q, start, locked, jobs, end) { return; }
    var claim := ClaimOf(c, start, jobs);
    var m := Apply(q, claim);
    ClaimedQuotes(c, q, start, locked, jobs);
    SettleIsDisciplined(c, handlers, m, jobs);
    LeadsOneMore(c, q, claim, SettleSteps(c, handlers, jobs), end.q);
  }

  /** Calls paid for out of the potential, and everything free again; without a call no row was due and nothing but
      the time changed. */
  ghost predicate Spent(c: Config, q: Tables, end: Tables, calls: nat, elapsed: nat) {
    && end.jobs.Keys == q.jobs.Keys && AllFree(c, end) && calls + Potential(c, end, {}) <= Potential(c, q, {})
    && (calls == 0 ==> end == q.(now := q.now + elapsed) && Claimable(q, {}) == {})
  }

  /** An undisturbed batch pays for each job it handles; one that handles none found no row due and left the
      queue as it was. */
  lemma PollSpends(c: Config, handlers: Handlers, q: Tables, start: nat, jobs: seq<Snapshot>, end: Settled)
    requires BatchOf(c, handlers, q, start, {}, jobs, end)
    requires SafeHandlers(handlers) && AllFree(c, q) && c.batchSize >= 1
    ensures end.ok && Spent(c, q, end.q, |jobs|, 0)
  {
    ChosenRowsExist(q, {}, c.batchSize, IdsOf(jobs));
    BatchSpends(c, handlers, q, c.leaseSeconds, start, jobs);
  }

  /** Sleeping changes no row. */
  lemma SleepSpends(c: Config, q: Tables, m: Tables, calls: nat, elapsed: nat)
    requires SameKeys(m) && Spent(c, q, m, calls, 0)
    ensures Spent(c, q, Apply(m, Tick(elapsed)), calls, elapsed)
  {
    LaterPotential(c, m, m.now + elapsed, {});
  }

  /** When a free job that is not finished can be claimed: at its available_at, or when the lease it was left
      under expires. */
  function DueAt(job: Job): int {
    if job.state == Leased && job.leaseExpiresAt.Some? then job.leaseExpiresAt.value else job.availableAt
  }

  /** A row that may be tried again but is not due has its time still ahead. */
  lemma NotYetDue(c: Config, q: Tables, due: JobId)
    requires AllFree(c, q) && due in q.jobs && !Terminal(q.jobs[due]) && Claimable(q, {}) == {}
    ensures DueAt(q.jobs[due]) > q.now
  {
    assert Free(c, q.jobs[due]) && due !in Claimable(q, {});
  }

  predicate AllTerminal(jobs: map<JobId, Job>) { forall id :: id in jobs ==> Terminal(jobs[id]) }

  class Runner {
    const config: Config
    const queue: JobQueue
    var handlers: Handlers

    constructor (config: Config, queue: JobQueue)
      ensures this.config == config && this.queue == queue && handlers == map[]
    {
      this.config, this.queue, handlers := config, queue, map[];
    }

    /** Raises ("job kind must be unique") when the kind is empty or taken. */
    method Register(kind: string, handler: Snapshot -> HandlerRun) returns (ok: bool)
      modifies this
      ensures ok <==> kind != "" && kind !in old(handlers)
      ensures handlers == if ok then old(handlers)[kind := handler] else old(handlers)
    {
      ok := kind != "" && kind !in handlers;
      if ok { handlers := handlers[kind := handler]; }
    }

    /** Claim one batch, then handle and finish each job; reports how many were claimed. An unsafe
        error code makes the finish raise, which ends the batch there. */
    method RunOnce(locked: set<JobId>) returns (r: Result<int, string>, ghost jobs: seq<Snapshot>)
      requires queue.Valid()
      modifies queue
      ensures queue.Valid()
      ensures BatchOf(config, handlers, old(queue.State()), old(queue.nextToken), locked, jobs,
                      Settled(queue.State(), r.Ok?))
      ensures ValidConfig(config) ==>
        BatchOutcome(config, handlers, old(queue.now), jobs, Settled(queue.State(), r.Ok?))
      ensures r.Ok? ==> r.value == |jobs|
    {
      ghost var q, start := queue.State(), queue.nextToken;
      var claimed := queue.ClaimJobs(config.batchSize, config.leaseSeconds, locked);
      jobs := claimed;
      assert queue.State() == Apply(q, ClaimOf(config, start, jobs));
      var ok := HandleAll(claimed);
      assert BatchOf(config, handlers, q, start, locked, jobs, Settled(queue.State(), ok));
      if ValidConfig(config) { BatchHandles(config, handlers, q, start, locked, jobs, Settled(queue.State(), ok)); }
      r := if ok then Ok(|claimed|) else Err("invalid safe outcome");
    }

    /** The loop over the claimed jobs. */
    method HandleAll(claimed: seq<Snapshot>) returns (ok: bool)
      requires queue.Valid() && SameKeys(queue.State())
      modifies queue
      ensures queue.Valid() && SameKeys(old(queue.State()))
      ensures var end := Settle(config, handlers, old(queue.State()), claimed); queue.State() == end.q && ok == end.ok
      ensures ValidConfig(config) && Outstanding(old(queue.State()), claimed) ==>
        BatchOutcome(config, handlers, old(queue.now), claimed, Settled(queue.State(), ok))
    {
      ghost var m := queue.State();
      var i := 0;
      ok := true;
      while ok && i < |claimed|
        invariant 0 <= i <= |claimed| && queue.Valid() && SameKeys(queue.State())
        invariant ok ==> Settle(config, handlers, queue.State(), claimed[i..]) == Settle(config, handlers, m, claimed)
        invariant !ok ==> Settled(queue.State(), false) == Settle(config, handlers, m, claimed)
      {
        var job := claimed[i];
        assert claimed[i..][0] == job && claimed[i..][1..] == claimed[i + 1..];
        var run := Handle(handlers, job);
        queue.Advance(run.elapsed);
        var d := Decide(config, job.attemptCount, run.result);
        var changed := queue.FinishJob(job.id, job.token, d.outcome, d.error, d.delay);
        ok := changed.Ok?;
        i := i + 1;
      }
      HandlesIf(config, handlers, m, claimed);
    }

    /** One turn of the worker's main loop: a batch, then a sleep. */
    method Turn(interval: nat) returns (calls: nat, ghost q: Tables)
      requires queue.Valid() && SafeHandlers(handlers) && AllFree(config, queue.State()) && config.batchSize >= 1
      modifies queue
      ensures queue.Valid() && q == old(queue.State()) && Spent(config, q, queue.State(), calls, interval)
    {
      q := queue.State();
      ghost var start := queue.nextToken;
      var r, jobs := RunOnce({});
      ghost var m := queue.State();
      PollSpends(config, handlers, q, start, jobs, Settled(m, r.Ok?));
      calls := r.value;
      queue.Advance(interval);
      SleepSpends(config, q, m, calls, interval);
    }

    /** The main loop turns until a batch hands out a job. While none is due it changes nothing but the time,
        so row `due` is reached in the end. */
    method Poll(due: JobId, interval: nat) returns (calls: nat)
      requires queue.Valid() && SafeHandlers(handlers) && AllFree(config, queue.State()) && config.batchSize >= 1
      requires due in queue.jobs && !Terminal(queue.jobs[due]) && interval >= 1
      modifies queue
      ensures queue.Valid() && queue.jobs.Keys == old(queue.jobs.Keys) && AllFree(config, queue.State())
      ensures calls >= 1 && calls + Potential(config, queue.State(), {}) <= old(Potential(config, queue.State(), {}))
    {
      calls := 0;
      ghost var wait := Max(0, DueAt(queue.jobs[due]) - queue.now);
      while calls == 0
        invariant queue.Valid() && queue.jobs.Keys == old(queue.jobs.Keys) && AllFree(config, queue.State())
        invariant calls + Potential(config, queue.State(), {}) <= old(Potential(config, queue.State(), {}))
        invariant calls == 0 ==> due in queue.jobs && !Terminal(queue.jobs[due]) && wait >= DueAt(queue.jobs[due]) - queue.now
        invariant wait >= 0
        decreases if calls == 0 then 1 else 0, wait
      {
        ghost var q;
        calls, q := Turn(interval);
        if calls == 0 {
          NotYetDue(config, q, due);
          wait := wait - 1;
        }
      }
    }

    /** The main loop on a queue nobody else works on: whatever number of seconds it sleeps, it waits out the
        leases that other workers abandoned, and ends with every job completed or dead after at most max_attempts
        calls per job. */
    method Drain(interval: nat) returns (calls: nat)
      requires ValidConfig(config) && queue.Valid() && SafeHandlers(handlers) && interval >= 1
      requires AllFree(config, queue.State())
      modifies queue
      ensures queue.Valid() && queue.jobs.Keys == old(queue.jobs.Keys)
      ensures AllTerminal(queue.jobs)
      ensures calls <= |old(queue.jobs)| * config.maxAttempts
    {
      calls := 0;
      ghost var q0 := queue.State();
      PotentialBounded(config, q0);
      while !AllTerminal(queue.jobs)
        invariant queue.Valid() && queue.jobs.Keys == q0.jobs.Keys && AllFree(config, queue.State())
        invariant calls + Potential(config, queue.State(), {}) <= Potential(config, q0, {})
        decreases Potential(config, queue.State(), {})
      {
        var due :| due in queue.jobs && !Terminal(queue.jobs[due]);
        var n := Poll(due, interval);
        calls := calls + n;
      }
    }
  }

  lemma ChosenRowsExist(q: Tables, locked: set<JobId>, batch: int, ids: seq<JobId>)
    requires Chosen(q, locked, batch, ids)
    ensures forall i :: 0 <= i < |ids| ==> ids[i] in q.jobs
    ensures batch >= 1 && Claimable(q, locked) != {} ==> |ids| >= 1
  {
    assert forall i :: 0 <= i < |ids| ==> ids[i] in Claimable(q, locked);
  }

  /** n jobs start with at most n times max_attempts calls in hand. */
  lemma PotentialBounded(c: Config, q: Tables)
    requires ValidConfig(c)
    ensures Potential(c, q, {}) <= |q.jobs| * c.maxAttempts
  {
    SumOverBound(q.jobs.Keys, RemainingOf(c, q, {}), c.maxAttempts);
    assert |q.jobs.Keys| == |q.jobs|;
  }
}
