/** Any number of workers on one queue, interleaved transaction by transaction: a worker claims a batch, then
    reports its jobs one by one, and may die on the way. Whatever they do is a disciplined run from the empty
    queue, so what holds of disciplined runs holds of the workers. */
module WorkerFleet {
  import opened Basics
  import opened Queue
  import opened QueueInvariant
  import opened QueueSchedule
  import opened RunnerPolicy
  import opened JobRunner

  type WorkerId = nat

  /** The queue, and for each worker the claimed jobs it has still to handle, in order. */
  datatype Fleet = Fleet(q: Tables, hands: map<WorkerId, seq<Snapshot>>)

  /** `RunOnce` is a whole run_once that nothing interrupts; `Take`, `Report` and `Crash` are its parts. */
  datatype Move =
    | Arrive(id: JobId, eventId: nat, kind: string, availableAt: int)
    | Wait(elapsed: nat)
    | Take(worker: WorkerId, start: nat, locked: set<JobId>, jobs: seq<Snapshot>)
    | Report(worker: WorkerId, result: HandlerResult)
    | Crash(worker: WorkerId)
    | RunOnce(handlers: Handlers, start: nat, locked: set<JobId>, jobs: seq<Snapshot>, end: Settled)

  ghost predicate Allowed(c: Config, f: Fleet, m: Move) {
    match m
    case Arrive(id, _, _, _) => id !in f.q.jobs
    case Wait(_) => true
    case Take(worker, start, locked, jobs) =>
      (worker in f.hands ==> f.hands[worker] == []) && Claimed(c, f.q, start, locked, jobs)
    case Report(worker, _) => worker in f.hands && f.hands[worker] != []
    case Crash(worker) => worker in f.hands
    case RunOnce(handlers, start, locked, jobs, end) => BatchOf(c, handlers, f.q, start, locked, jobs, end)
  }

  /** The finish a worker sends for its first job. */
  function ReportOf(c: Config, job: Snapshot, result: HandlerResult): Step {
    var d := Decide(c, job.attemptCount, result);
    Finish(job.id, job.token, d.outcome, d.error, d.delay)
  }

  /** An unsafe code makes the finish raise: the worker dies with the rest of its batch in hand. */
  predicate Refused(s: Step) { s.Finish? && !ValidFinish(s.outcome, s.error) }

  /** The steps of the queue a move amounts to. */
  ghost function StepsOf(c: Config, f: Fleet, m: Move): seq<Step>
    requires Allowed(c, f, m)
  {
    match m
    case Arrive(id, eventId, kind, at) => [Enqueue(id, eventId, kind, at)]
    case Wait(elapsed) => [Tick(elapsed)]
    case Take(_, start, _, jobs) => [ClaimOf(c, start, jobs)]
    case Report(worker, result) =>
      var s := ReportOf(c, f.hands[worker][0], result);
      if Refused(s) then [] else [s]
    case Crash(_) => []
    case RunOnce(handlers, start, _, jobs, _) => [ClaimOf(c, start, jobs)] + SettleSteps(c, handlers, jobs)
  }

  ghost function Do(c: Config, f: Fleet, m: Move): Fleet
    requires SameKeys(f.q) && Allowed(c, f, m)
  {
    match m
    case Arrive(id, eventId, kind, at) => f.(q := Apply(f.q, Enqueue(id, eventId, kind, at)))
    case Wait(elapsed) => f.(q := Apply(f.q, Tick(elapsed)))
    case Take(worker, start, _, jobs) => Fleet(Apply(f.q, ClaimOf(c, start, jobs)), f.hands[worker := jobs])
    case Report(worker, result) =>
      var s := ReportOf(c, f.hands[worker][0], result);
      if Refused(s) then f.(hands := f.hands - {worker})
      else Fleet(Apply(f.q, s), f.hands[worker := f.hands[worker][1..]])
    case Crash(worker) => f.(hands := f.hands - {worker})
    case RunOnce(_, _, _, _, end) => f.(q := end.q)
  }

  // ---------------------------------------------------------------- what workers hold

  /** The snapshot shows an attempt that was made: its token and its number. */
  ghost predicate Known(q: Tables, job: Snapshot) {
    exists i: nat :: HasToken(q, job.id, i, job.token) && q.attempts[job.id][i].number == job.attemptCount
  }

  ghost predicate HandsKnown(q: Tables, hands: map<WorkerId, seq<Snapshot>>) {
    forall w, i :: w in hands && 0 <= i < |hands[w]| ==> Known(q, hands[w][i])
  }

  ghost predicate FleetSound(f: Fleet) { Consistent(f.q) && HandsKnown(f.q, f.hands) }

  lemma KnownStays(q: Tables, r: Tables, job: Snapshot)
    requires HistoryKept(q, r) && Known(q, job)
    ensures Known(r, job)
  {
    var i: nat :| HasToken(q, job.id, i, job.token) && q.attempts[job.id][i].number == job.attemptCount;
    assert RowsKept(q.attempts[job.id], r.attempts[job.id]);
    assert RowKept(q.attempts[job.id][i], r.attempts[job.id][i]);
    assert HasToken(r, job.id, i, job.token);
  }

  lemma KnownQuotes(q: Tables, job: Snapshot)
    requires TokensUnique(q) && Known(q, job)
    ensures Quotes(q, job)
  {
  }

  /** What a claim hands out is known. */
  lemma ClaimedKnown(c: Config, q: Tables, start: nat, locked: set<JobId>, jobs: seq<Snapshot>, i: nat)
    requires Consistent(q) && Claimed(c, q, start, locked, jobs) && i < |jobs|
    ensures Known(Apply(q, ClaimOf(c, start, jobs)), jobs[i])
  {
    var m := Apply(q, ClaimOf(c, start, jobs));
    ClaimedQuotes(c, q, start, locked, jobs);
    assert HoldsLease(m, jobs[i].id, start + i) && Quotes(m, jobs[i]);
    var rows := m.attempts[jobs[i].id];
    assert JobConsistent(m.jobs[jobs[i].id], rows);
    assert HasToken(m, jobs[i].id, |rows| - 1, jobs[i].token);
  }

  // ---------------------------------------------------------------- runs of one after another

  /** Disciplined runs can be put one after another. */
  lemma {:induction false} LeadsAppend(c: Config, q: Tables, a: seq<Step>, m: Tables, b: seq<Step>, end: Tables)
    requires Leads(c, q, a, m) && Leads(c, m, b, end)
    ensures Leads(c, q, a + b, end)
    decreases |a|
  {
    if a == [] {
      assert a + b == b;
    } else {
      LeadsAppend(c, Apply(q, a[0]), a[1..], m, b, end);
      LeadsOneMore(c, q, a[0], a[1..] + b, end);
      assert [a[0]] + (a[1..] + b) == a + b;
    }
  }

  lemma LeadsStep(c: Config, q: Tables, s: Step)
    requires Consistent(q) && FromWorker(c, q, s)
    ensures Consistent(Apply(q, s)) && Leads(c, q, [s], Apply(q, s))
  {
    StepKeeps(q, s);
    assert [s][1..] == [];
  }

  /** Each move is a disciplined run of the queue. */
  lemma MoveLeads(c: Config, f: Fleet, m: Move)
    requires FleetSound(f) && Allowed(c, f, m)
    ensures Leads(c, f.q, StepsOf(c, f, m), Do(c, f, m).q)
  {
    match m
    case Arrive(id, eventId, kind, at) => LeadsStep(c, f.q, Enqueue(id, eventId, kind, at));
    case Wait(elapsed) => LeadsStep(c, f.q, Tick(elapsed));
    case Take(_, start, _, jobs) => LeadsStep(c, f.q, ClaimOf(c, start, jobs));
    case Report(worker, result) =>
      var job := f.hands[worker][0];
      assert Known(f.q, job);
      KnownQuotes(f.q, job);
      FirstIsDisciplined(c, f.q, job, HandlerRun(result, 0));
      if !Refused(ReportOf(c, job, result)) { LeadsStep(c, f.q, ReportOf(c, job, result)); }
    case Crash(_) =>
    case RunOnce(handlers, start, locked, jobs, end) => BatchIsDisciplined(c, handlers, f.q, start, locked, jobs, end);
  }

  lemma LeadsKeeps(c: Config, q: Tables, steps: seq<Step>, end: Tables)
    requires Consistent(q) && Leads(c, q, steps, end)
    ensures Consistent(end) && HistoryKept(q, end)
  {
    RunKeeps(q, steps);
    RunHistory(q, steps);
  }

  lemma MoveKeeps(c: Config, f: Fleet, m: Move)
    requires FleetSound(f) && Allowed(c, f, m)
    ensures FleetSound(Do(c, f, m))
  {
    var g := Do(c, f, m);
    MoveLeads(c, f, m);
    LeadsKeeps(c, f.q, StepsOf(c, f, m), g.q);
    forall w, i | w in g.hands && 0 <= i < |g.hands[w]| ensures Known(g.q, g.hands[w][i]) {
      if m.Take? && w == m.worker {
        ClaimedKnown(c, f.q, m.start, m.locked, m.jobs, i);
      } else {
        var k := StillHeld(c, f, m, w, i);
        KnownStays(f.q, g.q, f.hands[w][k]);
      }
    }
  }

  /** Only a claim puts jobs into a hand. */
  lemma StillHeld(c: Config, f: Fleet, m: Move, w: WorkerId, i: nat) returns (k: nat)
    requires SameKeys(f.q) && Allowed(c, f, m) && !(m.Take? && w == m.worker)
    requires w in Do(c, f, m).hands && i < |Do(c, f, m).hands[w]|
    ensures w in f.hands && k < |f.hands[w]| && f.hands[w][k] == Do(c, f, m).hands[w][i]
  {
    var taken := m.Report? && w == m.worker && !Refused(ReportOf(c, f.hands[w][0], m.result));
    k := if taken then i + 1 else i;
  }

  // ---------------------------------------------------------------- whole runs of the fleet

  ghost predicate FleetRun(c: Config, f: Fleet, moves: seq<Move>)
    requires SameKeys(f.q)
    decreases |moves|
  {
    moves != [] ==>
      Allowed(c, f, moves[0]) && SameKeys(Do(c, f, moves[0]).q) && FleetRun(c, Do(c, f, moves[0]), moves[1..])
  }

  ghost function RunFleet(c: Config, f: Fleet, moves: seq<Move>): Fleet
    requires SameKeys(f.q) && FleetRun(c, f, moves)
    decreases |moves|
  {
    if moves == [] then f else RunFleet(c, Do(c, f, moves[0]), moves[1..])
  }

  ghost function FleetSteps(c: Config, f: Fleet, moves: seq<Move>): seq<Step>
    requires SameKeys(f.q) && FleetRun(c, f, moves)
    decreases |moves|
  {
    if moves == [] then [] else StepsOf(c, f, moves[0]) + FleetSteps(c, Do(c, f, moves[0]), moves[1..])
  }

  lemma {:induction false} FleetLeads(c: Config, f: Fleet, moves: seq<Move>)
    requires FleetSound(f) && FleetRun(c, f, moves)
    ensures FleetSound(RunFleet(c, f, moves))
    ensures Leads(c, f.q, FleetSteps(c, f, moves), RunFleet(c, f, moves).q)
    decreases |moves|
  {
    if moves != [] {
      var g := Do(c, f, moves[0]);
      MoveLeads(c, f, moves[0]);
      MoveKeeps(c, f, moves[0]);
      FleetLeads(c, g, moves[1..]);
      LeadsAppend(c, f.q, StepsOf(c, f, moves[0]), g.q, FleetSteps(c, g, moves[1..]), RunFleet(c, g, moves[1..]).q);
    }
  }

  function Unmanned(now: int): Fleet { Fleet(EmptyTables(now), map[]) }

  /** From an empty queue, any interleaving of arrivals, waiting, claims, reports, crashes and whole batches is
      a disciplined run to the same tables. */
  lemma FleetIsDisciplined(c: Config, now: int, moves: seq<Move>)
    requires FleetRun(c, Unmanned(now), moves)
    ensures var steps := FleetSteps(c, Unmanned(now), moves);
      && DisciplinedRun(c, EmptyTables(now), steps)
      && Outcomes(c, now, steps).q == RunFleet(c, Unmanned(now), moves).q
  {
    var steps := FleetSteps(c, Unmanned(now), moves);
    FleetLeads(c, Unmanned(now), moves);
    DisciplinedIsWorkerRun(c, EmptyTables(now), steps);
    ReplayIsRun(NoHistory(now), steps);
  }

  /** However the workers interleave and die, a job's attempt_count exceeds max_attempts by no more than the
      leases it lost. */
  lemma FleetAttemptsBounded(c: Config, now: int, moves: seq<Move>, id: JobId)
    requires c.maxAttempts >= 1 && FleetRun(c, Unmanned(now), moves)
    requires var q := RunFleet(c, Unmanned(now), moves).q; id in q.jobs && id in q.attempts
    ensures var q := RunFleet(c, Unmanned(now), moves).q;
      q.jobs[id].attemptCount <= c.maxAttempts + LostLeases(q.attempts[id])
  {
    FleetIsDisciplined(c, now, moves);
    AttemptsBounded(c, now, FleetSteps(c, Unmanned(now), moves), id);
  }

  /** While no lease is lost, the workers together make at most max_attempts handler calls per job. */
  lemma FleetCallsBounded(c: Config, now: int, moves: seq<Move>)
    requires c.maxAttempts >= 1 && FleetRun(c, Unmanned(now), moves)
    requires NothingLost(RunFleet(c, Unmanned(now), moves).q)
    ensures var q := RunFleet(c, Unmanned(now), moves).q;
      SumOver(q.jobs.Keys, AttemptsOf(q)) <= |q.jobs| * c.maxAttempts
  {
    FleetIsDisciplined(c, now, moves);
    CallsBounded(c, now, FleetSteps(c, Unmanned(now), moves));
  }

  /** However the workers interleave, a job's later attempt starts only after a lost lease, or after the backoff
      of a retried attempt. */
  lemma FleetWaitsBackoff(c: Config, now: int, moves: seq<Move>, id: JobId, i: nat, k: nat)
    requires FleetRun(c, Unmanned(now), moves)
    requires var q := RunFleet(c, Unmanned(now), moves).q; id in q.jobs && id in q.attempts && i < k < |q.attempts[id]|
    ensures var rows := RunFleet(c, Unmanned(now), moves).q.attempts[id];
      && (rows[i].outcome == Some(LeaseLost) ||
          (&& rows[i].outcome == Some(RetryLater) && rows[i].finishedAt.Some? && i + 1 < c.maxAttempts
           && rows[k].startedAt >= rows[i].finishedAt.value + Max(0, Backoff(c, i + 1))))
  {
    FleetIsDisciplined(c, now, moves);
    RetryWaitsBackoff(c, now, FleetSteps(c, Unmanned(now), moves), id, i, k);
  }

  /** However the workers interleave and die, what they leave is a queue that one worker's main loop drains:
      every job is finished, or may be tried again, or is leased until a time that will come. */
  lemma FleetLeavesFree(c: Config, now: int, moves: seq<Move>)
    requires c.maxAttempts >= 1 && FleetRun(c, Unmanned(now), moves)
    ensures AllFree(c, RunFleet(c, Unmanned(now), moves).q)
  {
    FleetIsDisciplined(c, now, moves);
    var h := Outcomes(c, now, FleetSteps(c, Unmanned(now), moves));
    RunByPolicy(c, NoHistory(now), FleetSteps(c, Unmanned(now), moves));
    forall id | id in h.q.jobs ensures Free(c, h.q.jobs[id]) { PolicyLeavesFree(c, h, id); }
  }

  lemma PolicyLeavesFree(c: Config, h: History, id: JobId)
    requires c.maxAttempts >= 1 && ByPolicy(c, h) && id in h.q.jobs
    ensures Free(c, h.q.jobs[id])
  {
    var job, rows := h.q.jobs[id], h.q.attempts[id];
    assert JobConsistent(job, rows) && RetriesByPolicy(c, rows, h.delays);
    assert Scheduled(job, rows, h.q.now, h.granted, h.delays);
  }
}
