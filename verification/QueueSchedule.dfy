/** When attempts may start. Runs carry two history maps the tables do not keep: how many seconds each
    token was granted, and how long each retry was put off. Runs here use claim, finish, enqueue and
    the clock; `outcomeos_lease_lost` has no caller in the worker and is not among them. */
module QueueSchedule {
  import opened Basics
  import opened Queue
  import opened QueueInvariant

  datatype History = History(q: Tables, granted: map<Token, nat>, delays: map<Token, nat>)

  // ---------------------------------------------------------------- a batch claim, seen from one job

  /** What the batch does to its k-th job is what claiming that job alone would do. */
  lemma {:induction false} ClaimAllAt(q: Tables, ids: seq<JobId>, lease: int, tokens: seq<Token>, k: nat)
    requires SameKeys(q) && Enabled(q, Claim(ids, lease, tokens)) && k < |ids|
    ensures Eligible(q, ids[k])
    ensures Frozen(ClaimOne(q, ids[k], lease, tokens[k]), ClaimAll(q, ids, lease, tokens), ids[k])
    decreases |ids|
  {
    assert Eligible(q, ids[0]) && Eligible(q, ids[k]);
    var m := ClaimOne(q, ids[0], lease, tokens[0]);
    ClaimHeadTail(q, ids, lease, tokens);
    if k == 0 {
      assert ids[0] !in ids[1..];
      ClaimAllFrame(m, ids[1..], lease, tokens[1..], ids[0]);
    } else {
      assert ids[0] != ids[k] && ids[1..][k - 1] == ids[k] && tokens[1..][k - 1] == tokens[k];
      ClaimAllAt(m, ids[1..], lease, tokens[1..], k - 1);
      assert Frozen(ClaimOne(q, ids[k], lease, tokens[k]), ClaimOne(m, ids[k], lease, tokens[k]), ids[k]);
    }
  }

  // ---------------------------------------------------------------- the schedule of one job

  /** The earliest start of the attempt that follows `a`: its finish plus the scheduled delay after a
      retry, its start plus the granted lease after a lost lease. */
  function EarliestNext(a: Attempt, granted: map<Token, nat>, delays: map<Token, nat>): int
    requires a.token in granted && (a.outcome == Some(RetryLater) ==> a.finishedAt.Some? && a.token in delays)
  {
    if a.outcome == Some(RetryLater) then a.finishedAt.value + delays[a.token]
    else a.startedAt + granted[a.token]
  }

  ghost predicate RowTimed(a: Attempt, now: int, granted: map<Token, nat>, delays: map<Token, nat>) {
    && a.token in granted && granted[a.token] >= 1
    && a.startedAt <= now
    && (a.finishedAt.Some? ==> a.startedAt <= a.finishedAt.value <= now)
    && (a.outcome == Some(RetryLater) ==> a.finishedAt.Some? && a.token in delays)
  }

  ghost predicate Scheduled(job: Job, rows: seq<Attempt>, now: int, granted: map<Token, nat>, delays: map<Token, nat>) {
    && (forall i :: 0 <= i < |rows| ==> RowTimed(rows[i], now, granted, delays))
    && (forall i :: 0 <= i < |rows| - 1 ==>
          && (rows[i].outcome == Some(RetryLater) || rows[i].outcome == Some(LeaseLost))
          && EarliestNext(rows[i], granted, delays) <= rows[i + 1].startedAt)
    && (rows == [] <==> job.state == Pending)
    && (rows != [] ==> var last := rows[|rows| - 1];
        match job.state
        case Leased => last.outcome.None? && job.leaseExpiresAt == Some(last.startedAt + granted[last.token])
        case Retrying =>
          last.outcome == Some(RetryLater) && job.availableAt == EarliestNext(last, granted, delays) && job.lastError == last.error
        case Completed => last.outcome == Some(Succeeded) && Shown(job, last)
        case Dead => last.outcome == Some(GaveUp) && Shown(job, last)
        case Pending => false)
    && (job.completedAt.Some? ==> job.state == Completed || job.state == Dead)
  }

  /** The job row shows when its last attempt finished and with which error code. */
  predicate Shown(job: Job, last: Attempt) {
    job.completedAt.Some? && job.completedAt == last.finishedAt && job.lastError == last.error
  }

  ghost predicate OnSchedule(h: History) {
    && Consistent(h.q)
    && forall id :: id in h.q.jobs ==> Scheduled(h.q.jobs[id], h.q.attempts[id], h.q.now, h.granted, h.delays)
  }

  // ---------------------------------------------------------------- steps over histories

  ghost predicate WorkerStep(q: Tables, s: Step) { Enabled(q, s) && !s.LostCall? }

  ghost function Record(h: History, s: Step): History
    requires SameKeys(h.q) && WorkerStep(h.q, s)
  {
    History(
      Apply(h.q, s),
      if s.Claim? then h.granted + (map t | t in s.tokens :: ClampLease(s.lease)) else h.granted,
      if s.Finish? && s.outcome == RetryLater && HoldsLease(h.q, s.job, s.token)
      then h.delays[s.token := Max(0, s.delay)] else h.delays)
  }

  lemma LaterStays(job: Job, rows: seq<Attempt>, now: int, later: int, granted: map<Token, nat>, delays: map<Token, nat>)
    requires Scheduled(job, rows, now, granted, delays) && now <= later
    ensures Scheduled(job, rows, later, granted, delays)
  {
    forall i | 0 <= i < |rows| ensures RowTimed(rows[i], later, granted, delays) { assert RowTimed(rows[i], now, granted, delays); }
  }

  lemma FreshTokenIsNotOld(q: Tables, id: JobId, i: nat, token: Token)
    requires id in q.attempts && i < |q.attempts[id]| && !Issued(q, token)
    ensures q.attempts[id][i].token != token
  {
    assert HasToken(q, id, i, q.attempts[id][i].token);
  }

  /** What the attempts in `rows` were granted is the same in both maps. */
  ghost predicate SameGrants(rows: seq<Attempt>, before: map<Token, nat>, after: map<Token, nat>) {
    forall i :: 0 <= i < |rows| && rows[i].token in before ==>
      rows[i].token in after && after[rows[i].token] == before[rows[i].token]
  }

  /** Granting fresh tokens leaves what older attempts were granted alone. */
  lemma GrantsKeepOld(q: Tables, id: JobId, tokens: seq<Token>, lease: nat, granted: map<Token, nat>)
    requires id in q.attempts && forall i :: 0 <= i < |tokens| ==> !Issued(q, tokens[i])
    ensures SameGrants(q.attempts[id], granted, granted + (map t | t in tokens :: lease))
  {
    var rows := q.attempts[id];
    forall i | 0 <= i < |rows| && rows[i].token in tokens ensures false {
      var k :| 0 <= k < |tokens| && tokens[k] == rows[i].token;
      FreshTokenIsNotOld(q, id, i, tokens[k]);
    }
  }

  lemma ScheduledStays(job: Job, rows: seq<Attempt>, now: int, before: map<Token, nat>, after: map<Token, nat>, delays: map<Token, nat>)
    requires Scheduled(job, rows, now, before, delays) && SameGrants(rows, before, after)
    ensures Scheduled(job, rows, now, after, delays)
  {
    forall i | 0 <= i < |rows| ensures RowTimed(rows[i], now, after, delays) { assert RowTimed(rows[i], now, before, delays); }
  }

  lemma ClaimSchedules(h: History, ids: seq<JobId>, lease: int, tokens: seq<Token>, id: JobId)
    requires OnSchedule(h) && Enabled(h.q, Claim(ids, lease, tokens)) && id in h.q.jobs
    ensures var r := Record(h, Claim(ids, lease, tokens));
      id in r.q.jobs && id in r.q.attempts
      && Scheduled(r.q.jobs[id], r.q.attempts[id], r.q.now, r.granted, r.delays)
  {
    var r := Record(h, Claim(ids, lease, tokens));
    assert Scheduled(h.q.jobs[id], h.q.attempts[id], h.q.now, r.granted, r.delays) by {
      GrantsKeepOld(h.q, id, tokens, ClampLease(lease), h.granted);
      ScheduledStays(h.q.jobs[id], h.q.attempts[id], h.q.now, h.granted, r.granted, h.delays);
    }
    if id in ids {
      var k :| 0 <= k < |ids| && ids[k] == id;
      ClaimAllAt(h.q, ids, lease, tokens, k);
      assert tokens[k] in tokens && JobConsistent(h.q.jobs[id], h.q.attempts[id]);
      ClaimedRowScheduled(h.q, id, lease, tokens[k], r.granted, r.delays);
    } else {
      ClaimAllFrame(h.q, ids, lease, tokens, id);
    }
  }

  /** The new attempt starts when the previous one allows it: an eligible retry has passed its
      available_at, a superseded lease has passed its expiry. */
  lemma ClaimedRowScheduled(q: Tables, id: JobId, lease: int, token: Token, granted: map<Token, nat>, delays: map<Token, nat>)
    requires id in q.jobs && id in q.attempts && JobConsistent(q.jobs[id], q.attempts[id]) && Eligible(q, id)
    requires Scheduled(q.jobs[id], q.attempts[id], q.now, granted, delays)
    requires token in granted && granted[token] == ClampLease(lease)
    ensures var r := ClaimOne(q, id, lease, token); Scheduled(r.jobs[id], r.attempts[id], r.now, granted, delays)
  {
    var r := ClaimOne(q, id, lease, token);
    var old_, rows := q.attempts[id], r.attempts[id];
    forall i | 0 <= i < |rows| ensures RowTimed(rows[i], r.now, granted, delays) {
      if i < |old_| { assert RowTimed(old_[i], q.now, granted, delays); }
    }
    forall i | 0 <= i < |rows| - 1
      ensures rows[i].outcome == Some(RetryLater) || rows[i].outcome == Some(LeaseLost)
      ensures EarliestNext(rows[i], granted, delays) <= rows[i + 1].startedAt
    {
      assert RowTimed(rows[i], r.now, granted, delays);
      assert RowTimed(old_[i], q.now, granted, delays);
    }
  }

  lemma FinishedRowScheduled(
      job: Job, old_: seq<Attempt>, now: int, token: Token, outcome: Outcome, error: Option<string>, delay: int,
      granted: map<Token, nat>, before: map<Token, nat>, after: map<Token, nat>)
    requires JobConsistent(job, old_) && Scheduled(job, old_, now, granted, before)
    requires job.state == Leased && job.leaseToken == Some(token) && outcome != LeaseLost
    requires forall i :: 0 <= i < |old_| - 1 ==> old_[i].token != token
    requires after == if outcome == RetryLater then before[token := Max(0, delay)] else before
    ensures Scheduled(FinishedRow(job, now, outcome, error, delay), CloseRows(old_, token, now, outcome, error), now, granted, after)
  {
    var rows := CloseRows(old_, token, now, outcome, error);
    forall i | 0 <= i < |rows| ensures RowTimed(rows[i], now, granted, after) {
      assert RowTimed(old_[i], now, granted, before);
    }
    forall i | 0 <= i < |rows| - 1
      ensures EarliestNext(rows[i], granted, after) <= rows[i + 1].startedAt
    {
      assert RowTimed(rows[i], now, granted, after) && RowTimed(old_[i], now, granted, before);
      assert rows[i] == old_[i] && rows[i + 1].startedAt == old_[i + 1].startedAt;
    }
  }

  /** The token a finish quotes belongs to the last attempt of the job that holds it, and to no other. */
  lemma HeldTokenIsLast(q: Tables, held: JobId, token: Token, id: JobId, i: nat)
    requires Consistent(q) && HoldsLease(q, held, token) && id in q.attempts && i < |q.attempts[id]|
    requires id != held || i < |q.attempts[id]| - 1
    ensures q.attempts[id][i].token != token
  {
    assert JobConsistent(q.jobs[held], q.attempts[held]);
    assert HasToken(q, held, |q.attempts[held]| - 1, token);
    assert HasToken(q, id, i, q.attempts[id][i].token);
  }

  /** The delay of one job's retry is no other job's. */
  lemma DelaysKeepOthers(q: Tables, held: JobId, token: Token, id: JobId, delays: map<Token, nat>, delay: nat)
    requires Consistent(q) && HoldsLease(q, held, token) && id in q.attempts && id != held
    ensures SameGrants(q.attempts[id], delays, delays[token := delay])
  {
    var rows := q.attempts[id];
    forall i | 0 <= i < |rows| ensures rows[i].token != token { HeldTokenIsLast(q, held, token, id, i); }
  }

  lemma DelayedStays(job: Job, rows: seq<Attempt>, now: int, granted: map<Token, nat>, before: map<Token, nat>, after: map<Token, nat>)
    requires Scheduled(job, rows, now, granted, before) && SameGrants(rows, before, after)
    ensures Scheduled(job, rows, now, granted, after)
  {
    forall i | 0 <= i < |rows| ensures RowTimed(rows[i], now, granted, after) { assert RowTimed(rows[i], now, granted, before); }
  }

  lemma FinishKeepsOthers(h: History, s: Step, id: JobId)
    requires OnSchedule(h) && WorkerStep(h.q, s) && s.Finish? && id in h.q.jobs
    requires HoldsLease(h.q, s.job, s.token) ==> id != s.job
    ensures var r := Record(h, s); Scheduled(h.q.jobs[id], h.q.attempts[id], r.q.now, r.granted, r.delays)
  {
    var after := Record(h, s).delays;
    if HoldsLease(h.q, s.job, s.token) { DelaysKeepOthers(h.q, s.job, s.token, id, h.delays, Max(0, s.delay)); }
    assert SameGrants(h.q.attempts[id], h.delays, after);
    DelayedStays(h.q.jobs[id], h.q.attempts[id], h.q.now, h.granted, h.delays, after);
  }

  lemma FinishSchedules(h: History, s: Step, id: JobId)
    requires OnSchedule(h) && WorkerStep(h.q, s) && s.Finish? && id in h.q.jobs
    ensures var r := Record(h, s);
      id in r.q.jobs && id in r.q.attempts
      && Scheduled(r.q.jobs[id], r.q.attempts[id], r.q.now, r.granted, r.delays)
  {
    var r, rows := Record(h, s), h.q.attempts[id];
    if HoldsLease(h.q, s.job, s.token) && id == s.job {
      forall i | 0 <= i < |rows| - 1 ensures rows[i].token != s.token {
        HeldTokenIsLast(h.q, id, s.token, id, i);
      }
      FinishedRowScheduled(h.q.jobs[id], rows, h.q.now, s.token, s.outcome, s.error, s.delay, h.granted, h.delays, r.delays);
    } else {
      FinishKeepsOthers(h, s, id);
    }
  }

  lemma StepSchedules(h: History, s: Step, id: JobId)
    requires OnSchedule(h) && WorkerStep(h.q, s) && id in h.q.jobs
    ensures var r := Record(h, s);
      id in r.q.jobs && id in r.q.attempts
      && Scheduled(r.q.jobs[id], r.q.attempts[id], r.q.now, r.granted, r.delays)
  {
    if s.Claim? {
      ClaimSchedules(h, s.ids, s.lease, s.tokens, id);
    } else if s.Finish? {
      FinishSchedules(h, s, id);
    } else {
      LaterStays(h.q.jobs[id], h.q.attempts[id], h.q.now, Record(h, s).q.now, h.granted, h.delays);
    }
  }

  lemma StepOnSchedule(h: History, s: Step)
    requires OnSchedule(h) && WorkerStep(h.q, s)
    ensures OnSchedule(Record(h, s))
  {
    var r := Record(h, s);
    assert Consistent(r.q) by { StepKeeps(h.q, s); }
    forall id | id in r.q.jobs ensures Scheduled(r.q.jobs[id], r.q.attempts[id], r.q.now, r.granted, r.delays) {
      if id in h.q.jobs { StepSchedules(h, s, id); }
    }
  }

  // ---------------------------------------------------------------- whole runs

  ghost predicate WorkerRun(q: Tables, steps: seq<Step>)
    requires SameKeys(q)
    decreases |steps|
  {
    steps != [] ==>
      WorkerStep(q, steps[0]) && SameKeys(Apply(q, steps[0])) && WorkerRun(Apply(q, steps[0]), steps[1..])
  }

  ghost function Replay(h: History, steps: seq<Step>): History
    requires SameKeys(h.q) && WorkerRun(h.q, steps)
    decreases |steps|
  {
    if steps == [] then h else Replay(Record(h, steps[0]), steps[1..])
  }

  function NoHistory(now: int): History { History(EmptyTables(now), map[], map[]) }

  lemma {:induction false} ReplayOnSchedule(h: History, steps: seq<Step>)
    requires OnSchedule(h) && WorkerRun(h.q, steps)
    ensures OnSchedule(Replay(h, steps))
    decreases |steps|
  {
    if steps != [] {
      StepOnSchedule(h, steps[0]);
      ReplayOnSchedule(Record(h, steps[0]), steps[1..]);
    }
  }

  /** The history maps only watch: the tables evolve exactly as in the plain run. */
  lemma {:induction false} ReplayIsRun(h: History, steps: seq<Step>)
    requires SameKeys(h.q) && WorkerRun(h.q, steps)
    ensures ValidRun(h.q, steps) && Replay(h, steps).q == Run(h.q, steps)
    decreases |steps|
  {
    if steps != [] {
      ReplayIsRun(Record(h, steps[0]), steps[1..]);
    }
  }

  /** From one attempt to any later one of the same job. */
  lemma {:induction false} LaterStart(job: Job, rows: seq<Attempt>, h: History, i: nat, k: nat)
    requires Scheduled(job, rows, h.q.now, h.granted, h.delays) && i < k < |rows|
    ensures RowTimed(rows[i], h.q.now, h.granted, h.delays)
    ensures EarliestNext(rows[i], h.granted, h.delays) <= rows[k].startedAt
    decreases k
  {
    assert RowTimed(rows[i], h.q.now, h.granted, h.delays);
    if k > i + 1 {
      LaterStart(job, rows, h, i, k - 1);
      assert RowTimed(rows[k - 1], h.q.now, h.granted, h.delays);
    }
  }

  /** Attempt `i` holds the job's lease at time `t`: started, not expired, not reported finished. */
  ghost predicate InForce(h: History, id: JobId, i: nat, t: int)
    requires id in h.q.attempts && i < |h.q.attempts[id]|
  {
    var a := h.q.attempts[id][i];
    && a.token in h.granted && a.startedAt <= t < a.startedAt + h.granted[a.token]
    && (a.finishedAt.Some? ==> t < a.finishedAt.value)
  }

  /** In every run, no job has two unexpired leases at any instant, a retry starts no earlier than the
      finish plus its scheduled delay, and a lost lease is replaced no earlier than its own end. */
  lemma LeasesNeverOverlap(now: int, steps: seq<Step>, id: JobId, i: nat, k: nat, t: int)
    requires WorkerRun(EmptyTables(now), steps)
    requires var q := Replay(NoHistory(now), steps).q; id in q.jobs && id in q.attempts && i < k < |q.attempts[id]|
    ensures var h := Replay(NoHistory(now), steps);
      var a, b := h.q.attempts[id][i], h.q.attempts[id][k];
      && (a.outcome == Some(RetryLater) || a.outcome == Some(LeaseLost))
      && (a.outcome == Some(RetryLater) ==>
            a.finishedAt.Some? && a.token in h.delays && b.startedAt >= a.finishedAt.value + h.delays[a.token])
      && (a.outcome == Some(LeaseLost) ==>
            a.token in h.granted && b.startedAt >= a.startedAt + h.granted[a.token])
      && !(InForce(h, id, i, t) && InForce(h, id, k, t))
  {
    var h := Replay(NoHistory(now), steps);
    ReplayOnSchedule(NoHistory(now), steps);
    LaterStart(h.q.jobs[id], h.q.attempts[id], h, i, k);
  }

  /** A completed job has exactly one succeeded attempt, its last; the earlier ones were retried or lost. */
  lemma CompletedOnce(now: int, steps: seq<Step>, id: JobId)
    requires WorkerRun(EmptyTables(now), steps)
    requires var q := Replay(NoHistory(now), steps).q;
      id in q.jobs && id in q.attempts && (q.jobs[id].state == Completed || q.jobs[id].state == Dead)
    ensures var q := Replay(NoHistory(now), steps).q; var rows := q.attempts[id];
      && rows != []
      && rows[|rows| - 1].outcome == Some(if q.jobs[id].state == Completed then Succeeded else GaveUp)
      && Shown(q.jobs[id], rows[|rows| - 1])
      && forall i :: 0 <= i < |rows| - 1 ==> rows[i].outcome == Some(RetryLater) || rows[i].outcome == Some(LeaseLost)
  {
    ReplayOnSchedule(NoHistory(now), steps);
    var q := Replay(NoHistory(now), steps).q;
    assert Scheduled(q.jobs[id], q.attempts[id], q.now, Replay(NoHistory(now), steps).granted, Replay(NoHistory(now), steps).delays);
  }
}
