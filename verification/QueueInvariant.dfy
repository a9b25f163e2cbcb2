/** What every interleaving of enqueue, claim, finish, lease-lost and clock steps keeps. */
module QueueInvariant {
  import opened Basics
  import opened Queue

  /** One job and its attempts: numbered 1..attempt_count, only the last may be open, and an open
      one is the current lease. A row that is not leased carries no token and no expiry. */
  ghost predicate JobConsistent(job: Job, rows: seq<Attempt>) {
    && |rows| == job.attemptCount
    && (forall i :: 0 <= i < |rows| ==> rows[i].number == i + 1)
    && (forall i :: 0 <= i < |rows| ==> (rows[i].finishedAt.None? <==> rows[i].outcome.None?))
    && (forall i :: 0 <= i < |rows| && rows[i].finishedAt.None? ==> rows[i].error.None?)
    && (forall i :: 0 <= i < |rows| && rows[i].finishedAt.None? ==>
          i == |rows| - 1 && job.state == Leased && job.leaseToken == Some(rows[i].token))
    && (job.state == Leased ==>
          job.leaseExpiresAt.Some? && |rows| > 0 && job.leaseToken == Some(rows[|rows| - 1].token))
    && (job.state != Leased ==> job.leaseToken.None? && job.leaseExpiresAt.None?)
  }

  /** No lease token is ever issued twice, within a job or across jobs. */
  ghost predicate TokensUnique(q: Tables) {
    forall token, a, i, b, j ::
      HasToken(q, a, i, token) && HasToken(q, b, j, token) ==> a == b && i == j
  }

  ghost predicate Consistent(q: Tables) {
    && SameKeys(q)
    && (forall id :: id in q.jobs ==> JobConsistent(q.jobs[id], q.attempts[id]))
    && TokensUnique(q)
  }

  /** The reconciliation query inconsistent_attempt: an open attempt of a job that is not leased. */
  ghost predicate InconsistentAttempt(q: Tables, id: JobId, i: nat)
  {
    id in q.jobs && id in q.attempts && i < |q.attempts[id]|
    && q.attempts[id][i].finishedAt.None? && q.jobs[id].state != Leased
  }

  /** A step that only adds attempts with fresh tokens keeps tokens unique. */
  lemma TokensStayUnique(q: Tables, r: Tables, id: JobId, newToken: Token)
    requires TokensUnique(q) && !Issued(q, newToken)
    requires forall a, i, token :: HasToken(r, a, i, token) ==>
      HasToken(q, a, i, token) || (a == id && id in q.attempts && i == |q.attempts[id]| && token == newToken)
    ensures TokensUnique(r)
  {
    forall token, a, i, b, j | HasToken(r, a, i, token) && HasToken(r, b, j, token)
      ensures a == b && i == j
    {
      assert HasToken(q, a, i, token) || token == newToken;
      assert HasToken(q, b, j, token) || token == newToken;
    }
  }

  lemma ClaimedConsistent(q: Tables, id: JobId, lease: int, token: Token)
    requires id in q.jobs && id in q.attempts && JobConsistent(q.jobs[id], q.attempts[id])
    ensures var r := ClaimOne(q, id, lease, token); JobConsistent(r.jobs[id], r.attempts[id])
  {
  }

  lemma ClaimOneKeeps(q: Tables, id: JobId, lease: int, token: Token)
    requires Consistent(q) && id in q.jobs && !Issued(q, token)
    ensures Consistent(ClaimOne(q, id, lease, token))
  {
    var r := ClaimOne(q, id, lease, token);
    ClaimedConsistent(q, id, lease, token);
    TokensStayUnique(q, r, id, token);
  }

  /** The step keeps rows and only re-uses tokens already issued to the same attempt. */
  ghost predicate NoNewTokens(q: Tables, r: Tables) {
    forall a, i, token :: HasToken(r, a, i, token) ==> HasToken(q, a, i, token)
  }

  lemma TokensOnlyKept(q: Tables, r: Tables)
    requires TokensUnique(q) && NoNewTokens(q, r)
    ensures TokensUnique(r)
  {
    forall token, a, i, b, j | HasToken(r, a, i, token) && HasToken(r, b, j, token)
      ensures a == b && i == j
    {
      assert HasToken(q, a, i, token) && HasToken(q, b, j, token);
    }
  }

  lemma FinishKeeps(q: Tables, id: JobId, token: Token, outcome: Outcome, error: Option<string>, delay: int)
    requires Consistent(q) && ValidFinish(outcome, error)
    ensures Consistent(FinishJob(q, id, token, outcome, error, delay))
    ensures NoNewTokens(q, FinishJob(q, id, token, outcome, error, delay))
  {
    var r := FinishJob(q, id, token, outcome, error, delay);
    if HoldsLease(q, id, token) {
      ClosedConsistent(q.jobs[id], q.attempts[id], token, q.now, outcome, error, delay);
      RowsReplaced(q, r, id, r.attempts[id]);
    }
  }

  lemma ClosedConsistent(
      job: Job, rows: seq<Attempt>, token: Token, now: int, outcome: Outcome, error: Option<string>, delay: int)
    requires JobConsistent(job, rows) && job.state == Leased && job.leaseToken == Some(token)
    ensures JobConsistent(FinishedRow(job, now, outcome, error, delay), CloseRows(rows, token, now, outcome, error))
  {
  }

  lemma LostConsistent(job: Job, rows: seq<Attempt>, token: Token, now: int)
    requires JobConsistent(job, rows)
    ensures JobConsistent(job, LoseRows(rows, token, now))
  {
  }

  /** Rewriting the attempts of one job in place, tokens apart, issues nothing. */
  lemma RowsReplaced(q: Tables, r: Tables, id: JobId, rows: seq<Attempt>)
    requires TokensUnique(q) && id in q.attempts && r.attempts == q.attempts[id := rows]
    requires |rows| == |q.attempts[id]| && forall i :: 0 <= i < |rows| ==> rows[i].token == q.attempts[id][i].token
    ensures TokensUnique(r) && NoNewTokens(q, r)
  {
    forall a, i, token | HasToken(r, a, i, token) ensures HasToken(q, a, i, token) {
      assert a != id ==> r.attempts[a] == q.attempts[a];
    }
    TokensOnlyKept(q, r);
  }

  lemma LostCallKeeps(q: Tables, id: JobId, token: Token)
    requires Consistent(q)
    ensures Consistent(LoseLease(q, id, token)) && NoNewTokens(q, LoseLease(q, id, token))
  {
    var r := LoseLease(q, id, token);
    if id in q.attempts {
      LostConsistent(q.jobs[id], q.attempts[id], token, q.now);
      RowsReplaced(q, r, id, r.attempts[id]);
    }
  }

  // ---------------------------------------------------------------- a batch claim, row by row

  /** After one row is claimed the rest of the batch is still claimable. */
  lemma ClaimHeadTail(q: Tables, ids: seq<JobId>, lease: int, tokens: seq<Token>)
    requires SameKeys(q) && ids != [] && Enabled(q, Claim(ids, lease, tokens))
    ensures Enabled(ClaimOne(q, ids[0], lease, tokens[0]), Claim(ids[1..], lease, tokens[1..]))
  {
    var r := ClaimOne(q, ids[0], lease, tokens[0]);
    assert forall i :: 0 <= i < |ids| - 1 ==> ids[1..][i] == ids[i + 1] && tokens[1..][i] == tokens[i + 1];
    forall i | 0 <= i < |ids| - 1
      ensures Eligible(r, ids[1..][i]) && !Issued(r, tokens[1..][i])
    {
      assert Eligible(q, ids[i + 1]) && ids[i + 1] != ids[0];
      assert !Issued(q, tokens[i + 1]) && tokens[i + 1] != tokens[0];
      var token := tokens[i + 1];
      forall a, n | HasToken(r, a, n, token) ensures false {
        assert HasToken(q, a, n, token);
      }
    }
  }

  lemma {:induction false} ClaimAllKeeps(q: Tables, ids: seq<JobId>, lease: int, tokens: seq<Token>)
    requires Consistent(q) && Enabled(q, Claim(ids, lease, tokens))
    ensures Consistent(ClaimAll(q, ids, lease, tokens))
    decreases |ids|
  {
    if ids != [] {
      assert Eligible(q, ids[0]) && !Issued(q, tokens[0]);
      ClaimOneKeeps(q, ids[0], lease, tokens[0]);
      ClaimHeadTail(q, ids, lease, tokens);
      ClaimAllKeeps(ClaimOne(q, ids[0], lease, tokens[0]), ids[1..], lease, tokens[1..]);
    }
  }

  // ---------------------------------------------------------------- every step, every run

  lemma StepKeeps(q: Tables, s: Step)
    requires Consistent(q) && Enabled(q, s)
    ensures Consistent(Apply(q, s))
  {
    match s
    case Enqueue(id, eventId, kind, at) =>
      var r := Apply(q, s);
      TokensOnlyKept(q, r);
    case Claim(ids, lease, tokens) => ClaimAllKeeps(q, ids, lease, tokens);
    case Finish(id, token, outcome, error, delay) => FinishKeeps(q, id, token, outcome, error, delay);
    case LostCall(id, token) => LostCallKeeps(q, id, token);
    case Tick(elapsed) =>
      TokensOnlyKept(q, Apply(q, s));
  }

  /** Any interleaving of the five steps keeps both tables consistent. */
  lemma {:induction false} RunKeeps(q: Tables, steps: seq<Step>)
    requires Consistent(q) && ValidRun(q, steps)
    ensures Consistent(Run(q, steps))
    decreases |steps|
  {
    if steps != [] {
      StepKeeps(q, steps[0]);
      RunKeeps(Apply(q, steps[0]), steps[1..]);
    }
  }

  function EmptyTables(now: int): Tables { Tables(now, map[], map[]) }

  /** In every reachable state attempts are numbered 1..attempt_count under distinct tokens, at most
      the last is open, an open one is the lease in force, and inconsistent_attempt finds nothing. */
  lemma ReachableAttempts(now: int, steps: seq<Step>, id: JobId)
    requires ValidRun(EmptyTables(now), steps)
    requires id in Run(EmptyTables(now), steps).jobs
    ensures var q := Run(EmptyTables(now), steps); var job, rows := q.jobs[id], q.attempts[id];
      && |rows| == job.attemptCount
      && (forall i :: 0 <= i < |rows| ==> rows[i].number == i + 1)
      && (forall i, j :: 0 <= i < j < |rows| ==> rows[i].token != rows[j].token)
      && (forall i :: 0 <= i < |rows| && rows[i].finishedAt.None? ==>
            i == |rows| - 1 && job.state == Leased && job.leaseToken == Some(rows[i].token))
      && (forall i: nat :: !InconsistentAttempt(q, id, i))
  {
    RunKeeps(EmptyTables(now), steps);
    var q := Run(EmptyTables(now), steps);
    var rows := q.attempts[id];
    assert JobConsistent(q.jobs[id], rows);
    forall i, j | 0 <= i < j < |rows| ensures rows[i].token != rows[j].token {
      assert HasToken(q, id, i, rows[i].token) && HasToken(q, id, j, rows[j].token);
    }
  }

  // ---------------------------------------------------------------- history is append-only

  /** The trigger outcomeos_finalize_attempt_only lets this update through. */
  predicate TriggerAccepts(old_: Attempt, new_: Attempt) {
    && old_.number == new_.number && old_.token == new_.token && old_.startedAt == new_.startedAt
    && old_.finishedAt.None? && old_.outcome.None? && old_.error.None?
    && new_.finishedAt.Some? && new_.outcome.Some?
  }

  predicate RowKept(old_: Attempt, new_: Attempt) { old_ == new_ || TriggerAccepts(old_, new_) }

  ghost predicate RowsKept(old_: seq<Attempt>, new_: seq<Attempt>) {
    |old_| <= |new_| && forall i :: 0 <= i < |old_| ==> RowKept(old_[i], new_[i])
  }

  /** Every attempt of `q` is still in `r`, in place, unchanged or finalized once. */
  ghost predicate HistoryKept(q: Tables, r: Tables) {
    forall id :: id in q.attempts ==> id in r.attempts && RowsKept(q.attempts[id], r.attempts[id])
  }

  lemma ClaimOneHistory(q: Tables, id: JobId, lease: int, token: Token)
    requires Consistent(q) && id in q.jobs
    ensures HistoryKept(q, ClaimOne(q, id, lease, token))
  {
    var job, rows := q.jobs[id], q.attempts[id];
    if job.leaseToken.Some? { LosingHistory(job, rows, job.leaseToken.value, q.now); }
    assert RowsKept(rows, ClaimOne(q, id, lease, token).attempts[id]);
  }

  lemma HistoryTransitive(q: Tables, m: Tables, r: Tables)
    requires HistoryKept(q, m) && HistoryKept(m, r)
    ensures HistoryKept(q, r)
  {
    forall id | id in q.attempts ensures id in r.attempts && RowsKept(q.attempts[id], r.attempts[id]) {
      assert RowsKept(q.attempts[id], m.attempts[id]) && RowsKept(m.attempts[id], r.attempts[id]);
      forall i | 0 <= i < |q.attempts[id]| ensures RowKept(q.attempts[id][i], r.attempts[id][i]) {
        assert RowKept(q.attempts[id][i], m.attempts[id][i]) && RowKept(m.attempts[id][i], r.attempts[id][i]);
      }
    }
  }

  lemma {:induction false} ClaimAllHistory(q: Tables, ids: seq<JobId>, lease: int, tokens: seq<Token>)
    requires Consistent(q) && Enabled(q, Claim(ids, lease, tokens))
    ensures HistoryKept(q, ClaimAll(q, ids, lease, tokens))
    decreases |ids|
  {
    if ids != [] {
      assert Eligible(q, ids[0]) && !Issued(q, tokens[0]);
      var m := ClaimOne(q, ids[0], lease, tokens[0]);
      ClaimOneHistory(q, ids[0], lease, tokens[0]);
      assert Consistent(m) by { ClaimOneKeeps(q, ids[0], lease, tokens[0]); }
      assert Enabled(m, Claim(ids[1..], lease, tokens[1..])) by { ClaimHeadTail(q, ids, lease, tokens); }
      ClaimAllHistory(m, ids[1..], lease, tokens[1..]);
      HistoryTransitive(q, m, ClaimAll(m, ids[1..], lease, tokens[1..]));
    }
  }

  /** No step ever makes the finalization trigger raise, and none drops or rewrites an attempt. */
  lemma StepHistory(q: Tables, s: Step)
    requires Consistent(q) && Enabled(q, s)
    ensures HistoryKept(q, Apply(q, s))
  {
    match s
    case Claim(ids, lease, tokens) => ClaimAllHistory(q, ids, lease, tokens);
    case Finish(id, token, outcome, error, delay) =>
      if HoldsLease(q, id, token) { ClosingHistory(q.jobs[id], q.attempts[id], token, q.now, outcome, error); }
    case LostCall(id, token) =>
      if id in q.attempts { LosingHistory(q.jobs[id], q.attempts[id], token, q.now); }
    case _ =>
  }

  lemma ClosingHistory(job: Job, rows: seq<Attempt>, token: Token, now: int, outcome: Outcome, error: Option<string>)
    requires JobConsistent(job, rows)
    ensures RowsKept(rows, CloseRows(rows, token, now, outcome, error))
  {
  }

  lemma LosingHistory(job: Job, rows: seq<Attempt>, token: Token, now: int)
    requires JobConsistent(job, rows)
    ensures RowsKept(rows, LoseRows(rows, token, now))
  {
  }

  lemma {:induction false} RunHistory(q: Tables, steps: seq<Step>)
    requires Consistent(q) && ValidRun(q, steps)
    ensures HistoryKept(q, Run(q, steps))
    decreases |steps|
  {
    if steps != [] {
      StepKeeps(q, steps[0]);
      StepHistory(q, steps[0]);
      RunHistory(Apply(q, steps[0]), steps[1..]);
      HistoryTransitive(q, Apply(q, steps[0]), Run(q, steps));
    }
  }

  // ---------------------------------------------------------------- fencing and absorbing states

  /** The token was handed out and is no longer the lease of any job: finished or superseded. */
  ghost predicate Retired(q: Tables, token: Token) {
    Issued(q, token) && Unheld(q, token)
  }

  ghost predicate Unheld(q: Tables, token: Token) { forall id :: !HoldsLease(q, id, token) }

  predicate Terminal(job: Job) { job.state == Completed || job.state == Dead }

  /** A job in a terminal state, with its whole history, is the same in both states. */
  ghost predicate Frozen(q: Tables, r: Tables, id: JobId) {
    && id in q.jobs && id in q.attempts && id in r.jobs && id in r.attempts
    && r.jobs[id] == q.jobs[id] && r.attempts[id] == q.attempts[id]
  }

  lemma IssuedStays(q: Tables, r: Tables, token: Token)
    requires HistoryKept(q, r) && Issued(q, token)
    ensures Issued(r, token)
  {
    var a: JobId, i: nat :| HasToken(q, a, i, token);
    assert HasToken(q, a, i, token);
    assert RowsKept(q.attempts[a], r.attempts[a]);
    assert RowKept(q.attempts[a][i], r.attempts[a][i]);
    assert HasToken(r, a, i, token);
  }

  lemma ClaimOneFence(q: Tables, id: JobId, lease: int, newToken: Token, token: Token)
    requires Consistent(q) && id in q.jobs && !Issued(q, newToken) && Retired(q, token)
    ensures Retired(ClaimOne(q, id, lease, newToken), token)
  {
    var r := ClaimOne(q, id, lease, newToken);
    assert Issued(r, token) by {
      ClaimOneHistory(q, id, lease, newToken);
      IssuedStays(q, r, token);
    }
    ClaimOneUnheld(q, id, lease, newToken, token);
  }

  lemma ClaimOneUnheld(q: Tables, id: JobId, lease: int, newToken: Token, token: Token)
    requires SameKeys(q) && id in q.jobs && newToken != token && Unheld(q, token)
    ensures Unheld(ClaimOne(q, id, lease, newToken), token)
  {
    forall other ensures !HoldsLease(ClaimOne(q, id, lease, newToken), other, token) { assert !HoldsLease(q, other, token); }
  }

  lemma {:induction false} ClaimAllFence(q: Tables, ids: seq<JobId>, lease: int, tokens: seq<Token>, token: Token)
    requires Consistent(q) && Enabled(q, Claim(ids, lease, tokens)) && Retired(q, token)
    ensures Retired(ClaimAll(q, ids, lease, tokens), token)
    decreases |ids|
  {
    if ids != [] {
      assert Eligible(q, ids[0]) && !Issued(q, tokens[0]);
      var m := ClaimOne(q, ids[0], lease, tokens[0]);
      ClaimOneFence(q, ids[0], lease, tokens[0], token);
      assert Consistent(m) by { ClaimOneKeeps(q, ids[0], lease, tokens[0]); }
      assert Enabled(m, Claim(ids[1..], lease, tokens[1..])) by { ClaimHeadTail(q, ids, lease, tokens); }
      ClaimAllFence(m, ids[1..], lease, tokens[1..], token);
    }
  }

  lemma {:induction false} ClaimAllFrame(q: Tables, ids: seq<JobId>, lease: int, tokens: seq<Token>, id: JobId)
    requires SameKeys(q) && Enabled(q, Claim(ids, lease, tokens)) && id in q.jobs && id !in ids
    ensures Frozen(q, ClaimAll(q, ids, lease, tokens), id)
    decreases |ids|
  {
    if ids != [] {
      assert Eligible(q, ids[0]);
      ClaimHeadTail(q, ids, lease, tokens);
      ClaimAllFrame(ClaimOne(q, ids[0], lease, tokens[0]), ids[1..], lease, tokens[1..], id);
    }
  }

  lemma StepFence(q: Tables, s: Step, token: Token)
    requires Consistent(q) && Enabled(q, s) && Retired(q, token)
    ensures Retired(Apply(q, s), token)
  {
    if s.Claim? {
      ClaimAllFence(q, s.ids, s.lease, s.tokens, token);
    } else {
      var r := Apply(q, s);
      assert Issued(r, token) by {
        StepHistory(q, s);
        IssuedStays(q, r, token);
      }
      StepUnheld(q, s, token);
    }
  }

  /** Only a claim hands out a lease. */
  lemma StepUnheld(q: Tables, s: Step, token: Token)
    requires SameKeys(q) && Enabled(q, s) && !s.Claim? && Unheld(q, token)
    ensures Unheld(Apply(q, s), token)
  {
    forall id ensures !HoldsLease(Apply(q, s), id, token) { assert !HoldsLease(q, id, token); }
  }

  lemma StepAbsorbs(q: Tables, s: Step, id: JobId)
    requires Consistent(q) && Enabled(q, s) && id in q.jobs && Terminal(q.jobs[id])
    ensures Frozen(q, Apply(q, s), id)
  {
    assert JobConsistent(q.jobs[id], q.attempts[id]);
    match s
    case Claim(ids, lease, tokens) =>
      assert forall i :: 0 <= i < |ids| ==> Eligible(q, ids[i]);
      ClaimAllFrame(q, ids, lease, tokens, id);
    case LostCall(other, token) =>
      if other == id { assert LoseRows(q.attempts[id], token, q.now) == q.attempts[id]; }
    case _ =>
  }

  /** Fencing: once a token is finished or superseded, then after any further run a finish quoting it
      changes nothing, whatever outcome it reports. */
  lemma {:induction false} RetiredTokenIsFenced(
      q: Tables, steps: seq<Step>, token: Token, id: JobId, outcome: Outcome, error: Option<string>, delay: int)
    requires Consistent(q) && ValidRun(q, steps) && Retired(q, token)
    ensures Retired(Run(q, steps), token)
    ensures FinishJob(Run(q, steps), id, token, outcome, error, delay) == Run(q, steps)
    decreases |steps|
  {
    if steps != [] {
      StepKeeps(q, steps[0]);
      StepFence(q, steps[0], token);
      RetiredTokenIsFenced(Apply(q, steps[0]), steps[1..], token, id, outcome, error, delay);
    }
  }

  lemma OneHolder(q: Tables, id: JobId, other: JobId, token: Token)
    requires Consistent(q) && HoldsLease(q, id, token) && HoldsLease(q, other, token)
    ensures id == other
  {
    assert JobConsistent(q.jobs[id], q.attempts[id]) && JobConsistent(q.jobs[other], q.attempts[other]);
    assert HasToken(q, id, |q.attempts[id]| - 1, token) && HasToken(q, other, |q.attempts[other]| - 1, token);
  }

  /** A finish that took effect retires its token, and so does a claim that supersedes it. */
  lemma FinishRetires(q: Tables, id: JobId, token: Token, outcome: Outcome, error: Option<string>, delay: int)
    requires Consistent(q) && HoldsLease(q, id, token) && ValidFinish(outcome, error)
    ensures Retired(FinishJob(q, id, token, outcome, error, delay), token)
  {
    var r := FinishJob(q, id, token, outcome, error, delay);
    var last := |q.attempts[id]| - 1;
    assert JobConsistent(q.jobs[id], q.attempts[id]);
    assert HasToken(q, id, last, token) && HasToken(r, id, last, token);
    assert Unheld(r, token) by {
      forall other ensures !HoldsLease(r, other, token) {
        if HoldsLease(q, other, token) { OneHolder(q, id, other, token); }
      }
    }
  }

  lemma ReclaimRetires(q: Tables, id: JobId, lease: int, oldToken: Token, newToken: Token)
    requires Consistent(q) && HoldsLease(q, id, oldToken) && !Issued(q, newToken)
    ensures Retired(ClaimOne(q, id, lease, newToken), oldToken)
  {
    var r := ClaimOne(q, id, lease, newToken);
    var last := |q.attempts[id]| - 1;
    assert JobConsistent(q.jobs[id], q.attempts[id]);
    assert HasToken(q, id, last, oldToken) && HasToken(r, id, last, oldToken);
    assert Unheld(r, oldToken) by {
      forall other ensures !HoldsLease(r, other, oldToken) {
        if HoldsLease(q, other, oldToken) { OneHolder(q, id, other, oldToken); }
      }
    }
  }

  /** Completed and dead are absorbing: the job row and its attempts never change again. */
  lemma {:induction false} TerminalIsAbsorbing(q: Tables, steps: seq<Step>, id: JobId)
    requires Consistent(q) && ValidRun(q, steps) && id in q.jobs && Terminal(q.jobs[id])
    ensures Frozen(q, Run(q, steps), id)
    decreases |steps|
  {
    if steps != [] {
      StepKeeps(q, steps[0]);
      StepAbsorbs(q, steps[0], id);
      TerminalIsAbsorbing(Apply(q, steps[0]), steps[1..], id);
    }
  }
}
