/** What claim, finish and lease-lost do to the rows, column by column. */
module QueueRows {
  import opened Basics
  import opened Queue
  import opened QueueInvariant
  import opened QueueSchedule
  import opened JobStore

  /** A row can be claimed exactly when it is unlocked and either waits and its time has come, or is leased and
      its lease has run out. */
  lemma ClaimableExactly(q: Tables, locked: set<JobId>, id: JobId)
    ensures id in Claimable(q, locked) <==>
      && id !in locked && id in q.jobs
      && (|| (q.jobs[id].state in {Pending, Retrying} && q.now >= q.jobs[id].availableAt)
          || (q.jobs[id].state == Leased && q.jobs[id].leaseExpiresAt.Some? && q.now >= q.jobs[id].leaseExpiresAt.value))
  {
  }

  /** The chosen rows: as many as there are, at most 100 and at most the batch, earliest first, ids deciding ties,
      none left out that comes before one of them. */
  lemma ChosenExactly(q: Tables, locked: set<JobId>, batch: int, ids: seq<JobId>)
    requires Chosen(q, locked, batch, ids)
    ensures var n := |Claimable(q, locked)|;
      |ids| == if batch <= 0 then 0 else if n <= batch && n <= 100 then n else if batch <= 100 then batch else 100
    ensures forall i :: 0 <= i < |ids| ==> ids[i] in q.jobs
    ensures forall i, j :: 0 <= i < j < |ids| ==>
      var a, b := q.jobs[ids[i]].availableAt, q.jobs[ids[j]].availableAt; a < b || (a == b && ids[i] < ids[j])
    ensures forall i, id :: 0 <= i < |ids| && id in Claimable(q, locked) && id !in ids ==>
      var a, b := q.jobs[ids[i]].availableAt, q.jobs[id].availableAt; a < b || (a == b && ids[i] < id)
  {
    assert forall i :: 0 <= i < |ids| ==> ids[i] in Claimable(q, locked);
  }

  /** The k-th claimed job: leased under its token for the seconds asked for, but 1 at least and 3600 at most, its
      count raised; its open attempt, if it was leased, closed now as lost; one more attempt started now. */
  lemma ClaimedExactly(q: Tables, ids: seq<JobId>, lease: int, tokens: seq<Token>, k: nat)
    requires SameKeys(q) && Enabled(q, Claim(ids, lease, tokens)) && k < |ids| && ids[k] in q.jobs
    ensures var r := Apply(q, Claim(ids, lease, tokens));
      var job, old_ := q.jobs[ids[k]], q.attempts[ids[k]];
      && r.now == q.now && ids[k] in r.jobs && ids[k] in r.attempts
      && r.jobs[ids[k]] == job.(state := Leased, leaseToken := Some(tokens[k]), attemptCount := job.attemptCount + 1,
           leaseExpiresAt := Some(q.now + if lease < 1 then 1 else if lease > 3600 then 3600 else lease))
      && var rows := r.attempts[ids[k]];
         && |rows| == |old_| + 1
         && rows[|old_|] == Attempt(job.attemptCount + 1, tokens[k], q.now, None, None, None)
         && forall i :: 0 <= i < |old_| ==>
              rows[i] == if job.state == Leased && job.leaseToken == Some(old_[i].token) && old_[i].finishedAt == None
                         then old_[i].(finishedAt := Some(q.now), outcome := Some(LeaseLost)) else old_[i]
  {
    ClaimAllAt(q, ids, lease, tokens, k);
  }

  /** What a worker is handed for a claimed row. */
  lemma SnapshotShows(q: Tables, claimed: seq<Snapshot>, start: nat, i: nat)
    requires Returned(q, claimed, start) && i < |claimed|
    ensures var s := claimed[i];
      && s.id in q.jobs && q.jobs[s.id].state == Leased && q.jobs[s.id].leaseToken == Some(s.token) && s.token == start + i
      && s.eventId == q.jobs[s.id].eventId && s.kind == q.jobs[s.id].kind && s.attemptCount == q.jobs[s.id].attemptCount
  {
    assert HoldsLease(q, claimed[i].id, start + i);
  }

  /** A finish with the lease's token: the state its outcome names, the error and the time shown, the lease given
      back, a retry put off, and the open attempt closed; with any other token nothing changes. */
  lemma FinishedExactly(q: Tables, id: JobId, token: Token, outcome: Outcome, error: Option<string>, delay: int)
    requires SameKeys(q) && outcome != LeaseLost
    ensures var r := FinishJob(q, id, token, outcome, error, delay);
      if id in q.jobs && q.jobs[id].state == Leased && q.jobs[id].leaseToken == Some(token) then
        && r.now == q.now && r.jobs.Keys == q.jobs.Keys && r.attempts.Keys == q.attempts.Keys
        && (forall other :: other in q.jobs && other != id ==> r.jobs[other] == q.jobs[other] && r.attempts[other] == q.attempts[other])
        && (var job, row := q.jobs[id], r.jobs[id];
           && row == job.(state := row.state, completedAt := row.completedAt, availableAt := row.availableAt,
                          leaseToken := None, leaseExpiresAt := None, lastError := error)
           && (outcome == Succeeded ==> row.state == Completed && row.completedAt == Some(q.now) && row.availableAt == job.availableAt)
           && (outcome == GaveUp ==> row.state == Dead && row.completedAt == Some(q.now) && row.availableAt == job.availableAt)
           && (outcome == RetryLater ==>
                 row.state == Retrying && row.completedAt == None && row.availableAt == q.now + if delay > 0 then delay else 0))
        && |r.attempts[id]| == |q.attempts[id]|
        && forall i :: 0 <= i < |q.attempts[id]| ==>
             var a := q.attempts[id][i];
             r.attempts[id][i] == if a.token == token && a.finishedAt == None
                                  then a.(finishedAt := Some(q.now), outcome := Some(outcome), error := error) else a
      else r == q
  {
  }

  /** A finish is refused exactly when its outcome is not one of three, or its code is not 1 to 80 characters
      among a-z, 0-9, '_', '.' and '-'. */
  lemma RefusedExactly(outcome: Outcome, error: Option<string>)
    ensures ValidFinish(outcome, error) <==>
      && outcome in {Succeeded, RetryLater, GaveUp}
      && (error.Some? ==>
            && 1 <= |error.value| <= 80
            && forall i :: 0 <= i < |error.value| ==>
                 var n := error.value[i] as int; 97 <= n <= 122 || 48 <= n <= 57 || n == 95 || n == 46 || n == 45)
  {
    if error.Some? {
      forall i | 0 <= i < |error.value|
        ensures SafeCodeChar(error.value[i]) <==>
          var n := error.value[i] as int; 97 <= n <= 122 || 48 <= n <= 57 || n == 95 || n == 46 || n == 45
      {
        assert '_' as int == 95 && '.' as int == 46 && '-' as int == 45;
        SameChar(error.value[i]);
      }
    }
  }

  lemma SameChar(c: char)
    ensures c as int == 95 ==> c == '_'
    ensures c as int == 46 ==> c == '.'
    ensures c as int == 45 ==> c == '-'
  {
  }

  /** Lease-lost closes the open attempt under the token and leaves every job row alone. */
  lemma LostExactly(q: Tables, id: JobId, token: Token)
    ensures var r := LoseLease(q, id, token);
      && r.now == q.now && r.jobs == q.jobs && r.attempts.Keys == q.attempts.Keys
      && (forall other :: other in q.attempts && other != id ==> r.attempts[other] == q.attempts[other])
      && (id in q.attempts ==>
            && |r.attempts[id]| == |q.attempts[id]|
            && forall i :: 0 <= i < |q.attempts[id]| ==>
                 var a := q.attempts[id][i];
                 r.attempts[id][i] == if a.token == token && a.finishedAt == None
                                      then a.(finishedAt := Some(q.now), outcome := Some(LeaseLost)) else a)
  {
  }
}
