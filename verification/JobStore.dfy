/** The two queue tables as one object whose rows the SQL functions update in place. */
module JobStore {
  import opened Basics
  import opened Queue
  import opened QueueInvariant

  /** ORDER BY available_at, id. */
  predicate Before(q: Tables, a: JobId, b: JobId)
    requires a in q.jobs && b in q.jobs
  {
    q.jobs[a].availableAt < q.jobs[b].availableAt || (q.jobs[a].availableAt == q.jobs[b].availableAt && a < b)
  }

  /** Rows the WHERE clause admits and no other transaction has locked. */
  function Claimable(q: Tables, locked: set<JobId>): set<JobId> {
    set id | id in q.jobs && Eligible(q, id) && id !in locked
  }

  /** `ids` are the first min(batch, 100) claimable rows in (available_at, id) order. */
  ghost predicate Chosen(q: Tables, locked: set<JobId>, batch: int, ids: seq<JobId>) {
    && Distinct(ids)
    && (forall i :: 0 <= i < |ids| ==> ids[i] in Claimable(q, locked))
    && |ids| == Min(ClampBatch(batch), |Claimable(q, locked)|)
    && (forall i, j :: 0 <= i < j < |ids| ==> Before(q, ids[i], ids[j]))
    && (forall i, id :: 0 <= i < |ids| && id in Claimable(q, locked) && id !in ids ==> Before(q, ids[i], id))
  }

  lemma FirstDifference(q: Tables, locked: set<JobId>, batch: int, a: seq<JobId>, b: seq<JobId>, n: nat)
    requires Chosen(q, locked, batch, a) && Chosen(q, locked, batch, b) && n < |a| == |b| && a[..n] == b[..n]
    ensures a[n] in q.jobs && b[n] in q.jobs && (a[n] == b[n] || Before(q, b[n], a[n]))
  {
    assert a[n] in Claimable(q, locked) && b[n] in Claimable(q, locked);
    forall m | 0 <= m < n ensures a[m] == b[m] { assert a[..n][m] == b[..n][m]; }
    if a[n] in b {
      var m :| 0 <= m < |b| && b[m] == a[n];
    }
  }

  lemma {:induction false} ChosenPrefix(q: Tables, locked: set<JobId>, batch: int, a: seq<JobId>, b: seq<JobId>, n: nat)
    requires Chosen(q, locked, batch, a) && Chosen(q, locked, batch, b) && n <= |a|
    ensures |a| == |b| && a[..n] == b[..n]
    decreases n
  {
    if n > 0 {
      ChosenPrefix(q, locked, batch, a, b, n - 1);
      FirstDifference(q, locked, batch, a, b, n - 1);
      FirstDifference(q, locked, batch, b, a, n - 1);
      assert a[..n] == a[..n - 1] + [a[n - 1]] && b[..n] == b[..n - 1] + [b[n - 1]];
    }
  }

  /** The WHERE, ORDER BY and LIMIT clauses leave exactly one choice. */
  lemma ChosenIsUnique(q: Tables, locked: set<JobId>, batch: int, a: seq<JobId>, b: seq<JobId>)
    requires Chosen(q, locked, batch, a) && Chosen(q, locked, batch, b)
    ensures a == b
  {
    ChosenPrefix(q, locked, batch, a, b, |a|);
    assert a[..|a|] == a && b[..|b|] == b;
  }

  function IdsOf(snapshots: seq<Snapshot>): (ids: seq<JobId>)
    ensures |ids| == |snapshots|
    ensures forall i :: 0 <= i < |ids| ==> ids[i] == snapshots[i].id
  {
    seq(|snapshots|, i requires 0 <= i < |snapshots| => snapshots[i].id)
  }

  /** `gen_random_uuid()`: n tokens nobody has seen. */
  function FreshTokens(start: nat, n: nat): (tokens: seq<Token>)
    ensures |tokens| == n
    ensures forall i :: 0 <= i < n ==> tokens[i] == start + i
  {
    seq(n, i requires 0 <= i < n => start + i)
  }

  /** Part of the choice is made: `ids` in order, each before everything in `rest`. */
  ghost predicate Picked(q: Tables, all: set<JobId>, ids: seq<JobId>, rest: set<JobId>)
    requires all <= q.jobs.Keys
  {
    && Distinct(ids) && rest <= all && |ids| + |rest| == |all|
    && (forall i :: 0 <= i < |ids| ==> ids[i] in all && ids[i] !in rest)
    && (forall id :: id in all && id !in rest ==> id in ids)
    && (forall i, j :: 0 <= i < j < |ids| ==> Before(q, ids[i], ids[j]))
    && (forall i, id :: 0 <= i < |ids| && id in rest ==> Before(q, ids[i], id))
  }

  lemma PickNext(q: Tables, all: set<JobId>, ids: seq<JobId>, rest: set<JobId>, first: JobId)
    requires all <= q.jobs.Keys && Picked(q, all, ids, rest) && first in rest
    requires forall id :: id in rest && id != first ==> Before(q, first, id)
    ensures Picked(q, all, ids + [first], rest - {first})
  {
    var r := ids + [first];
    forall id | id in all && id !in rest - {first} ensures id in r {
      assert id == first ==> r[|ids|] == id;
    }
  }

  lemma ChosenIsClaimable(q: Tables, locked: set<JobId>, batch: int, ids: seq<JobId>, start: nat)
    requires Chosen(q, locked, batch, ids) && TokensBelow(q, start)
    ensures forall lease :: Enabled(q, Claim(ids, lease, FreshTokens(start, |ids|)))
  {
    assert forall i :: 0 <= i < |ids| ==> ids[i] in Claimable(q, locked);
  }

  /** The rows are leased under consecutive tokens. */
  ghost predicate Held(q: Tables, ids: seq<JobId>, start: nat) {
    forall i :: 0 <= i < |ids| ==> HoldsLease(q, ids[i], start + i)
  }

  /** Each snapshot shows its row as leased, with the token and attempt count of this claim. */
  ghost predicate Returned(q: Tables, claimed: seq<Snapshot>, start: nat) {
    forall i :: 0 <= i < |claimed| ==>
      HoldsLease(q, claimed[i].id, start + i) && claimed[i] == SnapshotOf(q, claimed[i].id)
  }

  lemma AllHeld(q: Tables, ids: seq<JobId>, lease: int, start: nat)
    requires SameKeys(q) && Enabled(q, Claim(ids, lease, FreshTokens(start, |ids|)))
    requires forall i :: 0 <= i < |ids| ==> ids[i] in q.jobs
    ensures Held(ClaimAll(q, ids, lease, FreshTokens(start, |ids|)), ids, start)
  {
    forall k | 0 <= k < |ids| ensures HoldsLease(ClaimAll(q, ids, lease, FreshTokens(start, |ids|)), ids[k], start + k) {
      ClaimAllHolds(q, ids, lease, FreshTokens(start, |ids|), k);
    }
  }

  /** The tables are consistent and the token source is ahead of them. */
  ghost predicate Sound(q: Tables, next: nat) { Consistent(q) && TokensBelow(q, next) }

  /** Every token handed out so far lies below the next one. */
  ghost predicate TokensBelow(q: Tables, next: nat) {
    forall token: Token :: Issued(q, token) ==> token < next
  }

  lemma {:induction false} ClaimAllTokensBelow(q: Tables, ids: seq<JobId>, lease: int, start: nat)
    requires SameKeys(q) && Enabled(q, Claim(ids, lease, FreshTokens(start, |ids|))) && TokensBelow(q, start)
    ensures TokensBelow(ClaimAll(q, ids, lease, FreshTokens(start, |ids|)), start + |ids|)
    decreases |ids|
  {
    if ids != [] {
      var tokens := FreshTokens(start, |ids|);
      var m := ClaimOne(q, ids[0], lease, start);
      assert Eligible(q, ids[0]) && tokens[1..] == FreshTokens(start + 1, |ids| - 1);
      forall token: Token | Issued(m, token) ensures token < start + 1 {
        var a: JobId, i: nat :| HasToken(m, a, i, token);
        assert HasToken(m, a, i, token);
        assert token == start || (HasToken(q, a, i, token) && Issued(q, token));
      }
      ClaimHeadTail(q, ids, lease, tokens);
      ClaimAllTokensBelow(m, ids[1..], lease, start + 1);
    }
  }

  class JobQueue {
    var now: int
    var jobs: map<JobId, Job>
    var attempts: map<JobId, seq<Attempt>>
    var nextToken: nat

    function State(): Tables
      reads this
    {
      Tables(now, jobs, attempts)
    }

    ghost predicate Valid()
      reads this
    {
      Sound(State(), nextToken)
    }

    constructor (start: int)
      ensures Valid() && State() == EmptyTables(start)
    {
      now, jobs, attempts, nextToken := start, map[], map[], 0;
    }

    method Enqueue(id: JobId, eventId: nat, kind: string, availableAt: int)
      requires Valid() && id !in jobs
      modifies this
      ensures Valid() && nextToken == old(nextToken)
      ensures State() == Apply(old(State()), Step.Enqueue(id, eventId, kind, availableAt))
    {
      StepKeeps(State(), Step.Enqueue(id, eventId, kind, availableAt));
      jobs := jobs[id := Job(eventId, kind, Pending, availableAt, 0, None, None, None, None)];
      attempts := attempts[id := []];
      NothingNewIssued(old(State()), State());
    }

    method Advance(elapsed: nat)
      requires Valid()
      modifies this`now
      ensures Valid() && State() == Apply(old(State()), Tick(elapsed))
    {
      StepKeeps(State(), Tick(elapsed));
      now := now + elapsed;
      NothingNewIssued(old(State()), State());
    }

    /** The row that ORDER BY puts first. */
    method Earliest(rows: set<JobId>) returns (first: JobId)
      requires rows != {} && rows <= jobs.Keys
      ensures first in rows && forall id :: id in rows && id != first ==> Before(State(), first, id)
    {
      ghost var q := State();
      first :| first in rows;
      var rest := rows - {first};
      while rest != {}
        invariant rest <= rows && first in rows && first !in rest
        invariant forall id :: id in rows && id !in rest && id != first ==> Before(q, first, id)
        decreases rest
      {
        var id :| id in rest;
        rest := rest - {id};
        if Before(State(), id, first) { first := id; }
      }
    }

    /** SELECT ... ORDER BY available_at, id FOR UPDATE SKIP LOCKED LIMIT. */
    method Candidates(batch: int, locked: set<JobId>) returns (ids: seq<JobId>)
      ensures Chosen(State(), locked, batch, ids)
    {
      ids := [];
      var rest := Claimable(State(), locked);
      while |ids| < ClampBatch(batch) && rest != {}
        invariant |ids| <= ClampBatch(batch)
        invariant Picked(State(), Claimable(State(), locked), ids, rest)
        decreases rest
      {
        var first := Earliest(rest);
        PickNext(State(), Claimable(State(), locked), ids, rest, first);
        ids := ids + [first];
        rest := rest - {first};
      }
    }

    /** UPDATE job_attempts (lost), UPDATE outbox_jobs (claimed) and INSERT INTO job_attempts, for one row. */
    method LeaseRow(id: JobId, lease: int)
      requires id in jobs && id in attempts
      modifies this
      ensures nextToken == old(nextToken) + 1
      ensures State() == ClaimOne(old(State()), id, lease, old(nextToken))
    {
      var job := jobs[id];
      if job.state == Leased && job.leaseToken.Some? {
        attempts := attempts[id := LoseRows(attempts[id], job.leaseToken.value, now)];
      }
      jobs := jobs[id := job.(state := Leased, leaseToken := Some(nextToken),
                              leaseExpiresAt := Some(now + ClampLease(lease)), attemptCount := job.attemptCount + 1)];
      attempts := attempts[id := attempts[id] + [Attempt(job.attemptCount + 1, nextToken, now, None, None, None)]];
      nextToken := nextToken + 1;
    }

    method LeaseRows(ids: seq<JobId>, lease: int)
      requires SameKeys(State()) && forall i :: 0 <= i < |ids| ==> ids[i] in jobs
      modifies this
      ensures nextToken == old(nextToken) + |ids|
      ensures State() == ClaimAll(old(State()), ids, lease, FreshTokens(old(nextToken), |ids|))
      decreases |ids|
    {
      if ids != [] {
        assert FreshTokens(nextToken, |ids|)[1..] == FreshTokens(nextToken + 1, |ids| - 1);
        LeaseRow(ids[0], lease);
        LeaseRows(ids[1..], lease);
      }
    }

    /** `outcomeos_claim_jobs`: hands out the chosen rows under fresh tokens. */
    method ClaimJobs(batch: int, lease: int, locked: set<JobId>) returns (claimed: seq<Snapshot>)
      requires Valid()
      modifies this
      ensures Valid() && nextToken == old(nextToken) + |claimed|
      ensures Chosen(old(State()), locked, batch, IdsOf(claimed))
      ensures Enabled(old(State()), Claim(IdsOf(claimed), lease, FreshTokens(old(nextToken), |claimed|)))
      ensures State() == Apply(old(State()), Claim(IdsOf(claimed), lease, FreshTokens(old(nextToken), |claimed|)))
      ensures Returned(State(), claimed, old(nextToken))
    {
      var ids := Candidates(batch, locked);
      ghost var q, start := State(), nextToken;
      ClaimEnabled(q, locked, batch, ids, lease, start);
      ClaimSound(q, ids, lease, start);
      LeaseRows(ids, lease);
      AllHeld(q, ids, lease, start);
      claimed := ReadBack(ids, start);
    }

    /** SELECT c.* FROM claimed. */
    method ReadBack(ids: seq<JobId>, ghost start: nat) returns (claimed: seq<Snapshot>)
      requires Held(State(), ids, start)
      ensures IdsOf(claimed) == ids && Returned(State(), claimed, start)
    {
      claimed := [];
      while |claimed| < |ids|
        invariant |claimed| <= |ids|
        invariant forall i :: 0 <= i < |claimed| ==> HoldsLease(State(), ids[i], start + i) && claimed[i] == SnapshotOf(State(), ids[i])
      {
        assert HoldsLease(State(), ids[|claimed|], start + |claimed|);
        claimed := claimed + [SnapshotOf(State(), ids[|claimed|])];
      }
    }

    /** `outcomeos_finish_job`: raises on an unsafe outcome, else reports whether the lease was held. */
    method FinishJob(id: JobId, token: Token, outcome: Outcome, error: Option<string>, delay: int)
      returns (changed: Result<bool, string>)
      requires Valid()
      modifies this
      ensures Valid() && nextToken == old(nextToken)
      ensures changed.Ok? <==> ValidFinish(outcome, error)
      ensures changed.Ok? ==> changed.value == HoldsLease(old(State()), id, token)
      ensures State() == if changed.Ok? then Queue.FinishJob(old(State()), id, token, outcome, error, delay) else old(State())
    {
      if outcome == LeaseLost || !SafeCode(error) {
        return Err("invalid safe outcome");
      }
      FinishSound(State(), nextToken, id, token, outcome, error, delay);
      var held := id in jobs && jobs[id].state == Leased && jobs[id].leaseToken == Some(token);
      if held {
        jobs := jobs[id := FinishedRow(jobs[id], now, outcome, error, delay)];
        attempts := attempts[id := CloseRows(attempts[id], token, now, outcome, error)];
      }
      return Ok(held);
    }

    /** UPDATE job_attempts SET finished_at, outcome='lease_lost' WHERE ... finished_at IS NULL. */
    method LoseAttempt(id: JobId, token: Token)
      modifies `attempts
      ensures State() == LoseLease(old(State()), id, token)
    {
      if id in attempts {
        attempts := attempts[id := LoseRows(attempts[id], token, now)];
      }
    }

    /** `outcomeos_lease_lost`: reports whether an open attempt was closed. */
    method LeaseLostCall(id: JobId, token: Token) returns (changed: bool)
      requires Valid()
      modifies `attempts
      ensures Valid() && State() == LoseLease(old(State()), id, token)
      ensures changed == HasOpen(old(State()), id, token)
    {
      LostCallSound(State(), nextToken, id, token);
      changed := HasOpen(State(), id, token);
      LoseAttempt(id, token);
    }
  }

  lemma FinishSound(q: Tables, next: nat, id: JobId, token: Token, outcome: Outcome, error: Option<string>, delay: int)
    requires Sound(q, next) && ValidFinish(outcome, error)
    ensures Sound(Queue.FinishJob(q, id, token, outcome, error, delay), next)
  {
    FinishKeeps(q, id, token, outcome, error, delay);
    NothingNewIssued(q, Queue.FinishJob(q, id, token, outcome, error, delay));
  }

  lemma LostCallSound(q: Tables, next: nat, id: JobId, token: Token)
    requires Sound(q, next)
    ensures Sound(LoseLease(q, id, token), next)
  {
    LostCallKeeps(q, id, token);
    NothingNewIssued(q, LoseLease(q, id, token));
  }

  /** Some attempt of the job carries the token and is not finished. */
  predicate HasOpen(q: Tables, id: JobId, token: Token) {
    id in q.attempts &&
    exists i :: 0 <= i < |q.attempts[id]| && q.attempts[id][i].token == token && q.attempts[id][i].finishedAt.None?
  }

  /** What a claim of the chosen rows is worth: enabled, sound afterwards, each row leased. */
  lemma ClaimEnabled(q: Tables, locked: set<JobId>, batch: int, ids: seq<JobId>, lease: int, start: nat)
    requires Sound(q, start) && Chosen(q, locked, batch, ids)
    ensures Enabled(q, Claim(ids, lease, FreshTokens(start, |ids|)))
    ensures SameKeys(q) && forall i :: 0 <= i < |ids| ==> ids[i] in q.jobs
  {
    ChosenIsClaimable(q, locked, batch, ids, start);
    assert forall i :: 0 <= i < |ids| ==> Eligible(q, ids[i]);
  }

  lemma ClaimSound(q: Tables, ids: seq<JobId>, lease: int, start: nat)
    requires Sound(q, start) && Enabled(q, Claim(ids, lease, FreshTokens(start, |ids|)))
    requires forall i :: 0 <= i < |ids| ==> ids[i] in q.jobs
    ensures Sound(ClaimAll(q, ids, lease, FreshTokens(start, |ids|)), start + |ids|)
  {
    ClaimAllKeeps(q, ids, lease, FreshTokens(start, |ids|));
    ClaimAllTokensBelow(q, ids, lease, start);
  }

  /** A step that starts no attempt issues no token. */
  lemma NothingNewIssued(q: Tables, r: Tables)
    requires NoNewTokens(q, r)
    ensures forall token: Token :: Issued(r, token) ==> Issued(q, token)
  {
  }

  /** After the batch, every claimed job is leased under its own token. */
  lemma {:induction false} ClaimAllHolds(q: Tables, ids: seq<JobId>, lease: int, tokens: seq<Token>, k: nat)
    requires SameKeys(q) && Enabled(q, Claim(ids, lease, tokens)) && k < |ids|
    ensures HoldsLease(ClaimAll(q, ids, lease, tokens), ids[k], tokens[k])
    decreases |ids|
  {
    assert Eligible(q, ids[0]);
    var m := ClaimOne(q, ids[0], lease, tokens[0]);
    ClaimHeadTail(q, ids, lease, tokens);
    if k == 0 {
      ClaimAllFrame(m, ids[1..], lease, tokens[1..], ids[0]);
    } else {
      assert ids[1..][k - 1] == ids[k] && tokens[1..][k - 1] == tokens[k];
      ClaimAllHolds(m, ids[1..], lease, tokens[1..], k - 1);
    }
  }
}
