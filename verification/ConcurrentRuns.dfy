/** Runs of interleaved claim and finish transactions: they refine the serial queue, so its theorems hold of
    them, and no claim passes over a row it could have had. */
module ConcurrentRuns {
  import opened Basics
  import opened Queue
  import opened QueueInvariant
  import opened QueueSchedule
  import opened JobStore
  import opened ConcurrentClaim

  ghost predicate SystemRun(s: System, moves: seq<Move>)
    requires SameKeys(s.q)
    decreases |moves|
  {
    moves != [] ==>
      Allowed(s, moves[0]) && SameKeys(Do(s, moves[0]).q) && SystemRun(Do(s, moves[0]), moves[1..])
  }

  ghost function RunMoves(s: System, moves: seq<Move>): System
    requires SameKeys(s.q) && SystemRun(s, moves)
    decreases |moves|
  {
    if moves == [] then s else RunMoves(Do(s, moves[0]), moves[1..])
  }

  /** The serial run a concurrent run stands for: its commits and the other queue steps. */
  ghost function Serial(s: System, moves: seq<Move>): seq<Step>
    requires SameKeys(s.q) && SystemRun(s, moves)
    decreases |moves|
  {
    if moves == [] then []
    else
      var step := QueueStep(s, moves[0]);
      (if step.Some? then [step.value] else []) + Serial(Do(s, moves[0]), moves[1..])
  }

  /** Interleaved transactions refine the serial queue: they leave the tables exactly as a run of atomic claims
      and finishes does, so what holds of every serial run holds here. */
  lemma {:induction false} ConcurrentRefinesSerial(s: System, moves: seq<Move>)
    requires SystemSound(s) && SystemRun(s, moves)
    ensures SystemSound(RunMoves(s, moves))
    ensures Serialized(s.q, Serial(s, moves), RunMoves(s, moves).q, WorkersOnly(moves))
    decreases |moves|
  {
    if moves != [] {
      var m, r, rest := moves[0], Do(s, moves[0]), moves[1..];
      MoveSound(s, m);
      MoveIsStep(s, m);
      ConcurrentRefinesSerial(r, rest);
      var step, steps, end, workers := QueueStep(s, m), Serial(r, rest), RunMoves(r, rest).q, WorkersOnly(moves);
      assert (workers ==> WorkersOnly(rest)) && m in moves;
      if step.Some? {
        StepFirst(s.q, step.value, r.q, steps, end, workers);
      } else {
        assert [] + steps == steps;
      }
    }
  }

  /** No move calls `outcomeos_lease_lost`, which no worker does. */
  ghost predicate WorkersOnly(moves: seq<Move>) {
    forall step :: Other(step) in moves ==> !step.LostCall?
  }

  function Idle(now: int): System { System(EmptyTables(now), map[], map[], map[]) }

  lemma SerialIsReplay(now: int, moves: seq<Move>)
    requires SystemRun(Idle(now), moves) && WorkersOnly(moves)
    ensures var steps := Serial(Idle(now), moves);
      WorkerRun(EmptyTables(now), steps) && Replay(NoHistory(now), steps).q == RunMoves(Idle(now), moves).q
  {
    ConcurrentRefinesSerial(Idle(now), moves);
    ReplayIsRun(NoHistory(now), Serial(Idle(now), moves));
  }

  /** However transactions interleave, no job has two unexpired leases at any instant, and an attempt starts
      only after the delay of the retried one before it, or after the lease of the lost one. */
  lemma ConcurrentLeasesNeverOverlap(now: int, moves: seq<Move>, id: JobId, i: nat, k: nat, t: int)
    requires SystemRun(Idle(now), moves) && WorkersOnly(moves)
    requires var q := RunMoves(Idle(now), moves).q; id in q.jobs && id in q.attempts && i < k < |q.attempts[id]|
    ensures var q, steps := RunMoves(Idle(now), moves).q, Serial(Idle(now), moves);
      && WorkerRun(EmptyTables(now), steps)
      && var h, a, b := Replay(NoHistory(now), steps), q.attempts[id][i], q.attempts[id][k];
      && h.q == q
      && (a.outcome == Some(RetryLater) || a.outcome == Some(LeaseLost))
      && (a.outcome == Some(RetryLater) ==>
            a.finishedAt.Some? && a.token in h.delays && b.startedAt >= a.finishedAt.value + h.delays[a.token])
      && (a.outcome == Some(LeaseLost) ==>
            a.token in h.granted && b.startedAt >= a.startedAt + h.granted[a.token])
      && !(InForce(h, id, i, t) && InForce(h, id, k, t))
  {
    SerialIsReplay(now, moves);
    LeasesNeverOverlap(now, Serial(Idle(now), moves), id, i, k, t);
  }

  /** However transactions interleave, a completed job has exactly one succeeded attempt, its last. */
  lemma ConcurrentCompletedOnce(now: int, moves: seq<Move>, id: JobId)
    requires SystemRun(Idle(now), moves) && WorkersOnly(moves)
    requires var q := RunMoves(Idle(now), moves).q;
      id in q.jobs && id in q.attempts && (q.jobs[id].state == Completed || q.jobs[id].state == Dead)
    ensures var q := RunMoves(Idle(now), moves).q; var rows := q.attempts[id];
      && rows != []
      && rows[|rows| - 1].outcome == Some(if q.jobs[id].state == Completed then Succeeded else GaveUp)
      && Shown(q.jobs[id], rows[|rows| - 1])
      && forall i :: 0 <= i < |rows| - 1 ==> rows[i].outcome == Some(RetryLater) || rows[i].outcome == Some(LeaseLost)
  {
    SerialIsReplay(now, moves);
    CompletedOnce(now, Serial(Idle(now), moves), id);
  }

  /** The transaction saw the row locked by another one, or no longer due. */
  ghost predicate PassedOver(t: Tx, tx: TxId, id: JobId) {
    exists i :: 0 <= i < |t.looks| && i < |t.order| && t.order[i] == id
                && (!t.looks[i].due || (t.looks[i].holder.Some? && t.looks[i].holder != Some(tx)))
  }

  /** The batch has room left, or took a row that (available_at, id) puts after this one. */
  ghost predicate Reached(t: Tx, id: JobId)
    requires id in t.began.jobs
  {
    |t.taken| < ClampBatch(t.batch) || exists later :: later in t.taken && later in t.began.jobs && Before(t.began, id, later)
  }

  /** At commit, in every reachable state: the batch is within its limit; its rows were due when the statement
      started, are due now, come in (available_at, id) order, and no other transaction has taken them; and of the
      rows due at the start, one ahead of a row it took, or any if the batch is not full, is taken or was passed
      over because another transaction had it locked or it was no longer due when it was reached. */
  lemma CommitPassesOverNothing(now: int, moves: seq<Move>, tx: TxId, id: JobId)
    requires SystemRun(Idle(now), moves) && tx in RunMoves(Idle(now), moves).open
    requires !Scanning(RunMoves(Idle(now), moves).open[tx]) && Eligible(RunMoves(Idle(now), moves).open[tx].began, id)
    ensures var s := RunMoves(Idle(now), moves);
      Fair(s, tx) && (Reached(s.open[tx], id) ==> id in s.open[tx].taken || PassedOver(s.open[tx], tx, id))
  {
    assert SystemSound(Idle(now));
    ConcurrentRefinesSerial(Idle(now), moves);
    var s := RunMoves(Idle(now), moves);
    TakenIsFair(s, tx);
    NothingPassedOver(s.open[tx], tx, id);
  }

  /** What the transaction took. */
  ghost predicate Fair(s: System, tx: TxId)
    requires tx in s.open
  {
    var t := s.open[tx];
    && |t.taken| <= ClampBatch(t.batch) && Distinct(t.taken)
    && (forall k :: 0 <= k < |t.taken| ==> Eligible(t.began, t.taken[k]) && Eligible(s.q, t.taken[k]))
    && (forall j, k :: 0 <= j < k < |t.taken| ==>
          t.taken[j] in t.began.jobs && t.taken[k] in t.began.jobs && Before(t.began, t.taken[j], t.taken[k]))
    && (forall other, k :: other in s.open && other != tx && 0 <= k < |t.taken| ==> t.taken[k] !in s.open[other].taken)
  }

  lemma TakenIsFair(s: System, tx: TxId)
    requires SystemSound(s) && tx in s.open
    ensures Fair(s, tx)
  {
    var t := s.open[tx];
    assert TxSound(s, tx);
    forall other, k | other in s.open && other != tx && 0 <= k < |t.taken| ensures t.taken[k] !in s.open[other].taken {
      NoSharedRow(s, other, tx, t.taken[k]);
    }
    assert HoldsTaken(s, tx);
    TakenInOrder(t.began, t.order, t.looks);
  }

  /** Rows are taken from those due at the start, each once, in the order they were scanned. */
  lemma {:induction false} TakenInOrder(q: Tables, order: seq<JobId>, looks: seq<Look>)
    requires InOrder(q, order) && |looks| <= |order|
    ensures var taken := TakenRows(order, looks);
      && Distinct(taken) && (forall k :: 0 <= k < |taken| ==> Eligible(q, taken[k]))
      && forall j, k :: 0 <= j < k < |taken| ==>
           taken[j] in q.jobs && taken[k] in q.jobs && Before(q, taken[j], taken[k])
    decreases |looks|
  {
    TakenRowsAre(order, looks);
    if looks != [] {
      var n := |looks| - 1;
      TakenInOrder(q, order, looks[..n]);
      TakenRowsAre(order, looks[..n]);
      var before := TakenRows(order, looks[..n]);
      assert Eligible(q, order[n]) by { assert order[n] in order; }
      forall j | 0 <= j < |before| ensures before[j] in q.jobs && Before(q, before[j], order[n]) {
        assert before[j] in before;
        var i :| 0 <= i < n && order[i] == before[j] && TakenLook(looks[..n][i]);
        assert Eligible(q, order[i]);
      }
    }
  }

  /** A row due at the start that the finished scan reached is taken or was passed over. */
  lemma NothingPassedOver(t: Tx, tx: TxId, id: JobId)
    requires InOrder(t.began, t.order) && |t.looks| <= |t.order| && t.taken == TakenRows(t.order, t.looks)
    requires forall i :: 0 <= i < |t.looks| ==> t.looks[i].holder != Some(tx)
    requires !Scanning(t) && Eligible(t.began, id)
    ensures Reached(t, id) ==> id in t.taken || PassedOver(t, tx, id)
  {
    assert id in t.order;
    var i :| 0 <= i < |t.order| && t.order[i] == id;
    TakenRowsAre(t.order, t.looks);
    if Reached(t, id) {
      if |t.taken| >= ClampBatch(t.batch) {
        var later :| later in t.taken && later in t.began.jobs && Before(t.began, id, later);
        var k :| 0 <= k < |t.looks| && t.order[k] == later && TakenLook(t.looks[k]);
        NotBefore(t.began, t.order, i, k);
      }
      assert i < |t.looks|;
    }
  }

  /** What comes before another row stands before it in the order. */
  lemma NotBefore(q: Tables, order: seq<JobId>, i: nat, k: nat)
    requires InOrder(q, order) && i < |order| && k < |order| && order[i] in q.jobs && order[k] in q.jobs
    requires Before(q, order[i], order[k])
    ensures i < k
  {
  }
}
