/** Whole histories of contract commands: what never changes, what a retry does, what lock versions
    promise. */
module ContractHistory {
  import opened Basics
  import opened Contracts
  import opened ContractInvariant

  // ---------------------------------------------------------------- what no step undoes

  predicate ContractKept(before: Contract, after: Contract) {
    && before.lockVersion <= after.lockVersion
    && (before.lockVersion == after.lockVersion ==> after == before)
    && (before.state == Terminated ==> after == before)
    && (after.state == Draft ==> before.state == Draft)
  }

  function Rank(s: VersionState): nat {
    match s case DraftVersion => 0 case Proposed => 1 case ActiveVersion => 2 case Superseded => 3 case Withdrawn => 4
  }

  predicate VersionKept(before: Version, after: Version) {
    && after == before.(state := after.state, digest := after.digest)
    && Rank(before.state) <= Rank(after.state)
    && (before.state != DraftVersion ==> after.digest == before.digest)
  }

  function RuleRank(s: RuleState): nat {
    match s case DraftRule => 0 case Published => 1 case Retired => 2
  }

  /** A rule version keeps its rule, number, template and definition, goes from draft to published to retired,
      and keeps its digest once published. */
  predicate RuleVersionKept(before: RuleVersion, after: RuleVersion) {
    && after == before.(state := after.state, digest := after.digest)
    && RuleRank(before.state) <= RuleRank(after.state)
    && (before.state != DraftRule ==> after.digest == before.digest)
  }

  ghost predicate RuleVersionsKept(before: seq<RuleVersion>, after: seq<RuleVersion>) {
    |before| <= |after| && forall i :: 0 <= i < |before| ==> RuleVersionKept(before[i], after[i])
  }

  ghost predicate ContractsKept(before: seq<Contract>, after: seq<Contract>) {
    |before| <= |after| && forall i :: 0 <= i < |before| ==> ContractKept(before[i], after[i])
  }

  ghost predicate VersionsKept(before: seq<Version>, after: seq<Version>) {
    |before| <= |after| && forall i :: 0 <= i < |before| ==> VersionKept(before[i], after[i])
  }

  ghost predicate ResultsKept(before: map<string, Remembered>, after: map<string, Remembered>) {
    forall k :: k in before ==> k in after && after[k] == before[k]
  }

  /** Rows are never deleted; terms, numbers and proposed digests never change; versions only move
      forward, and rule versions likewise; a terminated contract is frozen; rules, acceptances, authorities,
      bindings, the audit trail, the outbox and remembered results only grow. */
  ghost predicate Kept(before: Store, after: Store) {
    && ContractsKept(before.contracts, after.contracts) && VersionsKept(before.versions, after.versions)
    && RuleVersionsKept(before.ruleVersions, after.ruleVersions) && before.rules <= after.rules
    && ResultsKept(before.results, after.results)
    && before.acceptances <= after.acceptances && before.authorities <= after.authorities
    && before.bindings <= after.bindings && before.audit <= after.audit && before.outbox <= after.outbox
  }

  lemma KeptTransitive(a: Store, b: Store, c: Store)
    requires Kept(a, b) && Kept(b, c)
    ensures Kept(a, c)
  {
    forall i | 0 <= i < |a.contracts| ensures ContractKept(a.contracts[i], c.contracts[i]) {
      assert ContractKept(a.contracts[i], b.contracts[i]) && ContractKept(b.contracts[i], c.contracts[i]);
    }
    forall i | 0 <= i < |a.versions| ensures VersionKept(a.versions[i], c.versions[i]) {
      assert VersionKept(a.versions[i], b.versions[i]) && VersionKept(b.versions[i], c.versions[i]);
    }
    forall i | 0 <= i < |a.ruleVersions| ensures RuleVersionKept(a.ruleVersions[i], c.ruleVersions[i]) {
      assert RuleVersionKept(a.ruleVersions[i], b.ruleVersions[i]) && RuleVersionKept(b.ruleVersions[i], c.ruleVersions[i]);
    }
  }

  /** The domain rows an operation may touch. */
  ghost predicate RowsKept(before: Store, after: Store) {
    && ContractsKept(before.contracts, after.contracts) && VersionsKept(before.versions, after.versions)
    && RuleVersionsKept(before.ruleVersions, after.ruleVersions) && before.rules <= after.rules
    && before.acceptances <= after.acceptances && before.authorities <= after.authorities
    && before.bindings == after.bindings && SameBooks(before, after)
  }

  lemma ActivateKeepsRows(s: Store, contract: Id, version: Id)
    requires ActivateRow(s, contract, version).Ok?
    ensures RowsKept(s, ActivateRow(s, contract, version).value.store)
  {
    ActivateOnlyStates(s, contract, version);
  }

  lemma PerformKeepsRows(sha: string -> string, s: Store, r: Request, actor: Principal, human: bool)
    requires Perform(sha, s, r, actor, human).Ok?
    ensures RowsKept(s, Perform(sha, s, r, actor, human).value.store)
  {
    if r.AskActivate? {
      ActivateKeepsRows(s, r.contract, r.version);
    } else {
      PerformKeepsContracts(sha, s, r, actor, human);
      PerformKeepsRules(sha, s, r, actor, human);
      PerformKeepsTheRest(sha, s, r, actor, human);
    }
  }

  lemma PerformKeepsRules(sha: string -> string, s: Store, r: Request, actor: Principal, human: bool)
    requires Perform(sha, s, r, actor, human).Ok? && !r.AskActivate?
    ensures var t := Perform(sha, s, r, actor, human).value.store;
      RuleVersionsKept(s.ruleVersions, t.ruleVersions) && s.rules <= t.rules
  {
  }

  lemma PerformKeepsContracts(sha: string -> string, s: Store, r: Request, actor: Principal, human: bool)
    requires Perform(sha, s, r, actor, human).Ok? && !r.AskActivate?
    ensures var t := Perform(sha, s, r, actor, human).value.store;
      ContractsKept(s.contracts, t.contracts) && VersionsKept(s.versions, t.versions)
  {
  }

  lemma PerformKeepsTheRest(sha: string -> string, s: Store, r: Request, actor: Principal, human: bool)
    requires Perform(sha, s, r, actor, human).Ok? && !r.AskActivate?
    ensures var t := Perform(sha, s, r, actor, human).value.store;
      && s.acceptances <= t.acceptances && s.authorities <= t.authorities
      && s.bindings == t.bindings && SameBooks(s, t)
  {
  }

  lemma StepKept(sha: string -> string, zones: set<string>, s: Store, step: Step)
    ensures Kept(s, Apply(sha, zones, s, step))
  {
    match step
    case Invoke(call) =>
      var r := RequestOf(call.command);
      var d := Perform(sha, s, r, call.actor, call.human);
      if Validate(zones, r).None? && d.Ok? && call.key !in s.results {
        PerformKeepsRows(sha, s, r, call.actor, call.human);
      }
    case Bind(b) =>
  }

  /** Over any history, from any state. */
  lemma {:induction false} HistoryKept(sha: string -> string, zones: set<string>, s: Store, steps: seq<Step>)
    ensures Kept(s, Run(sha, zones, s, steps))
    decreases |steps|
  {
    if steps != [] {
      var n := |steps| - 1;
      HistoryKept(sha, zones, s, steps[..n]);
      StepKept(sha, zones, Run(sha, zones, s, steps[..n]), steps[n]);
      KeptTransitive(s, Run(sha, zones, s, steps[..n]), Run(sha, zones, s, steps));
    }
  }

  lemma {:induction false} RunSplits(sha: string -> string, zones: set<string>, s: Store, a: seq<Step>, b: seq<Step>)
    ensures Run(sha, zones, s, a + b) == Run(sha, zones, Run(sha, zones, s, a), b)
    decreases |b|
  {
    if b == [] {
      assert a + b == a;
    } else {
      var n := |b| - 1;
      RunSplits(sha, zones, s, a, b[..n]);
      assert (a + b)[..|a + b| - 1] == a + b[..n];
    }
  }

  /** Terminated is final: whatever follows, activations included, the contract row stays as it is. */
  lemma TerminatedIsFinal(sha: string -> string, zones: set<string>, s: Store, steps: seq<Step>, c: Id)
    requires c < |s.contracts| && s.contracts[c].state == Terminated
    ensures c < |Run(sha, zones, s, steps).contracts| && Run(sha, zones, s, steps).contracts[c] == s.contracts[c]
    ensures forall version :: ActivateRow(s, c, version).Err?
  {
    HistoryKept(sha, zones, s, steps);
    assert ContractKept(s.contracts[c], Run(sha, zones, s, steps).contracts[c]);
  }

  // ---------------------------------------------------------------- retries

  /** The step repeats a key remembered by the time it is submitted. */
  predicate Resubmission(sha: string -> string, zones: set<string>, s: Store, steps: seq<Step>, i: nat)
    requires i < |steps|
  {
    steps[i].Invoke? && steps[i].call.key in Run(sha, zones, s, steps[..i]).results
  }

  /** The history with the steps at the positions `drop` left out. */
  function Without(steps: seq<Step>, drop: set<nat>): seq<Step>
    decreases |steps|
  {
    if steps == [] then []
    else
      var n := |steps| - 1;
      Without(steps[..n], drop) + if n in drop then [] else [steps[n]]
  }

  /** Retry erasure: leaving any resubmissions out of any history ends in the same state. */
  lemma {:induction false} RetryErasure(sha: string -> string, zones: set<string>, s: Store, steps: seq<Step>, drop: set<nat>)
    requires forall i :: i in drop && i < |steps| ==> Resubmission(sha, zones, s, steps, i)
    ensures Run(sha, zones, s, Without(steps, drop)) == Run(sha, zones, s, steps)
    decreases |steps|
  {
    if steps != [] {
      var n := |steps| - 1;
      forall i | i in drop && i < n ensures Resubmission(sha, zones, s, steps[..n], i) {
        assert Resubmission(sha, zones, s, steps, i);
        assert steps[..n][..i] == steps[..i];
      }
      RetryErasure(sha, zones, s, steps[..n], drop);
      if n in drop {
        assert Resubmission(sha, zones, s, steps, n);
        assert Without(steps, drop) == Without(steps[..n], drop);
      } else {
        RunSplits(sha, zones, s, Without(steps[..n], drop), [steps[n]]);
        var before := Run(sha, zones, s, steps[..n]);
        assert [steps[n]][..0] == [];
        assert Run(sha, zones, before, [steps[n]]) == Apply(sha, zones, Run(sha, zones, before, []), steps[n]);
      }
    }
  }

  /** A command committed: it succeeded under a key not used before. */
  predicate Commits(sha: string -> string, zones: set<string>, s: Store, call: Call) {
    call.key !in s.results && Execute(sha, zones, s, call).1.Ok?
  }

  /** Once a command committed, at any later time an identical resubmission, whoever makes it, returns the
      recorded response; a differing one is refused; a raced one is refused; and none changes anything. */
  lemma ResubmissionAnswers(
      sha: string -> string, zones: set<string>, s: Store, call: Call, steps: seq<Step>, again: Call)
    requires Commits(sha, zones, s, call) && again.key == call.key
    ensures var (after, response) := Execute(sha, zones, s, call);
      var later := Run(sha, zones, after, steps);
      var (end, answer) := Execute(sha, zones, later, again);
      && end == later
      && (!again.raced && RequestOf(again.command) == RequestOf(call.command) ==> answer == response)
      && (RequestOf(again.command) != RequestOf(call.command) ==> answer.Err?)
      && (again.raced ==> answer.Err?)
  {
    var after := Execute(sha, zones, s, call).0;
    HistoryKept(sha, zones, after, steps);
    assert call.key in after.results;
  }

  /** The number of commands in a history that committed. */
  function CommitCount(sha: string -> string, zones: set<string>, s: Store, steps: seq<Step>): nat
    decreases |steps|
  {
    if steps == [] then 0
    else
      var n := |steps| - 1;
      CommitCount(sha, zones, s, steps[..n])
      + if steps[n].Invoke? && Commits(sha, zones, Run(sha, zones, s, steps[..n]), steps[n].call) then 1 else 0
  }

  /** Audit rows, outbox rows and remembered results count the committed commands. */
  lemma {:induction false} BooksCountCommits(sha: string -> string, zones: set<string>, steps: seq<Step>)
    ensures var t, n := Run(sha, zones, EMPTY, steps), CommitCount(sha, zones, EMPTY, steps);
      |t.audit| == n && |t.outbox| == n && |t.results| == n
    decreases |steps|
  {
    ReachableIsLawful(sha, zones, steps);
    if steps != [] {
      var n := |steps| - 1;
      BooksCountCommits(sha, zones, steps[..n]);
      var before := Run(sha, zones, EMPTY, steps[..n]);
      if steps[n].Invoke? {
        var call := steps[n].call;
        var r := RequestOf(call.command);
        if Perform(sha, before, r, call.actor, call.human).Ok? {
          PerformKeepsRows(sha, before, r, call.actor, call.human);
        }
      }
    }
  }

  // ---------------------------------------------------------------- lock versions

  /** The command is a transition or an activation of contract `c`. */
  predicate MovesHead(r: Request, c: Id) {
    (r.AskTransitionContract? && r.contract == c) || (r.AskActivate? && r.contract == c)
  }

  /** A committed transition or activation raises the contract's lock version by one; every other command
      leaves the contract row alone. */
  lemma LockCountsMoves(sha: string -> string, zones: set<string>, s: Store, call: Call, c: Id)
    requires c < |s.contracts|
    ensures var t := Execute(sha, zones, s, call).0;
      && c < |t.contracts|
      && (if Commits(sha, zones, s, call) && MovesHead(RequestOf(call.command), c)
          then t.contracts[c].lockVersion == s.contracts[c].lockVersion + 1
          else t.contracts[c] == s.contracts[c])
  {
    var r := RequestOf(call.command);
    if Perform(sha, s, r, call.actor, call.human).Ok? { PerformCountsMoves(sha, s, r, call.actor, call.human, c); }
  }

  lemma PerformCountsMoves(sha: string -> string, s: Store, r: Request, actor: Principal, human: bool, c: Id)
    requires c < |s.contracts| && Perform(sha, s, r, actor, human).Ok?
    ensures var t := Perform(sha, s, r, actor, human).value.store;
      && c < |t.contracts|
      && (if MovesHead(r, c) then t.contracts[c].lockVersion == s.contracts[c].lockVersion + 1
          else t.contracts[c] == s.contracts[c])
  {
  }

  /** Two transitions of one contract quoting the same lock version cannot both take effect, whatever
      happens in between. */
  lemma QuotedLockWorksOnce(
      sha: string -> string, zones: set<string>, s: Store, first: Call, between: seq<Step>, second: Call, c: Id, n: nat)
    requires RequestOf(first.command).AskTransitionContract? && RequestOf(second.command).AskTransitionContract?
    requires RequestOf(first.command).contract == RequestOf(second.command).contract == c
    requires RequestOf(first.command).lock == RequestOf(second.command).lock == Some(n)
    requires Commits(sha, zones, s, first)
    ensures !Commits(sha, zones, Run(sha, zones, Execute(sha, zones, s, first).0, between), second)
  {
    var after := Execute(sha, zones, s, first).0;
    var later := Run(sha, zones, after, between);
    assert c < |s.contracts| && s.contracts[c].lockVersion == n;
    LockCountsMoves(sha, zones, s, first, c);
    HistoryKept(sha, zones, after, between);
    assert ContractKept(after.contracts[c], later.contracts[c]);
  }

  // ---------------------------------------------------------------- activation

  /** Superseding first leaves room for the one active version. */
  lemma OneActiveAfter(versions: seq<Version>, contract: Id, version: Id, row: Version)
    requires version < |versions| && row.contract == versions[version].contract == contract
    requires row.state == ActiveVersion && versions[version].state == Proposed
    ensures ActiveCount(Supersede(versions, contract)[version := row], contract) == 1
  {
    SupersedeCount(versions, contract, contract);
    ActiveCountUpdate(Supersede(versions, contract), contract, version, row);
  }

  /** A version can be activated exactly when it is proposed, exactly its required roles accepted its
      digest, and its contract is not terminated and its lock version not at its limit: the one-active index
      never fires. */
  lemma ActivationExactly(sha: string -> string, s: Store, contract: Id, version: Id)
    requires Lawful(sha, s)
    ensures ActivateRow(s, contract, version).Ok? <==>
      && contract < |s.contracts| && version < |s.versions| && s.versions[version].contract == contract
      && s.versions[version].state == Proposed
      && AcceptedRoles(s.acceptances, version, DigestOf(sha, s.versions[version].terms)) == Roles(s.versions[version].body.roles)
      && s.contracts[contract].state != Terminated && s.contracts[contract].lockVersion < MAX_INT
  {
    if contract < |s.contracts| && version < |s.versions| && s.versions[version].contract == contract {
      assert Sealed(sha, s.versions[version]);
      ActivationGuard(sha, s, contract, version);
    }
  }

  lemma ActivationGuard(sha: string -> string, s: Store, contract: Id, version: Id)
    requires contract < |s.contracts| && version < |s.versions| && s.versions[version].contract == contract
    requires Sealed(sha, s.versions[version])
    ensures ActivateRow(s, contract, version).Ok? <==>
      && s.versions[version].state == Proposed
      && AcceptedRoles(s.acceptances, version, DigestOf(sha, s.versions[version].terms)) == Roles(s.versions[version].body.roles)
      && s.contracts[contract].state != Terminated && s.contracts[contract].lockVersion < MAX_INT
  {
    if s.versions[version].state == Proposed {
      OneActiveAfter(s.versions, contract, version, s.versions[version].(state := ActiveVersion));
    }
  }

  // ---------------------------------------------------------------- acceptances nobody required

  /** An accepted role outside the required ones. */
  ghost predicate StrayRole(s: Store, version: Id) {
    && version < |s.versions| && s.versions[version].state == Proposed
    && exists a :: a in s.acceptances && a.version == version && Some(a.digest) == s.versions[version].digest
                && a.role !in Roles(s.versions[version].body.roles)
  }

  lemma StrayStep(sha: string -> string, zones: set<string>, s: Store, step: Step, version: Id)
    requires StrayRole(s, version)
    ensures StrayRole(Apply(sha, zones, s, step), version)
  {
    StepKept(sha, zones, s, step);
    var t := Apply(sha, zones, s, step);
    assert VersionKept(s.versions[version], t.versions[version]);
    var a :| a in s.acceptances && a.version == version && Some(a.digest) == s.versions[version].digest
          && a.role !in Roles(s.versions[version].body.roles);
    assert a in t.acceptances;
    assert a.role in AcceptedRoles(s.acceptances, version, a.digest);
    assert CannotActivate(s, version);
    StaysProposed(sha, zones, s, step, version);
  }

  /** Activating the version is refused, whatever contract the call names. */
  ghost predicate CannotActivate(s: Store, version: Id) {
    forall contract :: ActivateRow(s, contract, version).Err?
  }

  lemma PerformStaysProposed(sha: string -> string, s: Store, r: Request, actor: Principal, human: bool, version: Id)
    requires version < |s.versions| && s.versions[version].state == Proposed && CannotActivate(s, version)
    requires Perform(sha, s, r, actor, human).Ok?
    ensures var t := Perform(sha, s, r, actor, human).value.store; version < |t.versions| && t.versions[version].state == Proposed
  {
    if r.AskActivate? { ActivateOnlyStates(s, r.contract, r.version); }
  }

  /** A proposed version that cannot be activated is still proposed after the next step. */
  lemma StaysProposed(sha: string -> string, zones: set<string>, s: Store, step: Step, version: Id)
    requires version < |s.versions| && s.versions[version].state == Proposed && CannotActivate(s, version)
    ensures var t := Apply(sha, zones, s, step); version < |t.versions| && t.versions[version].state == Proposed
  {
    if step.Invoke? {
      var call, r := step.call, RequestOf(step.call.command);
      if Perform(sha, s, r, call.actor, call.human).Ok? { PerformStaysProposed(sha, s, r, call.actor, call.human, version); }
    }
  }

  /** The service records an acceptance for any role its principal has authority for. One outside the
      required roles can never be withdrawn, and the version stays proposed for ever. */
  lemma {:induction false} StrayRoleBlocksActivation(sha: string -> string, zones: set<string>, s: Store, steps: seq<Step>, version: Id)
    requires StrayRole(s, version)
    ensures StrayRole(Run(sha, zones, s, steps), version)
    decreases |steps|
  {
    if steps != [] {
      var n := |steps| - 1;
      StrayRoleBlocksActivation(sha, zones, s, steps[..n], version);
      StrayStep(sha, zones, Run(sha, zones, s, steps[..n]), steps[n], version);
    }
  }
}
