/** When a proposed version can still become active, whatever commands follow. */
module ContractActivation {
  import opened Basics
  import opened Contracts
  import opened ContractInvariant
  import opened ContractHistory
  import J = CanonicalJson

  // ---------------------------------------------------------------- what can follow

  /** A role the command names has at least this many characters. The service takes any role; the request
      bodies ahead of it demand one character. */
  predicate Names(c: Command, least: nat) {
    match c
    case Accept(_, _, _, role) => least <= |role|
    case ProvisionAuthority(_, role, _) => least <= |role|
    case _ => true
  }

  ghost predicate Sends(steps: seq<Step>, least: nat) {
    forall i :: 0 <= i < |steps| && steps[i].Invoke? ==> Names(steps[i].call.command, least)
  }

  /** Some history of such commands leads from `s` to `t`. */
  ghost predicate Reaches(sha: string -> string, zones: set<string>, least: nat, s: Store, t: Store) {
    exists steps :: Sends(steps, least) && Run(sha, zones, s, steps) == t
  }

  lemma ReachesSelf(sha: string -> string, zones: set<string>, least: nat, s: Store)
    ensures Reaches(sha, zones, least, s, s)
  {
    assert Sends([], least) && Run(sha, zones, s, []) == s;
  }

  lemma ReachesTransitive(sha: string -> string, zones: set<string>, least: nat, a: Store, b: Store, c: Store)
    requires Reaches(sha, zones, least, a, b) && Reaches(sha, zones, least, b, c)
    ensures Reaches(sha, zones, least, a, c)
  {
    var x :| Sends(x, least) && Run(sha, zones, a, x) == b;
    var y :| Sends(y, least) && Run(sha, zones, b, y) == c;
    RunSplits(sha, zones, a, x, y);
    assert Sends(x + y, least);
  }

  lemma ReachesNext(sha: string -> string, zones: set<string>, least: nat, s: Store, step: Step)
    requires step.Invoke? ==> Names(step.call.command, least)
    ensures Reaches(sha, zones, least, s, Apply(sha, zones, s, step))
  {
    assert Sends([step], least);
    assert [step][..0] == [];
    assert Run(sha, zones, s, [step]) == Apply(sha, zones, s, step);
  }

  lemma {:induction false} RunIsLawful(sha: string -> string, zones: set<string>, s: Store, steps: seq<Step>)
    requires Lawful(sha, s)
    ensures Lawful(sha, Run(sha, zones, s, steps))
    decreases |steps|
  {
    if steps != [] {
      var n := |steps| - 1;
      RunIsLawful(sha, zones, s, steps[..n]);
      StepKeeps(sha, zones, Run(sha, zones, s, steps[..n]), steps[n]);
    }
  }

  // ---------------------------------------------------------------- a key nobody used

  lemma {:induction false} NumeralsFill(keys: set<string>, n: nat)
    requires forall i: nat :: i < n ==> J.NatText(i) in keys
    ensures n <= |keys|
    decreases n
  {
    if n > 0 {
      var last := J.NatText(n - 1);
      forall i: nat | i < n - 1 ensures J.NatText(i) in keys - {last} {
        if J.NatText(i) == last { J.NatTextInjective(i, n - 1); }
      }
      NumeralsFill(keys - {last}, n - 1);
    }
  }

  /** A number no greater than the count of the keys in use is itself an unused key, so a key of 200 characters
      is long enough until 10^200 commands have committed. */
  lemma UnusedKey(results: map<string, Remembered>) returns (n: nat)
    ensures n <= |results| && J.NatText(n) !in results
  {
    assert |results.Keys| == |results|;
    if forall i: nat :: i < |results| + 1 ==> J.NatText(i) in results.Keys { NumeralsFill(results.Keys, |results| + 1); }
    n :| n < |results| + 1 && J.NatText(n) !in results;
  }

  /** The same rows, the books apart. */
  predicate SameRows(s: Store, t: Store) { s == t.(results := s.results, audit := s.audit, outbox := s.outbox) }

  /** A command that passes its checks can be made to commit, under a key nobody used. */
  lemma CanPerform(sha: string -> string, zones: set<string>, least: nat, s: Store, c: Command, actor: Principal) returns (t: Store)
    requires Names(c, least) && Validate(zones, RequestOf(c)).None? && Perform(sha, s, RequestOf(c), actor, true).Ok?
    ensures Reaches(sha, zones, least, s, t) && SameRows(t, Perform(sha, s, RequestOf(c), actor, true).value.store)
  {
    var n := UnusedKey(s.results);
    var call := Call(J.NatText(n), c, actor, true, false);
    t := Execute(sha, zones, s, call).0;
    assert t == Commit(call, RequestOf(c), Perform(sha, s, RequestOf(c), actor, true).value);
    ReachesNext(sha, zones, least, s, Invoke(call));
  }

  // ---------------------------------------------------------------- collecting acceptances

  /** A proposed version of an existing contract, sealed under this digest. */
  ghost predicate ProposedAs(s: Store, version: Id, digest: string) {
    && version < |s.versions| && s.versions[version].contract < |s.contracts|
    && s.versions[version].state == Proposed && s.versions[version].digest == Some(digest)
  }

  /** A role callers may send and the columns can hold. */
  predicate Grantable(role: string, least: nat) { least <= |role| <= ROLE_WIDTH && Storable(role) }

  lemma GrantRole(sha: string -> string, zones: set<string>, least: nat, s: Store, contract: Id, role: string, p: Principal) returns (t: Store)
    requires contract < |s.contracts| && Grantable(role, least)
    ensures Reaches(sha, zones, least, s, t) && Authority(contract, role, p) in t.authorities
    ensures t.versions == s.versions && t.contracts == s.contracts && t.acceptances == s.acceptances
  {
    if Authority(contract, role, p) in s.authorities {
      t := s;
      ReachesSelf(sha, zones, least, s);
    } else {
      t := CanPerform(sha, zones, least, s, ProvisionAuthority(contract, role, p), p);
    }
  }

  /** Any such role, required or not, can be made to accept. */
  lemma AcceptRole(sha: string -> string, zones: set<string>, least: nat, s: Store, version: Id, digest: string, role: string) returns (t: Store)
    requires ProposedAs(s, version, digest) && Grantable(role, least)
    requires role !in AcceptedRoles(s.acceptances, version, digest)
    ensures Reaches(sha, zones, least, s, t) && t.versions == s.versions && t.contracts == s.contracts
    ensures t.acceptances == s.acceptances + [Acceptance(version, digest, role, 0)]
    ensures AcceptedRoles(t.acceptances, version, digest) == AcceptedRoles(s.acceptances, version, digest) + {role}
  {
    var contract := s.versions[version].contract;
    var m := GrantRole(sha, zones, least, s, contract, role, 0);
    t := CanPerform(sha, zones, least, m, Accept(contract, version, digest, role), 0);
    ReachesTransitive(sha, zones, least, s, m, t);
  }

  lemma {:induction false} AcceptAll(
      sha: string -> string, zones: set<string>, least: nat, s: Store, version: Id, digest: string, missing: set<string>) returns (t: Store)
    requires ProposedAs(s, version, digest) && missing !! AcceptedRoles(s.acceptances, version, digest)
    requires forall role :: role in missing ==> Grantable(role, least)
    ensures Reaches(sha, zones, least, s, t) && t.versions == s.versions && t.contracts == s.contracts
    ensures AcceptedRoles(t.acceptances, version, digest) == AcceptedRoles(s.acceptances, version, digest) + missing
    decreases missing
  {
    if missing == {} {
      t := s;
      ReachesSelf(sha, zones, least, s);
    } else {
      var role :| role in missing;
      var m := AcceptRole(sha, zones, least, s, version, digest, role);
      t := AcceptAll(sha, zones, least, m, version, digest, missing - {role});
      ReachesTransitive(sha, zones, least, s, m, t);
    }
  }

  // ---------------------------------------------------------------- exactly when

  /** After these steps the version is active. */
  ghost predicate Activates(sha: string -> string, zones: set<string>, s: Store, steps: seq<Step>, version: Id) {
    var t := Run(sha, zones, s, steps);
    version < |t.versions| && t.versions[version].state == ActiveVersion
  }

  /** Every required role has a length that callers may send and the columns can hold. */
  ghost predicate RolesSized(s: Store, version: Id, least: nat)
    requires version < |s.versions|
  {
    forall r :: r in Roles(s.versions[version].body.roles) ==> least <= |r| <= ROLE_WIDTH
  }

  /** Without a stray acceptance, the roles still missing can all accept. */
  lemma CompleteAcceptances(sha: string -> string, zones: set<string>, least: nat, s: Store, version: Id) returns (t: Store)
    requires version < |s.versions| && s.versions[version].state == Proposed && !StrayRole(s, version)
    requires Sealed(sha, s.versions[version]) && s.versions[version].contract < |s.contracts|
    requires RolesSized(s, version, least)
    ensures Reaches(sha, zones, least, s, t) && t.versions == s.versions && t.contracts == s.contracts
    ensures AcceptedRoles(t.acceptances, version, DigestOf(sha, s.versions[version].terms)) == Roles(s.versions[version].body.roles)
  {
    var digest, missing := MissingRoles(sha, least, s, version);
    t := AcceptAll(sha, zones, least, s, version, digest, missing);
  }

  lemma MissingRoles(sha: string -> string, least: nat, s: Store, version: Id) returns (digest: string, missing: set<string>)
    requires version < |s.versions| && s.versions[version].state == Proposed && !StrayRole(s, version)
    requires Sealed(sha, s.versions[version]) && s.versions[version].contract < |s.contracts|
    requires RolesSized(s, version, least)
    ensures digest == DigestOf(sha, s.versions[version].terms) && ProposedAs(s, version, digest)
    ensures missing !! AcceptedRoles(s.acceptances, version, digest)
    ensures AcceptedRoles(s.acceptances, version, digest) + missing == Roles(s.versions[version].body.roles)
    ensures forall role :: role in missing ==> Grantable(role, least)
  {
    var v := s.versions[version];
    digest := DigestOf(sha, v.terms);
    var accepted := AcceptedRoles(s.acceptances, version, digest);
    missing := Roles(v.body.roles) - accepted;
    forall role | role in accepted ensures role in Roles(v.body.roles) {
      var a :| a in s.acceptances && a.version == version && a.digest == digest && a.role == role;
    }
  }

  lemma ReachedIsLawful(sha: string -> string, zones: set<string>, least: nat, s: Store, t: Store)
    requires Lawful(sha, s) && Reaches(sha, zones, least, s, t)
    ensures Lawful(sha, t)
  {
    var steps :| Sends(steps, least) && Run(sha, zones, s, steps) == t;
    RunIsLawful(sha, zones, s, steps);
  }

  /** A version that may be activated can be, by one more command. */
  lemma ActivateNow(sha: string -> string, zones: set<string>, least: nat, s: Store, contract: Id, version: Id) returns (t: Store)
    requires ActivateRow(s, contract, version).Ok?
    ensures Reaches(sha, zones, least, s, t) && version < |t.versions| && t.versions[version].state == ActiveVersion
  {
    t := CanPerform(sha, zones, least, s, Activate(contract, version), 0);
  }

  lemma ActivatesInTheEnd(sha: string -> string, zones: set<string>, least: nat, s: Store, version: Id) returns (steps: seq<Step>)
    requires version < |s.versions| && s.versions[version].state == Proposed
    requires Sealed(sha, s.versions[version]) && s.versions[version].contract < |s.contracts|
    requires Movable(s.contracts[s.versions[version].contract]) && !StrayRole(s, version) && RolesSized(s, version, least)
    ensures Sends(steps, least) && Activates(sha, zones, s, steps, version)
  {
    var contract := s.versions[version].contract;
    var m := CompleteAcceptances(sha, zones, least, s, version);
    assert ActivateRow(m, contract, version).Ok? by { ActivationGuard(sha, m, contract, version); }
    var t := ActivateNow(sha, zones, least, m, contract, version);
    ReachesTransitive(sha, zones, least, s, m, t);
    steps :| Sends(steps, least) && Run(sha, zones, s, steps) == t;
  }

  /** The contract is not terminated, and its lock version can still be counted up. */
  predicate Movable(c: Contract) { c.state != Terminated && c.lockVersion < MAX_INT }

  /** The version's contract can move no more. */
  ghost predicate Orphaned(s: Store, version: Id) {
    && version < |s.versions| && s.versions[version].state == Proposed
    && s.versions[version].contract < |s.contracts| && !Movable(s.contracts[s.versions[version].contract])
  }

  lemma {:induction false} OrphanedForEver(sha: string -> string, zones: set<string>, s: Store, steps: seq<Step>, version: Id)
    requires Orphaned(s, version)
    ensures Orphaned(Run(sha, zones, s, steps), version)
    decreases |steps|
  {
    if steps != [] {
      var n := |steps| - 1;
      OrphanedForEver(sha, zones, s, steps[..n], version);
      OrphanedStep(sha, zones, Run(sha, zones, s, steps[..n]), steps[n], version);
    }
  }

  lemma OrphanedStep(sha: string -> string, zones: set<string>, s: Store, step: Step, version: Id)
    requires Orphaned(s, version)
    ensures Orphaned(Apply(sha, zones, s, step), version)
  {
    var t, c := Apply(sha, zones, s, step), s.versions[version].contract;
    StepKept(sha, zones, s, step);
    assert ContractKept(s.contracts[c], t.contracts[c]) && VersionKept(s.versions[version], t.versions[version]);
    assert CannotActivate(s, version);
    StaysProposed(sha, zones, s, step, version);
  }

  /** Every accepted role was sent with at least this many characters. */
  ghost predicate Sent(s: Store, least: nat) {
    forall i :: 0 <= i < |s.acceptances| ==> least <= |s.acceptances[i].role|
  }

  lemma StepSent(sha: string -> string, zones: set<string>, least: nat, s: Store, step: Step)
    requires Sent(s, least) && least <= ROLE_WIDTH && (step.Invoke? ==> Names(step.call.command, least))
    ensures Sent(Apply(sha, zones, s, step), least)
  {
    if step.Invoke? {
      var call, r := step.call, RequestOf(step.call.command);
      if Perform(sha, s, r, call.actor, call.human).Ok? { PerformSent(sha, least, s, call.command, call.actor, call.human); }
    }
  }

  lemma PerformSent(sha: string -> string, least: nat, s: Store, c: Command, actor: Principal, human: bool)
    requires Sent(s, least) && least <= ROLE_WIDTH && Names(c, least) && Perform(sha, s, RequestOf(c), actor, human).Ok?
    ensures Sent(Perform(sha, s, RequestOf(c), actor, human).value.store, least)
  {
  }

  /** A required role is too long for its column, or shorter than callers may send, and so never accepts. */
  ghost predicate Unacceptable(sha: string -> string, s: Store, version: Id, least: nat) {
    && Lawful(sha, s) && Sent(s, least)
    && version < |s.versions| && s.versions[version].state == Proposed && !RolesSized(s, version, least)
  }

  lemma UnacceptableStep(sha: string -> string, zones: set<string>, least: nat, s: Store, step: Step, version: Id)
    requires Unacceptable(sha, s, version, least) && least <= ROLE_WIDTH
    requires step.Invoke? ==> Names(step.call.command, least)
    ensures Unacceptable(sha, Apply(sha, zones, s, step), version, least)
  {
    StepKeeps(sha, zones, s, step);
    StepSent(sha, zones, least, s, step);
    StepKept(sha, zones, s, step);
    assert VersionKept(s.versions[version], Apply(sha, zones, s, step).versions[version]);
    NobodyAccepts(sha, s, version, least);
    StaysProposed(sha, zones, s, step, version);
  }

  lemma NobodyAccepts(sha: string -> string, s: Store, version: Id, least: nat)
    requires Unacceptable(sha, s, version, least)
    ensures CannotActivate(s, version)
  {
    var r :| r in Roles(s.versions[version].body.roles) && !(least <= |r| <= ROLE_WIDTH);
    forall digest ensures r !in AcceptedRoles(s.acceptances, version, digest) { }
  }

  lemma {:induction false} UnacceptableForEver(
      sha: string -> string, zones: set<string>, least: nat, s: Store, steps: seq<Step>, version: Id)
    requires Unacceptable(sha, s, version, least) && least <= ROLE_WIDTH && Sends(steps, least)
    ensures Unacceptable(sha, Run(sha, zones, s, steps), version, least)
    decreases |steps|
  {
    if steps != [] {
      var n := |steps| - 1;
      UnacceptableForEver(sha, zones, least, s, steps[..n], version);
      UnacceptableStep(sha, zones, least, Run(sha, zones, s, steps[..n]), steps[n], version);
    }
  }

  /** Nothing stands in the way of the version for good. */
  ghost predicate Activatable(s: Store, version: Id, least: nat)
    requires version < |s.versions| && s.versions[version].contract < |s.contracts|
  {
    Movable(s.contracts[s.versions[version].contract]) && !StrayRole(s, version) && RolesSized(s, version, least)
  }

  /** A proposed version can still become active exactly when its contract is not terminated nor its lock version
      at its limit, no role accepted it that is not required, and every required role has a length that callers
      may send and the columns hold: 0 to 64 characters at the service, 1 to 64 through the request bodies. */
  lemma ActivatableExactly(sha: string -> string, zones: set<string>, least: nat, s: Store, version: Id)
    requires Lawful(sha, s) && version < |s.versions| && s.versions[version].state == Proposed
    requires least <= ROLE_WIDTH && Sent(s, least)
    ensures s.versions[version].contract < |s.contracts|
    ensures (exists steps :: Sends(steps, least) && Activates(sha, zones, s, steps, version)) <==> Activatable(s, version, least)
  {
    assert Sealed(sha, s.versions[version]);
    forall steps | Sends(steps, least) && Activates(sha, zones, s, steps, version) ensures Activatable(s, version, least) {
      ActivatedWasActivatable(sha, zones, least, s, steps, version);
    }
    if Activatable(s, version, least) {
      var steps := ActivatesInTheEnd(sha, zones, least, s, version);
      assert Sends(steps, least) && Activates(sha, zones, s, steps, version);
    }
  }

  lemma ActivatedWasActivatable(sha: string -> string, zones: set<string>, least: nat, s: Store, steps: seq<Step>, version: Id)
    requires Lawful(sha, s) && version < |s.versions| && s.versions[version].state == Proposed
    requires s.versions[version].contract < |s.contracts|
    requires least <= ROLE_WIDTH && Sent(s, least) && Sends(steps, least) && Activates(sha, zones, s, steps, version)
    ensures Activatable(s, version, least)
  {
    if StrayRole(s, version) { StrayRoleBlocksActivation(sha, zones, s, steps, version); }
    if Orphaned(s, version) { OrphanedForEver(sha, zones, s, steps, version); }
    if !RolesSized(s, version, least) { UnacceptableForEver(sha, zones, least, s, steps, version); }
  }

  /** Calls that name roles of at least this length leave only such acceptances. */
  lemma {:induction false} SentFromEmpty(sha: string -> string, zones: set<string>, least: nat, steps: seq<Step>)
    requires least <= ROLE_WIDTH && Sends(steps, least)
    ensures Sent(Run(sha, zones, EMPTY, steps), least)
    decreases |steps|
  {
    if steps != [] {
      var n := |steps| - 1;
      SentFromEmpty(sha, zones, least, steps[..n]);
      StepSent(sha, zones, least, Run(sha, zones, EMPTY, steps[..n]), steps[n]);
    }
  }

  // ---------------------------------------------------------------- and that it happens

  /** Whatever proposed version there is, a role that nobody required can accept it, if its columns hold it. */
  lemma StrayRoleHappens(sha: string -> string, zones: set<string>, least: nat, s: Store, version: Id, role: string) returns (t: Store)
    requires Lawful(sha, s) && version < |s.versions| && s.versions[version].state == Proposed
    requires role !in Roles(s.versions[version].body.roles) && Grantable(role, least)
    ensures Reaches(sha, zones, least, s, t) && StrayRole(t, version) && t.contracts == s.contracts && t.versions == s.versions
  {
    var digest := DigestOf(sha, s.versions[version].terms);
    assert Sealed(sha, s.versions[version]);
    if role in AcceptedRoles(s.acceptances, version, digest) {
      t := s;
      ReachesSelf(sha, zones, least, s);
      var a :| a in s.acceptances && a.version == version && a.digest == digest && a.role == role;
    } else {
      t := AcceptRole(sha, zones, least, s, version, digest, role);
      var a := Acceptance(version, digest, role, 0);
      assert t.acceptances[|s.acceptances|] == a;
    }
  }

  const NO_CONDITIONS := J.Dict([])

  lemma RuleReached(sha: string -> string, zones: set<string>, least: nat) returns (s: Store)
    ensures Reaches(sha, zones, least, EMPTY, s)
    ensures s == EMPTY.(contracts := [Contract(Draft, 0)], rules := s.rules, results := s.results, audit := s.audit, outbox := s.outbox)
    ensures |s.rules| == 1
  {
    var a := CanPerform(sha, zones, least, EMPTY, CreateContract, 0);
    assert Storable("attendance");
    s := CanPerform(sha, zones, least, a, CreateRule("attendance"), 0);
    ReachesTransitive(sha, zones, least, EMPTY, a, s);
  }

  /** A rule that attended bookings satisfy is published. */
  lemma PublishedRuleReached(sha: string -> string, zones: set<string>, least: nat) returns (s: Store)
    ensures Reaches(sha, zones, least, EMPTY, s)
    ensures s.contracts == [Contract(Draft, 0)] && |s.ruleVersions| == 1 && s.ruleVersions[0].state == Published
    ensures s.versions == [] && s.acceptances == []
  {
    var a := RuleReached(sha, zones, least);
    var b := RuleVersionReached(sha, zones, least, a);
    ReachesTransitive(sha, zones, least, EMPTY, a, b);
    s := CanPerform(sha, zones, least, b, TransitionRule(0, 0, true), 0);
    ReachesTransitive(sha, zones, least, EMPTY, b, s);
  }

  lemma RuleVersionReached(sha: string -> string, zones: set<string>, least: nat, s: Store) returns (t: Store)
    requires |s.rules| == 1 && s.ruleVersions == []
    ensures Reaches(sha, zones, least, s, t)
    ensures t.contracts == s.contracts && t.versions == s.versions && t.acceptances == s.acceptances
    ensures exists v :: t.ruleVersions == [v] && v.rule == 0 && v.state == DraftRule && ValidRule(v.template, v.definition)
  {
    EmptyDefinition();
    assert RuleSerials(s.ruleVersions) == [];
    var c := CreateRuleVersion(0, "attended_booking", NO_CONDITIONS);
    assert RequestOf(c) == AskCreateRuleVersion(0, "attended_booking", J.Canon(NO_CONDITIONS));
    t := CanPerform(sha, zones, least, s, c, 0);
    assert t.ruleVersions == [RuleVersion(0, 1, "attended_booking", J.Canon(NO_CONDITIONS), DraftRule, None)];
  }

  lemma EmptyDefinition()
    ensures ValidRule("attended_booking", J.Canon(NO_CONDITIONS))
  {
    assert J.Canon(NO_CONDITIONS) == J.JObject([]);
    assert J.Print(J.JObject([])) == "{}";
    assert Utf8Length("{}") == 2;
  }

  /** From an empty database a version is proposed that requires these roles, however long they are. */
  lemma ProposedVersionReached(sha: string -> string, zones: set<string>, least: nat, zone: string, roles: seq<string>) returns (t: Store)
    requires zone in zones && Varchar(64, zone) == Some(zone) && forall r :: r in roles ==> Storable(r)
    ensures Reaches(sha, zones, least, EMPTY, t) && t.contracts == [Contract(Draft, 0)]
    ensures t.acceptances == [] && |t.versions| == 1 && t.versions[0].state == Proposed && t.versions[0].contract == 0 && t.versions[0].body.roles == roles
  {
    var s := PublishedRuleReached(sha, zones, least);
    var body := BookingBody(zone, roles);
    BookingFits(zones, zone, roles);
    var m := DraftReached(sha, zones, least, s, body);
    ReachesTransitive(sha, zones, least, EMPTY, s, m);
    t := CanPerform(sha, zones, least, m, Propose(0, 0), 0);
    ReachesTransitive(sha, zones, least, EMPTY, m, t);
  }

  function BookingBody(zone: string, roles: seq<string>): Body {
    Body("Bookings", None, "booking.created", roles, 0, zone, "USD", FixedFee, Some(100), None, None, None, 0, 0, 0, 0, None)
  }

  /** The body passes the service's validation and fits its columns. */
  ghost predicate Insertable(zones: set<string>, body: Body) {
    && Validate(zones, AskCreateVersion(0, body, J.Canon(NO_CONDITIONS))).None?
    && Upper(body.currency) == body.currency && VersionChecks(body) && Columns(body) == Some(body)
  }

  lemma BookingFits(zones: set<string>, zone: string, roles: seq<string>)
    requires zone in zones && Varchar(64, zone) == Some(zone) && forall r :: r in roles ==> Storable(r)
    ensures Insertable(zones, BookingBody(zone, roles))
  {
    SameUpper();
    assert Storable("Bookings") && Storable("booking.created");
  }

  lemma DraftReached(sha: string -> string, zones: set<string>, least: nat, s: Store, body: Body) returns (t: Store)
    requires s.contracts == [Contract(Draft, 0)] && s.versions == [] && s.acceptances == []
    requires body.ruleVersion < |s.ruleVersions| && s.ruleVersions[body.ruleVersion].state == Published
    requires Insertable(zones, body)
    ensures Reaches(sha, zones, least, s, t) && t.contracts == s.contracts && t.acceptances == []
    ensures t.versions == [Version(0, 1, body, J.Canon(NO_CONDITIONS), DraftVersion, None)]
  {
    assert Serials(s.versions) == [];
    var c := CreateVersion(0, body, NO_CONDITIONS);
    assert RequestOf(c) == AskCreateVersion(0, body, J.Canon(NO_CONDITIONS));
    t := CanPerform(sha, zones, least, s, c, 0);
  }

  lemma SameUpper()
    ensures Upper("USD") == "USD"
  {
  }

  /** From an empty database, commands the service accepts lead to a version that can never be activated
      although its contract is not terminated: a principal accepted for a role outside the required ones. */
  lemma StuckVersionReached(sha: string -> string, zones: set<string>, least: nat, zone: string, roles: seq<string>, role: string)
      returns (steps: seq<Step>)
    requires zone in zones && Varchar(64, zone) == Some(zone) && forall r :: r in roles ==> Storable(r)
    requires role !in roles && Grantable(role, least)
    ensures Sends(steps, least)
    ensures var s := Run(sha, zones, EMPTY, steps);
      StrayRole(s, 0) && s.versions[0].contract == 0 && s.contracts == [Contract(Draft, 0)]
    ensures forall more :: !Activates(sha, zones, Run(sha, zones, EMPTY, steps), more, 0)
  {
    var s := ProposedVersionReached(sha, zones, least, zone, roles);
    ReachedIsLawful(sha, zones, least, EMPTY, s);
    var t := StrayRoleHappens(sha, zones, least, s, 0, role);
    ReachesTransitive(sha, zones, least, EMPTY, s, t);
    steps :| Sends(steps, least) && Run(sha, zones, EMPTY, steps) == t;
    forall more ensures !Activates(sha, zones, t, more, 0) { StrayRoleBlocksActivation(sha, zones, t, more, 0); }
  }

  /** And so does a required role that nobody can be granted: too long for its column, or too short to be sent.
      No role has accepted, stray or not, and no one ever can complete the acceptances. */
  lemma UnacceptableVersionReached(sha: string -> string, zones: set<string>, least: nat, zone: string, roles: seq<string>)
      returns (steps: seq<Step>)
    requires zone in zones && Varchar(64, zone) == Some(zone) && forall r :: r in roles ==> Storable(r)
    requires least <= ROLE_WIDTH && exists r :: r in roles && !(least <= |r| <= ROLE_WIDTH)
    ensures Sends(steps, least)
    ensures var s := Run(sha, zones, EMPTY, steps);
      && s.acceptances == [] && s.contracts == [Contract(Draft, 0)]
      && |s.versions| == 1 && s.versions[0].contract == 0 && s.versions[0].state == Proposed
    ensures forall more :: Sends(more, least) ==> !Activates(sha, zones, Run(sha, zones, EMPTY, steps), more, 0)
  {
    var s := ProposedVersionReached(sha, zones, least, zone, roles);
    ReachedIsLawful(sha, zones, least, EMPTY, s);
    steps :| Sends(steps, least) && Run(sha, zones, EMPTY, steps) == s;
    var r :| r in roles && !(least <= |r| <= ROLE_WIDTH);
    assert r in Roles(s.versions[0].body.roles);
    forall more | Sends(more, least) ensures !Activates(sha, zones, s, more, 0) {
      UnacceptableForEver(sha, zones, least, s, more, 0);
    }
  }
}
