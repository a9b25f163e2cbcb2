/** The contract command service over its tables: each command writes row by row, an abort may leave it
    half way, and the transaction around it commits all of it or nothing. */
module ContractService {
  import opened Basics
  import opened Contracts
  import opened ContractInvariant
  import J = CanonicalJson

  /** What an operation returns to the transaction: its response and the event to record. */
  datatype Written = Written(response: Response, event: string, aggregate: Aggregate)

  class Service {
    const sha: string -> string
    const zones: set<string>
    var contracts: seq<Contract>
    var rules: seq<string>
    var ruleVersions: seq<RuleVersion>
    var versions: seq<Version>
    var acceptances: seq<Acceptance>
    var authorities: seq<Authority>
    var bindings: seq<Binding>
    var results: map<string, Remembered>
    var audit: seq<Audit>
    var outbox: seq<Outbox>

    function Rows(): Store
      reads this
    {
      Store(contracts, rules, ruleVersions, versions, acceptances, authorities, bindings, results, audit, outbox)
    }

    constructor (sha: string -> string, zones: set<string>)
      ensures Rows() == EMPTY && this.sha == sha && this.zones == zones
    {
      this.sha, this.zones := sha, zones;
      contracts, rules, ruleVersions, versions := [], [], [], [];
      acceptances, authorities, bindings := [], [], [];
      results, audit, outbox := map[], [], [];
    }

    /** SELECT ... FOR UPDATE of the aggregate, at the quoted lock version if one is quoted. */
    method LockContract(id: Id, lock: Option<nat>) returns (row: Option<Contract>)
      ensures row.Some? <==> id < |contracts| && (lock.Some? ==> contracts[id].lockVersion == lock.value)
      ensures row.Some? ==> row.value == contracts[id]
    {
      if id >= |contracts| || (lock.Some? && contracts[id].lockVersion != lock.value) { return None; }
      return Some(contracts[id]);
    }

    /** An UPDATE of one contract row; the trigger or the range of lock_version may abort it. */
    method UpdateContract(id: Id, row: Contract) returns (ok: bool)
      requires id < |contracts|
      modifies `contracts
      ensures ok == (ContractTrigger(old(contracts)[id].state, row.state) && row.lockVersion <= MAX_INT)
      ensures contracts == if ok then old(contracts)[id := row] else old(contracts)
    {
      ok := ContractTrigger(contracts[id].state, row.state) && row.lockVersion <= MAX_INT;
      if ok { contracts := contracts[id := row]; }
    }

    /** An UPDATE of one version row; the trigger or the one-active index may abort it. */
    method UpdateVersion(id: Id, row: Version) returns (ok: bool)
      requires id < |versions|
      modifies `versions
      ensures ok == (VersionTrigger(old(versions)[id], row) &&
                     (row.state == ActiveVersion ==> ActiveCount(old(versions)[id := row], row.contract) <= 1))
      ensures versions == if ok then old(versions)[id := row] else old(versions)
    {
      ok := VersionTrigger(versions[id], row) && (row.state == ActiveVersion ==> ActiveCount(versions[id := row], row.contract) <= 1);
      if ok { versions := versions[id := row]; }
    }

    method TransitionRule(rule: Id, version: Id, publish: bool) returns (res: Result<Written, Error>)
      modifies `ruleVersions
      ensures Agrees(TransitionRuleRow(sha, old(Rows()), rule, version, publish), Rows(), res)
    {
      if version >= |ruleVersions| || ruleVersions[version].rule != rule { return Err(ResourceNotFound); }
      var row := ruleVersions[version];
      var expected, target := DraftRule, Published;
      if !publish { expected, target := Published, Retired; }
      if row.state != expected { return Err(InvalidLifecycle); }
      if publish && !ValidRule(row.template, row.definition) { return Err(InvalidRuleDefinition); }
      var digest := DigestOf(sha, row.definition);
      var after := row.(state := target, digest := if row.digest.Some? then row.digest else Some(digest));
      if !RuleTrigger(row, after) { return Err(DatabaseRejected); }
      ruleVersions := ruleVersions[version := after];
      res := Ok(Written(RuleVersionResponse(version, rule, row.number, target, Some(digest)),
                        if publish then "rule_version_published" else "rule_version_retireed", OfRule(rule)));
    }

    method CreateVersion(contract: Id, body: Body, terms: J.Json) returns (res: Result<Written, Error>)
      modifies `versions
      ensures Agrees(CreateVersionRow(old(Rows()), contract, body, terms), Rows(), res)
    {
      var head := LockContract(contract, None);
      if head.None? { return Err(ResourceNotFound); }
      if body.ruleVersion >= |ruleVersions| || ruleVersions[body.ruleVersion].state != Published { return Err(PublishedRuleRequired); }
      var id, number := |versions|, LastNumber(Serials(versions), contract) + 1;
      var stored := Columns(body);
      if !VersionChecks(body) || stored.None? || number > MAX_INT { return Err(DatabaseRejected); }
      versions := versions + [Version(contract, number, stored.value, terms, DraftVersion, None)];
      res := Ok(Written(VersionResponse(id, contract, number, DraftVersion, None), "contract_version_created", OfContract(contract)));
    }

    method Propose(contract: Id, version: Id) returns (res: Result<Written, Error>)
      modifies `versions
      ensures Agrees(ProposeRow(sha, old(Rows()), contract, version), Rows(), res)
    {
      var head := LockContract(contract, None);
      if head.None? || version >= |versions| || versions[version].contract != contract { return Err(ResourceNotFound); }
      var row := versions[version];
      if row.state != DraftVersion { return Err(InvalidLifecycle); }
      var digest := DigestOf(sha, row.terms);
      var ok := UpdateVersion(version, row.(state := Proposed, digest := Some(digest)));
      if !ok { return Err(DatabaseRejected); }
      res := Ok(Written(VersionResponse(version, contract, row.number, Proposed, Some(digest)),
                        "contract_version_proposeed", OfContract(contract)));
    }

    method Accept(contract: Id, version: Id, digest: string, role: string, actor: Principal, human: bool)
        returns (res: Result<Written, Error>)
      modifies `acceptances
      ensures Agrees(AcceptRow(old(Rows()), contract, version, digest, role, actor, human), Rows(), res)
    {
      var head := LockContract(contract, None);
      if head.None? || version >= |versions| || versions[version].contract != contract { return Err(ResourceNotFound); }
      var row := versions[version];
      if !human { return Err(HumanPrincipalRequired); }
      if !Storable(role) { return Err(DatabaseRejected); }
      var authority := Authority(contract, role, actor) in authorities;
      if row.state != Proposed || Some(digest) != row.digest || !authority { return Err(AcceptanceNotAuthorized); }
      var stored := Varchar(ROLE_WIDTH, role);
      if stored.None? || stored.value in AcceptedRoles(acceptances, version, digest) { return Err(DatabaseRejected); }
      acceptances := acceptances + [Acceptance(version, digest, stored.value, actor)];
      res := Ok(Written(VersionResponse(version, contract, row.number, row.state, row.digest),
                        "contract_version_accepted", OfContract(contract)));
    }

    /** Three updates in a row; the last one aborts when the contract is terminated. */
    method Install(contract: Id, version: Id, row: Version) returns (ok: bool)
      requires contract < |contracts| && version < |versions|
      modifies `versions, `contracts
      ensures var superseded, head := Supersede(old(versions), contract), old(contracts)[contract];
        && (ok <==>
             && VersionTrigger(superseded[version], row)
             && (row.state == ActiveVersion ==> ActiveCount(superseded[version := row], row.contract) <= 1)
             && ContractTrigger(head.state, Active) && head.lockVersion < MAX_INT)
        && (ok ==> versions == superseded[version := row])
        && (ok ==> contracts == old(contracts)[contract := Contract(Active, head.lockVersion + 1)])
    {
      versions := Supersede(versions, contract);
      ok := UpdateVersion(version, row);
      if ok { ok := UpdateContract(contract, Contract(Active, contracts[contract].lockVersion + 1)); }
    }

    method Activate(contract: Id, version: Id) returns (res: Result<Written, Error>)
      modifies `versions, `contracts
      ensures Agrees(ActivateRow(old(Rows()), contract, version), Rows(), res)
    {
      var head := LockContract(contract, None);
      if head.None? || version >= |versions| || versions[version].contract != contract { return Err(ResourceNotFound); }
      var row := versions[version];
      var accepted := if row.digest.None? then {} else AcceptedRoles(acceptances, version, row.digest.value);
      if row.state != Proposed || Roles(row.body.roles) != accepted { return Err(AcceptancesRequired); }
      var ok := Install(contract, version, row.(state := ActiveVersion));
      if !ok { return Err(DatabaseRejected); }
      res := Ok(Written(VersionResponse(version, contract, row.number, ActiveVersion, row.digest),
                        "contract_version_activateed", OfContract(contract)));
    }

    method TransitionContract(contract: Id, action: Action, lock: Option<nat>) returns (res: Result<Written, Error>)
      modifies `contracts
      ensures Agrees(TransitionContractRow(old(Rows()), contract, action, lock), Rows(), res)
    {
      var locked := LockContract(contract, lock);
      if locked.None? { return Err(ConcurrencyConflict); }
      var row, target := locked.value, Target(action);
      if !Allowed(row.state, target) { return Err(InvalidLifecycle); }
      var ok := UpdateContract(contract, Contract(target, row.lockVersion + 1));
      if !ok { return Err(DatabaseRejected); }
      res := Ok(Written(ContractResponse(contract, target, row.lockVersion + 1), "contract_" + ActionText(action) + "ed", OfContract(contract)));
    }

    method ProvisionAuthority(contract: Id, role: string, principal: Principal) returns (res: Result<Written, Error>)
      modifies `authorities
      ensures Agrees(ProvisionAuthorityRow(old(Rows()), contract, role, principal), Rows(), res)
    {
      var head := LockContract(contract, None);
      if head.None? { return Err(ResourceNotFound); }
      var stored := Varchar(ROLE_WIDTH, role);
      if stored.None? || Authority(contract, stored.value, principal) in authorities { return Err(DatabaseRejected); }
      var id := |authorities|;
      authorities := authorities + [Authority(contract, stored.value, principal)];
      res := Ok(Written(AuthorityResponse(id, contract, role, principal), "contract_party_authority_granted", OfContract(contract)));
    }

    method Create(r: Request) returns (res: Result<Written, Error>)
      requires r.AskCreateContract? || r.AskCreateRule? || r.AskCreateRuleVersion?
      modifies `contracts, `rules, `ruleVersions
      ensures Agrees(Perform(sha, old(Rows()), r, 0, true), Rows(), res)
    {
      match r
      case AskCreateContract =>
        var id := |contracts|;
        contracts := contracts + [Contract(Draft, 0)];
        res := Ok(Written(ContractResponse(id, Draft, 0), "contract_created", OfContract(id)));
      case AskCreateRule(name) =>
        var id := |rules|;
        var stored := Varchar(160, name);
        if stored.None? || stored.value in rules { return Err(DatabaseRejected); }
        rules := rules + [stored.value];
        res := Ok(Written(RuleResponse(id, name), "outcome_rule_created", OfRule(id)));
      case AskCreateRuleVersion(rule, template, definition) =>
        if rule >= |rules| { return Err(ResourceNotFound); }
        var id, number := |ruleVersions|, LastNumber(RuleSerials(ruleVersions), rule) + 1;
        if number > MAX_INT { return Err(DatabaseRejected); }
        ruleVersions := ruleVersions + [RuleVersion(rule, number, template, definition, DraftRule, None)];
        res := Ok(Written(RuleVersionResponse(id, rule, number, DraftRule, None), "rule_version_created", OfRule(rule)));
    }

    method Operate(r: Request, actor: Principal, human: bool) returns (res: Result<Written, Error>)
      modifies `contracts, `rules, `ruleVersions, `versions, `acceptances, `authorities
      ensures Agrees(Perform(sha, old(Rows()), r, actor, human), Rows(), res)
    {
      match r
      case AskTransitionRule(rule, version, publish) => res := TransitionRule(rule, version, publish);
      case AskCreateVersion(contract, body, terms) => res := CreateVersion(contract, body, terms);
      case AskPropose(contract, version) => res := Propose(contract, version);
      case AskAccept(contract, version, digest, role) => res := Accept(contract, version, digest, role, actor, human);
      case AskActivate(contract, version) => res := Activate(contract, version);
      case AskTransitionContract(contract, action, lock) => res := TransitionContract(contract, action, lock);
      case AskProvisionAuthority(contract, role, principal) => res := ProvisionAuthority(contract, role, principal);
      case _ => res := Create(r);
    }

    /** ROLLBACK. */
    method Restore(saved: Store)
      modifies this
      ensures Rows() == saved
    {
      contracts, rules, ruleVersions, versions := saved.contracts, saved.rules, saved.ruleVersions, saved.versions;
      acceptances, authorities, bindings := saved.acceptances, saved.authorities, saved.bindings;
      results, audit, outbox := saved.results, saved.audit, saved.outbox;
    }

    /** A binding row; its columns, the foreign key, the CHECK or the exclusion constraint may refuse it. */
    method Bind(binding: Binding)
      modifies `bindings
      ensures Rows() == InsertBinding(old(Rows()), binding)
    {
      var stored := BindingColumns(binding);
      if stored.None? { return; }
      var b := stored.value;
      if b.contract >= |contracts| || (b.effectiveEnd.Some? && b.effectiveEnd.value <= b.effectiveStart) { return; }
      for i := 0 to |bindings|
        invariant forall k :: 0 <= k < i ==> !(SameSource(bindings[k], b) && Overlap(bindings[k], b))
      {
        if SameSource(bindings[i], b) && Overlap(bindings[i], b) { return; }
      }
      bindings := bindings + [b];
    }

    /** One command in one transaction: exactly the specified new state and answer. */
    method Submit(call: Call) returns (res: Result<Response, Error>)
      modifies this
      ensures (Rows(), res) == Execute(sha, zones, old(Rows()), call)
      ensures Lawful(sha, old(Rows())) ==> Lawful(sha, Rows())
    {
      ghost var was := Rows();
      ExecuteLawful(sha, zones, was, call);
      var r := RequestOf(call.command);
      var invalid := Validate(zones, r);
      if invalid.Some? { return Err(invalid.value); }
      if !call.raced && call.key in results {
        if results[call.key].request == r { return Ok(results[call.key].response); }
        return Err(IdempotencyConflict);
      }
      var saved := Rows();
      var written := Operate(r, call.actor, call.human);
      if written.Err? {
        Restore(saved);
        return Err(written.error);
      }
      var w := written.value;
      audit := audit + [Audit(w.event, w.aggregate, call.actor, call.key)];
      outbox := outbox + [Outbox(w.event, w.aggregate, call.actor, ActorType(call.human))];
      if call.key in results {
        Restore(saved);
        return Err(DatabaseRejected);
      }
      results := results[call.key := Remembered(r, w.response)];
      return Ok(w.response);
    }
  }

  /** The rows and answer of an operation are those specified; after an abort the rows are anything. */
  predicate Agrees(spec: Result<Done, Error>, rows: Store, res: Result<Written, Error>) {
    match spec
    case Err(e) => res == Err(e)
    case Ok(d) => rows == d.store && res == Ok(Written(d.response, d.event, d.aggregate))
  }

  lemma ExecuteLawful(sha: string -> string, zones: set<string>, s: Store, call: Call)
    ensures Lawful(sha, s) ==> Lawful(sha, Execute(sha, zones, s, call).0)
  {
    if Lawful(sha, s) { ExecuteKeeps(sha, zones, s, call); }
  }
}
