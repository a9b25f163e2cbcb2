/** Contracts, rules, acceptances and the idempotent command transaction, as rows of the database.
    An id is a row's position: rows are only ever inserted, and `uuid4` never repeats. */
module Contracts {
  import opened Basics
  import J = CanonicalJson

  type Id = nat
  type Principal = nat

  // ---------------------------------------------------------------- rows

  datatype ContractState = Draft | Active | Suspended | Terminated

  datatype Contract = Contract(state: ContractState, lockVersion: nat)

  datatype RuleState = DraftRule | Published | Retired

  datatype RuleVersion = RuleVersion(
    rule: Id, number: nat, template: string, definition: J.Json, state: RuleState, digest: Option<string>)

  datatype VersionState = DraftVersion | Proposed | ActiveVersion | Superseded | Withdrawn

  datatype PricingModel = FixedFee | BasisPoints

  /** The columns a caller chooses, besides the terms document. */
  datatype Body = Body(
    displayName: string, description: Option<string>, anchorEventType: string,
    roles: seq<string>, ruleVersion: Id, timezone: string, currency: string,
    pricing: PricingModel, fixedFee: Option<int>, rate: Option<int>, floor: Option<int>, cap: Option<int>,
    attributionWindow: int, evaluationWindow: int, finalizationWindow: int,
    effectiveStart: int, effectiveEnd: Option<int>)

  datatype Version = Version(
    contract: Id, number: nat, body: Body, terms: J.Json, state: VersionState, digest: Option<string>)

  datatype Acceptance = Acceptance(version: Id, digest: string, role: string, principal: Principal)

  datatype Authority = Authority(contract: Id, role: string, principal: Principal)

  datatype Binding = Binding(
    contract: Id, sourceType: string, sourceId: string, effectiveStart: int, effectiveEnd: Option<int>)

  datatype Aggregate = OfContract(id: Id) | OfRule(id: Id)

  datatype Audit = Audit(event: string, aggregate: Aggregate, actor: Principal, key: string)

  datatype Outbox = Outbox(event: string, aggregate: Aggregate, actor: Principal, actorType: string)

  datatype Remembered = Remembered(request: Request, response: Response)

  datatype Store = Store(
    contracts: seq<Contract>, rules: seq<string>, ruleVersions: seq<RuleVersion>, versions: seq<Version>,
    acceptances: seq<Acceptance>, authorities: seq<Authority>, bindings: seq<Binding>,
    results: map<string, Remembered>, audit: seq<Audit>, outbox: seq<Outbox>)

  const EMPTY := Store([], [], [], [], [], [], [], map[], [], [])

  // ---------------------------------------------------------------- commands

  datatype Action = Suspend | Resume | Terminate

  /** A command as the caller sends it. `Request` is the same command as its request digest sees it:
      currency in upper case, documents up to key order. Who sends it is in neither. */
  datatype Command =
    | CreateContract
    | CreateRule(name: string)
    | CreateRuleVersion(rule: Id, template: string, definition: J.Value)
    | TransitionRule(rule: Id, version: Id, publish: bool)
    | CreateVersion(contract: Id, body: Body, terms: J.Value)
    | Propose(contract: Id, version: Id)
    | Accept(contract: Id, version: Id, digest: string, role: string)
    | Activate(contract: Id, version: Id)
    | TransitionContract(contract: Id, action: Action, lock: Option<nat>)
    | ProvisionAuthority(contract: Id, role: string, principal: Principal)

  datatype Request =
    | AskCreateContract
    | AskCreateRule(name: string)
    | AskCreateRuleVersion(rule: Id, template: string, definition: J.Json)
    | AskTransitionRule(rule: Id, version: Id, publish: bool)
    | AskCreateVersion(contract: Id, body: Body, terms: J.Json)
    | AskPropose(contract: Id, version: Id)
    | AskAccept(contract: Id, version: Id, digest: string, role: string)
    | AskActivate(contract: Id, version: Id)
    | AskTransitionContract(contract: Id, action: Action, lock: Option<nat>)
    | AskProvisionAuthority(contract: Id, role: string, principal: Principal)

  datatype Response =
    | ContractResponse(id: Id, state: ContractState, lockVersion: nat)
    | RuleResponse(id: Id, name: string)
    | RuleVersionResponse(id: Id, rule: Id, number: nat, ruleState: RuleState, digest: Option<string>)
    | VersionResponse(id: Id, contract: Id, number: nat, versionState: VersionState, digest: Option<string>)
    | AuthorityResponse(id: Id, contract: Id, role: string, principal: Principal)

  /** A constraint or trigger of the database aborting the transaction is DatabaseRejected. */
  datatype Error =
    | IdempotencyConflict | ResourceNotFound | InvalidRuleDefinition | InvalidLifecycle | InvalidContractTerms
    | PublishedRuleRequired | HumanPrincipalRequired | AcceptanceNotAuthorized | AcceptancesRequired
    | ConcurrencyConflict | DatabaseRejected

  /** One call: its key, who makes it, and whether its look-up of the key ran before another transaction
      using the same key committed. */
  datatype Call = Call(key: string, command: Command, actor: Principal, human: bool, raced: bool)

  /** What a successful operation leaves for the transaction to commit. */
  datatype Done = Done(store: Store, response: Response, event: string, aggregate: Aggregate)

  /** str.upper, as far as it leads to letters from A to Z: the long s and the dotless i are among them. */
  function UpperChar(c: char): char {
    if 'a' <= c <= 'z' then c - 'a' + 'A' else if c == '\U{17F}' then 'S' else if c == '\U{131}' then 'I' else c
  }

  function Upper(s: string): string { seq(|s|, i requires 0 <= i < |s| => UpperChar(s[i])) }

  function RequestOf(c: Command): Request {
    match c
    case CreateContract => AskCreateContract
    case CreateRule(name) => AskCreateRule(name)
    case CreateRuleVersion(rule, template, definition) => AskCreateRuleVersion(rule, template, J.Canon(definition))
    case TransitionRule(rule, version, publish) => AskTransitionRule(rule, version, publish)
    case CreateVersion(contract, body, terms) =>
      AskCreateVersion(contract, body.(currency := Upper(body.currency)), J.Canon(terms))
    case Propose(contract, version) => AskPropose(contract, version)
    case Accept(contract, version, digest, role) => AskAccept(contract, version, digest, role)
    case Activate(contract, version) => AskActivate(contract, version)
    case TransitionContract(contract, action, lock) => AskTransitionContract(contract, action, lock)
    case ProvisionAuthority(contract, role, principal) => AskProvisionAuthority(contract, role, principal)
  }

  // ---------------------------------------------------------------- validation ahead of the transaction

  const SUPPORTED_CURRENCIES := {"AED", "AUD", "BDT", "CAD", "CHF", "EUR", "GBP", "INR", "JPY", "SAR", "SGD", "USD"}
  const RULE_TEMPLATES :=
    {"delivered_paid_order", "attended_booking", "qualified_lead_accepted", "paid_activated_subscription"}
  const ALLOWED_RULE_KEYS := {"required_event_types", "required_statuses", "max_age_seconds", "schema_version"}
  const MAX_RULE_BYTES := 16_384

  /** The length of a text in UTF-8. */
  function Utf8Length(s: string): nat {
    if s == [] then 0
    else (if s[0] < '\U{80}' then 1 else if s[0] < '\U{800}' then 2 else if s[0] < '\U{10000}' then 3 else 4) + Utf8Length(s[1..])
  }

  predicate ValidRule(template: string, definition: J.Json) {
    && template in RULE_TEMPLATES
    && definition.JObject?
    && (forall i :: 0 <= i < |definition.members| ==> definition.members[i].key in ALLOWED_RULE_KEYS)
    && Utf8Length(J.Print(definition)) <= MAX_RULE_BYTES
  }

  predicate ValidPricing(b: Body) {
    match b.pricing
    case FixedFee => b.fixedFee.Some? && b.fixedFee.value > 0
    case BasisPoints =>
      && b.rate.Some? && 1 <= b.rate.value <= 10_000
      && (b.floor.Some? ==> b.floor.value >= 0) && (b.cap.Some? ==> b.cap.value >= 0)
      && (b.floor.Some? && b.cap.Some? ==> b.floor.value <= b.cap.value)
  }

  /** The check that runs before the key is looked up; `zones` are the IANA names the host knows. */
  function Validate(zones: set<string>, r: Request): Option<Error> {
    match r
    case AskCreateRuleVersion(_, template, definition) =>
      if ValidRule(template, definition) then None else Some(InvalidRuleDefinition)
    case AskCreateVersion(_, body, _) =>
      if body.currency in SUPPORTED_CURRENCIES && body.timezone in zones && ValidPricing(body) then None
      else Some(InvalidContractTerms)
    case _ => None
  }

  // ---------------------------------------------------------------- guards of the database

  /** `protect_contract_history` on performance_contracts. */
  predicate ContractTrigger(before: ContractState, after: ContractState) {
    || before == after
    || (before == Draft && after in {Active, Terminated})
    || (before == Active && after in {Suspended, Terminated})
    || (before == Suspended && after in {Active, Terminated})
  }

  /** `protect_contract_history` on performance_contract_versions. */
  predicate VersionTrigger(before: Version, after: Version) {
    && (|| before.state == after.state
        || (before.state == DraftVersion && after.state in {Proposed, Withdrawn})
        || (before.state == Proposed && after.state in {ActiveVersion, Withdrawn})
        || (before.state == ActiveVersion && after.state == Superseded))
    && (before.state != DraftVersion ==> after == before.(state := after.state))
  }

  /** `protect_contract_history` on outcome_rule_versions. */
  predicate RuleTrigger(before: RuleVersion, after: RuleVersion) {
    && (|| before.state == after.state
        || (before.state == DraftRule && after.state == Published)
        || (before.state == Published && after.state == Retired))
    && (before.state != DraftRule ==> after == before.(state := after.state))
  }

  const ROLE_WIDTH := 64
  const MAX_INT := 0x7FFF_FFFF
  const MAX_BIGINT := 0x7FFF_FFFF_FFFF_FFFF

  /** PostgreSQL stores no NUL character. */
  predicate Storable(s: string) { forall i :: 0 <= i < |s| ==> s[i] != '\0' }

  /** What a varchar column of this width stores: a longer text is refused, unless all that exceeds the width
      is spaces, which are cut off. */
  function Varchar(width: nat, s: string): (r: Option<string>)
    ensures r.Some? ==> |r.value| <= width && r.value <= s
    ensures |s| <= width && Storable(s) ==> r == Some(s)
  {
    if !Storable(s) then None
    else if |s| <= width then Some(s)
    else if forall i :: width <= i < |s| ==> s[i] == ' ' then Some(s[..width])
    else None
  }

  predicate InRange(n: Option<int>, max: int) { n.Some? ==> -max - 1 <= n.value <= max }

  /** The caller's columns as the row holds them; none when a text or a number does not fit its column. */
  function Columns(b: Body): (r: Option<Body>)
    ensures r.Some? ==> r.value == b.(displayName := r.value.displayName, description := r.value.description,
                                      anchorEventType := r.value.anchorEventType, timezone := r.value.timezone)
    ensures r.Some? ==> forall role :: role in b.roles ==> Storable(role)
  {
    var name, anchor, zone := Varchar(160, b.displayName), Varchar(160, b.anchorEventType), Varchar(64, b.timezone);
    var about := if b.description.None? then Some("") else Varchar(2000, b.description.value);
    if name.None? || anchor.None? || zone.None? || about.None? then None
    else if !(forall role :: role in b.roles ==> Storable(role)) then None
    else if !(&& InRange(b.fixedFee, MAX_BIGINT) && InRange(b.rate, MAX_INT)
              && InRange(b.floor, MAX_BIGINT) && InRange(b.cap, MAX_BIGINT)
              && InRange(Some(b.attributionWindow), MAX_INT) && InRange(Some(b.evaluationWindow), MAX_INT)
              && InRange(Some(b.finalizationWindow), MAX_INT)) then None
    else
      Some(b.(displayName := name.value, anchorEventType := anchor.value, timezone := zone.value,
              description := if b.description.None? then None else about))
  }

  /** CHECK constraints of performance_contract_versions. */
  predicate VersionChecks(b: Body) {
    && b.attributionWindow >= 0 && b.evaluationWindow >= 0 && b.finalizationWindow >= 0
    && (b.effectiveEnd.Some? ==> b.effectiveEnd.value > b.effectiveStart)
    && match b.pricing
       case FixedFee => b.fixedFee.Some? && b.fixedFee.value > 0 && b.rate.None? && b.floor.None? && b.cap.None?
       case BasisPoints => b.fixedFee.None? && ValidPricing(b)
  }

  /** The rows of a contract in state active: the partial unique index allows one. */
  function ActiveCount(versions: seq<Version>, contract: Id): nat {
    if versions == [] then 0
    else
      var n := |versions| - 1;
      ActiveCount(versions[..n], contract)
      + if versions[n].contract == contract && versions[n].state == ActiveVersion then 1 else 0
  }

  // ---------------------------------------------------------------- queries

  /** What UNIQUE(tenant, parent, version) sees of a version row. */
  datatype Serial = Serial(parent: Id, number: nat)

  function Serials(versions: seq<Version>): (serials: seq<Serial>)
    ensures |serials| == |versions|
  {
    seq(|versions|, i requires 0 <= i < |versions| => Serial(versions[i].contract, versions[i].number))
  }

  function RuleSerials(versions: seq<RuleVersion>): (serials: seq<Serial>)
    ensures |serials| == |versions|
  {
    seq(|versions|, i requires 0 <= i < |versions| => Serial(versions[i].rule, versions[i].number))
  }

  /** COALESCE(MAX(version), 0) over the rows of one parent. */
  function LastNumber(rows: seq<Serial>, parent: Id): nat {
    if rows == [] then 0
    else
      var n := |rows| - 1;
      var before := LastNumber(rows[..n], parent);
      if rows[n].parent == parent && before < rows[n].number then rows[n].number else before
  }

  function Roles(roles: seq<string>): set<string> { set r | r in roles }

  /** The roles that accepted this version under this digest. */
  function AcceptedRoles(acceptances: seq<Acceptance>, version: Id, digest: string): set<string> {
    set a | a in acceptances && a.version == version && a.digest == digest :: a.role
  }

  /** UPDATE ... SET state='superseded' WHERE contract_id=:contract AND state='active'. */
  function Supersede(versions: seq<Version>, contract: Id): (after: seq<Version>)
    ensures |after| == |versions|
    ensures forall i :: 0 <= i < |versions| ==>
      after[i] == if versions[i].contract == contract && versions[i].state == ActiveVersion
                  then versions[i].(state := Superseded) else versions[i]
  {
    seq(|versions|, i requires 0 <= i < |versions| =>
      if versions[i].contract == contract && versions[i].state == ActiveVersion
      then versions[i].(state := Superseded) else versions[i])
  }

  function DigestOf(sha: string -> string, document: J.Json): string { sha(J.Print(document)) }

  // ---------------------------------------------------------------- operations

  function CreateContractRow(s: Store): Result<Done, Error> {
    var id := |s.contracts|;
    Ok(Done(s.(contracts := s.contracts + [Contract(Draft, 0)]), ContractResponse(id, Draft, 0), "contract_created", OfContract(id)))
  }

  /** Names are unique per tenant. */
  function CreateRuleRow(s: Store, name: string): Result<Done, Error> {
    var id, stored := |s.rules|, Varchar(160, name);
    if stored.None? || stored.value in s.rules then Err(DatabaseRejected)
    else Ok(Done(s.(rules := s.rules + [stored.value]), RuleResponse(id, name), "outcome_rule_created", OfRule(id)))
  }

  function CreateRuleVersionRow(s: Store, rule: Id, template: string, definition: J.Json): Result<Done, Error> {
    if rule >= |s.rules| then Err(ResourceNotFound)
    else
      var id, number := |s.ruleVersions|, LastNumber(RuleSerials(s.ruleVersions), rule) + 1;
      if number > MAX_INT then Err(DatabaseRejected)
      else
        Ok(Done(s.(ruleVersions := s.ruleVersions + [RuleVersion(rule, number, template, definition, DraftRule, None)]),
              RuleVersionResponse(id, rule, number, DraftRule, None), "rule_version_created", OfRule(rule)))
  }

  /** The event name is f"rule_version_{action}ed". */
  function TransitionRuleRow(sha: string -> string, s: Store, rule: Id, version: Id, publish: bool): Result<Done, Error> {
    if version >= |s.ruleVersions| || s.ruleVersions[version].rule != rule then Err(ResourceNotFound)
    else
      var row := s.ruleVersions[version];
      if row.state != (if publish then DraftRule else Published) then Err(InvalidLifecycle)
      else if publish && !ValidRule(row.template, row.definition) then Err(InvalidRuleDefinition)
      else
        var digest := DigestOf(sha, row.definition);
        var target := if publish then Published else Retired;
        var after := row.(state := target, digest := if row.digest.Some? then row.digest else Some(digest));
        if !RuleTrigger(row, after) then Err(DatabaseRejected)
        else
          Ok(Done(s.(ruleVersions := s.ruleVersions[version := after]),
                  RuleVersionResponse(version, rule, row.number, target, Some(digest)),
                  if publish then "rule_version_published" else "rule_version_retireed", OfRule(rule)))
  }

  function CreateVersionRow(s: Store, contract: Id, body: Body, terms: J.Json): Result<Done, Error> {
    if contract >= |s.contracts| then Err(ResourceNotFound)
    else if body.ruleVersion >= |s.ruleVersions| || s.ruleVersions[body.ruleVersion].state != Published then
      Err(PublishedRuleRequired)
    else
      var id, number, stored := |s.versions|, LastNumber(Serials(s.versions), contract) + 1, Columns(body);
      if !VersionChecks(body) || stored.None? || number > MAX_INT then Err(DatabaseRejected)
      else
        Ok(Done(s.(versions := s.versions + [Version(contract, number, stored.value, terms, DraftVersion, None)]),
                VersionResponse(id, contract, number, DraftVersion, None), "contract_version_created", OfContract(contract)))
  }

  function ProposeRow(sha: string -> string, s: Store, contract: Id, version: Id): Result<Done, Error> {
    if contract >= |s.contracts| || version >= |s.versions| || s.versions[version].contract != contract then Err(ResourceNotFound)
    else
      var row := s.versions[version];
      if row.state != DraftVersion then Err(InvalidLifecycle)
      else
        var digest := DigestOf(sha, row.terms);
        var after := row.(state := Proposed, digest := Some(digest));
        if !VersionTrigger(row, after) then Err(DatabaseRejected)
        else
          Ok(Done(s.(versions := s.versions[version := after]),
                  VersionResponse(version, contract, row.number, Proposed, Some(digest)),
                  "contract_version_proposeed", OfContract(contract)))
  }

  /** The service checks the authority for the role, not that the role is required. */
  function AcceptRow(s: Store, contract: Id, version: Id, digest: string, role: string, actor: Principal, human: bool)
      : Result<Done, Error>
  {
    if contract >= |s.contracts| || version >= |s.versions| || s.versions[version].contract != contract then Err(ResourceNotFound)
    else
      var row := s.versions[version];
      var stored := Varchar(ROLE_WIDTH, role);
      if !human then Err(HumanPrincipalRequired)
      else if !Storable(role) then Err(DatabaseRejected)
      else if row.state != Proposed || Some(digest) != row.digest || Authority(contract, role, actor) !in s.authorities then
        Err(AcceptanceNotAuthorized)
      else if stored.None? || stored.value in AcceptedRoles(s.acceptances, version, digest) then Err(DatabaseRejected)
      else
        Ok(Done(s.(acceptances := s.acceptances + [Acceptance(version, digest, stored.value, actor)]),
                VersionResponse(version, contract, row.number, row.state, row.digest),
                "contract_version_accepted", OfContract(contract)))
  }

  /** Supersede the active version, activate this one, activate the contract and count the change. */
  function ActivateRow(s: Store, contract: Id, version: Id): Result<Done, Error> {
    if contract >= |s.contracts| || version >= |s.versions| || s.versions[version].contract != contract then Err(ResourceNotFound)
    else
      var row := s.versions[version];
      var accepted := if row.digest.None? then {} else AcceptedRoles(s.acceptances, version, row.digest.value);
      if row.state != Proposed || Roles(row.body.roles) != accepted then Err(AcceptancesRequired)
      else
        var versions := Supersede(s.versions, contract)[version := row.(state := ActiveVersion)];
        var head := s.contracts[contract];
        if !VersionTrigger(row, versions[version]) || ActiveCount(versions, contract) > 1 then Err(DatabaseRejected)
        else if !ContractTrigger(head.state, Active) || head.lockVersion >= MAX_INT then Err(DatabaseRejected)
        else
          Ok(Done(s.(versions := versions, contracts := s.contracts[contract := Contract(Active, head.lockVersion + 1)]),
                  VersionResponse(version, contract, row.number, ActiveVersion, row.digest),
                  "contract_version_activateed", OfContract(contract)))
  }

  function Target(a: Action): ContractState {
    match a case Suspend => Suspended case Resume => Active case Terminate => Terminated
  }

  predicate Allowed(before: ContractState, after: ContractState) {
    (before, after) in {(Active, Suspended), (Suspended, Active), (Draft, Terminated), (Active, Terminated), (Suspended, Terminated)}
  }

  function ActionText(a: Action): string { match a case Suspend => "suspend" case Resume => "resume" case Terminate => "terminate" }

  /** A contract that is missing or at another lock version is a conflict. */
  function TransitionContractRow(s: Store, contract: Id, action: Action, lock: Option<nat>): Result<Done, Error> {
    if contract >= |s.contracts| || (lock.Some? && s.contracts[contract].lockVersion != lock.value) then Err(ConcurrencyConflict)
    else
      var row, target := s.contracts[contract], Target(action);
      if !Allowed(row.state, target) then Err(InvalidLifecycle)
      else if !ContractTrigger(row.state, target) || row.lockVersion >= MAX_INT then Err(DatabaseRejected)
      else
        Ok(Done(s.(contracts := s.contracts[contract := Contract(target, row.lockVersion + 1)]),
                ContractResponse(contract, target, row.lockVersion + 1), "contract_" + ActionText(action) + "ed", OfContract(contract)))
  }

  function ProvisionAuthorityRow(s: Store, contract: Id, role: string, principal: Principal): Result<Done, Error> {
    if contract >= |s.contracts| then Err(ResourceNotFound)
    else
      var id, stored := |s.authorities|, Varchar(ROLE_WIDTH, role);
      if stored.None? || Authority(contract, stored.value, principal) in s.authorities then Err(DatabaseRejected)
      else
        Ok(Done(s.(authorities := s.authorities + [Authority(contract, stored.value, principal)]),
                AuthorityResponse(id, contract, role, principal), "contract_party_authority_granted", OfContract(contract)))
  }

  function Perform(sha: string -> string, s: Store, r: Request, actor: Principal, human: bool): Result<Done, Error> {
    match r
    case AskCreateContract => CreateContractRow(s)
    case AskCreateRule(name) => CreateRuleRow(s, name)
    case AskCreateRuleVersion(rule, template, definition) => CreateRuleVersionRow(s, rule, template, definition)
    case AskTransitionRule(rule, version, publish) => TransitionRuleRow(sha, s, rule, version, publish)
    case AskCreateVersion(contract, body, terms) => CreateVersionRow(s, contract, body, terms)
    case AskPropose(contract, version) => ProposeRow(sha, s, contract, version)
    case AskAccept(contract, version, digest, role) => AcceptRow(s, contract, version, digest, role, actor, human)
    case AskActivate(contract, version) => ActivateRow(s, contract, version)
    case AskTransitionContract(contract, action, lock) => TransitionContractRow(s, contract, action, lock)
    case AskProvisionAuthority(contract, role, principal) => ProvisionAuthorityRow(s, contract, role, principal)
  }

  // ---------------------------------------------------------------- the transaction around a command

  function ActorType(human: bool): string { if human then "human" else "api_key" }

  /** The audit row, the outbox row and the remembered result of a successful operation. */
  function Commit(call: Call, r: Request, d: Done): Store {
    d.store.(
      audit := d.store.audit + [Audit(d.event, d.aggregate, call.actor, call.key)],
      outbox := d.store.outbox + [Outbox(d.event, d.aggregate, call.actor, ActorType(call.human))],
      results := d.store.results[call.key := Remembered(r, d.response)])
  }

  /** A command in its transaction: validate, answer a remembered key, otherwise operate, record and
      remember; any error rolls everything back. A call that raced past the look-up is stopped by the
      unique key of the remembered results. */
  function Execute(sha: string -> string, zones: set<string>, s: Store, call: Call): (Store, Result<Response, Error>) {
    var r := RequestOf(call.command);
    var invalid := Validate(zones, r);
    if invalid.Some? then (s, Err(invalid.value))
    else if !call.raced && call.key in s.results then
      (s, if s.results[call.key].request == r then Ok(s.results[call.key].response) else Err(IdempotencyConflict))
    else
      var d := Perform(sha, s, r, call.actor, call.human);
      if d.Err? then (s, Err(d.error))
      else if call.key in s.results then (s, Err(DatabaseRejected))
      else (Commit(call, r, d.value), Ok(d.value.response))
  }

  /** Half-open intervals [start, end) with an open end when there is none. */
  predicate Before(t: int, end: Option<int>) { end.None? || t < end.value }

  /** tstzrange(a) && tstzrange(b). */
  predicate Overlap(a: Binding, b: Binding) {
    Before(a.effectiveStart, b.effectiveEnd) && Before(b.effectiveStart, a.effectiveEnd)
  }

  predicate SameSource(a: Binding, b: Binding) { a.sourceType == b.sourceType && a.sourceId == b.sourceId }

  /** The binding as its row holds it, if its texts fit. */
  function BindingColumns(b: Binding): (r: Option<Binding>)
    ensures r.Some? ==> r.value == b.(sourceType := r.value.sourceType, sourceId := r.value.sourceId)
  {
    var sourceType, sourceId := Varchar(64, b.sourceType), Varchar(255, b.sourceId);
    if sourceType.None? || sourceId.None? then None
    else Some(b.(sourceType := sourceType.value, sourceId := sourceId.value))
  }

  /** Inserting a source binding: the columns, the foreign key, the CHECK and the exclusion constraint. */
  function InsertBinding(s: Store, binding: Binding): Store {
    var stored := BindingColumns(binding);
    if stored.None? then s
    else
      var b := stored.value;
      if b.contract >= |s.contracts| then s
      else if b.effectiveEnd.Some? && b.effectiveEnd.value <= b.effectiveStart then s
      else if exists i :: 0 <= i < |s.bindings| && SameSource(s.bindings[i], b) && Overlap(s.bindings[i], b) then s
      else s.(bindings := s.bindings + [b])
  }

  // ---------------------------------------------------------------- runs

  datatype Step = Invoke(call: Call) | Bind(binding: Binding)

  function Apply(sha: string -> string, zones: set<string>, s: Store, step: Step): Store {
    match step
    case Invoke(call) => Execute(sha, zones, s, call).0
    case Bind(b) => InsertBinding(s, b)
  }

  function Run(sha: string -> string, zones: set<string>, s: Store, steps: seq<Step>): Store
    decreases |steps|
  {
    if steps == [] then s
    else
      var n := |steps| - 1;
      Apply(sha, zones, Run(sha, zones, s, steps[..n]), steps[n])
  }
}
