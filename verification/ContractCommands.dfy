/** What each contract command does when it runs under a key not used before: exactly when it commits, what it
    leaves, what it answers, and why it is refused otherwise. */
module ContractCommands {
  import opened Basics
  import opened Contracts
  import opened ContractInvariant
  import opened ContractHistory
  import J = CanonicalJson

  // ---------------------------------------------------------------- the books

  /** The command left these rows, one audit row, one outbox row and its remembered answer. */
  ghost predicate Committed(
      s: Store, call: Call, end: (Store, Result<Response, Error>), rows: Store, response: Response, event: string, of: Aggregate)
  {
    && end.1 == Ok(response)
    && end.0 == rows.(
         audit := s.audit + [Audit(event, of, call.actor, call.key)],
         outbox := s.outbox + [Outbox(event, of, call.actor, if call.human then "human" else "api_key")],
         results := s.results[call.key := Remembered(RequestOf(call.command), response)])
  }

  ghost predicate Refuses(s: Store, end: (Store, Result<Response, Error>), e: Error) { end == (s, Err(e)) }

  // ---------------------------------------------------------------- columns

  /** The text as a varchar column of this width holds it. */
  ghost predicate StoredAs(width: nat, s: string, stored: string) {
    && (forall i :: 0 <= i < |s| ==> s[i] as int != 0)
    && (|s| <= width ==> stored == s)
    && (|s| > width ==> stored == s[..width] && forall i :: width <= i < |s| ==> s[i] as int == 32)
  }

  lemma VarcharExactly(width: nat, s: string, stored: string)
    ensures Varchar(width, s) == Some(stored) <==> StoredAs(width, s, stored)
  {
    assert ' ' as int == 32 && '\0' as int == 0;
    forall i | 0 <= i < |s| ensures (s[i] == ' ' <==> s[i] as int == 32) && (s[i] == '\0' <==> s[i] as int == 0) {
      CharIs(s[i], ' ');
      CharIs(s[i], '\0');
    }
  }

  lemma CharIs(c: char, d: char)
    ensures c as int == d as int <==> c == d
  {
  }

  /** The amounts and rates a pricing model goes with. */
  ghost predicate Priced(b: Body) {
    match b.pricing
    case FixedFee => b.fixedFee.Some? && 1 <= b.fixedFee.value
    case BasisPoints =>
      && b.rate.Some? && 1 <= b.rate.value <= 10000
      && (b.floor.Some? ==> 0 <= b.floor.value) && (b.cap.Some? ==> 0 <= b.cap.value)
      && (b.floor.Some? && b.cap.Some? ==> b.floor.value <= b.cap.value)
  }

  ghost predicate Fits32(n: int) { -2147483648 <= n <= 2147483647 }

  ghost predicate Fits64(n: Option<int>) { n.Some? ==> -9223372036854775808 <= n.value <= 9223372036854775807 }

  /** The row holds the caller's values: texts as their columns hold them, numbers in range, windows not negative,
      an end after the start, and the amounts of one pricing model only. */
  ghost predicate RowOf(b: Body, row: Body) {
    && StoredAs(160, b.displayName, row.displayName) && StoredAs(160, b.anchorEventType, row.anchorEventType)
    && StoredAs(64, b.timezone, row.timezone) && b.description.Some? == row.description.Some?
    && (b.description.Some? ==> StoredAs(2000, b.description.value, row.description.value))
    && row == b.(displayName := row.displayName, description := row.description, anchorEventType := row.anchorEventType,
                 timezone := row.timezone)
    && (forall role, i :: role in b.roles && 0 <= i < |role| ==> role[i] as int != 0)
    && Fits64(b.fixedFee) && Fits64(b.floor) && Fits64(b.cap) && (b.rate.Some? ==> Fits32(b.rate.value))
    && Fits32(b.attributionWindow) && Fits32(b.evaluationWindow) && Fits32(b.finalizationWindow)
    && b.attributionWindow >= 0 && b.evaluationWindow >= 0 && b.finalizationWindow >= 0
    && (b.effectiveEnd.Some? ==> b.effectiveStart < b.effectiveEnd.value)
    && Priced(b) && (b.pricing.FixedFee? ==> b.rate == None && b.floor == None && b.cap == None)
    && (b.pricing.BasisPoints? ==> b.fixedFee == None)
  }

  lemma RolesStorable(roles: seq<string>)
    ensures (forall role :: role in roles ==> Storable(role)) <==>
      forall role, i :: role in roles && 0 <= i < |role| ==> role[i] as int != 0
  {
    forall role, i | role in roles && 0 <= i < |role| ensures role[i] as int != 0 <==> role[i] != '\0' { CharIs(role[i], '\0'); }
  }

  lemma RowExactly(b: Body, row: Body)
    ensures VersionChecks(b) && Columns(b) == Some(row) <==> RowOf(b, row)
  {
    VarcharExactly(160, b.displayName, row.displayName);
    VarcharExactly(160, b.anchorEventType, row.anchorEventType);
    VarcharExactly(64, b.timezone, row.timezone);
    if b.description.Some? && row.description.Some? { VarcharExactly(2000, b.description.value, row.description.value); }
    RolesStorable(b.roles);
  }

  // ---------------------------------------------------------------- contracts

  lemma CreateContractExactly(sha: string -> string, zones: set<string>, s: Store, call: Call)
    requires call.command == CreateContract && call.key !in s.results
    ensures var id := |s.contracts|;
      Committed(s, call, Execute(sha, zones, s, call), s.(contracts := s.contracts + [Contract(Draft, 0)]),
                ContractResponse(id, Draft, 0), "contract_created", OfContract(id))
  {
  }

  /** The states an action leaves from, and the one it leads to. */
  ghost predicate Leaves(action: Action, before: ContractState, after: ContractState) {
    match action
    case Suspend => before == Active && after == Suspended
    case Resume => before == Suspended && after == Active
    case Terminate => before in {Draft, Active, Suspended} && after == Terminated
  }

  ghost function EventOf(action: Action): string {
    match action
    case Suspend => "contract_suspended"
    case Resume => "contract_resumeed"
    case Terminate => "contract_terminateed"
  }

  /** Suspend commits exactly from active and leaves suspended, resume exactly from suspended and leaves active,
      terminate exactly from draft, active or suspended and leaves terminated; at the quoted lock version, or any
      if none is quoted, which it raises by one. */
  lemma TransitionExactly(
      sha: string -> string, zones: set<string>, s: Store, call: Call, contract: Id, action: Action, lock: Option<nat>, after: ContractState)
    requires call.command == TransitionContract(contract, action, lock) && call.key !in s.results
    ensures var end := Execute(sha, zones, s, call);
      if contract >= |s.contracts| || lock !in {None, Some(s.contracts[contract].lockVersion)} then Refuses(s, end, ConcurrencyConflict)
      else
        var row := s.contracts[contract];
        && (Leaves(action, row.state, after) && row.lockVersion < 2147483647 ==>
              Committed(s, call, end, s.(contracts := s.contracts[contract := Contract(after, row.lockVersion + 1)]),
                        ContractResponse(contract, after, row.lockVersion + 1), EventOf(action), OfContract(contract)))
        && (Leaves(action, row.state, after) && row.lockVersion >= 2147483647 ==> Refuses(s, end, DatabaseRejected))
        && ((forall to :: !Leaves(action, row.state, to)) ==> Refuses(s, end, InvalidLifecycle))
  {
    TransitionRowExactly(s, contract, action, lock, after);
  }

  lemma TransitionRowExactly(s: Store, contract: Id, action: Action, lock: Option<nat>, after: ContractState)
    ensures var d := TransitionContractRow(s, contract, action, lock);
      if contract >= |s.contracts| || lock !in {None, Some(s.contracts[contract].lockVersion)} then d == Err(ConcurrencyConflict)
      else
        var row := s.contracts[contract];
        && (Leaves(action, row.state, after) && row.lockVersion < 2147483647 ==>
              d == Ok(Done(s.(contracts := s.contracts[contract := Contract(after, row.lockVersion + 1)]),
                           ContractResponse(contract, after, row.lockVersion + 1), EventOf(action), OfContract(contract))))
        && (Leaves(action, row.state, after) && row.lockVersion >= 2147483647 ==> d == Err(DatabaseRejected))
        && ((forall to :: !Leaves(action, row.state, to)) ==> d == Err(InvalidLifecycle))
  {
    if contract < |s.contracts| {
      AllowedExactly(action, s.contracts[contract].state, after);
      EventTexts(action);
    }
  }

  lemma AllowedExactly(action: Action, before: ContractState, after: ContractState)
    ensures Leaves(action, before, after) <==> after == Target(action) && Allowed(before, Target(action))
    ensures (exists to :: Leaves(action, before, to)) <==> Allowed(before, Target(action))
    ensures Allowed(before, Target(action)) ==> ContractTrigger(before, Target(action))
  {
    assert Leaves(action, before, Target(action)) <==> Allowed(before, Target(action));
  }

  lemma EventTexts(action: Action)
    ensures "contract_" + ActionText(action) + "ed" == EventOf(action)
  {
  }

  // ---------------------------------------------------------------- the trigger

  /** The trigger lets a contract move exactly as some action or an activation moves it. */
  lemma ContractMoves(before: ContractState, after: ContractState)
    ensures ContractTrigger(before, after) <==>
      before == after || (before == Draft && after == Active) || exists action :: Leaves(action, before, after)
  {
    assert Leaves(Suspend, Active, Suspended) && Leaves(Resume, Suspended, Active);
    if after == Terminated { assert Leaves(Terminate, before, after) <==> before in {Draft, Active, Suspended}; }
  }

  /** The stages a version goes through, one after the other. */
  ghost function Stage(state: VersionState): int {
    match state case DraftVersion => 0 case Proposed => 1 case ActiveVersion => 2 case Superseded => 3 case Withdrawn => -1
  }

  /** It lets a version go to its next stage, or be withdrawn before it is active; all columns but the state are frozen
      once it is no draft. */
  lemma VersionMoves(before: Version, after: Version)
    ensures VersionTrigger(before, after) <==>
      && (|| after.state == before.state
          || (Stage(before.state) >= 0 && Stage(after.state) == Stage(before.state) + 1)
          || (after.state == Withdrawn && Stage(before.state) in {0, 1}))
      && (before.state == DraftVersion
          || (&& after.contract == before.contract && after.number == before.number && after.body == before.body
              && after.terms == before.terms && after.digest == before.digest))
  {
  }

  /** It lets a draft rule version be published and a published one be retired, with the same columns frozen. */
  lemma RuleMoves(before: RuleVersion, after: RuleVersion)
    ensures RuleTrigger(before, after) <==>
      && (after.state == before.state || (before.state, after.state) in {(DraftRule, Published), (Published, Retired)})
      && (before.state == DraftRule
          || (&& after.rule == before.rule && after.number == before.number && after.template == before.template
              && after.definition == before.definition && after.digest == before.digest))
  {
  }

  // ---------------------------------------------------------------- rules

  lemma CreateRuleExactly(sha: string -> string, zones: set<string>, s: Store, call: Call, name: string, stored: string)
    requires call.command == CreateRule(name) && call.key !in s.results
    ensures var end := Execute(sha, zones, s, call);
      && (StoredAs(160, name, stored) && stored !in s.rules ==>
            Committed(s, call, end, s.(rules := s.rules + [stored]), RuleResponse(|s.rules|, name),
                      "outcome_rule_created", OfRule(|s.rules|)))
      && ((StoredAs(160, name, stored) && stored in s.rules) || (forall x :: !StoredAs(160, name, x)) ==>
            Refuses(s, end, DatabaseRejected))
  {
    VarcharExactly(160, name, stored);
    if Varchar(160, name).Some? { VarcharExactly(160, name, Varchar(160, name).value); }
  }

  /** A rule of a known template with known keys and at most 16384 bytes of canonical text. */
  ghost predicate RuleAccepted(template: string, definition: J.Json) {
    && template in {"delivered_paid_order", "attended_booking", "qualified_lead_accepted", "paid_activated_subscription"}
    && definition.JObject?
    && (forall m :: m in definition.members ==>
          m.key in {"required_event_types", "required_statuses", "max_age_seconds", "schema_version"})
    && Utf8Length(J.Print(definition)) <= 16384
  }

  lemma RuleAcceptedExactly(template: string, definition: J.Json)
    ensures ValidRule(template, definition) <==> RuleAccepted(template, definition)
  {
    if definition.JObject? && (forall m :: m in definition.members ==> m.key in ALLOWED_RULE_KEYS) {
      forall i | 0 <= i < |definition.members| ensures definition.members[i].key in ALLOWED_RULE_KEYS {
        assert definition.members[i] in definition.members;
      }
    }
  }

  /** A character takes one to four bytes. */
  lemma Utf8Exactly(c: char, rest: string)
    ensures Utf8Length([]) == 0
    ensures Utf8Length([c] + rest) == Utf8Length(rest) +
      if c as int < 128 then 1 else if c as int < 2048 then 2 else if c as int < 65536 then 3 else 4
  {
    assert ([c] + rest)[1..] == rest;
  }

  /** One more than every number the parent has. */
  ghost predicate NextNumber(rows: seq<Serial>, parent: Id, number: nat) {
    && (forall i :: 0 <= i < |rows| && rows[i].parent == parent ==> rows[i].number < number)
    && (number == 1 || exists i :: 0 <= i < |rows| && rows[i].parent == parent && rows[i].number + 1 == number)
  }

  lemma {:induction false} NextNumberIs(rows: seq<Serial>, parent: Id)
    ensures NextNumber(rows, parent, LastNumber(rows, parent) + 1)
    decreases |rows|
  {
    if rows != [] {
      var n := |rows| - 1;
      NextNumberIs(rows[..n], parent);
      var before := LastNumber(rows[..n], parent);
      if LastNumber(rows, parent) == before && before > 0 {
        var i :| 0 <= i < n && rows[..n][i].parent == parent && rows[..n][i].number + 1 == before + 1;
        assert rows[i].parent == parent && rows[i].number == before;
      }
      forall i | 0 <= i < |rows| && rows[i].parent == parent ensures rows[i].number < LastNumber(rows, parent) + 1 {
        if i < n { assert rows[..n][i] == rows[i]; }
      }
    }
  }

  lemma NextNumberIsOne(rows: seq<Serial>, parent: Id, number: nat)
    requires NextNumber(rows, parent, number) && number >= 1
    ensures number == LastNumber(rows, parent) + 1
  {
    NextNumberIs(rows, parent);
  }

  lemma CreateRuleVersionRowExactly(s: Store, rule: Id, template: string, d: J.Json, number: nat)
    requires number >= 1 && NextNumber(RuleSerials(s.ruleVersions), rule, number)
    ensures CreateRuleVersionRow(s, rule, template, d) ==
      if rule >= |s.rules| then Err(ResourceNotFound)
      else if number > 2147483647 then Err(DatabaseRejected)
      else
        Ok(Done(s.(ruleVersions := s.ruleVersions + [RuleVersion(rule, number, template, d, DraftRule, None)]),
                RuleVersionResponse(|s.ruleVersions|, rule, number, DraftRule, None), "rule_version_created", OfRule(rule)))
  {
    NextNumberIsOne(RuleSerials(s.ruleVersions), rule, number);
  }

  lemma CreateRuleVersionExactly(
      sha: string -> string, zones: set<string>, s: Store, call: Call, rule: Id, template: string, definition: J.Value, number: nat)
    requires call.command == CreateRuleVersion(rule, template, definition) && call.key !in s.results
    requires number >= 1 && NextNumber(RuleSerials(s.ruleVersions), rule, number)
    ensures var end, d := Execute(sha, zones, s, call), J.Canon(definition);
      if !RuleAccepted(template, d) then Refuses(s, end, InvalidRuleDefinition)
      else if rule >= |s.rules| then Refuses(s, end, ResourceNotFound)
      else if number > 2147483647 then Refuses(s, end, DatabaseRejected)
      else
        Committed(s, call, end, s.(ruleVersions := s.ruleVersions + [RuleVersion(rule, number, template, d, DraftRule, None)]),
                  RuleVersionResponse(|s.ruleVersions|, rule, number, DraftRule, None), "rule_version_created", OfRule(rule))
  {
    RuleAcceptedExactly(template, J.Canon(definition));
    CreateRuleVersionRowExactly(s, rule, template, J.Canon(definition), number);
  }

  /** Publishing seals a draft under the digest of its definition; retiring ends a published version and keeps its
      digest. */
  lemma TransitionRuleExactly(
      sha: string -> string, zones: set<string>, s: Store, call: Call, rule: Id, version: Id, publish: bool)
    requires Lawful(sha, s) && call.command == TransitionRule(rule, version, publish) && call.key !in s.results
    ensures var end := Execute(sha, zones, s, call);
      if version >= |s.ruleVersions| || s.ruleVersions[version].rule != rule then Refuses(s, end, ResourceNotFound)
      else
        var row, digest := s.ruleVersions[version], sha(J.Print(s.ruleVersions[version].definition));
        if publish then
          if row.state != DraftRule then Refuses(s, end, InvalidLifecycle)
          else
            Committed(s, call, end, s.(ruleVersions := s.ruleVersions[version := row.(state := Published, digest := Some(digest))]),
                      RuleVersionResponse(version, rule, row.number, Published, Some(digest)), "rule_version_published", OfRule(rule))
        else
          if row.state != Published then Refuses(s, end, InvalidLifecycle)
          else
            Committed(s, call, end, s.(ruleVersions := s.ruleVersions[version := row.(state := Retired)]),
                      RuleVersionResponse(version, rule, row.number, Retired, Some(digest)), "rule_version_retireed", OfRule(rule))
  {
    if version < |s.ruleVersions| { assert RuleSealed(sha, s.ruleVersions[version]); }
  }

  // ---------------------------------------------------------------- versions

  /** What is checked of a version's terms ahead of the transaction. */
  ghost predicate TermsAccepted(zones: set<string>, b: Body) {
    && Upper(b.currency) in {"AED", "AUD", "BDT", "CAD", "CHF", "EUR", "GBP", "INR", "JPY", "SAR", "SGD", "USD"}
    && b.timezone in zones && Priced(b)
  }

  lemma CreateVersionRowExactly(s: Store, contract: Id, asked: Body, terms: J.Json, number: nat, row: Body)
    requires number >= 1 && NextNumber(Serials(s.versions), contract, number)
    ensures var d := CreateVersionRow(s, contract, asked, terms);
      if contract >= |s.contracts| then d == Err(ResourceNotFound)
      else if asked.ruleVersion >= |s.ruleVersions| || s.ruleVersions[asked.ruleVersion].state != Published then
        d == Err(PublishedRuleRequired)
      else
        && (RowOf(asked, row) && number <= 2147483647 ==>
              d == Ok(Done(s.(versions := s.versions + [Version(contract, number, row, terms, DraftVersion, None)]),
                           VersionResponse(|s.versions|, contract, number, DraftVersion, None), "contract_version_created",
                           OfContract(contract))))
        && (number > 2147483647 || (forall x :: !RowOf(asked, x)) ==> d == Err(DatabaseRejected))
  {
    RowExactly(asked, row);
    if Columns(asked).Some? { RowExactly(asked, Columns(asked).value); }
    NextNumberIsOne(Serials(s.versions), contract, number);
  }

  lemma CreateVersionExactly(
      sha: string -> string, zones: set<string>, s: Store, call: Call, contract: Id, b: Body, terms: J.Value, number: nat, row: Body)
    requires call.command == CreateVersion(contract, b, terms) && call.key !in s.results
    requires number >= 1 && NextNumber(Serials(s.versions), contract, number)
    ensures var end, asked := Execute(sha, zones, s, call), b.(currency := Upper(b.currency));
      if !TermsAccepted(zones, b) then Refuses(s, end, InvalidContractTerms)
      else if contract >= |s.contracts| then Refuses(s, end, ResourceNotFound)
      else if b.ruleVersion >= |s.ruleVersions| || s.ruleVersions[b.ruleVersion].state != Published then
        Refuses(s, end, PublishedRuleRequired)
      else
        && (RowOf(asked, row) && number <= 2147483647 ==>
              Committed(s, call, end, s.(versions := s.versions + [Version(contract, number, row, J.Canon(terms), DraftVersion, None)]),
                        VersionResponse(|s.versions|, contract, number, DraftVersion, None), "contract_version_created", OfContract(contract)))
        && (number > 2147483647 || (forall x :: !RowOf(asked, x)) ==> Refuses(s, end, DatabaseRejected))
  {
    CreateVersionRowExactly(s, contract, b.(currency := Upper(b.currency)), J.Canon(terms), number, row);
  }

  ghost predicate NoVersion(s: Store, contract: Id, version: Id) {
    contract >= |s.contracts| || version >= |s.versions| || s.versions[version].contract != contract
  }

  /** Proposing seals a draft under the digest of its terms. */
  lemma ProposeExactly(sha: string -> string, zones: set<string>, s: Store, call: Call, contract: Id, version: Id)
    requires call.command == Propose(contract, version) && call.key !in s.results
    ensures var end := Execute(sha, zones, s, call);
      if NoVersion(s, contract, version) then Refuses(s, end, ResourceNotFound)
      else if s.versions[version].state != DraftVersion then Refuses(s, end, InvalidLifecycle)
      else
        var row, digest := s.versions[version], sha(J.Print(s.versions[version].terms));
        Committed(s, call, end, s.(versions := s.versions[version := row.(state := Proposed, digest := Some(digest))]),
                  VersionResponse(version, contract, row.number, Proposed, Some(digest)), "contract_version_proposeed", OfContract(contract))
  {
  }

  ghost predicate HasAccepted(s: Store, version: Id, digest: string, role: string) {
    exists a :: a in s.acceptances && a.version == version && a.digest == digest && a.role == role
  }

  /** Only a human accepts, a version that is proposed, under the digest it carries, in a role granted to him on
      its contract, and once in each role. */
  lemma AcceptExactly(
      sha: string -> string, zones: set<string>, s: Store, call: Call, contract: Id, version: Id, digest: string, role: string)
    requires Lawful(sha, s) && call.command == Accept(contract, version, digest, role) && call.key !in s.results
    ensures var end := Execute(sha, zones, s, call);
      if NoVersion(s, contract, version) then Refuses(s, end, ResourceNotFound)
      else if !call.human then Refuses(s, end, HumanPrincipalRequired)
      else if exists i :: 0 <= i < |role| && role[i] as int == 0 then Refuses(s, end, DatabaseRejected)
      else
        var row := s.versions[version];
        if row.state != Proposed || row.digest != Some(digest) || Authority(contract, role, call.actor) !in s.authorities then
          Refuses(s, end, AcceptanceNotAuthorized)
        else if HasAccepted(s, version, digest, role) then Refuses(s, end, DatabaseRejected)
        else
          Committed(s, call, end, s.(acceptances := s.acceptances + [Acceptance(version, digest, role, call.actor)]),
                    VersionResponse(version, contract, row.number, Proposed, Some(digest)), "contract_version_accepted", OfContract(contract))
  {
    forall i | 0 <= i < |role| ensures role[i] as int == 0 <==> role[i] == '\0' { CharIs(role[i], '\0'); }
    if Authority(contract, role, call.actor) in s.authorities {
      var i :| 0 <= i < |s.authorities| && s.authorities[i] == Authority(contract, role, call.actor);
      assert |role| <= 64;
    }
  }

  /** The version is active, the one active before it superseded, all else as it was. */
  ghost predicate Replaced(before: seq<Version>, after: seq<Version>, contract: Id, version: Id) {
    && |after| == |before|
    && forall i :: 0 <= i < |before| ==>
         after[i] == before[i].(state :=
           if i == version then ActiveVersion
           else if before[i].contract == contract && before[i].state == ActiveVersion then Superseded
           else before[i].state)
  }

  /** Activation needs a proposed version that exactly its required roles accepted, and a contract that is not
      terminated. */
  lemma ActivateExactly(
      sha: string -> string, zones: set<string>, s: Store, call: Call, contract: Id, version: Id, versions: seq<Version>)
    requires Lawful(sha, s) && call.command == Activate(contract, version) && call.key !in s.results
    requires !NoVersion(s, contract, version) ==> Replaced(s.versions, versions, contract, version)
    ensures var end := Execute(sha, zones, s, call);
      if NoVersion(s, contract, version) then Refuses(s, end, ResourceNotFound)
      else
        var row, head, digest := s.versions[version], s.contracts[contract], sha(J.Print(s.versions[version].terms));
        if row.state != Proposed || !(forall role :: role in row.body.roles <==> HasAccepted(s, version, digest, role)) then
          Refuses(s, end, AcceptancesRequired)
        else if head.state == Terminated || head.lockVersion >= 2147483647 then Refuses(s, end, DatabaseRejected)
        else
          Committed(s, call, end, s.(versions := versions, contracts := s.contracts[contract := Contract(Active, head.lockVersion + 1)]),
                    VersionResponse(version, contract, row.number, ActiveVersion, Some(digest)), "contract_version_activateed",
                    OfContract(contract))
  {
    if !NoVersion(s, contract, version) {
      assert Sealed(sha, s.versions[version]);
      ActivateRowExactly(sha, s, contract, version, versions);
    }
  }

  lemma ActivateRowExactly(sha: string -> string, s: Store, contract: Id, version: Id, versions: seq<Version>)
    requires !NoVersion(s, contract, version) && Sealed(sha, s.versions[version])
    requires Replaced(s.versions, versions, contract, version)
    ensures var row, head, digest := s.versions[version], s.contracts[contract], sha(J.Print(s.versions[version].terms));
      ActivateRow(s, contract, version) ==
        if row.state != Proposed || !(forall role :: role in row.body.roles <==> HasAccepted(s, version, digest, role)) then
          Err(AcceptancesRequired)
        else if head.state == Terminated || head.lockVersion >= 2147483647 then Err(DatabaseRejected)
        else
          Ok(Done(s.(versions := versions, contracts := s.contracts[contract := Contract(Active, head.lockVersion + 1)]),
                  VersionResponse(version, contract, row.number, ActiveVersion, Some(digest)), "contract_version_activateed",
                  OfContract(contract)))
  {
    var row := s.versions[version];
    AcceptedExactly(s, version, sha(J.Print(row.terms)), row.body.roles);
    if row.state == Proposed {
      OneActiveAfter(s.versions, contract, version, row.(state := ActiveVersion));
      assert versions == Supersede(s.versions, contract)[version := row.(state := ActiveVersion)];
    }
  }

  lemma AcceptedExactly(s: Store, version: Id, digest: string, roles: seq<string>)
    ensures Roles(roles) == AcceptedRoles(s.acceptances, version, digest) <==>
      forall role :: role in roles <==> HasAccepted(s, version, digest, role)
  {
    assert forall role :: role in Roles(roles) <==> role in roles;
    assert forall role :: role in AcceptedRoles(s.acceptances, version, digest) <==> HasAccepted(s, version, digest, role);
  }

  lemma ProvisionExactly(
      sha: string -> string, zones: set<string>, s: Store, call: Call, contract: Id, role: string, p: Principal, stored: string)
    requires call.command == ProvisionAuthority(contract, role, p) && call.key !in s.results
    ensures var end := Execute(sha, zones, s, call);
      if contract >= |s.contracts| then Refuses(s, end, ResourceNotFound)
      else
        && (StoredAs(64, role, stored) && Authority(contract, stored, p) !in s.authorities ==>
              Committed(s, call, end, s.(authorities := s.authorities + [Authority(contract, stored, p)]),
                        AuthorityResponse(|s.authorities|, contract, role, p), "contract_party_authority_granted", OfContract(contract)))
        && ((StoredAs(64, role, stored) && Authority(contract, stored, p) in s.authorities) || (forall x :: !StoredAs(64, role, x)) ==>
              Refuses(s, end, DatabaseRejected))
  {
    VarcharExactly(64, role, stored);
    if Varchar(64, role).Some? { VarcharExactly(64, role, Varchar(64, role).value); }
  }

  // ---------------------------------------------------------------- bindings

  /** The binding is in force at this instant: from its start on, and before its end if it has one. */
  ghost predicate InForceAt(b: Binding, at: int) { at >= b.effectiveStart && (b.effectiveEnd.Some? ==> at < b.effectiveEnd.value) }

  /** Two bindings of one source are in force at one instant. */
  ghost predicate Meets(a: Binding, b: Binding) {
    a.sourceType == b.sourceType && a.sourceId == b.sourceId && exists at :: InForceAt(a, at) && InForceAt(b, at)
  }

  /** A binding that fits its columns is inserted exactly when its contract exists, it is in force at some time, and
      no binding of the same source is ever in force at the same time. */
  lemma BindExactly(s: Store, b: Binding, stored: Binding)
    requires StoredAs(64, b.sourceType, stored.sourceType) && StoredAs(255, b.sourceId, stored.sourceId)
    requires stored == b.(sourceType := stored.sourceType, sourceId := stored.sourceId)
    requires BindingsLawful(s.contracts, s.bindings) && SpansLawful(s.bindings)
    ensures var t := InsertBinding(s, b);
      if b.contract < |s.contracts| && (exists at :: InForceAt(stored, at))
         && (forall i :: 0 <= i < |s.bindings| ==> !Meets(s.bindings[i], stored))
      then t == s.(bindings := s.bindings + [stored]) else t == s
  {
    VarcharExactly(64, b.sourceType, stored.sourceType);
    VarcharExactly(255, b.sourceId, stored.sourceId);
    assert BindingColumns(b) == Some(stored);
    assert (exists at :: InForceAt(stored, at)) <==> Spans(stored) by {
      if Spans(stored) { assert InForceAt(stored, stored.effectiveStart); }
    }
    forall i | 0 <= i < |s.bindings| && Spans(stored)
      ensures Meets(s.bindings[i], stored) <==> SameSource(s.bindings[i], stored) && Overlap(s.bindings[i], stored)
    {
      OverlapExactly(s.bindings[i], stored);
    }
  }

  /** An end comes after the start. */
  predicate Spans(b: Binding) { b.effectiveEnd.Some? ==> b.effectiveStart < b.effectiveEnd.value }

  ghost predicate SpansLawful(bindings: seq<Binding>) { forall i :: 0 <= i < |bindings| ==> Spans(bindings[i]) }

  lemma OverlapExactly(a: Binding, b: Binding)
    requires Spans(a) && Spans(b)
    ensures Overlap(a, b) <==> exists at :: InForceAt(a, at) && InForceAt(b, at)
  {
    var at := Max(a.effectiveStart, b.effectiveStart);
    if Overlap(a, b) { assert InForceAt(a, at) && InForceAt(b, at); }
  }

  /** Bindings inserted this way all have a span. */
  lemma {:induction false} ReachedSpans(sha: string -> string, zones: set<string>, steps: seq<Step>)
    ensures SpansLawful(Run(sha, zones, EMPTY, steps).bindings)
    decreases |steps|
  {
    if steps != [] {
      var n := |steps| - 1;
      ReachedSpans(sha, zones, steps[..n]);
      var s := Run(sha, zones, EMPTY, steps[..n]);
      if steps[n].Invoke? {
        BindingsUntouched(sha, zones, s, steps[n].call);
      } else {
        InsertedSpans(s, steps[n].binding);
      }
    }
  }

  lemma BindingsUntouched(sha: string -> string, zones: set<string>, s: Store, call: Call)
    ensures Execute(sha, zones, s, call).0.bindings == s.bindings
  {
    var r := RequestOf(call.command);
    if Perform(sha, s, r, call.actor, call.human).Ok? { PerformKeepsRows(sha, s, r, call.actor, call.human); }
  }

  lemma InsertedSpans(s: Store, b: Binding)
    requires SpansLawful(s.bindings)
    ensures SpansLawful(InsertBinding(s, b).bindings)
  {
  }

  // ---------------------------------------------------------------- keys used before

  /** A key used before changes nothing: what is checked ahead of the look-up is refused first; otherwise the recorded
      request gets its recorded answer and any other is a conflict, unless the call raced past the look-up, which
      fails. */
  lemma KnownKeyExactly(sha: string -> string, zones: set<string>, s: Store, call: Call)
    requires call.key in s.results
    ensures var end := Execute(sha, zones, s, call);
      if call.command.CreateRuleVersion? && !RuleAccepted(call.command.template, J.Canon(call.command.definition)) then
        Refuses(s, end, InvalidRuleDefinition)
      else if call.command.CreateVersion? && !TermsAccepted(zones, call.command.body) then Refuses(s, end, InvalidContractTerms)
      else if call.raced then end.0 == s && end.1.Err?
      else if s.results[call.key].request == RequestOf(call.command) then end == (s, Ok(s.results[call.key].response))
      else Refuses(s, end, IdempotencyConflict)
  {
    if call.command.CreateRuleVersion? { RuleAcceptedExactly(call.command.template, J.Canon(call.command.definition)); }
  }

  // ---------------------------------------------------------------- what makes two calls the same request

  lemma LettersRaised(c: char)
    ensures UpperChar(c) as int ==
      if 97 <= c as int <= 122 then c as int - 32 else if c as int == 383 then 83 else if c as int == 305 then 73 else c as int
  {
  }

  /** Currencies count as the same whatever their case, documents whatever their key order; all else must agree. */
  ghost predicate SameCommand(c: Command, d: Command) {
    match c
    case CreateContract => d == CreateContract
    case CreateRule(name) => d == CreateRule(name)
    case CreateRuleVersion(rule, template, definition) =>
      && d.CreateRuleVersion? && d.rule == rule && d.template == template
      && J.CanonicalDocument(d.definition) == J.CanonicalDocument(definition)
    case TransitionRule(rule, version, publish) => d == TransitionRule(rule, version, publish)
    case CreateVersion(contract, body, terms) =>
      && d.CreateVersion? && d.contract == contract && d.body == body.(currency := d.body.currency)
      && Upper(d.body.currency) == Upper(body.currency) && J.CanonicalDocument(d.terms) == J.CanonicalDocument(terms)
    case Propose(contract, version) => d == Propose(contract, version)
    case Accept(contract, version, digest, role) => d == Accept(contract, version, digest, role)
    case Activate(contract, version) => d == Activate(contract, version)
    case TransitionContract(contract, action, lock) => d == TransitionContract(contract, action, lock)
    case ProvisionAuthority(contract, role, principal) => d == ProvisionAuthority(contract, role, principal)
  }

  lemma RequestsAgree(c: Command, d: Command)
    ensures RequestOf(c) == RequestOf(d) <==> SameCommand(c, d)
  {
    if c.CreateRuleVersion? && d.CreateRuleVersion? { J.DocumentInjective(d.definition, c.definition); }
    if c.CreateVersion? && d.CreateVersion? {
      J.DocumentInjective(d.terms, c.terms);
      if RequestOf(c) == RequestOf(d) {
        assert c.body.(currency := Upper(c.body.currency)) == d.body.(currency := Upper(d.body.currency));
        assert d.body == c.body.(currency := d.body.currency);
      }
    }
  }
}
