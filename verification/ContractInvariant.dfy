/** What holds of the contract tables in every reachable state. */
module ContractInvariant {
  import opened Basics
  import opened Contracts
  import J = CanonicalJson

  // ---------------------------------------------------------------- version numbers

  function Count(rows: seq<Serial>, parent: Id): nat {
    if rows == [] then 0
    else
      var n := |rows| - 1;
      Count(rows[..n], parent) + if rows[n].parent == parent then 1 else 0
  }

  /** In creation order the versions of one parent are numbered 1, 2, 3 and so on. */
  ghost predicate Numbered(rows: seq<Serial>) {
    forall i :: 0 <= i < |rows| ==> rows[i].number == Count(rows[..i], rows[i].parent) + 1
  }

  lemma NumberedPrefix(rows: seq<Serial>, n: nat)
    requires Numbered(rows) && n <= |rows|
    ensures Numbered(rows[..n])
  {
    forall i | 0 <= i < n ensures rows[i].number == Count(rows[..n][..i], rows[i].parent) + 1 {
      assert rows[..n][..i] == rows[..i];
    }
  }

  lemma {:induction false} LastNumberCounts(rows: seq<Serial>, parent: Id)
    requires Numbered(rows)
    ensures LastNumber(rows, parent) == Count(rows, parent)
    decreases |rows|
  {
    if rows != [] {
      var n := |rows| - 1;
      NumberedPrefix(rows, n);
      LastNumberCounts(rows[..n], parent);
      assert rows[n].number == Count(rows[..n], rows[n].parent) + 1;
    }
  }

  lemma NumberedAppend(rows: seq<Serial>, row: Serial)
    requires Numbered(rows) && row.number == LastNumber(rows, row.parent) + 1
    ensures Numbered(rows + [row])
  {
    LastNumberCounts(rows, row.parent);
    var after := rows + [row];
    forall i | 0 <= i < |after| ensures after[i].number == Count(after[..i], after[i].parent) + 1 {
      assert after[..i] == rows[..i];
      if i == |rows| { assert rows[..i] == rows; }
    }
  }

  lemma {:induction false} CountGrows(rows: seq<Serial>, i: nat)
    requires Numbered(rows) && i < |rows|
    ensures 1 <= rows[i].number <= Count(rows, rows[i].parent)
    decreases |rows|
  {
    var n := |rows| - 1;
    NumberedPrefix(rows, n);
    assert rows[i].number == Count(rows[..i], rows[i].parent) + 1;
    if i < n { CountGrows(rows[..n], i); }
  }

  lemma {:induction false} NumberTaken(rows: seq<Serial>, parent: Id, k: nat) returns (i: nat)
    requires Numbered(rows) && 1 <= k <= Count(rows, parent)
    ensures i < |rows| && rows[i] == Serial(parent, k)
    decreases |rows|
  {
    var n := |rows| - 1;
    NumberedPrefix(rows, n);
    assert rows[n].number == Count(rows[..n], rows[n].parent) + 1;
    if k <= Count(rows[..n], parent) {
      i := NumberTaken(rows[..n], parent, k);
    } else {
      i := n;
    }
  }

  /** A contract or rule with n versions has each of the numbers 1 to n, no other, and later versions have
      later numbers. */
  lemma EachNumberOnce(rows: seq<Serial>, parent: Id, k: nat)
    requires Numbered(rows)
    ensures 1 <= k <= Count(rows, parent) <==> Serial(parent, k) in rows
    ensures forall i, j :: 0 <= i < j < |rows| && rows[i].parent == rows[j].parent ==> rows[i].number < rows[j].number
  {
    if 1 <= k <= Count(rows, parent) {
      var i := NumberTaken(rows, parent, k);
    }
    forall i: nat | i < |rows| ensures 1 <= rows[i].number <= Count(rows, rows[i].parent) {
      CountGrows(rows, i);
    }
    forall i, j | 0 <= i < j < |rows| && rows[i].parent == rows[j].parent ensures rows[i].number < rows[j].number {
      NumberedPrefix(rows, j);
      CountGrows(rows[..j], i);
      assert rows[j].number == Count(rows[..j], rows[j].parent) + 1;
    }
  }

  // ---------------------------------------------------------------- active versions

  lemma {:induction false} ActiveCountZero(versions: seq<Version>, contract: Id)
    ensures ActiveCount(versions, contract) == 0 <==>
      forall i :: 0 <= i < |versions| && versions[i].contract == contract ==> versions[i].state != ActiveVersion
    decreases |versions|
  {
    if versions != [] {
      var n := |versions| - 1;
      ActiveCountZero(versions[..n], contract);
      assert forall i :: 0 <= i < n ==> versions[..n][i] == versions[i];
    }
  }

  /** Changing one row moves the count by what changed in that row. */
  lemma {:induction false} ActiveCountUpdate(versions: seq<Version>, contract: Id, i: nat, v: Version)
    requires i < |versions| && v.contract == versions[i].contract
    ensures var active, becomes := versions[i].state == ActiveVersion, v.state == ActiveVersion;
      ActiveCount(versions[i := v], contract) + (if active && v.contract == contract then 1 else 0)
      == ActiveCount(versions, contract) + (if becomes && v.contract == contract then 1 else 0)
    decreases |versions|
  {
    var n := |versions| - 1;
    if i < n {
      ActiveCountUpdate(versions[..n], contract, i, v);
      assert versions[i := v][..n] == versions[..n][i := v];
    } else {
      assert versions[i := v][..n] == versions[..n];
    }
  }

  lemma {:induction false} SupersedeCount(versions: seq<Version>, contract: Id, c: Id)
    ensures ActiveCount(Supersede(versions, contract), c) == if c == contract then 0 else ActiveCount(versions, c)
    decreases |versions|
  {
    if versions != [] {
      var n := |versions| - 1;
      SupersedeCount(versions[..n], contract, c);
      assert Supersede(versions, contract)[..n] == Supersede(versions[..n], contract);
    }
  }

  /** At most one active version means any two are the same. */
  lemma {:induction false} ActiveCountOne(versions: seq<Version>, contract: Id, i: nat, j: nat)
    requires ActiveCount(versions, contract) <= 1 && i < |versions| && j < |versions|
    requires versions[i].contract == versions[j].contract == contract
    requires versions[i].state == versions[j].state == ActiveVersion
    ensures i == j
    decreases |versions|
  {
    var n := |versions| - 1;
    ActiveCountZero(versions[..n], contract);
    if i < n { assert versions[..n][i] == versions[i]; }
    if j < n { assert versions[..n][j] == versions[j]; }
    if i < n && j < n { ActiveCountOne(versions[..n], contract, i, j); }
  }

  // ---------------------------------------------------------------- the invariant

  /** Draft carries no digest; anything later carries the digest of its own terms; nothing is withdrawn. The
      roles a version requires are texts the database can store. */
  ghost predicate Sealed(sha: string -> string, v: Version) {
    && v.digest == (if v.state == DraftVersion then None else Some(DigestOf(sha, v.terms))) && v.state != Withdrawn
    && forall r :: r in v.body.roles ==> Storable(r)
  }

  /** Exactly the required roles accepted the digest an active or superseded version carries. */
  ghost predicate FullyAccepted(sha: string -> string, acceptances: seq<Acceptance>, i: Id, v: Version) {
    v.state in {ActiveVersion, Superseded} ==> AcceptedRoles(acceptances, i, DigestOf(sha, v.terms)) == Roles(v.body.roles)
  }

  ghost predicate VersionsLawful(sha: string -> string, contracts: seq<Contract>, versions: seq<Version>, acceptances: seq<Acceptance>) {
    && Numbered(Serials(versions))
    && (forall i :: 0 <= i < |versions| ==> versions[i].contract < |contracts| && Sealed(sha, versions[i]))
    && (forall i :: 0 <= i < |versions| ==> FullyAccepted(sha, acceptances, i, versions[i]))
  }

  /** Each acceptance is of the digest its version carries, by a principal with authority for the role;
      a role accepts a version once. */
  ghost predicate AcceptanceLawful(versions: seq<Version>, authorities: seq<Authority>, a: Acceptance) {
    && a.version < |versions| && versions[a.version].digest == Some(a.digest)
    && versions[a.version].state != DraftVersion
    && Authority(versions[a.version].contract, a.role, a.principal) in authorities
  }

  /** A party role, granted or accepted, fits its column. */
  ghost predicate RolesFit(acceptances: seq<Acceptance>, authorities: seq<Authority>) {
    && (forall i :: 0 <= i < |authorities| ==> |authorities[i].role| <= ROLE_WIDTH)
    && (forall i :: 0 <= i < |acceptances| ==> |acceptances[i].role| <= ROLE_WIDTH)
  }

  ghost predicate AcceptancesLawful(versions: seq<Version>, acceptances: seq<Acceptance>, authorities: seq<Authority>) {
    && (forall i :: 0 <= i < |acceptances| ==> AcceptanceLawful(versions, authorities, acceptances[i]))
    && (forall i, j :: 0 <= i < j < |acceptances| && acceptances[i].version == acceptances[j].version ==>
          acceptances[i].role != acceptances[j].role)
  }

  /** How many active versions a contract in this state may have. */
  predicate HeadLawful(state: ContractState, active: nat) {
    match state
    case Draft => active == 0
    case Active => active == 1
    case Suspended => active == 1
    case Terminated => active <= 1
  }

  ghost predicate HeadsLawful(contracts: seq<Contract>, versions: seq<Version>) {
    forall c :: 0 <= c < |contracts| ==> HeadLawful(contracts[c].state, ActiveCount(versions, c))
  }

  ghost predicate RuleSealed(sha: string -> string, v: RuleVersion) {
    && v.digest == (if v.state == DraftRule then None else Some(DigestOf(sha, v.definition)))
    && ValidRule(v.template, v.definition)
  }

  /** Every version is bound to a rule that was published. */
  ghost predicate RulesLawful(sha: string -> string, rules: seq<RuleVersion>, versions: seq<Version>) {
    && Numbered(RuleSerials(rules))
    && (forall i :: 0 <= i < |rules| ==> RuleSealed(sha, rules[i]))
    && (forall i :: 0 <= i < |versions| ==>
          versions[i].body.ruleVersion < |rules| && rules[versions[i].body.ruleVersion].state != DraftRule)
  }

  ghost predicate BindingsLawful(contracts: seq<Contract>, bindings: seq<Binding>) {
    && (forall i :: 0 <= i < |bindings| ==> bindings[i].contract < |contracts|)
    && (forall i, j :: 0 <= i < j < |bindings| && SameSource(bindings[i], bindings[j]) ==> !Overlap(bindings[i], bindings[j]))
  }

  /** The laws of the domain tables. */
  ghost predicate TablesLawful(sha: string -> string, s: Store) {
    && VersionsLawful(sha, s.contracts, s.versions, s.acceptances)
    && AcceptancesLawful(s.versions, s.acceptances, s.authorities) && RolesFit(s.acceptances, s.authorities)
    && HeadsLawful(s.contracts, s.versions)
    && RulesLawful(sha, s.ruleVersions, s.versions)
    && BindingsLawful(s.contracts, s.bindings)
  }

  /** Every committed command left one audit row, one outbox row and one remembered result. */
  predicate BooksBalance(s: Store) { |s.audit| == |s.outbox| == |s.results| }

  ghost predicate Lawful(sha: string -> string, s: Store) { TablesLawful(sha, s) && BooksBalance(s) }

  // ---------------------------------------------------------------- operations keep the laws

  /** An operation writes domain rows only. */
  predicate SameBooks(s: Store, t: Store) { t.results == s.results && t.audit == s.audit && t.outbox == s.outbox }

  lemma CreateContractKeeps(sha: string -> string, s: Store)
    requires TablesLawful(sha, s)
    ensures TablesLawful(sha, CreateContractRow(s).value.store)
  {
    var t := CreateContractRow(s).value.store;
    forall c | 0 <= c < |t.contracts| ensures HeadLawful(t.contracts[c].state, ActiveCount(t.versions, c)) {
      if c == |s.contracts| { ActiveCountZero(s.versions, c); } else { assert HeadLawful(s.contracts[c].state, ActiveCount(s.versions, c)); }
    }
  }

  lemma CreateRuleVersionKeeps(sha: string -> string, s: Store, rule: Id, template: string, definition: J.Json)
    requires TablesLawful(sha, s) && ValidRule(template, definition)
    requires CreateRuleVersionRow(s, rule, template, definition).Ok?
    ensures TablesLawful(sha, CreateRuleVersionRow(s, rule, template, definition).value.store)
  {
    var t := CreateRuleVersionRow(s, rule, template, definition).value.store;
    var row := Serial(rule, t.ruleVersions[|s.ruleVersions|].number);
    assert RuleSerials(t.ruleVersions) == RuleSerials(s.ruleVersions) + [row];
    NumberedAppend(RuleSerials(s.ruleVersions), row);
  }

  lemma TransitionRuleKeeps(sha: string -> string, s: Store, rule: Id, version: Id, publish: bool)
    requires TablesLawful(sha, s) && TransitionRuleRow(sha, s, rule, version, publish).Ok?
    ensures TablesLawful(sha, TransitionRuleRow(sha, s, rule, version, publish).value.store)
  {
    assert RuleSealed(sha, s.ruleVersions[version]);
    assert RuleSerials(TransitionRuleRow(sha, s, rule, version, publish).value.store.ruleVersions) == RuleSerials(s.ruleVersions);
  }

  lemma CreateVersionKeeps(sha: string -> string, s: Store, contract: Id, body: Body, terms: J.Json)
    requires TablesLawful(sha, s)
    ensures CreateVersionRow(s, contract, body, terms).Ok? ==> TablesLawful(sha, CreateVersionRow(s, contract, body, terms).value.store)
  {
    if CreateVersionRow(s, contract, body, terms).Err? { return; }
    var v := CreateVersionRow(s, contract, body, terms).value.store.versions[|s.versions|];
    NewDraftVersions(sha, s.contracts, s.versions, s.acceptances, v);
    NewDraftElsewhere(sha, s, v);
  }

  lemma NewDraftVersions(
      sha: string -> string, contracts: seq<Contract>, versions: seq<Version>, acceptances: seq<Acceptance>, v: Version)
    requires VersionsLawful(sha, contracts, versions, acceptances)
    requires v.contract < |contracts| && v.number == LastNumber(Serials(versions), v.contract) + 1
    requires v.state == DraftVersion && v.digest.None? && forall r :: r in v.body.roles ==> Storable(r)
    ensures VersionsLawful(sha, contracts, versions + [v], acceptances)
  {
    var row := Serial(v.contract, v.number);
    assert Serials(versions + [v]) == Serials(versions) + [row];
    NumberedAppend(Serials(versions), row);
  }

  lemma NewDraftElsewhere(sha: string -> string, s: Store, v: Version)
    requires AcceptancesLawful(s.versions, s.acceptances, s.authorities) && HeadsLawful(s.contracts, s.versions)
    requires RulesLawful(sha, s.ruleVersions, s.versions) && v.state == DraftVersion
    requires v.body.ruleVersion < |s.ruleVersions| && s.ruleVersions[v.body.ruleVersion].state != DraftRule
    ensures var versions := s.versions + [v];
      && AcceptancesLawful(versions, s.acceptances, s.authorities) && HeadsLawful(s.contracts, versions)
      && RulesLawful(sha, s.ruleVersions, versions)
  {
    var versions := s.versions + [v];
    assert versions[..|s.versions|] == s.versions;
    forall i | 0 <= i < |s.acceptances| ensures AcceptanceLawful(versions, s.authorities, s.acceptances[i]) {
      assert AcceptanceLawful(s.versions, s.authorities, s.acceptances[i]);
    }
    forall c | 0 <= c < |s.contracts| ensures HeadLawful(s.contracts[c].state, ActiveCount(versions, c)) {
      assert HeadLawful(s.contracts[c].state, ActiveCount(s.versions, c));
    }
  }

  lemma ProposeKeeps(sha: string -> string, s: Store, contract: Id, version: Id)
    requires TablesLawful(sha, s) && ProposeRow(sha, s, contract, version).Ok?
    ensures TablesLawful(sha, ProposeRow(sha, s, contract, version).value.store)
  {
    var row := s.versions[version];
    var v := row.(state := Proposed, digest := Some(DigestOf(sha, row.terms)));
    ProposedVersions(sha, s.contracts, s.versions, s.acceptances, version, v);
    ProposedElsewhere(sha, s, version, v);
  }

  lemma ProposedVersions(
      sha: string -> string, contracts: seq<Contract>, versions: seq<Version>, acceptances: seq<Acceptance>, i: Id, v: Version)
    requires VersionsLawful(sha, contracts, versions, acceptances) && i < |versions|
    requires v == versions[i].(state := Proposed, digest := Some(DigestOf(sha, versions[i].terms)))
    ensures VersionsLawful(sha, contracts, versions[i := v], acceptances)
  {
    assert Serials(versions[i := v]) == Serials(versions);
  }

  lemma ProposedElsewhere(sha: string -> string, s: Store, i: Id, v: Version)
    requires AcceptancesLawful(s.versions, s.acceptances, s.authorities) && HeadsLawful(s.contracts, s.versions)
    requires RulesLawful(sha, s.ruleVersions, s.versions) && i < |s.versions| && s.versions[i].state == DraftVersion
    requires v == s.versions[i].(state := Proposed, digest := v.digest)
    ensures var versions := s.versions[i := v];
      && AcceptancesLawful(versions, s.acceptances, s.authorities) && HeadsLawful(s.contracts, versions)
      && RulesLawful(sha, s.ruleVersions, versions)
  {
    var versions := s.versions[i := v];
    forall c | 0 <= c < |s.contracts| ensures HeadLawful(s.contracts[c].state, ActiveCount(versions, c)) {
      assert HeadLawful(s.contracts[c].state, ActiveCount(s.versions, c));
      ActiveCountUpdate(s.versions, c, i, v);
    }
    forall k | 0 <= k < |s.acceptances| ensures AcceptanceLawful(versions, s.authorities, s.acceptances[k]) {
      assert AcceptanceLawful(s.versions, s.authorities, s.acceptances[k]);
    }
  }

  lemma AcceptKeeps(
      sha: string -> string, s: Store, contract: Id, version: Id, digest: string, role: string, actor: Principal, human: bool)
    requires TablesLawful(sha, s) && AcceptRow(s, contract, version, digest, role, actor, human).Ok?
    ensures TablesLawful(sha, AcceptRow(s, contract, version, digest, role, actor, human).value.store)
  {
    var t := AcceptRow(s, contract, version, digest, role, actor, human).value.store;
    var n := |s.acceptances|;
    forall i | 0 <= i < |s.versions| ensures FullyAccepted(sha, t.acceptances, i, s.versions[i]) {
      assert FullyAccepted(sha, s.acceptances, i, s.versions[i]);
      if i != version {
        var d := DigestOf(sha, s.versions[i].terms);
        assert AcceptedRoles(t.acceptances, i, d) == AcceptedRoles(s.acceptances, i, d);
      }
    }
    forall i | 0 <= i < |t.acceptances| ensures AcceptanceLawful(s.versions, s.authorities, t.acceptances[i]) {
      if i < n { assert AcceptanceLawful(s.versions, s.authorities, s.acceptances[i]); }
    }
    forall i, j | 0 <= i < j < |t.acceptances| && t.acceptances[i].version == t.acceptances[j].version
      ensures t.acceptances[i].role != t.acceptances[j].role
    {
      assert AcceptanceLawful(s.versions, s.authorities, s.acceptances[i]);
      assert j == n ==> s.acceptances[i] in s.acceptances;
    }
  }

  /** Nothing but states changed, and `version` alone became active or superseded. */
  ghost predicate OnlyStates(before: seq<Version>, after: seq<Version>, version: Id) {
    && |after| == |before|
    && (forall i :: 0 <= i < |before| ==> after[i] == before[i].(state := after[i].state))
    && (forall i :: 0 <= i < |before| ==> (after[i].state == DraftVersion <==> before[i].state == DraftVersion))
    && (forall i :: 0 <= i < |before| && after[i].state == Withdrawn ==> before[i].state == Withdrawn)
    && (forall i :: 0 <= i < |before| && i != version && after[i].state in {ActiveVersion, Superseded} ==>
          before[i].state in {ActiveVersion, Superseded})
  }

  lemma ActivateOnlyStates(s: Store, contract: Id, version: Id)
    requires ActivateRow(s, contract, version).Ok?
    ensures var t := ActivateRow(s, contract, version).value.store;
      && OnlyStates(s.versions, t.versions, version) && |t.contracts| == |s.contracts|
      && t.acceptances == s.acceptances && t.authorities == s.authorities && t.ruleVersions == s.ruleVersions
      && t.bindings == s.bindings
  {
  }

  lemma StatesKeepVersions(
      sha: string -> string, contracts: seq<Contract>, heads: seq<Contract>, before: seq<Version>, after: seq<Version>,
      acceptances: seq<Acceptance>, version: Id)
    requires VersionsLawful(sha, contracts, before, acceptances) && |heads| == |contracts|
    requires OnlyStates(before, after, version) && version < |before|
    requires AcceptedRoles(acceptances, version, DigestOf(sha, before[version].terms)) == Roles(before[version].body.roles)
    ensures VersionsLawful(sha, heads, after, acceptances)
  {
    assert Serials(after) == Serials(before);
    forall i | 0 <= i < |after| ensures after[i].contract < |heads| && Sealed(sha, after[i]) {
      assert Sealed(sha, before[i]);
    }
    forall i | 0 <= i < |after| ensures FullyAccepted(sha, acceptances, i, after[i]) {
      assert FullyAccepted(sha, acceptances, i, before[i]);
    }
  }

  lemma StatesKeepAcceptances(
      before: seq<Version>, after: seq<Version>, acceptances: seq<Acceptance>, authorities: seq<Authority>, version: Id)
    requires AcceptancesLawful(before, acceptances, authorities) && OnlyStates(before, after, version)
    ensures AcceptancesLawful(after, acceptances, authorities)
  {
    forall i | 0 <= i < |acceptances| ensures AcceptanceLawful(after, authorities, acceptances[i]) {
      assert AcceptanceLawful(before, authorities, acceptances[i]);
    }
  }

  lemma StatesKeepRules(
      sha: string -> string, rules: seq<RuleVersion>, before: seq<Version>, after: seq<Version>, version: Id)
    requires RulesLawful(sha, rules, before) && OnlyStates(before, after, version)
    ensures RulesLawful(sha, rules, after)
  {
    assert forall i :: 0 <= i < |after| ==> after[i].body == before[i].body;
  }

  lemma ActivateKeepsHeads(s: Store, contract: Id, version: Id)
    requires HeadsLawful(s.contracts, s.versions) && ActivateRow(s, contract, version).Ok?
    ensures var t := ActivateRow(s, contract, version).value.store; HeadsLawful(t.contracts, t.versions)
  {
    var t := ActivateRow(s, contract, version).value.store;
    forall c | 0 <= c < |t.contracts| ensures HeadLawful(t.contracts[c].state, ActiveCount(t.versions, c)) {
      assert HeadLawful(s.contracts[c].state, ActiveCount(s.versions, c));
      SupersedeCount(s.versions, contract, c);
      ActiveCountUpdate(Supersede(s.versions, contract), c, version, s.versions[version].(state := ActiveVersion));
    }
  }

  lemma ActivateKeeps(sha: string -> string, s: Store, contract: Id, version: Id)
    requires TablesLawful(sha, s)
    ensures ActivateRow(s, contract, version).Ok? ==> TablesLawful(sha, ActivateRow(s, contract, version).value.store)
  {
    if ActivateRow(s, contract, version).Err? { return; }
    var t := ActivateRow(s, contract, version).value.store;
    ActivateOnlyStates(s, contract, version);
    assert Sealed(sha, s.versions[version]);
    StatesKeepVersions(sha, s.contracts, t.contracts, s.versions, t.versions, s.acceptances, version);
    StatesKeepAcceptances(s.versions, t.versions, s.acceptances, s.authorities, version);
    StatesKeepRules(sha, s.ruleVersions, s.versions, t.versions, version);
    ActivateKeepsHeads(s, contract, version);
  }

  lemma TransitionContractKeeps(sha: string -> string, s: Store, contract: Id, action: Action, lock: Option<nat>)
    requires TablesLawful(sha, s) && TransitionContractRow(s, contract, action, lock).Ok?
    ensures TablesLawful(sha, TransitionContractRow(s, contract, action, lock).value.store)
  {
    var t := TransitionContractRow(s, contract, action, lock).value.store;
    forall c | 0 <= c < |t.contracts| ensures HeadLawful(t.contracts[c].state, ActiveCount(t.versions, c)) {
      assert HeadLawful(s.contracts[c].state, ActiveCount(s.versions, c));
    }
  }

  lemma ProvisionAuthorityKeeps(sha: string -> string, s: Store, contract: Id, role: string, principal: Principal)
    requires TablesLawful(sha, s) && ProvisionAuthorityRow(s, contract, role, principal).Ok?
    ensures TablesLawful(sha, ProvisionAuthorityRow(s, contract, role, principal).value.store)
  {
    var t := ProvisionAuthorityRow(s, contract, role, principal).value.store;
    forall i | 0 <= i < |s.acceptances| ensures AcceptanceLawful(s.versions, t.authorities, s.acceptances[i]) {
      assert AcceptanceLawful(s.versions, s.authorities, s.acceptances[i]);
    }
  }

  lemma PerformKeepsBooks(sha: string -> string, s: Store, r: Request, actor: Principal, human: bool)
    requires Perform(sha, s, r, actor, human).Ok?
    ensures SameBooks(s, Perform(sha, s, r, actor, human).value.store)
  {
  }

  /** Whatever an operation commits keeps the laws. */
  lemma PerformKeeps(sha: string -> string, zones: set<string>, s: Store, r: Request, actor: Principal, human: bool)
    requires TablesLawful(sha, s) && Validate(zones, r).None? && Perform(sha, s, r, actor, human).Ok?
    ensures TablesLawful(sha, Perform(sha, s, r, actor, human).value.store)
  {
    match r
    case AskCreateContract => CreateContractKeeps(sha, s);
    case AskCreateRule(name) =>
    case AskCreateRuleVersion(rule, template, definition) => CreateRuleVersionKeeps(sha, s, rule, template, definition);
    case AskTransitionRule(rule, version, publish) => TransitionRuleKeeps(sha, s, rule, version, publish);
    case AskCreateVersion(contract, body, terms) => CreateVersionKeeps(sha, s, contract, body, terms);
    case AskPropose(contract, version) => ProposeKeeps(sha, s, contract, version);
    case AskAccept(contract, version, digest, role) => AcceptKeeps(sha, s, contract, version, digest, role, actor, human);
    case AskActivate(contract, version) => ActivateKeeps(sha, s, contract, version);
    case AskTransitionContract(contract, action, lock) => TransitionContractKeeps(sha, s, contract, action, lock);
    case AskProvisionAuthority(contract, role, principal) => ProvisionAuthorityKeeps(sha, s, contract, role, principal);
  }

  lemma CommitKeeps(sha: string -> string, s: Store, call: Call, r: Request, d: Done)
    requires TablesLawful(sha, d.store) && SameBooks(s, d.store) && BooksBalance(s) && call.key !in s.results
    ensures Lawful(sha, Commit(call, r, d))
  {
    assert Commit(call, r, d).results.Keys == s.results.Keys + {call.key};
  }

  /** A command keeps the laws whether it commits or rolls back. */
  lemma ExecuteKeeps(sha: string -> string, zones: set<string>, s: Store, call: Call)
    requires Lawful(sha, s)
    ensures Lawful(sha, Execute(sha, zones, s, call).0)
  {
    var r := RequestOf(call.command);
    var d := Perform(sha, s, r, call.actor, call.human);
    if Validate(zones, r).None? && d.Ok? && call.key !in s.results {
      PerformKeeps(sha, zones, s, r, call.actor, call.human);
      PerformKeepsBooks(sha, s, r, call.actor, call.human);
      CommitKeeps(sha, s, call, r, d.value);
    }
  }

  lemma StepKeeps(sha: string -> string, zones: set<string>, s: Store, step: Step)
    requires Lawful(sha, s)
    ensures Lawful(sha, Apply(sha, zones, s, step))
  {
    match step
    case Invoke(call) => ExecuteKeeps(sha, zones, s, call);
    case Bind(b) =>
  }

  /** Every reachable state of the contract tables is lawful. */
  lemma {:induction false} ReachableIsLawful(sha: string -> string, zones: set<string>, steps: seq<Step>)
    ensures Lawful(sha, Run(sha, zones, EMPTY, steps))
    decreases |steps|
  {
    if steps != [] {
      var n := |steps| - 1;
      ReachableIsLawful(sha, zones, steps[..n]);
      StepKeeps(sha, zones, Run(sha, zones, EMPTY, steps[..n]), steps[n]);
    }
  }
}
