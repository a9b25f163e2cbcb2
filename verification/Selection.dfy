/** Selection of the effective contract version for an event, over any candidates and over the join of
    source bindings with contract versions. */
module Selection {
  import opened Basics
  import opened Contracts
  import opened ContractInvariant
  import opened Ordering

  datatype Candidate = Candidate(
    version: Id, state: VersionState, effectiveStart: int, effectiveEnd: Option<int>,
    sourceType: string, sourceId: string, contractState: ContractState,
    bindingStart: Option<int>, bindingEnd: Option<int>)

  datatype Choice = Chosen(version: Id) | NoEffectiveContract | AmbiguousEffectiveContract

  predicate Matches(c: Candidate, sourceType: string, sourceId: string, at: int) {
    && c.sourceType == sourceType && c.sourceId == sourceId
    && c.contractState == Active
    && (c.bindingStart.None? || c.bindingStart.value <= at) && Contracts.Before(at, c.bindingEnd)
    && c.state == ActiveVersion
    && c.effectiveStart <= at && Contracts.Before(at, c.effectiveEnd)
  }

  function MatchesOf(cs: seq<Candidate>, sourceType: string, sourceId: string, at: int): seq<Candidate> {
    if cs == [] then []
    else
      var rest := MatchesOf(cs[1..], sourceType, sourceId, at);
      if Matches(cs[0], sourceType, sourceId, at) then [cs[0]] + rest else rest
  }

  predicate VersionLess(a: Candidate, b: Candidate) { a.version < b.version }

  /** `select_effective_contract`. */
  function Select(cs: seq<Candidate>, sourceType: string, sourceId: string, at: int): Choice {
    var matches := Sort(MatchesOf(cs, sourceType, sourceId, at), VersionLess);
    if matches == [] then NoEffectiveContract
    else if |matches| != 1 then AmbiguousEffectiveContract
    else Chosen(matches[0].version)
  }

  // ---------------------------------------------------------------- order of the candidates

  lemma {:induction false} MatchesAppend(a: seq<Candidate>, b: seq<Candidate>, sourceType: string, sourceId: string, at: int)
    ensures MatchesOf(a + b, sourceType, sourceId, at) == MatchesOf(a, sourceType, sourceId, at) + MatchesOf(b, sourceType, sourceId, at)
    decreases |a|
  {
    if a == [] {
      assert a + b == b;
    } else {
      assert (a + b)[1..] == a[1..] + b;
      MatchesAppend(a[1..], b, sourceType, sourceId, at);
    }
  }

  lemma {:induction false} MatchCount(cs: seq<Candidate>, sourceType: string, sourceId: string, at: int, c: Candidate)
    ensures multiset(MatchesOf(cs, sourceType, sourceId, at))[c]
      == if Matches(c, sourceType, sourceId, at) then multiset(cs)[c] else 0
    decreases |cs|
  {
    if cs != [] {
      MatchCount(cs[1..], sourceType, sourceId, at, c);
      assert cs == [cs[0]] + cs[1..];
    }
  }

  /** The selection does not depend on the order of the candidates. */
  lemma SelectionForgetsOrder(a: seq<Candidate>, b: seq<Candidate>, sourceType: string, sourceId: string, at: int)
    requires multiset(a) == multiset(b)
    ensures Select(a, sourceType, sourceId, at) == Select(b, sourceType, sourceId, at)
  {
    var m, n := MatchesOf(a, sourceType, sourceId, at), MatchesOf(b, sourceType, sourceId, at);
    forall c ensures multiset(m)[c] == multiset(n)[c] {
      MatchCount(a, sourceType, sourceId, at, c);
      MatchCount(b, sourceType, sourceId, at, c);
    }
    assert multiset(m) == multiset(n);
    SortContents(m, VersionLess);
    SortContents(n, VersionLess);
    var x, y := Sort(m, VersionLess), Sort(n, VersionLess);
    assert |multiset(x)| == |x| && |multiset(y)| == |y|;
    if |x| == 1 {
      assert x[0] in multiset(y);
    }
  }

  // ---------------------------------------------------------------- the join of bindings and versions

  function CandidateOf(s: Store, b: Binding, version: Id): Candidate
    requires version < |s.versions| && b.contract < |s.contracts|
  {
    var v := s.versions[version];
    Candidate(version, v.state, v.body.effectiveStart, v.body.effectiveEnd, b.sourceType, b.sourceId,
              s.contracts[b.contract].state, Some(b.effectiveStart), b.effectiveEnd)
  }

  /** The rows of one binding joined with the first n versions, on contract. */
  function JoinBinding(s: Store, b: Binding, n: nat): seq<Candidate>
    requires n <= |s.versions| && b.contract < |s.contracts|
  {
    if n == 0 then []
    else JoinBinding(s, b, n - 1) + if s.versions[n - 1].contract == b.contract then [CandidateOf(s, b, n - 1)] else []
  }

  predicate BindingsBound(s: Store) {
    forall i :: 0 <= i < |s.bindings| ==> s.bindings[i].contract < |s.contracts|
  }

  /** The first n bindings joined with all versions. */
  function Join(s: Store, n: nat): seq<Candidate>
    requires n <= |s.bindings| && BindingsBound(s)
  {
    if n == 0 then [] else Join(s, n - 1) + JoinBinding(s, s.bindings[n - 1], |s.versions|)
  }

  /** The version is in force for the source and instant through this binding. */
  predicate InForce(s: Store, b: Binding, version: Id, sourceType: string, sourceId: string, at: int)
    requires version < |s.versions| && b.contract < |s.contracts|
  {
    && s.versions[version].contract == b.contract && b.sourceType == sourceType && b.sourceId == sourceId
    && s.contracts[b.contract].state == Active && Covers(b, at)
    && s.versions[version].state == ActiveVersion
    && s.versions[version].body.effectiveStart <= at
    && (s.versions[version].body.effectiveEnd.Some? ==> at < s.versions[version].body.effectiveEnd.value)
  }

  /** None of the first n versions is in force through this binding. */
  ghost predicate Unbound(s: Store, b: Binding, n: nat, sourceType: string, sourceId: string, at: int)
    requires n <= |s.versions| && b.contract < |s.contracts|
  {
    forall v: nat :: v < n ==> !InForce(s, b, v, sourceType, sourceId, at)
  }

  lemma BindingStep(s: Store, b: Binding, n: nat, sourceType: string, sourceId: string, at: int)
    requires 0 < n <= |s.versions| && b.contract < |s.contracts|
    ensures MatchesOf(JoinBinding(s, b, n), sourceType, sourceId, at)
      == MatchesOf(JoinBinding(s, b, n - 1), sourceType, sourceId, at)
         + if InForce(s, b, n - 1, sourceType, sourceId, at) then [CandidateOf(s, b, n - 1)] else []
  {
    var last := if s.versions[n - 1].contract == b.contract then [CandidateOf(s, b, n - 1)] else [];
    MatchesAppend(JoinBinding(s, b, n - 1), last, sourceType, sourceId, at);
    assert MatchesOf(last, sourceType, sourceId, at)
        == if InForce(s, b, n - 1, sourceType, sourceId, at) then [CandidateOf(s, b, n - 1)] else [] by {
      if last != [] { assert last[1..] == []; }
    }
  }

  /** A contract has at most one active version, so a binding contributes at most one match. */
  lemma {:induction false} BindingMatches(s: Store, b: Binding, n: nat, sourceType: string, sourceId: string, at: int)
    requires n <= |s.versions| && b.contract < |s.contracts| && ActiveCount(s.versions, b.contract) <= 1
    ensures OnlyBound(s, b, n, MatchesOf(JoinBinding(s, b, n), sourceType, sourceId, at), sourceType, sourceId, at)
    decreases n
  {
    if n > 0 {
      var before := MatchesOf(JoinBinding(s, b, n - 1), sourceType, sourceId, at);
      assert OnlyBound(s, b, n - 1, before, sourceType, sourceId, at) by { BindingMatches(s, b, n - 1, sourceType, sourceId, at); }
      OnlyBoundStep(s, b, n - 1, before, sourceType, sourceId, at);
      BindingStep(s, b, n, sourceType, sourceId, at);
    }
  }

  /** `m` is empty or the one version in force through the binding among the first n. */
  ghost predicate OnlyBound(s: Store, b: Binding, n: nat, m: seq<Candidate>, sourceType: string, sourceId: string, at: int)
    requires n <= |s.versions| && b.contract < |s.contracts|
  {
    && |m| <= 1
    && (m == [] <==> Unbound(s, b, n, sourceType, sourceId, at))
    && (m != [] ==> m[0].version < n && InForce(s, b, m[0].version, sourceType, sourceId, at))
  }

  lemma OnlyBoundStep(s: Store, b: Binding, n: nat, before: seq<Candidate>, sourceType: string, sourceId: string, at: int)
    requires n < |s.versions| && b.contract < |s.contracts| && ActiveCount(s.versions, b.contract) <= 1
    requires OnlyBound(s, b, n, before, sourceType, sourceId, at)
    ensures OnlyBound(s, b, n + 1, before + if InForce(s, b, n, sourceType, sourceId, at) then [CandidateOf(s, b, n)] else [],
                      sourceType, sourceId, at)
  {
    OneVersion(s, b, n, sourceType, sourceId, at);
    if InForce(s, b, n, sourceType, sourceId, at) {
      assert before == [] && before + [CandidateOf(s, b, n)] == [CandidateOf(s, b, n)];
    } else {
      assert before + [] == before;
    }
  }

  /** With at most one active version, if one version is in force, none before it is. */
  lemma OneVersion(s: Store, b: Binding, n: nat, sourceType: string, sourceId: string, at: int)
    requires n < |s.versions| && b.contract < |s.contracts| && ActiveCount(s.versions, b.contract) <= 1
    ensures !InForce(s, b, n, sourceType, sourceId, at) || Unbound(s, b, n, sourceType, sourceId, at)
  {
    if InForce(s, b, n, sourceType, sourceId, at) {
      forall v: nat | v < n ensures !InForce(s, b, v, sourceType, sourceId, at) {
        if s.versions[v].contract == b.contract && s.versions[v].state == ActiveVersion {
          ActiveCountOne(s.versions, b.contract, v, n);
        }
      }
    }
  }

  /** `m` is empty or the one version in force through one of the first n bindings. */
  ghost predicate OnlyMatch(s: Store, n: nat, m: seq<Candidate>, sourceType: string, sourceId: string, at: int)
    requires n <= |s.bindings| && BindingsBound(s)
  {
    && |m| <= 1
    && (m == [] <==> NoneInForce(s, n, sourceType, sourceId, at))
    && (m != [] ==> m[0].version < |s.versions|)
    && (m != [] ==> exists i: nat :: i < n && InForce(s, s.bindings[i], m[0].version, sourceType, sourceId, at))
  }

  ghost predicate NoneInForce(s: Store, n: nat, sourceType: string, sourceId: string, at: int)
    requires n <= |s.bindings| && BindingsBound(s)
  {
    forall i: nat :: i < n ==> Unbound(s, s.bindings[i], |s.versions|, sourceType, sourceId, at)
  }

  /** What binding n adds to the matches: the version in force through it, if no earlier binding has one. */
  ghost predicate Contributes(s: Store, n: nat, last: seq<Candidate>, sourceType: string, sourceId: string, at: int)
    requires n < |s.bindings| && BindingsBound(s)
  {
    && |last| <= 1
    && (last == [] <==> Unbound(s, s.bindings[n], |s.versions|, sourceType, sourceId, at))
    && (last != [] ==>
          last[0].version < |s.versions| && InForce(s, s.bindings[n], last[0].version, sourceType, sourceId, at))
    && (last == [] || NoneInForce(s, n, sourceType, sourceId, at))
  }

  lemma Contribution(s: Store, n: nat, sourceType: string, sourceId: string, at: int)
    requires n < |s.bindings| && BindingsBound(s) && BindingsLawful(s.contracts, s.bindings) && HeadsLawful(s.contracts, s.versions)
    ensures Contributes(s, n, MatchesOf(JoinBinding(s, s.bindings[n], |s.versions|), sourceType, sourceId, at), sourceType, sourceId, at)
  {
    var b := s.bindings[n];
    assert HeadLawful(s.contracts[b.contract].state, ActiveCount(s.versions, b.contract));
    BindingMatches(s, b, |s.versions|, sourceType, sourceId, at);
    OneBinding(s, n, sourceType, sourceId, at);
  }

  lemma JoinSplits(s: Store, n: nat, sourceType: string, sourceId: string, at: int)
    requires n < |s.bindings| && BindingsBound(s)
    ensures MatchesOf(Join(s, n + 1), sourceType, sourceId, at)
      == MatchesOf(Join(s, n), sourceType, sourceId, at)
         + MatchesOf(JoinBinding(s, s.bindings[n], |s.versions|), sourceType, sourceId, at)
  {
    MatchesAppend(Join(s, n), JoinBinding(s, s.bindings[n], |s.versions|), sourceType, sourceId, at);
  }

  /** Bindings of one source are disjoint, so at most one of them contributes. */
  lemma {:induction false} JoinMatches(s: Store, n: nat, sourceType: string, sourceId: string, at: int)
    requires n <= |s.bindings| && BindingsBound(s) && BindingsLawful(s.contracts, s.bindings) && HeadsLawful(s.contracts, s.versions)
    ensures OnlyMatch(s, n, MatchesOf(Join(s, n), sourceType, sourceId, at), sourceType, sourceId, at)
    decreases n
  {
    if n > 0 {
      var k := n - 1;
      var before := MatchesOf(Join(s, k), sourceType, sourceId, at);
      var last := MatchesOf(JoinBinding(s, s.bindings[k], |s.versions|), sourceType, sourceId, at);
      assert OnlyMatch(s, n, before + last, sourceType, sourceId, at) by {
        JoinMatches(s, k, sourceType, sourceId, at);
        Contribution(s, k, sourceType, sourceId, at);
        OnlyMatchStep(s, k, before, last, sourceType, sourceId, at);
      }
      JoinSplits(s, k, sourceType, sourceId, at);
    }
  }

  lemma OnlyMatchStep(
      s: Store, n: nat, before: seq<Candidate>, last: seq<Candidate>, sourceType: string, sourceId: string, at: int)
    requires n < |s.bindings| && BindingsBound(s)
    requires OnlyMatch(s, n, before, sourceType, sourceId, at) && Contributes(s, n, last, sourceType, sourceId, at)
    ensures OnlyMatch(s, n + 1, before + last, sourceType, sourceId, at)
  {
    assert before + last == if last == [] then before else last;
  }

  /** Bindings of one source never cover the same instant, so if one has a version in force, none before it does. */
  lemma OneBinding(s: Store, n: nat, sourceType: string, sourceId: string, at: int)
    requires n < |s.bindings| && BindingsBound(s) && BindingsLawful(s.contracts, s.bindings)
    ensures Unbound(s, s.bindings[n], |s.versions|, sourceType, sourceId, at)
      || NoneInForce(s, n, sourceType, sourceId, at)
  {
    var b := s.bindings[n];
    if b.sourceType == sourceType && b.sourceId == sourceId && Covers(b, at) {
      forall i: nat | i < n ensures Unbound(s, s.bindings[i], |s.versions|, sourceType, sourceId, at) {
        assert SameSource(s.bindings[i], b) ==> !Overlap(s.bindings[i], b);
      }
    }
  }

  predicate Covers(b: Binding, at: int) { b.effectiveStart <= at && (b.effectiveEnd.Some? ==> at < b.effectiveEnd.value) }

  /** In every reachable state the selection over the join is never ambiguous: it is the version in force
      for the source and instant, and there is none exactly when no version is in force. */
  lemma SelectionIsUnique(
      sha: string -> string, zones: set<string>, steps: seq<Step>, sourceType: string, sourceId: string, at: int)
    ensures var s := Run(sha, zones, EMPTY, steps);
      BindingsBound(s) &&
      match Select(Join(s, |s.bindings|), sourceType, sourceId, at)
      case Chosen(v) => v < |s.versions| && exists i: nat :: i < |s.bindings| && InForce(s, s.bindings[i], v, sourceType, sourceId, at)
      case NoEffectiveContract =>
        NoneInForce(s, |s.bindings|, sourceType, sourceId, at)
      case AmbiguousEffectiveContract => false
  {
    ReachableIsLawful(sha, zones, steps);
    var s := Run(sha, zones, EMPTY, steps);
    JoinMatches(s, |s.bindings|, sourceType, sourceId, at);
    SortContents(MatchesOf(Join(s, |s.bindings|), sourceType, sourceId, at), VersionLess);
  }

  /** Two versions in force for one source and instant are the same version. */
  lemma OnlyOneInForce(
      s: Store, i: nat, j: nat, v: nat, w: nat, sourceType: string, sourceId: string, at: int)
    requires BindingsLawful(s.contracts, s.bindings) && HeadsLawful(s.contracts, s.versions)
    requires i < |s.bindings| && j < |s.bindings| && v < |s.versions| && w < |s.versions|
    requires s.bindings[i].contract < |s.contracts| && s.bindings[j].contract < |s.contracts|
    requires InForce(s, s.bindings[i], v, sourceType, sourceId, at) && InForce(s, s.bindings[j], w, sourceType, sourceId, at)
    ensures i == j && v == w
  {
    if i < j { assert SameSource(s.bindings[i], s.bindings[j]) && Overlap(s.bindings[i], s.bindings[j]); }
    if j < i { assert SameSource(s.bindings[j], s.bindings[i]) && Overlap(s.bindings[j], s.bindings[i]); }
    var c := s.bindings[i].contract;
    assert HeadLawful(s.contracts[c].state, ActiveCount(s.versions, c));
    if i == j { ActiveCountOne(s.versions, c, v, w); }
  }
}
