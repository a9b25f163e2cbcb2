/** Signing secrets of an ingress endpoint: rotation windows, the resolver that reads the newest two
    usable versions, and the authentication of a signed request against them. Instants are microseconds
    since the epoch. */
module SigningSecrets {
  import opened Basics

  const MICROS := 1_000_000

  type Instant = nat
  type Byte = b: int | 0 <= b < 256
  type Bytes = seq<Byte>

  datatype Status = ActiveEndpoint | Disabled | Revoked

  /** A row of integration_secret_versions; version k is row k - 1. */
  datatype SecretVersion = SecretVersion(secret: Bytes, notBefore: Instant, expiresAt: Instant)

  datatype Policy = Policy(lifetime: nat, overlap: nat)

  /** What the settings check before the service starts. */
  predicate ValidPolicy(p: Policy) { p.lifetime >= 1 && p.overlap < p.lifetime }

  function Lifetime(p: Policy): nat { p.lifetime * MICROS }

  function Overlap(p: Policy): nat { p.overlap * MICROS }

  // ---------------------------------------------------------------- rotation

  function FirstVersion(p: Policy, now: Instant, secret: Bytes): SecretVersion {
    SecretVersion(secret, now, now + Lifetime(p))
  }

  /** Shorten the latest version to the end of the overlap, never lengthening it, and insert the next;
      None when CHECK (expires_at > not_before) aborts the transaction. */
  function Rotated(p: Policy, vs: seq<SecretVersion>, now: Instant, secret: Bytes): Option<seq<SecretVersion>>
    requires vs != []
  {
    var n := |vs|;
    var end := now + Overlap(p);
    var shortened := vs[n - 1].(expiresAt := if vs[n - 1].expiresAt < end then vs[n - 1].expiresAt else end);
    var next := SecretVersion(secret, now, now + Lifetime(p));
    if shortened.expiresAt <= shortened.notBefore || next.expiresAt <= next.notBefore then None
    else Some(vs[n - 1 := shortened] + [next])
  }

  datatype Rotation = Rotation(now: Instant, secret: Bytes)

  /** The rows after an endpoint is created and rotated; an aborted rotation changes nothing. */
  function History(p: Policy, created: Rotation, rotations: seq<Rotation>): (vs: seq<SecretVersion>)
    ensures vs != []
    decreases |rotations|
  {
    if rotations == [] then [FirstVersion(p, created.now, created.secret)]
    else
      var n := |rotations| - 1;
      var before := History(p, created, rotations[..n]);
      var after := Rotated(p, before, rotations[n].now, rotations[n].secret);
      if after.Some? then after.value else before
  }

  ghost predicate NonDecreasing(created: Rotation, rotations: seq<Rotation>) {
    && (forall i :: 0 <= i < |rotations| ==> created.now <= rotations[i].now)
    && (forall i, j :: 0 <= i < j < |rotations| ==> rotations[i].now <= rotations[j].now)
  }

  // ---------------------------------------------------------------- the windows

  /** A version lives its full lifetime, or until the overlap after the next version ends. */
  function Expiry(p: Policy, vs: seq<SecretVersion>, i: nat): int
    requires i < |vs|
  {
    var full := vs[i].notBefore + p.lifetime * 1_000_000;
    if i == |vs| - 1 then full else Min(full, vs[i + 1].notBefore + p.overlap * 1_000_000)
  }

  predicate WindowAt(p: Policy, vs: seq<SecretVersion>, i: nat)
    requires i < |vs|
  {
    vs[i].notBefore < vs[i].expiresAt && vs[i].expiresAt == Expiry(p, vs, i)
  }

  ghost predicate Windows(p: Policy, vs: seq<SecretVersion>) {
    vs != [] && forall i :: 0 <= i < |vs| ==> WindowAt(p, vs, i)
  }

  /** No version starts before an earlier one. */
  ghost predicate InOrder(vs: seq<SecretVersion>) {
    forall i, j :: 0 <= i < j < |vs| ==> vs[i].notBefore <= vs[j].notBefore
  }

  ghost predicate Steady(p: Policy, vs: seq<SecretVersion>) { Windows(p, vs) && InOrder(vs) }

  /** A rotation is refused exactly when its overlap ends no later than the latest version starts. Unless the
      clock went back, that is when there is no overlap and the clock has not moved since the last rotation. */
  lemma RotationRefused(p: Policy, vs: seq<SecretVersion>, now: Instant, secret: Bytes)
    requires ValidPolicy(p) && Windows(p, vs)
    ensures Rotated(p, vs, now, secret).None? <==> now + p.overlap * 1_000_000 <= vs[|vs| - 1].notBefore
    ensures vs[|vs| - 1].notBefore <= now ==>
      (Rotated(p, vs, now, secret).None? <==> p.overlap == 0 && now == vs[|vs| - 1].notBefore)
  {
    var last := |vs| - 1;
    assert WindowAt(p, vs, last);
    assert Overlap(p) == 0 <==> p.overlap == 0;
  }

  /** The previous window ends with the overlap if that is earlier, older rows stay, and the new secret starts now and
      lives its full lifetime. */
  predicate Extends(p: Policy, vs: seq<SecretVersion>, t: seq<SecretVersion>, now: Instant, secret: Bytes)
    requires vs != []
  {
    var n := |vs|;
    && |t| == n + 1 && (forall i :: 0 <= i < n - 1 ==> t[i] == vs[i])
    && t[n - 1].secret == vs[n - 1].secret && t[n - 1].notBefore == vs[n - 1].notBefore
    && t[n - 1].expiresAt == Min(vs[n - 1].expiresAt, now + p.overlap * 1_000_000)
    && t[n - 1].notBefore < t[n - 1].expiresAt
    && t[n] == SecretVersion(secret, now, now + p.lifetime * 1_000_000)
  }

  lemma ExtendedAt(p: Policy, vs: seq<SecretVersion>, t: seq<SecretVersion>, now: Instant, secret: Bytes, i: nat)
    requires ValidPolicy(p) && vs != [] && Extends(p, vs, t, now, secret) && i < |t|
    requires i < |vs| ==> WindowAt(p, vs, i)
    ensures WindowAt(p, t, i)
  {
    if i < |vs| - 1 {
      var k := i + 1;
      assert t[i] == vs[i] && t[k].notBefore == vs[k].notBefore;
    }
  }

  lemma ExtendedInOrder(p: Policy, vs: seq<SecretVersion>, t: seq<SecretVersion>, now: Instant, secret: Bytes)
    requires vs != [] && Extends(p, vs, t, now, secret) && InOrder(vs) && vs[|vs| - 1].notBefore <= now
    ensures InOrder(t)
  {
    var n := |vs|;
    forall i, j | 0 <= i < j < |t| ensures t[i].notBefore <= t[j].notBefore {
      assert t[i].notBefore == vs[i].notBefore <= vs[n - 1].notBefore;
      if j < n { assert t[j].notBefore == vs[j].notBefore; }
    }
  }

  lemma RotationKeepsWindows(p: Policy, vs: seq<SecretVersion>, now: Instant, secret: Bytes)
    requires ValidPolicy(p) && Windows(p, vs) && Rotated(p, vs, now, secret).Some?
    ensures var t := Rotated(p, vs, now, secret).value;
      && Windows(p, t) && Extends(p, vs, t, now, secret)
      && (InOrder(vs) && vs[|vs| - 1].notBefore <= now ==> InOrder(t))
  {
    var t := Rotated(p, vs, now, secret).value;
    assert Extends(p, vs, t, now, secret);
    forall i | 0 <= i < |t| ensures WindowAt(p, t, i) { ExtendedAt(p, vs, t, now, secret, i); }
    if InOrder(vs) && vs[|vs| - 1].notBefore <= now { ExtendedInOrder(p, vs, t, now, secret); }
  }

  /** After any rotations, whatever their clocks said, the windows are exactly these; with a clock that does
      not go back versions start in order, and none starts after the last rotation. */
  lemma {:induction false} HistoryWindows(p: Policy, created: Rotation, rotations: seq<Rotation>)
    requires ValidPolicy(p)
    ensures var vs := History(p, created, rotations);
      && Windows(p, vs)
      && (NonDecreasing(created, rotations) ==>
            && InOrder(vs)
            && vs[|vs| - 1].notBefore <= (if rotations == [] then created.now else rotations[|rotations| - 1].now))
    decreases |rotations|
  {
    if rotations != [] {
      var n := |rotations| - 1;
      HistoryWindows(p, created, rotations[..n]);
      var before := History(p, created, rotations[..n]);
      assert NonDecreasing(created, rotations) ==>
          NonDecreasing(created, rotations[..n]) && before[|before| - 1].notBefore <= rotations[n].now;
      if Rotated(p, before, rotations[n].now, rotations[n].secret).Some? {
        RotationKeepsWindows(p, before, rotations[n].now, rotations[n].secret);
      }
    }
  }

  /** Two neighbours expire in order exactly when the later one is the latest, or was rotated out by a clock
      that had not gone back, or late enough for the earlier one to have run out. */
  lemma NeighboursAscend(p: Policy, vs: seq<SecretVersion>, i: nat)
    requires ValidPolicy(p) && Windows(p, vs) && i + 1 < |vs|
    ensures vs[i].expiresAt <= vs[i + 1].expiresAt <==>
      || i + 2 == |vs|
      || vs[i + 1].notBefore <= vs[i + 2].notBefore
      || vs[i].notBefore + p.lifetime * 1_000_000 <= vs[i + 2].notBefore + p.overlap * 1_000_000
  {
    var k := i + 1;
    assert WindowAt(p, vs, i) && WindowAt(p, vs, k);
  }

  /** Later versions never expire earlier. */
  lemma {:induction false} ExpiriesAscend(p: Policy, vs: seq<SecretVersion>, i: nat, j: nat)
    requires ValidPolicy(p) && Steady(p, vs) && i <= j < |vs|
    ensures vs[i].expiresAt <= vs[j].expiresAt
    decreases j - i
  {
    if i < j {
      ExpiriesAscend(p, vs, i + 1, j);
      NeighboursAscend(p, vs, i);
    }
  }

  /** With clocks that disagree an older secret can outlive a newer one: created at 0, rotated by clocks at 4
      and then at 2, the first version is still usable at 8 and the second is not. */
  lemma ClockWentBack(a: Bytes, b: Bytes, c: Bytes)
    ensures var p := Policy(10, 5);
      var vs := History(p, Rotation(0, a), [Rotation(4_000_000, b), Rotation(2_000_000, c)]);
      && |vs| == 3 && Usable(vs[0], 8_000_000) && !Usable(vs[1], 8_000_000) && Usable(vs[2], 8_000_000)
  {
    var p, created := Policy(10, 5), Rotation(0, a);
    var rotations := [Rotation(4 * MICROS, b), Rotation(2 * MICROS, c)];
    assert rotations[..1] == [rotations[0]] && rotations[..1][..0] == [];
    assert History(p, created, rotations[..1][..0]) == [FirstVersion(p, 0, a)];
    var vs := History(p, created, rotations[..1]);
    assert vs == [SecretVersion(a, 0, 9 * MICROS), SecretVersion(b, 4 * MICROS, 14 * MICROS)];
  }

  predicate Usable(v: SecretVersion, at: Instant) { v.notBefore <= at < v.expiresAt }

  /** The usable versions are the newest ones. */
  lemma UsableIsSuffix(p: Policy, vs: seq<SecretVersion>, at: Instant, i: nat, j: nat)
    requires ValidPolicy(p) && Steady(p, vs) && vs[|vs| - 1].notBefore <= at
    requires i <= j < |vs| && Usable(vs[i], at)
    ensures Usable(vs[j], at)
  {
    ExpiriesAscend(p, vs, i, j);
    assert vs[j].notBefore <= vs[|vs| - 1].notBefore;
  }

  // ---------------------------------------------------------------- the resolver

  /** Usable rows among the first n, newest first, at most `limit`. */
  function Newest(vs: seq<SecretVersion>, at: Instant, n: nat, limit: nat): seq<nat>
    requires n <= |vs|
  {
    if n == 0 || limit == 0 then []
    else if Usable(vs[n - 1], at) then [n - 1] + Newest(vs, at, n - 1, limit - 1)
    else Newest(vs, at, n - 1, limit)
  }

  /** WHERE status = 'active' ... ORDER BY version DESC LIMIT 2. */
  function Resolve(status: Status, vs: seq<SecretVersion>, at: Instant): seq<nat> {
    if status == ActiveEndpoint then Newest(vs, at, |vs|, 2) else []
  }

  /** How many rows after row v, among the first n, are usable. */
  function UsableAbove(vs: seq<SecretVersion>, at: Instant, v: nat, n: nat): nat
    requires n <= |vs|
  {
    if n <= v + 1 then 0 else UsableAbove(vs, at, v, n - 1) + if Usable(vs[n - 1], at) then 1 else 0
  }

  lemma {:induction false} NewestExactly(vs: seq<SecretVersion>, at: Instant, n: nat, limit: nat, v: nat)
    requires n <= |vs|
    ensures v in Newest(vs, at, n, limit) <==> v < n && Usable(vs[v], at) && UsableAbove(vs, at, v, n) < limit
    decreases n
  {
    if n > 0 && limit > 0 {
      var rest := if Usable(vs[n - 1], at) then limit - 1 else limit;
      NewestExactly(vs, at, n - 1, rest, v);
    }
  }

  /** The resolver returns exactly the usable versions of an active endpoint that have fewer than two
      usable versions after them. */
  lemma ResolveExactly(status: Status, vs: seq<SecretVersion>, at: Instant, v: nat)
    ensures v in Resolve(status, vs, at) <==> status == ActiveEndpoint && NewestUsable(vs, at, v)
  {
    NewestExactly(vs, at, |vs|, 2, v);
  }

  predicate NewestUsable(vs: seq<SecretVersion>, at: Instant, v: nat) {
    v < |vs| && Usable(vs[v], at) && UsableAbove(vs, at, v, |vs|) < 2
  }

  /** They come newest first, each once. */
  lemma {:induction false} NewestDescend(vs: seq<SecretVersion>, at: Instant, n: nat, limit: nat)
    requires n <= |vs|
    ensures var rows := Newest(vs, at, n, limit);
      |rows| <= limit && (forall i :: 0 <= i < |rows| ==> rows[i] < n) && forall i, j :: 0 <= i < j < |rows| ==> rows[i] > rows[j]
    decreases n
  {
    if n > 0 && limit > 0 { NewestDescend(vs, at, n - 1, if Usable(vs[n - 1], at) then limit - 1 else limit); }
  }

  lemma {:induction false} AllAboveUsable(p: Policy, vs: seq<SecretVersion>, at: Instant, v: nat, n: nat)
    requires ValidPolicy(p) && Steady(p, vs) && vs[|vs| - 1].notBefore <= at
    requires v < n <= |vs| && Usable(vs[v], at)
    ensures UsableAbove(vs, at, v, n) == n - 1 - v
    decreases n
  {
    if v + 1 < n {
      UsableIsSuffix(p, vs, at, v, n - 1);
      AllAboveUsable(p, vs, at, v, n - 1);
    }
  }

  /** After rotations those are the usable ones among the two newest versions of all. */
  lemma ResolvesNewestTwo(p: Policy, status: Status, vs: seq<SecretVersion>, at: Instant, v: nat)
    requires ValidPolicy(p) && Steady(p, vs) && vs[|vs| - 1].notBefore <= at
    ensures v in Resolve(status, vs, at) <==> status == ActiveEndpoint && |vs| - 2 <= v < |vs| && Usable(vs[v], at)
  {
    ResolveExactly(status, vs, at, v);
    if v < |vs| && Usable(vs[v], at) { AllAboveUsable(p, vs, at, v, |vs|); }
  }

  /** The newest secret is resolved for its whole lifetime; the one before it until the overlap after its
      successor, or its own lifetime, ends; no older one is resolved at all. */
  lemma SecretLifetimes(p: Policy, vs: seq<SecretVersion>, at: Instant, v: nat)
    requires ValidPolicy(p) && Steady(p, vs) && vs[|vs| - 1].notBefore <= at && v < |vs|
    ensures v == |vs| - 1 ==> (v in Resolve(ActiveEndpoint, vs, at) <==> at < vs[v].notBefore + p.lifetime * 1_000_000)
    ensures v == |vs| - 2 ==>
      (v in Resolve(ActiveEndpoint, vs, at) <==>
       at < vs[v].notBefore + p.lifetime * 1_000_000 && at < vs[|vs| - 1].notBefore + p.overlap * 1_000_000)
    ensures v < |vs| - 2 ==> v !in Resolve(ActiveEndpoint, vs, at)
  {
    ResolvesNewestTwo(p, ActiveEndpoint, vs, at, v);
    assert WindowAt(p, vs, v);
    assert vs[v].notBefore <= vs[|vs| - 1].notBefore;
  }

  // ---------------------------------------------------------------- the endpoint

  /** One endpoint and its secret rows, as the management API changes them. */
  class Endpoint {
    const policy: Policy
    var status: Status
    var versions: seq<SecretVersion>

    ghost predicate Valid()
      reads this
    {
      ValidPolicy(policy) && Windows(policy, versions)
    }

    constructor (policy: Policy, now: Instant, secret: Bytes)
      requires ValidPolicy(policy)
      ensures Valid() && this.policy == policy && status == ActiveEndpoint
      ensures versions == [SecretVersion(secret, now, now + policy.lifetime * 1_000_000)]
    {
      this.policy := policy;
      status := ActiveEndpoint;
      versions := [SecretVersion(secret, now, now + Lifetime(policy))];
    }

    /** Lock the latest version, shorten it, insert the next; the answer is the new version number. Any
        endpoint of the tenant may be rotated, whatever its status and whatever the clock says. */
    method Rotate(now: Instant, secret: Bytes) returns (version: Option<nat>)
      requires Valid()
      modifies `versions
      ensures Valid()
      ensures version.None? <==> now + policy.overlap * 1_000_000 <= old(versions)[|old(versions)| - 1].notBefore
      ensures version.None? ==> versions == old(versions)
      ensures version.Some? ==>
        && version.value == |versions| == |old(versions)| + 1
        && Rotated(policy, old(versions), now, secret) == Some(versions) && Extends(policy, old(versions), versions, now, secret)
      ensures InOrder(old(versions)) && old(versions)[|old(versions)| - 1].notBefore <= now ==> InOrder(versions)
    {
      RotationRefused(policy, versions, now, secret);
      var latest := |versions| - 1;
      var row := versions[latest];
      var notBefore, expiresAt, overlapEnd := now, now + Lifetime(policy), now + Overlap(policy);
      var saved := versions;
      versions := versions[latest := row.(expiresAt := if row.expiresAt < overlapEnd then row.expiresAt else overlapEnd)];
      if versions[latest].expiresAt <= versions[latest].notBefore || expiresAt <= notBefore {
        versions := saved;
        return None;
      }
      versions := versions + [SecretVersion(secret, notBefore, expiresAt)];
      RotationKeepsWindows(policy, saved, now, secret);
      return Some(latest + 2);
    }

    /** Only an active endpoint can be disabled or revoked, and neither is ever undone. */
    method Disable(revoked: bool) returns (found: bool)
      modifies `status
      ensures found == (old(status) == ActiveEndpoint)
      ensures status == if !found then old(status) else if revoked then Revoked else Disabled
    {
      found := status == ActiveEndpoint;
      if found { status := if revoked then Revoked else Disabled; }
    }

    /** The secrets the resolver hands to authentication, newest first. */
    method ResolveSecrets(at: Instant) returns (secrets: seq<Bytes>)
      ensures forall k :: k in secrets <==> Accepts(status, versions, at, k)
      ensures |secrets| <= 2
    {
      secrets := SecretsOf(versions, Resolve(status, versions, at));
      NewestDescend(versions, at, |versions|, 2);
      ResolvedSecrets(status, versions, at);
    }
  }

  /** The secrets of the resolved rows, in their order. */
  function SecretsOf(vs: seq<SecretVersion>, rows: seq<nat>): (secrets: seq<Bytes>)
    ensures forall v :: v in rows && v < |vs| ==> vs[v].secret in secrets
    ensures forall k :: k in secrets ==> exists v: nat :: v in rows && v < |vs| && vs[v].secret == k
    ensures |secrets| <= |rows|
  {
    if rows == [] then []
    else (if rows[0] < |vs| then [vs[rows[0]].secret] else []) + SecretsOf(vs, rows[1..])
  }

  /** The endpoint is active and the secret is usable, with fewer than two usable ones after it. */
  ghost predicate Accepts(status: Status, vs: seq<SecretVersion>, at: Instant, secret: Bytes) {
    status == ActiveEndpoint && exists v: nat :: NewestUsable(vs, at, v) && vs[v].secret == secret
  }

  lemma ResolvedSecrets(status: Status, vs: seq<SecretVersion>, at: Instant)
    ensures forall k :: k in SecretsOf(vs, Resolve(status, vs, at)) <==> Accepts(status, vs, at, k)
  {
    var rows := Resolve(status, vs, at);
    var secrets := SecretsOf(vs, rows);
    forall k ensures k in secrets <==> Accepts(status, vs, at, k) {
      if k in secrets {
        var v: nat :| v in rows && v < |vs| && vs[v].secret == k;
        ResolveExactly(status, vs, at, v);
      }
      if Accepts(status, vs, at, k) {
        var v: nat :| NewestUsable(vs, at, v) && vs[v].secret == k;
        ResolveExactly(status, vs, at, v);
      }
    }
  }
}
