/** Webhook authentication: the timestamp and signature headers, the message authentication code over
    them, and the fold over the resolved secrets. `mac` is the keyed digest, 32 bytes long. */
module Signatures {
  import opened Basics
  import opened SigningSecrets
  import J = CanonicalJson

  type Mac = (Bytes, Bytes) -> Bytes

  // ---------------------------------------------------------------- the timestamp header

  const ZERO := 48

  predicate IsDigit(b: Byte) { ZERO <= b <= ZERO + 9 }

  function Value(digits: Bytes): nat
    requires forall i :: 0 <= i < |digits| ==> IsDigit(digits[i])
  {
    if digits == [] then 0
    else
      var n := |digits| - 1;
      assert IsDigit(digits[n]);
      10 * Value(digits[..n]) + (digits[n] - ZERO)
  }

  /** 0|[1-9][0-9]{0,12}, as a full match. */
  function ParseTimestamp(header: Bytes): Option<nat> {
    if !(forall i :: 0 <= i < |header| ==> IsDigit(header[i])) then None
    else if header == [ZERO] || (1 <= |header| <= 13 && header[0] != ZERO) then Some(Value(header))
    else None
  }

  /** The decimal digits of a number. */
  function Decimal(n: nat): (digits: Bytes)
    ensures forall i :: 0 <= i < |digits| ==> IsDigit(digits[i])
  {
    if n < 10 then [ZERO + n] else Decimal(n / 10) + [ZERO + n % 10]
  }

  function Power(n: nat): nat { if n == 0 then 1 else 10 * Power(n - 1) }

  lemma {:induction false} ValueOfDecimal(n: nat)
    ensures Value(Decimal(n)) == n
    ensures Decimal(n) != [] && (Decimal(n)[0] == ZERO ==> n == 0)
    decreases n
  {
    if n >= 10 {
      ValueOfDecimal(n / 10);
      assert Decimal(n)[..|Decimal(n)| - 1] == Decimal(n / 10);
    } else {
      assert Decimal(n)[..0] == [];
    }
  }

  lemma {:induction false} DecimalOfValue(digits: Bytes)
    requires digits != [] && forall i :: 0 <= i < |digits| ==> IsDigit(digits[i])
    requires digits[0] != ZERO || |digits| == 1
    ensures Decimal(Value(digits)) == digits
    ensures digits[0] != ZERO ==> Power(|digits| - 1) <= Value(digits)
    ensures Value(digits) < Power(|digits|)
    decreases |digits|
  {
    var n := |digits| - 1;
    var last := digits[n] - ZERO;
    if n == 0 {
      assert digits[..0] == [];
      assert Value(digits) == last && digits == [ZERO + last];
    } else {
      DecimalOfValue(digits[..n]);
      assert Power(n - 1) >= 1 by { PowerPositive(n - 1); }
      var high := Value(digits[..n]);
      assert Value(digits) == 10 * high + last && Value(digits) / 10 == high && Value(digits) % 10 == last;
      assert digits == digits[..n] + [digits[n]];
    }
  }

  lemma {:induction false} PowerPositive(n: nat)
    ensures Power(n) >= 1
  {
    if n > 0 { PowerPositive(n - 1); }
  }

  lemma {:induction false} PowerGrows(m: nat, n: nat)
    requires m <= n
    ensures Power(m) <= Power(n)
    decreases n
  {
    if m < n { PowerGrows(m, n - 1); PowerPositive(n - 1); }
  }

  /** A timestamp has exactly one accepted spelling: its decimal digits, at most thirteen of them. */
  lemma TimestampExactly(header: Bytes, n: nat)
    ensures ParseTimestamp(header) == Some(n) <==> header == Decimal(n) && n < Power(13)
  {
    ValueOfDecimal(n);
    if header == Decimal(n) && n < Power(13) {
      if |header| > 13 {
        DecimalOfValue(header);
        PowerGrows(13, |header| - 1);
        assert false;
      }
      assert header[0] == ZERO ==> header == [ZERO];
    }
    if ParseTimestamp(header) == Some(n) {
      DecimalOfValue(header);
      PowerGrows(|header|, 13);
    }
  }

  // ---------------------------------------------------------------- the signature header

  predicate IsHex(c: char) { '0' <= c <= '9' || 'a' <= c <= 'f' }

  function HexValue(c: char): nat
    requires IsHex(c)
    ensures HexValue(c) < 16
  {
    if c <= '9' then c as int - '0' as int else c as int - 'a' as int + 10
  }

  lemma HexRoundTrip(c: char, d: nat)
    ensures IsHex(c) ==> J.HexDigit(HexValue(c)) == c
    ensures d < 16 ==> IsHex(J.HexDigit(d)) && HexValue(J.HexDigit(d)) == d
  {
  }

  /** bytes.hex(): two lower-case digits a byte. */
  function Hex(bytes: Bytes): (s: string)
    ensures |s| == 2 * |bytes|
  {
    if bytes == [] then "" else [J.HexDigit(bytes[0] / 16), J.HexDigit(bytes[0] % 16)] + Hex(bytes[1..])
  }

  function FromHex(s: string): (bytes: Bytes)
    requires |s| % 2 == 0 && forall i :: 0 <= i < |s| ==> IsHex(s[i])
    ensures 2 * |bytes| == |s|
  {
    if s == [] then [] else [16 * HexValue(s[0]) + HexValue(s[1])] + FromHex(s[2..])
  }

  lemma {:induction false} HexDigits(bytes: Bytes)
    ensures forall i :: 0 <= i < |Hex(bytes)| ==> IsHex(Hex(bytes)[i])
    decreases |bytes|
  {
    if bytes != [] {
      HexDigits(bytes[1..]);
      HexRoundTrip('0', bytes[0] / 16);
      HexRoundTrip('0', bytes[0] % 16);
      assert forall i :: 2 <= i < |Hex(bytes)| ==> Hex(bytes)[i] == Hex(bytes[1..])[i - 2];
    }
  }

  lemma {:induction false} HexOfBytes(bytes: Bytes)
    ensures (forall i :: 0 <= i < |Hex(bytes)| ==> IsHex(Hex(bytes)[i])) && FromHex(Hex(bytes)) == bytes
    decreases |bytes|
  {
    HexDigits(bytes);
    if bytes != [] {
      var s := Hex(bytes);
      HexOfBytes(bytes[1..]);
      assert s[2..] == Hex(bytes[1..]);
      assert 16 * HexValue(s[0]) + HexValue(s[1]) == bytes[0] by {
        HexRoundTrip('0', bytes[0] / 16);
        HexRoundTrip('0', bytes[0] % 16);
      }
      assert FromHex(s) == [bytes[0]] + bytes[1..];
    }
  }

  lemma DivideBack(high: nat, low: nat)
    requires low < 16
    ensures (16 * high + low) / 16 == high && (16 * high + low) % 16 == low
  {
  }

  lemma {:induction false} BytesOfHex(s: string)
    requires |s| % 2 == 0 && forall i :: 0 <= i < |s| ==> IsHex(s[i])
    ensures Hex(FromHex(s)) == s
    decreases |s|
  {
    if s != [] {
      BytesOfHex(s[2..]);
      HexRoundTrip(s[0], 0);
      HexRoundTrip(s[1], 0);
      var bytes := FromHex(s);
      DivideBack(HexValue(s[0]), HexValue(s[1]));
      assert bytes[0] / 16 == HexValue(s[0]) && bytes[0] % 16 == HexValue(s[1]) && bytes[1..] == FromHex(s[2..]);
      assert s == [s[0], s[1]] + s[2..];
    }
  }

  /** Exactly one header v1= and 64 lower-case hexadecimal digits. */
  function ParseSignature(values: seq<string>): Option<Bytes> {
    if |values| != 1 then None
    else
      var v := values[0];
      if |v| == 67 && v[..3] == "v1=" && forall i :: 3 <= i < 67 ==> IsHex(v[i]) then Some(FromHex(v[3..])) else None
  }

  /** The message is timestamp.body. */
  function Message(header: Bytes, body: Bytes): Bytes { header + [46] + body }

  function Sign(mac: Mac, secret: Bytes, header: Bytes, body: Bytes): string { Hex(mac(secret, Message(header, body))) }

  /** The header a digest is accepted in is the one `sign` gives, and no other. */
  lemma SignatureExactly(values: seq<string>, digest: Bytes)
    requires |digest| == 32
    ensures ParseSignature(values) == Some(digest) <==> values == ["v1=" + Hex(digest)]
  {
    HexOfBytes(digest);
    var text := "v1=" + Hex(digest);
    assert text[3..] == Hex(digest) && text[..3] == "v1=";
    assert forall i :: 3 <= i < 67 ==> text[i] == Hex(digest)[i - 3];
    if ParseSignature(values) == Some(digest) {
      var v := values[0];
      assert forall i :: 0 <= i < 64 ==> v[3..][i] == v[i + 3];
      BytesOfHex(v[3..]);
      assert v == v[..3] + v[3..];
      assert values == [v];
    }
  }

  // ---------------------------------------------------------------- authentication

  function Distance(a: int, b: int): int { if a < b then b - a else a - b }

  /** Some resolved secret produced the digest. */
  predicate AnyMatches(mac: Mac, secrets: seq<Bytes>, message: Bytes, supplied: Bytes) {
    exists i :: 0 <= i < |secrets| && mac(secrets[i], message) == supplied
  }

  /** The timestamp header is the decimal text of a number below 10^13, no further than the window, in seconds,
      from the clock in microseconds. */
  ghost predicate Timely(header: Bytes, window: nat, now: Instant) {
    exists t: nat :: header == Decimal(t) && t < 10_000_000_000_000 && t <= now / 1_000_000 + window && now / 1_000_000 <= t + window
  }

  /** The one signature header is v1= and the hexadecimal code of timestamp, dot and body under this secret. */
  ghost predicate SignedWith(mac: Mac, secret: Bytes, header: Bytes, values: seq<string>, body: Bytes) {
    values == ["v1=" + Hex(mac(secret, header + [46] + body))]
  }

  /** The accepted header is the one `sign` gives for this timestamp and body. */
  lemma SignExactly(mac: Mac, secret: Bytes, header: Bytes, values: seq<string>, body: Bytes)
    requires |mac(secret, Message(header, body))| == 32
    ensures SignedWith(mac, secret, header, values, body) <==> values == ["v1=" + Sign(mac, secret, header, body)]
    ensures SignedWith(mac, secret, header, values, body) <==> ParseSignature(values) == Some(mac(secret, Message(header, body)))
  {
    SignatureExactly(values, mac(secret, Message(header, body)));
  }

  lemma TimelyExactly(header: Bytes, window: nat, now: Instant)
    ensures Timely(header, window, now) <==>
      ParseTimestamp(header).Some? && Distance(now / MICROS, ParseTimestamp(header).value) <= window
  {
    TenToThirteen();
    if ParseTimestamp(header).Some? { TimestampExactly(header, ParseTimestamp(header).value); }
    if Timely(header, window, now) {
      var t: nat :| header == Decimal(t) && t < 10_000_000_000_000 && t <= now / 1_000_000 + window && now / 1_000_000 <= t + window;
      TimestampExactly(header, t);
    }
  }

  lemma TenToThirteen()
    ensures Power(13) == 10_000_000_000_000
  {
    assert Power(4) == 10_000;
    assert Power(8) == 100_000_000;
    assert Power(12) == 1_000_000_000_000;
  }

  /** The digits of a decimal text: the bytes 48 to 57. */
  lemma DecimalBytes(n: nat)
    ensures forall i :: 0 <= i < |Decimal(n)| ==> 48 <= Decimal(n)[i] <= 57
  {
  }

  /** Every usable secret is tried; whether one matched is known only at the end. */
  method Authenticate(mac: Mac, secrets: seq<Bytes>, header: Bytes, values: seq<string>, body: Bytes, window: nat, now: Instant)
      returns (ok: bool)
    requires forall k, m :: |mac(k, m)| == 32
    ensures ok <==> Timely(header, window, now) && exists i :: 0 <= i < |secrets| && SignedWith(mac, secrets[i], header, values, body)
  {
    TimelyExactly(header, window, now);
    var timestamp := ParseTimestamp(header);
    if timestamp.None? { return false; }
    var checkedAt := now / MICROS;
    if Distance(checkedAt, timestamp.value) > window { return false; }
    var supplied := ParseSignature(values);
    forall i: nat | i < |secrets|
      ensures supplied == Some(mac(secrets[i], Message(header, body))) <==> SignedWith(mac, secrets[i], header, values, body)
    {
      SignExactly(mac, secrets[i], header, values, body);
    }
    if supplied.None? { return false; }
    var matched := false;
    for i := 0 to |secrets|
      invariant matched == AnyMatches(mac, secrets[..i], Message(header, body), supplied.value)
    {
      var expected := mac(secrets[i], Message(header, body));
      ghost var was := secrets[..i];
      assert secrets[..i + 1] == was + [secrets[i]];
      matched := expected == supplied.value || matched;
    }
    assert secrets[..|secrets|] == secrets;
    return matched;
  }

  /** The delivery is accepted by this secret: it is resolved for the endpoint at the database's clock, it signed the
      delivery, and the timestamp is within the replay window by the server's clock. */
  ghost predicate AcceptedWith(
      mac: Mac, secret: Bytes, status: Status, vs: seq<SecretVersion>, resolvedAt: Instant,
      header: Bytes, values: seq<string>, body: Bytes, window: nat, now: Instant)
  {
    Accepts(status, vs, resolvedAt, secret) && Timely(header, window, now) && SignedWith(mac, secret, header, values, body)
  }

  /** From the signed request to the verdict: accepted exactly when the endpoint is active, the timestamp is
      within the replay window, and the one signature header is what one of the two newest usable secrets
      signs. The resolver reads the database clock, authentication the server's. */
  method Receive(mac: Mac, endpoint: Endpoint, resolvedAt: Instant, header: Bytes, values: seq<string>, body: Bytes, window: nat, now: Instant)
      returns (ok: bool)
    requires forall k, m :: |mac(k, m)| == 32
    ensures ok <==> exists k ::
      AcceptedWith(mac, k, endpoint.status, endpoint.versions, resolvedAt, header, values, body, window, now)
  {
    var secrets := endpoint.ResolveSecrets(resolvedAt);
    if secrets == [] {
      assert forall k :: k !in secrets;
      return false;
    }
    ok := Authenticate(mac, secrets, header, values, body, window, now);
    if ok {
      ghost var i :| 0 <= i < |secrets| && SignedWith(mac, secrets[i], header, values, body);
      assert secrets[i] in secrets;
      assert AcceptedWith(mac, secrets[i], endpoint.status, endpoint.versions, resolvedAt, header, values, body, window, now);
    } else {
      forall k ensures !AcceptedWith(mac, k, endpoint.status, endpoint.versions, resolvedAt, header, values, body, window, now) {
        if k in secrets {
          ghost var i :| 0 <= i < |secrets| && secrets[i] == k;
        }
      }
    }
  }

  // ---------------------------------------------------------------- what a signature binds

  lemma {:induction false} DotSplits(x: Bytes, y: Bytes, a: Bytes, b: Bytes)
    requires forall i :: 0 <= i < |x| ==> x[i] != 46
    requires forall i :: 0 <= i < |y| ==> y[i] != 46
    requires x + [46] + a == y + [46] + b
    ensures x == y && a == b
    decreases |x|
  {
    assert (x + [46] + a)[0] == (y + [46] + b)[0];
    if x == [] {
      assert y == [];
      assert a == (x + [46] + a)[1..] && b == (y + [46] + b)[1..];
    } else {
      assert y != [];
      assert x[1..] + [46] + a == (x + [46] + a)[1..] && y[1..] + [46] + b == (y + [46] + b)[1..];
      DotSplits(x[1..], y[1..], a, b);
      assert x == [x[0]] + x[1..] && y == [y[0]] + y[1..];
    }
  }

  lemma HexInjective(a: Bytes, b: Bytes)
    requires "v1=" + Hex(a) == "v1=" + Hex(b)
    ensures a == b
  {
    assert Hex(a) == ("v1=" + Hex(a))[3..] && Hex(b) == ("v1=" + Hex(b))[3..];
    HexOfBytes(a);
    HexOfBytes(b);
  }

  /** Two distinct texts with one code under the secret. */
  ghost predicate MacCollides(mac: Mac, secret: Bytes, x: Bytes, y: Bytes) { x != y && mac(secret, x) == mac(secret, y) }

  /** A signature binds timestamp and body: if one secret and one signature header are accepted with two deliveries,
      their timestamps and bodies are the same, or the two signed texts collide under the code. */
  lemma SignatureBinds(
      mac: Mac, secret: Bytes, values: seq<string>, window: nat,
      status: Status, vs: seq<SecretVersion>, resolvedAt: Instant, header: Bytes, a: Bytes, now: Instant,
      status': Status, vs': seq<SecretVersion>, resolvedAt': Instant, header': Bytes, b: Bytes, now': Instant)
      returns (t: nat, u: nat)
    requires AcceptedWith(mac, secret, status, vs, resolvedAt, header, values, a, window, now)
    requires AcceptedWith(mac, secret, status', vs', resolvedAt', header', values, b, window, now')
    ensures header == Decimal(t) && header' == Decimal(u)
    ensures (t == u && a == b) || MacCollides(mac, secret, Decimal(t) + [46] + a, Decimal(u) + [46] + b)
  {
    t :| header == Decimal(t);
    u :| header' == Decimal(u);
    var x, y := mac(secret, header + [46] + a), mac(secret, header' + [46] + b);
    assert ["v1=" + Hex(x)][0] == ["v1=" + Hex(y)][0];
    HexInjective(x, y);
    if header + [46] + a == header' + [46] + b {
      DecimalBytes(t);
      DecimalBytes(u);
      DotSplits(header, header', a, b);
      ValueOfDecimal(t);
      ValueOfDecimal(u);
    }
  }
}
