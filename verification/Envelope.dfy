/** The canonical event envelope: how ingestion seals it with a digest, how jsonb gives it back, and the
    check the event handler makes. */
module Envelope {
  import opened Basics
  import J = CanonicalJson

  /** Keys that do not enter the digest. */
  const VOLATILE := {"event_id", "received_at", "payload_digest", "raw_object_key"}

  function Strip(fields: seq<J.Field>): seq<J.Field> {
    if fields == [] then []
    else (if fields[0].key in VOLATILE then [] else [fields[0]]) + Strip(fields[1..])
  }

  function Get(fields: seq<J.Field>, key: string): Option<J.Value> {
    if fields == [] then None else if fields[0].key == key then Some(fields[0].value) else Get(fields[1..], key)
  }

  /** d[key] = value for a key already present: the place in the order stays. */
  function Put(fields: seq<J.Field>, key: string, value: J.Value): seq<J.Field> {
    if fields == [] then []
    else [if fields[0].key == key then J.Field(key, value) else fields[0]] + Put(fields[1..], key, value)
  }

  function EnvelopeDigest(sha: string -> string, fields: seq<J.Field>): string {
    sha(J.CanonicalDocument(J.Dict(Strip(fields))))
  }

  // ---------------------------------------------------------------- events

  /** A provider event after validation; `consent`, `money` and the rest are JSON values. */
  datatype Incoming = Incoming(
    providerEventId: string, eventType: string, occurredAt: string, subjectType: string, subjectId: string,
    references: J.Value, attribution: J.Value, money: J.Value, consent: J.Value, payload: J.Value)

  /** Where an event comes from: what its producer adds to the incoming data. */
  datatype Origin = Origin(
    eventId: string, tenantId: string, provider: string, sourceType: string, receivedAt: string, rawPayloadDigest: Option<string>)

  const NO_DIGEST := "0000000000000000000000000000000000000000000000000000000000000000"

  function TextOrNull(t: Option<string>): J.Value { if t.None? then J.Null else J.Str(t.value) }

  /** CanonicalEvent(...).model_dump(mode="json"), before sealing. */
  function CanonicalFields(o: Origin, e: Incoming): seq<J.Field> {
    [J.Field("event_id", J.Str(o.eventId)), J.Field("tenant_id", J.Str(o.tenantId)),
     J.Field("provider", J.Str(o.provider)), J.Field("source_type", J.Str(o.sourceType)),
     J.Field("provider_event_id", J.Str(e.providerEventId)), J.Field("payload_digest", J.Str(NO_DIGEST)),
     J.Field("event_type", J.Str(e.eventType)), J.Field("schema_version", J.Int(1)),
     J.Field("occurred_at", J.Str(e.occurredAt)), J.Field("received_at", J.Str(o.receivedAt)),
     J.Field("subject_type", J.Str(e.subjectType)), J.Field("subject_id", J.Str(e.subjectId)),
     J.Field("references", e.references), J.Field("attribution", e.attribution),
     J.Field("money", e.money), J.Field("consent", e.consent), J.Field("payload", e.payload),
     J.Field("raw_object_key", J.Null), J.Field("raw_payload_digest", TextOrNull(o.rawPayloadDigest)),
     J.Field("processing_status", J.Str("received")), J.Field("error_code", J.Null)]
  }

  /** The digest first, then the object key, as `receive` sets them; a CSV row has no object. */
  function Sealed(sha: string -> string, o: Origin, e: Incoming, objectKey: Option<string>): seq<J.Field> {
    var fields := CanonicalFields(o, e);
    var withDigest := Put(fields, "payload_digest", J.Str(EnvelopeDigest(sha, fields)));
    if objectKey.None? then withDigest else Put(withDigest, "raw_object_key", J.Str(objectKey.value))
  }

  // ---------------------------------------------------------------- the handler's check

  datatype Verdict = Passes | EnvelopeInvalid | DigestInvalid

  /** `canonical_event_handler` on the payload and digest columns of the event. */
  function CheckEvent(sha: string -> string, payload: J.Value, digest: string): Verdict {
    if !payload.Dict? then EnvelopeInvalid
    else
      var actual := EnvelopeDigest(sha, payload.fields);
      if Get(payload.fields, "payload_digest") != Some(J.Str(actual)) || digest != actual then DigestInvalid else Passes
  }

  /** What jsonb may give back for a stored object: the same members in any order, keys never repeated. */
  ghost predicate Reread(stored: seq<J.Field>, read: J.Value) {
    read.Dict? && J.DistinctKeys(read.fields) && J.Canon(read) == J.Canon(J.Dict(stored))
  }

  // ---------------------------------------------------------------- proofs

  lemma {:induction false} PutKeepsKeys(fields: seq<J.Field>, key: string, value: J.Value)
    ensures |Put(fields, key, value)| == |fields|
    ensures forall i :: 0 <= i < |fields| ==>
      Put(fields, key, value)[i] == if fields[i].key == key then J.Field(key, value) else fields[i]
    decreases |fields|
  {
    if fields != [] { PutKeepsKeys(fields[1..], key, value); }
  }

  lemma {:induction false} PutVolatile(fields: seq<J.Field>, key: string, value: J.Value)
    requires key in VOLATILE
    ensures Strip(Put(fields, key, value)) == Strip(fields)
    decreases |fields|
  {
    if fields != [] {
      PutVolatile(fields[1..], key, value);
      assert Put(fields, key, value)[1..] == Put(fields[1..], key, value);
    }
  }

  lemma {:induction false} GetPut(fields: seq<J.Field>, key: string, value: J.Value, other: string)
    requires exists i :: 0 <= i < |fields| && fields[i].key == key
    ensures Get(Put(fields, key, value), other) == if other == key then Some(value) else Get(fields, other)
    decreases |fields|
  {
    assert Put(fields, key, value)[1..] == Put(fields[1..], key, value);
    if fields[0].key != key {
      var i :| 0 <= i < |fields| && fields[i].key == key;
      assert fields[1..][i - 1].key == key;
      GetPut(fields[1..], key, value, other);
    } else if other != key {
      PutElsewhere(fields[1..], key, value, other);
    }
  }

  lemma {:induction false} PutElsewhere(fields: seq<J.Field>, key: string, value: J.Value, other: string)
    requires other != key
    ensures Get(Put(fields, key, value), other) == Get(fields, other)
    decreases |fields|
  {
    if fields != [] {
      PutElsewhere(fields[1..], key, value, other);
      assert Put(fields, key, value)[1..] == Put(fields[1..], key, value);
    }
  }

  /** The keys that enter the digest. */
  predicate Digested(key: string) {
    key != "event_id" && key != "received_at" && key != "payload_digest" && key != "raw_object_key"
  }

  lemma {:induction false} StripMembers(fields: seq<J.Field>, m: J.Member)
    ensures m in J.CanonFields(Strip(fields)) <==> m in J.CanonFields(fields) && Digested(m.key)
    decreases |fields|
  {
    if fields != [] {
      StripMembers(fields[1..], m);
      var first := J.Member(fields[0].key, J.Canon(fields[0].value));
      assert J.CanonFields(fields) == [first] + J.CanonFields(fields[1..]);
      if fields[0].key !in VOLATILE {
        assert Strip(fields)[1..] == Strip(fields[1..]);
        assert J.CanonFields(Strip(fields)) == [first] + J.CanonFields(Strip(fields[1..]));
      } else {
        assert Strip(fields) == Strip(fields[1..]);
      }
      assert m in J.CanonFields(fields) <==> m == first || m in J.CanonFields(fields[1..]);
    }
  }

  lemma {:induction false} StripKeys(fields: seq<J.Field>, i: nat) returns (k: nat)
    requires i < |Strip(fields)|
    ensures k < |fields| && fields[k] == Strip(fields)[i]
    decreases |fields|
  {
    if fields[0].key in VOLATILE {
      var r := StripKeys(fields[1..], i);
      k := r + 1;
    } else if i == 0 {
      k := 0;
    } else {
      var r := StripKeys(fields[1..], i - 1);
      k := r + 1;
    }
  }

  lemma {:induction false} StripDistinct(fields: seq<J.Field>)
    requires J.DistinctKeys(fields)
    ensures J.DistinctKeys(Strip(fields))
    decreases |fields|
  {
    if fields != [] {
      StripDistinct(fields[1..]);
      if fields[0].key !in VOLATILE {
        forall i, j | 0 <= i < j < |Strip(fields)| ensures Strip(fields)[i].key != Strip(fields)[j].key {
          if i == 0 {
            var k := StripKeys(fields[1..], j - 1);
            assert fields[k + 1] == Strip(fields)[j];
          } else {
            assert Strip(fields[1..])[i - 1] == Strip(fields)[i] && Strip(fields[1..])[j - 1] == Strip(fields)[j];
          }
        }
      }
    }
  }

  /** The digest does not depend on the order in which jsonb returns the keys. */
  lemma RereadDigest(sha: string -> string, stored: seq<J.Field>, read: J.Value)
    requires J.DistinctKeys(stored) && Reread(stored, read)
    ensures EnvelopeDigest(sha, read.fields) == EnvelopeDigest(sha, stored)
  {
    var f, g := stored, read.fields;
    StripDistinct(f);
    StripDistinct(g);
    J.EqualSortsSameMembers(J.CanonFields(f), J.CanonFields(g));
    forall m ensures m in J.CanonFields(Strip(f)) <==> m in J.CanonFields(Strip(g)) {
      StripMembers(f, m);
      StripMembers(g, m);
    }
    J.MappingsAgree(Strip(f), Strip(g));
  }

  lemma {:induction false} GetIsMember(fields: seq<J.Field>, key: string, text: string)
    requires J.DistinctKeys(fields)
    ensures J.Member(key, J.JStr(text)) in J.CanonFields(fields) <==> Get(fields, key) == Some(J.Str(text))
    decreases |fields|
  {
    if fields != [] {
      GetIsMember(fields[1..], key, text);
      assert J.CanonFields(fields) == [J.Member(fields[0].key, J.Canon(fields[0].value))] + J.CanonFields(fields[1..]);
      if fields[0].key == key && J.Member(key, J.JStr(text)) in J.CanonFields(fields[1..]) {
        KeyAbsent(fields[1..], key, text);
      }
    }
  }

  lemma {:induction false} KeyAbsent(fields: seq<J.Field>, key: string, text: string)
    requires forall i :: 0 <= i < |fields| ==> fields[i].key != key
    ensures J.Member(key, J.JStr(text)) !in J.CanonFields(fields)
    decreases |fields|
  {
    if fields != [] {
      KeyAbsent(fields[1..], key, text);
      assert J.CanonFields(fields) == [J.Member(fields[0].key, J.Canon(fields[0].value))] + J.CanonFields(fields[1..]);
    }
  }

  lemma RereadText(stored: seq<J.Field>, read: J.Value, key: string, text: string)
    requires J.DistinctKeys(stored) && Reread(stored, read)
    ensures Get(read.fields, key) == Some(J.Str(text)) <==> Get(stored, key) == Some(J.Str(text))
  {
    J.EqualSortsSameMembers(J.CanonFields(stored), J.CanonFields(read.fields));
    GetIsMember(stored, key, text);
    GetIsMember(read.fields, key, text);
  }

  /** The keys of an event are told apart by their length, first and fourth character. */
  const MARKS: seq<(nat, char, char)> := [
    (8, 'e', 'n'), (9, 't', 'a'), (8, 'p', 'v'), (11, 's', 'r'), (17, 'p', 'v'), (14, 'p', 'l'), (10,
    'e', 'n'), (14, 's', 'e'), (11, 'o', 'u'), (11, 'r', 'e'), (12, 's', 'j'), (10, 's', 'j'), (10, 'r',
    'e'), (11, 'a', 'r'), (5, 'm', 'e'), (7, 'c', 's'), (7, 'p', 'l'), (14, 'r', '_'), (18, 'r', '_'),
    (17, 'p', 'c'), (10, 'e', 'o')]

  lemma MarksDiffer()
    ensures |MARKS| == 21 && forall i, j :: 0 <= i < j < 21 ==> MARKS[i] != MARKS[j]
  {
  }

  predicate Marked(key: string, mark: (nat, char, char)) { |key| > 3 && mark == (|key|, key[0], key[3]) }

  const KEYS := [
    "event_id", "tenant_id", "provider", "source_type", "provider_event_id", "payload_digest",
    "event_type", "schema_version", "occurred_at", "received_at", "subject_type", "subject_id",
    "references", "attribution", "money", "consent", "payload", "raw_object_key", "raw_payload_digest",
    "processing_status", "error_code"]

  lemma KeysMarked(i: nat)
    requires i < 21
    ensures |KEYS| == |MARKS| == 21 && Marked(KEYS[i], MARKS[i])
  {
  }

  lemma KeysAre(o: Origin, e: Incoming)
    ensures |CanonicalFields(o, e)| == |KEYS| == 21 && forall i :: 0 <= i < 21 ==> CanonicalFields(o, e)[i].key == KEYS[i]
  {
  }

  lemma CanonicalKeys(o: Origin, e: Incoming)
    ensures J.DistinctKeys(CanonicalFields(o, e)) && |CanonicalFields(o, e)| == 21
    ensures CanonicalFields(o, e)[0].key == "event_id" && CanonicalFields(o, e)[5].key == "payload_digest"
    ensures CanonicalFields(o, e)[9].key == "received_at" && CanonicalFields(o, e)[17].key == "raw_object_key"
  {
    var fields := CanonicalFields(o, e);
    KeysAre(o, e);
    MarksDiffer();
    forall i, j | 0 <= i < j < |fields| ensures fields[i].key != fields[j].key {
      KeysMarked(i);
      KeysMarked(j);
    }
  }

  lemma PutDistinct(fields: seq<J.Field>, key: string, value: J.Value)
    requires J.DistinctKeys(fields)
    ensures J.DistinctKeys(Put(fields, key, value))
  {
    PutKeepsKeys(fields, key, value);
  }

  lemma SealedHolds(sha: string -> string, o: Origin, e: Incoming, objectKey: Option<string>)
    ensures var f := Sealed(sha, o, e, objectKey);
      && J.DistinctKeys(f)
      && EnvelopeDigest(sha, f) == EnvelopeDigest(sha, CanonicalFields(o, e))
      && Get(f, "payload_digest") == Some(J.Str(EnvelopeDigest(sha, f)))
  {
    var fields := CanonicalFields(o, e);
    CanonicalKeys(o, e);
    var digest := J.Str(EnvelopeDigest(sha, fields));
    var withDigest := Put(fields, "payload_digest", digest);
    PutDistinct(fields, "payload_digest", digest);
    PutVolatile(fields, "payload_digest", digest);
    GetPut(fields, "payload_digest", digest, "payload_digest");
    if objectKey.Some? {
      PutDistinct(withDigest, "raw_object_key", J.Str(objectKey.value));
      PutVolatile(withDigest, "raw_object_key", J.Str(objectKey.value));
      PutElsewhere(withDigest, "raw_object_key", J.Str(objectKey.value), "payload_digest");
    }
  }

  // ---------------------------------------------------------------- what the digest covers, written out

  /** `kept` are the members whose keys enter the digest, in any order. */
  ghost predicate Keeps(fields: seq<J.Field>, kept: seq<J.Field>) {
    J.DistinctKeys(kept) && forall x :: x in kept <==> x in fields && Digested(x.key)
  }

  lemma {:induction false} StripKeeps(fields: seq<J.Field>, x: J.Field)
    ensures x in Strip(fields) <==> x in fields && Digested(x.key)
    decreases |fields|
  {
    if fields != [] {
      StripKeeps(fields[1..], x);
      assert x in fields <==> x == fields[0] || x in fields[1..];
    }
  }

  lemma {:induction false} FieldsAsMembers(fields: seq<J.Field>, m: J.Member)
    ensures m in J.CanonFields(fields) <==> exists x :: x in fields && m == J.Member(x.key, J.Canon(x.value))
    decreases |fields|
  {
    if fields != [] {
      FieldsAsMembers(fields[1..], m);
      assert fields == [fields[0]] + fields[1..];
      assert J.CanonFields(fields) == [J.Member(fields[0].key, J.Canon(fields[0].value))] + J.CanonFields(fields[1..]);
    }
  }

  /** The digest is the hash of the canonical text of exactly those members. */
  lemma DigestCovers(sha: string -> string, fields: seq<J.Field>, kept: seq<J.Field>)
    requires J.DistinctKeys(fields) && Keeps(fields, kept)
    ensures EnvelopeDigest(sha, fields) == sha(J.CanonicalDocument(J.Dict(kept)))
  {
    StripDistinct(fields);
    forall x ensures x in Strip(fields) <==> x in kept { StripKeeps(fields, x); }
    forall m ensures m in J.CanonFields(Strip(fields)) <==> m in J.CanonFields(kept) {
      FieldsAsMembers(Strip(fields), m);
      FieldsAsMembers(kept, m);
    }
    J.MappingsAgree(Strip(fields), kept);
  }

  lemma {:induction false} GetIsField(fields: seq<J.Field>, key: string, value: J.Value)
    requires J.DistinctKeys(fields)
    ensures Get(fields, key) == Some(value) <==> J.Field(key, value) in fields
    decreases |fields|
  {
    if fields != [] {
      GetIsField(fields[1..], key, value);
      assert fields == [fields[0]] + fields[1..];
    }
  }

  /** The handler's check: the payload is a mapping, and the hash of its members but the four volatile ones is both
      its own payload_digest and the digest column. */
  lemma CheckExactly(sha: string -> string, payload: J.Value, kept: seq<J.Field>, digest: string)
    requires payload.Dict? ==> J.DistinctKeys(payload.fields) && Keeps(payload.fields, kept)
    ensures CheckEvent(sha, payload, digest) == EnvelopeInvalid <==> !payload.Dict?
    ensures CheckEvent(sha, payload, digest) == Passes <==>
      && payload.Dict? && J.Field("payload_digest", J.Str(digest)) in payload.fields
      && digest == sha(J.CanonicalDocument(J.Dict(kept)))
  {
    if payload.Dict? {
      DigestCovers(sha, payload.fields, kept);
      GetIsField(payload.fields, "payload_digest", J.Str(digest));
    }
  }

  /** The members of an event that enter its digest. */
  function DigestedFields(o: Origin, e: Incoming): seq<J.Field> {
    [J.Field("tenant_id", J.Str(o.tenantId)), J.Field("provider", J.Str(o.provider)),
     J.Field("source_type", J.Str(o.sourceType)), J.Field("provider_event_id", J.Str(e.providerEventId)),
     J.Field("event_type", J.Str(e.eventType)), J.Field("schema_version", J.Int(1)),
     J.Field("occurred_at", J.Str(e.occurredAt)), J.Field("subject_type", J.Str(e.subjectType)),
     J.Field("subject_id", J.Str(e.subjectId)), J.Field("references", e.references),
     J.Field("attribution", e.attribution), J.Field("money", e.money), J.Field("consent", e.consent),
     J.Field("payload", e.payload),
     J.Field("raw_payload_digest", if o.rawPayloadDigest.None? then J.Null else J.Str(o.rawPayloadDigest.value)),
     J.Field("processing_status", J.Str("received")), J.Field("error_code", J.Null)]
  }

  /** A member of a stored event: one that enters the digest, the digest itself, or one of the other three. */
  ghost predicate SealedMember(o: Origin, e: Incoming, objectKey: Option<string>, digest: string, x: J.Field) {
    || x in DigestedFields(o, e)
    || x == J.Field("payload_digest", J.Str(digest))
    || x == J.Field("event_id", J.Str(o.eventId))
    || x == J.Field("received_at", J.Str(o.receivedAt))
    || x == J.Field("raw_object_key", if objectKey.None? then J.Null else J.Str(objectKey.value))
  }

  /** A stored event has exactly these members, each once, and the digest covers those that enter it. */
  ghost predicate StoredAs(sha: string -> string, o: Origin, e: Incoming, objectKey: Option<string>, fields: seq<J.Field>, digest: string) {
    && digest == sha(J.CanonicalDocument(J.Dict(DigestedFields(o, e))))
    && J.DistinctKeys(fields)
    && forall x :: x in fields <==> SealedMember(o, e, objectKey, digest, x)
  }

  lemma CanonicalMembers(o: Origin, e: Incoming, x: J.Field)
    ensures x in CanonicalFields(o, e) <==>
      || x in DigestedFields(o, e)
      || x == J.Field("payload_digest", J.Str(NO_DIGEST))
      || x == J.Field("event_id", J.Str(o.eventId))
      || x == J.Field("received_at", J.Str(o.receivedAt))
      || x == J.Field("raw_object_key", J.Null)
  {
  }

  lemma DigestedKeys(o: Origin, e: Incoming)
    ensures J.DistinctKeys(DigestedFields(o, e)) && forall x :: x in DigestedFields(o, e) ==> Digested(x.key)
  {
    CanonicalKeys(o, e);
    PlacesAscend();
    DigestedPlaces(DigestedFields(o, e), CanonicalFields(o, e), o, e);
  }

  /** Where the members that enter the digest stand among all of them. */
  const PLACES := [1, 2, 3, 4, 6, 7, 8, 10, 11, 12, 13, 14, 15, 16, 18, 19, 20]

  lemma PlacesAscend()
    ensures |PLACES| == 17 && forall i, j :: 0 <= i < j < 17 ==> PLACES[i] < PLACES[j]
    ensures forall i :: 0 <= i < 17 ==> 0 < PLACES[i] < 21 && PLACES[i] != 5 && PLACES[i] != 9 && PLACES[i] != 17
  {
  }

  lemma DigestedPlaces(digested: seq<J.Field>, fields: seq<J.Field>, o: Origin, e: Incoming)
    requires digested == DigestedFields(o, e) && fields == CanonicalFields(o, e)
    ensures |digested| == |PLACES| && |fields| == 21
    ensures forall i :: 0 <= i < |PLACES| ==> 0 < PLACES[i] < 21 && digested[i] == fields[PLACES[i]]
  {
  }

  lemma PutMembers(fields: seq<J.Field>, key: string, value: J.Value, x: J.Field)
    requires exists i :: 0 <= i < |fields| && fields[i].key == key
    ensures x in Put(fields, key, value) <==> x == J.Field(key, value) || (x in fields && x.key != key)
  {
    PutKeepsKeys(fields, key, value);
    var put := Put(fields, key, value);
    var i :| 0 <= i < |fields| && fields[i].key == key;
    assert put[i] == J.Field(key, value);
    if x in fields && x.key != key {
      var j :| 0 <= j < |fields| && fields[j] == x;
      assert put[j] == x;
    }
  }

  /** Sealing an event stores exactly that. */
  lemma SealedExactly(sha: string -> string, o: Origin, e: Incoming, objectKey: Option<string>)
    ensures StoredAs(sha, o, e, objectKey, Sealed(sha, o, e, objectKey), EnvelopeDigest(sha, CanonicalFields(o, e)))
  {
    var fields := CanonicalFields(o, e);
    SealedHolds(sha, o, e, objectKey);
    CanonicalKeys(o, e);
    DigestedKeys(o, e);
    forall x ensures x in DigestedFields(o, e) <==> x in fields && Digested(x.key) { CanonicalMembers(o, e, x); }
    DigestCovers(sha, fields, DigestedFields(o, e));
    forall x ensures x in Sealed(sha, o, e, objectKey) <==> SealedMember(o, e, objectKey, EnvelopeDigest(sha, fields), x) {
      SealedMembers(sha, o, e, objectKey, x);
    }
  }

  lemma PutBoth(fields: seq<J.Field>, digest: J.Value, objectKey: J.Value, x: J.Field)
    requires |fields| > 17 && fields[5].key == "payload_digest" && fields[17].key == "raw_object_key"
    ensures x in Put(fields, "payload_digest", digest) <==>
      x == J.Field("payload_digest", digest) || (x in fields && x.key != "payload_digest")
    ensures x in Put(Put(fields, "payload_digest", digest), "raw_object_key", objectKey) <==>
      || x == J.Field("payload_digest", digest) || x == J.Field("raw_object_key", objectKey)
      || (x in fields && x.key != "payload_digest" && x.key != "raw_object_key")
  {
    PutMembers(fields, "payload_digest", digest, x);
    PutKeepsKeys(fields, "payload_digest", digest);
    var withDigest := Put(fields, "payload_digest", digest);
    assert withDigest[17].key == "raw_object_key" by { assert "raw_object_key"[0] != "payload_digest"[0]; }
    PutMembers(withDigest, "raw_object_key", objectKey, x);
  }

  lemma SealedMembers(sha: string -> string, o: Origin, e: Incoming, objectKey: Option<string>, x: J.Field)
    ensures x in Sealed(sha, o, e, objectKey) <==> SealedMember(o, e, objectKey, EnvelopeDigest(sha, CanonicalFields(o, e)), x)
  {
    CanonicalMembers(o, e, x);
    CanonicalKeys(o, e);
    if x in DigestedFields(o, e) { DigestedKeys(o, e); }
    PutBoth(CanonicalFields(o, e), J.Str(EnvelopeDigest(sha, CanonicalFields(o, e))),
            if objectKey.None? then J.Null else J.Str(objectKey.value), x);
  }

  /** An event as ingestion seals it passes the handler, however jsonb reorders its keys. */
  lemma SealedPasses(sha: string -> string, o: Origin, e: Incoming, objectKey: Option<string>, read: J.Value)
    requires Reread(Sealed(sha, o, e, objectKey), read)
    ensures CheckEvent(sha, read, EnvelopeDigest(sha, CanonicalFields(o, e))) == Passes
  {
    var f := Sealed(sha, o, e, objectKey);
    SealedHolds(sha, o, e, objectKey);
    RereadDigest(sha, f, read);
    RereadText(f, read, "payload_digest", EnvelopeDigest(sha, f));
  }

  /** Two payloads that pass under one digest agree on everything the digest covers, or the texts of what they
      keep are a collision of the hash. */
  lemma PassedPayloadsAgree(sha: string -> string, a: J.Value, b: J.Value, x: seq<J.Field>, y: seq<J.Field>, digest: string)
    requires CheckEvent(sha, a, digest) == Passes && CheckEvent(sha, b, digest) == Passes
    requires J.DistinctKeys(a.fields) && J.DistinctKeys(b.fields) && Keeps(a.fields, x) && Keeps(b.fields, y)
    ensures
      || (forall m: J.Member :: Digested(m.key) ==> (m in J.CanonFields(a.fields) <==> m in J.CanonFields(b.fields)))
      || (var s, t := J.CanonicalDocument(J.Dict(x)), J.CanonicalDocument(J.Dict(y)); s != t && sha(s) == sha(t))
  {
    CheckExactly(sha, a, x, digest);
    CheckExactly(sha, b, y, digest);
    J.MappingsAgree(x, y);
    if J.SameMembers(x, y) {
      forall m: J.Member | Digested(m.key) ensures m in J.CanonFields(a.fields) <==> m in J.CanonFields(b.fields) {
        KeptMember(a.fields, x, m);
        KeptMember(b.fields, y, m);
      }
    }
  }

  lemma KeptMember(fields: seq<J.Field>, kept: seq<J.Field>, m: J.Member)
    requires Keeps(fields, kept) && Digested(m.key)
    ensures m in J.CanonFields(fields) <==> m in J.CanonFields(kept)
  {
    FieldsAsMembers(fields, m);
    FieldsAsMembers(kept, m);
  }
}
