/** What canonical text looks like, written out apart from the printer: words, decimal numbers, escaped strings,
    commas between parts, and the keys of an object ascending by code point. */
module CanonicalText {
  import opened Basics
  import opened Ordering
  import J = CanonicalJson

  // ---------------------------------------------------------------- strings

  const SHORT := map[
    '\"' := "\\\"", '\\' := "\\\\", '\n' := "\\n", '\r' := "\\r", '\t' := "\\t",
    '\U{0008}' := "\\b", '\U{000C}' := "\\f"]

  /** Two lower-case hexadecimal digits. */
  ghost predicate HexPair(n: nat, t: string) {
    && |t| == 2
    && exists high, low :: 0 <= high < 16 && 0 <= low < 16 && n == 16 * high + low
         && t[0] == "0123456789abcdef"[high] && t[1] == "0123456789abcdef"[low]
  }

  /** RFC 8259 section 7: two-character escapes where they exist, a \u00 escape for the other control characters,
      and every other character for itself. */
  ghost predicate Escaped(c: char, t: string) {
    if c in SHORT then t == SHORT[c]
    else if c < ' ' then |t| == 6 && t[..4] == "\\u00" && HexPair(c as nat, t[4..])
    else t == [c]
  }

  ghost predicate Quoted(s: string, t: string) {
    exists parts: seq<string> ::
      |parts| == |s| && (forall i :: 0 <= i < |s| ==> Escaped(s[i], parts[i])) && t == "\"" + Concat(parts) + "\""
  }

  lemma EscapeCharEscapes(c: char)
    ensures Escaped(c, J.EscapeChar(c))
  {
    if c !in SHORT && c < ' ' {
      var t, n := J.EscapeChar(c), c as nat;
      assert t[..4] == "\\u00" && t[4..] == [J.HexDigit(n / 16), J.HexDigit(n % 16)];
      assert n == 16 * (n / 16) + n % 16;
    }
  }

  lemma {:induction false} EscapeParts(s: string) returns (parts: seq<string>)
    ensures |parts| == |s| && (forall i :: 0 <= i < |s| ==> Escaped(s[i], parts[i])) && Concat(parts) == J.Escape(s)
    decreases |s|
  {
    if s == [] {
      parts := [];
    } else {
      var rest := EscapeParts(s[1..]);
      parts := [J.EscapeChar(s[0])] + rest;
      assert parts[1..] == rest;
      EscapeCharEscapes(s[0]);
    }
  }

  lemma StringIsQuoted(s: string)
    ensures Quoted(s, J.StringText(s))
  {
    var parts := EscapeParts(s);
    assert J.StringText(s) == "\"" + Concat(parts) + "\"";
  }

  // ---------------------------------------------------------------- numbers

  ghost predicate AllDigits(t: string) { forall i :: 0 <= i < |t| ==> '0' <= t[i] <= '9' }

  /** The number that digits denote, most significant first. */
  ghost function Amount(t: string): nat
    requires AllDigits(t)
  {
    if t == [] then 0 else 10 * Amount(t[..|t| - 1]) + (t[|t| - 1] as int - '0' as int)
  }

  /** Digits without a needless leading zero, after a minus sign for a negative number. */
  ghost predicate Decimal(n: int, t: string) {
    if n < 0 then |t| > 1 && t[0] == '-' && Unsigned(-n, t[1..]) else Unsigned(n, t)
  }

  ghost predicate Unsigned(n: nat, t: string) { AllDigits(t) && t != [] && (t[0] == '0' ==> |t| == 1) && Amount(t) == n }

  lemma {:induction false} NatTextUnsigned(n: nat)
    ensures Unsigned(n, J.NatText(n))
    decreases n
  {
    var t := J.NatText(n);
    assert t[|t| - 1] as int - '0' as int == n % 10;
    if n < 10 {
      assert Amount(t[..0]) == 0;
    } else {
      NatTextUnsigned(n / 10);
      assert t[..|t| - 1] == J.NatText(n / 10);
      if |t| == 2 { OneDigit(t[..1]); }
    }
  }

  lemma OneDigit(t: string)
    requires AllDigits(t) && |t| == 1
    ensures Amount(t) == t[0] as int - '0' as int
  {
    assert Amount(t[..0]) == 0;
  }

  lemma IntTextDecimal(n: int)
    ensures Decimal(n, J.IntText(n))
  {
    NatTextUnsigned(if n < 0 then -n else n);
    if n < 0 { assert J.IntText(n)[1..] == J.NatText(-n); }
  }

  // ---------------------------------------------------------------- documents

  /** The parts with commas between them. */
  ghost function Listed(parts: seq<string>): string {
    if parts == [] then "" else if |parts| == 1 then parts[0] else parts[0] + "," + Listed(parts[1..])
  }

  ghost predicate Written(j: J.Json, t: string)
    decreases j
  {
    match j
    case JNull => t == "null"
    case JBool(b) => t == if b then "true" else "false"
    case JInt(n) => Decimal(n, t)
    case JStr(s) => Quoted(s, t)
    case JArray(items) =>
      exists parts: seq<string> ::
        |parts| == |items| && t == "[" + Listed(parts) + "]" && forall i :: 0 <= i < |items| ==> Written(items[i], parts[i])
    case JObject(members) =>
      exists keys: seq<string>, values: seq<string> ::
        && |keys| == |values| == |members|
        && t == "{" + Listed(Entries(keys, values)) + "}"
        && forall i :: 0 <= i < |members| ==> Quoted(members[i].key, keys[i]) && Written(members[i].value, values[i])
  }

  ghost function Entries(keys: seq<string>, values: seq<string>): (entries: seq<string>)
    requires |keys| == |values|
  {
    seq(|keys|, i requires 0 <= i < |keys| => keys[i] + ":" + values[i])
  }

  ghost function ItemTexts(items: seq<J.Json>): seq<string> { seq(|items|, i requires 0 <= i < |items| => J.Print(items[i])) }

  ghost function MemberTexts(ms: seq<J.Member>): seq<string> { seq(|ms|, i requires 0 <= i < |ms| => J.PrintMember(ms[i])) }

  ghost function KeyTexts(ms: seq<J.Member>): (keys: seq<string>)
    ensures |keys| == |ms| && forall i :: 0 <= i < |ms| ==> keys[i] == J.StringText(ms[i].key)
  {
    seq(|ms|, i requires 0 <= i < |ms| => J.StringText(ms[i].key))
  }

  ghost function ValueTexts(ms: seq<J.Member>): (values: seq<string>)
    ensures |values| == |ms| && forall i :: 0 <= i < |ms| ==> values[i] == J.Print(ms[i].value)
  {
    seq(|ms|, i requires 0 <= i < |ms| => J.Print(ms[i].value))
  }

  lemma {:induction false} ItemsListed(items: seq<J.Json>)
    ensures J.Items(items) == Listed(ItemTexts(items))
    decreases |items|
  {
    if items != [] {
      ItemsListed(items[1..]);
      assert ItemTexts(items)[1..] == ItemTexts(items[1..]);
    }
  }

  lemma {:induction false} MembersListed(ms: seq<J.Member>)
    ensures J.Members(ms) == Listed(MemberTexts(ms))
    decreases |ms|
  {
    if ms != [] {
      MembersListed(ms[1..]);
      assert MemberTexts(ms)[1..] == MemberTexts(ms[1..]);
    }
  }

  /** The printer writes every document as RFC 8259 has it, without white space. */
  lemma {:induction false} PrintIsWritten(j: J.Json)
    ensures Written(j, J.Print(j))
    decreases j
  {
    match j
    case JNull =>
    case JBool(_) =>
    case JInt(n) => IntTextDecimal(n);
    case JStr(s) => StringIsQuoted(s);
    case JArray(items) =>
      forall i | 0 <= i < |items| ensures Written(items[i], J.Print(items[i])) { PrintIsWritten(items[i]); }
      ArrayIsWritten(items);
    case JObject(members) =>
      forall i | 0 <= i < |members| ensures Written(members[i].value, J.Print(members[i].value)) {
        PrintIsWritten(members[i].value);
      }
      ObjectIsWritten(members);
  }

  lemma ArrayIsWritten(items: seq<J.Json>)
    requires forall i :: 0 <= i < |items| ==> Written(items[i], J.Print(items[i]))
    ensures Written(J.JArray(items), J.Print(J.JArray(items)))
  {
    ItemsListed(items);
    assert J.Print(J.JArray(items)) == "[" + Listed(ItemTexts(items)) + "]";
  }

  lemma ObjectIsWritten(members: seq<J.Member>)
    requires forall i :: 0 <= i < |members| ==> Written(members[i].value, J.Print(members[i].value))
    ensures Written(J.JObject(members), J.Print(J.JObject(members)))
  {
    var keys, values := KeyTexts(members), ValueTexts(members);
    forall i | 0 <= i < |members| ensures Quoted(members[i].key, keys[i]) { StringIsQuoted(members[i].key); }
    ObjectListed(members);
  }

  lemma ObjectListed(members: seq<J.Member>)
    ensures J.Print(J.JObject(members)) == "{" + Listed(Entries(KeyTexts(members), ValueTexts(members))) + "}"
  {
    MembersListed(members);
    assert Entries(KeyTexts(members), ValueTexts(members)) == MemberTexts(members);
    assert J.Print(J.JObject(members)) == "{" + J.Members(members) + "}";
  }

  // ---------------------------------------------------------------- values

  /** The members by ascending key. */
  ghost predicate KeysAscend(ms: seq<J.Member>) { forall i, j :: 0 <= i < j < |ms| ==> Precedes(ms[i].key, ms[j].key) }

  /** The document of a value: plain values are themselves, lists and tuples arrays of their items in order, and
      mappings the object of their members by ascending key, however these were inserted. */
  ghost predicate Denotes(v: J.Value, j: J.Json)
    decreases v
  {
    match v
    case Null => j == J.JNull
    case Bool(b) => j == J.JBool(b)
    case Int(n) => j == J.JInt(n)
    case Str(s) => j == J.JStr(s)
    case List(items) => j.JArray? && |j.items| == |items| && forall i :: 0 <= i < |items| ==> Denotes(items[i], j.items[i])
    case Tuple(items) => j.JArray? && |j.items| == |items| && forall i :: 0 <= i < |items| ==> Denotes(items[i], j.items[i])
    case Dict(fields) => J.DistinctKeys(fields) ==>
      j.JObject? && |j.members| == |fields| && KeysAscend(j.members) && forall i :: 0 <= i < |fields| ==>
        exists k :: 0 <= k < |fields| && j.members[k].key == fields[i].key && Denotes(fields[i].value, j.members[k].value)
    case View(fields) => J.DistinctKeys(fields) ==>
      j.JObject? && |j.members| == |fields| && KeysAscend(j.members) && forall i :: 0 <= i < |fields| ==>
        exists k :: 0 <= k < |fields| && j.members[k].key == fields[i].key && Denotes(fields[i].value, j.members[k].value)
  }

  lemma SortedMembers(fields: seq<J.Field>) returns (ms: seq<J.Member>)
    requires J.DistinctKeys(fields)
    ensures ms == Sort(J.CanonFields(fields), J.KeyLess) && |ms| == |fields| && KeysAscend(ms)
    ensures forall i :: 0 <= i < |fields| ==>
      exists k :: 0 <= k < |fields| && ms[k] == J.Member(fields[i].key, J.Canon(fields[i].value))
  {
    var raw := J.CanonFields(fields);
    ms := Sort(raw, J.KeyLess);
    J.KeysOrderMembers(fields);
    assert Ascending(ms, J.KeyLess) by { SortAscends(raw, J.KeyLess); }
    SortContents(raw, J.KeyLess);
    if fields != [] { J.CanonFieldsAt(fields, 0); }
    forall i, j | 0 <= i < j < |ms| ensures Precedes(ms[i].key, ms[j].key) {
      assert J.KeyLess(ms[i], ms[j]);
      StringLessExactly(ms[i].key, ms[j].key);
    }
    forall i: nat | i < |fields| ensures exists k :: 0 <= k < |fields| && ms[k] == J.Member(fields[i].key, J.Canon(fields[i].value)) {
      J.CanonFieldsAt(fields, i);
      assert raw[i] in ms;
    }
  }

  lemma {:induction false} CanonAllAt(items: seq<J.Value>, i: nat)
    requires i < |items|
    ensures |J.CanonAll(items)| == |items| && J.CanonAll(items)[i] == J.Canon(items[i])
    decreases |items|
  {
    if i > 0 { CanonAllAt(items[1..], i - 1); }
    else if |items| > 1 { CanonAllAt(items[1..], 0); }
  }

  lemma ItemsDenoted(items: seq<J.Value>)
    requires forall i :: 0 <= i < |items| ==> Denotes(items[i], J.Canon(items[i]))
    ensures Denotes(J.List(items), J.Canon(J.List(items))) && Denotes(J.Tuple(items), J.Canon(J.Tuple(items)))
  {
    if items != [] { CanonAllAt(items, 0); }
    forall i: nat | i < |items| ensures J.CanonAll(items)[i] == J.Canon(items[i]) { CanonAllAt(items, i); }
  }

  lemma MembersDenoted(fields: seq<J.Field>)
    requires forall i :: 0 <= i < |fields| ==> Denotes(fields[i].value, J.Canon(fields[i].value))
    ensures Denotes(J.Dict(fields), J.Canon(J.Dict(fields))) && Denotes(J.View(fields), J.Canon(J.View(fields)))
  {
    if J.DistinctKeys(fields) {
      var ms := SortedMembers(fields);
      forall i | 0 <= i < |fields|
        ensures exists k :: 0 <= k < |fields| && ms[k].key == fields[i].key && Denotes(fields[i].value, ms[k].value)
      {
        var k :| 0 <= k < |fields| && ms[k] == J.Member(fields[i].key, J.Canon(fields[i].value));
      }
    }
  }

  lemma {:induction false} CanonDenotes(v: J.Value)
    ensures Denotes(v, J.Canon(v))
    decreases v
  {
    match v
    case List(items) =>
      forall i | 0 <= i < |items| ensures Denotes(items[i], J.Canon(items[i])) { CanonDenotes(items[i]); }
      ItemsDenoted(items);
    case Tuple(items) =>
      forall i | 0 <= i < |items| ensures Denotes(items[i], J.Canon(items[i])) { CanonDenotes(items[i]); }
      ItemsDenoted(items);
    case Dict(fields) =>
      forall i | 0 <= i < |fields| ensures Denotes(fields[i].value, J.Canon(fields[i].value)) { CanonDenotes(fields[i].value); }
      MembersDenoted(fields);
    case View(fields) =>
      forall i | 0 <= i < |fields| ensures Denotes(fields[i].value, J.Canon(fields[i].value)) { CanonDenotes(fields[i].value); }
      MembersDenoted(fields);
    case _ =>
  }

  /** The text that every digest is taken over is that of the value's document. */
  lemma DocumentIsWritten(v: J.Value) returns (j: J.Json)
    ensures Denotes(v, j) && Written(j, J.CanonicalDocument(v))
  {
    j := J.Canon(v);
    J.PlainKeepsCanon(v);
    CanonDenotes(v);
    PrintIsWritten(j);
  }
}
