/** The canonical document text that every digest is taken over: `_plain`, then json.dumps with sorted
    keys, compact separators and no ASCII escaping. Values are strings, integers, booleans, null,
    sequences and string-keyed mappings. */
module CanonicalJson {
  import opened Ordering

  /** Python values: lists and tuples, dicts and read-only mapping views are different types here. */
  datatype Value =
    | Null
    | Bool(b: bool)
    | Int(n: int)
    | Str(s: string)
    | List(items: seq<Value>)
    | Tuple(items: seq<Value>)
    | Dict(fields: seq<Field>)
    | View(fields: seq<Field>)

  datatype Field = Field(key: string, value: Value)

  /** The JSON text model: arrays and objects only. */
  datatype Json =
    | JNull
    | JBool(b: bool)
    | JInt(n: int)
    | JStr(s: string)
    | JArray(items: seq<Json>)
    | JObject(members: seq<Member>)

  datatype Member = Member(key: string, value: Json)

  // ---------------------------------------------------------------- _plain and _freeze

  function Plain(v: Value): Value
    decreases v, 1
  {
    match v
    case List(items) => List(PlainAll(items))
    case Tuple(items) => List(PlainAll(items))
    case Dict(fields) => Dict(PlainFields(fields))
    case View(fields) => Dict(PlainFields(fields))
    case _ => v
  }

  function PlainAll(items: seq<Value>): seq<Value>
    decreases items, 0
  {
    if items == [] then [] else [Plain(items[0])] + PlainAll(items[1..])
  }

  function PlainFields(fields: seq<Field>): seq<Field>
    decreases fields, 0
  {
    if fields == [] then [] else [Field(fields[0].key, Plain(fields[0].value))] + PlainFields(fields[1..])
  }

  function Freeze(v: Value): Value
    decreases v, 1
  {
    match v
    case List(items) => Tuple(FreezeAll(items))
    case Tuple(items) => Tuple(FreezeAll(items))
    case Dict(fields) => View(FreezeFields(fields))
    case View(fields) => View(FreezeFields(fields))
    case _ => v
  }

  function FreezeAll(items: seq<Value>): seq<Value>
    decreases items, 0
  {
    if items == [] then [] else [Freeze(items[0])] + FreezeAll(items[1..])
  }

  function FreezeFields(fields: seq<Field>): seq<Field>
    decreases fields, 0
  {
    if fields == [] then [] else [Field(fields[0].key, Freeze(fields[0].value))] + FreezeFields(fields[1..])
  }

  // ---------------------------------------------------------------- sorted keys

  predicate KeyLess(a: Member, b: Member) { StringLess(a.key, b.key) }

  /** json.dumps(sort_keys=True) reads a value as this JSON document. */
  function Canon(v: Value): Json
    decreases v, 1
  {
    match v
    case Null => JNull
    case Bool(b) => JBool(b)
    case Int(n) => JInt(n)
    case Str(s) => JStr(s)
    case List(items) => JArray(CanonAll(items))
    case Tuple(items) => JArray(CanonAll(items))
    case Dict(fields) => JObject(Sort(CanonFields(fields), KeyLess))
    case View(fields) => JObject(Sort(CanonFields(fields), KeyLess))
  }

  function CanonAll(items: seq<Value>): seq<Json>
    decreases items, 0
  {
    if items == [] then [] else [Canon(items[0])] + CanonAll(items[1..])
  }

  function CanonFields(fields: seq<Field>): seq<Member>
    decreases fields, 0
  {
    if fields == [] then [] else [Member(fields[0].key, Canon(fields[0].value))] + CanonFields(fields[1..])
  }

  // ---------------------------------------------------------------- printing

  function Digit(d: nat): char
    requires d < 10
  {
    "0123456789"[d]
  }

  function NatText(n: nat): string {
    if n < 10 then [Digit(n)] else NatText(n / 10) + [Digit(n % 10)]
  }

  function IntText(n: int): string {
    if n < 0 then "-" + NatText(-n) else NatText(n)
  }

  function HexDigit(d: nat): char
    requires d < 16
  {
    "0123456789abcdef"[d]
  }

  /** RFC 8259 section 7 as json.dumps(ensure_ascii=False) applies it: quotation mark, reverse solidus
      and the control characters are escaped, everything else stands for itself. */
  function EscapeChar(c: char): string {
    if c == '\"' then "\\\""
    else if c == '\\' then "\\\\"
    else if c == '\n' then "\\n"
    else if c == '\r' then "\\r"
    else if c == '\t' then "\\t"
    else if c == '\U{0008}' then "\\b"
    else if c == '\U{000C}' then "\\f"
    else if c < ' ' then "\\u00" + [HexDigit(c as int / 16), HexDigit(c as int % 16)]
    else [c]
  }

  function Escape(s: string): string {
    if s == [] then "" else EscapeChar(s[0]) + Escape(s[1..])
  }

  function StringText(s: string): string { "\"" + Escape(s) + "\"" }

  function Print(j: Json): string
    decreases j, 1
  {
    match j
    case JNull => "null"
    case JBool(b) => if b then "true" else "false"
    case JInt(n) => IntText(n)
    case JStr(s) => StringText(s)
    case JArray(items) => "[" + (if items == [] then "" else Print(items[0]) + PrintMore(items[1..])) + "]"
    case JObject(members) =>
      "{" + (if members == [] then "" else PrintMember(members[0]) + PrintMoreMembers(members[1..])) + "}"
  }

  function PrintMore(items: seq<Json>): string
    decreases items, 0
  {
    if items == [] then "" else "," + Print(items[0]) + PrintMore(items[1..])
  }

  function PrintMember(m: Member): string
    decreases m, 2
  {
    StringText(m.key) + ":" + Print(m.value)
  }

  function PrintMoreMembers(members: seq<Member>): string
    decreases members, 0
  {
    if members == [] then "" else "," + PrintMember(members[0]) + PrintMoreMembers(members[1..])
  }

  function CanonicalDocument(v: Value): string { Print(Canon(Plain(v))) }

  // ---------------------------------------------------------------- _plain and _freeze change no text

  lemma {:induction false} PlainKeepsCanon(v: Value)
    ensures Canon(Plain(v)) == Canon(v)
    decreases v, 1
  {
    match v
    case List(items) => PlainAllKeepsCanon(items);
    case Tuple(items) => PlainAllKeepsCanon(items);
    case Dict(fields) => PlainFieldsKeepsCanon(fields);
    case View(fields) => PlainFieldsKeepsCanon(fields);
    case _ =>
  }

  lemma {:induction false} PlainAllKeepsCanon(items: seq<Value>)
    ensures CanonAll(PlainAll(items)) == CanonAll(items)
    decreases items, 0
  {
    if items != [] {
      PlainKeepsCanon(items[0]);
      PlainAllKeepsCanon(items[1..]);
    }
  }

  lemma {:induction false} PlainFieldsKeepsCanon(fields: seq<Field>)
    ensures CanonFields(PlainFields(fields)) == CanonFields(fields)
    decreases fields, 0
  {
    if fields != [] {
      PlainKeepsCanon(fields[0].value);
      PlainFieldsKeepsCanon(fields[1..]);
    }
  }

  lemma {:induction false} FreezeKeepsCanon(v: Value)
    ensures Canon(Freeze(v)) == Canon(v)
    decreases v, 1
  {
    match v
    case List(items) => FreezeAllKeepsCanon(items);
    case Tuple(items) => FreezeAllKeepsCanon(items);
    case Dict(fields) => FreezeFieldsKeepsCanon(fields);
    case View(fields) => FreezeFieldsKeepsCanon(fields);
    case _ =>
  }

  lemma {:induction false} FreezeAllKeepsCanon(items: seq<Value>)
    ensures CanonAll(FreezeAll(items)) == CanonAll(items)
    decreases items, 0
  {
    if items != [] {
      FreezeKeepsCanon(items[0]);
      FreezeAllKeepsCanon(items[1..]);
    }
  }

  lemma {:induction false} FreezeFieldsKeepsCanon(fields: seq<Field>)
    ensures CanonFields(FreezeFields(fields)) == CanonFields(fields)
    decreases fields, 0
  {
    if fields != [] {
      FreezeKeepsCanon(fields[0].value);
      FreezeFieldsKeepsCanon(fields[1..]);
    }
  }

  /** Freezing the terms of a version or a rule never changes its digest. */
  lemma FreezeKeepsDocument(v: Value)
    ensures CanonicalDocument(Freeze(v)) == CanonicalDocument(v)
  {
    PlainKeepsCanon(Freeze(v));
    PlainKeepsCanon(v);
    FreezeKeepsCanon(v);
  }

  // ---------------------------------------------------------------- the text determines the document

  /** What may follow a value: the end, a comma or a closing bracket, never a digit. */
  predicate Ends(x: string) { x == [] || x[0] == ',' || x[0] == ']' || x[0] == '}' }

  predicate IsDigit(c: char) { '0' <= c <= '9' }

  lemma {:induction false} NatTextDigits(n: nat)
    ensures NatText(n) != [] && forall i :: 0 <= i < |NatText(n)| ==> IsDigit(NatText(n)[i])
    decreases n
  {
    if n >= 10 { NatTextDigits(n / 10); }
  }

  lemma {:induction false} NatTextInjective(a: nat, b: nat)
    requires NatText(a) == NatText(b)
    ensures a == b
    decreases a
  {
    NatTextDigits(a / 10);
    NatTextDigits(b / 10);
    if a >= 10 && b >= 10 {
      assert NatText(a)[..|NatText(a)| - 1] == NatText(a / 10);
      assert NatText(b)[..|NatText(b)| - 1] == NatText(b / 10);
      assert NatText(a)[|NatText(a)| - 1] == Digit(a % 10) && NatText(b)[|NatText(b)| - 1] == Digit(b % 10);
      NatTextInjective(a / 10, b / 10);
    }
  }

  lemma NatTextSplits(a: nat, b: nat, x: string, y: string)
    requires NatText(a) + x == NatText(b) + y && Ends(x) && Ends(y)
    ensures a == b && x == y
  {
    NatTextDigits(a);
    NatTextDigits(b);
    var m, n := |NatText(a)|, |NatText(b)|;
    var left, right := NatText(a) + x, NatText(b) + y;
    assert forall i :: 0 <= i < m ==> IsDigit(left[i]);
    assert forall i :: 0 <= i < n ==> IsDigit(right[i]);
    assert x != [] ==> !IsDigit(left[m]);
    assert y != [] ==> !IsDigit(right[n]);
    assert m == n;
    assert left[..m] == NatText(a) && right[..m] == NatText(b);
    assert left[m..] == x && right[m..] == y;
    NatTextInjective(a, b);
  }

  lemma EscapeCharSplits(c: char, d: char, x: string, y: string)
    requires EscapeChar(c) + x == EscapeChar(d) + y
    ensures c == d && x == y
  {
    var p, q := EscapeChar(c), EscapeChar(d);
    SameLength(c, d, p + x, q + y);
    CutEqual(p, x, q, y);
    EscapeCharInjective(c, d);
  }

  /** The first two characters of an escaped one tell how long it is. */
  lemma SameLength(c: char, d: char, left: string, right: string)
    requires EscapeChar(c) <= left && EscapeChar(d) <= right && left == right
    ensures |EscapeChar(c)| == |EscapeChar(d)|
  {
    var p, q := EscapeChar(c), EscapeChar(d);
    assert p[0] == left[0] && q[0] == right[0];
    if |p| >= 2 && |q| >= 2 { assert p[1] == left[1] && q[1] == right[1]; }
  }

  lemma EscapeCharInjective(c: char, d: char)
    requires EscapeChar(c) == EscapeChar(d)
    ensures c == d
  {
    if |EscapeChar(c)| == 6 {
      assert EscapeChar(c)[4] == EscapeChar(d)[4] && EscapeChar(c)[5] == EscapeChar(d)[5];
      HexDigitInjective(c as int / 16, d as int / 16);
      HexDigitInjective(c as int % 16, d as int % 16);
    } else if |EscapeChar(c)| == 2 {
      assert EscapeChar(c)[1] == EscapeChar(d)[1];
    } else {
      assert EscapeChar(c)[0] == EscapeChar(d)[0];
    }
  }

  lemma HexDigitInjective(a: nat, b: nat)
    requires a < 16 && b < 16 && HexDigit(a) == HexDigit(b)
    ensures a == b
  {
  }

  lemma CutEqual(p: string, x: string, q: string, y: string)
    requires p + x == q + y && |p| == |q|
    ensures p == q && x == y
  {
    assert (p + x)[..|p|] == p && (q + y)[..|q|] == q;
    assert (p + x)[|p|..] == x && (q + y)[|q|..] == y;
  }

  lemma Reassociate(a: string, b: string, c: string)
    ensures (a + b) + c == a + (b + c)
  {
  }

  /** Dropping a common first character. */
  lemma DropHead(c: char, x: string, d: char, y: string)
    requires [c] + x == [d] + y
    ensures c == d && x == y
  {
    assert ([c] + x)[0] == c && ([d] + y)[0] == d;
    assert ([c] + x)[1..] == x && ([d] + y)[1..] == y;
  }

  function Quoted(s: string, x: string): string { Escape(s) + ("\"" + x) }

  lemma QuotedHead(s: string, x: string)
    ensures Quoted(s, x) != [] && (Quoted(s, x)[0] == '\"' <==> s == [])
  {
    if s != [] { assert Escape(s)[0] == EscapeChar(s[0])[0]; }
  }

  lemma {:induction false} StringSplits(s: string, t: string, x: string, y: string)
    requires Quoted(s, x) == Quoted(t, y)
    ensures s == t && x == y
    decreases |s|
  {
    QuotedHead(s, x);
    QuotedHead(t, y);
    if s == [] {
      assert Quoted(s, x) == ['\"'] + x && Quoted(t, y) == ['\"'] + y;
      DropHead('\"', x, '\"', y);
    } else {
      Reassociate(EscapeChar(s[0]), Escape(s[1..]), "\"" + x);
      Reassociate(EscapeChar(t[0]), Escape(t[1..]), "\"" + y);
      EscapeCharSplits(s[0], t[0], Quoted(s[1..], x), Quoted(t[1..], y));
      StringSplits(s[1..], t[1..], x, y);
      assert s == [s[0]] + s[1..] && t == [t[0]] + t[1..];
    }
  }

  lemma StringTextSplits(s: string, t: string, x: string, y: string)
    requires StringText(s) + x == StringText(t) + y
    ensures s == t && x == y
  {
    assert StringText(s) + x == ['\"'] + Quoted(s, x) && StringText(t) + y == ['\"'] + Quoted(t, y);
    DropHead('\"', Quoted(s, x), '\"', Quoted(t, y));
    StringSplits(s, t, x, y);
  }

  /** The first character of a printed value tells its kind. */
  predicate Starts(j: Json, c: char) {
    match j
    case JNull => c == 'n'
    case JBool(b) => c == if b then 't' else 'f'
    case JInt(n) => if n < 0 then c == '-' else IsDigit(c)
    case JStr(_) => c == '\"'
    case JArray(_) => c == '['
    case JObject(_) => c == '{'
  }

  lemma FirstChar(j: Json, x: string)
    ensures Print(j) != [] && (Print(j) + x)[0] == Print(j)[0] && Starts(j, Print(j)[0])
  {
    if j.JInt? { NatTextDigits(if j.n < 0 then -j.n else j.n); }
  }

  function Items(items: seq<Json>): string { if items == [] then "" else Print(items[0]) + PrintMore(items[1..]) }

  function Members(members: seq<Member>): string {
    if members == [] then "" else PrintMember(members[0]) + PrintMoreMembers(members[1..])
  }

  lemma MinusText(n: nat, x: string)
    ensures ("-" + NatText(n)) + x == ['-'] + (NatText(n) + x)
  {
  }

  lemma NegativeSplits(m: nat, n: nat, x: string, y: string)
    requires ("-" + NatText(m)) + x == ("-" + NatText(n)) + y && Ends(x) && Ends(y)
    ensures m == n && x == y
  {
    MinusText(m, x);
    MinusText(n, y);
    DropHead('-', NatText(m) + x, '-', NatText(n) + y);
    NatTextSplits(m, n, x, y);
  }

  lemma SignedSplits(m: int, n: int, p: string, q: string, x: string, y: string)
    requires p + x == q + y && p == IntText(m) && q == IntText(n) && Ends(x) && Ends(y) && (m < 0 <==> n < 0)
    ensures m == n && x == y
  {
    if m < 0 {
      NegativeSplits(-m, -n, x, y);
    } else {
      NatTextSplits(m, n, x, y);
    }
  }

  /** Distinct words are told apart by their first character. */
  lemma WordSplits(v: Json, w: Json, x: string, y: string)
    requires (v.JNull? || v.JBool?) && Starts(w, Print(v)[0]) && Print(v) + x == Print(w) + y
    ensures v == w && x == y
  {
    assert v == w;
    CutEqual(Print(v), x, Print(w), y);
  }

  lemma AtomSplits(v: Json, w: Json, x: string, y: string)
    requires Print(v) + x == Print(w) + y && Ends(x) && Ends(y)
    requires v.JNull? || v.JBool? || v.JInt? || v.JStr?
    ensures v == w && x == y
  {
    FirstChar(v, x);
    FirstChar(w, y);
    match v
    case JInt(n) => SignedSplits(n, w.n, Print(v), Print(w), x, y);
    case JStr(s) => StringTextSplits(s, w.s, x, y);
    case _ => WordSplits(v, w, x, y);
  }

  lemma IntTextInjective(a: int, b: int)
    requires IntText(a) == IntText(b)
    ensures a == b
  {
    assert Print(JInt(a)) + "" == IntText(a) && Print(JInt(b)) + "" == IntText(b);
    AtomSplits(JInt(a), JInt(b), "", "");
  }

  lemma ArrayText(items: seq<Json>, x: string)
    ensures Print(JArray(items)) + x == ['['] + (Items(items) + ("]" + x))
  {
    assert Print(JArray(items)) == "[" + Items(items) + "]";
  }

  lemma ObjectText(members: seq<Member>, x: string)
    ensures Print(JObject(members)) + x == ['{'] + (Members(members) + ("}" + x))
  {
    assert Print(JObject(members)) == "{" + Members(members) + "}";
  }

  /** Read from the left, a printed value ends in exactly one way: two values printed before texts that
      cannot extend them are equal, and so are the texts. */
  lemma {:induction false} PrintSplits(v: Json, w: Json, x: string, y: string)
    requires Print(v) + x == Print(w) + y && Ends(x) && Ends(y)
    ensures v == w && x == y
    decreases v, 1
  {
    FirstChar(v, x);
    FirstChar(w, y);
    match v
    case JArray(items) =>
      ArrayText(items, x);
      ArrayText(w.items, y);
      DropHead('[', Items(items) + ("]" + x), '[', Items(w.items) + ("]" + y));
      ArraySplits(items, w.items, x, y);
    case JObject(members) =>
      ObjectText(members, x);
      ObjectText(w.members, y);
      DropHead('{', Members(members) + ("}" + x), '{', Members(w.members) + ("}" + y));
      ObjectSplits(members, w.members, x, y);
    case _ => AtomSplits(v, w, x, y);
  }

  /** The items up to the closing bracket: an empty list shows it at once, another one its first item. */
  lemma ItemsText(a: seq<Json>, x: string)
    ensures var text := Items(a) + ("]" + x);
      && text != [] && (a == [] <==> text[0] == ']')
      && text == (if a == [] then [']'] + x else Print(a[0]) + (PrintMore(a[1..]) + ("]" + x)))
  {
    if a != [] {
      FirstChar(a[0], PrintMore(a[1..]) + ("]" + x));
      Reassociate(Print(a[0]), PrintMore(a[1..]), "]" + x);
    }
  }

  lemma {:induction false} ArraySplits(a: seq<Json>, b: seq<Json>, x: string, y: string)
    requires Items(a) + ("]" + x) == Items(b) + ("]" + y)
    ensures a == b && x == y
    decreases a, 2
  {
    ItemsText(a, x);
    ItemsText(b, y);
    if a != [] && b != [] {
      PrintSplits(a[0], b[0], PrintMore(a[1..]) + ("]" + x), PrintMore(b[1..]) + ("]" + y));
      MoreSplits(a[1..], b[1..], x, y);
      assert a == [a[0]] + a[1..] && b == [b[0]] + b[1..];
    } else {
      assert a == [] && b == [];
      DropHead(']', x, ']', y);
    }
  }

  lemma {:induction false} MoreSplits(a: seq<Json>, b: seq<Json>, x: string, y: string)
    requires PrintMore(a) + ("]" + x) == PrintMore(b) + ("]" + y)
    ensures a == b && x == y
    decreases a, 0
  {
    assert (PrintMore(a) + ("]" + x))[0] == if a == [] then ']' else ',';
    assert (PrintMore(b) + ("]" + y))[0] == if b == [] then ']' else ',';
    if a != [] {
      var restA, restB := PrintMore(a[1..]) + ("]" + x), PrintMore(b[1..]) + ("]" + y);
      assert PrintMore(a) + ("]" + x) == [','] + (Print(a[0]) + restA);
      assert PrintMore(b) + ("]" + y) == [','] + (Print(b[0]) + restB);
      DropHead(',', Print(a[0]) + restA, ',', Print(b[0]) + restB);
      PrintSplits(a[0], b[0], restA, restB);
      MoreSplits(a[1..], b[1..], x, y);
      assert a == [a[0]] + a[1..] && b == [b[0]] + b[1..];
    } else {
      assert PrintMore(a) + ("]" + x) == [']'] + x && PrintMore(b) + ("]" + y) == [']'] + y;
      DropHead(']', x, ']', y);
    }
  }

  lemma MemberText(m: Member, x: string)
    ensures PrintMember(m) + x == StringText(m.key) + ([':'] + (Print(m.value) + x))
    ensures (PrintMember(m) + x)[0] == '\"'
  {
  }

  lemma {:induction false} MemberSplits(m: Member, n: Member, x: string, y: string)
    requires PrintMember(m) + x == PrintMember(n) + y && Ends(x) && Ends(y)
    ensures m == n && x == y
    decreases m, 2
  {
    MemberText(m, x);
    MemberText(n, y);
    StringTextSplits(m.key, n.key, [':'] + (Print(m.value) + x), [':'] + (Print(n.value) + y));
    DropHead(':', Print(m.value) + x, ':', Print(n.value) + y);
    PrintSplits(m.value, n.value, x, y);
  }

  lemma {:induction false} ObjectSplits(a: seq<Member>, b: seq<Member>, x: string, y: string)
    requires Members(a) + ("}" + x) == Members(b) + ("}" + y)
    ensures a == b && x == y
    decreases a, 2
  {
    if a != [] {
      MemberText(a[0], PrintMoreMembers(a[1..]) + ("}" + x));
      Reassociate(PrintMember(a[0]), PrintMoreMembers(a[1..]), "}" + x);
    }
    if b != [] {
      MemberText(b[0], PrintMoreMembers(b[1..]) + ("}" + y));
      Reassociate(PrintMember(b[0]), PrintMoreMembers(b[1..]), "}" + y);
    }
    if a != [] && b != [] {
      MemberSplits(a[0], b[0], PrintMoreMembers(a[1..]) + ("}" + x), PrintMoreMembers(b[1..]) + ("}" + y));
      MoreMembersSplits(a[1..], b[1..], x, y);
      assert a == [a[0]] + a[1..] && b == [b[0]] + b[1..];
    } else {
      assert (Members(a) + ("}" + x))[0] == (Members(b) + ("}" + y))[0];
      assert Members(a) + ("}" + x) == ['}'] + x && Members(b) + ("}" + y) == ['}'] + y;
      DropHead('}', x, '}', y);
    }
  }

  lemma MoreMembersText(a: seq<Member>, x: string)
    ensures a == [] ==> PrintMoreMembers(a) + ("}" + x) == ['}'] + x
    ensures a != [] ==>
      PrintMoreMembers(a) + ("}" + x) == [','] + (PrintMember(a[0]) + (PrintMoreMembers(a[1..]) + ("}" + x)))
  {
    if a != [] {
      assert PrintMoreMembers(a) == [','] + PrintMember(a[0]) + PrintMoreMembers(a[1..]);
      Reassociate([','] + PrintMember(a[0]), PrintMoreMembers(a[1..]), "}" + x);
      Reassociate([','], PrintMember(a[0]), PrintMoreMembers(a[1..]) + ("}" + x));
    }
  }

  lemma {:induction false} MoreMembersSplits(a: seq<Member>, b: seq<Member>, x: string, y: string)
    requires PrintMoreMembers(a) + ("}" + x) == PrintMoreMembers(b) + ("}" + y)
    ensures a == b && x == y
    decreases a, 0
  {
    MoreMembersText(a, x);
    MoreMembersText(b, y);
    assert (PrintMoreMembers(a) + ("}" + x))[0] == (PrintMoreMembers(b) + ("}" + y))[0];
    if a != [] {
      var restA, restB := PrintMoreMembers(a[1..]) + ("}" + x), PrintMoreMembers(b[1..]) + ("}" + y);
      DropHead(',', PrintMember(a[0]) + restA, ',', PrintMember(b[0]) + restB);
      MemberSplits(a[0], b[0], restA, restB);
      MoreMembersSplits(a[1..], b[1..], x, y);
      assert a == [a[0]] + a[1..] && b == [b[0]] + b[1..];
    } else {
      DropHead('}', x, '}', y);
    }
  }

  /** Two values have the same canonical text exactly when they are the same document up to key order
      and list or tuple shape. */
  lemma DocumentInjective(u: Value, v: Value)
    ensures CanonicalDocument(u) == CanonicalDocument(v) <==> Canon(u) == Canon(v)
  {
    PlainKeepsCanon(u);
    PlainKeepsCanon(v);
    if CanonicalDocument(u) == CanonicalDocument(v) {
      assert Print(Canon(u)) + "" == Print(Canon(u)) && Print(Canon(v)) + "" == Print(Canon(v));
      PrintSplits(Canon(u), Canon(v), "", "");
    }
  }

  // ---------------------------------------------------------------- key order

  lemma {:induction false} CanonFieldsAt(fields: seq<Field>, i: nat)
    requires i < |fields|
    ensures |CanonFields(fields)| == |fields|
    ensures CanonFields(fields)[i] == Member(fields[i].key, Canon(fields[i].value))
    decreases |fields|
  {
    if i > 0 { CanonFieldsAt(fields[1..], i - 1); }
    else if |fields| > 1 { CanonFieldsAt(fields[1..], 0); }
  }

  ghost predicate DistinctKeys(fields: seq<Field>) {
    forall i, j :: 0 <= i < j < |fields| ==> fields[i].key != fields[j].key
  }

  lemma KeysOrderMembers(fields: seq<Field>)
    requires DistinctKeys(fields)
    ensures NoRepeats(CanonFields(fields)) && Orders(KeyLess, CanonFields(fields))
  {
    var ms := CanonFields(fields);
    forall i | 0 <= i < |ms| ensures i < |fields| && ms[i].key == fields[i].key {
      if fields != [] { CanonFieldsAt(fields, 0); }
      CanonFieldsAt(fields, i);
    }
    forall a, b | a in ms && b in ms ensures a == b || KeyLess(a, b) || KeyLess(b, a) {
      StringTotal(a.key, b.key);
    }
    forall a, b | a in ms && b in ms && KeyLess(a, b) ensures !KeyLess(b, a) {
      StringAsymmetric(a.key, b.key);
    }
    forall a, b, c | a in ms && b in ms && c in ms && KeyLess(a, b) && KeyLess(b, c) ensures KeyLess(a, c) {
      StringTransitive(a.key, b.key, c.key);
    }
  }

  lemma EqualSortsSameMembers(a: seq<Member>, b: seq<Member>)
    requires Sort(a, KeyLess) == Sort(b, KeyLess)
    ensures forall m :: m in a <==> m in b
  {
    forall m ensures m in a <==> m in b {
      SortContents(a, KeyLess);
      SortContents(b, KeyLess);
      assert m in a <==> m in Sort(a, KeyLess);
    }
  }

  ghost predicate SameMembers(f: seq<Field>, g: seq<Field>) {
    forall m :: m in CanonFields(f) <==> m in CanonFields(g)
  }

  /** Mappings print equally exactly when they bind the same keys to documents that print equally,
      however their keys were inserted. */
  lemma MappingsAgree(f: seq<Field>, g: seq<Field>)
    requires DistinctKeys(f) && DistinctKeys(g)
    ensures CanonicalDocument(Dict(f)) == CanonicalDocument(Dict(g)) <==> SameMembers(f, g)
  {
    DocumentInjective(Dict(f), Dict(g));
    if Sort(CanonFields(f), KeyLess) == Sort(CanonFields(g), KeyLess) {
      EqualSortsSameMembers(CanonFields(f), CanonFields(g));
    }
    if SameMembers(f, g) {
      KeysOrderMembers(f);
      KeysOrderMembers(g);
      SortForgetsOrder(CanonFields(f), CanonFields(g), KeyLess);
    }
  }
}
