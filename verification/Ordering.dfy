/** Python's `sorted`: stable insertion order by a strict comparison, and why its result does not
    depend on how the input was arranged. */
module Ordering {

  /** Strings compare by code point, left to right. */
  predicate StringLess(a: string, b: string) {
    b != [] && (a == [] || a[0] < b[0] || (a[0] == b[0] && StringLess(a[1..], b[1..])))
  }

  lemma {:induction false} StringTotal(a: string, b: string)
    ensures a == b || StringLess(a, b) || StringLess(b, a)
    decreases |a|
  {
    if a != [] && b != [] && a[0] == b[0] {
      StringTotal(a[1..], b[1..]);
      assert a == [a[0]] + a[1..] && b == [b[0]] + b[1..];
    }
  }

  lemma {:induction false} StringAsymmetric(a: string, b: string)
    requires StringLess(a, b)
    ensures !StringLess(b, a)
    decreases |a|
  {
    if a != [] && b != [] && a[0] == b[0] { StringAsymmetric(a[1..], b[1..]); }
  }

  lemma {:induction false} StringTransitive(a: string, b: string, c: string)
    requires StringLess(a, b) && StringLess(b, c)
    ensures StringLess(a, c)
    decreases |a|
  {
    if a != [] && a[0] == b[0] && b[0] == c[0] { StringTransitive(a[1..], b[1..], c[1..]); }
  }

  /** `a` is a proper beginning of `b`, or has the smaller character where they first differ. */
  ghost predicate Precedes(a: string, b: string) {
    exists k :: 0 <= k <= |a| && k <= |b| && a[..k] == b[..k] && k < |b| && (k == |a| || a[k] < b[k])
  }

  lemma {:induction false} StringLessExactly(a: string, b: string)
    ensures StringLess(a, b) <==> Precedes(a, b)
    decreases |a|
  {
    if a != [] && b != [] && a[0] == b[0] {
      StringLessExactly(a[1..], b[1..]);
      if Precedes(a[1..], b[1..]) {
        var k :| 0 <= k <= |a[1..]| && k <= |b[1..]| && a[1..][..k] == b[1..][..k] && k < |b[1..]| && (k == |a[1..]| || a[1..][k] < b[1..][k]);
        PrecedesCons(a, b, k);
      }
      if Precedes(a, b) {
        var k :| 0 <= k <= |a| && k <= |b| && a[..k] == b[..k] && k < |b| && (k == |a| || a[k] < b[k]);
        PrecedesTail(a, b, k);
      }
    } else if StringLess(a, b) {
      assert a[..0] == b[..0];
    } else if Precedes(a, b) {
      PrecedesFirst(a, b);
    }
  }

  lemma PrecedesFirst(a: string, b: string)
    requires Precedes(a, b)
    ensures b != [] && (a == [] || a[0] <= b[0])
  {
    var k :| 0 <= k <= |a| && k <= |b| && a[..k] == b[..k] && k < |b| && (k == |a| || a[k] < b[k]);
    if k > 0 { assert a[0] == a[..k][0] && b[0] == b[..k][0]; }
  }

  lemma PrecedesCons(a: string, b: string, k: nat)
    requires a != [] && b != [] && a[0] == b[0] && k <= |a| - 1 && k < |b| - 1
    requires a[1..][..k] == b[1..][..k] && (k == |a| - 1 || a[1..][k] < b[1..][k])
    ensures Precedes(a, b)
  {
    assert a[..k + 1] == [a[0]] + a[1..][..k] && b[..k + 1] == [b[0]] + b[1..][..k];
  }

  lemma PrecedesTail(a: string, b: string, k: nat)
    requires a != [] && b != [] && a[0] == b[0] && k <= |a| && k < |b| && a[..k] == b[..k] && (k == |a| || a[k] < b[k])
    ensures Precedes(a[1..], b[1..])
  {
    assert k > 0;
    assert a[1..][..k - 1] == a[..k][1..] && b[1..][..k - 1] == b[..k][1..];
    assert k == |a| || a[1..][k - 1] < b[1..][k - 1];
  }

  // ---------------------------------------------------------------- sorting

  function Insert<T>(x: T, s: seq<T>, less: (T, T) -> bool): seq<T> {
    if s == [] then [x]
    else if less(s[0], x) then [s[0]] + Insert(x, s[1..], less)
    else [x] + s
  }

  function Sort<T>(s: seq<T>, less: (T, T) -> bool): seq<T> {
    if s == [] then [] else Insert(s[0], Sort(s[1..], less), less)
  }

  /** `less` orders the elements of `s` strictly and totally. */
  ghost predicate Orders<T>(less: (T, T) -> bool, s: seq<T>) {
    && (forall a, b :: a in s && b in s ==> a == b || less(a, b) || less(b, a))
    && (forall a, b :: a in s && b in s && less(a, b) ==> !less(b, a))
    && (forall a, b, c :: a in s && b in s && c in s && less(a, b) && less(b, c) ==> less(a, c))
  }

  ghost predicate Ascending<T>(s: seq<T>, less: (T, T) -> bool) {
    forall i, j :: 0 <= i < j < |s| ==> less(s[i], s[j])
  }

  ghost predicate NoRepeats<T>(s: seq<T>) {
    forall i, j :: 0 <= i < j < |s| ==> s[i] != s[j]
  }

  lemma {:induction false} InsertContents<T>(x: T, s: seq<T>, less: (T, T) -> bool)
    ensures |Insert(x, s, less)| == |s| + 1
    ensures multiset(Insert(x, s, less)) == multiset(s) + multiset{x}
    ensures forall e :: e in Insert(x, s, less) <==> e == x || e in s
    decreases |s|
  {
    if s != [] && less(s[0], x) {
      InsertContents(x, s[1..], less);
      assert s == [s[0]] + s[1..];
    }
    var r := Insert(x, s, less);
    assert multiset(r) == multiset(s) + multiset{x};
    forall e ensures e in r <==> e == x || e in s {
      assert e in r <==> e in multiset(r);
    }
  }

  lemma InsertMember<T>(x: T, s: seq<T>, less: (T, T) -> bool, e: T)
    ensures e in Insert(x, s, less) <==> e == x || e in s
  {
    InsertContents(x, s, less);
  }

  lemma {:induction false} SortContents<T>(s: seq<T>, less: (T, T) -> bool)
    ensures |Sort(s, less)| == |s|
    ensures multiset(Sort(s, less)) == multiset(s)
    ensures forall e :: e in Sort(s, less) <==> e in s
    decreases |s|
  {
    if s != [] {
      SortContents(s[1..], less);
      InsertContents(s[0], Sort(s[1..], less), less);
      assert s == [s[0]] + s[1..];
    }
  }

  lemma OrdersSameElements<T>(less: (T, T) -> bool, a: seq<T>, b: seq<T>)
    requires Orders(less, a) && forall e :: e in b ==> e in a
    ensures Orders(less, b)
  {
  }

  lemma HeadIsLeast<T>(s: seq<T>, less: (T, T) -> bool, e: T)
    requires s != [] && Ascending(s, less) && e in s
    ensures e == s[0] || less(s[0], e)
  {
    var k :| 0 <= k < |s| && s[k] == e;
  }

  lemma {:induction false} InsertAscends<T>(x: T, s: seq<T>, less: (T, T) -> bool)
    requires Orders(less, [x] + s) && x !in s && Ascending(s, less)
    ensures Ascending(Insert(x, s, less), less)
    decreases |s|
  {
    assert forall e :: e in [x] + s <==> e == x || e in s;
    if s != [] {
      if less(s[0], x) {
        forall e | e in [x] + s[1..] ensures e in [x] + s { assert e == x || e in s; }
        InsertAscends(x, s[1..], less);
        var tail := Insert(x, s[1..], less);
        forall j | 0 <= j < |tail| ensures less(s[0], tail[j]) {
          assert tail[j] in tail;
          InsertMember(x, s[1..], less, tail[j]);
          if tail[j] != x { TailIsAbove(s, less, tail[j]); }
        }
        ConsAscends(s[0], tail, less);
      } else {
        assert s[0] in s && less(x, s[0]);
        forall j | 0 <= j < |s| ensures less(x, s[j]) { assert s[j] in s; HeadIsLeast(s, less, s[j]); }
        ConsAscends(x, s, less);
      }
    }
  }

  lemma TailIsAbove<T>(s: seq<T>, less: (T, T) -> bool, e: T)
    requires s != [] && Ascending(s, less) && e in s[1..]
    ensures less(s[0], e)
  {
    var k :| 0 <= k < |s| - 1 && s[1..][k] == e;
    var j := k + 1;
    assert s[j] == e;
  }

  lemma ConsAscends<T>(x: T, s: seq<T>, less: (T, T) -> bool)
    requires Ascending(s, less) && forall j :: 0 <= j < |s| ==> less(x, s[j])
    ensures Ascending([x] + s, less)
  {
  }

  lemma {:induction false} SortAscends<T>(s: seq<T>, less: (T, T) -> bool)
    requires Orders(less, s) && NoRepeats(s)
    ensures Ascending(Sort(s, less), less)
    decreases |s|
  {
    if s != [] {
      var tail := s[1..];
      OrdersSameElements(less, s, tail);
      assert Ascending(Sort(tail, less), less) by { SortAscends(tail, less); }
      SortContents(tail, less);
      assert s[0] !in tail;
      OrdersSameElements(less, s, [s[0]] + Sort(tail, less));
      InsertAscends(s[0], Sort(tail, less), less);
    }
  }

  /** Two ascending sequences with the same elements are the same sequence. */
  lemma {:induction false} AscendingIsUnique<T>(a: seq<T>, b: seq<T>, less: (T, T) -> bool)
    requires Ascending(a, less) && Ascending(b, less)
    requires forall e :: e in a <==> e in b
    requires forall x, y :: x in a && y in a && less(x, y) ==> !less(y, x)
    ensures a == b
    decreases |a|
  {
    assert b != [] ==> b[0] in b;
    if a != [] {
      assert a[0] in a && a[0] in b;
      assert b != [] && b[0] in b && b[0] in a;
      HeadIsLeast(a, less, b[0]);
      HeadIsLeast(b, less, a[0]);
      forall e ensures e in a[1..] <==> e in b[1..] {
        TailMembers(a, less, e);
        TailMembers(b, less, e);
      }
      AscendingIsUnique(a[1..], b[1..], less);
      assert a == [a[0]] + a[1..] && b == [b[0]] + b[1..];
    }
  }

  lemma TailMembers<T>(a: seq<T>, less: (T, T) -> bool, e: T)
    requires a != [] && Ascending(a, less)
    requires forall x, y :: x in a && y in a && less(x, y) ==> !less(y, x)
    ensures e in a[1..] <==> e in a && e != a[0]
  {
    if e in a && e != a[0] {
      var i :| 0 <= i < |a| && a[i] == e;
      assert a[1..][i - 1] == e;
    }
    if e in a[1..] {
      var i :| 0 <= i < |a| - 1 && a[1..][i] == e;
      assert less(a[0], a[i + 1]);
    }
  }

  /** Sorting forgets how the elements were arranged. */
  lemma SortForgetsOrder<T>(a: seq<T>, b: seq<T>, less: (T, T) -> bool)
    requires NoRepeats(a) && NoRepeats(b) && Orders(less, a)
    requires forall e :: e in a <==> e in b
    ensures Sort(a, less) == Sort(b, less)
  {
    OrdersSameElements(less, a, b);
    assert Ascending(Sort(a, less), less) by { SortAscends(a, less); }
    assert Ascending(Sort(b, less), less) by { SortAscends(b, less); }
    SortContents(a, less);
    SortContents(b, less);
    AscendingIsUnique(Sort(a, less), Sort(b, less), less);
  }
}
