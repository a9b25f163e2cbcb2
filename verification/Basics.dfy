/** Small shared datatypes and the few facts about finite sums that several stores need. */
module Basics {

  datatype Option<+T> = None | Some(value: T)

  datatype Result<+T, +E> = Ok(value: T) | Err(error: E)

  function Max(a: int, b: int): int { if a < b then b else a }

  function Min(a: int, b: int): int { if a < b then a else b }

  /** Texts one after another. */
  function Concat(parts: seq<string>): string { if parts == [] then "" else parts[0] + Concat(parts[1..]) }

  /** The sum of `f` over a finite set. */
  ghost function SumOver<K(!new)>(s: set<K>, f: K -> nat): nat
  {
    if s == {} then 0 else var k :| k in s; f(k) + SumOver(s - {k}, f)
  }

  /** Any element may be taken out of the sum first. */
  lemma {:induction false} SumOverRemove<K(!new)>(s: set<K>, f: K -> nat, x: K)
    requires x in s
    ensures SumOver(s, f) == f(x) + SumOver(s - {x}, f)
    decreases s
  {
    var k :| k in s && SumOver(s, f) == f(k) + SumOver(s - {k}, f);
    if k != x {
      SumOverRemove(s - {k}, f, x);
      SumOverRemove(s - {x}, f, k);
      assert s - {k} - {x} == s - {x} - {k};
    }
  }

  lemma {:induction false} SumOverSame<K(!new)>(s: set<K>, f: K -> nat, g: K -> nat)
    requires forall k :: k in s ==> f(k) == g(k)
    ensures SumOver(s, f) == SumOver(s, g)
    decreases s
  {
    if s != {} {
      var k :| k in s;
      SumOverRemove(s, f, k);
      SumOverRemove(s, g, k);
      SumOverSame(s - {k}, f, g);
    }
  }

  /** If every term is at most `bound`, the sum is at most `bound` per element. */
  lemma {:induction false} SumOverBound<K(!new)>(s: set<K>, f: K -> nat, bound: nat)
    requires forall k :: k in s ==> f(k) <= bound
    ensures SumOver(s, f) <= |s| * bound
    decreases s
  {
    if s != {} {
      var k :| k in s;
      SumOverRemove(s, f, k);
      SumOverBound(s - {k}, f, bound);
      var n := |s - {k}|;
      assert |s| == n + 1;
      assert (n + 1) * bound == n * bound + bound;
    }
  }

  /** Changing one term moves the sum by the change of that term. */
  lemma {:induction false} SumOverUpdate<K(!new)>(s: set<K>, f: K -> nat, g: K -> nat, x: K)
    requires x in s && forall k :: k in s && k != x ==> f(k) == g(k)
    ensures SumOver(s, g) + f(x) == SumOver(s, f) + g(x)
  {
    SumOverRemove(s, f, x);
    SumOverRemove(s, g, x);
    SumOverSame(s - {x}, f, g);
  }
}
