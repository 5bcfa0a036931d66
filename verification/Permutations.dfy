/** What sums and selections keep when a list is reordered. */
module Permutations {
  import opened StableSort

  function SumBy<T>(s: seq<T>, f: T -> nat): nat {
    if s == [] then 0 else f(s[0]) + SumBy(s[1..], f)
  }

  lemma {:induction false} SumBySplit<T>(a: seq<T>, b: seq<T>, f: T -> nat)
    ensures SumBy(a + b, f) == SumBy(a, f) + SumBy(b, f)
  {
    if a == [] {
      assert a + b == b;
    } else {
      SumBySplit(a[1..], b, f);
      assert (a + b)[1..] == a[1..] + b;
    }
  }

  lemma SumByCons<T>(x: T, s: seq<T>, f: T -> nat)
    ensures SumBy([x] + s, f) == f(x) + SumBy(s, f)
  {
    assert ([x] + s)[1..] == s;
  }

  lemma SumByRemove<T>(s: seq<T>, i: nat, f: T -> nat)
    requires i < |s|
    ensures SumBy(s, f) == f(s[i]) + SumBy(s[..i] + s[i + 1..], f)
    ensures multiset(s) == multiset{s[i]} + multiset(s[..i] + s[i + 1..])
  {
    hide SumBy;
    assert s == s[..i] + ([s[i]] + s[i + 1..]);
    SumBySplit(s[..i], [s[i]] + s[i + 1..], f);
    SumBySplit(s[..i], s[i + 1..], f);
    SumByCons(s[i], s[i + 1..], f);
  }

  lemma Cancel<T(!new)>(a: multiset<T>, b: multiset<T>, x: T)
    requires multiset{x} + a == multiset{x} + b
    ensures a == b
  {
    forall y ensures a[y] == b[y] {
      assert (multiset{x} + a)[y] == (multiset{x} + b)[y];
    }
  }

  lemma IndexOf<T>(s: seq<T>, x: T) returns (i: nat)
    requires x in multiset(s)
    ensures i < |s| && s[i] == x
  {
    i :| 0 <= i < |s| && s[i] == x;
  }

  /** A sum does not depend on the order of its terms. */
  lemma {:induction false} SumByPermutes<T(!new)>(a: seq<T>, b: seq<T>, f: T -> nat)
    requires multiset(a) == multiset(b)
    ensures SumBy(a, f) == SumBy(b, f)
    decreases |a|
  {
    if a == [] {
      assert |b| == |multiset(b)| == 0;
    } else {
      hide SumBy;
      var x := a[0];
      assert x in multiset(a);
      var i := IndexOf(b, x);
      var rest, fewer := a[..0] + a[1..], b[..i] + b[i + 1..];
      SumByRemove(a, 0, f);
      SumByRemove(b, i, f);
      assert multiset{x} + multiset(rest) == multiset{x} + multiset(fewer);
      Cancel(multiset(rest), multiset(fewer), x);
      SumByPermutes(rest, fewer, f);
    }
  }

  lemma {:induction false} SelectCount<T(!new)>(s: seq<T>, p: T -> bool, x: T)
    ensures multiset(Select(s, p))[x] == if p(x) then multiset(s)[x] else 0
  {
    if s != [] {
      SelectCount(s[1..], p, x);
      assert s == [s[0]] + s[1..];
    }
  }

  /** Which elements satisfy a condition does not depend on their order. */
  lemma SelectPermutes<T(!new)>(s: seq<T>, t: seq<T>, p: T -> bool)
    requires multiset(s) == multiset(t)
    ensures multiset(Select(s, p)) == multiset(Select(t, p))
    ensures |Select(s, p)| == |Select(t, p)|
  {
    forall x ensures multiset(Select(s, p))[x] == multiset(Select(t, p))[x] {
      SelectCount(s, p, x);
      SelectCount(t, p, x);
    }
    assert |Select(s, p)| == |multiset(Select(s, p))| && |Select(t, p)| == |multiset(Select(t, p))|;
  }
}
