/**
 The stable sort that `list.sort`, `sorted` and JavaScript's `Array.prototype.sort` promise:
 the result is ordered by key and elements with equal keys keep their order.

 `Sort` is one such sort; `SortIsUnique` shows that any other list meeting the promise is the
 same list, so nothing below depends on the insertion algorithm used here.
 */
module StableSort {

  ghost predicate Sorted<T(!new)>(s: seq<T>, key: T -> int) {
    forall i, j :: 0 <= i < j < |s| ==> key(s[i]) <= key(s[j])
  }

  /** The elements of `s` that have key `k`, in order. */
  function WithKey<T>(s: seq<T>, key: T -> int, k: int): seq<T> {
    if s == [] then []
    else if key(s[0]) == k then [s[0]] + WithKey(s[1..], key, k)
    else WithKey(s[1..], key, k)
  }

  /** The elements of `s` that satisfy `p`, in order. */
  function Select<T(!new)>(s: seq<T>, p: T -> bool): (r: seq<T>)
    ensures forall x :: x in r <==> x in s && p(x)
  {
    if s == [] then []
    else if p(s[0]) then [s[0]] + Select(s[1..], p)
    else Select(s[1..], p)
  }

  /** `x` goes behind every element of `s` whose key is not larger. */
  function Insert<T>(x: T, s: seq<T>, key: T -> int): seq<T> {
    if s == [] then [x]
    else if key(x) < key(s[0]) then [x] + s
    else [s[0]] + Insert(x, s[1..], key)
  }

  function Sort<T>(s: seq<T>, key: T -> int): seq<T> {
    if s == [] then [] else Insert(s[|s| - 1], Sort(s[..|s| - 1], key), key)
  }

  // ----- one-step unfoldings

  lemma WithKeyCons<T>(x: T, s: seq<T>, key: T -> int, k: int)
    ensures WithKey([x] + s, key, k) == if key(x) == k then [x] + WithKey(s, key, k) else WithKey(s, key, k)
  {
    assert ([x] + s)[1..] == s;
  }

  lemma SelectCons<T(!new)>(x: T, s: seq<T>, p: T -> bool)
    ensures Select([x] + s, p) == if p(x) then [x] + Select(s, p) else Select(s, p)
  {
    assert ([x] + s)[1..] == s;
  }

  lemma InsertCons<T>(x: T, h: T, t: seq<T>, key: T -> int)
    ensures Insert(x, [h] + t, key) == if key(x) < key(h) then [x] + ([h] + t) else [h] + Insert(x, t, key)
  {
    assert ([h] + t)[1..] == t;
  }

  lemma SortAppend<T>(s: seq<T>, x: T, key: T -> int)
    ensures Sort(s + [x], key) == Insert(x, Sort(s, key), key)
  {
    assert (s + [x])[..|s|] == s;
  }

  lemma SortedCons<T(!new)>(h: T, t: seq<T>, key: T -> int)
    ensures Sorted([h] + t, key) <==> Sorted(t, key) && forall y :: y in t ==> key(h) <= key(y)
  {
    var s := [h] + t;
    assert forall i :: 0 <= i < |t| ==> t[i] == s[i + 1];
    if Sorted(s, key) {
      forall y | y in t ensures key(h) <= key(y) {
        var i :| 0 <= i < |t| && t[i] == y;
        assert key(s[0]) <= key(s[i + 1]);
      }
    }
  }

  // ----- Sort keeps its promise

  lemma {:induction false} InsertPermutes<T>(x: T, s: seq<T>, key: T -> int)
    ensures multiset(Insert(x, s, key)) == multiset(s) + multiset{x}
  {
    if s != [] {
      InsertPermutes(x, s[1..], key);
      assert s == [s[0]] + s[1..];
    }
  }

  /** Sorting neither loses nor invents an element. */
  lemma {:induction false} SortPermutes<T>(s: seq<T>, key: T -> int)
    ensures multiset(Sort(s, key)) == multiset(s)
    ensures |Sort(s, key)| == |s|
  {
    if s != [] {
      SortPermutes(s[..|s| - 1], key);
      InsertPermutes(s[|s| - 1], Sort(s[..|s| - 1], key), key);
      assert s == s[..|s| - 1] + [s[|s| - 1]];
    }
    assert |Sort(s, key)| == |multiset(Sort(s, key))|;
  }

  lemma SortMembers<T(!new)>(s: seq<T>, key: T -> int)
    ensures forall x :: x in Sort(s, key) <==> x in s
  {
    SortPermutes(s, key);
    forall x ensures x in Sort(s, key) <==> x in s {
      assert x in multiset(Sort(s, key)) <==> x in multiset(s);
    }
  }

  lemma {:induction false} InsertSorted<T(!new)>(x: T, s: seq<T>, key: T -> int)
    requires Sorted(s, key)
    ensures Sorted(Insert(x, s, key), key)
  {
    if s == [] {
    } else {
      hide Insert, Sorted;
      var h, t := s[0], s[1..];
      assert s == [h] + t;
      InsertCons(x, h, t, key);
      SortedCons(h, t, key);
      SortedCons(x, s, key);
      InsertSorted(x, t, key);
      SortedCons(h, Insert(x, t, key), key);
      InsertPermutes(x, t, key);
      forall y | y in Insert(x, t, key) ensures y == x || y in t {
        assert y in multiset(Insert(x, t, key));
      }
    }
  }

  lemma {:induction false} SortSorted<T(!new)>(s: seq<T>, key: T -> int)
    ensures Sorted(Sort(s, key), key)
  {
    if s != [] {
      SortSorted(s[..|s| - 1], key);
      InsertSorted(s[|s| - 1], Sort(s[..|s| - 1], key), key);
    }
  }

  lemma {:induction false} WithKeyAppend<T>(a: seq<T>, x: T, key: T -> int, k: int)
    ensures WithKey(a + [x], key, k) == if key(x) == k then WithKey(a, key, k) + [x] else WithKey(a, key, k)
  {
    WithKeyCons(x, [], key, k);
    if a == [] {
      assert a + [x] == [x] + [];
    } else {
      hide WithKey;
      var h, t := a[0], a[1..];
      assert a == [h] + t;
      assert a + [x] == [h] + (t + [x]);
      WithKeyAppend(t, x, key, k);
      WithKeyCons(h, t, key, k);
      WithKeyCons(h, t + [x], key, k);
    }
  }

  lemma {:induction false} WithKeyAbove<T(!new)>(s: seq<T>, key: T -> int, k: int)
    requires forall y :: y in s ==> k < key(y)
    ensures WithKey(s, key, k) == []
  {
    if s != [] {
      assert s[0] in s;
      WithKeyAbove(s[1..], key, k);
    }
  }

  lemma {:induction false} InsertStable<T(!new)>(x: T, s: seq<T>, key: T -> int, k: int)
    requires Sorted(s, key)
    ensures WithKey(Insert(x, s, key), key, k) == if key(x) == k then WithKey(s, key, k) + [x] else WithKey(s, key, k)
  {
    if s == [] {
      WithKeyCons(x, [], key, k);
      assert [x] + [] == [x];
    } else {
      hide Insert, WithKey, Sorted;
      var h, t := s[0], s[1..];
      assert s == [h] + t;
      SortedCons(h, t, key);
      InsertCons(x, h, t, key);
      WithKeyCons(h, t, key, k);
      if key(x) < key(h) {
        WithKeyCons(x, s, key, k);
        if key(x) == k {
          WithKeyAbove(s, key, k);
        }
      } else {
        InsertStable(x, t, key, k);
        WithKeyCons(h, Insert(x, t, key), key, k);
        if key(x) == k && key(h) == k {
          assert [h] + (WithKey(t, key, k) + [x]) == [h] + WithKey(t, key, k) + [x];
        }
      }
    }
  }

  /** Elements with equal keys keep their order. */
  lemma {:induction false} SortStable<T(!new)>(s: seq<T>, key: T -> int, k: int)
    ensures WithKey(Sort(s, key), key, k) == WithKey(s, key, k)
  {
    if s != [] {
      hide Sort, WithKey, Sorted;
      var front, last := s[..|s| - 1], s[|s| - 1];
      assert s == front + [last];
      SortStable(front, key, k);
      SortSorted(front, key);
      SortAppend(front, last, key);
      InsertStable(last, Sort(front, key), key, k);
      WithKeyAppend(front, last, key, k);
    }
  }

  lemma {:induction false} WithKeyMember<T(!new)>(s: seq<T>, key: T -> int, k: int)
    ensures forall x :: x in WithKey(s, key, k) <==> x in s && key(x) == k
  {
    if s != [] {
      WithKeyMember(s[1..], key, k);
      assert forall x :: x in s <==> x == s[0] || x in s[1..];
    }
  }

  lemma HeadIsFirstOfItsKey<T(!new)>(a: seq<T>, b: seq<T>, key: T -> int)
    requires Sorted(b, key) && a != [] && b != []
    requires WithKey(a, key, key(a[0])) == WithKey(b, key, key(a[0]))
    ensures key(b[0]) <= key(a[0])
    ensures key(b[0]) == key(a[0]) ==> a[0] == b[0]
  {
    var k := key(a[0]);
    assert WithKey(a, key, k)[0] == a[0];
    WithKeyMember(b, key, k);
    assert a[0] in WithKey(b, key, k);
    if key(b[0]) == k {
      assert WithKey(b, key, k)[0] == b[0];
    }
  }

  lemma WithKeyTail<T(!new)>(a: seq<T>, b: seq<T>, key: T -> int, k: int)
    requires a != [] && b != [] && a[0] == b[0]
    requires WithKey(a, key, k) == WithKey(b, key, k)
    ensures WithKey(a[1..], key, k) == WithKey(b[1..], key, k)
  {
    if key(a[0]) == k {
      assert WithKey(a, key, k)[1..] == WithKey(a[1..], key, k);
      assert WithKey(b, key, k)[1..] == WithKey(b[1..], key, k);
    }
  }

  lemma EmptyHasNoKeys<T(!new)>(b: seq<T>, key: T -> int)
    requires forall k :: WithKey([], key, k) == WithKey(b, key, k)
    ensures b == []
  {
    if b != [] {
      assert WithKey(b, key, key(b[0])) == [];
    }
  }

  /** A sorted list is determined by the order it gives to each group of equal keys. */
  lemma {:induction false} SortIsUnique<T(!new)>(a: seq<T>, b: seq<T>, key: T -> int)
    requires Sorted(a, key) && Sorted(b, key)
    requires forall k :: WithKey(a, key, k) == WithKey(b, key, k)
    ensures a == b
  {
    if a == [] {
      EmptyHasNoKeys(b, key);
    } else if b == [] {
      EmptyHasNoKeys(a, key);
    } else {
      HeadIsFirstOfItsKey(a, b, key);
      HeadIsFirstOfItsKey(b, a, key);
      forall k ensures WithKey(a[1..], key, k) == WithKey(b[1..], key, k) {
        WithKeyTail(a, b, key, k);
      }
      hide WithKey;
      SortIsUnique(a[1..], b[1..], key);
      assert a == [a[0]] + a[1..] && b == [b[0]] + b[1..];
    }
  }

  // ----- sorting and filtering

  lemma {:induction false} SelectAppend<T(!new)>(a: seq<T>, x: T, p: T -> bool)
    ensures Select(a + [x], p) == if p(x) then Select(a, p) + [x] else Select(a, p)
  {
    SelectCons(x, [], p);
    if a == [] {
      assert a + [x] == [x] + [];
    } else {
      hide Select;
      var h, t := a[0], a[1..];
      assert a == [h] + t;
      assert a + [x] == [h] + (t + [x]);
      SelectAppend(t, x, p);
      SelectCons(h, t, p);
      SelectCons(h, t + [x], p);
    }
  }

  lemma {:induction false} InsertBelow<T(!new)>(x: T, s: seq<T>, key: T -> int)
    requires forall y :: y in s ==> key(x) < key(y)
    ensures Insert(x, s, key) == [x] + s
  {
    if s != [] {
      assert s[0] in s;
    }
  }

  lemma {:induction false} SelectInsert<T(!new)>(x: T, s: seq<T>, p: T -> bool, key: T -> int)
    requires Sorted(s, key)
    ensures Select(Insert(x, s, key), p) == if p(x) then Insert(x, Select(s, p), key) else Select(s, p)
  {
    if s == [] {
      SelectCons(x, [], p);
      assert [x] + [] == [x];
    } else {
      hide Insert, Select, Sorted;
      var h, t := s[0], s[1..];
      assert s == [h] + t;
      SortedCons(h, t, key);
      InsertCons(x, h, t, key);
      SelectCons(h, t, p);
      if key(x) < key(h) {
        SelectCons(x, s, p);
        InsertBelow(x, Select(s, p), key);
      } else {
        SelectInsert(x, t, p, key);
        SelectCons(h, Insert(x, t, key), p);
        InsertCons(x, h, Select(t, p), key);
      }
    }
  }

  /** Dropping elements before or after sorting makes no difference. */
  lemma {:induction false} SelectSort<T(!new)>(s: seq<T>, p: T -> bool, key: T -> int)
    ensures Select(Sort(s, key), p) == Sort(Select(s, p), key)
  {
    if s != [] {
      hide Sort, Select, Sorted, Insert;
      var front, last := s[..|s| - 1], s[|s| - 1];
      assert s == front + [last];
      SelectSort(front, p, key);
      SelectAppend(front, last, p);
      SortAppend(front, last, key);
      SortSorted(front, key);
      SelectInsert(last, Sort(front, key), p, key);
      if p(last) {
        SortAppend(Select(front, p), last, key);
      }
    }
  }

  lemma {:induction false} InsertAtEnd<T(!new)>(x: T, s: seq<T>, key: T -> int)
    requires forall y :: y in s ==> key(y) <= key(x)
    ensures Insert(x, s, key) == s + [x]
  {
    if s != [] {
      assert s[0] in s;
      InsertAtEnd(x, s[1..], key);
    }
  }

  lemma {:induction false} SortOfSorted<T(!new)>(s: seq<T>, key: T -> int)
    requires Sorted(s, key)
    ensures Sort(s, key) == s
  {
    if s != [] {
      SortOfSorted(s[..|s| - 1], key);
      InsertAtEnd(s[|s| - 1], s[..|s| - 1], key);
    }
  }
}
