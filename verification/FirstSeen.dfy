/** The order in which a Python dictionary lists keys that were inserted one after the other. */
module FirstSeen {

  /** The first occurrence of every element. */
  function Unique<T(==)>(s: seq<T>): seq<T> {
    if s == [] then []
    else
      var r := Unique(s[..|s| - 1]);
      if s[|s| - 1] in r then r else r + [s[|s| - 1]]
  }

  /** Nothing is lost and nothing is listed twice. */
  lemma {:induction false} UniqueMembers<T(!new)>(s: seq<T>)
    ensures forall x :: x in Unique(s) <==> x in s
    ensures forall i, j :: 0 <= i < j < |Unique(s)| ==> Unique(s)[i] != Unique(s)[j]
  {
    if s != [] {
      UniqueMembers(s[..|s| - 1]);
      assert forall x :: x in s <==> x in s[..|s| - 1] || x == s[|s| - 1];
    }
  }

  lemma UniqueAppend<T(!new)>(s: seq<T>, x: T)
    ensures Unique(s + [x]) == if x in s then Unique(s) else Unique(s) + [x]
  {
    assert (s + [x])[..|s|] == s;
    UniqueMembers(s);
  }

  function ToSet<T(!new)>(s: seq<T>): set<T> {
    set x | x in s
  }

  /** A list without repetitions is as long as the set of its elements is large. */
  lemma {:induction false} DistinctSize<T(!new)>(s: seq<T>)
    requires forall i, j :: 0 <= i < j < |s| ==> s[i] != s[j]
    ensures |ToSet(s)| == |s|
  {
    if s != [] {
      var front, last := s[..|s| - 1], s[|s| - 1];
      DistinctSize(front);
      assert last !in front;
      assert ToSet(s) == ToSet(front) + {last};
    }
  }
}
