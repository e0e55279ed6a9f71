/** sort.Slice: some sorted permutation, and nothing more. */
module Sorting {
  ghost predicate SortedBy<T>(s: seq<T>, key: T -> int) {
    forall i, j :: 0 <= i < j < |s| ==> key(s[i]) <= key(s[j])
  }

  function Inserted<T>(s: seq<T>, x: T, key: T -> int): seq<T> {
    if s == [] || key(s[|s| - 1]) <= key(x) then s + [x]
    else Inserted(s[..|s| - 1], x, key) + [s[|s| - 1]]
  }

  lemma SortedSnoc<T>(s: seq<T>, x: T, key: T -> int)
    requires SortedBy(s, key) && forall y :: y in s ==> key(y) <= key(x)
    ensures SortedBy(s + [x], key)
  {
  }

  lemma SortedInit<T>(s: seq<T>, key: T -> int)
    requires SortedBy(s, key) && s != []
    ensures SortedBy(s[..|s| - 1], key) && forall y :: y in s ==> key(y) <= key(s[|s| - 1])
  {
    forall y | y in s ensures key(y) <= key(s[|s| - 1]) {
      var i :| 0 <= i < |s| && s[i] == y;
    }
  }

  lemma {:induction false} InsertedSorts<T>(s: seq<T>, x: T, key: T -> int)
    requires SortedBy(s, key)
    ensures SortedBy(Inserted(s, x, key), key)
    ensures multiset(Inserted(s, x, key)) == multiset(s) + multiset{x}
  {
    if s == [] {
    } else if key(s[|s| - 1]) <= key(x) {
      SortedInit(s, key);
      SortedSnoc(s, x, key);
    } else {
      var init, last := s[..|s| - 1], s[|s| - 1];
      assert s == init + [last];
      SortedInit(s, key);
      InsertedSorts(init, x, key);
      var r := Inserted(init, x, key);
      forall y | y in r ensures key(y) <= key(last) {
        assert y in multiset(r);
      }
      SortedSnoc(r, last, key);
    }
  }

  /** sort.Slice on a slice's backing array; nothing is promised about equal keys. */
  method SortSlice<T>(a: array<T>, key: T -> int)
    modifies a
    ensures SortedBy(a[..], key) && multiset(a[..]) == old(multiset(a[..]))
  {
    var sorted: seq<T> := [];
    for i := 0 to a.Length
      invariant a[..] == old(a[..])
      invariant SortedBy(sorted, key) && multiset(sorted) == multiset(a[..i])
    {
      InsertedSorts(sorted, a[i], key);
      sorted := Inserted(sorted, a[i], key);
      assert a[..i + 1] == a[..i] + [a[i]];
    }
    assert a[..a.Length] == a[..];
    SameSize(sorted, a[..]);
    forall i | 0 <= i < a.Length {
      a[i] := sorted[i];
    }
    assert a[..] == sorted;
  }

  lemma SameSize<T>(s: seq<T>, t: seq<T>)
    requires multiset(s) == multiset(t)
    ensures |s| == |t|
  {
    assert |s| == |multiset(s)| && |t| == |multiset(t)|;
  }
}
