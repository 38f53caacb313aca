/** The stable sort of a library, as insertion: what the sorts of keys, rows and entries share. */
module Sorting {
  import opened Collections

  // Place x after every element it is not below: one step of a stable sort.
  function Place<T>(less: (T, T) -> bool, s: seq<T>, x: T): (r: seq<T>)
    ensures multiset(r) == multiset(s) + multiset{x}
  {
    if s == [] || !less(x, s[|s| - 1]) then s + [x]
    else
      var r := Place(less, s[..|s| - 1], x) + [s[|s| - 1]];
      assert s == s[..|s| - 1] + [s[|s| - 1]];
      r
  }

  function StableSort<T>(less: (T, T) -> bool, s: seq<T>): (r: seq<T>)
    ensures multiset(r) == multiset(s)
  {
    if s == [] then []
    else
      assert s == s[..|s| - 1] + [s[|s| - 1]];
      Place(less, StableSort(less, s[..|s| - 1]), s[|s| - 1])
  }

  ghost predicate Sorted<T>(less: (T, T) -> bool, s: seq<T>) {
    forall i, j :: 0 <= i < j < |s| ==> !less(s[j], s[i])
  }

  // Elements may tie, and ties are transitive.
  ghost predicate WeakOrder<T(!new)>(less: (T, T) -> bool) {
    && (forall x, y :: less(x, y) ==> !less(y, x))
    && (forall x, y, z :: !less(x, y) && !less(y, z) ==> !less(x, z))
  }

  // Placing puts x in at one point, past only elements that x is below.
  lemma {:induction false} PlaceSplits<T>(less: (T, T) -> bool, s: seq<T>, x: T) returns (p: seq<T>, q: seq<T>)
    ensures s == p + q && Place(less, s, x) == p + [x] + q
    ensures forall y :: y in q ==> less(x, y)
  {
    p, q := s, [];
    if s != [] && less(x, s[|s| - 1]) {
      var front, last := s[..|s| - 1], [s[|s| - 1]];
      p, q := PlaceSplits(less, front, x);
      Regroup(p + [x], q, last);
      Regroup(p, q, last);
      q := q + last;
    }
  }

  lemma PlacedIsAbove<T>(less: (T, T) -> bool, s: seq<T>, x: T, top: T)
    requires !less(top, x) && forall y :: y in s ==> !less(top, y)
    ensures forall y :: y in Place(less, s, x) ==> !less(top, y)
  {
    var r := Place(less, s, x);
    forall y | y in r ensures !less(top, y) {
      assert y in multiset(r);
      assert y in multiset(s) || y == x;
    }
  }

  lemma {:induction false} PlaceSorts<T(!new)>(less: (T, T) -> bool, s: seq<T>, x: T)
    requires WeakOrder(less) && Sorted(less, s)
    ensures Sorted(less, Place(less, s, x))
  {
    if s != [] && less(x, s[|s| - 1]) {
      PlaceSorts(less, s[..|s| - 1], x);
      PlacedIsAbove(less, s[..|s| - 1], x, s[|s| - 1]);
    }
  }

  lemma {:induction false} SortSorts<T(!new)>(less: (T, T) -> bool, s: seq<T>)
    requires WeakOrder(less)
    ensures Sorted(less, StableSort(less, s))
  {
    if s != [] {
      SortSorts(less, s[..|s| - 1]);
      PlaceSorts(less, StableSort(less, s[..|s| - 1]), s[|s| - 1]);
    }
  }

  lemma PlaceAtEnd<T>(less: (T, T) -> bool, s: seq<T>)
    requires Sorted(less, s) && s != []
    ensures Place(less, s[..|s| - 1], s[|s| - 1]) == s
  {
    var front := s[..|s| - 1];
    assert front != [] ==> front[|front| - 1] == s[|s| - 2];
    assert s == front + [s[|s| - 1]];
  }

  lemma {:induction false} SortKeepsSorted<T>(less: (T, T) -> bool, s: seq<T>)
    requires Sorted(less, s)
    ensures StableSort(less, s) == s
  {
    if s != [] {
      SortKeepsSorted(less, s[..|s| - 1]);
      PlaceAtEnd(less, s);
    }
  }
}
