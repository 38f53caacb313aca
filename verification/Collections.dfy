/** Concatenation, duplicate-free lists, and the sizes of finite sets. */
module Collections {

  lemma Regroup<T>(a: seq<T>, b: seq<T>, c: seq<T>)
    ensures (a + b) + c == a + (b + c)
  {
  }

  // What stands at an offset, once the rest from there is known to begin with it.
  lemma PeelOff<T>(s: seq<T>, at: nat, field: seq<T>, rest: seq<T>)
    requires at <= |s| && s[at..] == field + rest
    ensures at + |field| <= |s| && s[at..at + |field|] == field && s[at + |field|..] == rest
  {
    var t := s[at..];
    assert t[..|field|] == field && t[|field|..] == rest;
    assert s[at..at + |field|] == t[..|field|] && s[at + |field|..] == t[|field|..];
  }

  ghost predicate Distinct<T>(s: seq<T>) {
    forall i, j :: 0 <= i < j < |s| ==> s[i] != s[j]
  }

  lemma {:induction false} SubsetSmaller<T>(a: set<T>, b: set<T>)
    requires a <= b
    ensures |a| <= |b|
  {
    if a != {} {
      var x :| x in a;
      SubsetSmaller(a - {x}, b - {x});
    }
  }

  lemma SameSizeSubset<T>(a: set<T>, b: set<T>)
    requires a <= b && |a| == |b|
    ensures a == b
  {
    if x :| x in b && x !in a {
      SubsetSmaller(a, b - {x});
    }
  }
}
