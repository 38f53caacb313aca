/** Find-first association lists and order-keeping removal, as the fold's vectors are used. */
module Assoc {
  import opened Wrappers
  import opened Collections

  datatype Entry<V> = Entry(key: nat, value: V)

  function Find<V>(s: seq<Entry<V>>, k: nat): Option<V> {
    if s == [] then None else if s[0].key == k then Some(s[0].value) else Find(s[1..], k)
  }

  // Overwrite the first entry under k, or push one.
  function Upsert<V>(s: seq<Entry<V>>, k: nat, v: V): seq<Entry<V>> {
    if s == [] then [Entry(k, v)]
    else if s[0].key == k then [Entry(k, v)] + s[1..]
    else [s[0]] + Upsert(s[1..], k, v)
  }

  lemma {:induction false} FindUpsert<V>(s: seq<Entry<V>>, k: nat, v: V, j: nat)
    ensures Find(Upsert(s, k, v), j) == if j == k then Some(v) else Find(s, j)
  {
    if s != [] && s[0].key != k {
      FindUpsert(s[1..], k, v, j);
    }
  }

  // A pushed entry hides behind an older one under the same key.
  lemma {:induction false} FindPushed<V>(s: seq<Entry<V>>, k: nat, v: V, j: nat)
    ensures Find(s + [Entry(k, v)], j) == if Find(s, j).Some? then Find(s, j) else if j == k then Some(v) else None
  {
    if s == [] {
      assert s + [Entry(k, v)] == [Entry(k, v)];
    } else {
      assert (s + [Entry(k, v)])[1..] == s[1..] + [Entry(k, v)];
      FindPushed(s[1..], k, v, j);
    }
  }

  // `retain(|m| m != d)`.
  function Without(s: seq<nat>, d: nat): (r: seq<nat>)
    ensures |r| <= |s|
    ensures |r| == |s| <==> d !in s
    ensures forall x :: x in r <==> x in s && x != d
  {
    if s == [] then []
    else
      var rest := Without(s[..|s| - 1], d);
      var last := s[|s| - 1];
      assert s == s[..|s| - 1] + [last];
      if last == d then rest else rest + [last]
  }

  lemma {:induction false} WithoutDistinct(s: seq<nat>, d: nat)
    requires Distinct(s)
    ensures Distinct(Without(s, d))
  {
    if s != [] {
      var front, last := s[..|s| - 1], s[|s| - 1];
      WithoutDistinct(front, d);
      assert last !in front;
    }
  }
}
