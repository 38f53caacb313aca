/**
 The CRDT merge: concatenate, stable sort by key, then drop each repeat of the held entry's key in one
 pass, swapping when the later copy is newer.  Proved to be the per-key maximum of the union.
 */
module MergeByKey {
  import opened Wrappers
  import opened Orders
  import opened Sorting

  // How entries are keyed, and what ranks two copies under one key.
  datatype Rules<!T> = Rules(key: T -> Text, rank: T -> Rank)

  predicate Newer<T>(r: Rules<T>, later: T, held: T) {
    RankLess(r.rank(held), r.rank(later))
  }

  // Two copies that neither outranks are one.
  ghost predicate Decisive<T(!new)>(r: Rules<T>) {
    forall x, y :: r.key(x) == r.key(y) && r.rank(x) == r.rank(y) ==> x == y
  }

  // ---- what a merge means ----

  // The copy under k that is left after reading the list once, keeping the first of equals.
  function Held<T>(r: Rules<T>, s: seq<T>, k: Text): (h: Option<T>)
    ensures h.Some? ==> h.value in s && r.key(h.value) == k
    ensures h.None? ==> forall x :: x in s ==> r.key(x) != k
  {
    if s == [] then None
    else
      var h, x := Held(r, s[..|s| - 1], k), s[|s| - 1];
      if r.key(x) == k && (h.None? || Newer(r, x, h.value)) then Some(x) else h
  }

  function Join<T>(r: Rules<T>, x: Option<T>, y: Option<T>): Option<T> {
    if x.None? then y
    else if y.None? then x
    else if Newer(r, y.value, x.value) then y
    else x
  }

  lemma JoinAssociates<T>(r: Rules<T>, x: Option<T>, y: Option<T>, z: Option<T>)
    ensures Join(r, Join(r, x, y), z) == Join(r, x, Join(r, y, z))
  {
    RankTotal();
  }

  lemma JoinCommutes<T(!new)>(r: Rules<T>, x: Option<T>, y: Option<T>)
    requires Decisive(r)
    requires x.Some? && y.Some? ==> r.key(x.value) == r.key(y.value)
    ensures Join(r, x, y) == Join(r, y, x)
  {
    RankTotal();
  }

  // The survivor of a concatenation is the join of the parts' survivors.
  lemma {:induction false} HeldOfConcat<T>(r: Rules<T>, s: seq<T>, t: seq<T>, k: Text)
    ensures Held(r, s + t, k) == Join(r, Held(r, s, k), Held(r, t, k))
  {
    if t == [] {
      assert s + t == s;
    } else {
      var front, x := t[..|t| - 1], t[|t| - 1];
      assert (s + t)[..|s + t| - 1] == s + front;
      HeldOfConcat(r, s, front, k);
      JoinAssociates(r, Held(r, s, k), Held(r, front, k), if r.key(x) == k then Some(x) else None);
    }
  }

  // No copy under the key outranks the survivor.
  lemma {:induction false} HeldIsMaximal<T>(r: Rules<T>, s: seq<T>, k: Text, x: T)
    requires x in s && r.key(x) == k
    ensures Held(r, s, k).Some? && !Newer(r, x, Held(r, s, k).value)
  {
    var front, last := s[..|s| - 1], s[|s| - 1];
    RankTotal();
    if x in front {
      HeldIsMaximal(r, front, k, x);
    } else {
      assert x == last;
    }
  }

  // No two of these copies tie.
  ghost predicate DecisiveAmong<T>(r: Rules<T>, s: seq<T>) {
    forall x, y :: x in s && y in s && r.key(x) == r.key(y) && r.rank(x) == r.rank(y) ==> x == y
  }

  // Where no two copies tie, the survivor depends on which there are, not on their order or number.
  lemma HeldIgnoresOrder<T>(r: Rules<T>, s: seq<T>, t: seq<T>, k: Text)
    requires DecisiveAmong(r, s) && forall x :: x in s <==> x in t
    ensures Held(r, s, k) == Held(r, t, k)
  {
    var a, b := Held(r, s, k), Held(r, t, k);
    if a.Some? {
      HeldIsMaximal(r, t, k, a.value);
      HeldIsMaximal(r, s, k, b.value);
      RankTotal();
    }
  }

  // ---- canonical states ----

  ghost predicate Canonical<T>(r: Rules<T>, s: seq<T>) {
    forall i, j :: 0 <= i < j < |s| ==> TextLess(r.key(s[i]), r.key(s[j]))
  }

  lemma KeysDiffer<T>(r: Rules<T>, s: seq<T>, i: nat, j: nat)
    requires Canonical(r, s) && i < |s| && j < |s| && r.key(s[i]) == r.key(s[j])
    ensures i == j
  {
    TextTotal();
  }

  lemma {:induction false} HeldAt<T>(r: Rules<T>, s: seq<T>, i: nat)
    requires Canonical(r, s) && i < |s|
    ensures Held(r, s, r.key(s[i])) == Some(s[i])
  {
    var h := Held(r, s, r.key(s[i]));
    assert s[i] in s;
    var j :| 0 <= j < |s| && s[j] == h.value;
    KeysDiffer(r, s, i, j);
  }

  lemma LastIsGreatest<T>(r: Rules<T>, s: seq<T>, x: T)
    requires Canonical(r, s) && x in s && x != s[|s| - 1]
    ensures TextLess(r.key(x), r.key(s[|s| - 1]))
  {
    var i :| 0 <= i < |s| && s[i] == x;
  }

  // A canonical state is determined by its survivors.
  lemma {:induction false} SameSurvivorsSameState<T>(r: Rules<T>, s: seq<T>, t: seq<T>)
    requires Canonical(r, s) && Canonical(r, t) && forall k :: Held(r, s, k) == Held(r, t, k)
    ensures s == t
  {
    if s == [] {
      if t != [] {
        HeldAt(r, t, 0);
      }
    } else {
      HeldAt(r, s, |s| - 1);
      var x := s[|s| - 1];
      assert x in t;
      HeldAt(r, t, |t| - 1);
      var y := t[|t| - 1];
      assert y in s;
      TextTotal();
      if x != y {
        LastIsGreatest(r, s, y);
        LastIsGreatest(r, t, x);
      }
      var s', t' := s[..|s| - 1], t[..|t| - 1];
      forall k ensures Held(r, s', k) == Held(r, t', k) {
        FrontSurvivors(r, s, k);
        FrontSurvivors(r, t, k);
      }
      SameSurvivorsSameState(r, s', t');
      assert s == s' + [x] && t == t' + [y];
    }
  }

  lemma FrontSurvivors<T>(r: Rules<T>, s: seq<T>, k: Text)
    requires Canonical(r, s) && s != []
    ensures Held(r, s[..|s| - 1], k) == if k == r.key(s[|s| - 1]) then None else Held(r, s, k)
  {
    var front := s[..|s| - 1];
    var h := Held(r, front, k);
    if h.Some? && k == r.key(s[|s| - 1]) {
      var i :| 0 <= i < |front| && front[i] == h.value;
      KeysDiffer(r, s, i, |s| - 1);
    }
  }

  // ---- the source's algorithm ----

  function KeyLess<T>(r: Rules<T>): (T, T) -> bool {
    (x, y) => TextLess(r.key(x), r.key(y))
  }

  lemma KeysWeaklyOrder<T(!new)>(r: Rules<T>)
    ensures WeakOrder(KeyLess(r))
  {
    TextTotal();
  }

  // x may stand before or after entries of other keys.
  lemma PastOtherKeys<T>(r: Rules<T>, p: seq<T>, x: T, q: seq<T>, k: Text)
    requires forall y :: y in q ==> r.key(y) != r.key(x)
    ensures Held(r, p + [x] + q, k) == Held(r, p + q + [x], k)
  {
    HeldOfConcat(r, p + [x], q, k);
    HeldOfConcat(r, p, [x], k);
    HeldOfConcat(r, p + q, [x], k);
    HeldOfConcat(r, p, q, k);
    assert Held(r, [x], k).None? || Held(r, q, k).None?;
  }

  // Placing moves x only past entries of other keys, so no key's survivor changes.
  lemma PlaceKeepsSurvivors<T>(r: Rules<T>, s: seq<T>, x: T, k: Text)
    ensures Held(r, Place(KeyLess(r), s, x), k) == Held(r, s + [x], k)
  {
    var p, q := PlaceSplits(KeyLess(r), s, x);
    LexIrreflexive(IntLess, r.key(x));
    PastOtherKeys(r, p, x, q, k);
  }

  lemma {:induction false} SortKeepsSurvivors<T>(r: Rules<T>, s: seq<T>, k: Text)
    ensures Held(r, StableSort(KeyLess(r), s), k) == Held(r, s, k)
  {
    if s != [] {
      var front, last := s[..|s| - 1], s[|s| - 1];
      var sorted := StableSort(KeyLess(r), front);
      SortKeepsSurvivors(r, front, k);
      PlaceKeepsSurvivors(r, sorted, last, k);
      assert (sorted + [last])[..|sorted|] == sorted;
    }
  }

  // What the dedup pass has kept once it has seen `seen`, a prefix of a sorted list.
  ghost predicate Kept<T>(r: Rules<T>, seen: seq<T>, out: seq<T>) {
    && Canonical(r, out)
    && (forall k :: Held(r, out, k) == Held(r, seen, k))
    && (seen != [] ==> out != [] && r.key(out[|out| - 1]) == r.key(seen[|seen| - 1]))
    && (seen == [] ==> out == [])
  }

  lemma KeepsANewKey<T>(r: Rules<T>, seen: seq<T>, out: seq<T>, x: T)
    requires Kept(r, seen, out) && (out != [] ==> TextLess(r.key(out[|out| - 1]), r.key(x)))
    ensures Kept(r, seen + [x], out + [x])
  {
    TextTotal();
    assert (seen + [x])[..|seen|] == seen && (out + [x])[..|out|] == out;
  }

  lemma KeepsOneCopy<T>(r: Rules<T>, seen: seq<T>, out: seq<T>, x: T, held: T)
    requires Kept(r, seen, out) && out != [] && r.key(out[|out| - 1]) == r.key(x)
    requires held == if Newer(r, x, out[|out| - 1]) then x else out[|out| - 1]
    ensures Kept(r, seen + [x], out[|out| - 1 := held])
  {
    var n := |out| - 1;
    var next := out[n := held];
    assert (seen + [x])[..|seen|] == seen && next[..n] == out[..n];
    HeldAt(r, out, n);
    forall k ensures Held(r, next, k) == Held(r, seen + [x], k) {
      FrontSurvivors(r, out, k);
    }
  }

  // Keys in order, as the pass relies on it.
  ghost predicate KeysAscend<T>(r: Rules<T>, s: seq<T>) {
    forall i, j :: 0 <= i < j < |s| ==> !TextLess(r.key(s[j]), r.key(s[i]))
  }

  lemma NextKeyIsNoSmaller<T>(r: Rules<T>, s: seq<T>, i: nat)
    requires KeysAscend(r, s) && i < |s|
    ensures i > 0 ==> !TextLess(r.key(s[i]), r.key(s[i - 1]))
  {
  }

  // The pass: an entry of the held key is dropped, after the two are swapped when it is the newer.
  method DedupBy<T>(r: Rules<T>, sorted: seq<T>) returns (out: seq<T>)
    requires KeysAscend(r, sorted)
    ensures Kept(r, sorted, out)
  {
    out := [];
    for i := 0 to |sorted|
      invariant Kept(r, sorted[..i], out)
    {
      var later := sorted[i];
      assert sorted[..i + 1] == sorted[..i] + [later];
      if out == [] || r.key(later) != r.key(out[|out| - 1]) {
        NextKeyIsNoSmaller(r, sorted, i);
        TextTotal();
        KeepsANewKey(r, sorted[..i], out, later);
        out := out + [later];
      } else {
        var held := out[|out| - 1];
        ghost var before := out;
        if Newer(r, later, held) {
          later, held := held, later;
        }
        KeepsOneCopy(r, sorted[..i], before, sorted[i], held);
        out := out[|out| - 1 := held];
      }
    }
    assert sorted[..|sorted|] == sorted;
  }

  // ---- the merge as a function of its two states ----

  // Insert-if-newer, one entry after another: what the pass amounts to.
  function Absorb<T>(r: Rules<T>, s: seq<T>, x: T): seq<T> {
    if s == [] || TextLess(r.key(s[|s| - 1]), r.key(x)) then s + [x]
    else if r.key(s[|s| - 1]) == r.key(x) then (if Newer(r, x, s[|s| - 1]) then s[..|s| - 1] + [x] else s)
    else Absorb(r, s[..|s| - 1], x) + [s[|s| - 1]]
  }

  function Survivors<T>(r: Rules<T>, s: seq<T>): seq<T> {
    if s == [] then [] else Absorb(r, Survivors(r, s[..|s| - 1]), s[|s| - 1])
  }

  function Merge<T>(r: Rules<T>, a: seq<T>, b: seq<T>): seq<T> {
    Survivors(r, a + b)
  }

  lemma {:induction false} AbsorbBound<T>(r: Rules<T>, s: seq<T>, x: T, y: T)
    requires y in Absorb(r, s, x)
    ensures y in s || y == x
  {
    if !(s == [] || TextLess(r.key(s[|s| - 1]), r.key(x))) && r.key(s[|s| - 1]) != r.key(x) && y != s[|s| - 1] {
      AbsorbBound(r, s[..|s| - 1], x, y);
    }
  }

  lemma {:induction false} AbsorbKeeps<T>(r: Rules<T>, s: seq<T>, x: T)
    requires Canonical(r, s)
    ensures Canonical(r, Absorb(r, s, x))
    ensures forall k :: Held(r, Absorb(r, s, x), k) == Held(r, s + [x], k)
  {
    TextTotal();
    assert (s + [x])[..|s|] == s;
    if s == [] || TextLess(r.key(s[|s| - 1]), r.key(x)) {
    } else {
      var front, last := s[..|s| - 1], s[|s| - 1];
      HeldAt(r, s, |s| - 1);
      if r.key(last) == r.key(x) {
        assert (front + [x])[..|front|] == front;
        forall k ensures Held(r, Absorb(r, s, x), k) == Held(r, s + [x], k) {
          FrontSurvivors(r, s, k);
        }
      } else {
        AbsorbKeeps(r, front, x);
        AbsorbPastLast(r, s, x);
      }
    }
  }

  lemma AbsorbPastLast<T>(r: Rules<T>, s: seq<T>, x: T)
    requires Canonical(r, s) && s != [] && TextLess(r.key(x), r.key(s[|s| - 1]))
    requires var front := s[..|s| - 1];
             Canonical(r, Absorb(r, front, x)) && forall k :: Held(r, Absorb(r, front, x), k) == Held(r, front + [x], k)
    ensures Canonical(r, Absorb(r, s[..|s| - 1], x) + [s[|s| - 1]])
    ensures forall k :: Held(r, Absorb(r, s[..|s| - 1], x) + [s[|s| - 1]], k) == Held(r, s + [x], k)
  {
    TextTotal();
    var front, last := s[..|s| - 1], s[|s| - 1];
    var part := Absorb(r, front, x);
    forall y | y in part ensures TextLess(r.key(y), r.key(last)) {
      AbsorbBound(r, front, x, y);
    }
    assert (part + [last])[..|part|] == part;
    assert (s + [x])[..|s|] == s && (front + [x])[..|front|] == front;
    forall k ensures Held(r, part + [last], k) == Held(r, s + [x], k) {
      assert Held(r, part, k) == Held(r, front + [x], k);
      FrontSurvivors(r, s, k);
    }
  }

  lemma {:induction false} SurvivorsKeep<T>(r: Rules<T>, s: seq<T>)
    ensures Canonical(r, Survivors(r, s)) && forall k :: Held(r, Survivors(r, s), k) == Held(r, s, k)
  {
    if s != [] {
      var front, x := s[..|s| - 1], s[|s| - 1];
      SurvivorsKeep(r, front);
      AbsorbKeeps(r, Survivors(r, front), x);
      assert (Survivors(r, front) + [x])[..|Survivors(r, front)|] == Survivors(r, front);
    }
  }

  // A merge is canonical and holds each key's join; nothing else does both.
  lemma MergeIsTheJoin<T>(r: Rules<T>, a: seq<T>, b: seq<T>, k: Text)
    ensures Canonical(r, Merge(r, a, b))
    ensures Held(r, Merge(r, a, b), k) == Join(r, Held(r, a, k), Held(r, b, k))
  {
    SurvivorsKeep(r, a + b);
    HeldOfConcat(r, a, b, k);
  }

  // A merge is in key order and holds only what went in.
  lemma MergeAscends<T>(r: Rules<T>, a: seq<T>, b: seq<T>)
    ensures Canonical(r, Merge(r, a, b))
    ensures forall y :: y in Merge(r, a, b) ==> y in a + b
  {
    var m := Merge(r, a, b);
    SurvivorsKeep(r, a + b);
    forall y | y in m ensures y in a + b {
      var i :| 0 <= i < |m| && m[i] == y;
      HeldAt(r, m, i);
      assert Held(r, a + b, r.key(y)) == Some(y);
    }
  }

  // For each copy it holds one of its key that the copy does not outrank.
  lemma BestOf<T>(r: Rules<T>, a: seq<T>, b: seq<T>, x: T) returns (y: T)
    requires x in a + b
    ensures y in Merge(r, a, b) && r.key(y) == r.key(x) && !Newer(r, x, y)
  {
    SurvivorsKeep(r, a + b);
    HeldIsMaximal(r, a + b, r.key(x), x);
    y := Held(r, Merge(r, a, b), r.key(x)).value;
  }

  // The source's sort-and-dedup computes that merge.
  method MergeLists<T(!new)>(r: Rules<T>, a: seq<T>, b: seq<T>) returns (out: seq<T>)
    ensures out == Merge(r, a, b)
  {
    out := a + b;
    ghost var all := out;
    out := SortBy(r, out);
    KeysWeaklyOrder(r);
    SortSorts(KeyLess(r), all);
    assert KeysAscend(r, out);
    out := DedupBy(r, out);
    forall k ensures Held(r, out, k) == Held(r, Merge(r, a, b), k) {
      SortKeepsSurvivors(r, all, k);
      SurvivorsKeep(r, all);
    }
    SurvivorsKeep(r, all);
    SameSurvivorsSameState(r, out, Merge(r, a, b));
  }

  method SortBy<T>(r: Rules<T>, s: seq<T>) returns (out: seq<T>)
    ensures out == StableSort(KeyLess(r), s)
  {
    out := [];
    for i := 0 to |s|
      invariant out == StableSort(KeyLess(r), s[..i])
    {
      assert s[..i + 1][..i] == s[..i];
      out := Place(KeyLess(r), out, s[i]);
    }
    assert s[..|s|] == s;
  }

  // ---- the laws ----

  lemma MergeAssociates<T>(r: Rules<T>, a: seq<T>, b: seq<T>, c: seq<T>)
    ensures Merge(r, Merge(r, a, b), c) == Merge(r, a, Merge(r, b, c))
  {
    var left, right := Merge(r, Merge(r, a, b), c), Merge(r, a, Merge(r, b, c));
    MergeIsTheJoin(r, Merge(r, a, b), c, []);
    MergeIsTheJoin(r, a, Merge(r, b, c), []);
    forall k ensures Held(r, left, k) == Held(r, right, k) {
      MergeIsTheJoin(r, a, b, k);
      MergeIsTheJoin(r, Merge(r, a, b), c, k);
      MergeIsTheJoin(r, b, c, k);
      MergeIsTheJoin(r, a, Merge(r, b, c), k);
      JoinAssociates(r, Held(r, a, k), Held(r, b, k), Held(r, c, k));
    }
    SameSurvivorsSameState(r, left, right);
  }

  lemma MergeIdempotent<T>(r: Rules<T>, a: seq<T>)
    requires Canonical(r, a)
    ensures Merge(r, a, a) == a
  {
    MergeIsTheJoin(r, a, a, []);
    RankTotal();
    forall k ensures Held(r, Merge(r, a, a), k) == Held(r, a, k) {
      MergeIsTheJoin(r, a, a, k);
    }
    SameSurvivorsSameState(r, Merge(r, a, a), a);
  }

  lemma MergeCommutes<T(!new)>(r: Rules<T>, a: seq<T>, b: seq<T>)
    requires Decisive(r)
    ensures Merge(r, a, b) == Merge(r, b, a)
  {
    MergeIsTheJoin(r, a, b, []);
    MergeIsTheJoin(r, b, a, []);
    forall k ensures Held(r, Merge(r, a, b), k) == Held(r, Merge(r, b, a), k) {
      MergeIsTheJoin(r, a, b, k);
      MergeIsTheJoin(r, b, a, k);
      JoinCommutes(r, Held(r, a, k), Held(r, b, k));
    }
    SameSurvivorsSameState(r, Merge(r, a, b), Merge(r, b, a));
  }

  // Two different survivors of one key, neither of which outranks the other.
  ghost predicate Unsettled<T>(r: Rules<T>, a: seq<T>, b: seq<T>, k: Text) {
    var x, y := Held(r, a, k), Held(r, b, k);
    x.Some? && y.Some? && r.rank(x.value) == r.rank(y.value) && x != y
  }

  lemma JoinTies<T>(r: Rules<T>, x: Option<T>, y: Option<T>)
    ensures Join(r, x, y) == Join(r, y, x) <==>
            !(x.Some? && y.Some? && r.rank(x.value) == r.rank(y.value) && x != y)
  {
    if x.Some? && y.Some? {
      var a, b := r.rank(x.value), r.rank(y.value);
      LexIrreflexive(TextLess, a);
      TextTotal();
      LexDecides(TextLess, a, b);
      LexTransitive(TextLess, a, b, a);
    }
  }

  lemma JoinCommutesIff<T>(r: Rules<T>, a: seq<T>, b: seq<T>, k: Text)
    ensures Held(r, Merge(r, a, b), k) == Held(r, Merge(r, b, a), k) <==> !Unsettled(r, a, b, k)
  {
    MergeIsTheJoin(r, a, b, k);
    MergeIsTheJoin(r, b, a, k);
    JoinTies(r, Held(r, a, k), Held(r, b, k));
  }

  // For any rules and any two lists: the merge commutes exactly when no key is left tied between two
  // different survivors.
  lemma MergeCommutesIff<T>(r: Rules<T>, a: seq<T>, b: seq<T>)
    ensures Merge(r, a, b) == Merge(r, b, a) <==> forall k :: !Unsettled(r, a, b, k)
  {
    MergeIsTheJoin(r, a, b, []);
    MergeIsTheJoin(r, b, a, []);
    forall k ensures Held(r, Merge(r, a, b), k) == Held(r, Merge(r, b, a), k) <==> !Unsettled(r, a, b, k) {
      JoinCommutesIff(r, a, b, k);
    }
    if forall k :: !Unsettled(r, a, b, k) {
      SameSurvivorsSameState(r, Merge(r, a, b), Merge(r, b, a));
    }
  }

  // ---- any merge history ----

  // Devices merge what they hold in any shape, states repeated at will.
  datatype Tree<T> = Leaf(state: seq<T>) | Node(left: Tree<T>, right: Tree<T>)

  function Eval<T>(r: Rules<T>, t: Tree<T>): seq<T> {
    match t
    case Leaf(s) => s
    case Node(x, y) => Merge(r, Eval(r, x), Eval(r, y))
  }

  function Leaves<T>(t: Tree<T>): seq<T> {
    match t
    case Leaf(s) => s
    case Node(x, y) => Leaves(x) + Leaves(y)
  }

  ghost predicate CanonicalLeaves<T>(r: Rules<T>, t: Tree<T>) {
    match t
    case Leaf(s) => Canonical(r, s)
    case Node(x, y) => CanonicalLeaves(r, x) && CanonicalLeaves(r, y)
  }

  lemma {:induction false} EvalKeepsSurvivors<T>(r: Rules<T>, t: Tree<T>, k: Text)
    ensures Held(r, Eval(r, t), k) == Held(r, Leaves(t), k)
    ensures CanonicalLeaves(r, t) ==> Canonical(r, Eval(r, t))
  {
    match t
    case Leaf(_) =>
    case Node(x, y) =>
      EvalKeepsSurvivors(r, x, k);
      EvalKeepsSurvivors(r, y, k);
      MergeIsTheJoin(r, Eval(r, x), Eval(r, y), k);
      HeldOfConcat(r, Leaves(x), Leaves(y), k);
  }

  // Two merge histories over the same entries end in the same state, in whatever shape and order.
  lemma EveryHistoryConverges<T(!new)>(r: Rules<T>, t: Tree<T>, u: Tree<T>)
    requires Decisive(r) && CanonicalLeaves(r, t) && CanonicalLeaves(r, u)
    requires forall x :: x in Leaves(t) <==> x in Leaves(u)
    ensures Eval(r, t) == Eval(r, u)
  {
    EvalKeepsSurvivors(r, t, []);
    EvalKeepsSurvivors(r, u, []);
    forall k ensures Held(r, Eval(r, t), k) == Held(r, Eval(r, u), k) {
      EvalKeepsSurvivors(r, t, k);
      EvalKeepsSurvivors(r, u, k);
      HeldIgnoresOrder(r, Leaves(t), Leaves(u), k);
    }
    SameSurvivorsSameState(r, Eval(r, t), Eval(r, u));
  }

  // ---- looking through a projection ----

  function Image<T>(f: T -> T, s: seq<T>): (t: seq<T>)
    ensures |t| == |s| && forall i :: 0 <= i < |s| ==> t[i] == f(s[i])
  {
    if s == [] then [] else Image(f, s[..|s| - 1]) + [f(s[|s| - 1])]
  }

  // f keeps key and rank.
  ghost predicate Faithful<T(!new)>(r: Rules<T>, f: T -> T) {
    forall x :: r.key(f(x)) == r.key(x) && r.rank(f(x)) == r.rank(x)
  }

  ghost predicate DecisiveUnder<T(!new)>(r: Rules<T>, f: T -> T) {
    forall x, y :: r.key(x) == r.key(y) && r.rank(x) == r.rank(y) ==> f(x) == f(y)
  }

  function Through<T>(f: T -> T, x: Option<T>): Option<T> {
    if x.None? then None else Some(f(x.value))
  }

  lemma {:induction false} HeldThrough<T(!new)>(r: Rules<T>, f: T -> T, s: seq<T>, k: Text)
    requires Faithful(r, f)
    ensures Held(r, Image(f, s), k) == Through(f, Held(r, s, k))
  {
    if s != [] {
      HeldThrough(r, f, s[..|s| - 1], k);
      assert Image(f, s)[..|s| - 1] == Image(f, s[..|s| - 1]);
    }
  }

  lemma ImageCanonical<T(!new)>(r: Rules<T>, f: T -> T, s: seq<T>)
    requires Faithful(r, f) && Canonical(r, s)
    ensures Canonical(r, Image(f, s))
  {
    forall i, j | 0 <= i < j < |s| ensures TextLess(r.key(Image(f, s)[i]), r.key(Image(f, s)[j])) {
      assert r.key(f(s[i])) == r.key(s[i]) && r.key(f(s[j])) == r.key(s[j]);
    }
  }

  lemma JoinCommutesUnder<T(!new)>(r: Rules<T>, f: T -> T, x: Option<T>, y: Option<T>)
    requires DecisiveUnder(r, f)
    requires x.Some? && y.Some? ==> r.key(x.value) == r.key(y.value)
    ensures Through(f, Join(r, x, y)) == Through(f, Join(r, y, x))
  {
    RankTotal();
  }

  // Seen through f, a merge commutes as soon as f settles every tie.
  lemma MergeCommutesUnder<T(!new)>(r: Rules<T>, f: T -> T, a: seq<T>, b: seq<T>)
    requires Faithful(r, f) && DecisiveUnder(r, f)
    ensures Image(f, Merge(r, a, b)) == Image(f, Merge(r, b, a))
  {
    var x, y := Image(f, Merge(r, a, b)), Image(f, Merge(r, b, a));
    MergeIsTheJoin(r, a, b, []);
    MergeIsTheJoin(r, b, a, []);
    ImageCanonical(r, f, Merge(r, a, b));
    ImageCanonical(r, f, Merge(r, b, a));
    forall k ensures Held(r, x, k) == Held(r, y, k) {
      HeldThrough(r, f, Merge(r, a, b), k);
      HeldThrough(r, f, Merge(r, b, a), k);
      MergeIsTheJoin(r, a, b, k);
      MergeIsTheJoin(r, b, a, k);
      JoinCommutesUnder(r, f, Held(r, a, k), Held(r, b, k));
    }
    SameSurvivorsSameState(r, x, y);
  }

  // Seen through f, two merge histories over the same copies end alike: f settles the ties that the
  // rules leave to arrival order.
  lemma EveryHistoryConvergesUnder<T(!new)>(r: Rules<T>, f: T -> T, t: Tree<T>, u: Tree<T>)
    requires Faithful(r, f) && DecisiveUnder(r, f) && CanonicalLeaves(r, t) && CanonicalLeaves(r, u)
    requires forall x :: x in Image(f, Leaves(t)) <==> x in Image(f, Leaves(u))
    ensures Image(f, Eval(r, t)) == Image(f, Eval(r, u))
  {
    EvalKeepsSurvivors(r, t, []);
    EvalKeepsSurvivors(r, u, []);
    ImageCanonical(r, f, Eval(r, t));
    ImageCanonical(r, f, Eval(r, u));
    ImageIsDecisive(r, f, Leaves(t));
    forall k ensures Held(r, Image(f, Eval(r, t)), k) == Held(r, Image(f, Eval(r, u)), k) {
      SurvivorThrough(r, f, t, k);
      SurvivorThrough(r, f, u, k);
      HeldIgnoresOrder(r, Image(f, Leaves(t)), Image(f, Leaves(u)), k);
    }
    SameSurvivorsSameState(r, Image(f, Eval(r, t)), Image(f, Eval(r, u)));
  }

  lemma SurvivorThrough<T(!new)>(r: Rules<T>, f: T -> T, t: Tree<T>, k: Text)
    requires Faithful(r, f)
    ensures Held(r, Image(f, Eval(r, t)), k) == Held(r, Image(f, Leaves(t)), k)
  {
    EvalKeepsSurvivors(r, t, k);
    HeldThrough(r, f, Eval(r, t), k);
    HeldThrough(r, f, Leaves(t), k);
  }

  lemma ImageIsDecisive<T(!new)>(r: Rules<T>, f: T -> T, s: seq<T>)
    requires Faithful(r, f) && DecisiveUnder(r, f)
    ensures DecisiveAmong(r, Image(f, s))
  {
    var t := Image(f, s);
    forall x, y | x in t && y in t && r.key(x) == r.key(y) && r.rank(x) == r.rank(y) ensures x == y {
      var i :| 0 <= i < |t| && t[i] == x;
      var j :| 0 <= j < |t| && t[j] == y;
      assert x == f(s[i]) && y == f(s[j]);
      assert r.key(s[i]) == r.key(s[j]) && r.rank(s[i]) == r.rank(s[j]);
    }
  }
}
