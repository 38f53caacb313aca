/**
 When a set of keys fits a slice, in numbers: `Full` without mentioning any other body.
 */
module Overrun {
  import opened Wrappers
  import opened Collections
  import opened Layout

  function AtOrPast(m: map<Key, Record>, k: Key): set<Key> {
    set j | j in m && j >= k
  }

  // The keys from k on need more slots than there are from k's ideal to the end.
  ghost predicate Overruns(g: Geometry, slots: nat, m: map<Key, Record>, k: Key) {
    k in m && Ideal(g, k) + |AtOrPast(m, k)| > slots
  }

  ghost predicate SomeOverrun(g: Geometry, slots: nat, m: map<Key, Record>) {
    exists k :: Overruns(g, slots, m, k)
  }

  ghost predicate OfSlice(g: Geometry, m: map<Key, Record>) {
    forall k :: k in m ==> m[k].key == k && g.lo <= k < g.hi
  }

  // ---- a body that holds the keys leaves room for them ----

  function KeysFrom(b: seq<Slot>, q: nat): set<Key> {
    set i | q <= i < |b| && b[i].Some? :: b[i].value.key
  }

  lemma {:induction false} KeysFromSize(b: seq<Slot>, q: nat)
    requires Sorted(b) && q <= |b|
    ensures |KeysFrom(b, q)| <= |b| - q
    ensures Occupied(b, q, |b|) ==> |KeysFrom(b, q)| == |b| - q
    decreases |b| - q
  {
    if q == |b| {
      assert KeysFrom(b, q) == {};
    } else {
      KeysFromSize(b, q + 1);
      var here := b[q];
      if here.Some? {
        assert KeysFrom(b, q) == KeysFrom(b, q + 1) + {here.value.key};
      } else {
        assert KeysFrom(b, q) == KeysFrom(b, q + 1);
      }
    }
  }

  lemma HeldKeysHaveRoom(g: Geometry, b: seq<Slot>, m: map<Key, Record>, k: Key)
    requires Represents(g, b, m)
    ensures !Overruns(g, |b|, m, k)
  {
    if k in m {
      var p :| StoredAt(b, m[k], p);
      forall j | j in AtOrPast(m, k) ensures j in KeysFrom(b, p) {
        var i :| StoredAt(b, m[j], i);
        assert m[j].key == j && m[k].key == k && i >= p;
      }
      SubsetSmaller(AtOrPast(m, k), KeysFrom(b, p));
      KeysFromSize(b, p);
      assert m[k].key == k;
    }
  }

  // ---- keys that leave room can be laid out ----

  // Where the run that ends at e begins.
  function RunStart(b: seq<Slot>, e: nat): (q: nat)
    requires e <= |b|
    ensures q <= e && Occupied(b, q, e) && (q > 0 ==> b[q - 1].None?)
  {
    if e == 0 || b[e - 1].None? then e else RunStart(b, e - 1)
  }

  lemma RunStartsAtHome(g: Geometry, b: seq<Slot>, q: nat)
    requires Inv(g, b) && q < |b| && b[q].Some? && (q > 0 ==> b[q - 1].None?)
    ensures Ideal(g, b[q].value.key) == q
  {
    assert Occupied(b, Ideal(g, b[q].value.key), q);
  }

  // With no slot free from r's ideal on, the run that reaches the end overruns once r joins it.
  lemma FullRunOverruns(g: Geometry, b: seq<Slot>, m: map<Key, Record>, r: Record) returns (k: Key)
    requires Represents(g, b, m) && r.key !in m && Ideal(g, r.key) <= |b| && Occupied(b, Ideal(g, r.key), |b|)
    ensures Overruns(g, |b|, m[r.key := r], k)
  {
    var m', q := m[r.key := r], RunStart(b, |b|);
    assert q <= Ideal(g, r.key);
    k := r.key;
    if q == |b| {
      SubsetSmaller({k}, AtOrPast(m', k));
    } else {
      RunStartsAtHome(g, b, q);
      var first := b[q].value.key;
      if first < k {
        k := first;
      } else {
        Monotone(g, k, first);
      }
      JoinsTheRun(b, m, r, q, k);
    }
  }

  lemma JoinsTheRun(b: seq<Slot>, m: map<Key, Record>, r: Record, q: nat, k: Key)
    requires Sorted(b) && Holds(b, m) && r.key !in m && q < |b| && Occupied(b, q, |b|)
    requires k <= r.key && k <= b[q].value.key
    ensures |AtOrPast(m[r.key := r], k)| >= |b| - q + 1
  {
    KeysFromSize(b, q);
    forall j | j in KeysFrom(b, q) ensures j in m && j >= k {
      var i :| q <= i < |b| && b[i].Some? && b[i].value.key == j;
      assert i > q ==> b[q].value.key < b[i].value.key;
    }
    SubsetSmaller(KeysFrom(b, q) + {r.key}, AtOrPast(m[r.key := r], k));
  }

  lemma FewerOverrunLess(g: Geometry, slots: nat, m: map<Key, Record>, k: Key, j: Key)
    requires !Overruns(g, slots, m, j)
    ensures !Overruns(g, slots, m - {k}, j)
  {
    SubsetSmaller(AtOrPast(m - {k}, j), AtOrPast(m, j));
  }

  lemma {:induction false} RoomIsEnough(g: Geometry, slots: nat, m: map<Key, Record>)
    requires OfSlice(g, m) && forall k :: !Overruns(g, slots, m, k)
    ensures Fits(g, slots, m)
    decreases |m|
  {
    if m == map[] {
      var b: seq<Slot> := seq(slots, _ => None);
      assert Represents(g, b, m);
    } else {
      var k :| k in m;
      var less := m - {k};
      forall j ensures !Overruns(g, slots, less, j) {
        FewerOverrunLess(g, slots, m, k, j);
      }
      RoomIsEnough(g, slots, less);
      var b: seq<Slot> :| |b| == slots && Represents(g, b, less);
      LaysOutOneMore(g, b, m, k);
    }
  }

  lemma LaysOutOneMore(g: Geometry, b: seq<Slot>, m: map<Key, Record>, k: Key)
    requires OfSlice(g, m) && k in m && Represents(g, b, m - {k}) && forall j :: !Overruns(g, |b|, m, j)
    ensures Fits(g, |b|, m)
  {
    var less, r := m - {k}, m[k];
    assert less[k := r] == m;
    SubsetSmaller({k}, AtOrPast(m, k));
    assert !Overruns(g, |b|, m, k);
    InsertExact(g, b, less, r);
    var (res, c) := Insert(b, Ideal(g, k), r);
    if res == Err(Full) {
      var j := FullRunOverruns(g, b, less, r);
    } else {
      assert Represents(g, c, m) && |c| == |b|;
    }
  }

  // Keys fit exactly when none of them overruns.
  lemma FitsIff(g: Geometry, slots: nat, m: map<Key, Record>)
    requires OfSlice(g, m)
    ensures Fits(g, slots, m) <==> !SomeOverrun(g, slots, m)
  {
    if b: seq<Slot> :| |b| == slots && Represents(g, b, m) {
      forall k ensures !Overruns(g, slots, m, k) {
        HeldKeysHaveRoom(g, b, m, k);
      }
    } else if forall k :: !Overruns(g, slots, m, k) {
      RoomIsEnough(g, slots, m);
    }
  }

  // A new key is refused as Full exactly when some key, held or new, has fewer slots from its ideal to
  // the end than there are keys from it on.
  lemma FullIffOverrun(g: Geometry, b: seq<Slot>, m: map<Key, Record>, r: Record)
    requires Represents(g, b, m) && r.key !in m && g.lo <= r.key < g.hi && Ideal(g, r.key) <= |b|
    ensures Insert(b, Ideal(g, r.key), r).0 == Err(Full) <==> SomeOverrun(g, |b|, m[r.key := r])
  {
    FullMeansOverrun(g, b, m, r);
    HeldKeysAreOfSlice(g, b, m);
    FitsIff(g, |b|, m[r.key := r]);
  }

  lemma HeldKeysAreOfSlice(g: Geometry, b: seq<Slot>, m: map<Key, Record>)
    requires Represents(g, b, m)
    ensures OfSlice(g, m)
  {
    forall k | k in m ensures m[k].key == k && g.lo <= k < g.hi {
      var i :| StoredAt(b, m[k], i);
    }
  }
}
