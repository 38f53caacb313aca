/**
 Whole histories of one slice: any sequence of inserts and removes refines a map, and the order in
 which a set of records arrived leaves no trace in the body.
 */
module SliceRuns {
  import opened Wrappers
  import opened Layout
  import Addressing
  import Bytes

  datatype Op = Put(r: Record) | Take(k: Key)

  // One call on a body, as `insert` and `remove` make it.
  function Step(g: Geometry, b: seq<Slot>, op: Op): (c: seq<Slot>)
    ensures |c| == |b|
  {
    match op
    case Put(r) =>
      if g.lo <= r.key < g.hi && Ideal(g, r.key) <= |b| then Insert(b, Ideal(g, r.key), r).1 else b
    case Take(k) =>
      match LookupFrom(b, Ideal(g, k), k)
      case Some(p) => RemoveAt(g, b, p)
      case None => b
  }

  function Run(g: Geometry, b: seq<Slot>, ops: seq<Op>): (c: seq<Slot>)
    ensures |c| == |b|
  {
    if ops == [] then b else Step(g, Run(g, b, ops[..|ops| - 1]), ops[|ops| - 1])
  }

  // The same calls on a map that knows nothing of slots, except whether a key set fits.
  ghost function MapStep(g: Geometry, slots: nat, m: map<Key, Record>, op: Op): map<Key, Record> {
    match op
    case Put(r) =>
      if !(g.lo <= r.key < g.hi) then m
      else if r.key in m then if r.epoch <= m[r.key].epoch then m else m[r.key := r]
      else if Fits(g, slots, m[r.key := r]) then m[r.key := r] else m
    case Take(k) => m - {k}
  }

  ghost function MapRun(g: Geometry, slots: nat, m: map<Key, Record>, ops: seq<Op>): map<Key, Record> {
    if ops == [] then m
    else MapStep(g, slots, MapRun(g, slots, m, ops[..|ops| - 1]), ops[|ops| - 1])
  }

  // Every key of the slice is aimed at one of its slots.
  ghost predicate Covers(g: Geometry, slots: nat) {
    forall k :: g.lo <= k < g.hi ==> Ideal(g, k) < slots
  }

  function Empty(slots: nat): (b: seq<Slot>)
    ensures |b| == slots && forall i :: 0 <= i < slots ==> b[i].None?
  {
    seq(slots, _ => None)
  }

  lemma EmptyRepresentsNothing(g: Geometry, slots: nat)
    ensures Represents(g, Empty(slots), map[])
  {
  }

  lemma StepRefines(g: Geometry, b: seq<Slot>, m: map<Key, Record>, op: Op)
    requires Represents(g, b, m) && Covers(g, |b|)
    ensures Represents(g, Step(g, b, op), MapStep(g, |b|, m, op))
  {
    match op
    case Put(r) =>
      if g.lo <= r.key < g.hi {
        InsertExact(g, b, m, r);
        if r.key !in m {
          FullMeansOverrun(g, b, m, r);
        }
      }
    case Take(k) =>
      TakeRefines(g, b, m, k);
  }

  lemma TakeRefines(g: Geometry, b: seq<Slot>, m: map<Key, Record>, k: Key)
    requires Represents(g, b, m) && Covers(g, |b|)
    ensures Represents(g, Step(g, b, Take(k)), m - {k})
  {
    LookupExact(g, b, m, k);
    match LookupFrom(b, Ideal(g, k), k)
    case Some(p) => RemoveExact(g, b, m, p);
    case None => assert m - {k} == m;
  }

  // From the empty slice, every sequence of calls refines the map.
  lemma {:induction false} RunRefines(g: Geometry, slots: nat, ops: seq<Op>)
    requires Covers(g, slots)
    ensures Represents(g, Run(g, Empty(slots), ops), MapRun(g, slots, map[], ops))
  {
    if ops == [] {
      EmptyRepresentsNothing(g, slots);
    } else {
      var before := ops[..|ops| - 1];
      RunRefines(g, slots, before);
      StepRefines(g, Run(g, Empty(slots), before), MapRun(g, slots, map[], before), ops[|ops| - 1]);
    }
  }

  // The theorem for a slice as it is addressed: shift-and-mask aims every key of the slice inside it.
  lemma AddressedRunRefines(sliceBits: nat, slotBits: nat, id: nat, ops: seq<Op>)
    requires Addressing.Widths(sliceBits, slotBits)
    ensures var g, slots := Addressing.GeometryOf(sliceBits, slotBits, id), Bytes.Pow(2, slotBits);
            Covers(g, slots) && Represents(g, Run(g, Empty(slots), ops), MapRun(g, slots, map[], ops))
  {
    var g, slots := Addressing.GeometryOf(sliceBits, slotBits, id), Bytes.Pow(2, slotBits);
    forall k | g.lo <= k < g.hi ensures Ideal(g, k) < slots {
      Addressing.IdealInBounds(sliceBits, slotBits, id, k);
    }
    RunRefines(g, slots, ops);
  }

  // Two histories that end in the same contents end in the same bytes.
  lemma HistoryIndependent(g: Geometry, slots: nat, a: seq<Op>, b: seq<Op>)
    requires Covers(g, slots)
    requires MapRun(g, slots, map[], a) == MapRun(g, slots, map[], b)
    ensures Run(g, Empty(slots), a) == Run(g, Empty(slots), b)
  {
    RunRefines(g, slots, a);
    RunRefines(g, slots, b);
    Canonical(g, Run(g, Empty(slots), a), Run(g, Empty(slots), b), MapRun(g, slots, map[], a));
  }

  // ---- fitting is a property of the key set, and closed downward ----

  lemma FitsWithout(g: Geometry, slots: nat, m: map<Key, Record>, k: Key)
    requires Fits(g, slots, m)
    ensures Fits(g, slots, m - {k})
  {
    var b: seq<Slot> :| |b| == slots && Represents(g, b, m);
    if k in m {
      var p :| StoredAt(b, m[k], p);
      RemoveExact(g, b, m, p);
      assert |RemoveAt(g, b, p)| == slots;
    } else {
      assert m - {k} == m;
    }
  }

  lemma FitsReplaced(g: Geometry, slots: nat, m: map<Key, Record>, r: Record)
    requires Fits(g, slots, m) && r.key in m
    ensures Fits(g, slots, m[r.key := r])
  {
    var b: seq<Slot> :| |b| == slots && Represents(g, b, m);
    var p :| StoredAt(b, m[r.key], p);
    assert b[p].value.key == r.key;
    PutKeepsInv(g, b, r, p);
    PutHolds(b, m, r, p);
    assert |b[p := Some(r)]| == slots;
  }

  lemma {:induction false} FitsFewer(g: Geometry, slots: nat, m: map<Key, Record>, small: map<Key, Record>)
    requires Fits(g, slots, m) && small.Keys <= m.Keys && forall k :: k in small ==> small[k].key == k
    ensures Fits(g, slots, small)
    decreases |Differing(m, small)|
  {
    if k :| k in m && (k !in small || small[k] != m[k]) {
      var next := if k in small then m[k := small[k]] else m - {k};
      if k in small {
        FitsReplaced(g, slots, m, small[k]);
      } else {
        FitsWithout(g, slots, m, k);
      }
      assert Differing(next, small) == Differing(m, small) - {k};
      FitsFewer(g, slots, next, small);
    } else {
      assert m == small;
    }
  }

  function Differing(m: map<Key, Record>, small: map<Key, Record>): set<Key> {
    set k | k in m && (k !in small || small[k] != m[k])
  }

  // ---- arrival order ----

  function Puts(recs: seq<Record>): (ops: seq<Op>)
    ensures |ops| == |recs| && forall i :: 0 <= i < |recs| ==> ops[i] == Put(recs[i])
  {
    seq(|recs|, i requires 0 <= i < |recs| => Put(recs[i]))
  }

  // m keeps, of the records offered, one of the newest for each key and nothing else.
  ghost predicate NewestOf(m: map<Key, Record>, recs: seq<Record>) {
    && (forall k :: k in m ==> m[k].key == k && m[k] in recs)
    && (forall r :: r in recs ==> r.key in m && r.epoch <= m[r.key].epoch)
  }

  ghost predicate Unambiguous(recs: seq<Record>) {
    forall r, s :: r in recs && s in recs && r.key == s.key && r.epoch == s.epoch ==> r == s
  }

  lemma NewestIsUnique(m: map<Key, Record>, n: map<Key, Record>, a: seq<Record>, b: seq<Record>)
    requires NewestOf(m, a) && NewestOf(n, b) && Unambiguous(a) && forall r :: r in a <==> r in b
    ensures m == n
  {
    assert m.Keys == n.Keys;
    forall k | k in m ensures m[k] == n[k] {
      assert m[k] in a && n[k] in a;
    }
  }

  lemma OneMoreInsert(g: Geometry, slots: nat, m: map<Key, Record>, before: seq<Record>, r: Record)
    requires NewestOf(m, before) && g.lo <= r.key < g.hi
    requires r.key !in m ==> Fits(g, slots, m[r.key := r])
    ensures NewestOf(MapStep(g, slots, m, Put(r)), before + [r])
  {
    forall s | s in before + [r] ensures s in before || s == r {
    }
    assert r in before + [r] && forall s :: s in before ==> s in before + [r];
  }

  lemma NewRecordFits(
    g: Geometry, slots: nat, recs: seq<Record>, all: map<Key, Record>, m: map<Key, Record>, before: seq<Record>,
    r: Record)
    requires NewestOf(all, recs) && Fits(g, slots, all) && NewestOf(m, before)
    requires r in recs && forall s :: s in before ==> s in recs
    ensures Fits(g, slots, m[r.key := r])
  {
    FitsFewer(g, slots, all, m[r.key := r]);
  }

  lemma RunOneMorePut(g: Geometry, slots: nat, before: seq<Record>, r: Record)
    ensures MapRun(g, slots, map[], Puts(before + [r])) ==
            MapStep(g, slots, MapRun(g, slots, map[], Puts(before)), Put(r))
  {
    assert Puts(before + [r])[..|before|] == Puts(before);
  }

  lemma {:induction false} InsertsKeepNewest(
    g: Geometry, slots: nat, recs: seq<Record>, pool: seq<Record>, all: map<Key, Record>)
    requires NewestOf(all, pool) && Fits(g, slots, all)
    requires forall r :: r in recs ==> r in pool && g.lo <= r.key < g.hi
    ensures NewestOf(MapRun(g, slots, map[], Puts(recs)), recs)
  {
    if recs != [] {
      var before, r := recs[..|recs| - 1], recs[|recs| - 1];
      assert recs == before + [r];
      InsertsKeepNewest(g, slots, before, pool, all);
      var m := MapRun(g, slots, map[], Puts(before));
      NewRecordFits(g, slots, pool, all, m, before, r);
      OneMoreInsert(g, slots, m, before, r);
      RunOneMorePut(g, slots, before, r);
    }
  }

  // Any order, and any repetition, of a set of records whose key set fits ends in one and the same
  // body: that of the newest record of each key.
  lemma ArrivalOrderIsInvisible(g: Geometry, slots: nat, a: seq<Record>, b: seq<Record>, all: map<Key, Record>)
    requires Covers(g, slots) && Unambiguous(a) && forall r :: r in a <==> r in b
    requires forall r :: r in a ==> g.lo <= r.key < g.hi
    requires NewestOf(all, a) && Fits(g, slots, all)
    ensures Run(g, Empty(slots), Puts(a)) == Run(g, Empty(slots), Puts(b))
    ensures Represents(g, Run(g, Empty(slots), Puts(a)), all)
  {
    InsertsKeepNewest(g, slots, a, a, all);
    InsertsKeepNewest(g, slots, b, a, all);
    NewestIsUnique(MapRun(g, slots, map[], Puts(a)), MapRun(g, slots, map[], Puts(b)), a, b);
    NewestIsUnique(MapRun(g, slots, map[], Puts(a)), all, a, a);
    RunRefines(g, slots, Puts(a));
    HistoryIndependent(g, slots, Puts(a), Puts(b));
  }
}
