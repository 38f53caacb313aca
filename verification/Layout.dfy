/**
 The phonebook slice as a value: a gapped, sorted table with ordered linear probing.

 The source names two invariants (sorted; no record left of its ideal slot).  They do not suffice
 for `lookup`: it also needs every slot from a record's ideal to the record itself to be occupied.
 With all three the body is a function of its contents alone, and everything below follows.
 */
module Layout {
  import opened Wrappers

  type Key = nat

  // One occupied slot.  `key` is what the record's defining fields hash to.
  datatype Record = Record(key: Key, epoch: int, body: int)

  type Slot = Option<Record>

  // The keys of one slice, lo <= k < hi, cut into runs of `width` keys that share an ideal slot.
  datatype Geometry = Geometry(lo: nat, hi: nat, width: nat)

  // The slot a key is aimed at: how many whole runs lie below it in its slice.
  function Ideal(g: Geometry, k: Key): nat
    decreases k
  {
    if g.width == 0 || k < g.lo + g.width then 0 else 1 + Ideal(g, k - g.width)
  }

  lemma {:induction false} Monotone(g: Geometry, j: Key, k: Key)
    ensures j <= k ==> Ideal(g, j) <= Ideal(g, k)
    ensures Ideal(g, j) < Ideal(g, k) ==> j < k
    decreases j + k
  {
    if g.width > 0 && j >= g.lo + g.width && k >= g.lo + g.width {
      Monotone(g, j - g.width, k - g.width);
    }
  }

  // ---- the invariants ----

  ghost predicate Sorted(b: seq<Slot>) {
    forall i, j :: 0 <= i < j < |b| && b[i].Some? && b[j].Some? ==> b[i].value.key < b[j].value.key
  }

  ghost predicate NotLeft(g: Geometry, b: seq<Slot>) {
    forall i :: 0 <= i < |b| && b[i].Some? ==> Ideal(g, b[i].value.key) <= i
  }

  ghost predicate Occupied(b: seq<Slot>, from: nat, to: nat)
    requires to <= |b|
  {
    forall j :: from <= j < to ==> b[j].Some?
  }

  // The unstated third invariant.
  ghost predicate Contiguous(g: Geometry, b: seq<Slot>) {
    forall i :: 0 <= i < |b| && b[i].Some? ==> Occupied(b, Ideal(g, b[i].value.key), i)
  }

  ghost predicate InSlice(g: Geometry, b: seq<Slot>) {
    forall i :: 0 <= i < |b| && b[i].Some? ==> g.lo <= b[i].value.key < g.hi
  }

  ghost predicate Inv(g: Geometry, b: seq<Slot>) {
    InSlice(g, b) && Sorted(b) && NotLeft(g, b) && Contiguous(g, b)
  }

  ghost predicate StoredAt(b: seq<Slot>, r: Record, i: int) {
    0 <= i < |b| && b[i] == Some(r)
  }

  ghost predicate Holds(b: seq<Slot>, m: map<Key, Record>) {
    && (forall i :: 0 <= i < |b| && b[i].Some? ==> b[i].value.key in m && m[b[i].value.key] == b[i].value)
    && (forall k :: k in m ==> m[k].key == k && exists i :: StoredAt(b, m[k], i))
  }

  ghost predicate Represents(g: Geometry, b: seq<Slot>, m: map<Key, Record>) {
    Inv(g, b) && Holds(b, m)
  }

  // ---- lookup ----

  function LookupFrom(b: seq<Slot>, s: nat, k: Key): (r: Option<nat>)
    ensures r.Some? ==> r.value < |b| && b[r.value].Some? && b[r.value].value.key == k
    decreases |b| - s
  {
    if s >= |b| || b[s].None? || b[s].value.key > k then None
    else if b[s].value.key == k then Some(s)
    else LookupFrom(b, s + 1, k)
  }

  lemma {:induction false} LookupWalks(b: seq<Slot>, s: nat, p: nat, k: Key)
    requires Sorted(b) && s <= p < |b| && b[p].Some? && b[p].value.key == k
    requires forall j :: s <= j < p ==> b[j].Some?
    ensures LookupFrom(b, s, k) == Some(p)
    decreases p - s
  {
    if s < p {
      assert b[s].value.key < k;
      LookupWalks(b, s + 1, p, k);
    }
  }

  // lookup answers exactly the map.
  lemma LookupExact(g: Geometry, b: seq<Slot>, m: map<Key, Record>, k: Key)
    requires Represents(g, b, m)
    ensures match LookupFrom(b, Ideal(g, k), k)
            case Some(p) => k in m && b[p] == Some(m[k])
            case None => k !in m
  {
    if k in m {
      var p :| StoredAt(b, m[k], p);
      LookupWalks(b, Ideal(g, k), p, k);
    }
  }

  ghost predicate LookupComplete(g: Geometry, b: seq<Slot>) {
    forall i :: 0 <= i < |b| && b[i].Some? ==>
      LookupFrom(b, Ideal(g, b[i].value.key), b[i].value.key) == Some(i)
  }

  // For a body that passes check_invariants, every stored record can be found exactly when the
  // third invariant holds too.
  lemma LookupNeedsContiguity(g: Geometry, b: seq<Slot>)
    requires Sorted(b) && NotLeft(g, b)
    ensures LookupComplete(g, b) <==> Contiguous(g, b)
  {
    if Contiguous(g, b) {
      forall i | 0 <= i < |b| && b[i].Some?
        ensures LookupFrom(b, Ideal(g, b[i].value.key), b[i].value.key) == Some(i)
      {
        LookupWalks(b, Ideal(g, b[i].value.key), i, b[i].value.key);
      }
    }
    if LookupComplete(g, b) {
      forall i | 0 <= i < |b| && b[i].Some?
        ensures Occupied(b, Ideal(g, b[i].value.key), i)
      {
        LookupPassedOver(b, Ideal(g, b[i].value.key), i, b[i].value.key);
      }
    }
  }

  lemma {:induction false} LookupPassedOver(b: seq<Slot>, s: nat, p: nat, k: Key)
    requires LookupFrom(b, s, k) == Some(p) && p < |b|
    ensures Occupied(b, s, p)
    decreases |b| - s
  {
    if s < p {
      LookupPassedOver(b, s + 1, p, k);
    }
  }

  // ---- the layout is canonical ----

  // Equal contents give equal bodies.
  lemma Canonical(g: Geometry, a: seq<Slot>, b: seq<Slot>, m: map<Key, Record>)
    requires |a| == |b| && Represents(g, a, m) && Represents(g, b, m)
    ensures a == b
  {
    CanonicalPrefix(g, a, b, m, |a|);
    assert a[..|a|] == a && b[..|a|] == b;
  }

  lemma {:induction false} CanonicalPrefix(g: Geometry, a: seq<Slot>, b: seq<Slot>, m: map<Key, Record>, n: nat)
    requires n <= |a| == |b| && Represents(g, a, m) && Represents(g, b, m)
    ensures a[..n] == b[..n]
  {
    if n > 0 {
      CanonicalPrefix(g, a, b, m, n - 1);
      CanonicalSlot(g, a, b, m, n - 1);
      assert a[..n] == a[..n - 1] + [a[n - 1]] && b[..n] == b[..n - 1] + [b[n - 1]];
    }
  }

  lemma CanonicalSlot(g: Geometry, a: seq<Slot>, b: seq<Slot>, m: map<Key, Record>, i: nat)
    requires i < |a| == |b| && Represents(g, a, m) && Represents(g, b, m) && a[..i] == b[..i]
    ensures a[i] == b[i]
  {
    assert forall j :: 0 <= j < i ==> a[j] == a[..i][j] == b[..i][j] == b[j];
    if a[i].Some? {
      CanonicalAt(g, a, b, m, i);
      CanonicalAt(g, b, a, m, i);
    } else if b[i].Some? {
      CanonicalAt(g, b, a, m, i);
    }
  }

  // Past a common prefix, the slot that is taken in a is taken in b, by a key no larger.
  lemma CanonicalAt(g: Geometry, a: seq<Slot>, b: seq<Slot>, m: map<Key, Record>, i: nat)
    requires i < |a| == |b| && Represents(g, a, m) && Represents(g, b, m)
    requires a[i].Some? && forall j :: 0 <= j < i ==> a[j] == b[j]
    ensures b[i].Some? && b[i].value.key <= a[i].value.key
  {
    var k := a[i].value.key;
    var j :| StoredAt(b, m[k], j);
    var here, there := a[j], b[j];
    assert j < i ==> here == there;
    assert Occupied(b, Ideal(g, k), j);
  }

  // Where each record sits: right of the previous one, and as near its ideal as that allows.
  function PreviousOccupied(b: seq<Slot>, p: nat): (q: int)
    requires p <= |b|
    ensures -1 <= q < p
    ensures q >= 0 ==> b[q].Some?
    ensures forall j :: q < j < p ==> b[j].None?
  {
    if p == 0 then -1 else if b[p - 1].Some? then p - 1 else PreviousOccupied(b, p - 1)
  }

  lemma PositionFormula(g: Geometry, b: seq<Slot>, p: nat)
    requires Inv(g, b) && p < |b| && b[p].Some?
    ensures var ideal, next := Ideal(g, b[p].value.key), PreviousOccupied(b, p) + 1;
            p == if ideal > next then ideal else next
  {
    assert Occupied(b, Ideal(g, b[p].value.key), p);
  }

  // ---- insert ----

  datatype SliceError =
    | Full
    | StaleEpoch(stored: int, incoming: int)
    | WrongSlice(expected: nat, got: nat)
    | EmptyRecord

  // The first slot from s on that is empty or holds a key at or past k.
  function Scan(b: seq<Slot>, s: nat, k: Key): (p: nat)
    requires s <= |b|
    ensures s <= p <= |b|
    ensures forall j :: s <= j < p ==> b[j].Some? && b[j].value.key < k
    ensures p < |b| && b[p].Some? ==> b[p].value.key >= k
    decreases |b| - s
  {
    if s == |b| || b[s].None? || b[s].value.key >= k then s else Scan(b, s + 1, k)
  }

  function NextGap(b: seq<Slot>, from: nat): (p: nat)
    requires from <= |b|
    ensures from <= p <= |b|
    ensures forall j :: from <= j < p ==> b[j].Some?
    ensures p < |b| ==> b[p].None?
    decreases |b| - from
  {
    if from == |b| || b[from].None? then from else NextGap(b, from + 1)
  }

  function ShiftIn(b: seq<Slot>, s: nat, gap: nat, r: Record): (c: seq<Slot>)
    requires s <= gap < |b|
    ensures |c| == |b|
  {
    b[..s] + [Some(r)] + b[s..gap] + b[gap + 1..]
  }

  // The body insert leaves, given that the record's key is in the slice.
  function Insert(b: seq<Slot>, ideal: nat, r: Record): (res: (Result<nat, SliceError>, seq<Slot>))
    requires ideal <= |b|
    ensures |res.1| == |b|
    ensures res.0.Err? ==> res.1 == b
  {
    var s := Scan(b, ideal, r.key);
    if s == |b| then (Err(Full), b)
    else if b[s].None? then (Ok(s), b[s := Some(r)])
    else if b[s].value.key == r.key then
      if r.epoch <= b[s].value.epoch then (Err(StaleEpoch(b[s].value.epoch, r.epoch)), b)
      else (Ok(s), b[s := Some(r)])
    else
      var gap := NextGap(b, s);
      if gap == |b| then (Err(Full), b) else (Ok(s), ShiftIn(b, s, gap, r))
  }

  lemma ShiftInAt(b: seq<Slot>, s: nat, gap: nat, r: Record, i: nat)
    requires s <= gap < |b| && i < |b|
    ensures ShiftIn(b, s, gap, r)[i] ==
            if i < s || i > gap then b[i] else if i == s then Some(r) else b[i - 1]
  {
  }

  lemma LeftIsSmaller(g: Geometry, b: seq<Slot>, k: Key, i: nat)
    requires Inv(g, b) && g.lo <= k < g.hi && Ideal(g, k) <= |b|
    requires i < Scan(b, Ideal(g, k), k) && b[i].Some?
    ensures b[i].value.key < k
  {
    if i < Ideal(g, k) {
      Monotone(g, b[i].value.key, k);
    }
  }

  lemma RightIsLarger(g: Geometry, b: seq<Slot>, k: Key, s: nat, i: nat)
    requires Inv(g, b) && Ideal(g, k) <= s <= i < |b| && b[i].Some?
    requires b[s].Some? ==> b[s].value.key >= k
    ensures b[i].value.key >= k
    ensures b[s].None? ==> b[i].value.key > k
  {
    if b[s].None? {
      assert Occupied(b, Ideal(g, b[i].value.key), i);
      Monotone(g, b[i].value.key, k);
    } else if s < i {
      assert b[s].value.key < b[i].value.key;
    }
  }

  // Everything left of the scan's end is smaller, everything from it on is at or past k.
  lemma ScanSplits(g: Geometry, b: seq<Slot>, k: Key)
    requires Inv(g, b) && g.lo <= k < g.hi && Ideal(g, k) <= |b|
    ensures forall i :: 0 <= i < Scan(b, Ideal(g, k), k) && b[i].Some? ==> b[i].value.key < k
    ensures forall i :: Scan(b, Ideal(g, k), k) <= i < |b| && b[i].Some? ==>
              b[i].value.key >= k && (b[Scan(b, Ideal(g, k), k)].None? ==> b[i].value.key > k)
  {
    var s := Scan(b, Ideal(g, k), k);
    forall i | 0 <= i < s && b[i].Some? ensures b[i].value.key < k {
      LeftIsSmaller(g, b, k, i);
    }
    forall i | s <= i < |b| && b[i].Some?
      ensures b[i].value.key >= k && (b[s].None? ==> b[i].value.key > k)
    {
      RightIsLarger(g, b, k, s, i);
    }
  }

  lemma Absent(b: seq<Slot>, m: map<Key, Record>, k: Key)
    requires Holds(b, m) && forall i :: 0 <= i < |b| && b[i].Some? ==> b[i].value.key != k
    ensures k !in m
  {
    assert k in m ==> exists i :: StoredAt(b, m[k], i);
  }

  lemma PutHolds(b: seq<Slot>, m: map<Key, Record>, r: Record, s: nat)
    requires Holds(b, m) && s < |b|
    requires b[s].None? ==> r.key !in m
    requires b[s].Some? ==> b[s].value.key == r.key
    requires forall i :: 0 <= i < |b| && i != s && b[i].Some? ==> b[i].value.key != r.key
    ensures Holds(b[s := Some(r)], m[r.key := r])
  {
    var c, m' := b[s := Some(r)], m[r.key := r];
    forall k | k in m' ensures m'[k].key == k && exists i :: StoredAt(c, m'[k], i) {
      if k == r.key {
        assert StoredAt(c, r, s);
      } else {
        var i :| StoredAt(b, m[k], i);
        assert StoredAt(c, m'[k], i);
      }
    }
  }

  lemma PutKeepsInv(g: Geometry, b: seq<Slot>, r: Record, s: nat)
    requires Inv(g, b) && g.lo <= r.key < g.hi && Ideal(g, r.key) <= s < |b|
    requires Occupied(b, Ideal(g, r.key), s)
    requires forall i :: 0 <= i < s && b[i].Some? ==> b[i].value.key < r.key
    requires forall i :: s < i < |b| && b[i].Some? ==> b[i].value.key > r.key
    ensures Inv(g, b[s := Some(r)])
  {
    var c := b[s := Some(r)];
    forall i | 0 <= i < |c| && c[i].Some? ensures Occupied(c, Ideal(g, c[i].value.key), i) {
      assert i != s ==> Occupied(b, Ideal(g, c[i].value.key), i);
    }
  }

  lemma InsertIntoGap(g: Geometry, b: seq<Slot>, m: map<Key, Record>, r: Record)
    requires Represents(g, b, m) && g.lo <= r.key < g.hi && Ideal(g, r.key) <= |b|
    requires var s := Scan(b, Ideal(g, r.key), r.key); s < |b| && b[s].None?
    ensures r.key !in m
    ensures Represents(g, b[Scan(b, Ideal(g, r.key), r.key) := Some(r)], m[r.key := r])
  {
    ScanSplits(g, b, r.key);
    Absent(b, m, r.key);
    PutKeepsInv(g, b, r, Scan(b, Ideal(g, r.key), r.key));
    PutHolds(b, m, r, Scan(b, Ideal(g, r.key), r.key));
  }

  lemma InsertReplacing(g: Geometry, b: seq<Slot>, m: map<Key, Record>, r: Record)
    requires Represents(g, b, m) && g.lo <= r.key < g.hi && Ideal(g, r.key) <= |b|
    requires var s := Scan(b, Ideal(g, r.key), r.key); s < |b| && b[s].Some? && b[s].value.key == r.key
    ensures r.key in m && b[Scan(b, Ideal(g, r.key), r.key)] == Some(m[r.key])
    ensures Represents(g, b[Scan(b, Ideal(g, r.key), r.key) := Some(r)], m[r.key := r])
  {
    PutKeepsInv(g, b, r, Scan(b, Ideal(g, r.key), r.key));
    PutHolds(b, m, r, Scan(b, Ideal(g, r.key), r.key));
  }

  lemma InsertShifting(g: Geometry, b: seq<Slot>, m: map<Key, Record>, r: Record, s: nat, gap: nat)
    requires Represents(g, b, m) && g.lo <= r.key < g.hi && Ideal(g, r.key) <= |b|
    requires s == Scan(b, Ideal(g, r.key), r.key) && s < |b| && b[s].Some? && b[s].value.key > r.key
    requires gap == NextGap(b, s) && gap < |b|
    ensures r.key !in m && Represents(g, ShiftIn(b, s, gap, r), m[r.key := r])
  {
    ScanSplits(g, b, r.key);
    ShiftKeepsInv(g, b, r, s, gap);
    ShiftHolds(b, m, r, s, gap);
  }

  lemma ShiftKeepsInv(g: Geometry, b: seq<Slot>, r: Record, s: nat, gap: nat)
    requires Inv(g, b) && g.lo <= r.key < g.hi && Ideal(g, r.key) <= s < gap < |b|
    requires forall i :: 0 <= i < s && b[i].Some? ==> b[i].value.key < r.key
    requires forall i :: s <= i < |b| && b[i].Some? ==> b[i].value.key > r.key
    requires forall i :: Ideal(g, r.key) <= i < gap ==> b[i].Some?
    requires b[gap].None?
    ensures Inv(g, ShiftIn(b, s, gap, r))
  {
    var c := ShiftIn(b, s, gap, r);
    forall i | 0 <= i < |b| ensures c[i] == ShiftedAt(b, s, gap, r, i) {
      ShiftInAt(b, s, gap, r, i);
    }
    ShiftKeepsOrder(b, c, r, s, gap);
    forall i | 0 <= i < |c| && c[i].Some?
      ensures Ideal(g, c[i].value.key) <= i && Occupied(c, Ideal(g, c[i].value.key), i)
    {
      ShiftKeepsRun(g, b, c, r, s, gap, i);
    }
  }

  function ShiftedAt(b: seq<Slot>, s: nat, gap: nat, r: Record, i: nat): Slot
    requires s < gap < |b| && i < |b|
  {
    if i < s || i > gap then b[i] else if i == s then Some(r) else b[i - 1]
  }

  lemma ShiftKeepsOrder(b: seq<Slot>, c: seq<Slot>, r: Record, s: nat, gap: nat)
    requires Sorted(b) && s < gap < |b| == |c| && b[gap].None?
    requires forall i :: 0 <= i < |b| ==> c[i] == ShiftedAt(b, s, gap, r, i)
    requires forall i :: 0 <= i < s && b[i].Some? ==> b[i].value.key < r.key
    requires forall i :: s <= i < |b| && b[i].Some? ==> b[i].value.key > r.key
    ensures Sorted(c)
  {
  }

  lemma ShiftKeepsRun(g: Geometry, b: seq<Slot>, c: seq<Slot>, r: Record, s: nat, gap: nat, i: nat)
    requires NotLeft(g, b) && Contiguous(g, b) && Ideal(g, r.key) <= s < gap < |b| == |c| && b[gap].None?
    requires forall i :: 0 <= i < |b| ==> c[i] == ShiftedAt(b, s, gap, r, i)
    requires forall i :: Ideal(g, r.key) <= i < gap ==> b[i].Some?
    requires i < |c| && c[i].Some?
    ensures Ideal(g, c[i].value.key) <= i && Occupied(c, Ideal(g, c[i].value.key), i)
  {
    var k := c[i].value.key;
    if i != s {
      var from := if i < s || i > gap then i else i - 1;
      assert b[from] == c[i] && Occupied(b, Ideal(g, k), from);
    }
  }

  lemma ShiftHolds(b: seq<Slot>, m: map<Key, Record>, r: Record, s: nat, gap: nat)
    requires Holds(b, m) && s < gap < |b| && b[gap].None?
    requires forall i :: 0 <= i < |b| && b[i].Some? ==> b[i].value.key != r.key
    ensures r.key !in m && Holds(ShiftIn(b, s, gap, r), m[r.key := r])
  {
    var c, m' := ShiftIn(b, s, gap, r), m[r.key := r];
    forall i | 0 <= i < |b|
      ensures c[i] == if i < s || i > gap then b[i] else if i == s then Some(r) else b[i - 1]
    {
      ShiftInAt(b, s, gap, r, i);
    }
    Absent(b, m, r.key);
    forall k | k in m' ensures exists i :: StoredAt(c, m'[k], i) {
      if k == r.key {
        assert StoredAt(c, r, s);
      } else {
        var i :| StoredAt(b, m[k], i);
        assert StoredAt(c, m[k], if i < s || i > gap then i else i + 1);
      }
    }
  }

  // insert refines the map: a new key is added, a held one replaced iff its epoch strictly rises,
  // and Full comes only when nothing is free from the ideal slot to the end.
  lemma InsertExact(g: Geometry, b: seq<Slot>, m: map<Key, Record>, r: Record)
    requires Represents(g, b, m) && g.lo <= r.key < g.hi && Ideal(g, r.key) <= |b|
    ensures var (res, c) := Insert(b, Ideal(g, r.key), r);
            match res
            case Ok(s) => Represents(g, c, m[r.key := r]) && StoredAt(c, r, s)
                          && (r.key in m ==> m[r.key].epoch < r.epoch)
            case Err(StaleEpoch(stored, incoming)) =>
              r.key in m && stored == m[r.key].epoch && incoming == r.epoch && incoming <= stored
            case Err(Full) => r.key !in m && forall i :: Ideal(g, r.key) <= i < |b| ==> b[i].Some?
            case Err(_) => false
  {
    var s := Scan(b, Ideal(g, r.key), r.key);
    if s < |b| && b[s].None? {
      InsertIntoGap(g, b, m, r);
    } else if s < |b| && b[s].value.key == r.key {
      InsertReplacing(g, b, m, r);
    } else {
      InsertPastLarger(g, b, m, r);
    }
  }

  lemma InsertPastLarger(g: Geometry, b: seq<Slot>, m: map<Key, Record>, r: Record)
    requires Represents(g, b, m) && g.lo <= r.key < g.hi && Ideal(g, r.key) <= |b|
    requires var s := Scan(b, Ideal(g, r.key), r.key); s < |b| ==> b[s].Some? && b[s].value.key > r.key
    ensures r.key !in m
    ensures var (res, c) := Insert(b, Ideal(g, r.key), r);
            match res
            case Ok(s) => Represents(g, c, m[r.key := r]) && StoredAt(c, r, s)
            case Err(e) => e == Full && forall i :: Ideal(g, r.key) <= i < |b| ==> b[i].Some?
  {
    var s := Scan(b, Ideal(g, r.key), r.key);
    PastLargerIsAbsent(g, b, m, r.key);
    if s < |b| {
      var gap := NextGap(b, s);
      if gap < |b| {
        InsertShifting(g, b, m, r, s, gap);
        ShiftInAt(b, s, gap, r, s);
      }
    }
  }

  lemma PastLargerIsAbsent(g: Geometry, b: seq<Slot>, m: map<Key, Record>, k: Key)
    requires Represents(g, b, m) && g.lo <= k < g.hi && Ideal(g, k) <= |b|
    requires var s := Scan(b, Ideal(g, k), k); s < |b| ==> b[s].Some? && b[s].value.key > k
    ensures k !in m
  {
    ScanSplits(g, b, k);
    NoneIsEqual(b, k, Scan(b, Ideal(g, k), k));
    Absent(b, m, k);
  }

  lemma NoneIsEqual(b: seq<Slot>, k: Key, s: nat)
    requires Sorted(b) && s <= |b| && forall i :: 0 <= i < s && b[i].Some? ==> b[i].value.key < k
    requires s < |b| ==> b[s].Some? && b[s].value.key > k
    ensures forall i :: 0 <= i < |b| && b[i].Some? ==> b[i].value.key != k
  {
    forall i | 0 <= i < |b| && b[i].Some? ensures b[i].value.key != k {
      assert s < i ==> b[s].value.key < b[i].value.key;
    }
  }

  // ---- remove ----

  // The end of the run that follows p: each record up to it moves one slot left.
  function RunEnd(g: Geometry, b: seq<Slot>, j: nat): (e: nat)
    requires 0 < j <= |b|
    ensures j <= e <= |b|
    ensures forall i :: j <= i < e ==> b[i].Some? && Ideal(g, b[i].value.key) <= i - 1
    ensures e < |b| && b[e].Some? ==> Ideal(g, b[e].value.key) > e - 1
    decreases |b| - j
  {
    if j == |b| || b[j].None? || Ideal(g, b[j].value.key) > j - 1 then j else RunEnd(g, b, j + 1)
  }

  function PullLeft(b: seq<Slot>, p: nat, e: nat): (c: seq<Slot>)
    requires p < e <= |b|
    ensures |c| == |b|
  {
    b[..p] + b[p + 1..e] + [None] + b[e..]
  }

  function RemoveAt(g: Geometry, b: seq<Slot>, p: nat): (c: seq<Slot>)
    requires p < |b|
    ensures |c| == |b|
  {
    PullLeft(b, p, RunEnd(g, b, p + 1))
  }

  lemma PullLeftAt(b: seq<Slot>, p: nat, e: nat, i: nat)
    requires p < e <= |b| && i < |b|
    ensures PullLeft(b, p, e)[i] == if i < p || i >= e then b[i] else if i == e - 1 then None else b[i + 1]
  {
  }

  lemma RemoveExact(g: Geometry, b: seq<Slot>, m: map<Key, Record>, p: nat)
    requires Represents(g, b, m) && p < |b| && b[p].Some?
    ensures Represents(g, RemoveAt(g, b, p), m - {b[p].value.key})
    ensures exists f :: p <= f < |b| && RemoveAt(g, b, p)[f].None?
  {
    var e := RunEnd(g, b, p + 1);
    PullKeepsInv(g, b, p, e);
    PullHolds(b, m, p, e);
    PullLeftAt(b, p, e, e - 1);
  }

  lemma PullKeepsInv(g: Geometry, b: seq<Slot>, p: nat, e: nat)
    requires Inv(g, b) && p < e <= |b| && b[p].Some?
    requires forall i :: p < i < e ==> b[i].Some? && Ideal(g, b[i].value.key) <= i - 1
    requires e < |b| && b[e].Some? ==> Ideal(g, b[e].value.key) > e - 1
    ensures Inv(g, PullLeft(b, p, e))
  {
    var c := PullLeft(b, p, e);
    forall i | 0 <= i < |b|
      ensures c[i] == if i < p || i >= e then b[i] else if i == e - 1 then None else b[i + 1]
    {
      PullLeftAt(b, p, e, i);
    }
    PullKeepsSorted(g, b, p, e);
    forall i | 0 <= i < |c| && c[i].Some? ensures Occupied(c, Ideal(g, c[i].value.key), i) {
      PullKeepsRun(g, b, p, e, i);
    }
  }

  lemma PullKeepsSorted(g: Geometry, b: seq<Slot>, p: nat, e: nat)
    requires Inv(g, b) && p < e <= |b|
    ensures Sorted(PullLeft(b, p, e))
  {
    var c := PullLeft(b, p, e);
    forall i, j | 0 <= i < j < |c| && c[i].Some? && c[j].Some? ensures c[i].value.key < c[j].value.key {
      PullLeftAt(b, p, e, i);
      PullLeftAt(b, p, e, j);
    }
  }

  // Nothing at or past the run's end is aimed left of it.
  lemma RunEndIsBoundary(g: Geometry, b: seq<Slot>, e: nat, i: nat)
    requires Inv(g, b) && 0 < e <= i < |b| && b[i].Some?
    requires b[e].Some? ==> Ideal(g, b[e].value.key) > e - 1
    ensures Ideal(g, b[i].value.key) >= e
  {
    if b[e].Some? {
      assert e < i ==> b[e].value.key < b[i].value.key;
      Monotone(g, b[e].value.key, b[i].value.key);
    }
  }

  lemma PullKeepsRun(g: Geometry, b: seq<Slot>, p: nat, e: nat, i: nat)
    requires Inv(g, b) && p < e <= |b| && b[p].Some?
    requires Occupied(b, p, e)
    requires e < |b| && b[e].Some? ==> Ideal(g, b[e].value.key) > e - 1
    requires i < |b| && PullLeft(b, p, e)[i].Some?
    ensures Occupied(PullLeft(b, p, e), Ideal(g, PullLeft(b, p, e)[i].value.key), i)
  {
    var c := PullLeft(b, p, e);
    PullLeftAt(b, p, e, i);
    if i >= e {
      RunEndIsBoundary(g, b, e, i);
    }
    forall j | Ideal(g, c[i].value.key) <= j < i ensures c[j].Some? {
      PullLeftAt(b, p, e, j);
      assert Occupied(b, Ideal(g, c[i].value.key), if i < p || i >= e then i else i + 1);
    }
  }

  lemma PullHolds(b: seq<Slot>, m: map<Key, Record>, p: nat, e: nat)
    requires Sorted(b) && Holds(b, m) && p < e <= |b| && b[p].Some?
    ensures Holds(PullLeft(b, p, e), m - {b[p].value.key})
  {
    var c, m' := PullLeft(b, p, e), m - {b[p].value.key};
    forall k | k in m' ensures exists i :: StoredAt(c, m'[k], i) {
      var i :| StoredAt(b, m[k], i);
      assert m[k].key == k && i != p && m'[k] == m[k];
      PullLeftAt(b, p, e, if i < p || i >= e then i else i - 1);
      assert StoredAt(c, m[k], if i < p || i >= e then i else i - 1);
    }
    forall i | 0 <= i < |b| && c[i].Some? ensures c[i].value.key in m' && m'[c[i].value.key] == c[i].value {
      PullLeftAt(b, p, e, i);
    }
  }

  // Full means the enlarged contents do not fit in this many slots at all.
  lemma FullMeansOverrun(g: Geometry, b: seq<Slot>, m: map<Key, Record>, r: Record)
    requires Represents(g, b, m) && r.key !in m && g.lo <= r.key < g.hi && Ideal(g, r.key) <= |b|
    ensures Insert(b, Ideal(g, r.key), r).0 == Err(Full) <==> !Fits(g, |b|, m[r.key := r])
  {
    InsertExact(g, b, m, r);
    var m' := m[r.key := r];
    forall d: seq<Slot> | |d| == |b| && Represents(g, d, m')
      ensures exists f :: Ideal(g, r.key) <= f < |b| && b[f].None?
    {
      OverrunLeavesGap(g, b, d, m, r);
    }
  }

  // A body that also holds r has, once r is pulled out of it, a gap at or right of r's ideal.
  lemma OverrunLeavesGap(g: Geometry, b: seq<Slot>, d: seq<Slot>, m: map<Key, Record>, r: Record)
    requires Represents(g, b, m) && r.key !in m && |d| == |b|
    requires Represents(g, d, m[r.key := r])
    ensures exists f :: Ideal(g, r.key) <= f < |b| && b[f].None?
  {
    var m' := m[r.key := r];
    var p :| StoredAt(d, m'[r.key], p);
    RemoveExact(g, d, m', p);
    assert m' - {r.key} == m;
    Canonical(g, RemoveAt(g, d, p), b, m);
  }

  ghost predicate Fits(g: Geometry, slots: nat, m: map<Key, Record>) {
    exists b: seq<Slot> :: |b| == slots && Represents(g, b, m)
  }

  // Inserting a new key and removing it again restores the body exactly.
  lemma InsertThenRemove(g: Geometry, b: seq<Slot>, m: map<Key, Record>, r: Record)
    requires Represents(g, b, m) && r.key !in m && g.lo <= r.key < g.hi && Ideal(g, r.key) <= |b|
    requires Insert(b, Ideal(g, r.key), r).0.Ok?
    ensures var (res, c) := Insert(b, Ideal(g, r.key), r);
            res.value < |c| && RemoveAt(g, c, res.value) == b
  {
    InsertExact(g, b, m, r);
    var (res, c) := Insert(b, Ideal(g, r.key), r);
    RemoveExact(g, c, m[r.key := r], res.value);
    assert m[r.key := r] - {r.key} == m;
    Canonical(g, RemoveAt(g, c, res.value), b, m);
  }
}
