/**
 The slice object: a fixed-size buffer patched in place by the probing loops, proved against the
 value-level layout.
 */
module SliceTable {
  import opened Wrappers
  import opened Bytes
  import opened Addressing
  import opened Layout

  // How many slots of a body are taken.
  function Occupancy(b: seq<Slot>): nat {
    if b == [] then 0
    else Occupancy(b[..|b| - 1]) + if b[|b| - 1].Some? then 1 else 0
  }

  function KeysOf(b: seq<Slot>): set<Key> {
    set i | 0 <= i < |b| && b[i].Some? :: b[i].value.key
  }

  lemma KeysOfSnoc(front: seq<Slot>, last: Slot)
    ensures KeysOf(front + [last]) == KeysOf(front) + if last.Some? then {last.value.key} else {}
  {
    var b := front + [last];
    forall k | k in KeysOf(front) + (if last.Some? then {last.value.key} else {}) ensures k in KeysOf(b) {
      if last.Some? && k == last.value.key {
        assert b[|front|] == last;
      } else {
        var i :| 0 <= i < |front| && front[i].Some? && front[i].value.key == k;
        assert b[i] == front[i];
      }
    }
  }

  lemma {:induction false} OccupancyCountsKeys(b: seq<Slot>)
    requires Sorted(b)
    ensures Occupancy(b) == |KeysOf(b)|
  {
    if b != [] {
      var front, last := b[..|b| - 1], b[|b| - 1];
      assert b == front + [last];
      OccupancyCountsKeys(front);
      KeysOfSnoc(front, last);
      assert last.Some? ==> last.value.key !in KeysOf(front);
    }
  }

  // Recounting a body that holds a map finds the map's size.
  lemma OccupancyIsMapSize(g: Geometry, b: seq<Slot>, m: map<Key, Record>)
    requires Represents(g, b, m)
    ensures Occupancy(b) == |m|
  {
    OccupancyCountsKeys(b);
    forall k | k in m ensures k in KeysOf(b) {
      var i :| StoredAt(b, m[k], i);
    }
    assert KeysOf(b) == m.Keys;
  }

  // A 32-byte key as a number.
  predicate IsKey(k: Key) {
    k < Pow(256, 32)
  }

  ghost predicate Keyed(b: seq<Slot>) {
    forall i :: 0 <= i < |b| && b[i].Some? ==> IsKey(b[i].value.key)
  }

  lemma KeyedAt(g: Geometry, b: seq<Slot>, j: nat)
    requires InSlice(g, b) && Keyed(b) && j < |b|
    ensures b[j].Some? ==> IsKey(b[j].value.key) && g.lo <= b[j].value.key < g.hi
  {
  }

  class Slice {
    const sliceBits: nat
    const slotBits: nat
    const sliceId: nat
    const buf: array<Slot>
    var fill: nat
    ghost const geo: Geometry
    ghost var contents: map<Key, Record>

    ghost predicate Shaped() {
      Widths(sliceBits, slotBits) && buf.Length == Pow(2, slotBits) && geo == GeometryOf(sliceBits, slotBits, sliceId)
    }

    ghost predicate Valid()
      reads this, buf
    {
      && Shaped() && Represents(geo, buf[..], contents) && fill == |contents|
      && forall k :: k in contents ==> IsKey(k)
    }

    function IdealSlot(k: Key): nat
      requires Widths(sliceBits, slotBits)
    {
      SlotOf(Be(k, 32), sliceBits, slotBits)
    }

    lemma IdealSlotInBounds(k: Key)
      requires Shaped()
      ensures IdealSlot(k) < buf.Length
    {
      AddressIsSliceThenSlot(Be(k, 32), sliceBits, slotBits);
    }

    // For a key of this slice the bits name the layout's ideal slot; for any other they name
    // another slice.
    lemma IdealSlotIsIdeal(k: Key)
      requires Shaped() && IsKey(k)
      ensures SliceOf(Be(k, 32), sliceBits) == sliceId <==> geo.lo <= k < geo.hi
      ensures geo.lo <= k < geo.hi ==> IdealSlot(k) == Ideal(geo, k) < buf.Length
    {
      BeRoundTrip(k, 32);
      SliceIsRange(Be(k, 32), sliceBits, slotBits, sliceId);
      if geo.lo <= k < geo.hi {
        SlotIsIdeal(Be(k, 32), sliceBits, slotBits, sliceId);
        IdealSlotInBounds(k);
      }
    }

    constructor (sliceBits: nat, slotBits: nat, sliceId: nat)
      requires Widths(sliceBits, slotBits)
      ensures Valid() && fresh(buf) && contents == map[]
      ensures this.sliceBits == sliceBits && this.slotBits == slotBits && this.sliceId == sliceId
    {
      this.sliceBits, this.slotBits, this.sliceId := sliceBits, slotBits, sliceId;
      geo := GeometryOf(sliceBits, slotBits, sliceId);
      fill, contents := 0, map[];
      buf := new Slot[Pow(2, slotBits)](_ => None);
      new;
      assert forall i :: 0 <= i < buf.Length ==> buf[..][i].None?;
    }

    // Adopt a raw body, recounting fill.  Only the size is checked.
    constructor FromBody(sliceBits: nat, slotBits: nat, sliceId: nat, body: seq<Slot>, ghost m: map<Key, Record>)
      requires Widths(sliceBits, slotBits) && |body| == Pow(2, slotBits)
      ensures Shaped() && fresh(buf) && buf[..] == body && fill == Occupancy(body) && contents == m
      ensures this.sliceBits == sliceBits && this.slotBits == slotBits && this.sliceId == sliceId
      ensures Represents(GeometryOf(sliceBits, slotBits, sliceId), body, m) && (forall k :: k in m ==> IsKey(k))
              ==> Valid()
    {
      this.sliceBits, this.slotBits, this.sliceId := sliceBits, slotBits, sliceId;
      geo := GeometryOf(sliceBits, slotBits, sliceId);
      contents := m;
      buf := new Slot[|body|](i requires 0 <= i < |body| => body[i]);
      var n, count := 0, 0;
      while n < |body|
        invariant n <= |body| && count == Occupancy(body[..n])
      {
        assert body[..n + 1][..n] == body[..n];
        if body[n].Some? {
          count := count + 1;
        }
        n := n + 1;
      }
      fill := count;
      new;
      assert body[..n] == body && buf[..] == body;
      if Represents(GeometryOf(sliceBits, slotBits, sliceId), body, m) {
        OccupancyIsMapSize(GeometryOf(sliceBits, slotBits, sliceId), body, m);
      }
    }

    // Walks right from the ideal slot; answers exactly what the slice holds.
    method Lookup(key: Key) returns (r: Option<(nat, Record)>)
      requires Valid() && IsKey(key)
      ensures r.Some? <==> key in contents
      ensures r.Some? ==> r.value.0 < buf.Length && buf[r.value.0] == Some(r.value.1)
      ensures r.Some? ==> r.value.1 == contents[key]
      ensures geo.lo <= key < geo.hi ==>
                LookupFrom(buf[..], Ideal(geo, key), key) == if r.Some? then Some(r.value.0) else None
    {
      IdealSlotIsIdeal(key);
      LookupExact(geo, buf[..], contents, key);
      r := WalkRight(IdealSlot(key), key);
    }

    // To the key, past every smaller one, and no further than a gap or a larger key.
    method WalkRight(from: nat, key: Key) returns (r: Option<(nat, Record)>)
      ensures LookupFrom(buf[..], from, key) == if r.Some? then Some(r.value.0) else None
      ensures r.Some? ==> r.value.0 < buf.Length && buf[r.value.0] == Some(r.value.1) && r.value.1.key == key
    {
      var s := from;
      while s < buf.Length
        invariant LookupFrom(buf[..], s, key) == LookupFrom(buf[..], from, key)
      {
        match buf[s]
        case None => return None;
        case Some(rec) =>
          if rec.key == key {
            return Some((s, rec));
          } else if rec.key > key {
            return None;
          }
          s := s + 1;
      }
      return None;
    }

    method NextGap(from: nat) returns (gap: Option<nat>)
      requires from <= buf.Length
      ensures gap == var p := Layout.NextGap(buf[..], from); if p == buf.Length then None else Some(p)
    {
      var s := from;
      while s < buf.Length
        invariant from <= s <= buf.Length && Layout.NextGap(buf[..], s) == Layout.NextGap(buf[..], from)
      {
        if buf[s].None? {
          return Some(s);
        }
        s := s + 1;
      }
      return None;
    }

    // Shift the run [s, gap) one slot right and drop the record in.
    method ShiftRun(s: nat, gap: nat, rec: Record)
      requires s <= gap < buf.Length
      modifies buf
      ensures buf[..] == ShiftIn(old(buf[..]), s, gap, rec)
    {
      ghost var b := buf[..];
      var j := gap;
      while j > s
        invariant s <= j <= gap
        invariant forall i :: 0 <= i <= j ==> buf[i] == b[i]
        invariant forall i :: j < i <= gap ==> buf[i] == b[i - 1]
        invariant forall i :: gap < i < buf.Length ==> buf[i] == b[i]
      {
        buf[j] := buf[j - 1];
        j := j - 1;
      }
      buf[s] := Some(rec);
      forall i | 0 <= i < buf.Length ensures buf[..][i] == ShiftIn(b, s, gap, rec)[i] {
        ShiftInAt(b, s, gap, rec, i);
      }
    }

    // What a call to `insert` does to the body, before any meaning is read into it.
    method Place(rec: Record, from: nat) returns (r: Result<nat, SliceError>)
      requires from < buf.Length
      modifies buf, this`fill
      ensures (r, buf[..]) == Layout.Insert(old(buf[..]), from, rec)
      ensures fill == old(fill) +
                if r.Ok? && !(old(buf[..])[r.value].Some? && old(buf[..])[r.value].value.key == rec.key) then 1 else 0
    {
      ghost var b := buf[..];
      var s := from;
      while s < buf.Length
        invariant from <= s <= buf.Length && buf[..] == b && fill == old(fill)
        invariant Scan(b, s, rec.key) == Scan(b, from, rec.key)
      {
        match buf[s]
        case None =>
          buf[s], fill := Some(rec), fill + 1;
          return Ok(s);
        case Some(occ) =>
          if occ.key == rec.key {
            if rec.epoch <= occ.epoch {
              return Err(StaleEpoch(occ.epoch, rec.epoch));
            }
            buf[s] := Some(rec);
            return Ok(s);
          } else if occ.key < rec.key {
            s := s + 1;
          } else {
            var gap := NextGap(s);
            if gap.None? {
              return Err(Full);
            }
            ShiftRun(s, gap.value, rec);
            fill := fill + 1;
            return Ok(s);
          }
      }
      return Err(Full);
    }

    // Insert or replace.  A new key is added, a held one replaced iff its epoch strictly rises; a
    // refused write changes nothing, and Full means the enlarged contents fit no body of this size.
    method Insert(offered: Slot) returns (r: Result<nat, SliceError>)
      requires Valid() && (offered.Some? ==> IsKey(offered.value.key))
      modifies this`fill, this`contents, buf
      ensures Valid()
      ensures r.Err? ==> buf[..] == old(buf[..]) && contents == old(contents)
      ensures r == Err(EmptyRecord) <==> offered.None?
      ensures r.Ok? ==> r.value < buf.Length && buf[r.value] == offered
                        && contents == old(contents)[offered.value.key := offered.value]
                        && (offered.value.key in old(contents) ==>
                              old(contents)[offered.value.key].epoch < offered.value.epoch)
      ensures r.Err? && offered.Some? ==>
                match r.error
                case WrongSlice(expected, got) =>
                  expected == sliceId && got == SliceOf(Be(offered.value.key, 32), sliceBits) != sliceId
                case StaleEpoch(stored, incoming) =>
                  offered.value.key in contents && stored == contents[offered.value.key].epoch
                  && incoming == offered.value.epoch <= stored
                case Full =>
                  offered.value.key !in contents
                  && !Fits(geo, buf.Length, contents[offered.value.key := offered.value])
                case EmptyRecord => false
    {
      if offered.None? {
        return Err(EmptyRecord);
      }
      var rec := offered.value;
      var sid := SliceOf(Be(rec.key, 32), sliceBits);
      IdealSlotIsIdeal(rec.key);
      if sid != sliceId {
        return Err(WrongSlice(sliceId, sid));
      }
      ghost var b := buf[..];
      InsertMeaning(geo, b, contents, rec);
      r := Place(rec, IdealSlot(rec.key));
      if r.Ok? {
        contents := contents[rec.key := rec];
      }
    }

    // Remove, the exact inverse of insert.
    method Remove(key: Key) returns (found: bool)
      requires Valid() && IsKey(key)
      modifies this`fill, this`contents, buf
      ensures Valid()
      ensures found <==> key in old(contents)
      ensures contents == old(contents) - {key}
      ensures !found ==> buf[..] == old(buf[..])
      ensures found
              ==> exists p :: StoredAt(old(buf[..]), old(contents)[key], p) && buf[..] == RemoveAt(geo, old(buf[..]), p)
    {
      var hit := Lookup(key);
      if hit.None? {
        assert contents - {key} == contents;
        return false;
      }
      var slot := hit.value.0;
      assert StoredAt(buf[..], contents[key], slot);
      RemoveSlot(slot, hit.value.1.key);
      found := true;
    }

    method RemoveSlot(slot: nat, ghost key: Key)
      requires Valid() && slot < buf.Length && buf[slot].Some? && buf[slot].value.key == key
      modifies this`fill, this`contents, buf
      ensures Valid()
      ensures contents == old(contents) - {key}
      ensures buf[..] == RemoveAt(geo, old(buf[..]), slot)
    {
      ghost var b := buf[..];
      RemoveExact(geo, b, contents, slot);
      AllAimed(b);
      PullRun(slot, b);
      assert key in contents;
      fill := fill - 1;
      contents := contents - {key};
    }

    // Each record's slot computes to where the layout wants it.
    ghost predicate Aimed(b: seq<Slot>) {
      && Widths(sliceBits, slotBits)
      && forall i :: 0 <= i < |b| && b[i].Some? ==> IdealSlot(b[i].value.key) == Ideal(geo, b[i].value.key)
    }

    lemma AllAimed(b: seq<Slot>)
      requires Shaped() && Represents(geo, b, contents) && forall k :: k in contents ==> IsKey(k)
      ensures Aimed(b)
    {
      assert Keyed(b) by {
        assert forall i :: 0 <= i < |b| && b[i].Some? ==> b[i].value.key in contents;
      }
      forall i | 0 <= i < |b| && b[i].Some? ensures IdealSlot(b[i].value.key) == Ideal(geo, b[i].value.key) {
        KeyedAt(geo, b, i);
        IdealSlotIsIdeal(b[i].value.key);
      }
    }

    // May this slot's record move one slot left?  Not past its own ideal.
    method CanMoveLeft(slot: Slot, to: nat, ghost b: seq<Slot>, ghost j: nat) returns (yes: bool)
      requires Aimed(b) && j < |b| && slot == b[j]
      ensures yes <==> slot.Some? && Ideal(geo, slot.value.key) <= to
    {
      yes := slot.Some? && IdealSlot(slot.value.key) <= to;
    }

    // The left pull itself: each record after the free slot moves into it, until one is at home.
    method PullRun(slot: nat, ghost b: seq<Slot>)
      requires slot < buf.Length && b == buf[..] && Aimed(b)
      modifies buf
      ensures buf[..] == RemoveAt(geo, b, slot)
    {
      buf[slot] := None;
      var free := PullWhileAway(slot, b);
      buf[free] := None;
      PulledRun(b, buf[..], slot, free + 1);
    }

    method PullWhileAway(slot: nat, ghost b: seq<Slot>) returns (free: nat)
      requires slot < buf.Length == |b| && Aimed(b) && forall i :: 0 <= i < |b| && i != slot ==> buf[i] == b[i]
      modifies buf
      ensures slot <= free < buf.Length && free + 1 == RunEnd(geo, b, slot + 1)
      ensures forall i :: 0 <= i < slot || free < i < buf.Length ==> buf[i] == b[i]
      ensures forall i :: slot <= i < free ==> buf[i] == b[i + 1]
    {
      free := slot;
      var j := slot + 1;
      while j < buf.Length
        invariant slot < j <= buf.Length && free == j - 1
        invariant forall i :: 0 <= i < slot || free < i < buf.Length ==> buf[i] == b[i]
        invariant forall i :: slot <= i < free ==> buf[i] == b[i + 1]
        invariant RunEnd(geo, b, j) == RunEnd(geo, b, slot + 1)
      {
        var yes := CanMoveLeft(buf[j], free, b, j);
        if !yes {
          break;
        }
        buf[free] := buf[j];
        free := j;
        j := j + 1;
      }
    }

    // The two invariants the file names, checked slot by slot.
    method CheckInvariants() returns (ok: bool)
      requires Shaped()
      ensures ok <==> Sorted(buf[..])
                      && forall i :: 0 <= i < buf.Length && buf[i].Some? ==> IdealSlot(buf[i].value.key) <= i
    {
      var last: Option<Key> := None;
      var s := 0;
      while s < buf.Length
        invariant s <= buf.Length && Sorted(buf[..s])
        invariant forall i :: 0 <= i < s && buf[i].Some? ==> IdealSlot(buf[i].value.key) <= i
        invariant forall i :: 0 <= i < s && buf[i].Some? ==> last.Some? && buf[i].value.key <= last.value
        invariant last.Some? ==> exists i :: 0 <= i < s && buf[i].Some? && buf[i].value.key == last.value
      {
        if buf[s].Some? {
          var k := buf[s].value.key;
          if IdealSlot(k) > s {
            return false;
          }
          if last.Some? && k <= last.value {
            assert !Sorted(buf[..]) by {
              ghost var i :| 0 <= i < s && buf[i].Some? && buf[i].value.key == last.value;
              assert buf[..][i].value.key >= buf[..][s].value.key;
            }
            return false;
          }
          last := Some(k);
        }
        s := s + 1;
      }
      assert buf[..s] == buf[..];
      return true;
    }
  }

  lemma PulledRun(b: seq<Slot>, c: seq<Slot>, slot: nat, e: nat)
    requires slot < e <= |b| == |c|
    requires forall i :: 0 <= i < slot || e <= i < |b| ==> c[i] == b[i]
    requires forall i :: slot <= i < e - 1 ==> c[i] == b[i + 1]
    requires c[e - 1].None?
    ensures c == PullLeft(b, slot, e)
  {
    forall i | 0 <= i < |b| ensures c[i] == PullLeft(b, slot, e)[i] {
      PullLeftAt(b, slot, e, i);
    }
  }

  // The body with one record, one slot right of its ideal, and a gap between.
  function OneSlotLate(sliceBits: nat, slotBits: nat, id: nat, r: Record): (b: seq<Slot>)
    requires Widths(sliceBits, slotBits) && slotBits > 0
    ensures |b| == Pow(2, slotBits) > 1
    ensures forall i :: 0 <= i < |b| ==> b[i] == if i == 1 then Some(r) else None
  {
    assert Pow(2, slotBits) == 2 * Pow(2, slotBits - 1);
    seq(Pow(2, slotBits), i => if i == 1 then Some(r) else None)
  }

  // In every slice of every width, a body that passes check_invariants while lookup misses the
  // record stored in it: the slice's lowest key, in slot 1.
  lemma CheckedBodyCanHideARecord(sliceBits: nat, slotBits: nat, id: nat, r: Record)
    requires Widths(sliceBits, slotBits) && slotBits > 0 && id < Pow(2, sliceBits)
    requires r.key == GeometryOf(sliceBits, slotBits, id).lo
    ensures IsKey(r.key)
    ensures var g, b := GeometryOf(sliceBits, slotBits, id), OneSlotLate(sliceBits, slotBits, id, r);
            && InSlice(g, b) && Sorted(b) && NotLeft(g, b)
            && StoredAt(b, r, 1) && LookupFrom(b, Ideal(g, r.key), r.key) == None
  {
    RangeOfField(sliceBits, 32, id);
    LateRecordIsHidden(GeometryOf(sliceBits, slotBits, id), OneSlotLate(sliceBits, slotBits, id, r), r);
  }

  lemma LateRecordIsHidden(g: Geometry, b: seq<Slot>, r: Record)
    requires g.lo < g.hi && r.key == g.lo && |b| > 1
    requires forall i :: 0 <= i < |b| ==> b[i] == if i == 1 then Some(r) else None
    ensures InSlice(g, b) && Sorted(b) && NotLeft(g, b)
    ensures StoredAt(b, r, 1) && LookupFrom(b, Ideal(g, r.key), r.key) == None
  {
    assert Ideal(g, r.key) == 0;
    assert b[0] == None;
  }

  // The id-th of the ranges that a field of `bits` cuts the keys of `bytes` bytes into.
  lemma RangeOfField(bits: nat, bytes: nat, id: nat)
    requires bits <= 8 * bytes && id < Pow(2, bits)
    ensures var w := Pow(2, 8 * bytes - bits); id * w < Pow(256, bytes) && id * w < (id + 1) * w
  {
    PowAdd(2, bits, 8 * bytes - bits);
    Pow256(bytes);
    RangeInside(id, Pow(2, bits), Pow(2, 8 * bytes - bits), Pow(2, 8 * bytes));
  }

  lemma RangeInside(id: nat, n: nat, w: nat, all: nat)
    requires id < n && w > 0 && all == n * w
    ensures id * w < all && id * w < (id + 1) * w
  {
    Distribute(id, 1, w);
    MulMonotone(id + 1, n, w);
  }

  // An accepted insert lands on the key's old slot or grows the map by one.
  lemma InsertLands(g: Geometry, b: seq<Slot>, m: map<Key, Record>, r: Record)
    requires Represents(g, b, m) && g.lo <= r.key < g.hi && Ideal(g, r.key) <= |b|
    requires Layout.Insert(b, Ideal(g, r.key), r).0.Ok?
    ensures var s := Layout.Insert(b, Ideal(g, r.key), r).0.value;
            s < |b| && (r.key in m <==> b[s].Some? && b[s].value.key == r.key)
  {
    InsertExact(g, b, m, r);
    var s := Scan(b, Ideal(g, r.key), r.key);
    if r.key in m {
      var i :| StoredAt(b, m[r.key], i);
      ScanSplits(g, b, r.key);
      assert s <= i;
      var there := b[s];
      assert there.Some?;
      var k := there.value.key;
      assert s < i ==> k < r.key;
    }
  }

  // Everything the result of an insert says about the map.
  lemma InsertMeaning(g: Geometry, b: seq<Slot>, m: map<Key, Record>, r: Record)
    requires Represents(g, b, m) && g.lo <= r.key < g.hi && Ideal(g, r.key) <= |b|
    ensures var (res, c) := Layout.Insert(b, Ideal(g, r.key), r);
            match res
            case Ok(s) =>
              && s < |b| && c[s] == Some(r) && Represents(g, c, m[r.key := r])
              && (r.key in m ==> m[r.key].epoch < r.epoch)
              && (r.key in m <==> b[s].Some? && b[s].value.key == r.key)
            case Err(StaleEpoch(stored, incoming)) =>
              r.key in m && stored == m[r.key].epoch && incoming == r.epoch && incoming <= stored
            case Err(Full) => r.key !in m && !Fits(g, |b|, m[r.key := r])
            case Err(_) => false
  {
    InsertExact(g, b, m, r);
    if r.key !in m {
      FullMeansOverrun(g, b, m, r);
    }
    if Layout.Insert(b, Ideal(g, r.key), r).0.Ok? {
      InsertLands(g, b, m, r);
    }
  }
}
