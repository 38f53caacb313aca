/**
 The settings sections as labelled rows: every value is preceded by its label, a map without entries
 still writes one row for its clock, and a setting's value may itself be a label.
 */
module SettingsRows {
  import opened Wrappers
  import opened Bytes
  import opened FleetState

  type Pairs = seq<(seq<byte>, Datum)>

  // ---- labels ----

  // The pairs of a row: a trailing label is dropped, an unlabelled value skipped.
  function PairsOf(row: seq<Datum>): Pairs {
    if row == [] then []
    else if !row[0].D? then PairsOf(row[1..])
    else if |row| == 1 then []
    else [(row[0].name, row[1])] + PairsOf(row[2..])
  }

  method LabeledValues(row: seq<Datum>) returns (m: Pairs)
    ensures m == PairsOf(row)
  {
    m := [];
    var i := 0;
    while i < |row|
      invariant i <= |row| && m + PairsOf(row[i..]) == PairsOf(row)
    {
      var v := row[i];
      assert row[i..][0] == v && row[i..][1..] == row[i + 1..];
      i := i + 1;
      if v.D? && i < |row| {
        assert row[i - 1..][1] == row[i] && row[i - 1..][2..] == row[i + 1..];
        assert m + ([(v.name, row[i])] + PairsOf(row[i + 1..])) == m + [(v.name, row[i])] + PairsOf(row[i + 1..]);
        m := m + [(v.name, row[i])];
        i := i + 1;
      }
    }
  }

  // The datum under a name; a repeated label reads as its last occurrence.
  function Lookup(m: Pairs, name: seq<byte>): Option<Datum> {
    if m == [] then None
    else if m[|m| - 1].0 == name then Some(m[|m| - 1].1)
    else Lookup(m[..|m| - 1], name)
  }

  function Labelled(m: Pairs): seq<Datum> {
    if m == [] then [] else [D(m[0].0), m[0].1] + Labelled(m[1..])
  }

  // Whatever the values are, labels included, a labelled row reads back as its pairs.
  lemma {:induction false} LabelledReadsBack(m: Pairs)
    ensures PairsOf(Labelled(m)) == m
  {
    if m != [] {
      var row := Labelled(m);
      assert row[0] == D(m[0].0) && row[1] == m[0].1 && row[2..] == Labelled(m[1..]);
      LabelledReadsBack(m[1..]);
    }
  }

  // The lookup answers with the last pair of that name, and with nothing only when there is none.
  lemma {:induction false} LookupIsLast(m: Pairs, i: nat)
    requires i < |m| && forall j :: i < j < |m| ==> m[j].0 != m[i].0
    ensures Lookup(m, m[i].0) == Some(m[i].1)
  {
    if i < |m| - 1 {
      LookupIsLast(m[..|m| - 1], i);
    }
  }

  lemma {:induction false} LookupMisses(m: Pairs, name: seq<byte>)
    ensures Lookup(m, name).None? <==> forall j :: 0 <= j < |m| ==> m[j].0 != name
  {
    if m != [] {
      LookupMisses(m[..|m| - 1], name);
    }
  }

  function GetK32(m: Pairs, name: seq<byte>): Option<nat> {
    match Lookup(m, name)
    case Some(KE(b)) => if |b| == 32 then Some(BeValue(b)) else None
    case Some(HP(b)) => if |b| == 32 then Some(BeValue(b)) else None
    case _ => None
  }

  function GetE6(m: Pairs, name: seq<byte>): Option<int> {
    match Lookup(m, name)
    case Some(E6(t)) => Some(t)
    case _ => None
  }

  function GetU3(m: Pairs, name: seq<byte>): Option<nat> {
    match Lookup(m, name)
    case Some(U(n)) => if n < 256 then Some(n) else None
    case _ => None
  }

  function GetKey(m: Pairs, name: seq<byte>): Option<seq<byte>> {
    match Lookup(m, name)
    case Some(D(s)) => Some(s)
    case _ => None
  }

  function Flag(b: bool): Datum {
    U(if b then 1 else 0)
  }

  function IsSet(n: Option<nat>): bool {
    n.Some? && n.value != 0
  }

  // The labels, in ASCII.
  const DEVICE: seq<byte> := [100, 101, 118, 105, 99, 101]
  const MAP_UPDATED: seq<byte> := [109, 97, 112, 95, 117, 112, 100, 97, 116, 101, 100]
  const KEY: seq<byte> := [107, 101, 121]
  const VALUE: seq<byte> := [118, 97, 108, 117, 101]
  const ENTRY_UPDATED: seq<byte> := [101, 110, 116, 114, 121, 95, 117, 112, 100, 97, 116, 101, 100]
  const LINKED: seq<byte> := [108, 105, 110, 107, 101, 100]
  const UPDATED: seq<byte> := [117, 112, 100, 97, 116, 101, 100]
  const TOMBSTONE: seq<byte> := [116, 111, 109, 98, 115, 116, 111, 110, 101]

  // ---- global settings ----

  function GlobalRow(e: SettingEntry): seq<Datum> {
    Labelled([(KEY, D(e.key)), (VALUE, e.value), (UPDATED, E6(e.updated)), (TOMBSTONE, Flag(e.tombstone))])
  }

  function ReadGlobal(m: Pairs): Option<SettingEntry> {
    var key, value, updated := GetKey(m, KEY), Lookup(m, VALUE), GetE6(m, UPDATED);
    if key.Some? && value.Some? && updated.Some?
    then Some(SettingEntry(key.value, value.value, updated.value, IsSet(GetU3(m, TOMBSTONE)))) else None
  }

  function GlobalRows(es: seq<SettingEntry>): seq<seq<Datum>> {
    if es == [] then [] else GlobalRows(es[..|es| - 1]) + [GlobalRow(es[|es| - 1])]
  }

  // A malformed row is dropped.
  function ReadGlobals(rows: seq<seq<Datum>>): seq<SettingEntry> {
    if rows == [] then []
    else
      var e := ReadGlobal(PairsOf(rows[|rows| - 1]));
      ReadGlobals(rows[..|rows| - 1]) + if e.Some? then [e.value] else []
  }

  lemma GlobalReadsBack(e: SettingEntry)
    ensures ReadGlobal(PairsOf(GlobalRow(e))) == Some(e)
  {
    var m: Pairs := [(KEY, D(e.key)), (VALUE, e.value), (UPDATED, E6(e.updated)), (TOMBSTONE, Flag(e.tombstone))];
    LabelledReadsBack(m);
    LookupIsLast(m, 0);
    LookupIsLast(m, 1);
    LookupIsLast(m, 2);
    LookupIsLast(m, 3);
  }

  lemma {:induction false} GlobalsRoundTrip(es: seq<SettingEntry>)
    ensures ReadGlobals(GlobalRows(es)) == es
  {
    if es != [] {
      var rows := GlobalRows(es);
      assert rows[..|rows| - 1] == GlobalRows(es[..|es| - 1]);
      GlobalsRoundTrip(es[..|es| - 1]);
      GlobalReadsBack(es[|es| - 1]);
    }
  }

  // ---- device maps ----

  function MapPairs(d: DeviceSettings): Pairs {
    [(DEVICE, KE(Be(d.device, 32))), (MAP_UPDATED, E6(d.updated))]
  }

  function EntryPairs(e: DeviceSetting): Pairs {
    [(KEY, D(e.key)), (VALUE, e.value), (ENTRY_UPDATED, E6(e.updated)), (LINKED, Flag(e.linked))]
  }

  function EntryRows(d: DeviceSettings, n: nat): (rows: seq<seq<Datum>>)
    requires n <= |d.entries|
    ensures |rows| == n
  {
    if n == 0 then [] else EntryRows(d, n - 1) + [Labelled(MapPairs(d) + EntryPairs(d.entries[n - 1]))]
  }

  function MapRows(d: DeviceSettings): (rows: seq<seq<Datum>>)
    ensures rows != []
  {
    if d.entries == [] then [Labelled(MapPairs(d))] else EntryRows(d, |d.entries|)
  }

  function DeviceRows(ds: seq<DeviceSettings>): seq<seq<Datum>> {
    if ds == [] then [] else DeviceRows(ds[..|ds| - 1]) + MapRows(ds[|ds| - 1])
  }

  method WriteDevices(ds: seq<DeviceSettings>) returns (rows: seq<seq<Datum>>)
    ensures rows == DeviceRows(ds)
  {
    rows := [];
    for i := 0 to |ds|
      invariant rows == DeviceRows(ds[..i])
    {
      var d := ds[i];
      ghost var before := rows;
      if d.entries == [] {
        rows := rows + [Labelled(MapPairs(d))];
      }
      for j := 0 to |d.entries|
        invariant rows == before + if d.entries == [] then MapRows(d) else EntryRows(d, j)
      {
        rows := rows + [Labelled(MapPairs(d) + EntryPairs(d.entries[j]))];
      }
      assert ds[..i + 1][..i] == ds[..i];
    }
    assert ds[..|ds|] == ds;
  }

  function FindDevice(ds: seq<DeviceSettings>, device: nat): (i: nat)
    ensures i <= |ds| && (i < |ds| ==> ds[i].device == device)
    ensures forall j :: 0 <= j < i ==> ds[j].device != device
  {
    if ds == [] then 0 else if ds[0].device == device then 0 else 1 + FindDevice(ds[1..], device)
  }

  function ReadEntry(m: Pairs): Option<DeviceSetting> {
    var key, value, updated := GetKey(m, KEY), Lookup(m, VALUE), GetE6(m, ENTRY_UPDATED);
    if key.Some? && value.Some? && updated.Some?
    then Some(DeviceSetting(key.value, value.value, updated.value, IsSet(GetU3(m, LINKED)))) else None
  }

  function Max(a: int, b: int): int {
    if a < b then b else a
  }

  function Opened(out: seq<DeviceSettings>, device: nat, updated: int): (r: seq<DeviceSettings>)
    ensures FindDevice(out, device) < |r|
  {
    if FindDevice(out, device) < |out| then out else out + [DeviceSettings(device, updated, [])]
  }

  // What one row does to the maps read so far.
  function Absorb(out: seq<DeviceSettings>, row: seq<Datum>): seq<DeviceSettings> {
    var m := PairsOf(row);
    var pk, updated := GetK32(m, DEVICE), GetE6(m, MAP_UPDATED);
    if pk.None? || updated.None? then out
    else
      var i, slots := FindDevice(out, pk.value), Opened(out, pk.value, updated.value);
      var e := ReadEntry(m);
      slots[i := DeviceSettings(slots[i].device, Max(slots[i].updated, updated.value),
                                slots[i].entries + if e.Some? then [e.value] else [])]
  }

  function ReadRows(rows: seq<seq<Datum>>): seq<DeviceSettings> {
    if rows == [] then [] else Absorb(ReadRows(rows[..|rows| - 1]), rows[|rows| - 1])
  }

  method ReadDevices(rows: seq<seq<Datum>>) returns (out: seq<DeviceSettings>)
    ensures out == ReadRows(rows)
  {
    out := [];
    for n := 0 to |rows|
      invariant out == ReadRows(rows[..n])
    {
      assert rows[..n + 1][..n] == rows[..n];
      var m := LabeledValues(rows[n]);
      var pk, updated := GetK32(m, DEVICE), GetE6(m, MAP_UPDATED);
      if pk.Some? && updated.Some? {
        var at := FindDevice(out, pk.value);
        if at == |out| {
          out := out + [DeviceSettings(pk.value, updated.value, [])];
        }
        var slot := out[at];
        slot := slot.(updated := Max(slot.updated, updated.value));
        var e := ReadEntry(m);
        if e.Some? {
          slot := slot.(entries := slot.entries + [e.value]);
        }
        assert out[at].entries + [] == out[at].entries;
        out := out[at := slot];
      }
    }
    assert rows[..|rows|] == rows;
  }

  ghost predicate DistinctDevices(ds: seq<DeviceSettings>) {
    forall i, j :: 0 <= i < j < |ds| ==> ds[i].device != ds[j].device
  }

  lemma DeviceReadsBack(d: DeviceSettings, tail: Pairs)
    requires BeValue(Be(d.device, 32)) == d.device
    requires forall i :: 0 <= i < |tail| ==> tail[i].0 != DEVICE && tail[i].0 != MAP_UPDATED
    ensures GetK32(MapPairs(d) + tail, DEVICE) == Some(d.device)
  {
    LookupIsLast(MapPairs(d) + tail, 0);
  }

  lemma ClockReadsBack(d: DeviceSettings, tail: Pairs)
    requires forall i :: 0 <= i < |tail| ==> tail[i].0 != DEVICE && tail[i].0 != MAP_UPDATED
    ensures GetE6(MapPairs(d) + tail, MAP_UPDATED) == Some(d.updated)
  {
    LookupIsLast(MapPairs(d) + tail, 1);
  }

  lemma EntryReadsBack(d: DeviceSettings, e: DeviceSetting)
    ensures ReadEntry(MapPairs(d) + EntryPairs(e)) == Some(e)
  {
    var m := MapPairs(d) + EntryPairs(e);
    LookupIsLast(m, 2);
    LookupIsLast(m, 3);
    LookupIsLast(m, 4);
    LookupIsLast(m, 5);
  }

  lemma BareRowHasNoEntry(d: DeviceSettings)
    ensures ReadEntry(MapPairs(d)).None?
  {
    LookupMisses(MapPairs(d), KEY);
  }

  lemma FindsTheLast(front: seq<DeviceSettings>, d: DeviceSettings)
    requires forall i :: 0 <= i < |front| ==> front[i].device != d.device
    ensures FindDevice(front, d.device) == |front| && FindDevice(front + [d], d.device) == |front|
  {
    var all := front + [d];
    assert all[|front|] == d && forall j :: 0 <= j < |front| ==> all[j] == front[j];
  }

  lemma AbsorbsBare(front: seq<DeviceSettings>, d: DeviceSettings)
    requires BeValue(Be(d.device, 32)) == d.device && d.entries == []
    requires forall i :: 0 <= i < |front| ==> front[i].device != d.device
    ensures Absorb(front, Labelled(MapPairs(d))) == front + [d]
  {
    assert MapPairs(d) + [] == MapPairs(d);
    LabelledReadsBack(MapPairs(d));
    DeviceReadsBack(d, []);
    ClockReadsBack(d, []);
    BareRowHasNoEntry(d);
    FindsTheLast(front, d);
    var slots := front + [d];
    assert slots[|front| := d] == slots && d.entries + [] == d.entries;
  }

  lemma AbsorbsEntry(front: seq<DeviceSettings>, d: DeviceSettings, n: nat)
    requires BeValue(Be(d.device, 32)) == d.device && n < |d.entries|
    requires forall i :: 0 <= i < |front| ==> front[i].device != d.device
    ensures var row := Labelled(MapPairs(d) + EntryPairs(d.entries[n]));
            var part := d.(entries := d.entries[..n]);
            && Absorb(front + [part], row) == front + [d.(entries := d.entries[..n + 1])]
            && (n == 0 ==> Absorb(front, row) == front + [d.(entries := d.entries[..1])])
  {
    var tail := EntryPairs(d.entries[n]);
    LabelledReadsBack(MapPairs(d) + tail);
    DeviceReadsBack(d, tail);
    ClockReadsBack(d, tail);
    EntryReadsBack(d, d.entries[n]);
    FindsTheLast(front, d.(entries := d.entries[..n]));
    assert d.entries[..n] + [d.entries[n]] == d.entries[..n + 1];
  }

  lemma ReadRowsSnoc(rows: seq<seq<Datum>>, row: seq<Datum>)
    ensures ReadRows(rows + [row]) == Absorb(ReadRows(rows), row)
  {
    assert (rows + [row])[..|rows|] == rows;
  }

  // The rows of one map, read onto others' maps, rebuild it entry by entry.
  lemma {:induction false} MapRowsReadBack(before: seq<seq<Datum>>, d: DeviceSettings, n: nat)
    requires BeValue(Be(d.device, 32)) == d.device && 0 < n <= |d.entries|
    requires forall i :: 0 <= i < |ReadRows(before)| ==> ReadRows(before)[i].device != d.device
    ensures ReadRows(before + EntryRows(d, n)) == ReadRows(before) + [d.(entries := d.entries[..n])]
  {
    var row := Labelled(MapPairs(d) + EntryPairs(d.entries[n - 1]));
    assert before + EntryRows(d, n) == before + EntryRows(d, n - 1) + [row];
    ReadRowsSnoc(before + EntryRows(d, n - 1), row);
    AbsorbsEntry(ReadRows(before), d, n - 1);
    if n > 1 {
      MapRowsReadBack(before, d, n - 1);
    } else {
      assert before + EntryRows(d, 0) == before;
    }
  }

  lemma OneMapReadsBack(before: seq<seq<Datum>>, d: DeviceSettings)
    requires BeValue(Be(d.device, 32)) == d.device
    requires forall i :: 0 <= i < |ReadRows(before)| ==> ReadRows(before)[i].device != d.device
    ensures ReadRows(before + MapRows(d)) == ReadRows(before) + [d]
  {
    if d.entries == [] {
      var rows := before + MapRows(d);
      assert rows[..|rows| - 1] == before;
      AbsorbsBare(ReadRows(before), d);
    } else {
      MapRowsReadBack(before, d, |d.entries|);
      assert d.entries[..|d.entries|] == d.entries;
    }
  }

  lemma {:induction false} DevicesReadBack(ds: seq<DeviceSettings>)
    requires DistinctDevices(ds) && forall i :: 0 <= i < |ds| ==> BeValue(Be(ds[i].device, 32)) == ds[i].device
    ensures ReadRows(DeviceRows(ds)) == ds
  {
    if ds == [] {
      assert DeviceRows([]) == [];
    } else {
      var front, d := ds[..|ds| - 1], ds[|ds| - 1];
      assert ds == front + [d];
      DevicesReadBack(front);
      OneMapReadsBack(DeviceRows(front), d);
    }
  }

  // However the rows came, no two maps read are one device's.
  lemma {:induction false} ReadMapsAreDistinct(rows: seq<seq<Datum>>)
    ensures DistinctDevices(ReadRows(rows))
  {
    if rows != [] {
      ReadMapsAreDistinct(rows[..|rows| - 1]);
      AbsorbKeepsDistinct(ReadRows(rows[..|rows| - 1]), rows[|rows| - 1]);
    }
  }

  lemma AbsorbKeepsDistinct(out: seq<DeviceSettings>, row: seq<Datum>)
    requires DistinctDevices(out)
    ensures DistinctDevices(Absorb(out, row))
  {
  }

  // Reading undoes writing exactly when no device has two maps.
  lemma DevicesRoundTrip(ds: seq<DeviceSettings>)
    requires forall i :: 0 <= i < |ds| ==> ds[i].device < Pow(256, 32)
    ensures ReadRows(DeviceRows(ds)) == ds <==> DistinctDevices(ds)
  {
    if DistinctDevices(ds) {
      forall i | 0 <= i < |ds| ensures BeValue(Be(ds[i].device, 32)) == ds[i].device {
        BeRoundTrip(ds[i].device, 32);
      }
      DevicesReadBack(ds);
    } else {
      ReadMapsAreDistinct(DeviceRows(ds));
    }
  }

  // ---- what any rows read as ----

  // Does the row name device d, with a clock?
  predicate Names(row: seq<Datum>, d: nat) {
    GetK32(PairsOf(row), DEVICE) == Some(d) && GetE6(PairsOf(row), MAP_UPDATED).Some?
  }

  function Clock(row: seq<Datum>): int {
    var t := GetE6(PairsOf(row), MAP_UPDATED);
    if t.Some? then t.value else 0
  }

  // The entries of d's rows, in order.
  function EntriesOf(rows: seq<seq<Datum>>, d: nat): seq<DeviceSetting> {
    if rows == [] then []
    else
      var row := rows[|rows| - 1];
      var e := ReadEntry(PairsOf(row));
      EntriesOf(rows[..|rows| - 1], d) + if Names(row, d) && e.Some? then [e.value] else []
  }

  ghost predicate LatestClock(rows: seq<seq<Datum>>, d: nat, t: int) {
    && (exists i :: 0 <= i < |rows| && Names(rows[i], d) && Clock(rows[i]) == t)
    && (forall i :: 0 <= i < |rows| && Names(rows[i], d) ==> Clock(rows[i]) <= t)
  }

  function MapOf(ds: seq<DeviceSettings>, d: nat): Option<DeviceSettings> {
    if FindDevice(ds, d) < |ds| then Some(ds[FindDevice(ds, d)]) else None
  }

  lemma FoundAt(ds: seq<DeviceSettings>, i: nat)
    requires DistinctDevices(ds) && i < |ds|
    ensures FindDevice(ds, ds[i].device) == i && MapOf(ds, ds[i].device) == Some(ds[i])
  {
  }

  lemma AbsorbedMap(out: seq<DeviceSettings>, row: seq<Datum>, d: nat)
    requires DistinctDevices(out)
    ensures var before, e := MapOf(out, d), ReadEntry(PairsOf(row));
            var more := if e.Some? then [e.value] else [];
            MapOf(Absorb(out, row), d) ==
            if !Names(row, d) then before
            else if before.None? then Some(DeviceSettings(d, Clock(row), more))
            else Some(DeviceSettings(d, Max(before.value.updated, Clock(row)), before.value.entries + more))
  {
    AbsorbKeepsDistinct(out, row);
    var pk := GetK32(PairsOf(row), DEVICE);
    if pk.Some? && GetE6(PairsOf(row), MAP_UPDATED).Some? {
      var after, i := Absorb(out, row), FindDevice(out, pk.value);
      FoundAt(after, i);
      if pk.value != d {
        OthersUntouched(out, after, i, d);
      } else {
        var e := ReadEntry(PairsOf(row));
        var more: seq<DeviceSetting> := if e.Some? then [e.value] else [];
        assert [] + more == more && after[i].device == d;
      }
    }
  }

  lemma OthersUntouched(out: seq<DeviceSettings>, after: seq<DeviceSettings>, i: nat, d: nat)
    requires DistinctDevices(out) && DistinctDevices(after) && i <= |out| <= |after| <= |out| + 1
    requires i == |out| <==> |after| > |out|
    requires i < |after| && after[i].device != d && (i < |out| ==> out[i].device != d)
    requires forall j :: 0 <= j < |out| && j != i ==> after[j] == out[j]
    ensures MapOf(after, d) == MapOf(out, d)
  {
    var j, k := FindDevice(out, d), FindDevice(after, d);
    if j < |out| {
      FoundAt(after, j);
    }
    if k < |after| {
      FoundAt(out, k);
    }
  }

  // Whatever the rows: a device has a map exactly when some row names it with a clock; the map's clock is
  // the latest of them and its entries are those of the device's rows, in order.
  lemma {:induction false} ReadMapIs(rows: seq<seq<Datum>>, d: nat)
    ensures match MapOf(ReadRows(rows), d)
            case None => EntriesOf(rows, d) == [] && forall i :: 0 <= i < |rows| ==> !Names(rows[i], d)
            case Some(m) => m.device == d && LatestClock(rows, d, m.updated) && m.entries == EntriesOf(rows, d)
  {
    if rows != [] {
      var front, row := rows[..|rows| - 1], rows[|rows| - 1];
      ReadMapIs(front, d);
      ReadMapsAreDistinct(front);
      AbsorbedMap(ReadRows(front), row, d);
      var m := MapOf(ReadRows(front), d);
      if Names(row, d) {
        ClockAdvances(rows, d, if m.Some? then Some(m.value.updated) else None);
      } else if m.Some? {
        ClockStays(rows, d, m.value.updated);
      }
    }
  }

  lemma ClockAdvances(rows: seq<seq<Datum>>, d: nat, held: Option<int>)
    requires rows != [] && Names(rows[|rows| - 1], d)
    requires var front := rows[..|rows| - 1];
             if held.Some? then LatestClock(front, d, held.value)
             else forall i :: 0 <= i < |front| ==> !Names(front[i], d)
    ensures var t := Clock(rows[|rows| - 1]);
            LatestClock(rows, d, if held.Some? then Max(held.value, t) else t)
  {
    var n := |rows| - 1;
    var front := rows[..n];
    assert forall i :: 0 <= i < n ==> rows[i] == front[i];
    if held.Some? {
      var i :| 0 <= i < n && Names(front[i], d) && Clock(front[i]) == held.value;
      assert Names(rows[i], d) && Names(rows[n], d);
    }
  }

  lemma ClockStays(rows: seq<seq<Datum>>, d: nat, t: int)
    requires rows != [] && !Names(rows[|rows| - 1], d) && LatestClock(rows[..|rows| - 1], d, t)
    ensures LatestClock(rows, d, t)
  {
    var front := rows[..|rows| - 1];
    assert forall i :: 0 <= i < |front| ==> rows[i] == front[i];
    var i :| 0 <= i < |front| && Names(front[i], d) && Clock(front[i]) == t;
    assert Names(rows[i], d);
  }
}
