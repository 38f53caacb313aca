/**
 The fleet-shared state: roster, global settings and per-device maps, and the three merges a puller
 makes.  A value's wire bytes are the caller's `flat`.
 */
module FleetState {
  import opened Wrappers
  import opened Bytes
  import opened Orders
  import opened Sorting
  import opened MergeByKey

  // The value types of a row.  `D` is both a label and a value of its own.
  datatype Datum =
    | D(name: seq<byte>)
    | X(text: seq<byte>)
    | HP(bytes: seq<byte>)
    | KE(bytes: seq<byte>)
    | GE(bytes: seq<byte>)
    | E6(t: int)
    | U(n: nat)
    | Other(tag: nat, bytes: seq<byte>)

  type Flatten = Datum -> seq<byte>

  ghost predicate Injective(flat: Flatten) {
    forall x, y :: flat(x) == flat(y) ==> x == y
  }

  datatype RosterEntry = RosterEntry(
    handleProof: nat,
    handleHash: nat,
    publicIdentity: nat,
    avatarPin: nat,
    added: int,
    updated: int,
    tombstone: bool,
    ceremonyOwner: nat,
    woven: bool,
    trustLevel: byte,
    publishedName: seq<byte>,
    consent: bool)

  datatype SettingEntry = SettingEntry(key: seq<byte>, value: Datum, updated: int, tombstone: bool)

  datatype DeviceSetting = DeviceSetting(key: seq<byte>, value: Datum, updated: int, linked: bool)

  datatype DeviceSettings = DeviceSettings(device: nat, updated: int, entries: seq<DeviceSetting>)

  datatype State = State(roster: seq<RosterEntry>, globals: seq<SettingEntry>, devices: seq<DeviceSettings>)

  function Bit(b: bool): int {
    if b then 1 else 0
  }

  // ---- roster ----

  function RosterCanon(e: RosterEntry): Rank {
    [[e.handleHash], [e.publicIdentity], [e.avatarPin], [e.added], [e.ceremonyOwner], [Bit(e.woven)], [e.trustLevel],
     e.publishedName, [Bit(e.consent)]]
  }

  predicate RosterNewer(e: RosterEntry, cur: RosterEntry) {
    || e.updated > cur.updated
    || (e.updated == cur.updated
        && ((e.tombstone && !cur.tombstone)
            || (e.tombstone == cur.tombstone && RankLess(RosterCanon(cur), RosterCanon(e)))))
  }

  const ROSTER: Rules<RosterEntry> := Rules(
    (e: RosterEntry) => [e.handleProof],
    (e: RosterEntry) => [[e.updated], [Bit(e.tombstone)]] + RosterCanon(e))

  lemma NumberLess(a: int, b: int)
    ensures TextLess([a], [b]) <==> a < b
    ensures [a] == [b] <==> a == b
  {
    var p, q: Text := [a], [b];
    assert p[0] == a && q[0] == b;
    if a == b {
      LexIrreflexive(IntLess, p);
    } else {
      assert Lex(IntLess, p, q) == IntLess(p[0], q[0]);
    }
  }

  lemma HeadThenTail(p: Text, x: Rank, q: Text, y: Rank)
    ensures RankLess([p] + x, [q] + y) <==> TextLess(p, q) || (p == q && RankLess(x, y))
  {
    LexIrreflexive(IntLess, p);
    assert ([p] + x)[1..] == x && ([q] + y)[1..] == y;
  }

  lemma TwoThenTail(a: int, b: int, x: Rank, c: int, d: int, y: Rank)
    ensures RankLess([[a], [b]] + x, [[c], [d]] + y) <==> a < c || (a == c && (b < d || (b == d && RankLess(x, y))))
  {
    assert [[a], [b]] + x == [[a]] + ([[b]] + x) && [[c], [d]] + y == [[c]] + ([[d]] + y);
    HeadThenTail([a], [[b]] + x, [c], [[d]] + y);
    HeadThenTail([b], x, [d], y);
    NumberLess(a, c);
    NumberLess(b, d);
  }

  // The source's nested tie-breaks are one lexicographic comparison.
  lemma RosterNewerIsRank(e: RosterEntry, cur: RosterEntry)
    ensures RosterNewer(e, cur) <==> Newer(ROSTER, e, cur)
  {
    TwoThenTail(cur.updated, Bit(cur.tombstone), RosterCanon(cur), e.updated, Bit(e.tombstone), RosterCanon(e));
  }

  lemma RosterCanonDetermines(x: RosterEntry, y: RosterEntry)
    requires RosterCanon(x) == RosterCanon(y)
    ensures y == x.(handleProof := y.handleProof, updated := y.updated, tombstone := y.tombstone)
  {
    var a, b := RosterCanon(x), RosterCanon(y);
    assert a[0][0] == b[0][0] && a[1][0] == b[1][0] && a[2][0] == b[2][0] && a[3][0] == b[3][0];
    assert a[4][0] == b[4][0] && a[5][0] == b[5][0] && a[6][0] == b[6][0] && a[7] == b[7] && a[8][0] == b[8][0];
  }

  // The tie-break covers every field, so two different copies of one entry never tie.
  lemma RosterDecides()
    ensures Decisive(ROSTER)
  {
    forall x, y | ROSTER.key(x) == ROSTER.key(y) && ROSTER.rank(x) == ROSTER.rank(y) ensures x == y {
      var a, b := ROSTER.rank(x), ROSTER.rank(y);
      assert ROSTER.key(x)[0] == ROSTER.key(y)[0];
      assert a[0][0] == b[0][0] && a[1][0] == b[1][0];
      assert RosterCanon(x) == a[2..] && RosterCanon(y) == b[2..];
      RosterCanonDetermines(x, y);
    }
  }

  // ---- global settings ----

  predicate SettingNewer(flat: Flatten, e: SettingEntry, cur: SettingEntry) {
    || e.updated > cur.updated
    || (e.updated == cur.updated
        && ((e.tombstone && !cur.tombstone)
            || (e.tombstone == cur.tombstone && TextLess(flat(cur.value), flat(e.value)))))
  }

  function Globals(flat: Flatten): Rules<SettingEntry> {
    Rules((e: SettingEntry) => e.key, (e: SettingEntry) => [[e.updated], [Bit(e.tombstone)]] + [flat(e.value)])
  }

  lemma SettingNewerIsRank(flat: Flatten, e: SettingEntry, cur: SettingEntry)
    ensures SettingNewer(flat, e, cur) <==> Newer(Globals(flat), e, cur)
  {
    var x, y: Rank := [flat(cur.value)], [flat(e.value)];
    TwoThenTail(cur.updated, Bit(cur.tombstone), x, e.updated, Bit(e.tombstone), y);
    HeadThenTail(flat(cur.value), [], flat(e.value), []);
    assert [flat(cur.value)] + [] == x && [flat(e.value)] + [] == y;
  }

  lemma GlobalsDecide(flat: Flatten)
    requires Injective(flat)
    ensures Decisive(Globals(flat))
  {
    var r := Globals(flat);
    forall x, y | r.key(x) == r.key(y) && r.rank(x) == r.rank(y) ensures x == y {
      var a, b := r.rank(x), r.rank(y);
      assert a[0][0] == b[0][0] && a[1][0] == b[1][0] && a[2] == b[2];
      assert flat(x.value) == flat(y.value);
    }
  }

  // ---- device maps ----

  function Row(flat: Flatten, e: DeviceSetting): (r: Rank)
    ensures |r| == 4
  {
    [e.key, flat(e.value), [e.updated], [Bit(e.linked)]]
  }

  function EntryLess(flat: Flatten): (DeviceSetting, DeviceSetting) -> bool {
    (x, y) => RankLess(Row(flat, x), Row(flat, y))
  }

  function SortEntries(flat: Flatten, s: seq<DeviceSetting>): (r: seq<DeviceSetting>)
    ensures multiset(r) == multiset(s)
  {
    StableSort(EntryLess(flat), s)
  }

  lemma SortEntriesOrders(flat: Flatten, s: seq<DeviceSetting>)
    ensures Sorted(EntryLess(flat), SortEntries(flat, s))
  {
    RankTotal();
    SortSorts(EntryLess(flat), s);
  }

  lemma RowDetermines(flat: Flatten, x: DeviceSetting, y: DeviceSetting)
    requires Injective(flat) && Row(flat, x) == Row(flat, y)
    ensures x == y
  {
    var a, b := Row(flat, x), Row(flat, y);
    assert a[0] == b[0] && a[1] == b[1] && a[2][0] == b[2][0] && a[3][0] == b[3][0];
    assert flat(x.value) == flat(y.value);
  }

  lemma GreatestIsLast(flat: Flatten, s: seq<DeviceSetting>, x: DeviceSetting)
    requires Sorted(EntryLess(flat), s) && x in s
    ensures !RankLess(Row(flat, s[|s| - 1]), Row(flat, x))
  {
    RankTotal();
  }

  lemma SameGreatest(flat: Flatten, s: seq<DeviceSetting>, t: seq<DeviceSetting>)
    requires Injective(flat) && Sorted(EntryLess(flat), s) && Sorted(EntryLess(flat), t) && multiset(s) == multiset(t)
             && s != [] && t != []
    ensures s[|s| - 1] == t[|t| - 1]
  {
    var x, y := s[|s| - 1], t[|t| - 1];
    assert x in multiset(t) && y in multiset(s);
    GreatestIsLast(flat, s, y);
    GreatestIsLast(flat, t, x);
    RankTotal();
    RowDetermines(flat, x, y);
  }

  // Ordered lists of the same entries are one list.
  lemma {:induction false} OrderedIsUnique(flat: Flatten, s: seq<DeviceSetting>, t: seq<DeviceSetting>)
    requires Injective(flat) && Sorted(EntryLess(flat), s) && Sorted(EntryLess(flat), t) && multiset(s) == multiset(t)
    ensures s == t
  {
    if s == [] {
      SameSize(s, t);
    } else {
      SameSize(s, t);
      SameGreatest(flat, s, t);
      DropLast(s);
      DropLast(t);
      OrderedIsUnique(flat, s[..|s| - 1], t[..|t| - 1]);
      assert s == s[..|s| - 1] + [s[|s| - 1]] && t == t[..|t| - 1] + [t[|t| - 1]];
    }
  }

  lemma SameSize<T>(s: seq<T>, t: seq<T>)
    requires multiset(s) == multiset(t)
    ensures |s| == |t|
  {
    assert |s| == |multiset(s)| == |multiset(t)| == |t|;
  }

  lemma DropLast<T>(s: seq<T>)
    requires s != []
    ensures multiset(s[..|s| - 1]) == multiset(s) - multiset{s[|s| - 1]}
  {
    assert s == s[..|s| - 1] + [s[|s| - 1]];
  }

  lemma SortSeesOnlyEntries(flat: Flatten, s: seq<DeviceSetting>, t: seq<DeviceSetting>)
    requires Injective(flat)
    ensures SortEntries(flat, s) == SortEntries(flat, t) <==> multiset(s) == multiset(t)
  {
    if multiset(s) == multiset(t) {
      SortEntriesOrders(flat, s);
      SortEntriesOrders(flat, t);
      OrderedIsUnique(flat, SortEntries(flat, s), SortEntries(flat, t));
    }
  }

  // A list of entries as the list of its rows, which compares row by row.
  function RowList(flat: Flatten, s: seq<DeviceSetting>): seq<Rank> {
    if s == [] then [] else [Row(flat, s[0])] + RowList(flat, s[1..])
  }

  // The same rows run together.
  function Rows(flat: Flatten, s: seq<DeviceSetting>): Rank {
    if s == [] then [] else Row(flat, s[0]) + Rows(flat, s[1..])
  }

  // Heads of one width decide, and equal ones leave it to the tails.
  lemma {:induction false} HeadsDecide(a: Rank, x: Rank, b: Rank, y: Rank)
    requires |a| == |b|
    ensures RankLess(a + x, b + y) <==> if a == b then RankLess(x, y) else RankLess(a, b)
  {
    if a == [] {
      assert a + x == x && b + y == y;
    } else {
      assert (a + x)[0] == a[0] && (a + x)[1..] == a[1..] + x;
      assert (b + y)[0] == b[0] && (b + y)[1..] == b[1..] + y;
      assert a == [a[0]] + a[1..] && b == [b[0]] + b[1..];
      HeadsDecide(a[1..], x, b[1..], y);
    }
  }

  // Rows are four wide, so the run-together rows compare as the list of rows does.
  lemma {:induction false} RunTogetherCompares(flat: Flatten, s: seq<DeviceSetting>, t: seq<DeviceSetting>)
    ensures RankLess(Rows(flat, s), Rows(flat, t)) <==> Lex(RankLess, RowList(flat, s), RowList(flat, t))
  {
    if s != [] && t != [] {
      HeadsDecide(Row(flat, s[0]), Rows(flat, s[1..]), Row(flat, t[0]), Rows(flat, t[1..]));
      var a, b := RowList(flat, s), RowList(flat, t);
      assert a[0] == Row(flat, s[0]) && a[1..] == RowList(flat, s[1..]);
      assert b[0] == Row(flat, t[0]) && b[1..] == RowList(flat, t[1..]);
      RunTogetherCompares(flat, s[1..], t[1..]);
    } else {
      assert s != [] ==> Rows(flat, s)[0] == Row(flat, s[0])[0];
      assert t != [] ==> Rows(flat, t)[0] == Row(flat, t[0])[0];
    }
  }

  lemma {:induction false} RowsDetermine(flat: Flatten, s: seq<DeviceSetting>, t: seq<DeviceSetting>)
    requires Injective(flat) && Rows(flat, s) == Rows(flat, t)
    ensures s == t
  {
    if s != [] && t != [] {
      assert Row(flat, s[0]) == Rows(flat, s)[..4] && Row(flat, t[0]) == Rows(flat, t)[..4];
      assert Rows(flat, s[1..]) == Rows(flat, s)[4..] && Rows(flat, t[1..]) == Rows(flat, t)[4..];
      RowDetermines(flat, s[0], t[0]);
      RowsDetermine(flat, s[1..], t[1..]);
      assert s == [s[0]] + s[1..] && t == [t[0]] + t[1..];
    }
  }

  function MapCanon(flat: Flatten, d: DeviceSettings): Rank {
    Rows(flat, SortEntries(flat, d.entries))
  }

  function CanonRows(flat: Flatten, d: DeviceSettings): seq<Rank> {
    RowList(flat, SortEntries(flat, d.entries))
  }

  predicate MapNewer(flat: Flatten, d: DeviceSettings, cur: DeviceSettings) {
    d.updated > cur.updated || (d.updated == cur.updated && Lex(RankLess, CanonRows(flat, cur), CanonRows(flat, d)))
  }

  function Devices(flat: Flatten): Rules<DeviceSettings> {
    Rules((d: DeviceSettings) => [d.device], (d: DeviceSettings) => [[d.updated]] + MapCanon(flat, d))
  }

  lemma MapNewerIsRank(flat: Flatten, d: DeviceSettings, cur: DeviceSettings)
    ensures MapNewer(flat, d, cur) <==> Newer(Devices(flat), d, cur)
  {
    RunTogetherCompares(flat, SortEntries(flat, cur.entries), SortEntries(flat, d.entries));
    HeadThenTail([cur.updated], MapCanon(flat, cur), [d.updated], MapCanon(flat, d));
    NumberLess(cur.updated, d.updated);
  }

  // A map with its entries in canonical order.
  function Settled(flat: Flatten): DeviceSettings -> DeviceSettings {
    (d: DeviceSettings) => d.(entries := SortEntries(flat, d.entries))
  }

  lemma SettlingIsFaithful(flat: Flatten)
    requires Injective(flat)
    ensures Faithful(Devices(flat), Settled(flat)) && DecisiveUnder(Devices(flat), Settled(flat))
  {
    var r, f := Devices(flat), Settled(flat);
    forall d ensures r.key(f(d)) == r.key(d) && r.rank(f(d)) == r.rank(d) {
      SortSeesOnlyEntries(flat, SortEntries(flat, d.entries), d.entries);
    }
    forall x, y | r.key(x) == r.key(y) && r.rank(x) == r.rank(y) ensures f(x) == f(y) {
      var a, b := r.rank(x), r.rank(y);
      assert r.key(x)[0] == r.key(y)[0] && a[0][0] == b[0][0];
      assert MapCanon(flat, x) == a[1..] && MapCanon(flat, y) == b[1..];
      RowsDetermine(flat, SortEntries(flat, x.entries), SortEntries(flat, y.entries));
    }
  }

  // Two copies of one device's map, stamped alike, tie exactly when they hold the same entries in
  // some order; a tied merge keeps whichever came first.
  lemma TiedMapsKeepTheFirst(flat: Flatten, x: DeviceSettings, y: DeviceSettings)
    requires Injective(flat) && x.device == y.device && x.updated == y.updated
    ensures Merge(Devices(flat), [x], [y]) == [x] && Merge(Devices(flat), [y], [x]) == [y]
            <==> multiset(x.entries) == multiset(y.entries)
  {
    var r := Devices(flat);
    MapNewerIsRank(flat, x, y);
    MapNewerIsRank(flat, y, x);
    RankTotal();
    PairMerges(r, x, y);
    PairMerges(r, y, x);
    SortSeesOnlyEntries(flat, x.entries, y.entries);
    if MapCanon(flat, x) == MapCanon(flat, y) {
      RowsDetermine(flat, SortEntries(flat, x.entries), SortEntries(flat, y.entries));
    }
  }

  lemma PairMerges<T>(r: Rules<T>, x: T, y: T)
    requires r.key(x) == r.key(y)
    ensures Merge(r, [x], [y]) == if Newer(r, y, x) then [y] else [x]
  {
    RankTotal();
    TextTotal();
    assert ([x] + [y])[..1] == [x] && [x][..0] == [];
    assert Survivors(r, [x]) == [x] by { assert Survivors(r, [x][..0]) == []; }
    assert [x][..0] + [y] == [y];
  }

  // Equal rank means equal stamp and the same entries in some order.
  lemma MapRankIs(flat: Flatten, x: DeviceSettings, y: DeviceSettings)
    requires Injective(flat)
    ensures Devices(flat).rank(x) == Devices(flat).rank(y)
            <==> x.updated == y.updated && multiset(x.entries) == multiset(y.entries)
  {
    var a, b := Devices(flat).rank(x), Devices(flat).rank(y);
    SortSeesOnlyEntries(flat, x.entries, y.entries);
    if a == b {
      assert a[0][0] == b[0][0];
      assert MapCanon(flat, x) == a[1..] && MapCanon(flat, y) == b[1..];
      RowsDetermine(flat, SortEntries(flat, x.entries), SortEntries(flat, y.entries));
    }
  }

  // Both sides hold the device's map with one stamp and the same entries, in two different orders.
  ghost predicate Reordered(flat: Flatten, a: seq<DeviceSettings>, b: seq<DeviceSettings>, device: nat) {
    var x, y := Held(Devices(flat), a, [device]), Held(Devices(flat), b, [device]);
    && x.Some? && y.Some? && x.value.updated == y.value.updated
    && multiset(x.value.entries) == multiset(y.value.entries) && x.value.entries != y.value.entries
  }

  lemma TieIsReordering(flat: Flatten, a: seq<DeviceSettings>, b: seq<DeviceSettings>, k: Text)
    requires Injective(flat)
    ensures Unsettled(Devices(flat), a, b, k) <==> |k| == 1 && k[0] >= 0 && Reordered(flat, a, b, k[0])
  {
    var x, y := Held(Devices(flat), a, k), Held(Devices(flat), b, k);
    if x.Some? {
      assert k == [x.value.device];
      if y.Some? {
        assert k[0] == x.value.device && k[0] == y.value.device by { assert k == [y.value.device]; }
        MapRankIs(flat, x.value, y.value);
      }
    }
    assert |k| == 1 ==> k == [k[0]];
  }

  // Merging device maps commutes exactly when no device's two surviving maps are equally stamped
  // reorderings of one another.
  lemma DeviceMergeCommutesIff(flat: Flatten, a: seq<DeviceSettings>, b: seq<DeviceSettings>)
    requires Injective(flat)
    ensures Merge(Devices(flat), a, b) == Merge(Devices(flat), b, a) <==> forall d: nat :: !Reordered(flat, a, b, d)
  {
    MergeCommutesIff(Devices(flat), a, b);
    if d: nat :| Reordered(flat, a, b, d) {
      TieIsReordering(flat, a, b, [d]);
    } else {
      forall k: Text ensures !Unsettled(Devices(flat), a, b, k) {
        TieIsReordering(flat, a, b, k);
      }
    }
  }

  // So device maps do not commute: one device's two settings, in the two orders.
  lemma DeviceMergeIsNotCommutative(flat: Flatten, a: DeviceSetting, b: DeviceSetting, device: nat, t: int)
    requires Injective(flat) && a != b
    ensures var x, y := DeviceSettings(device, t, [a, b]), DeviceSettings(device, t, [b, a]);
            Merge(Devices(flat), [x], [y]) == [x] && Merge(Devices(flat), [y], [x]) == [y] && x != y
  {
    var x, y := DeviceSettings(device, t, [a, b]), DeviceSettings(device, t, [b, a]);
    TiedMapsKeepTheFirst(flat, x, y);
    assert x.entries[0] != y.entries[0];
  }

  // They do commute up to the order of the entries inside a map.
  lemma DeviceMergeCommutesUpToOrder(flat: Flatten, a: seq<DeviceSettings>, b: seq<DeviceSettings>)
    requires Injective(flat)
    ensures var x, y := Merge(Devices(flat), a, b), Merge(Devices(flat), b, a);
            SameUpToOrder(x, y)
  {
    var r, f := Devices(flat), Settled(flat);
    var x, y := Merge(r, a, b), Merge(r, b, a);
    SettlingIsFaithful(flat);
    MergeCommutesUnder(r, f, a, b);
    SettledAlike(flat, x, y);
  }

  ghost predicate SameUpToOrder(x: seq<DeviceSettings>, y: seq<DeviceSettings>) {
    |x| == |y|
    && forall i :: 0 <= i < |x| ==>
         x[i].device == y[i].device && x[i].updated == y[i].updated && multiset(x[i].entries) == multiset(y[i].entries)
  }

  // ---- what a merge holds, field by field ----

  // y is later than x, or of the same instant with the removal on its side, or then no smaller in bytes.
  ghost predicate SettingStandsOver(flat: Flatten, y: SettingEntry, x: SettingEntry) {
    || y.updated > x.updated
    || (y.updated == x.updated && y.tombstone && !x.tombstone)
    || (y.updated == x.updated && y.tombstone == x.tombstone && !TextLess(flat(y.value), flat(x.value)))
  }

  ghost predicate SettingAnswered(flat: Flatten, out: seq<SettingEntry>, x: SettingEntry) {
    exists y :: y in out && y.key == x.key && SettingStandsOver(flat, y, x)
  }

  // Keys ascend, nothing is made up, and over every copy stands one of its key.
  ghost predicate MergedGlobals(flat: Flatten, told: seq<SettingEntry>, out: seq<SettingEntry>) {
    && (forall i, j :: 0 <= i < j < |out| ==> TextLess(out[i].key, out[j].key))
    && (forall y :: y in out ==> y in told)
    && (forall x :: x in told ==> SettingAnswered(flat, out, x))
  }

  lemma SettingIsAnswered(flat: Flatten, out: seq<SettingEntry>, x: SettingEntry, y: SettingEntry)
    requires y in out && Globals(flat).key(y) == Globals(flat).key(x) && !Newer(Globals(flat), x, y)
    ensures SettingAnswered(flat, out, x)
  {
    SettingNewerIsRank(flat, x, y);
    assert SettingStandsOver(flat, y, x);
  }

  lemma GlobalsMerge(flat: Flatten, a: seq<SettingEntry>, b: seq<SettingEntry>)
    ensures MergedGlobals(flat, a + b, Merge(Globals(flat), a, b))
  {
    var r, m := Globals(flat), Merge(Globals(flat), a, b);
    MergeAscends(r, a, b);
    forall x | x in a + b ensures SettingAnswered(flat, m, x) {
      var y := BestOf(r, a, b, x);
      SettingIsAnswered(flat, m, x, y);
    }
    forall i, j | 0 <= i < j < |m| ensures TextLess(m[i].key, m[j].key) {
      assert TextLess(r.key(m[i]), r.key(m[j]));
    }
  }

  // Later fields break the ties of earlier ones.
  ghost predicate ContentBelow(x: RosterEntry, y: RosterEntry) {
    || x.handleHash < y.handleHash
    || (x.handleHash == y.handleHash && (x.publicIdentity < y.publicIdentity
    || (x.publicIdentity == y.publicIdentity && (x.avatarPin < y.avatarPin
    || (x.avatarPin == y.avatarPin && (x.added < y.added
    || (x.added == y.added && (x.ceremonyOwner < y.ceremonyOwner
    || (x.ceremonyOwner == y.ceremonyOwner && ((!x.woven && y.woven)
    || (x.woven == y.woven && (x.trustLevel < y.trustLevel
    || (x.trustLevel == y.trustLevel && (TextLess(x.publishedName, y.publishedName)
    || (x.publishedName == y.publishedName && !x.consent && y.consent)))))))))))))))
  }

  lemma NumberThenTail(a: int, x: Rank, b: int, y: Rank)
    ensures RankLess([[a]] + x, [[b]] + y) <==> a < b || (a == b && RankLess(x, y))
  {
    HeadThenTail([a], x, [b], y);
    NumberLess(a, b);
  }

  function LastFields(e: RosterEntry): Rank {
    [[Bit(e.woven)]] + ([[e.trustLevel]] + ([e.publishedName] + ([[Bit(e.consent)]] + [])))
  }

  lemma LastFieldsCompare(x: RosterEntry, y: RosterEntry)
    ensures RankLess(LastFields(x), LastFields(y)) <==>
            (!x.woven && y.woven)
            || (x.woven == y.woven && (x.trustLevel < y.trustLevel
            || (x.trustLevel == y.trustLevel && (TextLess(x.publishedName, y.publishedName)
            || (x.publishedName == y.publishedName && !x.consent && y.consent)))))
  {
    var cx, cy: Rank := [[Bit(x.consent)]] + [], [[Bit(y.consent)]] + [];
    NumberThenTail(Bit(x.consent), [], Bit(y.consent), []);
    HeadThenTail(x.publishedName, cx, y.publishedName, cy);
    NumberThenTail(x.trustLevel, [x.publishedName] + cx, y.trustLevel, [y.publishedName] + cy);
    NumberThenTail(Bit(x.woven), [[x.trustLevel]] + ([x.publishedName] + cx),
                   Bit(y.woven), [[y.trustLevel]] + ([y.publishedName] + cy));
  }

  lemma CanonParts(e: RosterEntry)
    ensures RosterCanon(e) == [[e.handleHash]] + ([[e.publicIdentity]] + ([[e.avatarPin]] + ([[e.added]]
                              + ([[e.ceremonyOwner]] + LastFields(e)))))
  {
  }

  lemma CanonCompares(x: RosterEntry, y: RosterEntry)
    ensures RankLess(RosterCanon(x), RosterCanon(y)) <==> ContentBelow(x, y)
  {
    CanonParts(x);
    CanonParts(y);
    LastFieldsCompare(x, y);
    var x1, y1 := [[x.ceremonyOwner]] + LastFields(x), [[y.ceremonyOwner]] + LastFields(y);
    var x2, y2 := [[x.added]] + x1, [[y.added]] + y1;
    var x3, y3 := [[x.avatarPin]] + x2, [[y.avatarPin]] + y2;
    NumberThenTail(x.ceremonyOwner, LastFields(x), y.ceremonyOwner, LastFields(y));
    NumberThenTail(x.added, x1, y.added, y1);
    NumberThenTail(x.avatarPin, x2, y.avatarPin, y2);
    NumberThenTail(x.publicIdentity, x3, y.publicIdentity, y3);
    NumberThenTail(x.handleHash, [[x.publicIdentity]] + x3, y.handleHash, [[y.publicIdentity]] + y3);
  }

  ghost predicate RosterStandsOver(y: RosterEntry, x: RosterEntry) {
    || y.updated > x.updated
    || (y.updated == x.updated && y.tombstone && !x.tombstone)
    || (y.updated == x.updated && y.tombstone == x.tombstone && !ContentBelow(y, x))
  }

  ghost predicate EntryAnswered(out: seq<RosterEntry>, x: RosterEntry) {
    exists y :: y in out && y.handleProof == x.handleProof && RosterStandsOver(y, x)
  }

  ghost predicate MergedRoster(told: seq<RosterEntry>, out: seq<RosterEntry>) {
    && (forall i, j :: 0 <= i < j < |out| ==> out[i].handleProof < out[j].handleProof)
    && (forall y :: y in out ==> y in told)
    && (forall x :: x in told ==> EntryAnswered(out, x))
  }

  lemma EntryIsAnswered(out: seq<RosterEntry>, x: RosterEntry, y: RosterEntry)
    requires y in out && ROSTER.key(y) == ROSTER.key(x) && !Newer(ROSTER, x, y)
    ensures EntryAnswered(out, x)
  {
    NumberLess(y.handleProof, x.handleProof);
    RosterNewerIsRank(x, y);
    CanonCompares(y, x);
    assert RosterStandsOver(y, x);
  }

  lemma RosterMerge(a: seq<RosterEntry>, b: seq<RosterEntry>)
    ensures MergedRoster(a + b, Merge(ROSTER, a, b))
  {
    var m := Merge(ROSTER, a, b);
    MergeAscends(ROSTER, a, b);
    forall x | x in a + b ensures EntryAnswered(m, x) {
      var y := BestOf(ROSTER, a, b, x);
      EntryIsAnswered(m, x, y);
    }
    forall i, j | 0 <= i < j < |m| ensures m[i].handleProof < m[j].handleProof {
      assert TextLess(ROSTER.key(m[i]), ROSTER.key(m[j]));
      NumberLess(m[i].handleProof, m[j].handleProof);
    }
  }

  // One setting of a map against another: by key, value bytes, stamp, link.
  predicate EntryBelow(flat: Flatten, x: DeviceSetting, y: DeviceSetting) {
    || TextLess(x.key, y.key)
    || (x.key == y.key && (TextLess(flat(x.value), flat(y.value))
        || (flat(x.value) == flat(y.value)
            && (x.updated < y.updated || (x.updated == y.updated && !x.linked && y.linked)))))
  }

  lemma RowCompares(flat: Flatten, x: DeviceSetting, y: DeviceSetting)
    ensures RankLess(Row(flat, x), Row(flat, y)) <==> EntryBelow(flat, x, y)
  {
    var lx, ly: Rank := [[Bit(x.linked)]] + [], [[Bit(y.linked)]] + [];
    var ux, uy := [[x.updated]] + lx, [[y.updated]] + ly;
    NumberThenTail(Bit(x.linked), [], Bit(y.linked), []);
    NumberThenTail(x.updated, lx, y.updated, ly);
    HeadThenTail(flat(x.value), ux, flat(y.value), uy);
    HeadThenTail(x.key, [flat(x.value)] + ux, y.key, [flat(y.value)] + uy);
    assert Row(flat, x) == [x.key] + ([flat(x.value)] + ux) && Row(flat, y) == [y.key] + ([flat(y.value)] + uy);
  }

  // Lists of settings, the first that differ in a field deciding, a proper beginning first.
  ghost predicate EntriesBelow(flat: Flatten, s: seq<DeviceSetting>, t: seq<DeviceSetting>) {
    t != [] && (s == [] || EntryBelow(flat, s[0], t[0])
                || (!EntryBelow(flat, t[0], s[0]) && EntriesBelow(flat, s[1..], t[1..])))
  }

  lemma {:induction false} RowListsCompare(flat: Flatten, s: seq<DeviceSetting>, t: seq<DeviceSetting>)
    ensures Lex(RankLess, RowList(flat, s), RowList(flat, t)) <==> EntriesBelow(flat, s, t)
  {
    if s != [] && t != [] {
      RowCompares(flat, s[0], t[0]);
      RowCompares(flat, t[0], s[0]);
      RankTotal();
      var a, b := RowList(flat, s), RowList(flat, t);
      assert a[0] == Row(flat, s[0]) && a[1..] == RowList(flat, s[1..]);
      assert b[0] == Row(flat, t[0]) && b[1..] == RowList(flat, t[1..]);
      RowListsCompare(flat, s[1..], t[1..]);
    }
  }

  // A map's settings in order: the same ones, none below an earlier one.
  ghost predicate InOrder(flat: Flatten, entries: seq<DeviceSetting>, s: seq<DeviceSetting>) {
    multiset(s) == multiset(entries) && forall i, j :: 0 <= i < j < |s| ==> !EntryBelow(flat, s[j], s[i])
  }

  ghost predicate MapStandsOver(flat: Flatten, y: DeviceSettings, x: DeviceSettings) {
    || y.updated > x.updated
    || (y.updated == x.updated
        && exists s, t :: InOrder(flat, y.entries, s) && InOrder(flat, x.entries, t) && !EntriesBelow(flat, s, t))
  }

  ghost predicate MapAnswered(flat: Flatten, out: seq<DeviceSettings>, x: DeviceSettings) {
    exists y :: y in out && y.device == x.device && MapStandsOver(flat, y, x)
  }

  ghost predicate MergedMaps(flat: Flatten, told: seq<DeviceSettings>, out: seq<DeviceSettings>) {
    && (forall i, j :: 0 <= i < j < |out| ==> out[i].device < out[j].device)
    && (forall y :: y in out ==> y in told)
    && (forall x :: x in told ==> MapAnswered(flat, out, x))
  }

  lemma SortedInOrder(flat: Flatten, entries: seq<DeviceSetting>)
    ensures InOrder(flat, entries, SortEntries(flat, entries))
  {
    var s := SortEntries(flat, entries);
    SortEntriesOrders(flat, entries);
    forall i, j | 0 <= i < j < |s| ensures !EntryBelow(flat, s[j], s[i]) {
      RowCompares(flat, s[j], s[i]);
    }
  }

  lemma MapStands(flat: Flatten, y: DeviceSettings, x: DeviceSettings)
    requires !Newer(Devices(flat), x, y)
    ensures MapStandsOver(flat, y, x)
  {
    var s, t := SortEntries(flat, y.entries), SortEntries(flat, x.entries);
    MapNewerIsRank(flat, x, y);
    RowListsCompare(flat, s, t);
    SortedInOrder(flat, y.entries);
    SortedInOrder(flat, x.entries);
  }

  lemma MapIsAnswered(flat: Flatten, out: seq<DeviceSettings>, x: DeviceSettings, y: DeviceSettings)
    requires y in out && Devices(flat).key(y) == Devices(flat).key(x) && !Newer(Devices(flat), x, y)
    ensures MapAnswered(flat, out, x)
  {
    NumberLess(y.device, x.device);
    MapStands(flat, y, x);
  }

  lemma MapsMerge(flat: Flatten, a: seq<DeviceSettings>, b: seq<DeviceSettings>)
    ensures MergedMaps(flat, a + b, Merge(Devices(flat), a, b))
  {
    var r, m := Devices(flat), Merge(Devices(flat), a, b);
    MergeAscends(r, a, b);
    forall x | x in a + b ensures MapAnswered(flat, m, x) {
      var y := BestOf(r, a, b, x);
      MapIsAnswered(flat, m, x, y);
    }
    forall i, j | 0 <= i < j < |m| ensures m[i].device < m[j].device {
      assert TextLess(r.key(m[i]), r.key(m[j]));
      NumberLess(m[i].device, m[j].device);
    }
  }

  // ---- the whole state ----

  function MergeStates(flat: Flatten, a: State, b: State): State {
    State(Merge(ROSTER, a.roster, b.roster), Merge(Globals(flat), a.globals, b.globals),
          Merge(Devices(flat), a.devices, b.devices))
  }

  method MergeFstate(flat: Flatten, a: State, b: State) returns (m: State)
    ensures m == MergeStates(flat, a, b)
    ensures MergedRoster(a.roster + b.roster, m.roster) && MergedGlobals(flat, a.globals + b.globals, m.globals)
    ensures MergedMaps(flat, a.devices + b.devices, m.devices)
  {
    RosterMerge(a.roster, b.roster);
    GlobalsMerge(flat, a.globals, b.globals);
    MapsMerge(flat, a.devices, b.devices);
    var roster := MergeLists(ROSTER, a.roster, b.roster);
    var globals := MergeLists(Globals(flat), a.globals, b.globals);
    var devices := MergeLists(Devices(flat), a.devices, b.devices);
    m := State(roster, globals, devices);
  }

  ghost predicate CanonicalState(flat: Flatten, s: State) {
    Canonical(ROSTER, s.roster) && Canonical(Globals(flat), s.globals) && Canonical(Devices(flat), s.devices)
  }

  lemma StatesAssociate(flat: Flatten, a: State, b: State, c: State)
    ensures MergeStates(flat, MergeStates(flat, a, b), c) == MergeStates(flat, a, MergeStates(flat, b, c))
  {
    MergeAssociates(ROSTER, a.roster, b.roster, c.roster);
    MergeAssociates(Globals(flat), a.globals, b.globals, c.globals);
    MergeAssociates(Devices(flat), a.devices, b.devices, c.devices);
  }

  lemma StatesIdempotent(flat: Flatten, a: State)
    requires CanonicalState(flat, a)
    ensures MergeStates(flat, a, a) == a
  {
    MergeIdempotent(ROSTER, a.roster);
    MergeIdempotent(Globals(flat), a.globals);
    MergeIdempotent(Devices(flat), a.devices);
  }

  // Order matters only inside a device map.
  lemma StatesCommute(flat: Flatten, a: State, b: State)
    requires Injective(flat)
    ensures MergeStates(flat, a, b).roster == MergeStates(flat, b, a).roster
    ensures MergeStates(flat, a, b).globals == MergeStates(flat, b, a).globals
    ensures SameUpToOrder(MergeStates(flat, a, b).devices, MergeStates(flat, b, a).devices)
  {
    RosterDecides();
    GlobalsDecide(flat);
    MergeCommutes(ROSTER, a.roster, b.roster);
    MergeCommutes(Globals(flat), a.globals, b.globals);
    DeviceMergeCommutesUpToOrder(flat, a.devices, b.devices);
  }

  // Rosters and globals converge under every merge history over the same entries.
  lemma RostersConverge(t: Tree<RosterEntry>, u: Tree<RosterEntry>)
    requires CanonicalLeaves(ROSTER, t) && CanonicalLeaves(ROSTER, u)
    requires forall x :: x in Leaves(t) <==> x in Leaves(u)
    ensures Eval(ROSTER, t) == Eval(ROSTER, u)
  {
    RosterDecides();
    EveryHistoryConverges(ROSTER, t, u);
  }

  lemma GlobalsConverge(flat: Flatten, t: Tree<SettingEntry>, u: Tree<SettingEntry>)
    requires Injective(flat) && CanonicalLeaves(Globals(flat), t) && CanonicalLeaves(Globals(flat), u)
    requires forall x :: x in Leaves(t) <==> x in Leaves(u)
    ensures Eval(Globals(flat), t) == Eval(Globals(flat), u)
  {
    GlobalsDecide(flat);
    EveryHistoryConverges(Globals(flat), t, u);
  }

  // ---- every history of whole states ----

  // Devices merge the states they hold in any shape, states repeated at will.
  datatype History = Told(state: State) | Merged(left: History, right: History)

  function Outcome(flat: Flatten, h: History): State {
    match h
    case Told(s) => s
    case Merged(x, y) => MergeStates(flat, Outcome(flat, x), Outcome(flat, y))
  }

  function Rosters(h: History): Tree<RosterEntry> {
    match h
    case Told(s) => Leaf(s.roster)
    case Merged(x, y) => Node(Rosters(x), Rosters(y))
  }

  function GlobalsOf(h: History): Tree<SettingEntry> {
    match h
    case Told(s) => Leaf(s.globals)
    case Merged(x, y) => Node(GlobalsOf(x), GlobalsOf(y))
  }

  function MapsOf(h: History): Tree<DeviceSettings> {
    match h
    case Told(s) => Leaf(s.devices)
    case Merged(x, y) => Node(MapsOf(x), MapsOf(y))
  }

  ghost predicate CanonicalHistory(flat: Flatten, h: History) {
    match h
    case Told(s) => CanonicalState(flat, s)
    case Merged(x, y) => CanonicalHistory(flat, x) && CanonicalHistory(flat, y)
  }

  // The two histories were told the same entries and, up to the order of their entries, the same maps.
  ghost predicate SameNews(flat: Flatten, h: History, i: History) {
    && (forall x :: x in Leaves(Rosters(h)) <==> x in Leaves(Rosters(i)))
    && (forall x :: x in Leaves(GlobalsOf(h)) <==> x in Leaves(GlobalsOf(i)))
    && (forall x :: x in Image(Settled(flat), Leaves(MapsOf(h))) <==> x in Image(Settled(flat), Leaves(MapsOf(i))))
  }

  lemma {:induction false} OutcomeByParts(flat: Flatten, h: History)
    ensures Outcome(flat, h).roster == Eval(ROSTER, Rosters(h))
    ensures Outcome(flat, h).globals == Eval(Globals(flat), GlobalsOf(h))
    ensures Outcome(flat, h).devices == Eval(Devices(flat), MapsOf(h))
    ensures CanonicalHistory(flat, h) ==>
              && CanonicalLeaves(ROSTER, Rosters(h)) && CanonicalLeaves(Globals(flat), GlobalsOf(h))
              && CanonicalLeaves(Devices(flat), MapsOf(h))
  {
    match h
    case Told(_) =>
    case Merged(x, y) =>
      OutcomeByParts(flat, x);
      OutcomeByParts(flat, y);
  }

  // Whole states converge: after any two merge histories over the same news, rosters and globals are
  // equal and device maps are equal up to the order of their entries.
  lemma StatesConverge(flat: Flatten, h: History, i: History)
    requires Injective(flat) && CanonicalHistory(flat, h) && CanonicalHistory(flat, i) && SameNews(flat, h, i)
    ensures Outcome(flat, h).roster == Outcome(flat, i).roster
    ensures Outcome(flat, h).globals == Outcome(flat, i).globals
    ensures SameUpToOrder(Outcome(flat, h).devices, Outcome(flat, i).devices)
  {
    OutcomeByParts(flat, h);
    OutcomeByParts(flat, i);
    RostersConverge(Rosters(h), Rosters(i));
    GlobalsConverge(flat, GlobalsOf(h), GlobalsOf(i));
    SettlingIsFaithful(flat);
    EveryHistoryConvergesUnder(Devices(flat), Settled(flat), MapsOf(h), MapsOf(i));
    SettledAlike(flat, Outcome(flat, h).devices, Outcome(flat, i).devices);
  }

  lemma SettledAlike(flat: Flatten, x: seq<DeviceSettings>, y: seq<DeviceSettings>)
    requires Injective(flat) && Image(Settled(flat), x) == Image(Settled(flat), y)
    ensures SameUpToOrder(x, y)
  {
    var f := Settled(flat);
    assert |x| == |Image(f, x)| == |y|;
    forall i | 0 <= i < |x|
      ensures x[i].device == y[i].device && x[i].updated == y[i].updated
              && multiset(x[i].entries) == multiset(y[i].entries)
    {
      assert f(x[i]) == Image(f, x)[i] == Image(f, y)[i] == f(y[i]);
      SortSeesOnlyEntries(flat, x[i].entries, y[i].entries);
    }
  }

  // A removal beats a write of the same instant, whichever side it comes from.
  lemma TombstoneWinsATie(told: seq<RosterEntry>, out: seq<RosterEntry>, dead: RosterEntry, live: RosterEntry)
    requires MergedRoster(told, out) && dead in told && dead.tombstone && !live.tombstone
    requires dead.handleProof == live.handleProof && dead.updated == live.updated
    ensures live !in out
  {
    assert EntryAnswered(out, dead);
    var y :| y in out && y.handleProof == dead.handleProof && RosterStandsOver(y, dead);
    if live in out {
      OneEntryEach(out, y, live);
    }
  }

  lemma OneEntryEach(out: seq<RosterEntry>, x: RosterEntry, y: RosterEntry)
    requires forall i, j :: 0 <= i < j < |out| ==> out[i].handleProof < out[j].handleProof
    requires x in out && y in out && x.handleProof == y.handleProof
    ensures x == y
  {
  }

  // A setting removed stays removed, and its live copies go, however many there were.
  lemma RemovedSettingIsGone(
    flat: Flatten, told: seq<SettingEntry>, out: seq<SettingEntry>, dead: SettingEntry, live: SettingEntry)
    requires MergedGlobals(flat, told, out) && dead in told && dead.tombstone && !live.tombstone
    requires dead.key == live.key && dead.updated >= live.updated
    ensures live !in out
  {
    assert SettingAnswered(flat, out, dead);
    var y :| y in out && y.key == dead.key && SettingStandsOver(flat, y, dead);
    if live in out {
      OneSettingEach(out, y, live);
    }
  }

  lemma OneSettingEach(out: seq<SettingEntry>, x: SettingEntry, y: SettingEntry)
    requires forall i, j :: 0 <= i < j < |out| ==> TextLess(out[i].key, out[j].key)
    requires x in out && y in out && x.key == y.key
    ensures x == y
  {
    var i :| 0 <= i < |out| && out[i] == x;
    var j :| 0 <= j < |out| && out[j] == y;
    TextTotal();
    var k: Text := x.key;
    assert !TextLess(k, k);
  }
}
