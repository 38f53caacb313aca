/** The key bundle's construction and wire form: `u8 count`, then `u8 scheme | u16 LE len | key` each. */
module KeyBundles {
  import opened Wrappers
  import opened Bytes
  import opened Schemes
  import opened Sorting

  datatype BundleError =
    | DuplicateScheme
    | WrongKeyLength
    | UnknownScheme
    | MissingEd25519
    | EmptyInput
    | TruncatedEntry
    | TruncatedKey
    | TrailingBytes

  // ---- construction ----

  predicate SchemeLess(x: KeyEntry, y: KeyEntry) {
    x.scheme < y.scheme
  }

  predicate HasDuplicate(s: seq<KeyEntry>) {
    exists i :: 0 <= i < |s| - 1 && s[i].scheme == s[i + 1].scheme
  }

  function FirstBadKey(s: seq<KeyEntry>): (r: Option<BundleError>)
    ensures r.None? <==> forall i :: 0 <= i < |s| ==> PubkeyLen(s[i].scheme) == Some(|s[i].key|)
  {
    if s == [] then None
    else if PubkeyLen(s[0].scheme).None? then Some(UnknownScheme)
    else if PubkeyLen(s[0].scheme) != Some(|s[0].key|) then Some(WrongKeyLength)
    else FirstBadKey(s[1..])
  }

  function New(keys: seq<KeyEntry>): Result<KeyBundle, BundleError> {
    var s := StableSort(SchemeLess, keys);
    if HasDuplicate(s) then Err(DuplicateScheme)
    else
      var bad := FirstBadKey(s);
      if bad.Some? then Err(bad.value)
      else if !(exists i :: 0 <= i < |s| && s[i].scheme == ED25519) then Err(MissingEd25519)
      else Ok(KeyBundle(s))
  }

  lemma {:induction false} NoDuplicateAscends(s: seq<KeyEntry>)
    requires Sorted(SchemeLess, s) && !HasDuplicate(s)
    ensures forall i, j :: 0 <= i < j < |s| ==> s[i].scheme < s[j].scheme
  {
    forall i, j | 0 <= i < j < |s| ensures s[i].scheme < s[j].scheme {
      assert s[i].scheme <= s[i + 1].scheme && s[i].scheme != s[i + 1].scheme;
      assert i + 1 == j || s[i + 1].scheme <= s[j].scheme;
    }
  }

  // Whatever construction accepts is a valid bundle over the same keys.
  lemma NewIsValid(keys: seq<KeyEntry>)
    requires New(keys).Ok?
    ensures ValidBundle(New(keys).value) && multiset(New(keys).value.keys) == multiset(keys)
  {
    SortSorts(SchemeLess, keys);
    NoDuplicateAscends(StableSort(SchemeLess, keys));
  }

  ghost predicate DistinctSchemes(keys: seq<KeyEntry>) {
    forall i, j :: 0 <= i < j < |keys| ==> keys[i].scheme != keys[j].scheme
  }

  lemma SameElements(keys: seq<KeyEntry>)
    ensures forall e :: e in StableSort(SchemeLess, keys) <==> e in keys
  {
    var s := StableSort(SchemeLess, keys);
    forall e ensures e in s <==> e in keys {
      assert e in multiset(s) <==> e in multiset(keys);
    }
  }

  ghost predicate NoneOf(s: seq<KeyEntry>, scheme: byte) {
    forall e :: e in s ==> e.scheme != scheme
  }

  lemma DistinctAround(p: seq<KeyEntry>, x: KeyEntry, q: seq<KeyEntry>)
    ensures DistinctSchemes(p + [x] + q) <==> DistinctSchemes(p + q) && NoneOf(p + q, x.scheme)
  {
    var all, rest, n := p + [x] + q, p + q, |p|;
    assert forall i :: 0 <= i < |rest| ==> rest[i] == all[if i < n then i else i + 1];
    assert forall i :: 0 <= i < |all| && i != n ==> all[i] == rest[if i < n then i else i - 1];
    assert all[n] == x;
    if DistinctSchemes(all) {
      forall e | e in rest ensures e.scheme != x.scheme {
        var i :| 0 <= i < |rest| && rest[i] == e;
        assert all[if i < n then i else i + 1] == e;
      }
    }
  }

  lemma {:induction false} SortingKeepsDistinct(keys: seq<KeyEntry>)
    ensures DistinctSchemes(StableSort(SchemeLess, keys)) <==> DistinctSchemes(keys)
  {
    if keys != [] {
      var front, x := keys[..|keys| - 1], keys[|keys| - 1];
      var sorted := StableSort(SchemeLess, front);
      SortingKeepsDistinct(front);
      SortingAddsNone(front, x.scheme);
      PlacedDistinct(sorted, x);
      DistinctWith(front, x);
      assert front + [x] == keys;
    }
  }

  lemma SortingAddsNone(keys: seq<KeyEntry>, scheme: byte)
    ensures NoneOf(StableSort(SchemeLess, keys), scheme) <==> NoneOf(keys, scheme)
  {
    SameElements(keys);
  }

  lemma DistinctWith(front: seq<KeyEntry>, x: KeyEntry)
    ensures DistinctSchemes(front + [x]) <==> DistinctSchemes(front) && NoneOf(front, x.scheme)
  {
    DistinctAround(front, x, []);
    assert front + [] == front && front + [x] + [] == front + [x];
  }

  lemma PlacedDistinct(sorted: seq<KeyEntry>, x: KeyEntry)
    ensures DistinctSchemes(Place(SchemeLess, sorted, x)) <==> DistinctSchemes(sorted) && NoneOf(sorted, x.scheme)
  {
    var p, q := PlaceSplits(SchemeLess, sorted, x);
    DistinctAround(p, x, q);
  }

  lemma DuplicateIffNotDistinct(s: seq<KeyEntry>)
    requires Sorted(SchemeLess, s)
    ensures HasDuplicate(s) <==> !DistinctSchemes(s)
  {
    if !HasDuplicate(s) {
      NoDuplicateAscends(s);
    }
  }

  ghost predicate HasAnchor(keys: seq<KeyEntry>) {
    exists e :: e in keys && e.scheme == ED25519
  }

  lemma AnchorIsSomewhere(keys: seq<KeyEntry>)
    ensures HasAnchor(keys) <==> exists i :: 0 <= i < |keys| && keys[i].scheme == ED25519
  {
    if e :| e in keys && e.scheme == ED25519 {
      var i :| 0 <= i < |keys| && keys[i] == e;
      assert keys[i].scheme == ED25519;
    }
    if i :| 0 <= i < |keys| && keys[i].scheme == ED25519 {
      assert keys[i] in keys;
    }
  }

  lemma AnchorSurvivesSorting(keys: seq<KeyEntry>)
    ensures HasAnchor(StableSort(SchemeLess, keys)) <==> HasAnchor(keys)
  {
    SameElements(keys);
  }

  lemma LengthsSurviveSorting(keys: seq<KeyEntry>)
    ensures FirstBadKey(StableSort(SchemeLess, keys)).None?
            <==> forall e :: e in keys ==> PubkeyLen(e.scheme) == Some(|e.key|)
  {
    SameElements(keys);
    var s := StableSort(SchemeLess, keys);
    if FirstBadKey(s).None? {
      forall e | e in keys ensures PubkeyLen(e.scheme) == Some(|e.key|) {
        var i :| 0 <= i < |s| && s[i] == e;
      }
    }
  }

  // Construction accepts, in any order, exactly the keys of distinct known schemes and right lengths
  // with an Ed25519 key among them.
  lemma NewAcceptsIff(keys: seq<KeyEntry>)
    ensures New(keys).Ok? <==>
            && DistinctSchemes(keys)
            && (forall e :: e in keys ==> PubkeyLen(e.scheme) == Some(|e.key|))
            && HasAnchor(keys)
  {
    SortSorts(SchemeLess, keys);
    SortingKeepsDistinct(keys);
    AnchorIsSomewhere(StableSort(SchemeLess, keys));
    DuplicateIffNotDistinct(StableSort(SchemeLess, keys));
    AnchorSurvivesSorting(keys);
    LengthsSurviveSorting(keys);
  }

  lemma {:induction false} BadKeyIs(s: seq<KeyEntry>)
    ensures FirstBadKey(s) in {None, Some(UnknownScheme), Some(WrongKeyLength)}
    ensures FirstBadKey(s) == Some(UnknownScheme) ==> exists e :: e in s && PubkeyLen(e.scheme).None?
    ensures FirstBadKey(s) == Some(WrongKeyLength)
            ==> exists e :: e in s && PubkeyLen(e.scheme).Some? && PubkeyLen(e.scheme) != Some(|e.key|)
  {
    if s != [] {
      BadKeyIs(s[1..]);
      assert s[0] in s && forall e :: e in s[1..] ==> e in s;
    }
  }

  // Why construction refuses: two keys of one scheme first, then a key of no scheme or of a wrong length,
  // then no Ed25519 key.
  lemma NewRefusesFor(keys: seq<KeyEntry>)
    ensures New(keys) == Err(DuplicateScheme) <==> !DistinctSchemes(keys)
    ensures New(keys) == Err(UnknownScheme) ==> exists e :: e in keys && PubkeyLen(e.scheme).None?
    ensures New(keys) == Err(WrongKeyLength)
            ==> exists e :: e in keys && PubkeyLen(e.scheme).Some? && PubkeyLen(e.scheme) != Some(|e.key|)
    ensures New(keys) == Err(MissingEd25519) <==>
            && DistinctSchemes(keys) && (forall e :: e in keys ==> PubkeyLen(e.scheme) == Some(|e.key|))
            && !HasAnchor(keys)
  {
    var s := StableSort(SchemeLess, keys);
    SortSorts(SchemeLess, keys);
    SortingKeepsDistinct(keys);
    AnchorIsSomewhere(s);
    DuplicateIffNotDistinct(s);
    AnchorSurvivesSorting(keys);
    LengthsSurviveSorting(keys);
    SameElements(keys);
    BadKeyIs(s);
  }

  // A valid bundle's keys construct it again.
  lemma NewOfValid(b: KeyBundle)
    requires ValidBundle(b)
    ensures New(b.keys) == Ok(b)
  {
    SortKeepsSorted(SchemeLess, b.keys);
    assert !HasDuplicate(b.keys);
    assert FirstBadKey(b.keys).None?;
  }

  // ---- wire form ----

  function EntryBytes(e: KeyEntry): seq<byte> {
    [e.scheme] + Le(|e.key| % 0x1_0000, 2) + e.key
  }

  function EntriesBytes(s: seq<KeyEntry>): seq<byte> {
    if s == [] then [] else EntryBytes(s[0]) + EntriesBytes(s[1..])
  }

  function ToBytes(b: KeyBundle): seq<byte> {
    [|b.keys| % 256] + EntriesBytes(b.keys)
  }

  method WriteBytes(b: KeyBundle) returns (v: seq<byte>)
    ensures v == ToBytes(b)
  {
    v := [|b.keys| % 256];
    var i := 0;
    while i < |b.keys|
      invariant i <= |b.keys| && v + EntriesBytes(b.keys[i..]) == ToBytes(b)
    {
      var e := b.keys[i];
      assert b.keys[i..][1..] == b.keys[i + 1..];
      ghost var rest := EntriesBytes(b.keys[i + 1..]);
      assert v + (EntryBytes(e) + rest) == v + EntryBytes(e) + rest;
      v := v + EntryBytes(e);
      i := i + 1;
    }
  }

  // The next entry of a wire form and what follows it.
  function TakeEntry(rest: seq<byte>): (r: Result<(KeyEntry, seq<byte>), BundleError>)
    ensures r.Ok? ==> |r.value.1| < |rest|
  {
    if |rest| < 3 then Err(TruncatedEntry)
    else
      var n := rest[1] as nat + 256 * rest[2] as nat;
      if |rest| - 3 < n then Err(TruncatedKey)
      else Ok((KeyEntry(rest[0], rest[3..3 + n]), rest[3 + n..]))
  }

  function TakeEntries(count: nat, rest: seq<byte>): Result<(seq<KeyEntry>, seq<byte>), BundleError>
    decreases count
  {
    if count == 0 then Ok(([], rest))
    else
      match TakeEntry(rest)
      case Err(e) => Err(e)
      case Ok((e, after)) =>
        match TakeEntries(count - 1, after)
        case Err(x) => Err(x)
        case Ok((es, end)) => Ok(([e] + es, end))
  }

  function FromBytes(b: seq<byte>): Result<KeyBundle, BundleError> {
    if b == [] then Err(EmptyInput)
    else
      match TakeEntries(b[0], b[1..])
      case Err(e) => Err(e)
      case Ok((keys, rest)) => if rest != [] then Err(TrailingBytes) else New(keys)
  }

  // The parse as the source makes it: a cursor over the rest, one entry a turn.
  method ReadBytes(b: seq<byte>) returns (r: Result<KeyBundle, BundleError>)
    ensures r == FromBytes(b)
  {
    if b == [] {
      return Err(EmptyInput);
    }
    var count, rest := b[0], b[1..];
    var keys: seq<KeyEntry> := [];
    var left: nat := count;
    assert forall s: seq<KeyEntry> :: keys + s == s;
    while left > 0
      invariant TakeEntries(count, b[1..]) ==
                match TakeEntries(left, rest)
                case Err(e) => Err(e)
                case Ok((es, end)) => Ok((keys + es, end))
      decreases left
    {
      match TakeEntry(rest)
      case Err(e) => return Err(e);
      case Ok(pair) =>
        ghost var more := TakeEntries(left - 1, pair.1);
        assert more.Ok? ==> keys + ([pair.0] + more.value.0) == keys + [pair.0] + more.value.0;
        keys, rest, left := keys + [pair.0], pair.1, left - 1;
    }
    assert keys + [] == keys;
    if rest != [] {
      return Err(TrailingBytes);
    }
    r := New(keys);
  }

  lemma LeTwo(n: nat)
    requires n < 0x1_0000
    ensures Le(n, 2) == [n % 256, n / 256]
  {
    assert Le(n / 256, 1) == [n / 256 % 256] + Le(n / 256 / 256, 0);
  }

  lemma EntrySlices(h: seq<byte>, key: seq<byte>, tail: seq<byte>)
    requires |h| == 3
    ensures var w := h + key + tail;
            w[0] == h[0] && w[1] == h[1] && w[2] == h[2] && w[3..3 + |key|] == key && w[3 + |key|..] == tail
  {
  }

  lemma EntryReadsBack(e: KeyEntry, tail: seq<byte>)
    requires |e.key| < 0x1_0000
    ensures TakeEntry(EntryBytes(e) + tail) == Ok((e, tail))
  {
    var n := |e.key|;
    LeTwo(n);
    var h := [e.scheme] + [n % 256, n / 256];
    EntrySlices(h, e.key, tail);
    assert EntryBytes(e) == h + e.key;
    assert h[1] as nat + 256 * h[2] as nat == n;
  }

  lemma {:induction false} EntriesReadBack(s: seq<KeyEntry>, tail: seq<byte>)
    requires forall i :: 0 <= i < |s| ==> |s[i].key| < 0x1_0000
    ensures TakeEntries(|s|, EntriesBytes(s) + tail) == Ok((s, tail))
  {
    if s == [] {
      assert EntriesBytes(s) + tail == tail;
    } else {
      assert EntriesBytes(s) + tail == EntryBytes(s[0]) + (EntriesBytes(s[1..]) + tail);
      EntryReadsBack(s[0], EntriesBytes(s[1..]) + tail);
      EntriesReadBack(s[1..], tail);
      assert [s[0]] + s[1..] == s;
    }
  }

  // A bundle has at most one key a scheme, so its count and every key length fit their fields.
  lemma {:induction false} TagAtLeastIndex(b: KeyBundle, i: nat)
    requires ValidBundle(b) && i < |b.keys|
    ensures i <= b.keys[i].scheme <= 2 && |b.keys[i].key| <= 897
  {
    assert PubkeyLen(b.keys[i].scheme) == Some(|b.keys[i].key|);
    if i > 0 {
      TagAtLeastIndex(b, i - 1);
    }
  }

  lemma ValidBundleIsSmall(b: KeyBundle)
    requires ValidBundle(b)
    ensures 0 < |b.keys| <= 3 && forall i :: 0 <= i < |b.keys| ==> |b.keys[i].key| <= 897
  {
    TagAtLeastIndex(b, |b.keys| - 1);
    forall i | 0 <= i < |b.keys| ensures |b.keys[i].key| <= 897 {
      TagAtLeastIndex(b, i);
    }
  }

  // Reading undoes writing.
  lemma RoundTrip(b: KeyBundle)
    requires ValidBundle(b)
    ensures FromBytes(ToBytes(b)) == Ok(b)
  {
    ValidBundleIsSmall(b);
    EntriesReadBack(b.keys, []);
    NewOfValid(b);
    assert EntriesBytes(b.keys) + [] == EntriesBytes(b.keys);
    ReadsCounted(|b.keys|, EntriesBytes(b.keys), b.keys);
    CountFits(b);
  }

  lemma ReadsCounted(c: byte, body: seq<byte>, keys: seq<KeyEntry>)
    requires TakeEntries(c, body) == Ok((keys, []))
    ensures FromBytes([c] + body) == New(keys)
  {
    assert ([c] + body)[1..] == body;
  }

  lemma CountFits(b: KeyBundle)
    requires |b.keys| < 256
    ensures ToBytes(b) == [|b.keys|] + EntriesBytes(b.keys)
  {
  }

  lemma ToBytesInjective(a: KeyBundle, b: KeyBundle)
    requires ValidBundle(a) && ValidBundle(b) && ToBytes(a) == ToBytes(b)
    ensures a == b
  {
    RoundTrip(a);
    RoundTrip(b);
  }

  lemma {:induction false} EntriesBytesSize(s: seq<KeyEntry>)
    requires forall i :: 0 <= i < |s| ==> |s[i].key| <= 897
    ensures |EntriesBytes(s)| <= 900 * |s|
  {
    if s != [] {
      EntriesBytesSize(s[1..]);
    }
  }

  lemma ToBytesSize(b: KeyBundle)
    requires ValidBundle(b)
    ensures 0 < |ToBytes(b)| <= 2701
  {
    ValidBundleIsSmall(b);
    EntriesBytesSize(b.keys);
  }
}
