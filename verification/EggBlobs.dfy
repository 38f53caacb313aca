/**
 Egg-list blobs: for each list `u16 LE byte length, then the list's own wire form`, an empty list
 being length 0.  The list's wire form is the caller's codec.
 */
module EggBlobs {
  import opened Wrappers
  import opened Collections
  import opened Bytes
  import opened Schemes
  import opened KeyBundles

  // The egg-list codec, both ways.
  datatype EggWire = EggWire(write: seq<Egg> -> seq<byte>, read: seq<byte> -> Option<seq<Egg>>)

  function ListBytes(w: EggWire, l: seq<Egg>): seq<byte> {
    if l == [] then [] else w.write(l)
  }

  function Size(bytes: seq<byte>): seq<byte> {
    Le(|bytes| % 0x1_0000, 2)
  }

  function Pack(w: EggWire, lists: seq<seq<Egg>>): seq<byte> {
    if lists == [] then []
    else Size(ListBytes(w, lists[0])) + (ListBytes(w, lists[0]) + Pack(w, lists[1..]))
  }

  method EggsBlob(w: EggWire, lists: seq<seq<Egg>>) returns (v: seq<byte>)
    ensures v == Pack(w, lists)
  {
    v := [];
    for i := 0 to |lists|
      invariant v + Pack(w, lists[i..]) == Pack(w, lists)
    {
      var bytes := ListBytes(w, lists[i]);
      var n := Size(bytes);
      assert lists[i..][0] == lists[i] && lists[i..][1..] == lists[i + 1..];
      Regroup(v, n, bytes);
      Regroup(v, n + bytes, Pack(w, lists[i + 1..]));
      Regroup(n, bytes, Pack(w, lists[i + 1..]));
      v := v + n + bytes;
    }
  }

  // The next list of a blob and what follows it.
  function TakeList(w: EggWire, rest: seq<byte>): (r: Option<(seq<Egg>, seq<byte>)>)
    ensures r.Some? ==> |r.value.1| + 2 <= |rest|
  {
    if |rest| < 2 then None
    else
      var n := rest[0] as nat + 256 * rest[1] as nat;
      if |rest| - 2 < n then None
      else if n == 0 then Some(([], rest[2..]))
      else
        match w.read(rest[2..2 + n])
        case None => None
        case Some(l) => Some((l, rest[2 + n..]))
  }

  function Unpack(w: EggWire, rest: seq<byte>, n: nat): Option<seq<seq<Egg>>>
    decreases n
  {
    if n == 0 then (if rest == [] then Some([]) else None)
    else
      match TakeList(w, rest)
      case None => None
      case Some((l, after)) =>
        match Unpack(w, after, n - 1)
        case None => None
        case Some(ls) => Some([l] + ls)
  }

  method EggsBlobLists(w: EggWire, blob: seq<byte>, n: nat) returns (r: Option<seq<seq<Egg>>>)
    ensures r == Unpack(w, blob, n)
  {
    var out: seq<seq<Egg>> := [];
    var rest := blob;
    assert forall s: seq<seq<Egg>> :: out + s == s;
    for i := 0 to n
      invariant Unpack(w, blob, n) ==
                match Unpack(w, rest, n - i)
                case None => None
                case Some(ls) => Some(out + ls)
    {
      match TakeList(w, rest)
      case None => return None;
      case Some(pair) =>
        ghost var more := Unpack(w, pair.1, n - i - 1);
        assert more.Some? ==> out + ([pair.0] + more.value) == out + [pair.0] + more.value;
        out, rest := out + [pair.0], pair.1;
    }
    if rest != [] {
      return None;
    }
    assert out + [] == out;
    return Some(out);
  }

  // The list's bytes fit the length field and the codec reads them back.
  ghost predicate Fits(w: EggWire, l: seq<Egg>) {
    l != [] ==> 0 < |w.write(l)| < 0x1_0000 && w.read(w.write(l)) == Some(l)
  }

  lemma SizedList(w: EggWire, n: seq<byte>, b: seq<byte>, tail: seq<byte>)
    requires |n| == 2 && n[0] as nat + 256 * n[1] as nat == |b|
    ensures TakeList(w, n + (b + tail)) ==
            if b == [] then Some(([], tail)) else match w.read(b) case None => None case Some(l) => Some((l, tail))
  {
    var whole := n + (b + tail);
    assert whole[0] == n[0] && whole[1] == n[1];
    assert whole[2..2 + |b|] == b && whole[2 + |b|..] == tail;
  }

  lemma ListReadsBack(w: EggWire, l: seq<Egg>, tail: seq<byte>)
    requires Fits(w, l)
    ensures TakeList(w, Size(ListBytes(w, l)) + (ListBytes(w, l) + tail)) == Some((l, tail))
  {
    LeTwo(|ListBytes(w, l)|);
    SizedList(w, Size(ListBytes(w, l)), ListBytes(w, l), tail);
  }

  lemma PackReadsBack(w: EggWire, lists: seq<seq<Egg>>, tail: seq<byte>)
    requires lists != [] && Fits(w, lists[0])
    ensures TakeList(w, Pack(w, lists) + tail) == Some((lists[0], Pack(w, lists[1..]) + tail))
  {
    var bytes, more := ListBytes(w, lists[0]), Pack(w, lists[1..]);
    Regroup(Size(bytes), bytes + more, tail);
    Regroup(bytes, more, tail);
    ListReadsBack(w, lists[0], more + tail);
  }

  function After(lists: seq<seq<Egg>>, rest: Option<seq<seq<Egg>>>): Option<seq<seq<Egg>>> {
    match rest
    case None => None
    case Some(more) => Some(lists + more)
  }

  lemma OneListUnpacks(w: EggWire, lists: seq<seq<Egg>>, tail: seq<byte>, n: nat)
    requires lists != [] && Fits(w, lists[0]) && n > 0
    ensures Unpack(w, Pack(w, lists) + tail, n) == After([lists[0]], Unpack(w, Pack(w, lists[1..]) + tail, n - 1))
  {
    PackReadsBack(w, lists, tail);
  }

  // Read under any count, a packed blob followed by any bytes: too small a count leaves bytes over and
  // fails; otherwise its own lists come first and the bytes after it are read for the rest.
  lemma {:induction false} RoundTrip(w: EggWire, lists: seq<seq<Egg>>, tail: seq<byte>, n: nat)
    requires forall i :: 0 <= i < |lists| ==> Fits(w, lists[i])
    ensures n < |lists| ==> Unpack(w, Pack(w, lists) + tail, n) == None
    ensures n >= |lists| ==> Unpack(w, Pack(w, lists) + tail, n) == After(lists, Unpack(w, tail, n - |lists|))
  {
    if lists == [] {
      assert Pack(w, lists) + tail == tail;
      Prepended([], Unpack(w, tail, n));
    } else if n > 0 {
      OneListUnpacks(w, lists, tail, n);
      RoundTrip(w, lists[1..], tail, n - 1);
      if n >= |lists| {
        Prepended(lists, Unpack(w, tail, n - |lists|));
      }
    }
  }

  lemma Prepended<T>(lists: seq<T>, rest: Option<seq<T>>)
    ensures rest.Some? ==> [] + rest.value == rest.value
    ensures rest.Some? && lists != [] ==> [lists[0]] + (lists[1..] + rest.value) == lists + rest.value
  {
    if rest.Some? && lists != [] {
      Regroup([lists[0]], lists[1..], rest.value);
      assert [lists[0]] + lists[1..] == lists;
    }
  }

  // So under its own count it reads back exactly when nothing follows it.
  lemma OwnCountReadsBack(w: EggWire, lists: seq<seq<Egg>>, tail: seq<byte>)
    requires forall i :: 0 <= i < |lists| ==> Fits(w, lists[i])
    ensures Unpack(w, Pack(w, lists) + tail, |lists|) == if tail == [] then Some(lists) else None
  {
    RoundTrip(w, lists, tail, |lists|);
    assert lists + [] == lists;
  }
}
