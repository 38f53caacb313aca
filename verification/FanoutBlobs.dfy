/**
 The fan-out blob: a fixed header, the epoch's public bundle, then the sealed wraps.  Beside the full
 parser stand two readers that look at fixed offsets and know nothing of the body.
 */
module FanoutBlobs {
  import opened Wrappers
  import opened Collections
  import opened Bytes
  import opened Schemes
  import KeyBundles
  import FanoutRegister

  const MAGIC: seq<byte> := [80, 70, 79]
  const VERSION: byte := 3
  const MAX_WRAPS: nat := 1024

  datatype Wrap = Wrap(epk: Key32, commit: Key32, ct: seq<byte>)

  datatype Fanout = Fanout(revision: nat, kfp: Key32, rotator: Key32, epochPub: KeyBundle, wraps: seq<Wrap>)

  datatype BlobError =
    | Truncated
    | BadMagic
    | VersionMismatch
    | BadEpochBundle(cause: KeyBundles.BundleError)
    | ImplausibleWrapCount

  // ---- writing ----

  function WrapBytes(w: Wrap): seq<byte> {
    Be(w.epk, 32) + (Be(w.commit, 32) + (Be(|w.ct| % 0x1_0000_0000, 4) + w.ct))
  }

  function WrapsBytes(ws: seq<Wrap>): seq<byte> {
    if ws == [] then [] else WrapBytes(ws[0]) + WrapsBytes(ws[1..])
  }

  function Header(f: Fanout): (h: seq<byte>)
    ensures |h| == 76
  {
    MAGIC + [VERSION] + Be(f.revision, 8) + Be(f.kfp, 32) + Be(f.rotator, 32)
  }

  function Sized(bytes: seq<byte>): seq<byte> {
    Be(|bytes| % 0x1_0000, 2) + bytes
  }

  function Body(ws: seq<Wrap>): seq<byte> {
    Be(|ws| % 0x1_0000_0000, 4) + WrapsBytes(ws)
  }

  function ToBytes(f: Fanout): seq<byte> {
    Header(f) + Sized(KeyBundles.ToBytes(f.epochPub)) + Body(f.wraps)
  }

  method WriteFanout(f: Fanout) returns (out: seq<byte>)
    ensures out == ToBytes(f)
  {
    var ep := KeyBundles.WriteBytes(f.epochPub);
    out := MAGIC + [VERSION];
    out := out + Be(f.revision, 8) + Be(f.kfp, 32) + Be(f.rotator, 32);
    ghost var front := out + Sized(ep);
    Regroup(out, Be(|ep| % 0x1_0000, 2), ep);
    out := out + Be(|ep| % 0x1_0000, 2) + ep;
    ghost var count := Be(|f.wraps| % 0x1_0000_0000, 4);
    out := out + Be(|f.wraps| % 0x1_0000_0000, 4);
    Regroup(front, count, WrapsBytes(f.wraps));
    for i := 0 to |f.wraps|
      invariant out + WrapsBytes(f.wraps[i..]) == ToBytes(f)
    {
      var w := f.wraps[i];
      assert f.wraps[i..][0] == w && f.wraps[i..][1..] == f.wraps[i + 1..];
      Regroup(out, WrapBytes(w), WrapsBytes(f.wraps[i + 1..]));
      AppendWrap(out, w);
      out := out + Be(w.epk, 32);
      out := out + Be(w.commit, 32);
      out := out + Be(|w.ct| % 0x1_0000_0000, 4);
      out := out + w.ct;
    }
  }

  lemma AppendWrap(out: seq<byte>, w: Wrap)
    ensures out + Be(w.epk, 32) + Be(w.commit, 32) + Be(|w.ct| % 0x1_0000_0000, 4) + w.ct == out + WrapBytes(w)
  {
    var a, b, c := Be(w.epk, 32), Be(w.commit, 32), Be(|w.ct| % 0x1_0000_0000, 4);
    Regroup(out, a, b + (c + w.ct));
    Regroup(out + a, b, c + w.ct);
    Regroup(out + a + b, c, w.ct);
  }

  // ---- reading ----

  function TakeWrap(rest: seq<byte>): (r: Option<(Wrap, seq<byte>)>)
    ensures r.Some? ==> |r.value.1| + 68 <= |rest|
  {
    if |rest| < 68 then None
    else
      var n := BeValue(rest[64..68]);
      if |rest| - 68 < n then None
      else Some((Wrap(BeValue(rest[..32]), BeValue(rest[32..64]), rest[68..68 + n]), rest[68 + n..]))
  }

  function TakeWraps(count: nat, rest: seq<byte>): Option<seq<Wrap>>
    decreases count
  {
    if count == 0 then Some([])
    else
      match TakeWrap(rest)
      case None => None
      case Some((w, after)) =>
        match TakeWraps(count - 1, after)
        case None => None
        case Some(ws) => Some([w] + ws)
  }

  // What follows the epoch bundle.
  function ReadBody(rest: seq<byte>): Result<seq<Wrap>, BlobError> {
    if |rest| < 4 then Err(Truncated)
    else if BeValue(rest[..4]) > MAX_WRAPS then Err(ImplausibleWrapCount)
    else
      match TakeWraps(BeValue(rest[..4]), rest[4..])
      case None => Err(Truncated)
      case Some(ws) => Ok(ws)
  }

  function HeaderFault(b: seq<byte>): (r: Option<BlobError>)
    ensures r.None? ==> |b| >= 78
  {
    if |b| < 3 then Some(Truncated)
    else if b[..3] != MAGIC then Some(BadMagic)
    else if |b| < 4 then Some(Truncated)
    else if b[3] != VERSION then Some(VersionMismatch)
    else if |b| < 78 then Some(Truncated)
    else None
  }

  function Assembled(head: seq<byte>, ep: KeyBundle, body: Result<seq<Wrap>, BlobError>): Result<Fanout, BlobError>
    requires |head| >= 76
  {
    match body
    case Err(e) => Err(e)
    case Ok(ws) => Ok(Fanout(BeValue(head[4..12]), BeValue(head[12..44]), BeValue(head[44..76]), ep, ws))
  }

  function FromBytes(b: seq<byte>): Result<Fanout, BlobError> {
    var fault := HeaderFault(b);
    if fault.Some? then Err(fault.value)
    else
      var n := BeValue(b[76..78]);
      if |b| < 78 + n then Err(Truncated)
      else
        match KeyBundles.FromBytes(b[78..78 + n])
        case Err(e) => Err(BadEpochBundle(e))
        case Ok(ep) => Assembled(b, ep, ReadBody(b[78 + n..]))
  }

  // The cursor's step: the next n bytes, when there are that many.
  function Take(b: seq<byte>, p: nat, n: nat): (r: Option<seq<byte>>)
    requires p <= |b|
    ensures r.Some? <==> p + n <= |b|
    ensures r.Some? ==> r.value == b[p..p + n]
  {
    if p + n > |b| then None else Some(b[p..p + n])
  }

  lemma CursorSlices(b: seq<byte>, p: nat)
    requires p + 68 <= |b|
    ensures b[p..][..32] == b[p..p + 32] && b[p..][32..64] == b[p + 32..p + 64] && b[p..][64..68] == b[p + 64..p + 68]
  {
  }

  lemma CursorRest(b: seq<byte>, p: nat, n: nat)
    requires p + 68 + n <= |b|
    ensures b[p..][68..68 + n] == b[p + 68..p + 68 + n] && b[p..][68 + n..] == b[p + 68 + n..]
  {
  }

  // One wrap: the cursor moves over four fields.
  method ReadWrap(b: seq<byte>, at: nat) returns (r: Option<Wrap>, p: nat)
    requires at <= |b|
    ensures p <= |b|
    ensures TakeWrap(b[at..]) == if r.Some? then Some((r.value, b[p..])) else None
  {
    p := at;
    var epk := Take(b, p, 32);
    if epk.None? { return None, p; }
    var commit := Take(b, p + 32, 32);
    if commit.None? { return None, p; }
    var size := Take(b, p + 64, 4);
    if size.None? { return None, p; }
    CursorSlices(b, p);
    var n := BeValue(size.value);
    var ct := Take(b, p + 68, n);
    if ct.None? { return None, p; }
    CursorRest(b, p, n);
    p := p + 68 + n;
    r := Some(Wrap(BeValue(epk.value), BeValue(commit.value), ct.value));
  }

  method ReadWraps(b: seq<byte>, at: nat, count: nat) returns (r: Option<seq<Wrap>>)
    requires at <= |b|
    ensures r == TakeWraps(count, b[at..])
  {
    var p: nat := at;
    var ws := [];
    assert forall s: seq<Wrap> :: ws + s == s;
    for i := 0 to count
      invariant p <= |b|
      invariant TakeWraps(count, b[at..]) ==
                match TakeWraps(count - i, b[p..])
                case None => None
                case Some(more) => Some(ws + more)
    {
      var w, next := ReadWrap(b, p);
      if w.None? {
        return None;
      }
      ghost var more := TakeWraps(count - i - 1, b[next..]);
      assert more.Some? ==> ws + ([w.value] + more.value) == ws + [w.value] + more.value;
      p, ws := next, ws + [w.value];
    }
    assert ws + [] == ws;
    return Some(ws);
  }

  method ReadFanout(b: seq<byte>) returns (r: Result<Fanout, BlobError>)
    ensures r == FromBytes(b)
  {
    var magic := Take(b, 0, 3);
    if magic.None? { return Err(Truncated); }
    if magic.value != MAGIC { return Err(BadMagic); }
    var version := Take(b, 3, 1);
    if version.None? { return Err(Truncated); }
    if version.value != [VERSION] { return Err(VersionMismatch); }
    var revision := Take(b, 4, 8);
    if revision.None? { return Err(Truncated); }
    var kfp := Take(b, 12, 32);
    if kfp.None? { return Err(Truncated); }
    var rotator := Take(b, 44, 32);
    if rotator.None? { return Err(Truncated); }
    var size := Take(b, 76, 2);
    if size.None? { return Err(Truncated); }
    var n := BeValue(size.value);
    var ep := Take(b, 78, n);
    if ep.None? { return Err(Truncated); }
    var bundle := KeyBundles.ReadBytes(ep.value);
    if bundle.Err? { return Err(BadEpochBundle(bundle.error)); }
    var count := Take(b, 78 + n, 4);
    if count.None? { return Err(Truncated); }
    ghost var rest := b[78 + n..];
    assert rest[..4] == count.value && rest[4..] == b[82 + n..];
    if BeValue(count.value) > MAX_WRAPS { return Err(ImplausibleWrapCount); }
    var ws := ReadWraps(b, 82 + n, BeValue(count.value));
    if ws.None? { return Err(Truncated); }
    return Ok(Fanout(BeValue(revision.value), BeValue(kfp.value), BeValue(rotator.value), bundle.value, ws.value));
  }

  // ---- the version-agnostic readers ----

  function BlobEpoch(b: seq<byte>): Option<nat> {
    if |b| >= 12 && b[0..3] == MAGIC then Some(BeValue(b[4..12])) else None
  }

  function BlobEpochPub(b: seq<byte>): Option<KeyBundle> {
    if |b| < 78 || b[0..3] != MAGIC || b[3] != 3 then None
    else
      var n := BeValue([b[76], b[77]]);
      if |b| < 78 + n then None
      else
        match KeyBundles.FromBytes(b[78..78 + n])
        case Err(_) => None
        case Ok(ep) => Some(ep)
  }

  // On every blob the full parser accepts, both readers give what it gave.
  lemma ReadersAgree(b: seq<byte>)
    requires FromBytes(b).Ok?
    ensures BlobEpoch(b) == Some(FromBytes(b).value.revision)
    ensures BlobEpochPub(b) == Some(FromBytes(b).value.epochPub)
  {
    assert [b[76], b[77]] == b[76..78];
  }

  // The revision reads the same whatever the version byte and the body say; the parser does not.
  lemma RevisionOutlivesTheVersion(b: seq<byte>, v: byte, body: seq<byte>)
    requires FromBytes(b).Ok? && v != VERSION
    ensures BlobEpoch(b[..3] + [v] + b[4..12] + body) == Some(FromBytes(b).value.revision)
    ensures FromBytes(b[..3] + [v] + b[4..12] + body) == Err(VersionMismatch)
  {
    var old3 := b[..3] + [v] + b[4..12] + body;
    assert old3[..3] == b[..3] && old3[4..12] == b[4..12];
  }

  // ---- round trip ----

  ghost predicate Printable(w: Wrap) {
    w.epk < Pow(256, 32) && w.commit < Pow(256, 32) && |w.ct| < 0x1_0000_0000
  }

  ghost predicate Prints(f: Fanout) {
    && f.revision < Pow(256, 8) && f.kfp < Pow(256, 32) && f.rotator < Pow(256, 32)
    && ValidBundle(f.epochPub)
    && |f.wraps| < 0x1_0000_0000
    && (forall i :: 0 <= i < |f.wraps| ==> Printable(f.wraps[i]))
  }

  // Four parts of known sizes are the four slices.
  lemma Slices(a: seq<byte>, b: seq<byte>, c: seq<byte>, d: seq<byte>)
    ensures var s := a + (b + (c + d));
            && s[..|a|] == a && s[|a|..|a| + |b|] == b && s[|a| + |b|..|a| + |b| + |c|] == c
            && s[|a| + |b| + |c|..] == d
  {
    Split((a + (b + (c + d)))[..|a|], (a + (b + (c + d)))[|a|..], a, b + (c + d));
    assert a + (b + (c + d)) == a + b + (c + d);
    assert a + (b + (c + d)) == a + b + c + d;
  }

  lemma FieldSlices(a: seq<byte>, b: seq<byte>, n: seq<byte>, ct: seq<byte>, tail: seq<byte>)
    requires |a| == 32 && |b| == 32 && |n| == 4
    ensures var whole := a + (b + (n + (ct + tail)));
            && |whole| >= 68 + |ct| && whole[..32] == a && whole[32..64] == b && whole[64..68] == n
            && whole[68..68 + |ct|] == ct && whole[68 + |ct|..] == tail
  {
    Slices(a, b, n, ct + tail);
    var whole := a + (b + (n + (ct + tail)));
    assert whole[68..][..|ct|] == ct && whole[68..][|ct|..] == tail;
    assert whole[68..68 + |ct|] == whole[68..][..|ct|] && whole[68 + |ct|..] == whole[68..][|ct|..];
  }

  lemma TakesThatWrap(rest: seq<byte>, n: nat)
    requires |rest| >= 68 + n && BeValue(rest[64..68]) == n
    ensures TakeWrap(rest) == Some((Wrap(BeValue(rest[..32]), BeValue(rest[32..64]), rest[68..68 + n]), rest[68 + n..]))
  {
  }

  lemma FieldsReadBack(a: seq<byte>, b: seq<byte>, n: seq<byte>, ct: seq<byte>, tail: seq<byte>)
    requires |a| == 32 && |b| == 32 && |n| == 4 && BeValue(n) == |ct|
    ensures TakeWrap(a + (b + (n + (ct + tail)))) == Some((Wrap(BeValue(a), BeValue(b), ct), tail))
  {
    FieldSlices(a, b, n, ct, tail);
    TakesThatWrap(a + (b + (n + (ct + tail))), |ct|);
  }

  lemma WrapReadsBack(w: Wrap, tail: seq<byte>)
    requires Printable(w)
    ensures TakeWrap(WrapBytes(w) + tail) == Some((w, tail))
  {
    BeFour(|w.ct|);
    BeRoundTrip(w.epk, 32);
    BeRoundTrip(w.commit, 32);
    FieldsReadBack(Be(w.epk, 32), Be(w.commit, 32), Be(|w.ct|, 4), w.ct, tail);
    WrapParts(Be(w.epk, 32), Be(w.commit, 32), Be(|w.ct|, 4), w.ct, tail);
  }

  lemma WrapParts(a: seq<byte>, b: seq<byte>, n: seq<byte>, ct: seq<byte>, tail: seq<byte>)
    ensures (a + (b + (n + ct))) + tail == a + (b + (n + (ct + tail)))
  {
    Regroup(a, b + (n + ct), tail);
    Regroup(b, n + ct, tail);
    Regroup(n, ct, tail);
  }

  lemma BeFour(n: nat)
    requires n < 0x1_0000_0000
    ensures BeValue(Be(n, 4)) == n && n % 0x1_0000_0000 == n
  {
    FourGib();
    BeRoundTrip(n, 4);
  }

  lemma BeTwo(n: nat)
    requires n < 0x1_0000
    ensures BeValue(Be(n, 2)) == n && n % 0x1_0000 == n
  {
    FourGib();
    BeRoundTrip(n, 2);
  }

  lemma {:induction false} WrapsReadBack(ws: seq<Wrap>, tail: seq<byte>)
    requires forall i :: 0 <= i < |ws| ==> Printable(ws[i])
    ensures TakeWraps(|ws|, WrapsBytes(ws) + tail) == Some(ws)
  {
    if ws != [] {
      Regroup(WrapBytes(ws[0]), WrapsBytes(ws[1..]), tail);
      WrapReadsBack(ws[0], WrapsBytes(ws[1..]) + tail);
      WrapsReadBack(ws[1..], tail);
      assert [ws[0]] + ws[1..] == ws;
    }
  }

  lemma CountedReadsBack(n: seq<byte>, ws: seq<Wrap>, body: seq<byte>)
    requires |n| == 4 && BeValue(n) == |ws| && TakeWraps(|ws|, body) == Some(ws)
    ensures ReadBody(n + body) == if |ws| <= MAX_WRAPS then Ok(ws) else Err(ImplausibleWrapCount)
  {
    assert (n + body)[..4] == n && (n + body)[4..] == body;
  }

  lemma BodyReadsBack(ws: seq<Wrap>, tail: seq<byte>)
    requires |ws| < 0x1_0000_0000 && forall i :: 0 <= i < |ws| ==> Printable(ws[i])
    ensures ReadBody(Body(ws) + tail) == if |ws| <= MAX_WRAPS then Ok(ws) else Err(ImplausibleWrapCount)
  {
    BeFour(|ws|);
    WrapsReadBack(ws, tail);
    Regroup(Be(|ws|, 4), WrapsBytes(ws), tail);
    CountedReadsBack(Be(|ws|, 4), ws, WrapsBytes(ws) + tail);
  }

  lemma HeaderSlices(r: seq<byte>, k: seq<byte>, o: seq<byte>, tail: seq<byte>)
    requires |r| == 8 && |k| == 32 && |o| == 32
    ensures var b := MAGIC + [VERSION] + r + k + o + tail;
            && b[..3] == MAGIC && b[3] == VERSION && b[4..12] == r && b[12..44] == k && b[44..76] == o
            && b[76..] == tail
  {
  }

  lemma HeaderReadsBack(f: Fanout, tail: seq<byte>)
    requires f.revision < Pow(256, 8) && f.kfp < Pow(256, 32) && f.rotator < Pow(256, 32)
    ensures var b := Header(f) + tail;
            && b[..3] == MAGIC && b[3] == VERSION && b[76..] == tail
            && BeValue(b[4..12]) == f.revision && BeValue(b[12..44]) == f.kfp && BeValue(b[44..76]) == f.rotator
  {
    HeaderSlices(Be(f.revision, 8), Be(f.kfp, 32), Be(f.rotator, 32), tail);
    BeRoundTrip(f.revision, 8);
    BeRoundTrip(f.kfp, 32);
    BeRoundTrip(f.rotator, 32);
  }

  lemma SizedSlices(p: seq<byte>, n: seq<byte>, ep: seq<byte>, rest: seq<byte>)
    requires |n| == 2 && |p| == 76
    ensures var b := p + ((n + ep) + rest);
            && b[76..78] == n && |b| >= 78 + |ep| && b[78..78 + |ep|] == ep && b[78 + |ep|..] == rest
  {
    Regroup(n, ep, rest);
    Slices(p, n, ep, rest);
  }

  lemma SizedReadsBack(p: seq<byte>, ep: seq<byte>, rest: seq<byte>)
    requires |ep| < 0x1_0000 && |p| == 76
    ensures var b := p + (Sized(ep) + rest);
            && |b| >= 78 && BeValue(b[76..78]) == |ep|
            && |b| >= 78 + |ep| && b[78..78 + |ep|] == ep && b[78 + |ep|..] == rest
  {
    BeTwo(|ep|);
    SizedSlices(p, Be(|ep|, 2), ep, rest);
  }

  // Given its slices, a blob parses to what they say.
  lemma PartsParse(b: seq<byte>, n: nat, ep: KeyBundle)
    requires |b| >= 78 + n && b[..3] == MAGIC && b[3] == VERSION && BeValue(b[76..78]) == n
    requires KeyBundles.FromBytes(b[78..78 + n]) == Ok(ep)
    ensures FromBytes(b) == Assembled(b, ep, ReadBody(b[78 + n..]))
  {
    assert HeaderFault(b).None?;
  }

  // Reading undoes writing, bytes after the last wrap being ignored, exactly up to 1024 wraps.
  lemma RoundTrip(f: Fanout, tail: seq<byte>)
    requires Prints(f)
    ensures FromBytes(ToBytes(f) + tail) == if |f.wraps| <= MAX_WRAPS then Ok(f) else Err(ImplausibleWrapCount)
  {
    var ep := KeyBundles.ToBytes(f.epochPub);
    KeyBundles.ToBytesSize(f.epochPub);
    KeyBundles.RoundTrip(f.epochPub);
    BodyReadsBack(f.wraps, tail);
    RoundTripParts(f, ep, Body(f.wraps) + tail);
    Regroup(Header(f) + Sized(ep), Body(f.wraps), tail);
    Regroup(Header(f), Sized(ep), Body(f.wraps) + tail);
  }

  lemma RoundTripParts(f: Fanout, ep: seq<byte>, rest: seq<byte>)
    requires f.revision < Pow(256, 8) && f.kfp < Pow(256, 32) && f.rotator < Pow(256, 32)
    requires |ep| < 0x1_0000 && KeyBundles.FromBytes(ep) == Ok(f.epochPub)
    ensures FromBytes(Header(f) + (Sized(ep) + rest)) ==
            match ReadBody(rest)
            case Err(e) => Err(e)
            case Ok(ws) => Ok(f.(wraps := ws))
  {
    HeaderReadsBack(f, Sized(ep) + rest);
    SizedReadsBack(Header(f), ep, rest);
    PartsParse(Header(f) + (Sized(ep) + rest), |ep|, f.epochPub);
  }

  // ---- cut short ----

  lemma CutWrap(w: Wrap, q: nat)
    requires Printable(w) && q < |WrapBytes(w)|
    ensures TakeWrap(WrapBytes(w)[..q]).None?
  {
    var a, b, n := Be(w.epk, 32), Be(w.commit, 32), Be(|w.ct| % 0x1_0000_0000, 4);
    BeFour(|w.ct|);
    if q >= 68 {
      FieldSlices(a, b, n, w.ct, []);
      assert w.ct + [] == w.ct;
      assert WrapBytes(w)[..q][64..68] == WrapBytes(w)[64..68];
    }
  }

  lemma {:induction false} CutWraps(ws: seq<Wrap>, q: nat)
    requires (forall i :: 0 <= i < |ws| ==> Printable(ws[i])) && q < |WrapsBytes(ws)|
    ensures TakeWraps(|ws|, WrapsBytes(ws)[..q]).None?
  {
    var first, more := WrapBytes(ws[0]), WrapsBytes(ws[1..]);
    if q < |first| {
      assert WrapsBytes(ws)[..q] == first[..q];
      CutWrap(ws[0], q);
    } else {
      var k := q - |first|;
      assert WrapsBytes(ws)[..q] == first + more[..k];
      WrapReadsBack(ws[0], more[..k]);
      CutWraps(ws[1..], k);
    }
  }

  lemma CutBody(ws: seq<Wrap>, q: nat)
    requires |ws| <= MAX_WRAPS && (forall i :: 0 <= i < |ws| ==> Printable(ws[i])) && q < |Body(ws)|
    ensures ReadBody(Body(ws)[..q]) == Err(Truncated)
  {
    if q >= 4 {
      BeFour(|ws|);
      assert Body(ws)[..q][..4] == Be(|ws|, 4) && Body(ws)[..q][4..] == WrapsBytes(ws)[..q - 4];
      CutWraps(ws, q - 4);
    }
  }

  lemma PrintedParts(f: Fanout)
    requires Prints(f)
    ensures var b, ep := ToBytes(f), KeyBundles.ToBytes(f.epochPub);
            && |b| == 78 + |ep| + |Body(f.wraps)| && b[..3] == MAGIC && b[3] == VERSION
            && BeValue(b[76..78]) == |ep| && b[78..78 + |ep|] == ep && b[78 + |ep|..] == Body(f.wraps)
  {
    var ep, body := KeyBundles.ToBytes(f.epochPub), Body(f.wraps);
    KeyBundles.ToBytesSize(f.epochPub);
    Regroup(Header(f), Sized(ep), body);
    HeaderReadsBack(f, Sized(ep) + body);
    SizedReadsBack(Header(f), ep, body);
  }

  lemma CutInHeader(b: seq<byte>, q: nat)
    requires |b| >= 78 && q < 78 && b[..3] == MAGIC && b[3] == VERSION
    ensures FromBytes(b[..q]) == Err(Truncated)
  {
    if q >= 3 {
      assert b[..q][..3] == b[..3];
    }
    assert HeaderFault(b[..q]) == Some(Truncated);
  }

  lemma CutInBundle(b: seq<byte>, q: nat, n: nat)
    requires |b| >= 78 + n && 78 <= q < 78 + n && b[..3] == MAGIC && b[3] == VERSION && BeValue(b[76..78]) == n
    ensures FromBytes(b[..q]) == Err(Truncated)
  {
    var t := b[..q];
    assert t[..3] == b[..3] && t[76..78] == b[76..78];
    assert HeaderFault(t).None?;
  }

  lemma CutPastBundle(b: seq<byte>, q: nat, n: nat, ep: KeyBundle)
    requires 78 + n <= q <= |b| && b[..3] == MAGIC && b[3] == VERSION && BeValue(b[76..78]) == n
    requires KeyBundles.FromBytes(b[78..78 + n]) == Ok(ep) && ReadBody(b[78 + n..][..q - 78 - n]).Err?
    ensures FromBytes(b[..q]) == Err(ReadBody(b[78 + n..][..q - 78 - n]).error)
  {
    var t := b[..q];
    assert t[..3] == b[..3] && t[76..78] == b[76..78];
    assert t[78..78 + n] == b[78..78 + n] && t[78 + n..] == b[78 + n..][..q - 78 - n];
    PartsParse(t, n, ep);
  }

  // A fan-out cut short anywhere is refused as truncated.
  lemma CutIsTruncated(f: Fanout, q: nat)
    requires Prints(f) && |f.wraps| <= MAX_WRAPS && q < |ToBytes(f)|
    ensures FromBytes(ToBytes(f)[..q]) == Err(Truncated)
  {
    var b, ep := ToBytes(f), KeyBundles.ToBytes(f.epochPub);
    PrintedParts(f);
    KeyBundles.RoundTrip(f.epochPub);
    if q < 78 {
      CutInHeader(b, q);
    } else if q < 78 + |ep| {
      CutInBundle(b, q, |ep|);
    } else {
      CutBody(f.wraps, q - 78 - |ep|);
      CutPastBundle(b, q, |ep|, f.epochPub);
    }
  }

  // ---- the register's view of a blob ----

  // What a stored document is to the register protocol.
  function StoredAs(doc: Option<seq<byte>>): FanoutRegister.Stored {
    match doc
    case None => FanoutRegister.Absent
    case Some(b) =>
      BeBounds(b);
      match FromBytes(b)
      case Ok(f) => FanoutRegister.Live(f.revision, f.kfp)
      case Err(_) => FanoutRegister.Unreadable(BlobEpoch(b))
  }

  lemma BeBounds(b: seq<byte>)
    ensures BlobEpoch(b).Some? ==> BlobEpoch(b).value <= FanoutRegister.LAST_REV
    ensures FromBytes(b).Ok? ==> FromBytes(b).value.revision <= FanoutRegister.LAST_REV
  {
    if |b| >= 12 {
      BeBound(b[4..12]);
      FourGib();
    }
  }

  // The revision a mint steps past is the agnostic reader's, parseable body or not.
  lemma RegisterReadsTheHeader(b: seq<byte>)
    ensures FanoutRegister.RevOf(StoredAs(Some(b))) == if BlobEpoch(b).Some? then BlobEpoch(b).value else 0
  {
    if FromBytes(b).Ok? {
      ReadersAgree(b);
    }
  }

  // ---- the publish triggers ----

  function NeedsRotation(wraps: nat, members: nat): bool {
    members > 0 && wraps > members
  }

  function NeedsGrow(wraps: nat, members: nat): bool {
    wraps < members
  }

  // With a desired member, a fan-out that wraps more than are desired is rotated and one that wraps fewer
  // is grown, never both, and one that wraps as many is left alone; with none desired nothing fires.
  lemma TriggersSplit(wraps: nat, members: nat)
    ensures wraps > members > 0 ==> NeedsRotation(wraps, members)
    ensures wraps < members ==> NeedsGrow(wraps, members)
    ensures !(NeedsRotation(wraps, members) && NeedsGrow(wraps, members))
    ensures !NeedsRotation(wraps, members) && !NeedsGrow(wraps, members) <==> wraps == members || members == 0
  {
  }
}
