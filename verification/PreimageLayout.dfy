/**
 Where each field of a preimage sits, byte by byte: what a device in the field signs and hashes,
 whatever way its bytes were put together.
 */
module PreimageLayout {
  import opened Wrappers
  import opened Collections
  import opened Bytes
  import opened Schemes
  import opened FleetOps
  import opened Preimage
  import KeyBundles

  // An ASCII string's bytes.
  predicate Spells(b: seq<byte>, s: string) {
    |b| == |s| && forall i :: 0 <= i < |s| ==> b[i] == s[i] as int
  }

  // The field of n bytes at an offset, read as a number: big-endian keys and hashes, little-endian
  // integers and lengths.
  ghost predicate KeyAt(s: seq<byte>, at: nat, key: nat) {
    at + 32 <= |s| && BeValue(s[at..at + 32]) == key
  }

  ghost predicate IntAt(s: seq<byte>, at: nat, n: int) {
    at + 8 <= |s| && LeValue(s[at..at + 8]) == n
  }

  // A signed stamp, in two's complement.
  ghost predicate StampAt(s: seq<byte>, at: nat, t: int) {
    IntAt(s, at, if t < 0 then 0x1_0000_0000_0000_0000 + t else t)
  }

  ghost predicate BytesAt(s: seq<byte>, at: nat, b: seq<byte>) {
    at + |b| <= |s| && s[at..at + |b|] == b
  }

  // A four-byte length, then that many bytes.
  ghost predicate FrameAt(s: seq<byte>, at: nat, b: seq<byte>) {
    at + 4 + |b| <= |s| && LeValue(s[at..at + 4]) == |b| && s[at + 4..at + 4 + |b|] == b
  }

  lemma DomainsSpell()
    ensures Spells(DOMAIN, "PHOTON_FLEET_OP_v") && Spells(BIND_DOMAIN, "PHOTON_BINDREQ_v")
    ensures Spells(DEPART_DOMAIN, "PHOTON_DEPARTREQ_v1")
  {
  }

  // ---- taking bytes apart ----

  lemma Peel(s: seq<byte>, at: nat, field: seq<byte>, rest: seq<byte>)
    requires at <= |s| && s[at..] == field + rest
    ensures BytesAt(s, at, field) && s[at + |field|..] == rest
  {
    PeelOff(s, at, field, rest);
  }

  lemma PeelKey(s: seq<byte>, at: nat, key: nat, rest: seq<byte>)
    requires at <= |s| && s[at..] == Be(key, 32) + rest && key < Pow(256, 32)
    ensures KeyAt(s, at, key) && s[at + 32..] == rest
  {
    Peel(s, at, Be(key, 32), rest);
    BeRoundTrip(key, 32);
  }

  lemma PeelInt(s: seq<byte>, at: nat, n: nat, rest: seq<byte>)
    requires at <= |s| && s[at..] == Le(n, 8) + rest && n < TWO64
    ensures IntAt(s, at, n) && s[at + 8..] == rest
  {
    Peel(s, at, Le(n, 8), rest);
    FourGib();
    LeRoundTrip(n, 8);
  }

  lemma PeelStamp(s: seq<byte>, at: nat, t: int, rest: seq<byte>)
    requires at <= |s| && s[at..] == I64(t) + rest && IsI64(t)
    ensures StampAt(s, at, t) && s[at + 8..] == rest
  {
    PeelInt(s, at, Unsigned(t), rest);
  }

  lemma PeelByte(s: seq<byte>, at: nat, b: byte, rest: seq<byte>)
    requires at <= |s| && s[at..] == [b] + rest
    ensures at < |s| && s[at] == b && s[at + 1..] == rest
  {
    Peel(s, at, [b], rest);
    assert s[at] == s[at..at + 1][0];
  }

  lemma PeelFrame(s: seq<byte>, at: nat, b: seq<byte>, rest: seq<byte>)
    requires at <= |s| && s[at..] == Frame(b) + rest && |b| < FOUR_GIB
    ensures FrameAt(s, at, b) && s[at + 4 + |b|..] == rest
  {
    FrameAs(b, |b|);
    Regroup(Le(|b|, 4), b, rest);
    Peel(s, at, Le(|b|, 4), b + rest);
    Peel(s, at + 4, b, rest);
    FourGib();
    LeRoundTrip(|b|, 4);
  }

  // ---- the signing bytes ----

  // The first 195 bytes: domain and version digit, slot, previous hash, kind, device, stamp, signer,
  // identity, consent stamp.
  ghost predicate HeadAt(s: seq<byte>, op: FleetOp) {
    && |s| >= 195 && Spells(s[..17], "PHOTON_FLEET_OP_v")
    && s[17] == (match op.version case V1 => 49 case V2 => 50 case V3 => 51 case V4 => 52)
    && KeyAt(s, 18, op.handleProof) && KeyAt(s, 50, op.prevHash)
    && s[82] == (match op.kind
                 case Genesis => 0 case Add => 1 case Remove => 2 case Checkpoint => 3 case Declare => 4
                 case Lock => 5 case Unlock => 6)
    && KeyAt(s, 83, op.device) && StampAt(s, 115, op.time) && KeyAt(s, 123, op.signer)
    && KeyAt(s, 155, op.identity) && StampAt(s, 187, op.consentT)
  }

  lemma SubjectFields(w: EggCodec, s: seq<byte>, op: FleetOp, rest: seq<byte>)
    requires Sized(w, op) && 83 <= |s| && s[83..] == Subject(op) + rest
    ensures KeyAt(s, 83, op.device) && StampAt(s, 115, op.time) && KeyAt(s, 123, op.signer)
    ensures KeyAt(s, 155, op.identity) && StampAt(s, 187, op.consentT) && |s| >= 195 && s[195..] == rest
  {
    var t3 := I64(op.consentT);
    var t2 := Be(op.identity, 32) + t3;
    var t1 := Be(op.signer, 32) + t2;
    var t0 := I64(op.time) + t1;
    Regroup(Be(op.device, 32), t0, rest);
    Regroup(I64(op.time), t1, rest);
    Regroup(Be(op.signer, 32), t2, rest);
    Regroup(Be(op.identity, 32), t3, rest);
    PeelKey(s, 83, op.device, t0 + rest);
    PeelStamp(s, 115, op.time, t1 + rest);
    PeelKey(s, 123, op.signer, t2 + rest);
    PeelKey(s, 155, op.identity, t3 + rest);
    PeelStamp(s, 187, op.consentT, rest);
  }

  lemma FirstFields(w: EggCodec, s: seq<byte>, op: FleetOp, rest: seq<byte>)
    requires Sized(w, op) && 17 <= |s|
    requires s[17..] == [VersionByte(op.version)] + (Be(op.handleProof, 32) + (Be(op.prevHash, 32) + rest))
    ensures |s| >= 82 && s[17] == VersionByte(op.version) && KeyAt(s, 18, op.handleProof) && KeyAt(s, 50, op.prevHash)
    ensures s[82..] == rest
  {
    PeelByte(s, 17, VersionByte(op.version), Be(op.handleProof, 32) + (Be(op.prevHash, 32) + rest));
    PeelKey(s, 18, op.handleProof, Be(op.prevHash, 32) + rest);
    PeelKey(s, 50, op.prevHash, rest);
  }

  lemma HeadParts(op: FleetOp, rest: seq<byte>)
    ensures var t := [KindByte(op.kind)] + (Subject(op) + rest);
            Head(op) + rest
            == DOMAIN + ([VersionByte(op.version)] + (Be(op.handleProof, 32) + (Be(op.prevHash, 32) + t)))
  {
    var t3 := [KindByte(op.kind)] + Subject(op);
    var t2 := Be(op.prevHash, 32) + t3;
    var t1 := Be(op.handleProof, 32) + t2;
    var t0 := [VersionByte(op.version)] + t1;
    assert Head(op) == DOMAIN + t0;
    Regroup(DOMAIN, t0, rest);
    Regroup([VersionByte(op.version)], t1, rest);
    Regroup(Be(op.handleProof, 32), t2, rest);
    Regroup(Be(op.prevHash, 32), t3, rest);
    Regroup([KindByte(op.kind)], Subject(op), rest);
  }

  lemma HeadFields(w: EggCodec, s: seq<byte>, op: FleetOp, rest: seq<byte>)
    requires Sized(w, op) && s == Head(op) + rest
    ensures HeadAt(s, op) && s[195..] == rest
  {
    var t := [KindByte(op.kind)] + (Subject(op) + rest);
    var t0 := [VersionByte(op.version)] + (Be(op.handleProof, 32) + (Be(op.prevHash, 32) + t));
    HeadParts(op, rest);
    Peel(s, 0, DOMAIN, t0);
    FirstFields(w, s, op, t);
    PeelByte(s, 82, KindByte(op.kind), Subject(op) + rest);
    SubjectFields(w, s, op, rest);
    DomainsSpell();
  }

  // Where the parts of a framed preimage start.
  function CheckpointStart(w: EggCodec, op: FleetOp): nat {
    199 + |w(op.consent)|
  }

  function BundleStart(w: EggCodec, op: FleetOp): nat {
    CheckpointStart(w, op) + if op.kind == Checkpoint then 48 else 0
  }

  function PlateStart(w: EggCodec, op: FleetOp): nat {
    BundleStart(w, op) + if op.kind == Add || op.kind == Declare then 4 + |BundleField(op)| else 0
  }

  // Past the head: the consent's eggs; a Checkpoint's number, commitment and epoch; an Add's or Declare's
  // bundle, empty when there is none; under v3 and v4 the plate, and under v4 its kind.
  ghost predicate TailAt(w: EggCodec, s: seq<byte>, op: FleetOp) {
    var ckpt, bundle, plate := CheckpointStart(w, op), BundleStart(w, op), PlateStart(w, op);
    && FrameAt(s, 195, w(op.consent))
    && (op.kind == Checkpoint ==>
          IntAt(s, ckpt, op.ckptK) && KeyAt(s, ckpt + 8, op.ckptCommit) && IntAt(s, ckpt + 40, op.ckptEpoch))
    && (op.kind == Add || op.kind == Declare ==>
          FrameAt(s, bundle, if op.bundle.Some? then KeyBundles.ToBytes(op.bundle.value) else []))
    && (Plated(op.version) && PlateKindOp(op.kind) ==>
          if op.plate.Some? then LenAt(s, plate, 32) && KeyAt(s, plate + 4, op.plate.value) else LenAt(s, plate, 0))
    && (op.version == V4 && PlateKindOp(op.kind) ==> |s| > plate && s[|s| - 1] == op.plateKind)
  }

  ghost predicate LenAt(s: seq<byte>, at: nat, n: nat) {
    at + 4 <= |s| && LeValue(s[at..at + 4]) == n
  }

  // How long a framed preimage is.
  function SigningSize(w: EggCodec, op: FleetOp): nat {
    PlateStart(w, op)
    + (if Plated(op.version) && PlateKindOp(op.kind) then
         4 + (if op.plate.Some? then 32 else 0) + (if op.version == V4 then 1 else 0)
       else 0)
  }

  lemma CheckpointFields(w: EggCodec, s: seq<byte>, at: nat, op: FleetOp, rest: seq<byte>)
    requires Sized(w, op) && op.kind == Checkpoint && at <= |s| && s[at..] == CheckpointPart(op) + rest
    ensures IntAt(s, at, op.ckptK) && KeyAt(s, at + 8, op.ckptCommit) && IntAt(s, at + 40, op.ckptEpoch)
    ensures |s| >= at + 48 && s[at + 48..] == rest
  {
    var e := Le(op.ckptEpoch, 8);
    var c := Be(op.ckptCommit, 32) + e;
    Regroup(Le(op.ckptK, 8), c, rest);
    Regroup(Be(op.ckptCommit, 32), e, rest);
    PeelInt(s, at, op.ckptK, c + rest);
    PeelKey(s, at + 8, op.ckptCommit, e + rest);
    PeelInt(s, at + 40, op.ckptEpoch, rest);
  }

  lemma PlateFields(w: EggCodec, s: seq<byte>, at: nat, op: FleetOp)
    requires Sized(w, op) && Plated(op.version) && PlateKindOp(op.kind) && at <= |s| && s[at..] == PlatePart(op)
    ensures if op.plate.Some? then LenAt(s, at, 32) && KeyAt(s, at + 4, op.plate.value) else LenAt(s, at, 0)
    ensures op.version == V4 ==> |s| > at && s[|s| - 1] == op.plateKind
    ensures |s| == at + 4 + (if op.plate.Some? then 32 else 0) + if op.version == V4 then 1 else 0
  {
    var tail := if op.version == V4 then [op.plateKind % 256] else [];
    var field := PlateField(op);
    PeelFrame(s, at, field, tail);
    if op.plate.Some? {
      assert KeyAt(s, at + 4, op.plate.value) by {
        assert s[at + 4..at + 36] == field;
        BeRoundTrip(op.plate.value, 32);
      }
    }
    assert |s[at + 4 + |field|..]| == |tail|;
    if op.version == V4 {
      assert s[|s| - 1] == s[at + 4 + |field|..][0];
    }
  }

  lemma ConsentFields(w: EggCodec, s: seq<byte>, op: FleetOp, rest: seq<byte>)
    requires Sized(w, op) && |s| >= 195 && s[195..] == Frame(w(op.consent)) + (CheckpointPart(op) + rest)
    ensures FrameAt(s, 195, w(op.consent)) && |s| >= BundleStart(w, op) && s[BundleStart(w, op)..] == rest
    ensures var ckpt := CheckpointStart(w, op);
            op.kind == Checkpoint ==>
              IntAt(s, ckpt, op.ckptK) && KeyAt(s, ckpt + 8, op.ckptCommit) && IntAt(s, ckpt + 40, op.ckptEpoch)
  {
    PeelFrame(s, 195, w(op.consent), CheckpointPart(op) + rest);
    if op.kind == Checkpoint {
      CheckpointFields(w, s, CheckpointStart(w, op), op, rest);
    } else {
      assert CheckpointPart(op) + rest == rest;
    }
  }

  lemma BundleFields(w: EggCodec, s: seq<byte>, op: FleetOp, rest: seq<byte>)
    requires Sized(w, op) && Framed(op.version)
    requires |s| >= BundleStart(w, op) && s[BundleStart(w, op)..] == BundlePart(op) + rest
    ensures op.kind == Add || op.kind == Declare ==> FrameAt(s, BundleStart(w, op), BundleField(op))
    ensures |s| >= PlateStart(w, op) && s[PlateStart(w, op)..] == rest
  {
    if op.kind == Add || op.kind == Declare {
      BundleFieldSize(w, op);
      PeelFrame(s, BundleStart(w, op), BundleField(op), rest);
    } else {
      assert BundlePart(op) + rest == rest;
    }
  }

  lemma TailFields(w: EggCodec, s: seq<byte>, op: FleetOp)
    requires Sized(w, op) && Framed(op.version) && |s| >= 195
    requires s[195..] == Frame(w(op.consent)) + (CheckpointPart(op) + (BundlePart(op) + PlatePart(op)))
    ensures TailAt(w, s, op) && |s| == SigningSize(w, op)
  {
    ConsentFields(w, s, op, BundlePart(op) + PlatePart(op));
    BundleFields(w, s, op, PlatePart(op));
    var plate := PlateStart(w, op);
    if Plated(op.version) && PlateKindOp(op.kind) {
      PlateFields(w, s, plate, op);
    } else {
      assert |s[plate..]| == 0;
    }
  }

  // Every field of a framed signing preimage, at its offset, and nothing past the last.
  lemma SigningLayout(w: EggCodec, op: FleetOp)
    requires Sized(w, op)
    ensures HeadAt(SigningBytes(w, op), op)
    ensures Framed(op.version) ==> TailAt(w, SigningBytes(w, op), op) && |SigningBytes(w, op)| == SigningSize(w, op)
    ensures op.version == V1 && op.consent != [] ==> BytesAt(SigningBytes(w, op), 195, op.consent[0].sig)
  {
    var s, tail := SigningBytes(w, op), CheckpointPart(op) + (BundlePart(op) + PlatePart(op));
    HeadFields(w, s, op, ConsentPart(w, op) + tail);
    if Framed(op.version) {
      TailFields(w, s, op);
    } else if op.consent != [] {
      Peel(s, 195, op.consent[0].sig, tail);
    }
  }

  // ---- the chain hash's bytes ----

  ghost predicate EggAt(s: seq<byte>, at: nat, e: Egg) {
    at < |s| && s[at] == e.scheme && FrameAt(s, at + 1, e.sig)
  }

  // One egg after another, each a scheme, a length and a signature, from an offset up to another.
  ghost predicate EggsAt(s: seq<byte>, at: nat, eggs: seq<Egg>, end: nat)
    decreases |eggs|
  {
    if eggs == [] then at == end
    else EggAt(s, at, eggs[0]) && EggsAt(s, at + 5 + |eggs[0].sig|, eggs[1..], end)
  }

  function EggsSize(eggs: seq<Egg>): nat {
    if eggs == [] then 0 else 5 + |eggs[0].sig| + EggsSize(eggs[1..])
  }

  lemma EggField(s: seq<byte>, at: nat, e: Egg, rest: seq<byte>)
    requires at <= |s| && s[at..] == EggPart(e) + rest && |e.sig| < FOUR_GIB
    ensures EggAt(s, at, e) && s[at + 5 + |e.sig|..] == rest
  {
    Regroup([e.scheme], Frame(e.sig), rest);
    PeelByte(s, at, e.scheme, Frame(e.sig) + rest);
    PeelFrame(s, at + 1, e.sig, rest);
  }

  lemma {:induction false} EggFields(s: seq<byte>, at: nat, eggs: seq<Egg>, rest: seq<byte>)
    requires at <= |s| && s[at..] == EggsPart(eggs) + rest
    requires forall i :: 0 <= i < |eggs| ==> |eggs[i].sig| < FOUR_GIB
    ensures EggsAt(s, at, eggs, at + EggsSize(eggs))
    ensures at + EggsSize(eggs) <= |s| && s[at + EggsSize(eggs)..] == rest
    decreases |eggs|
  {
    if eggs == [] {
      assert EggsPart(eggs) + rest == rest;
    } else {
      var more := EggsPart(eggs[1..]);
      Regroup(EggPart(eggs[0]), more, rest);
      EggField(s, at, eggs[0], more + rest);
      EggFields(s, at + 5 + |eggs[0].sig|, eggs[1..], rest);
    }
  }

  ghost predicate SealedAt(s: seq<byte>, signed: seq<byte>, eggs: seq<Egg>, identitySig: seq<byte>) {
    var n := |signed|;
    var id := n + 4 + EggsSize(eggs);
    && |s| == id + 4 + |identitySig| && s[..n] == signed && LenAt(s, n, |eggs|)
    && EggsAt(s, n + 4, eggs, id) && FrameAt(s, id, identitySig)
  }

  // After the signed content a framed chain-hash preimage has the egg count, then scheme, length and
  // signature of each egg in turn, then the identity signature, and ends.
  lemma ChainLayout(w: EggCodec, op: FleetOp)
    requires Sized(w, op) && Framed(op.version)
    ensures SealedAt(ChainBytes(w, op), SigningBytes(w, op), op.sigs, op.identitySig)
  {
    ChainParts(w, op);
    SealedFields(ChainBytes(w, op), SigningBytes(w, op), op.sigs, op.identitySig);
  }

  lemma SealedFields(s: seq<byte>, signed: seq<byte>, eggs: seq<Egg>, identitySig: seq<byte>)
    requires s == signed + (Le(|eggs|, 4) + (EggsPart(eggs) + Frame(identitySig)))
    requires |eggs| < FOUR_GIB && |identitySig| < FOUR_GIB
    requires forall i :: 0 <= i < |eggs| ==> |eggs[i].sig| < FOUR_GIB
    ensures SealedAt(s, signed, eggs, identitySig)
  {
    var n, last := |signed|, Frame(identitySig);
    CountedFields(s, signed, |eggs|, EggsPart(eggs) + last);
    EggFields(s, n + 4, eggs, last);
    LastFrame(s, n + 4 + EggsSize(eggs), identitySig);
  }

  lemma ChainParts(w: EggCodec, op: FleetOp)
    requires Sized(w, op) && Framed(op.version)
    ensures ChainBytes(w, op)
            == SigningBytes(w, op) + (Le(|op.sigs|, 4) + (EggsPart(op.sigs) + Frame(op.identitySig)))
  {
    var n := |op.sigs|;
    assert n % 0x1_0000_0000 == n;
  }

  lemma LastFrame(s: seq<byte>, at: nat, b: seq<byte>)
    requires at <= |s| && s[at..] == Frame(b) && |b| < FOUR_GIB
    ensures FrameAt(s, at, b) && |s| == at + 4 + |b|
  {
    assert Frame(b) + [] == Frame(b);
    PeelFrame(s, at, b, []);
    assert |s[at + 4 + |b|..]| == 0;
  }

  lemma CountedFields(s: seq<byte>, signed: seq<byte>, count: nat, tail: seq<byte>)
    requires count < FOUR_GIB && s == signed + (Le(count, 4) + tail)
    ensures var n := |signed|; |s| >= n + 4 && s[..n] == signed && LenAt(s, n, count) && s[n + 4..] == tail
  {
    Peel(s, 0, signed, Le(count, 4) + tail);
    Peel(s, |signed|, Le(count, 4), tail);
    FourGib();
    LeRoundTrip(count, 4);
  }

  // Under v1 nothing is framed: each egg is its scheme and its bare signature.
  ghost predicate BareEggsAt(s: seq<byte>, at: nat, eggs: seq<Egg>, end: nat)
    decreases |eggs|
  {
    if eggs == [] then at == end
    else
      && at < |s| && s[at] == eggs[0].scheme && BytesAt(s, at + 1, eggs[0].sig)
      && BareEggsAt(s, at + 1 + |eggs[0].sig|, eggs[1..], end)
  }

  lemma BareEggField(s: seq<byte>, at: nat, e: Egg, rest: seq<byte>)
    requires at <= |s| && s[at..] == ([e.scheme] + e.sig) + rest
    ensures at < |s| && s[at] == e.scheme && BytesAt(s, at + 1, e.sig) && s[at + 1 + |e.sig|..] == rest
  {
    Regroup([e.scheme], e.sig, rest);
    PeelByte(s, at, e.scheme, e.sig + rest);
    Peel(s, at + 1, e.sig, rest);
  }

  lemma {:induction false} BareEggFields(s: seq<byte>, at: nat, eggs: seq<Egg>, rest: seq<byte>) returns (end: nat)
    requires at <= |s| && s[at..] == BareEggs(eggs) + rest
    ensures BareEggsAt(s, at, eggs, end) && end <= |s| && s[end..] == rest
    decreases |eggs|
  {
    if eggs == [] {
      assert BareEggs(eggs) + rest == rest;
      end := at;
    } else {
      var more := BareEggs(eggs[1..]);
      Regroup([eggs[0].scheme] + eggs[0].sig, more, rest);
      BareEggField(s, at, eggs[0], more + rest);
      end := BareEggFields(s, at + 1 + |eggs[0].sig|, eggs[1..], rest);
    }
  }

  // A v1 chain-hash preimage: the signed content, the bare eggs, the bare identity signature.
  lemma V1ChainLayout(w: EggCodec, op: FleetOp)
    requires op.version == V1
    ensures var s, n := ChainBytes(w, op), |SigningBytes(w, op)|;
            && |s| >= n && s[..n] == SigningBytes(w, op)
            && exists end: nat :: BareEggsAt(s, n, op.sigs, end) && BytesAt(s, end, op.identitySig)
                             && |s| == end + |op.identitySig|
  {
    var s, signed := ChainBytes(w, op), SigningBytes(w, op);
    Peel(s, 0, signed, BareEggs(op.sigs) + op.identitySig);
    var end := BareEggFields(s, |signed|, op.sigs, op.identitySig);
    assert op.identitySig + [] == op.identitySig;
    Peel(s, end, op.identitySig, []);
    assert |s[end..]| == |op.identitySig|;
  }

  // ---- requests ----

  lemma RequestFields(w: EggCodec, s: seq<byte>, at: nat, op: FleetOp, rest: seq<byte>)
    requires Sized(w, op) && at <= |s| && s[at..] == Request(op) + rest
    ensures KeyAt(s, at, op.handleProof) && KeyAt(s, at + 32, op.device) && StampAt(s, at + 64, op.consentT)
    ensures |s| >= at + 72 && s[at + 72..] == rest
  {
    var t := Be(op.device, 32) + I64(op.consentT);
    Regroup(Be(op.handleProof, 32), t, rest);
    Regroup(Be(op.device, 32), I64(op.consentT), rest);
    PeelKey(s, at, op.handleProof, t + rest);
    PeelKey(s, at + 32, op.device, I64(op.consentT) + rest);
    PeelStamp(s, at + 64, op.consentT, rest);
  }

  lemma HardwareFields(w: EggCodec, s: seq<byte>, at: nat, op: FleetOp)
    requires Sized(w, op) && at <= |s| && s[at..] == [op.plateKind % 256] + PlateField(op)
    ensures |s| == at + 1 + (if op.plate.Some? then 32 else 0) && s[at] == op.plateKind
    ensures op.plate.Some? ==> KeyAt(s, at + 1, op.plate.value)
  {
    PeelByte(s, at, op.plateKind % 256, PlateField(op));
    assert |s[at + 1..]| == |PlateField(op)|;
    if op.plate.Some? {
      assert Be(op.plate.value, 32) + [] == PlateField(op);
      PeelKey(s, at + 1, op.plate.value, []);
    }
  }

  predicate Plain(op: FleetOp) {
    op.plate.None? && op.plateKind == UNSTATED
  }

  lemma PlainRequestLayout(w: EggCodec, op: FleetOp)
    requires Sized(w, op) && Plain(op)
    ensures var s := BindRequestBytes(op);
            && |s| == 89 && Spells(s[..17], "PHOTON_BINDREQ_v1")
            && KeyAt(s, 17, op.handleProof) && KeyAt(s, 49, op.device) && StampAt(s, 81, op.consentT)
  {
    var s, none: seq<byte> := BindRequestBytes(op), [];
    assert Request(op) + none == Request(op);
    RequestAfter(w, s, 49, op, none);
    DomainsSpell();
  }

  lemma RequestAfter(w: EggCodec, s: seq<byte>, digit: byte, op: FleetOp, rest: seq<byte>)
    requires Sized(w, op) && s == BIND_DOMAIN + ([digit] + (Request(op) + rest))
    ensures |s| >= 89 && s[..17] == BIND_DOMAIN + [digit] && s[89..] == rest
    ensures KeyAt(s, 17, op.handleProof) && KeyAt(s, 49, op.device) && StampAt(s, 81, op.consentT)
  {
    Regroup(BIND_DOMAIN, [digit], Request(op) + rest);
    Peel(s, 0, BIND_DOMAIN + [digit], Request(op) + rest);
    RequestFields(w, s, 17, op, rest);
  }

  // "..v1" when no hardware is stated; else "..v2", with the kind and the plate, if any, at the end.
  lemma BindRequestLayout(w: EggCodec, op: FleetOp)
    requires Sized(w, op)
    ensures var s := BindRequestBytes(op);
            && |s| == (if Plain(op) then 89 else if op.plate.None? then 90 else 122)
            && Spells(s[..17], if Plain(op) then "PHOTON_BINDREQ_v1" else "PHOTON_BINDREQ_v2")
            && KeyAt(s, 17, op.handleProof) && KeyAt(s, 49, op.device) && StampAt(s, 81, op.consentT)
            && (!Plain(op) ==> s[89] == op.plateKind) && (op.plate.Some? ==> KeyAt(s, 90, op.plate.value))
  {
    if Plain(op) {
      PlainRequestLayout(w, op);
    } else {
      var s := BindRequestBytes(op);
      RequestAfter(w, s, 50, op, [op.plateKind % 256] + PlateField(op));
      HardwareFields(w, s, 89, op);
      DomainsSpell();
    }
  }

  lemma DepartRequestLayout(w: EggCodec, op: FleetOp)
    requires Sized(w, op)
    ensures var s := DepartRequestBytes(op);
            && |s| == 91 && Spells(s[..19], "PHOTON_DEPARTREQ_v1")
            && KeyAt(s, 19, op.handleProof) && KeyAt(s, 51, op.device) && StampAt(s, 83, op.consentT)
  {
    var s, none: seq<byte> := DepartRequestBytes(op), [];
    assert Request(op) + none == Request(op);
    Peel(s, 0, DEPART_DOMAIN, Request(op));
    RequestFields(w, s, 19, op, none);
    DomainsSpell();
  }
}
