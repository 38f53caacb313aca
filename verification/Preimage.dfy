/**
 The bytes an op's signatures and its chain hash cover.  Every variable-length element of a v2-v4
 preimage is length-framed; these are the proofs that the framing makes it injective.
 */
module Preimage {
  import opened Wrappers
  import opened Collections
  import opened Bytes
  import opened Schemes
  import opened FleetOps
  import KeyBundles

  // The wire form of an egg list belongs to another layer; any injective codec will do.
  type EggCodec = seq<Egg> -> seq<byte>

  ghost predicate Injective(w: EggCodec) {
    forall a, b :: w(a) == w(b) ==> a == b
  }

  // "PHOTON_FLEET_OP_v", then the version's digit.
  const DOMAIN: seq<byte> := [80, 72, 79, 84, 79, 78, 95, 70, 76, 69, 69, 84, 95, 79, 80, 95, 118]

  function VersionByte(v: OpVersion): byte {
    match v
    case V1 => 49
    case V2 => 50
    case V3 => 51
    case V4 => 52
  }

  function KindByte(k: OpKind): byte {
    match k
    case Genesis => 0
    case Add => 1
    case Remove => 2
    case Checkpoint => 3
    case Declare => 4
    case Lock => 5
    case Unlock => 6
  }

  const TWO64: nat := 0x1_0000_0000_0000_0000

  predicate IsI64(t: int) {
    -0x8000_0000_0000_0000 <= t < 0x8000_0000_0000_0000
  }

  // Two's complement.
  function Unsigned(t: int): (n: nat)
    ensures IsI64(t) ==> n < TWO64
  {
    if t >= 0 then t else if t + TWO64 >= 0 then t + TWO64 else 0
  }

  function I64(t: int): (s: seq<byte>)
    ensures |s| == 8
  {
    Le(Unsigned(t), 8)
  }

  // ---- the signing bytes ----

  // The fixed-width fields, in order.
  function Head(op: FleetOp): (s: seq<byte>)
    ensures |s| == 195
  {
    DOMAIN + ([VersionByte(op.version)] + (Be(op.handleProof, 32) + (Be(op.prevHash, 32) + ([KindByte(op.kind)]
    + (Be(op.device, 32) + (I64(op.time) + (Be(op.signer, 32) + (Be(op.identity, 32) + I64(op.consentT)))))))))
  }

  function ConsentPart(w: EggCodec, op: FleetOp): seq<byte> {
    if Framed(op.version) then Frame(w(op.consent))
    else if op.consent == [] then [] else op.consent[0].sig
  }

  function CheckpointPart(op: FleetOp): seq<byte> {
    if op.kind == Checkpoint then Le(op.ckptK, 8) + (Be(op.ckptCommit, 32) + Le(op.ckptEpoch, 8)) else []
  }

  function BundleField(op: FleetOp): seq<byte> {
    match op.bundle
    case Some(b) => KeyBundles.ToBytes(b)
    case None => []
  }

  function BundlePart(op: FleetOp): seq<byte> {
    if Framed(op.version) && (op.kind == Add || op.kind == Declare) then Frame(BundleField(op)) else []
  }

  function PlateField(op: FleetOp): seq<byte> {
    match op.plate
    case Some(p) => Be(p, 32)
    case None => []
  }

  function PlatePart(op: FleetOp): seq<byte> {
    if Plated(op.version) && PlateKindOp(op.kind) then
      Frame(PlateField(op)) + if op.version == V4 then [op.plateKind % 256] else []
    else []
  }

  function SigningBytes(w: EggCodec, op: FleetOp): seq<byte> {
    Head(op) + (ConsentPart(w, op) + (CheckpointPart(op) + (BundlePart(op) + PlatePart(op))))
  }

  lemma SigningLeavesTheSealOut(w: EggCodec, op: FleetOp, eggs: seq<Egg>)
    ensures SigningBytes(w, op.(sigs := eggs)) == SigningBytes(w, op)
  {
    var sealed := op.(sigs := eggs);
    assert Head(sealed) == Head(op) && CheckpointPart(sealed) == CheckpointPart(op);
    assert ConsentPart(w, sealed) == ConsentPart(w, op);
    assert BundlePart(sealed) == BundlePart(op) && PlatePart(sealed) == PlatePart(op);
  }

  // Every field fits its width, and what is carried was parsed.
  ghost predicate Sized(w: EggCodec, op: FleetOp) {
    && op.handleProof < Pow(256, 32) && op.prevHash < Pow(256, 32) && op.device < Pow(256, 32)
    && op.signer < Pow(256, 32) && op.identity < Pow(256, 32) && op.ckptCommit < Pow(256, 32)
    && IsI64(op.time) && IsI64(op.consentT) && op.ckptK < TWO64 && op.ckptEpoch < TWO64
    && (op.plate.Some? ==> op.plate.value < Pow(256, 32)) && op.plateKind < 256
    && (op.bundle.Some? ==> ValidBundle(op.bundle.value))
    && |w(op.consent)| < FOUR_GIB && |op.identitySig| < FOUR_GIB && |op.sigs| < FOUR_GIB
    && forall i :: 0 <= i < |op.sigs| ==> |op.sigs[i].sig| < FOUR_GIB
  }

  // A framed op that passes the fold's structural checks.
  ghost predicate WellFramed(w: EggCodec, op: FleetOp) {
    Framed(op.version) && Sized(w, op) && Structural(op, 0).None?
  }

  ghost predicate SameHead(a: FleetOp, b: FleetOp) {
    && a.version == b.version && a.handleProof == b.handleProof && a.prevHash == b.prevHash && a.kind == b.kind
    && a.device == b.device && a.time == b.time && a.signer == b.signer && a.identity == b.identity
    && a.consentT == b.consentT
  }

  // Equal in everything but the signatures over them.
  ghost predicate SameContent(a: FleetOp, b: FleetOp) {
    a.(sigs := b.sigs, identitySig := b.identitySig) == b
  }

  lemma Keys32()
    ensures Pow(256, 8) == TWO64
  {
    FourGib();
  }

  lemma SplitI64(s: int, x: seq<byte>, t: int, y: seq<byte>)
    requires IsI64(s) && IsI64(t) && I64(s) + x == I64(t) + y
    ensures s == t && x == y
  {
    Keys32();
    SplitLe(Unsigned(s), x, Unsigned(t), y, 8);
  }

  lemma SplitByte(p: byte, x: seq<byte>, q: byte, y: seq<byte>)
    requires [p] + x == [q] + y
    ensures p == q && x == y
  {
    Split([p], x, [q], y);
    assert [p][0] == [q][0];
  }

  // The second half of the head: from the device on.
  function Subject(op: FleetOp): seq<byte> {
    Be(op.device, 32) + (I64(op.time) + (Be(op.signer, 32) + (Be(op.identity, 32) + I64(op.consentT))))
  }

  lemma SubjectDetermines(w: EggCodec, a: FleetOp, b: FleetOp)
    requires Sized(w, a) && Sized(w, b) && Subject(a) == Subject(b)
    ensures a.device == b.device && a.time == b.time && a.signer == b.signer
    ensures a.identity == b.identity && a.consentT == b.consentT
  {
    var a4, b4 := I64(a.consentT), I64(b.consentT);
    var a3, b3 := Be(a.identity, 32) + a4, Be(b.identity, 32) + b4;
    var a2, b2 := Be(a.signer, 32) + a3, Be(b.signer, 32) + b3;
    SplitBe(a.device, I64(a.time) + a2, b.device, I64(b.time) + b2, 32);
    SplitI64(a.time, a2, b.time, b2);
    SplitBe(a.signer, a3, b.signer, b3, 32);
    SplitBe(a.identity, a4, b.identity, b4, 32);
    assert a4 + [] == b4 + [];
    SplitI64(a.consentT, [], b.consentT, []);
  }

  lemma HeadDetermines(w: EggCodec, a: FleetOp, b: FleetOp)
    requires Sized(w, a) && Sized(w, b) && Head(a) == Head(b)
    ensures SameHead(a, b)
  {
    var a3, b3 := [KindByte(a.kind)] + Subject(a), [KindByte(b.kind)] + Subject(b);
    var a2, b2 := Be(a.prevHash, 32) + a3, Be(b.prevHash, 32) + b3;
    var a1, b1 := Be(a.handleProof, 32) + a2, Be(b.handleProof, 32) + b2;
    Split(DOMAIN, [VersionByte(a.version)] + a1, DOMAIN, [VersionByte(b.version)] + b1);
    SplitByte(VersionByte(a.version), a1, VersionByte(b.version), b1);
    SplitBe(a.handleProof, a2, b.handleProof, b2, 32);
    SplitBe(a.prevHash, a3, b.prevHash, b3, 32);
    SplitByte(KindByte(a.kind), Subject(a), KindByte(b.kind), Subject(b));
    SubjectDetermines(w, a, b);
  }

  lemma SplitCheckpoint(w: EggCodec, a: FleetOp, x: seq<byte>, b: FleetOp, y: seq<byte>)
    requires Sized(w, a) && Sized(w, b) && a.kind == b.kind && CheckpointPart(a) + x == CheckpointPart(b) + y
    ensures x == y
    ensures a.kind == Checkpoint ==> a.ckptK == b.ckptK && a.ckptCommit == b.ckptCommit && a.ckptEpoch == b.ckptEpoch
  {
    if a.kind == Checkpoint {
      Keys32();
      Split(CheckpointPart(a), x, CheckpointPart(b), y);
      var a1, b1 := Le(a.ckptEpoch, 8), Le(b.ckptEpoch, 8);
      SplitLe(a.ckptK, Be(a.ckptCommit, 32) + a1, b.ckptK, Be(b.ckptCommit, 32) + b1, 8);
      SplitBe(a.ckptCommit, a1, b.ckptCommit, b1, 32);
      LeInjective(a.ckptEpoch, b.ckptEpoch, 8);
    } else {
      assert CheckpointPart(a) + x == x && CheckpointPart(b) + y == y;
    }
  }

  // An absent bundle frames as zero bytes, a present one never does.
  lemma BundleFieldDetermines(w: EggCodec, a: FleetOp, b: FleetOp)
    requires Sized(w, a) && Sized(w, b) && BundleField(a) == BundleField(b)
    ensures a.bundle == b.bundle
  {
    if a.bundle.Some? {
      KeyBundles.ToBytesSize(a.bundle.value);
    }
    if b.bundle.Some? {
      KeyBundles.ToBytesSize(b.bundle.value);
    }
    if a.bundle.Some? && b.bundle.Some? {
      KeyBundles.ToBytesInjective(a.bundle.value, b.bundle.value);
    }
  }

  lemma BundleFieldSize(w: EggCodec, op: FleetOp)
    requires Sized(w, op)
    ensures |BundleField(op)| < FOUR_GIB
  {
    if op.bundle.Some? {
      KeyBundles.ToBytesSize(op.bundle.value);
    }
  }

  lemma SplitBundle(w: EggCodec, a: FleetOp, x: seq<byte>, b: FleetOp, y: seq<byte>)
    requires Sized(w, a) && Sized(w, b) && a.kind == b.kind && a.version == b.version
    requires BundlePart(a) + x == BundlePart(b) + y
    ensures x == y
    ensures Framed(a.version) && (a.kind == Add || a.kind == Declare) ==> a.bundle == b.bundle
  {
    if Framed(a.version) && (a.kind == Add || a.kind == Declare) {
      BundleFieldSize(w, a);
      BundleFieldSize(w, b);
      SplitFrame(BundleField(a), x, BundleField(b), y);
      BundleFieldDetermines(w, a, b);
    } else {
      assert BundlePart(a) + x == x && BundlePart(b) + y == y;
    }
  }

  lemma PlateFieldDetermines(w: EggCodec, a: FleetOp, b: FleetOp)
    requires Sized(w, a) && Sized(w, b) && PlateField(a) == PlateField(b)
    ensures a.plate == b.plate
  {
    if a.plate.Some? && b.plate.Some? {
      BeInjective(a.plate.value, b.plate.value, 32);
    }
  }

  lemma SplitPlate(w: EggCodec, a: FleetOp, x: seq<byte>, b: FleetOp, y: seq<byte>)
    requires Sized(w, a) && Sized(w, b) && a.kind == b.kind && a.version == b.version
    requires PlatePart(a) + x == PlatePart(b) + y
    ensures x == y
    ensures Plated(a.version) && PlateKindOp(a.kind)
            ==> a.plate == b.plate && (a.version == V4 ==> a.plateKind == b.plateKind)
  {
    if Plated(a.version) && PlateKindOp(a.kind) {
      var ka := if a.version == V4 then [a.plateKind % 256] else [];
      var kb := if b.version == V4 then [b.plateKind % 256] else [];
      Regroup(Frame(PlateField(a)), ka, x);
      Regroup(Frame(PlateField(b)), kb, y);
      SplitFrame(PlateField(a), ka + x, PlateField(b), kb + y);
      PlateFieldDetermines(w, a, b);
      Split(ka, x, kb, y);
      assert a.version == V4 ==> ka[0] == kb[0];
    } else {
      assert PlatePart(a) + x == x && PlatePart(b) + y == y;
    }
  }

  // The parts after the head, given that the heads agree.
  lemma TailDetermines(w: EggCodec, a: FleetOp, x: seq<byte>, b: FleetOp, y: seq<byte>)
    requires Injective(w) && WellFramed(w, a) && WellFramed(w, b) && SameHead(a, b)
    requires Frame(w(a.consent)) + (CheckpointPart(a) + (BundlePart(a) + (PlatePart(a) + x)))
          == Frame(w(b.consent)) + (CheckpointPart(b) + (BundlePart(b) + (PlatePart(b) + y)))
    ensures SameContent(a, b) && x == y
  {
    SplitFrame(w(a.consent), CheckpointPart(a) + (BundlePart(a) + (PlatePart(a) + x)),
               w(b.consent), CheckpointPart(b) + (BundlePart(b) + (PlatePart(b) + y)));
    SplitCheckpoint(w, a, BundlePart(a) + (PlatePart(a) + x), b, BundlePart(b) + (PlatePart(b) + y));
    SplitBundle(w, a, PlatePart(a) + x, b, PlatePart(b) + y);
    SplitPlate(w, a, x, b, y);
  }

  lemma Regroup4(h: seq<byte>, c: seq<byte>, k: seq<byte>, b: seq<byte>, p: seq<byte>, x: seq<byte>)
    ensures (h + (c + (k + (b + p)))) + x == h + (c + (k + (b + (p + x))))
  {
    Regroup(h, c + (k + (b + p)), x);
    Regroup(c, k + (b + p), x);
    Regroup(k, b + p, x);
    Regroup(b, p, x);
  }

  // The signing preimage is injective and prefix-free across versions, kinds and optional fields:
  // if one preimage, however continued, reads as another, the two ops have the same content.
  lemma SigningBytesDetermine(w: EggCodec, a: FleetOp, x: seq<byte>, b: FleetOp, y: seq<byte>)
    requires Injective(w) && WellFramed(w, a) && WellFramed(w, b)
    requires SigningBytes(w, a) + x == SigningBytes(w, b) + y
    ensures SameContent(a, b) && x == y
  {
    Regroup4(Head(a), ConsentPart(w, a), CheckpointPart(a), BundlePart(a), PlatePart(a), x);
    Regroup4(Head(b), ConsentPart(w, b), CheckpointPart(b), BundlePart(b), PlatePart(b), y);
    Split(Head(a), ConsentPart(w, a) + (CheckpointPart(a) + (BundlePart(a) + (PlatePart(a) + x))),
          Head(b), ConsentPart(w, b) + (CheckpointPart(b) + (BundlePart(b) + (PlatePart(b) + y))));
    HeadDetermines(w, a, b);
    TailDetermines(w, a, x, b, y);
  }

  // ---- the chain hash ----

  function EggPart(e: Egg): seq<byte> {
    [e.scheme] + Frame(e.sig)
  }

  function EggsPart(eggs: seq<Egg>): seq<byte> {
    if eggs == [] then [] else EggPart(eggs[0]) + EggsPart(eggs[1..])
  }

  function BareEggs(eggs: seq<Egg>): seq<byte> {
    if eggs == [] then [] else ([eggs[0].scheme] + eggs[0].sig) + BareEggs(eggs[1..])
  }

  // What the chain hash covers: the signed content and every signature.
  function ChainBytes(w: EggCodec, op: FleetOp): seq<byte> {
    if Framed(op.version) then
      SigningBytes(w, op) + (Le(|op.sigs| % 0x1_0000_0000, 4) + (EggsPart(op.sigs) + Frame(op.identitySig)))
    else SigningBytes(w, op) + (BareEggs(op.sigs) + op.identitySig)
  }

  lemma SplitEgg(a: Egg, x: seq<byte>, b: Egg, y: seq<byte>)
    requires |a.sig| < FOUR_GIB && |b.sig| < FOUR_GIB && EggPart(a) + x == EggPart(b) + y
    ensures a == b && x == y
  {
    Regroup([a.scheme], Frame(a.sig), x);
    Regroup([b.scheme], Frame(b.sig), y);
    SplitByte(a.scheme, Frame(a.sig) + x, b.scheme, Frame(b.sig) + y);
    SplitFrame(a.sig, x, b.sig, y);
  }

  lemma {:induction false} SplitEggs(a: seq<Egg>, x: seq<byte>, b: seq<Egg>, y: seq<byte>)
    requires |a| == |b| && EggsPart(a) + x == EggsPart(b) + y
    requires forall i :: 0 <= i < |a| ==> |a[i].sig| < FOUR_GIB && |b[i].sig| < FOUR_GIB
    ensures a == b && x == y
  {
    if a == [] {
      assert EggsPart(a) + x == x && EggsPart(b) + y == y;
    } else {
      Regroup(EggPart(a[0]), EggsPart(a[1..]), x);
      Regroup(EggPart(b[0]), EggsPart(b[1..]), y);
      SplitEgg(a[0], EggsPart(a[1..]) + x, b[0], EggsPart(b[1..]) + y);
      SplitEggs(a[1..], x, b[1..], y);
      assert a == [a[0]] + a[1..] && b == [b[0]] + b[1..];
    }
  }

  lemma CountDetermines(m: nat, x: seq<byte>, n: nat, y: seq<byte>)
    requires m < 0x1_0000_0000 && n < 0x1_0000_0000
    requires Le(m % 0x1_0000_0000, 4) + x == Le(n % 0x1_0000_0000, 4) + y
    ensures m == n && x == y
  {
    FourGib();
    SplitLe(m % 0x1_0000_0000, x, n % 0x1_0000_0000, y, 4);
  }

  // The chain-hash preimage determines the op, signatures and all, and is prefix-free too.
  lemma ChainBytesDetermine(w: EggCodec, a: FleetOp, x: seq<byte>, b: FleetOp, y: seq<byte>)
    requires Injective(w) && WellFramed(w, a) && WellFramed(w, b)
    requires ChainBytes(w, a) + x == ChainBytes(w, b) + y
    ensures a == b && x == y
  {
    var ca, cb := Le(|a.sigs| % 0x1_0000_0000, 4), Le(|b.sigs| % 0x1_0000_0000, 4);
    var ea, eb := EggsPart(a.sigs), EggsPart(b.sigs);
    Regroup3(SigningBytes(w, a), ca, ea, Frame(a.identitySig), x);
    Regroup3(SigningBytes(w, b), cb, eb, Frame(b.identitySig), y);
    SigningBytesDetermine(w, a, ca + (ea + (Frame(a.identitySig) + x)), b, cb + (eb + (Frame(b.identitySig) + y)));
    CountDetermines(|a.sigs|, ea + (Frame(a.identitySig) + x), |b.sigs|, eb + (Frame(b.identitySig) + y));
    SplitEggs(a.sigs, Frame(a.identitySig) + x, b.sigs, Frame(b.identitySig) + y);
    SplitFrame(a.identitySig, x, b.identitySig, y);
  }

  lemma Regroup3(s: seq<byte>, c: seq<byte>, e: seq<byte>, f: seq<byte>, x: seq<byte>)
    ensures (s + (c + (e + f))) + x == s + (c + (e + (f + x)))
  {
    Regroup(s, c + (e + f), x);
    Regroup(c, e + f, x);
    Regroup(e, f, x);
  }

  // ---- consent ----

  // "PHOTON_BINDREQ_v" and "PHOTON_DEPARTREQ_v1".
  const BIND_DOMAIN: seq<byte> := [80, 72, 79, 84, 79, 78, 95, 66, 73, 78, 68, 82, 69, 81, 95, 118]
  const DEPART_DOMAIN: seq<byte> := [80, 72, 79, 84, 79, 78, 95, 68, 69, 80, 65, 82, 84, 82, 69, 81, 95, 118, 49]

  function Request(op: FleetOp): (s: seq<byte>)
    ensures |s| == 72
  {
    Be(op.handleProof, 32) + (Be(op.device, 32) + I64(op.consentT))
  }

  // What a joiner signs: the v1 bytes when it states no hardware, else v2 with kind and plate.
  function BindRequestBytes(op: FleetOp): seq<byte> {
    if op.plate.None? && op.plateKind == UNSTATED then BIND_DOMAIN + ([49] + Request(op))
    else BIND_DOMAIN + ([50] + (Request(op) + ([op.plateKind % 256] + PlateField(op))))
  }

  function DepartRequestBytes(op: FleetOp): seq<byte> {
    DEPART_DOMAIN + Request(op)
  }

  lemma RequestDetermines(w: EggCodec, a: FleetOp, b: FleetOp)
    requires Sized(w, a) && Sized(w, b) && Request(a) == Request(b)
    ensures a.handleProof == b.handleProof && a.device == b.device && a.consentT == b.consentT
  {
    SplitBe(a.handleProof, Be(a.device, 32) + I64(a.consentT), b.handleProof, Be(b.device, 32) + I64(b.consentT), 32);
    SplitBe(a.device, I64(a.consentT), b.device, I64(b.consentT), 32);
    assert I64(a.consentT) + [] == I64(b.consentT) + [];
    SplitI64(a.consentT, [], b.consentT, []);
  }

  // A consent to join binds the slot, the device, the stamp and the stated hardware.
  lemma BindRequestDetermines(w: EggCodec, a: FleetOp, b: FleetOp)
    requires Sized(w, a) && Sized(w, b) && BindRequestBytes(a) == BindRequestBytes(b)
    ensures a.handleProof == b.handleProof && a.device == b.device && a.consentT == b.consentT
    ensures a.plate == b.plate && a.plateKind == b.plateKind
  {
    var sa := Request(a) + ([a.plateKind % 256] + PlateField(a));
    var sb := Request(b) + ([b.plateKind % 256] + PlateField(b));
    var plainA, plainB := a.plate.None? && a.plateKind == UNSTATED, b.plate.None? && b.plateKind == UNSTATED;
    var ra, rb := if plainA then Request(a) else sa, if plainB then Request(b) else sb;
    var va: byte, vb: byte := if plainA then 49 else 50, if plainB then 49 else 50;
    Split(BIND_DOMAIN, [va] + ra, BIND_DOMAIN, [vb] + rb);
    SplitByte(va, ra, vb, rb);
    if plainA {
      RequestDetermines(w, a, b);
    } else {
      Split(Request(a), [a.plateKind % 256] + PlateField(a), Request(b), [b.plateKind % 256] + PlateField(b));
      RequestDetermines(w, a, b);
      SplitByte(a.plateKind % 256, PlateField(a), b.plateKind % 256, PlateField(b));
      PlateFieldDetermines(w, a, b);
    }
  }

  // A consent to join can never be read as a consent to leave.
  lemma JoinIsNeverLeave(a: FleetOp, b: FleetOp)
    ensures BindRequestBytes(a) != DepartRequestBytes(b)
  {
    assert BindRequestBytes(a)[7] == 66;
    assert DepartRequestBytes(b)[7] == 68;
  }
}
