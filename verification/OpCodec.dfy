/**
 The positional wire form of an op: a run of typed values whose optional groups are told apart only
 by the type found at a position.
 */
module OpCodec {
  import opened Wrappers
  import opened Bytes
  import opened Schemes
  import opened FleetOps
  import opened Fold
  import opened Membership
  import KeyBundles
  import Preimage
  import Rulebook

  // The value types an op is written in; `Other` is any the op codec never writes.
  datatype Value =
    | HP(bytes: seq<byte>)
    | HB(bytes: seq<byte>)
    | KE(bytes: seq<byte>)
    | GE(bytes: seq<byte>)
    | U(n: nat)
    | E6(t: int)
    | Other

  // The egg-list codec of the layer below.
  datatype Eggs = Eggs(encode: seq<Egg> -> seq<byte>, decode: seq<byte> -> Option<seq<Egg>>)

  ghost predicate Inverse(c: Eggs) {
    forall x :: x != [] ==> c.decode(c.encode(x)) == Some(x)
  }

  function VersionNumber(v: OpVersion): nat {
    match v
    case V1 => 1
    case V2 => 2
    case V3 => 3
    case V4 => 4
  }

  function VersionOf(n: nat): Option<OpVersion> {
    if n == 1 then Some(V1) else if n == 2 then Some(V2)
    else if n == 3 then Some(V3) else if n == 4 then Some(V4) else None
  }

  function KindNumber(k: OpKind): nat {
    Preimage.KindByte(k)
  }

  function KindOf(n: nat): Option<OpKind> {
    if n == 0 then Some(Genesis) else if n == 1 then Some(Add) else if n == 2 then Some(Remove)
    else if n == 3 then Some(Checkpoint) else if n == 4 then Some(Declare) else if n == 5 then Some(Lock)
    else if n == 6 then Some(Unlock) else None
  }

  function ConsentToWire(c: Eggs, op: FleetOp): seq<byte> {
    if Framed(op.version) then c.encode(op.consent)
    else if op.consent == [] then [] else op.consent[0].sig
  }

  function ConsentFromWire(c: Eggs, v: OpVersion, b: seq<byte>): Option<seq<Egg>> {
    if Framed(v) then c.decode(b) else Some([Egg(ED25519, b)])
  }

  // ---- encode ----

  function VersionGroup(op: FleetOp): seq<Value> {
    if op.version != V1 then [U(VersionNumber(op.version))] else []
  }

  function FixedGroup(op: FleetOp): (s: seq<Value>)
    ensures |s| == 6
  {
    [HP(Be(op.handleProof, 32)), HB(Be(op.prevHash, 32)), U(KindNumber(op.kind)),
     KE(Be(op.device, 32)), E6(op.time), KE(Be(op.signer, 32))]
  }

  // The group only this kind carries.
  function KindGroup(c: Eggs, op: FleetOp): seq<Value> {
    match op.kind
    case Genesis => [KE(Be(op.identity, 32))] + if op.identitySig != [] then [GE(op.identitySig)] else []
    case Add => [E6(op.consentT), GE(ConsentToWire(c, op))]
    case Remove => if op.consent != [] then [E6(op.consentT), GE(ConsentToWire(c, op))] else []
    case Checkpoint => [U(op.ckptK), HB(Be(op.ckptCommit, 32)), U(op.ckptEpoch)]
    case _ => []
  }

  function BundleGroup(op: FleetOp): seq<Value> {
    if (op.kind == Add || op.kind == Declare) && op.bundle.Some? then [GE(KeyBundles.ToBytes(op.bundle.value))] else []
  }

  function PlateKindGroup(op: FleetOp): seq<Value> {
    if PlateKindOp(op.kind) && op.version == V4 then [U(op.plateKind)] else []
  }

  function PlateGroup(op: FleetOp): seq<Value> {
    if PlateKindOp(op.kind) && op.plate.Some? then [HB(Be(op.plate.value, 32))] else []
  }

  function EggTail(eggs: seq<Egg>): (s: seq<Value>)
    ensures s != [] ==> s[0].U?
  {
    if eggs == [] then [] else [U(eggs[0].scheme), GE(eggs[0].sig)] + EggTail(eggs[1..])
  }

  function PlateTail(op: FleetOp): seq<Value> {
    PlateGroup(op) + EggTail(op.sigs)
  }

  function PlateKindTail(op: FleetOp): seq<Value> {
    PlateKindGroup(op) + PlateTail(op)
  }

  function BundleTail(op: FleetOp): seq<Value> {
    BundleGroup(op) + PlateKindTail(op)
  }

  function FieldValues(c: Eggs, op: FleetOp): seq<Value> {
    VersionGroup(op) + (FixedGroup(op) + (KindGroup(c, op) + BundleTail(op)))
  }

  // ---- decode ----

  function Take32(b: seq<byte>): Option<Key32> {
    if |b| == 32 then Some(BeValue(b)) else None
  }

  function TakeHP(v: Value): Option<Key32> {
    if v.HP? then Take32(v.bytes) else None
  }

  function TakeHB(v: Value): Option<Key32> {
    if v.HB? then Take32(v.bytes) else None
  }

  function TakeKE(v: Value): Option<Key32> {
    if v.KE? then Take32(v.bytes) else None
  }

  // The cast truncates to eight bits.
  function AsByte(n: nat): byte {
    n % 256
  }

  datatype KindFields = KindFields(
    identity: Key32, identitySig: seq<byte>, consentT: int, consent: seq<Egg>, ckptK: nat, ckptCommit: Key32,
    ckptEpoch: nat, used: nat)

  const NO_FIELDS: KindFields := KindFields(0, [], 0, [], 0, 0, 0, 0)

  function ParseGenesis(t: seq<Value>): Option<KindFields> {
    if t == [] || TakeKE(t[0]).None? then None
    else if |t| > 1 && t[1].GE? then
      Some(NO_FIELDS.(identity := TakeKE(t[0]).value, identitySig := t[1].bytes, used := 2))
    else Some(NO_FIELDS.(identity := TakeKE(t[0]).value, used := 1))
  }

  function ParseConsent(c: Eggs, v: OpVersion, t: seq<Value>): Option<KindFields> {
    if |t| < 2 || !t[0].E6? || !t[1].GE? || ConsentFromWire(c, v, t[1].bytes).None? then None
    else Some(NO_FIELDS.(consentT := t[0].t, consent := ConsentFromWire(c, v, t[1].bytes).value, used := 2))
  }

  function ParseCheckpoint(t: seq<Value>): Option<KindFields> {
    if |t| < 3 || !t[0].U? || TakeHB(t[1]).None? || !t[2].U? then None
    else Some(NO_FIELDS.(ckptK := t[0].n, ckptCommit := TakeHB(t[1]).value, ckptEpoch := t[2].n, used := 3))
  }

  function ParseKindGroup(c: Eggs, v: OpVersion, k: OpKind, t: seq<Value>): Option<KindFields> {
    match k
    case Genesis => ParseGenesis(t)
    case Add => ParseConsent(c, v, t)
    case Remove => if t != [] && t[0].E6? then ParseConsent(c, v, t) else Some(NO_FIELDS)
    case Checkpoint => ParseCheckpoint(t)
    case _ => Some(NO_FIELDS)
  }

  function ParseBundle(k: OpKind, t: seq<Value>): Option<(Option<KeyBundle>, seq<Value>)> {
    if (k == Add || k == Declare) && t != [] && t[0].GE? then
      match KeyBundles.FromBytes(t[0].bytes)
      case Ok(b) => Some((Some(b), t[1..]))
      case Err(_) => None
    else Some((None, t))
  }

  function ParsePlateKind(v: OpVersion, k: OpKind, t: seq<Value>): Option<(nat, seq<Value>)> {
    if v == V4 && PlateKindOp(k) then
      if t == [] || !t[0].U? then None else Some((AsByte(t[0].n) as nat, t[1..]))
    else Some((UNSTATED, t))
  }

  function ParsePlate(v: OpVersion, k: OpKind, t: seq<Value>): Option<(Option<Key32>, seq<Value>)> {
    if PlateKindOp(k) && t != [] && t[0].HB? then
      if !Plated(v) || TakeHB(t[0]).None? then None else Some((TakeHB(t[0]), t[1..]))
    else Some((None, t))
  }

  // (scheme, signature) pairs to the end; an odd last value is dropped.
  function ParseEggs(t: seq<Value>): Option<seq<Egg>> {
    if |t| < 2 then Some([])
    else if !t[0].U? || !t[1].GE? then None
    else
      match ParseEggs(t[2..])
      case None => None
      case Some(rest) => Some([Egg(AsByte(t[0].n), t[1].bytes)] + rest)
  }

  // Any values: they parse exactly when each pair is a number and a signature, and egg k is pair k, its
  // scheme cut to eight bits; an odd value at the end is not looked at.
  lemma {:induction false} EggsParseIff(t: seq<Value>)
    ensures ParseEggs(t).Some? <==> forall k :: 0 <= k < |t| / 2 ==> t[2 * k].U? && t[2 * k + 1].GE?
    ensures ParseEggs(t).Some? ==>
              && |ParseEggs(t).value| == |t| / 2
              && forall k :: 0 <= k < |t| / 2 ==>
                   t[2 * k].U? && t[2 * k + 1].GE?
                   && ParseEggs(t).value[k] == Egg(t[2 * k].n % 256, t[2 * k + 1].bytes)
  {
    if |t| >= 2 {
      var rest := t[2..];
      EggsParseIff(rest);
      PairsShift(t);
    }
  }

  lemma PairsShift(t: seq<Value>)
    requires |t| >= 2
    ensures |t[2..]| / 2 == |t| / 2 - 1
    ensures forall k :: 0 <= k < |t| / 2 - 1 ==> t[2..][2 * k] == t[2 * k + 2] && t[2..][2 * k + 1] == t[2 * k + 3]
    ensures (forall k :: 0 <= k < |t| / 2 ==> t[2 * k].U? && t[2 * k + 1].GE?)
            <==> t[0].U? && t[1].GE? && forall k :: 0 <= k < |t| / 2 - 1 ==> t[2 * k + 2].U? && t[2 * k + 3].GE?
  {
    if forall k :: 0 <= k < |t| / 2 ==> t[2 * k].U? && t[2 * k + 1].GE? {
      assert t[2 * 0].U?;
      forall k | 0 <= k < |t| / 2 - 1 ensures t[2 * k + 2].U? && t[2 * k + 3].GE? {
        assert t[2 * (k + 1)].U?;
      }
    }
    if t[0].U? && t[1].GE? && forall k :: 0 <= k < |t| / 2 - 1 ==> t[2 * k + 2].U? && t[2 * k + 3].GE? {
      forall k | 0 <= k < |t| / 2 ensures t[2 * k].U? && t[2 * k + 1].GE? {
        assert k > 0 ==> t[2 * (k - 1) + 2].U?;
      }
    }
  }

  // The pair loop as the source runs it.
  method ReadEggs(t: seq<Value>) returns (r: Option<seq<Egg>>)
    ensures r == ParseEggs(t)
  {
    var sigs: seq<Egg>, i := [], 0;
    assert t[0..] == t && forall s: seq<Egg> :: [] + s == s;
    while i + 1 < |t|
      invariant i <= |t|
      invariant ParseEggs(t) == match ParseEggs(t[i..]) case None => None case Some(rest) => Some(sigs + rest)
    {
      assert t[i..][2..] == t[i + 2..];
      if !t[i].U? || !t[i + 1].GE? {
        return None;
      }
      ghost var more := ParseEggs(t[i + 2..]);
      var egg := Egg(AsByte(t[i].n), t[i + 1].bytes);
      assert more.Some? ==> sigs + ([egg] + more.value) == sigs + [egg] + more.value;
      sigs, i := sigs + [egg], i + 2;
    }
    assert sigs + [] == sigs;
    return Some(sigs);
  }

  function ParseBody(c: Eggs, v: OpVersion, values: seq<Value>): Option<FleetOp> {
    if |values| < 6 then None
    else
      var hp, prev, device, signer := TakeHP(values[0]), TakeHB(values[1]), TakeKE(values[3]), TakeKE(values[5]);
      if hp.None? || prev.None? || !values[2].U? || KindOf(AsByte(values[2].n)).None? || device.None?
        || !values[4].E6? || signer.None? then
        None
      else
        var kind := KindOf(AsByte(values[2].n)).value;
        var fields := ParseKindGroup(c, v, kind, values[6..]);
        if fields.None? || fields.value.used > |values| - 6 then None
        else ParseTail(v, kind, hp.value, prev.value, device.value, values[4].t, signer.value, fields.value,
                       values[6..][fields.value.used..])
  }

  function ParseTail(
    v: OpVersion, kind: OpKind, hp: Key32, prev: Key32, device: Key32, time: int, signer: Key32, f: KindFields,
    t: seq<Value>): Option<FleetOp> {
    var bundle := ParseBundle(kind, t);
    if bundle.None? then None
    else
      var plateKind := ParsePlateKind(v, kind, bundle.value.1);
      if plateKind.None? then None
      else
        var plate := ParsePlate(v, kind, plateKind.value.1);
        if plate.None? then None
        else
          match ParseEggs(plate.value.1)
          case None => None
          case Some(sigs) =>
            Some(FleetOp(v, hp, prev, kind, device, time, signer, f.identity, f.identitySig, f.consentT, f.consent,
                         f.ckptK, f.ckptCommit, f.ckptEpoch, sigs, bundle.value.0, plate.value.0, plateKind.value.0))
  }

  // An `hP` first means an op written before versions existed; anything else is the version.
  function ParseOp(c: Eggs, all: seq<Value>): Option<FleetOp> {
    if all == [] then None
    else if all[0].HP? then ParseBody(c, V1, all)
    else if all[0].U? && all[0].n < 256 && VersionOf(all[0].n).Some? then
      ParseBody(c, VersionOf(all[0].n).value, all[1..])
    else None
  }

  // Whatever values parse: the op's version is the number in front, 1 when there is none, and its six fixed
  // fields are the six values there, keys of 32 bytes and the kind cut to eight bits.
  lemma ParsedFixed(c: Eggs, all: seq<Value>)
    requires ParseOp(c, all).Some?
    ensures var op, at := ParseOp(c, all).value, if all[0].HP? then 0 else 1;
            && |all| >= at + 6
            && (if at == 0 then op.version == V1 else all[0].U? && VersionNumber(op.version) == all[0].n)
            && all[at].HP? && |all[at].bytes| == 32 && BeValue(all[at].bytes) == op.handleProof
            && all[at + 1].HB? && |all[at + 1].bytes| == 32 && BeValue(all[at + 1].bytes) == op.prevHash
            && all[at + 2].U? && KindNumber(op.kind) == all[at + 2].n % 256
            && all[at + 3].KE? && |all[at + 3].bytes| == 32 && BeValue(all[at + 3].bytes) == op.device
            && all[at + 4] == E6(op.time)
            && all[at + 5].KE? && |all[at + 5].bytes| == 32 && BeValue(all[at + 5].bytes) == op.signer
  {
  }

  // ---- the round trip ----

  // Every field has its width, what is carried was parsed, and the fold's structural checks pass.
  ghost predicate Writable(op: FleetOp) {
    Typed(op) && Structural(op, 0).None?
  }

  ghost predicate Typed(op: FleetOp) {
    && op.handleProof < Pow(256, 32) && op.prevHash < Pow(256, 32) && op.device < Pow(256, 32)
    && op.signer < Pow(256, 32) && op.identity < Pow(256, 32) && op.ckptCommit < Pow(256, 32)
    && (op.plate.Some? ==> op.plate.value < Pow(256, 32)) && op.plateKind < 256
    && (op.bundle.Some? ==> ValidBundle(op.bundle.value))
  }

  // The consent field has room for what the op carries: v1 writes one signature and reads it as
  // Ed25519; later versions write an egg list, an empty one only as their list codec has it.
  ghost predicate ConsentFits(c: Eggs, op: FleetOp) {
    op.kind == Add || op.consent != [] ==>
      if Framed(op.version) then op.consent == [] ==> c.decode(c.encode([])) == Some([])
      else |op.consent| == 1 && op.consent[0].scheme == ED25519
  }

  lemma {:induction false} EggsRoundTrip(eggs: seq<Egg>)
    ensures ParseEggs(EggTail(eggs)) == Some(eggs)
  {
    if eggs != [] {
      var t := EggTail(eggs);
      assert t[2..] == EggTail(eggs[1..]);
      EggsRoundTrip(eggs[1..]);
      assert [eggs[0]] + eggs[1..] == eggs;
    }
  }

  lemma PlateRoundTrip(op: FleetOp)
    requires Writable(op)
    ensures ParsePlate(op.version, op.kind, PlateTail(op)) == Some((op.plate, EggTail(op.sigs)))
  {
    if PlateKindOp(op.kind) && op.plate.Some? {
      BeRoundTrip(op.plate.value, 32);
      assert PlateTail(op)[1..] == EggTail(op.sigs);
    } else {
      assert PlateTail(op) == EggTail(op.sigs);
    }
  }

  lemma PlateKindRoundTrip(op: FleetOp)
    requires Writable(op)
    ensures ParsePlateKind(op.version, op.kind, PlateKindTail(op)) == Some((op.plateKind, PlateTail(op)))
  {
    if op.version == V4 && PlateKindOp(op.kind) {
      assert PlateKindTail(op)[1..] == PlateTail(op);
    } else {
      assert PlateKindTail(op) == PlateTail(op);
    }
  }

  // Neither the plate kind, nor the plate, nor an egg is ever a `ge`.
  lemma NotAGe(op: FleetOp)
    ensures PlateKindTail(op) != [] ==> PlateKindTail(op)[0].U? || PlateKindTail(op)[0].HB?
  {
  }

  lemma BundleRoundTrip(op: FleetOp)
    requires Writable(op)
    ensures ParseBundle(op.kind, BundleTail(op)) == Some((op.bundle, PlateKindTail(op)))
  {
    NotAGe(op);
    if op.bundle.Some? {
      KeyBundles.RoundTrip(op.bundle.value);
      BundleFirst(op);
    } else {
      assert BundleTail(op) == PlateKindTail(op);
    }
  }

  lemma BundleFirst(op: FleetOp)
    requires Structural(op, 0).None? && op.bundle.Some?
    ensures (op.kind == Add || op.kind == Declare) && BundleTail(op) != []
    ensures BundleTail(op)[0] == GE(KeyBundles.ToBytes(op.bundle.value)) && BundleTail(op)[1..] == PlateKindTail(op)
  {
  }

  function FieldsOf(c: Eggs, op: FleetOp): KindFields {
    KindFields(op.identity, op.identitySig, op.consentT, op.consent, op.ckptK, op.ckptCommit, op.ckptEpoch,
      |KindGroup(c, op)|)
  }

  lemma ConsentRoundTrip(c: Eggs, op: FleetOp)
    requires Inverse(c) && (op.kind == Add || op.consent != [])
    ensures ConsentFromWire(c, op.version, ConsentToWire(c, op)) == Some(op.consent) <==> ConsentFits(c, op)
  {
    if !Framed(op.version) && |op.consent| == 1 {
      assert op.consent == [op.consent[0]];
    }
  }

  lemma Reads32(n: Key32)
    requires n < Pow(256, 32)
    ensures Take32(Be(n, 32)) == Some(n)
  {
    BeRoundTrip(n, 32);
  }

  lemma GenesisGroup(c: Eggs, op: FleetOp)
    requires op.kind == Genesis
    ensures KindGroup(c, op) == [KE(Be(op.identity, 32))] + (if op.identitySig != [] then [GE(op.identitySig)] else [])
    ensures BundleTail(op) == PlateKindTail(op)
  {
  }

  lemma GenesisRoundTrip(c: Eggs, op: FleetOp)
    requires Writable(op) && op.kind == Genesis
    ensures ParseGenesis(KindGroup(c, op) + BundleTail(op)) == Some(FieldsOf(c, op))
  {
    NotAGe(op);
    GenesisGroup(c, op);
    GenesisReads(op.identity, op.identitySig, PlateKindTail(op));
    GenesisFields(c, op);
  }

  lemma GenesisFields(c: Eggs, op: FleetOp)
    requires Structural(op, 0).None? && op.kind == Genesis
    ensures FieldsOf(c, op) ==
            NO_FIELDS.(identity := op.identity, identitySig := op.identitySig,
                       used := if op.identitySig != [] then 2 else 1)
  {
  }

  lemma GenesisReads(id: Key32, sig: seq<byte>, tail: seq<Value>)
    requires id < Pow(256, 32) && (tail != [] ==> !tail[0].GE?)
    ensures ParseGenesis([KE(Be(id, 32))] + (if sig != [] then [GE(sig)] else []) + tail) ==
            Some(NO_FIELDS.(identity := id, identitySig := sig, used := if sig != [] then 2 else 1))
  {
    Reads32(id);
    var t := [KE(Be(id, 32))] + (if sig != [] then [GE(sig)] else []) + tail;
    assert t[0] == KE(Be(id, 32));
    if sig == [] {
      assert |t| > 1 ==> t[1] == tail[0];
    } else {
      assert t[1] == GE(sig);
    }
  }

  lemma ConsentGroupRoundTrip(c: Eggs, op: FleetOp)
    requires Inverse(c) && Writable(op) && ConsentFits(c, op)
    requires op.kind == Add || (op.kind == Remove && op.consent != [])
    ensures ParseConsent(c, op.version, KindGroup(c, op) + BundleTail(op)) == Some(FieldsOf(c, op))
    ensures (KindGroup(c, op) + BundleTail(op))[0].E6?
  {
    ConsentRoundTrip(c, op);
    var t := KindGroup(c, op) + BundleTail(op);
    assert t[0] == E6(op.consentT) && t[1] == GE(ConsentToWire(c, op));
  }

  lemma CheckpointReads(k: nat, commit: Key32, epoch: nat, tail: seq<Value>)
    requires commit < Pow(256, 32)
    ensures ParseCheckpoint([U(k), HB(Be(commit, 32)), U(epoch)] + tail) ==
            Some(NO_FIELDS.(ckptK := k, ckptCommit := commit, ckptEpoch := epoch, used := 3))
  {
    Reads32(commit);
    var t := [U(k), HB(Be(commit, 32)), U(epoch)] + tail;
    assert t[0] == U(k) && t[1] == HB(Be(commit, 32)) && t[2] == U(epoch);
  }

  lemma CheckpointFields(c: Eggs, op: FleetOp)
    requires Structural(op, 0).None? && op.kind == Checkpoint
    ensures FieldsOf(c, op) ==
            NO_FIELDS.(ckptK := op.ckptK, ckptCommit := op.ckptCommit, ckptEpoch := op.ckptEpoch, used := 3)
  {
  }

  lemma CheckpointRoundTrip(c: Eggs, op: FleetOp)
    requires Writable(op) && op.kind == Checkpoint
    ensures ParseCheckpoint(KindGroup(c, op) + BundleTail(op)) == Some(FieldsOf(c, op))
  {
    CheckpointReads(op.ckptK, op.ckptCommit, op.ckptEpoch, BundleTail(op));
    CheckpointFields(c, op);
  }

  lemma PlainRoundTrip(c: Eggs, op: FleetOp)
    requires Writable(op)
             && (op.kind == Declare || op.kind == Lock || op.kind == Unlock || (op.kind == Remove && op.consent == []))
    ensures ParseKindGroup(c, op.version, op.kind, KindGroup(c, op) + BundleTail(op)) == Some(FieldsOf(c, op))
  {
    assert op.kind == Remove ==> KindGroup(c, op) + BundleTail(op) == EggTail(op.sigs);
  }

  lemma KindRoundTrip(c: Eggs, op: FleetOp)
    requires Inverse(c) && Writable(op) && ConsentFits(c, op)
    ensures ParseKindGroup(c, op.version, op.kind, KindGroup(c, op) + BundleTail(op)) == Some(FieldsOf(c, op))
  {
    match op.kind
    case Genesis => GenesisRoundTrip(c, op);
    case Add => ConsentGroupRoundTrip(c, op);
    case Remove => if op.consent != [] { ConsentGroupRoundTrip(c, op); } else { PlainRoundTrip(c, op); }
    case Checkpoint => CheckpointRoundTrip(c, op);
    case _ => PlainRoundTrip(c, op);
  }

  lemma TailRoundTrip(c: Eggs, op: FleetOp)
    requires Inverse(c) && Writable(op)
    ensures ParseTail(op.version, op.kind, op.handleProof, op.prevHash, op.device, op.time, op.signer,
                      FieldsOf(c, op), BundleTail(op)) == Some(op)
  {
    BundleRoundTrip(op);
    PlateKindRoundTrip(op);
    PlateRoundTrip(op);
    EggsRoundTrip(op.sigs);
  }

  lemma FixedReads(op: FleetOp, f: seq<Value>)
    requires op.handleProof < Pow(256, 32) && op.prevHash < Pow(256, 32)
    requires op.device < Pow(256, 32) && op.signer < Pow(256, 32) && f == FixedGroup(op)
    ensures TakeHP(f[0]) == Some(op.handleProof) && TakeHB(f[1]) == Some(op.prevHash)
    ensures f[2] == U(KindNumber(op.kind)) && TakeKE(f[3]) == Some(op.device)
    ensures f[4] == E6(op.time) && TakeKE(f[5]) == Some(op.signer)
  {
    Reads32(op.handleProof);
    Reads32(op.prevHash);
    Reads32(op.device);
    Reads32(op.signer);
  }

  lemma KindReads(k: OpKind)
    ensures KindOf(AsByte(KindNumber(k))) == Some(k)
  {
  }

  lemma FixedFirst(f: seq<Value>, rest: seq<Value>)
    requires |f| == 6
    ensures (f + rest)[6..] == rest && forall i :: 0 <= i < 6 ==> (f + rest)[i] == f[i]
  {
  }

  // The body is read field by field.
  lemma BodyIs(c: Eggs, op: FleetOp, values: seq<Value>, f: KindFields, t: seq<Value>)
    requires |values| >= 6 && TakeHP(values[0]) == Some(op.handleProof) && TakeHB(values[1]) == Some(op.prevHash)
    requires values[2] == U(KindNumber(op.kind)) && KindOf(AsByte(KindNumber(op.kind))) == Some(op.kind)
    requires TakeKE(values[3]) == Some(op.device) && values[4] == E6(op.time) && TakeKE(values[5]) == Some(op.signer)
    requires ParseKindGroup(c, op.version, op.kind, values[6..]) == Some(f)
    requires f.used <= |values| - 6 && values[6..][f.used..] == t
    ensures ParseBody(c, op.version, values) ==
            ParseTail(op.version, op.kind, op.handleProof, op.prevHash, op.device, op.time, op.signer, f, t)
  {
  }

  lemma BodyRoundTrip(c: Eggs, op: FleetOp)
    requires Inverse(c) && Writable(op) && ConsentFits(c, op)
    ensures ParseBody(c, op.version, FixedGroup(op) + (KindGroup(c, op) + BundleTail(op))) == Some(op)
  {
    var rest := KindGroup(c, op) + BundleTail(op);
    FixedReads(op, FixedGroup(op));
    FixedFirst(FixedGroup(op), rest);
    KindReads(op.kind);
    KindRoundTrip(c, op);
    assert rest[|KindGroup(c, op)|..] == BundleTail(op);
    BodyIs(c, op, FixedGroup(op) + rest, FieldsOf(c, op), BundleTail(op));
    TailRoundTrip(c, op);
  }

  // A parsed body's consent is what its consent group reads as.
  lemma ParsedConsent(c: Eggs, v: OpVersion, values: seq<Value>)
    requires ParseBody(c, v, values).Some?
    ensures |values| >= 6 && values[2].U? && KindOf(AsByte(values[2].n)).Some?
    ensures var fields := ParseKindGroup(c, v, KindOf(AsByte(values[2].n)).value, values[6..]);
            fields.Some? && fields.value.consent == ParseBody(c, v, values).value.consent
  {
  }

  // A consent that does not fit comes back as another, or not at all.
  lemma MisfitIsLost(c: Eggs, op: FleetOp)
    requires Inverse(c) && Writable(op) && !ConsentFits(c, op)
    ensures ParseBody(c, op.version, FixedGroup(op) + (KindGroup(c, op) + BundleTail(op))) != Some(op)
  {
    var rest := KindGroup(c, op) + BundleTail(op);
    FixedFirst(FixedGroup(op), rest);
    KindReads(op.kind);
    ConsentRoundTrip(c, op);
    assert op.kind == Add || op.kind == Remove;
    assert rest[0] == E6(op.consentT) && rest[1] == GE(ConsentToWire(c, op));
    if ParseBody(c, op.version, FixedGroup(op) + rest).Some? {
      ParsedConsent(c, op.version, FixedGroup(op) + rest);
    }
  }

  lemma VersionReads(c: Eggs, op: FleetOp)
    ensures ParseOp(c, FieldValues(c, op)) ==
            ParseBody(c, op.version, FixedGroup(op) + (KindGroup(c, op) + BundleTail(op)))
  {
    var all, body := FieldValues(c, op), FixedGroup(op) + (KindGroup(c, op) + BundleTail(op));
    if op.version == V1 {
      assert all == body;
    } else {
      assert all[1..] == body;
    }
  }

  // Parsing undoes encoding, for every version, kind and combination of optional groups, exactly when
  // the consent fits its field.
  lemma RoundTrip(c: Eggs, op: FleetOp)
    requires Inverse(c) && Writable(op)
    ensures ParseOp(c, FieldValues(c, op)) == Some(op) <==> ConsentFits(c, op)
  {
    VersionReads(c, op);
    if ConsentFits(c, op) {
      BodyRoundTrip(c, op);
    } else {
      MisfitIsLost(c, op);
    }
  }

  // ---- whole chains ----

  function EncodeChain(c: Eggs, ops: seq<FleetOp>): seq<seq<Value>> {
    if ops == [] then [] else [FieldValues(c, ops[0])] + EncodeChain(c, ops[1..])
  }

  function ParseChain(c: Eggs, fields: seq<seq<Value>>): Option<seq<FleetOp>> {
    if fields == [] then Some([])
    else
      match ParseOp(c, fields[0])
      case None => None
      case Some(op) =>
        match ParseChain(c, fields[1..])
        case None => None
        case Some(rest) => Some([op] + rest)
  }

  lemma {:induction false} ChainRoundTrip(c: Eggs, ops: seq<FleetOp>)
    requires Inverse(c) && forall i :: 0 <= i < |ops| ==> Writable(ops[i])
    ensures ParseChain(c, EncodeChain(c, ops)) == Some(ops) <==> forall i :: 0 <= i < |ops| ==> ConsentFits(c, ops[i])
  {
    if ops != [] {
      RoundTrip(c, ops[0]);
      ChainRoundTrip(c, ops[1..]);
      assert EncodeChain(c, ops)[1..] == EncodeChain(c, ops[1..]);
      assert [ops[0]] + ops[1..] == ops;
      FitsHeadAndRest(c, ops);
      ParsedHeadAndRest(c, ops);
    }
  }

  lemma FitsHeadAndRest(c: Eggs, ops: seq<FleetOp>)
    requires ops != []
    ensures (forall i :: 0 <= i < |ops| ==> ConsentFits(c, ops[i]))
            <==> ConsentFits(c, ops[0]) && forall i :: 0 <= i < |ops[1..]| ==> ConsentFits(c, ops[1..][i])
  {
    if ConsentFits(c, ops[0]) && forall i :: 0 <= i < |ops[1..]| ==> ConsentFits(c, ops[1..][i]) {
      forall i | 0 <= i < |ops| ensures ConsentFits(c, ops[i]) {
        assert i > 0 ==> ops[i] == ops[1..][i - 1];
      }
    }
  }

  lemma ParsedHeadAndRest(c: Eggs, ops: seq<FleetOp>)
    requires ops != []
    ensures ParseChain(c, EncodeChain(c, ops)) == Some(ops)
            <==> && ParseOp(c, FieldValues(c, ops[0])) == Some(ops[0])
                 && ParseChain(c, EncodeChain(c, ops[1..])) == Some(ops[1..])
  {
    var fields := EncodeChain(c, ops);
    assert fields[0] == FieldValues(c, ops[0]) && fields[1..] == EncodeChain(c, ops[1..]);
    assert ops == [ops[0]] + ops[1..];
    var first, rest := ParseOp(c, fields[0]), ParseChain(c, fields[1..]);
    if first.Some? && rest.Some? {
      assert ([first.value] + rest.value)[0] == first.value && ([first.value] + rest.value)[1..] == rest.value;
    }
  }

  // ---- folding chains ----

  predicate SingleV1Consent(op: FleetOp) {
    !Framed(op.version) && op.consent != [] ==> |op.consent| == 1 && op.consent[0].scheme == ED25519
  }

  // The fold accepts no Add without a consent, so in a folding chain only a v1 consent can misfit.
  lemma FoldedConsentFits(c: Eggs, o: Oracle, ops: seq<FleetOp>, i: nat)
    requires Folds(o, ops) && i < |ops|
    ensures Structural(ops[i], 0).None?
    ensures ConsentFits(c, ops[i]) <==> SingleV1Consent(ops[i])
  {
    Accepted(o, ops, i);
    Rulebook.NobodyMovesAnother(o, ops, i);
    AcceptedShape(o, StateAt(o, ops, i), ops[i]);
  }

  lemma AcceptedShape(o: Oracle, s: State, op: FleetOp)
    requires Refusal(o, s, op).None?
    ensures Structural(op, 0).None?
  {
  }

  // For every folding chain of typed ops: the codec gives the chain back exactly when each v1 consent
  // is a single Ed25519 egg, and then a verifier that folds what it parsed folds what was signed.
  lemma FoldCommutesWithCodec(c: Eggs, o: Oracle, ops: seq<FleetOp>)
    requires Inverse(c) && Folds(o, ops) && forall i :: 0 <= i < |ops| ==> Typed(ops[i])
    ensures ParseChain(c, EncodeChain(c, ops)) == Some(ops) <==> forall i :: 0 <= i < |ops| ==> SingleV1Consent(ops[i])
    ensures (forall i :: 0 <= i < |ops| ==> SingleV1Consent(ops[i])) ==>
              var parsed := ParseChain(c, EncodeChain(c, ops));
              parsed.Some? && FoldChain(o, parsed.value) == FoldChain(o, ops)
  {
    forall i | 0 <= i < |ops| ensures Writable(ops[i]) && (ConsentFits(c, ops[i]) <==> SingleV1Consent(ops[i])) {
      FoldedConsentFits(c, o, ops, i);
    }
    ChainRoundTrip(c, ops);
  }

  lemma SecondIsLost(c: Eggs, o: Oracle, first: FleetOp, second: FleetOp)
    requires Inverse(c) && Folds(o, [first, second]) && Typed(first) && Typed(second) && !SingleV1Consent(second)
    ensures ParseChain(c, EncodeChain(c, [first, second])) != Some([first, second])
  {
    LostAt(c, o, [first, second], 1);
  }

  lemma LostAt(c: Eggs, o: Oracle, ops: seq<FleetOp>, at: nat)
    requires Inverse(c) && Folds(o, ops) && at < |ops| && !SingleV1Consent(ops[at])
    requires forall i :: 0 <= i < |ops| ==> Typed(ops[i])
    ensures ParseChain(c, EncodeChain(c, ops)) != Some(ops)
  {
    FoldCommutesWithCodec(c, o, ops);
  }
}
