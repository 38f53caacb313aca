/**
 The v1 chain-hash preimage: nothing is framed, so it tells ops apart only while every signature has
 the one length Ed25519 gives it.
 */
module V1Preimage {
  import opened Wrappers
  import opened Collections
  import opened Bytes
  import opened Schemes
  import opened FleetOps
  import opened Preimage

  const SIG: nat := 64

  // An op as v1 wrote them: no bundle, at most one consent egg, Ed25519 signatures only.
  ghost predicate Ed25519Sized(w: EggCodec, op: FleetOp) {
    && op.version == V1 && Sized(w, op) && Structural(op, 0).None? && op.bundle.None?
    && (op.consent != [] ==> |op.consent| == 1 && op.consent[0].scheme == ED25519 && |op.consent[0].sig| == SIG)
    && (forall i :: 0 <= i < |op.sigs| ==> |op.sigs[i].sig| == SIG)
    && (|op.identitySig| == 0 || |op.identitySig| == SIG)
  }

  lemma V1Parts(w: EggCodec, op: FleetOp)
    requires op.version == V1
    ensures ChainBytes(w, op) ==
            Head(op) + (ConsentPart(w, op) + (CheckpointPart(op) + (BareEggs(op.sigs) + op.identitySig)))
  {
    var h, c, k, e := Head(op), ConsentPart(w, op), CheckpointPart(op), BareEggs(op.sigs) + op.identitySig;
    var nothing: seq<byte> := [];
    assert nothing + nothing == nothing && k + nothing == k;
    Regroup(h, c + k, e);
    Regroup(c, k, e);
  }

  lemma {:induction false} BareSize(eggs: seq<Egg>)
    requires forall i :: 0 <= i < |eggs| ==> |eggs[i].sig| == SIG
    ensures |BareEggs(eggs)| == 65 * |eggs|
  {
    if eggs != [] {
      BareSize(eggs[1..]);
    }
  }

  lemma {:induction false} SplitBareEggs(a: seq<Egg>, x: seq<byte>, b: seq<Egg>, y: seq<byte>)
    requires |a| == |b| && BareEggs(a) + x == BareEggs(b) + y
    requires forall i :: 0 <= i < |a| ==> |a[i].sig| == SIG && |b[i].sig| == SIG
    ensures a == b && x == y
  {
    if a == [] {
      assert BareEggs(a) + x == x && BareEggs(b) + y == y;
    } else {
      SplitBareEgg(a[0], BareEggs(a[1..]), x, b[0], BareEggs(b[1..]), y);
      SplitBareEggs(a[1..], x, b[1..], y);
      assert a == [a[0]] + a[1..] && b == [b[0]] + b[1..];
    }
  }

  lemma SplitBareEgg(e: Egg, m: seq<byte>, x: seq<byte>, f: Egg, n: seq<byte>, y: seq<byte>)
    requires |e.sig| == |f.sig| && ([e.scheme] + e.sig) + m + x == ([f.scheme] + f.sig) + n + y
    ensures e == f && m + x == n + y
  {
    Regroup([e.scheme] + e.sig, m, x);
    Regroup([f.scheme] + f.sig, n, y);
    Split([e.scheme] + e.sig, m + x, [f.scheme] + f.sig, n + y);
    SplitByte(e.scheme, e.sig, f.scheme, f.sig);
  }

  // With one signature length, a total length says how many eggs and optional signatures there are.
  lemma LengthsDetermine(k: nat, i: nat, m: nat, j: nat)
    requires i <= 1 && j <= 1 && 65 * k + SIG * i == 65 * m + SIG * j
    ensures k == m && i == j
  {
  }

  function Extras(op: FleetOp): nat {
    (if op.consent == [] then 0 else 1) + if op.identitySig == [] then 0 else 1
  }

  // Only genesis co-signs and only an Add or Remove carries a consent, so an op has at most one extra.
  lemma TailLength(w: EggCodec, op: FleetOp)
    requires Ed25519Sized(w, op)
    ensures Extras(op) <= 1
    ensures (op.kind == Genesis ==> op.consent == []) && (op.kind != Genesis ==> op.identitySig == [])
    ensures |ConsentPart(w, op)| + |BareEggs(op.sigs)| + |op.identitySig| == 65 * |op.sigs| + SIG * Extras(op)
  {
    BareSize(op.sigs);
  }

  lemma SameShape(w: EggCodec, a: FleetOp, b: FleetOp)
    requires Ed25519Sized(w, a) && Ed25519Sized(w, b) && a.kind == b.kind
    requires |ConsentPart(w, a)| + |BareEggs(a.sigs)| + |a.identitySig|
             == |ConsentPart(w, b)| + |BareEggs(b.sigs)| + |b.identitySig|
    ensures |a.sigs| == |b.sigs| && |ConsentPart(w, a)| == |ConsentPart(w, b)|
  {
    TailLength(w, a);
    TailLength(w, b);
    LengthsDetermine(|a.sigs|, Extras(a), |b.sigs|, Extras(b));
  }

  lemma ConsentIs(w: EggCodec, a: FleetOp, b: FleetOp)
    requires Ed25519Sized(w, a) && Ed25519Sized(w, b) && ConsentPart(w, a) == ConsentPart(w, b)
    ensures a.consent == b.consent
  {
    if a.consent != [] {
      assert a.consent == [a.consent[0]] && b.consent == [b.consent[0]];
    }
  }

  lemma NothingElse(w: EggCodec, op: FleetOp)
    requires Ed25519Sized(w, op)
    ensures op.plate.None? && op.plateKind == UNSTATED && op.bundle.None?
    ensures op.kind != Checkpoint ==> op.ckptK == 0 && op.ckptCommit == 0 && op.ckptEpoch == 0
  {
  }

  // Among ops whose signatures are all Ed25519's 64 bytes, the v1 preimage determines the op.
  lemma V1ChainBytesDetermine(w: EggCodec, a: FleetOp, b: FleetOp)
    requires Ed25519Sized(w, a) && Ed25519Sized(w, b) && ChainBytes(w, a) == ChainBytes(w, b)
    ensures a == b
  {
    V1Parts(w, a);
    V1Parts(w, b);
    var ca, ka, ea := ConsentPart(w, a), CheckpointPart(a), BareEggs(a.sigs) + a.identitySig;
    var cb, kb, eb := ConsentPart(w, b), CheckpointPart(b), BareEggs(b.sigs) + b.identitySig;
    Split(Head(a), ca + (ka + ea), Head(b), cb + (kb + eb));
    HeadDetermines(w, a, b);
    assert |ka| == |kb|;
    assert |ca + (ka + ea)| == |cb + (kb + eb)|;
    SameShape(w, a, b);
    Split(ca, ka + ea, cb, kb + eb);
    ConsentIs(w, a, b);
    SplitCheckpoint(w, a, ea, b, eb);
    SplitBareEggs(a.sigs, a.identitySig, b.sigs, b.identitySig);
    NothingElse(w, a);
    NothingElse(w, b);
  }

  // Without that length it does not: two signatures run together as one.
  lemma V1ChainBytesCollide(w: EggCodec, op: FleetOp, x: seq<byte>, y: seq<byte>)
    requires op.version == V1
    ensures var two := op.(sigs := [Egg(ED25519, x), Egg(ED25519, y)]);
            var one := op.(sigs := [Egg(ED25519, x + [ED25519] + y)]);
            two != one && ChainBytes(w, two) == ChainBytes(w, one)
  {
    var eggs := [Egg(ED25519, x), Egg(ED25519, y)];
    var run := [Egg(ED25519, x + [ED25519] + y)];
    assert eggs[1..] == [Egg(ED25519, y)] && eggs[1..][1..] == [] && run[1..] == [];
    assert BareEggs(eggs) == BareEggs(run);
    assert |eggs| != |run|;
  }

  // Nor does it cover a bundle: an Add with one and an Add without share their preimage.
  lemma V1LeavesTheBundleOut(w: EggCodec, op: FleetOp, b: KeyBundle)
    requires op.version == V1
    ensures ChainBytes(w, op.(bundle := Some(b))) == ChainBytes(w, op.(bundle := None))
  {
  }
}
