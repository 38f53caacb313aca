/**
 Signature schemes, key bundles and egg lists.  A `u16` scheme mask is the set of its bit numbers;
 signature checks are an uninterpreted relation supplied by the caller.
 */
module Schemes {
  import opened Wrappers
  import opened Bytes

  type Mask = set<nat>

  // A 32-byte value as the number it spells.
  type Key32 = nat

  const ED25519: nat := 0
  const FALCON512: nat := 1
  const SPHINCS_PLUS: nat := 2

  const MASK_BASE: Mask := {ED25519}
  const MASK_ALL: Mask := {ED25519, FALCON512, SPHINCS_PLUS}
  const MASK_KNOWN: Mask := MASK_ALL

  predicate Covers(mask: Mask, required: Mask) {
    required <= mask
  }

  datatype Egg = Egg(scheme: byte, sig: seq<byte>)

  datatype KeyEntry = KeyEntry(scheme: byte, key: seq<byte>)

  datatype KeyBundle = KeyBundle(keys: seq<KeyEntry>)

  function PubkeyLen(scheme: byte): Option<nat> {
    if scheme == ED25519 then Some(32)
    else if scheme == FALCON512 then Some(897)
    else if scheme == SPHINCS_PLUS then Some(32)
    else None
  }

  // What `KeyBundle::new` guarantees of every bundle.
  predicate ValidBundle(b: KeyBundle) {
    && (forall i, j :: 0 <= i < j < |b.keys| ==> b.keys[i].scheme < b.keys[j].scheme)
    && (forall i :: 0 <= i < |b.keys| ==> PubkeyLen(b.keys[i].scheme) == Some(|b.keys[i].key|))
    && (exists i :: 0 <= i < |b.keys| && b.keys[i].scheme == ED25519)
  }

  function Ed25519Only(device: Key32): KeyBundle {
    KeyBundle([KeyEntry(ED25519, Be(device, 32))])
  }

  function BundleMask(b: KeyBundle): (m: Mask)
    ensures ValidBundle(b) ==> MASK_BASE <= m <= MASK_KNOWN
  {
    set i | 0 <= i < |b.keys| :: b.keys[i].scheme
  }

  function FindKey(keys: seq<KeyEntry>, scheme: byte): (r: Option<seq<byte>>)
    ensures r.Some? <==> exists i :: 0 <= i < |keys| && keys[i].scheme == scheme
  {
    if keys == [] then None
    else if keys[0].scheme == scheme then Some(keys[0].key)
    else FindKey(keys[1..], scheme)
  }

  function Pubkey(b: KeyBundle, scheme: byte): (r: Option<seq<byte>>)
    ensures r.Some? <==> scheme in BundleMask(b)
  {
    FindKey(b.keys, scheme)
  }

  // The bundle's Ed25519 key; all zeros when it has none.
  function Ed25519Of(b: KeyBundle): Key32 {
    match Pubkey(b, ED25519)
    case Some(k) => BeValue(k)
    case None => 0
  }

  // The schemes a list carries; a tag past the mask's sixteen bits is not counted.
  function EggMask(eggs: seq<Egg>): Mask {
    set i | 0 <= i < |eggs| && eggs[i].scheme < 16 :: eggs[i].scheme
  }

  // A signature check: (scheme, public key, message, signature).
  type Verify = (byte, seq<byte>, seq<byte>, seq<byte>) -> bool

  // An unknown scheme never verifies.
  predicate VerifyEgg(v: Verify, scheme: byte, pk: seq<byte>, msg: seq<byte>, sig: seq<byte>) {
    scheme in MASK_KNOWN && v(scheme, pk, msg, sig)
  }

  predicate EggVerifies(v: Verify, e: Egg, b: KeyBundle, msg: seq<byte>) {
    var pk := Pubkey(b, e.scheme);
    pk.Some? && VerifyEgg(v, e.scheme, pk.value, msg, e.sig)
  }

  // The strict rule: every listed egg verifies, and the list covers what is required.
  predicate EggsHold(v: Verify, eggs: seq<Egg>, b: KeyBundle, msg: seq<byte>, required: Mask) {
    eggs != [] && (forall i :: 0 <= i < |eggs| ==> EggVerifies(v, eggs[i], b, msg)) && Covers(EggMask(eggs), required)
  }

  method VerifyEggs(v: Verify, eggs: seq<Egg>, b: KeyBundle, msg: seq<byte>, required: Mask) returns (ok: bool)
    ensures ok == EggsHold(v, eggs, b, msg, required)
  {
    if eggs == [] {
      return false;
    }
    for n := 0 to |eggs|
      invariant forall i :: 0 <= i < n ==> EggVerifies(v, eggs[i], b, msg)
    {
      var pk := Pubkey(b, eggs[n].scheme);
      if pk.None? || !VerifyEgg(v, eggs[n].scheme, pk.value, msg, eggs[n].sig) {
        assert !EggVerifies(v, eggs[n], b, msg);
        return false;
      }
    }
    return Covers(EggMask(eggs), required);
  }

  // The schemes of the eggs that the bundle can check at all.
  function Checkable(eggs: seq<Egg>, b: KeyBundle): Mask {
    set i | 0 <= i < |eggs| && eggs[i].scheme in BundleMask(b) :: eggs[i].scheme
  }

  // The envelope rule: an egg the bundle has no key for is skipped, every other must verify, and
  // the verified ones cover what is required.
  method VerifyEggsDeclared(v: Verify, eggs: seq<Egg>, b: KeyBundle, msg: seq<byte>, required: Mask) returns (ok: bool)
    ensures ok <==>
            && (forall i :: 0 <= i < |eggs| && eggs[i].scheme in BundleMask(b) ==> EggVerifies(v, eggs[i], b, msg))
            && Checkable(eggs, b) != {} && Covers(Checkable(eggs, b), required)
  {
    var verified: Mask := {};
    for n := 0 to |eggs|
      invariant forall i :: 0 <= i < n && eggs[i].scheme in BundleMask(b) ==> EggVerifies(v, eggs[i], b, msg)
      invariant verified == Checkable(eggs[..n], b)
    {
      assert eggs[..n + 1] == eggs[..n] + [eggs[n]];
      var pk := Pubkey(b, eggs[n].scheme);
      if pk.Some? {
        if !VerifyEgg(v, eggs[n].scheme, pk.value, msg, eggs[n].sig) {
          assert !EggVerifies(v, eggs[n], b, msg);
          return false;
        }
        assert Checkable(eggs[..n + 1], b) == Checkable(eggs[..n], b) + {eggs[n].scheme};
        verified := verified + {eggs[n].scheme};
      } else {
        assert Checkable(eggs[..n + 1], b) == Checkable(eggs[..n], b);
      }
    }
    assert eggs[..|eggs|] == eggs;
    return verified != {} && Covers(verified, required);
  }

  // Anything the strict rule accepts the envelope rule accepts: it is one step looser.
  lemma StrictImpliesDeclared(v: Verify, eggs: seq<Egg>, b: KeyBundle, msg: seq<byte>, required: Mask)
    requires EggsHold(v, eggs, b, msg, required)
    ensures Checkable(eggs, b) != {} && Covers(Checkable(eggs, b), required)
  {
    forall i | 0 <= i < |eggs| ensures eggs[i].scheme in Checkable(eggs, b) {
      assert EggVerifies(v, eggs[i], b, msg);
    }
    assert eggs[0].scheme in Checkable(eggs, b);
  }

  lemma Ed25519OnlyIsValid(device: Key32)
    ensures ValidBundle(Ed25519Only(device)) && BundleMask(Ed25519Only(device)) == MASK_BASE
  {
    assert Ed25519Only(device).keys[0].scheme == ED25519;
  }
}
