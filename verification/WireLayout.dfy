/** Where each field of a stored or sent form sits: bundles, egg blobs, fan-outs, ops and settings rows. */
module WireLayout {
  import opened Wrappers
  import opened Collections
  import opened Bytes
  import opened Schemes
  import opened FleetOps
  import opened PreimageLayout
  import KeyBundles
  import EggBlobs
  import FanoutBlobs
  import OpCodec
  import FleetState
  import SettingsRows

  // ---- two-byte lengths and single entries ----

  ghost predicate LittleLenAt(s: seq<byte>, at: nat, n: nat) {
    at + 2 <= |s| && s[at] as nat + 256 * s[at + 1] as nat == n
  }

  lemma PeelLittleLen(s: seq<byte>, at: nat, n: nat, rest: seq<byte>)
    requires at <= |s| && s[at..] == Le(n % 0x1_0000, 2) + rest && n < 0x1_0000
    ensures LittleLenAt(s, at, n) && s[at + 2..] == rest
  {
    KeyBundles.LeTwo(n);
    Peel(s, at, Le(n % 0x1_0000, 2), rest);
    assert s[at] == s[at..at + 2][0] && s[at + 1] == s[at..at + 2][1];
  }

  // ---- key bundles ----

  // Scheme, two-byte little-endian length and key, one entry after another.
  ghost predicate EntriesAt(s: seq<byte>, at: nat, keys: seq<KeyEntry>)
    decreases |keys|
  {
    if keys == [] then at == |s|
    else EntryAt(s, at, keys[0]) && EntriesAt(s, at + 3 + |keys[0].key|, keys[1..])
  }

  ghost predicate EntryAt(s: seq<byte>, at: nat, e: KeyEntry) {
    at < |s| && s[at] == e.scheme && LittleLenAt(s, at + 1, |e.key|) && BytesAt(s, at + 3, e.key)
  }

  lemma EntryField(s: seq<byte>, at: nat, e: KeyEntry, more: seq<byte>)
    requires at <= |s| && s[at..] == KeyBundles.EntryBytes(e) + more && |e.key| < 0x1_0000
    ensures EntryAt(s, at, e) && |s| >= at + 3 + |e.key| && s[at + 3 + |e.key|..] == more
  {
    var size := Le(|e.key| % 0x1_0000, 2);
    Regroup([e.scheme] + size, e.key, more);
    Regroup([e.scheme], size, e.key + more);
    PeelByte(s, at, e.scheme, size + (e.key + more));
    PeelLittleLen(s, at + 1, |e.key|, e.key + more);
    Peel(s, at + 3, e.key, more);
  }

  lemma {:induction false} EntryFields(s: seq<byte>, at: nat, keys: seq<KeyEntry>)
    requires at <= |s| && s[at..] == KeyBundles.EntriesBytes(keys)
    requires forall i :: 0 <= i < |keys| ==> |keys[i].key| < 0x1_0000
    ensures EntriesAt(s, at, keys)
    decreases |keys|
  {
    if keys == [] {
      assert |s[at..]| == 0;
    } else {
      EntryField(s, at, keys[0], KeyBundles.EntriesBytes(keys[1..]));
      EntryFields(s, at + 3 + |keys[0].key|, keys[1..]);
    }
  }

  // A bundle is its count and its entries in scheme order.
  lemma BundleLayout(b: KeyBundle)
    requires ValidBundle(b)
    ensures var s := KeyBundles.ToBytes(b); s[0] == |b.keys| && EntriesAt(s, 1, b.keys)
  {
    KeyBundles.ValidBundleIsSmall(b);
    var s := KeyBundles.ToBytes(b);
    assert s[1..] == KeyBundles.EntriesBytes(b.keys);
    EntryFields(s, 1, b.keys);
  }

  // ---- egg blobs ----

  // For each list a two-byte little-endian length and the list's own bytes, none for an empty one.
  ghost predicate ListsAt(w: EggBlobs.EggWire, s: seq<byte>, at: nat, lists: seq<seq<Egg>>)
    decreases |lists|
  {
    if lists == [] then at == |s|
    else
      var bytes := if lists[0] == [] then [] else w.write(lists[0]);
      && LittleLenAt(s, at, |bytes|) && BytesAt(s, at + 2, bytes) && ListsAt(w, s, at + 2 + |bytes|, lists[1..])
  }

  lemma {:induction false} ListFields(w: EggBlobs.EggWire, s: seq<byte>, at: nat, lists: seq<seq<Egg>>)
    requires at <= |s| && s[at..] == EggBlobs.Pack(w, lists)
    requires forall i :: 0 <= i < |lists| ==> EggBlobs.Fits(w, lists[i])
    ensures ListsAt(w, s, at, lists)
    decreases |lists|
  {
    if lists == [] {
      assert |s[at..]| == 0;
    } else {
      var bytes, more := EggBlobs.ListBytes(w, lists[0]), EggBlobs.Pack(w, lists[1..]);
      assert EggBlobs.Fits(w, lists[0]);
      PeelLittleLen(s, at, |bytes|, bytes + more);
      Peel(s, at + 2, bytes, more);
      ListFields(w, s, at + 2 + |bytes|, lists[1..]);
    }
  }

  lemma EggBlobLayout(w: EggBlobs.EggWire, lists: seq<seq<Egg>>)
    requires forall i :: 0 <= i < |lists| ==> EggBlobs.Fits(w, lists[i])
    ensures ListsAt(w, EggBlobs.Pack(w, lists), 0, lists)
  {
    assert EggBlobs.Pack(w, lists)[0..] == EggBlobs.Pack(w, lists);
    ListFields(w, EggBlobs.Pack(w, lists), 0, lists);
  }

  // ---- fan-outs ----

  // Big-endian integers of n bytes.
  ghost predicate BigAt(s: seq<byte>, at: nat, n: nat, value: nat) {
    at + n <= |s| && BeValue(s[at..at + n]) == value
  }

  lemma PeelBig(s: seq<byte>, at: nat, n: nat, value: nat, rest: seq<byte>)
    requires at <= |s| && s[at..] == Be(value, n) + rest && value < Pow(256, n)
    ensures BigAt(s, at, n, value) && s[at + n..] == rest
  {
    Peel(s, at, Be(value, n), rest);
    BeRoundTrip(value, n);
  }

  // Ephemeral key, commitment, four-byte length and ciphertext, one wrap after another.
  ghost predicate WrapsAt(s: seq<byte>, at: nat, ws: seq<FanoutBlobs.Wrap>)
    decreases |ws|
  {
    if ws == [] then at == |s|
    else
      && KeyAt(s, at, ws[0].epk) && KeyAt(s, at + 32, ws[0].commit) && BigAt(s, at + 64, 4, |ws[0].ct|)
      && BytesAt(s, at + 68, ws[0].ct) && WrapsAt(s, at + 68 + |ws[0].ct|, ws[1..])
  }

  lemma WrapField(s: seq<byte>, at: nat, w: FanoutBlobs.Wrap, rest: seq<byte>)
    requires at <= |s| && s[at..] == FanoutBlobs.WrapBytes(w) + rest && FanoutBlobs.Printable(w)
    ensures KeyAt(s, at, w.epk) && KeyAt(s, at + 32, w.commit) && BigAt(s, at + 64, 4, |w.ct|)
    ensures BytesAt(s, at + 68, w.ct) && s[at + 68 + |w.ct|..] == rest
  {
    FanoutBlobs.BeFour(|w.ct|);
    FourGib();
    var size := Be(|w.ct|, 4);
    FanoutBlobs.WrapParts(Be(w.epk, 32), Be(w.commit, 32), size, w.ct, rest);
    PeelKey(s, at, w.epk, Be(w.commit, 32) + (size + (w.ct + rest)));
    PeelKey(s, at + 32, w.commit, size + (w.ct + rest));
    PeelBig(s, at + 64, 4, |w.ct|, w.ct + rest);
    Peel(s, at + 68, w.ct, rest);
  }

  lemma {:induction false} WrapFields(s: seq<byte>, at: nat, ws: seq<FanoutBlobs.Wrap>)
    requires at <= |s| && s[at..] == FanoutBlobs.WrapsBytes(ws)
    requires forall i :: 0 <= i < |ws| ==> FanoutBlobs.Printable(ws[i])
    ensures WrapsAt(s, at, ws)
    decreases |ws|
  {
    if ws == [] {
      assert |s[at..]| == 0;
    } else {
      WrapField(s, at, ws[0], FanoutBlobs.WrapsBytes(ws[1..]));
      WrapFields(s, at + 68 + |ws[0].ct|, ws[1..]);
    }
  }

  lemma HeaderParts(f: FanoutBlobs.Fanout, rest: seq<byte>)
    ensures FanoutBlobs.Header(f) + rest
            == (FanoutBlobs.MAGIC + [FanoutBlobs.VERSION])
               + (Be(f.revision, 8) + (Be(f.kfp, 32) + (Be(f.rotator, 32) + rest)))
  {
    var a, b, c := Be(f.revision, 8), Be(f.kfp, 32), Be(f.rotator, 32);
    var front := FanoutBlobs.MAGIC + [FanoutBlobs.VERSION];
    Regroup(front + a + b, c, rest);
    Regroup(front + a, b, c + rest);
    Regroup(front, a, b + (c + rest));
  }

  lemma HeaderFields(s: seq<byte>, f: FanoutBlobs.Fanout, rest: seq<byte>)
    requires FanoutBlobs.Prints(f) && s == FanoutBlobs.Header(f) + rest
    ensures |s| >= 76 && Spells(s[..3], "PFO") && s[3] == 3 && BigAt(s, 4, 8, f.revision)
    ensures KeyAt(s, 12, f.kfp) && KeyAt(s, 44, f.rotator) && s[76..] == rest
  {
    var b, c := Be(f.kfp, 32) + (Be(f.rotator, 32) + rest), Be(f.rotator, 32) + rest;
    var front: seq<byte> := [80, 70, 79, 3];
    HeaderParts(f, rest);
    assert front == FanoutBlobs.MAGIC + [FanoutBlobs.VERSION];
    Peel(s, 0, front, Be(f.revision, 8) + b);
    PeelBig(s, 4, 8, f.revision, b);
    PeelKey(s, 12, f.kfp, c);
    PeelKey(s, 44, f.rotator, rest);
    ElementsOf(s, 0, front);
    MagicSpelled(s);
  }

  lemma MagicSpelled(s: seq<byte>)
    requires |s| >= 4 && s[0] == 80 && s[1] == 70 && s[2] == 79
    ensures Spells(s[..3], "PFO")
  {
  }

  // Header, the epoch bundle with its two-byte length, the four-byte wrap count and the wraps.
  lemma FanoutLayout(f: FanoutBlobs.Fanout)
    requires FanoutBlobs.Prints(f)
    ensures var s, ep := FanoutBlobs.ToBytes(f), KeyBundles.ToBytes(f.epochPub);
            && |s| >= 76 && Spells(s[..3], "PFO") && s[3] == 3 && BigAt(s, 4, 8, f.revision)
            && KeyAt(s, 12, f.kfp) && KeyAt(s, 44, f.rotator)
            && BigAt(s, 76, 2, |ep|) && BytesAt(s, 78, ep)
            && BigAt(s, 78 + |ep|, 4, |f.wraps|) && WrapsAt(s, 82 + |ep|, f.wraps)
  {
    var s, ep, wraps := FanoutBlobs.ToBytes(f), KeyBundles.ToBytes(f.epochPub), FanoutBlobs.WrapsBytes(f.wraps);
    KeyBundles.ToBytesSize(f.epochPub);
    FanoutBlobs.BeTwo(|ep|);
    FanoutBlobs.BeFour(|f.wraps|);
    FourGib();
    var body := Be(|f.wraps|, 4) + wraps;
    Regroup(FanoutBlobs.Header(f), FanoutBlobs.Sized(ep), body);
    Regroup(Be(|ep|, 2), ep, body);
    HeaderFields(s, f, Be(|ep|, 2) + (ep + body));
    PeelBig(s, 76, 2, |ep|, ep + body);
    Peel(s, 78, ep, body);
    PeelBig(s, 78 + |ep|, 4, |f.wraps|, wraps);
    WrapFields(s, 82 + |ep|, f.wraps);
  }

  // ---- ops ----

  ghost predicate SpellsKey(b: seq<byte>, key: nat) {
    |b| == 32 && BeValue(b) == key
  }

  lemma KeySpelled(key: nat)
    requires key < Pow(256, 32)
    ensures SpellsKey(Be(key, 32), key)
  {
    BeRoundTrip(key, 32);
  }

  // What follows the signer: a genesis's identity and its signature if it has one, a consent and its
  // stamp, or a checkpoint's number, commitment and epoch.
  ghost predicate KindGroupAt(c: OpCodec.Eggs, v: seq<OpCodec.Value>, at: nat, op: FleetOp, end: nat) {
    match op.kind
    case Genesis =>
      && at < end <= |v| && v[at].KE? && SpellsKey(v[at].bytes, op.identity)
      && if op.identitySig == [] then end == at + 1 else end == at + 2 && v[at + 1] == OpCodec.GE(op.identitySig)
    case Checkpoint =>
      && end == at + 3 <= |v| && v[at] == OpCodec.U(op.ckptK) && v[at + 2] == OpCodec.U(op.ckptEpoch)
      && v[at + 1].HB? && SpellsKey(v[at + 1].bytes, op.ckptCommit)
    case Add => ConsentAt(c, v, at, op, end)
    case Remove => if op.consent == [] then end == at else ConsentAt(c, v, at, op, end)
    case _ => end == at
  }

  // A v1 consent is its first egg's bare signature.
  ghost predicate ConsentAt(c: OpCodec.Eggs, v: seq<OpCodec.Value>, at: nat, op: FleetOp, end: nat) {
    && end == at + 2 <= |v| && v[at] == OpCodec.E6(op.consentT)
    && v[at + 1] == OpCodec.GE(if op.version != V1 then c.encode(op.consent)
                               else if op.consent == [] then [] else op.consent[0].sig)
  }

  ghost predicate HasBundle(op: FleetOp) {
    (op.kind == Add || op.kind == Declare) && op.bundle.Some?
  }

  // Then an Add's or Declare's bundle, under v4 the kind of plate, the plate, and the eggs in pairs.
  ghost predicate OptionalAt(v: seq<OpCodec.Value>, at: nat, op: FleetOp) {
    if HasBundle(op) then
      at < |v| && v[at] == OpCodec.GE(KeyBundles.ToBytes(op.bundle.value)) && HardwareAt(v, at + 1, op)
    else HardwareAt(v, at, op)
  }

  ghost predicate HardwareAt(v: seq<OpCodec.Value>, at: nat, op: FleetOp) {
    if PlateKindOp(op.kind) && op.version == V4 then
      at < |v| && v[at] == OpCodec.U(op.plateKind) && PlateAt(v, at + 1, op)
    else PlateAt(v, at, op)
  }

  ghost predicate PlateAt(v: seq<OpCodec.Value>, at: nat, op: FleetOp) {
    if PlateKindOp(op.kind) && op.plate.Some? then
      at < |v| && v[at].HB? && SpellsKey(v[at].bytes, op.plate.value) && SigsAt(v, at + 1, op.sigs)
    else SigsAt(v, at, op.sigs)
  }

  ghost predicate SigsAt(v: seq<OpCodec.Value>, at: nat, eggs: seq<Egg>) {
    |v| == at + 2 * |eggs| && PairsAt(v, at, eggs)
  }

  ghost predicate PairsAt(v: seq<OpCodec.Value>, at: nat, eggs: seq<Egg>)
    requires at + 2 * |eggs| <= |v|
  {
    forall k :: 0 <= k < |eggs| ==>
      v[at + 2 * k] == OpCodec.U(eggs[k].scheme) && v[at + 2 * k + 1] == OpCodec.GE(eggs[k].sig)
  }

  lemma {:induction false} PairFields(v: seq<OpCodec.Value>, at: nat, eggs: seq<Egg>)
    requires at <= |v| && v[at..] == OpCodec.EggTail(eggs)
    ensures |v| == at + 2 * |eggs| && PairsAt(v, at, eggs)
    decreases |eggs|
  {
    if eggs == [] {
      assert |v[at..]| == 0;
    } else {
      var pair := [OpCodec.U(eggs[0].scheme), OpCodec.GE(eggs[0].sig)];
      PeelOff(v, at, pair, OpCodec.EggTail(eggs[1..]));
      PairFields(v, at + 2, eggs[1..]);
      assert v[at] == v[at..at + 2][0] && v[at + 1] == v[at..at + 2][1];
      forall k | 0 <= k < |eggs|
        ensures v[at + 2 * k] == OpCodec.U(eggs[k].scheme) && v[at + 2 * k + 1] == OpCodec.GE(eggs[k].sig)
      {
        if k > 0 {
          assert v[at + 2 + 2 * (k - 1)] == OpCodec.U(eggs[1..][k - 1].scheme);
        }
      }
    }
  }

  // A value that may be there or not.
  lemma PeelOptional<T>(v: seq<T>, at: nat, group: seq<T>, rest: seq<T>)
    requires at <= |v| && v[at..] == group + rest && |group| <= 1
    ensures at + |group| <= |v| && (group != [] ==> v[at] == group[0]) && v[at + |group|..] == rest
  {
    PeelOff(v, at, group, rest);
    ElementsOf(v, at, group);
  }

  lemma PlateGroupFields(v: seq<OpCodec.Value>, at: nat, op: FleetOp)
    requires OpCodec.Typed(op) && at <= |v| && v[at..] == OpCodec.PlateTail(op)
    ensures PlateAt(v, at, op)
  {
    var group := OpCodec.PlateGroup(op);
    PeelOptional(v, at, group, OpCodec.EggTail(op.sigs));
    PairFields(v, at + |group|, op.sigs);
    if PlateKindOp(op.kind) && op.plate.Some? {
      assert group == [OpCodec.HB(Be(op.plate.value, 32))];
      KeySpelled(op.plate.value);
    } else {
      assert group == [];
    }
  }

  lemma HardwareGroupFields(v: seq<OpCodec.Value>, at: nat, op: FleetOp)
    requires OpCodec.Typed(op) && at <= |v| && v[at..] == OpCodec.PlateKindTail(op)
    ensures HardwareAt(v, at, op)
  {
    var group := OpCodec.PlateKindGroup(op);
    PeelOptional(v, at, group, OpCodec.PlateTail(op));
    PlateGroupFields(v, at + |group|, op);
  }

  lemma OptionalFields(v: seq<OpCodec.Value>, at: nat, op: FleetOp)
    requires OpCodec.Typed(op) && at <= |v| && v[at..] == OpCodec.BundleTail(op)
    ensures OptionalAt(v, at, op)
  {
    var group := OpCodec.BundleGroup(op);
    PeelOptional(v, at, group, OpCodec.PlateKindTail(op));
    HardwareGroupFields(v, at + |group|, op);
  }

  lemma ElementsOf<T>(v: seq<T>, at: nat, field: seq<T>)
    requires at + |field| <= |v| && v[at..at + |field|] == field
    ensures forall i :: 0 <= i < |field| ==> v[at + i] == field[i]
  {
  }

  // The six values every op has, after the version that all but v1 start with: slot, previous hash, kind,
  // device, stamp, signer.
  ghost predicate FixedAt(v: seq<OpCodec.Value>, at: nat, op: FleetOp) {
    && |v| >= at + 6
    && v[at].HP? && SpellsKey(v[at].bytes, op.handleProof) && v[at + 1].HB? && SpellsKey(v[at + 1].bytes, op.prevHash)
    && v[at + 2] == OpCodec.U(match op.kind
                              case Genesis => 0 case Add => 1 case Remove => 2 case Checkpoint => 3
                              case Declare => 4 case Lock => 5 case Unlock => 6)
    && v[at + 3].KE? && SpellsKey(v[at + 3].bytes, op.device) && v[at + 4] == OpCodec.E6(op.time)
    && v[at + 5].KE? && SpellsKey(v[at + 5].bytes, op.signer)
  }

  lemma FixedFields(v: seq<OpCodec.Value>, at: nat, op: FleetOp, rest: seq<OpCodec.Value>)
    requires OpCodec.Typed(op) && at <= |v| && v[at..] == OpCodec.FixedGroup(op) + rest
    ensures FixedAt(v, at, op) && v[at + 6..] == rest
  {
    var group := OpCodec.FixedGroup(op);
    PeelOff(v, at, group, rest);
    ElementsOf(v, at, group);
    SixAre(v, at, op, group);
  }

  lemma SixAre(v: seq<OpCodec.Value>, at: nat, op: FleetOp, group: seq<OpCodec.Value>)
    requires OpCodec.Typed(op) && group == OpCodec.FixedGroup(op) && |v| >= at + 6
    requires forall i :: 0 <= i < 6 ==> v[at + i] == group[i]
    ensures FixedAt(v, at, op)
  {
    FirstThree(v, at, op, group);
    assert v[at + 3] == group[3] && v[at + 4] == group[4] && v[at + 5] == group[5];
    KeySpelled(op.device);
    KeySpelled(op.signer);
  }

  lemma FirstThree(v: seq<OpCodec.Value>, at: nat, op: FleetOp, group: seq<OpCodec.Value>)
    requires OpCodec.Typed(op) && group == OpCodec.FixedGroup(op) && |v| >= at + 6
    requires forall i :: 0 <= i < 6 ==> v[at + i] == group[i]
    ensures v[at] == OpCodec.HP(Be(op.handleProof, 32)) && SpellsKey(Be(op.handleProof, 32), op.handleProof)
    ensures v[at + 1] == OpCodec.HB(Be(op.prevHash, 32)) && SpellsKey(Be(op.prevHash, 32), op.prevHash)
    ensures v[at + 2] == OpCodec.U(OpCodec.KindNumber(op.kind))
  {
    assert v[at] == group[0] && v[at + 1] == group[1] && v[at + 2] == group[2];
    KeySpelled(op.handleProof);
    KeySpelled(op.prevHash);
  }

  lemma GenesisGroup(c: OpCodec.Eggs, v: seq<OpCodec.Value>, at: nat, op: FleetOp, group: seq<OpCodec.Value>)
    requires OpCodec.Typed(op) && op.kind == Genesis && group == OpCodec.KindGroup(c, op) && |v| >= at + |group|
    requires forall i :: 0 <= i < |group| ==> v[at + i] == group[i]
    ensures KindGroupAt(c, v, at, op, at + |group|)
  {
    assert v[at] == group[0];
    KeySpelled(op.identity);
    if op.identitySig != [] {
      assert v[at + 1] == group[1];
    }
  }

  lemma CheckpointGroup(c: OpCodec.Eggs, v: seq<OpCodec.Value>, at: nat, op: FleetOp, group: seq<OpCodec.Value>)
    requires OpCodec.Typed(op) && op.kind == Checkpoint && group == OpCodec.KindGroup(c, op) && |v| >= at + |group|
    requires forall i :: 0 <= i < |group| ==> v[at + i] == group[i]
    ensures KindGroupAt(c, v, at, op, at + |group|)
  {
    assert v[at] == group[0] && v[at + 1] == group[1] && v[at + 2] == group[2];
    KeySpelled(op.ckptCommit);
  }

  lemma ConsentGroup(c: OpCodec.Eggs, v: seq<OpCodec.Value>, at: nat, op: FleetOp, group: seq<OpCodec.Value>)
    requires (op.kind == Add || (op.kind == Remove && op.consent != [])) && group == OpCodec.KindGroup(c, op)
    requires |v| >= at + |group| && forall i :: 0 <= i < |group| ==> v[at + i] == group[i]
    ensures KindGroupAt(c, v, at, op, at + |group|)
  {
    assert v[at] == group[0] && v[at + 1] == group[1];
  }

  lemma KindFields(c: OpCodec.Eggs, v: seq<OpCodec.Value>, at: nat, op: FleetOp, rest: seq<OpCodec.Value>)
    requires OpCodec.Typed(op) && at <= |v| && v[at..] == OpCodec.KindGroup(c, op) + rest
    ensures var end := at + |OpCodec.KindGroup(c, op)|; KindGroupAt(c, v, at, op, end) && v[end..] == rest
  {
    var group := OpCodec.KindGroup(c, op);
    PeelOff(v, at, group, rest);
    ElementsOf(v, at, group);
    if op.kind == Genesis {
      GenesisGroup(c, v, at, op, group);
    } else if op.kind == Checkpoint {
      CheckpointGroup(c, v, at, op, group);
    } else if op.kind == Add || (op.kind == Remove && op.consent != []) {
      ConsentGroup(c, v, at, op, group);
    }
  }

  // Every value of an op's field, at its position.
  lemma OpLayout(c: OpCodec.Eggs, op: FleetOp)
    requires OpCodec.Writable(op)
    ensures var v, at := OpCodec.FieldValues(c, op), if op.version == V1 then 0 else 1;
            && FixedAt(v, at, op)
            && (op.version != V1
                ==> v[0] == OpCodec.U(match op.version case V1 => 1 case V2 => 2 case V3 => 3 case V4 => 4))
            && exists end :: KindGroupAt(c, v, at + 6, op, end) && OptionalAt(v, end, op)
  {
    var v, at := OpCodec.FieldValues(c, op), if op.version == V1 then 0 else 1;
    var optional := OpCodec.BundleTail(op);
    var rest := OpCodec.KindGroup(c, op) + optional;
    assert v[0..] == v;
    PeelOff(v, 0, OpCodec.VersionGroup(op), OpCodec.FixedGroup(op) + rest);
    ElementsOf(v, 0, OpCodec.VersionGroup(op));
    FixedFields(v, at, op, rest);
    KindFields(c, v, at + 6, op, optional);
    OptionalFields(v, at + 6 + |OpCodec.KindGroup(c, op)|, op);
  }

  // ---- settings rows ----

  ghost predicate Labels(d: FleetState.Datum, name: string) {
    d.D? && Spells(d.name, name)
  }

  lemma LabelsSpell()
    ensures Spells(SettingsRows.DEVICE, "device") && Spells(SettingsRows.MAP_UPDATED, "map_updated")
    ensures Spells(SettingsRows.KEY, "key") && Spells(SettingsRows.VALUE, "value")
    ensures Spells(SettingsRows.ENTRY_UPDATED, "entry_updated") && Spells(SettingsRows.LINKED, "linked")
    ensures Spells(SettingsRows.UPDATED, "updated") && Spells(SettingsRows.TOMBSTONE, "tombstone")
  {
  }

  lemma LabelledAt(m: SettingsRows.Pairs, k: nat)
    requires k < |m|
    ensures var row := SettingsRows.Labelled(m);
            |row| == 2 * |m| && row[2 * k] == FleetState.D(m[k].0) && row[2 * k + 1] == m[k].1
    decreases |m|
  {
    if k > 0 {
      LabelledAt(m[1..], k - 1);
    } else if |m| > 1 {
      LabelledAt(m[1..], 0);
    }
  }

  // A global setting's row, value by value.
  lemma GlobalRowLayout(e: FleetState.SettingEntry)
    ensures var row := SettingsRows.GlobalRow(e);
            && |row| == 8
            && Labels(row[0], "key") && row[1] == FleetState.D(e.key) && Labels(row[2], "value") && row[3] == e.value
            && Labels(row[4], "updated") && row[5] == FleetState.E6(e.updated)
            && Labels(row[6], "tombstone") && row[7] == FleetState.U(if e.tombstone then 1 else 0)
  {
    var m: SettingsRows.Pairs := [
      (SettingsRows.KEY, FleetState.D(e.key)), (SettingsRows.VALUE, e.value),
      (SettingsRows.UPDATED, FleetState.E6(e.updated)), (SettingsRows.TOMBSTONE, SettingsRows.Flag(e.tombstone))];
    LabelsSpell();
    LabelledAt(m, 0);
    LabelledAt(m, 1);
    LabelledAt(m, 2);
    LabelledAt(m, 3);
  }

  // A device map's row: the map's own two values, then one entry's four.
  lemma EntryRowLayout(d: FleetState.DeviceSettings, e: FleetState.DeviceSetting)
    requires d.device < Pow(256, 32)
    ensures var row := SettingsRows.Labelled(SettingsRows.MapPairs(d) + SettingsRows.EntryPairs(e));
            && |row| == 12
            && Labels(row[0], "device") && row[1].KE? && SpellsKey(row[1].bytes, d.device)
            && Labels(row[2], "map_updated") && row[3] == FleetState.E6(d.updated)
            && Labels(row[4], "key") && row[5] == FleetState.D(e.key) && Labels(row[6], "value") && row[7] == e.value
            && Labels(row[8], "entry_updated") && row[9] == FleetState.E6(e.updated)
            && Labels(row[10], "linked") && row[11] == FleetState.U(if e.linked then 1 else 0)
  {
    var m := SettingsRows.MapPairs(d) + SettingsRows.EntryPairs(e);
    var row := SettingsRows.Labelled(m);
    LabelsSpell();
    KeySpelled(d.device);
    LabelledAt(m, 0);
    LabelledAt(m, 1);
    EntryHalf(d, e, row);
  }

  lemma EntryHalf(d: FleetState.DeviceSettings, e: FleetState.DeviceSetting, row: seq<FleetState.Datum>)
    requires row == SettingsRows.Labelled(SettingsRows.MapPairs(d) + SettingsRows.EntryPairs(e))
    ensures |row| == 12
    ensures row[4] == FleetState.D(SettingsRows.KEY) && row[5] == FleetState.D(e.key)
    ensures row[6] == FleetState.D(SettingsRows.VALUE) && row[7] == e.value
    ensures row[8] == FleetState.D(SettingsRows.ENTRY_UPDATED) && row[9] == FleetState.E6(e.updated)
    ensures row[10] == FleetState.D(SettingsRows.LINKED) && row[11] == FleetState.U(if e.linked then 1 else 0)
  {
    var m := SettingsRows.MapPairs(d) + SettingsRows.EntryPairs(e);
    LabelledAt(m, 2);
    LabelledAt(m, 3);
    LabelledAt(m, 4);
    LabelledAt(m, 5);
  }
}
