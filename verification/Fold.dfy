/**
 The membership fold: one walk over the chain that checks every rule and yields the member set, the
 ratcheted capability floor, the declared bundles and the lock set.
 */
module Fold {
  import opened Wrappers
  import opened Bytes
  import opened Schemes
  import opened Assoc
  import opened FleetOps

  // The cryptography a chain is judged with, uninterpreted: the bytes an op signs, the bytes a
  // joiner or a leaver signs, the identity co-signature's verdict, the chain hash, and the checks.
  datatype Oracle = Oracle(
    signing: FleetOp -> seq<byte>,
    bindRequest: FleetOp -> seq<byte>,
    departRequest: FleetOp -> seq<byte>,
    identityBinding: FleetOp -> bool,
    chainHash: FleetOp -> Key32,
    verify: Verify)

  datatype State = State(
    identity: Key32,
    members: seq<Key32>,
    locked: seq<Key32>,
    bundles: seq<Entry<KeyBundle>>,
    plates: seq<Entry<Key32>>,
    kinds: seq<Entry<nat>>,
    floor: Mask,
    prev: Key32,
    lastK: nat,
    height: nat)

  function Init(identity: Key32): State {
    State(identity, [], [], [], [], [], MASK_BASE, 0, 0, 0)
  }

  // What the fold judges a device by: its first entry, or Ed25519 alone.
  function BundleFor(bundles: seq<Entry<KeyBundle>>, d: Key32): KeyBundle {
    match Find(bundles, d)
    case Some(b) => b
    case None => Ed25519Only(d)
  }

  function MaskFor(bundles: seq<Entry<KeyBundle>>, d: Key32): Mask {
    match Find(bundles, d)
    case Some(b) => BundleMask(b)
    case None => MASK_BASE
  }

  // A Declare is checked against the bundle it carries, every other op against its signer's.
  function VerifyWith(s: State, op: FleetOp): KeyBundle {
    if op.kind == Declare && op.bundle.Some? then op.bundle.value else BundleFor(s.bundles, op.signer)
  }

  // One egg over the op's signing bytes.  The Ed25519 egg is always checked under the signer's own
  // key, never the bundle's.
  predicate SigHolds(o: Oracle, op: FleetOp, b: KeyBundle, e: Egg) {
    if e.scheme == ED25519 then VerifyEgg(o.verify, ED25519, Be(op.signer, 32), o.signing(op), e.sig)
    else EggVerifies(o.verify, e, b, o.signing(op))
  }

  predicate SigsHold(o: Oracle, op: FleetOp, b: KeyBundle) {
    op.sigs != [] && forall i :: 0 <= i < |op.sigs| ==> SigHolds(o, op, b, op.sigs[i])
  }

  function Joined(op: FleetOp): KeyBundle {
    match op.bundle
    case Some(b) => b
    case None => Ed25519Only(op.device)
  }

  predicate ConsentHolds(o: Oracle, op: FleetOp, subject: KeyBundle, required: Mask) {
    EggsHold(o.verify, op.consent, subject, o.bindRequest(op), required)
  }

  predicate DepartHolds(o: Oracle, op: FleetOp, subject: KeyBundle, required: Mask) {
    EggsHold(o.verify, op.consent, subject, o.departRequest(op), required)
  }

  // ---- the checks ----

  function Linked(s: State, op: FleetOp): Option<FoldError> {
    if op.handleProof != s.identity then Some(InconsistentHandleProof(s.height))
    else if op.prevHash != s.prev then Some(BrokenChain(s.height))
    else None
  }

  function Authority(o: Oracle, s: State, op: FleetOp): Option<FoldError> {
    if op.signer in s.locked then Some(SignerLocked(s.height))
    else if !Covers(EggMask(op.sigs), s.floor) then Some(InsufficientEggs(s.height))
    else if !SigsHold(o, op, VerifyWith(s, op)) then Some(BadSignature(s.height))
    else None
  }

  function GenesisRule(o: Oracle, s: State, op: FleetOp): Option<FoldError> {
    if s.height != 0 || s.members != [] then Some(NotGenesisFirst)
    else if op.signer != op.device then Some(GenesisNotSelfSigned)
    else if op.identity == 0 then Some(BadIdentityBinding)
    else if op.identitySig != [] && !o.identityBinding(op) then Some(BadIdentityBinding)
    else None
  }

  function DeclareRule(s: State, op: FleetOp): Option<FoldError> {
    if op.signer != op.device then Some(DeclareNotSelfSigned(s.height))
    else if op.device !in s.members then Some(SignerNotMember(s.height))
    else if op.bundle.None? then Some(BadBundle(s.height))
    else if !Covers(EggMask(op.sigs), BundleMask(op.bundle.value)) then Some(DeclareUnproven(s.height))
    else if Find(s.bundles, op.device).Some? && !Covers(BundleMask(op.bundle.value), MaskFor(s.bundles, op.device)) then
      Some(CapabilityRegression(s.height))
    else None
  }

  function AddRule(o: Oracle, s: State, op: FleetOp): Option<FoldError> {
    var joined := Joined(op);
    if op.signer !in s.members then Some(SignerNotMember(s.height))
    else if op.device in s.members then Some(AddExistingMember(s.height))
    else if !Covers(BundleMask(joined), s.floor) then Some(BelowFloor(s.height))
    else if !ConsentHolds(o, op, joined, BundleMask(joined) + s.floor) then Some(BadConsent(s.height))
    else if AbsDiff(op.time, op.consentT) > CONSENT_WINDOW_OSC then Some(ConsentStale(s.height))
    else None
  }

  function RemoveRule(o: Oracle, s: State, op: FleetOp): Option<FoldError> {
    if op.signer !in s.members then Some(SignerNotMember(s.height))
    else if op.consent == [] && op.signer != op.device then Some(RemoveNotSelfSigned(s.height))
    else if op.consent != [] && op.signer == op.device then Some(RemoveApproverIsLeaver(s.height))
    else if op.consent != [] && !DepartHolds(o, op, BundleFor(s.bundles, op.device), s.floor) then
      Some(BadConsent(s.height))
    else if op.consent != [] && AbsDiff(op.time, op.consentT) > CONSENT_WINDOW_OSC then Some(ConsentStale(s.height))
    else if op.device !in s.members then Some(RemoveNonMember(s.height))
    else None
  }

  function LockRule(s: State, op: FleetOp): Option<FoldError> {
    if op.signer !in s.members then Some(SignerNotMember(s.height))
    else if op.device !in s.members || op.device == op.signer || op.device in s.locked then
      Some(LockMalformed(s.height))
    else None
  }

  function UnlockRule(s: State, op: FleetOp): Option<FoldError> {
    if op.signer !in s.members then Some(SignerNotMember(s.height))
    else if op.device !in s.locked then Some(LockMalformed(s.height))
    else None
  }

  function CheckpointRule(s: State, op: FleetOp): Option<FoldError> {
    if op.signer !in s.members then Some(SignerNotMember(s.height))
    else if op.ckptK == 0 || op.ckptCommit == 0 || op.device != op.signer then Some(CheckpointMalformed(s.height))
    else if op.ckptK != s.lastK + 1 then Some(CheckpointOutOfSequence(s.height))
    else None
  }

  function KindRule(o: Oracle, s: State, op: FleetOp): Option<FoldError> {
    match op.kind
    case Genesis => GenesisRule(o, s, op)
    case Declare => DeclareRule(s, op)
    case Add => AddRule(o, s, op)
    case Remove => RemoveRule(o, s, op)
    case Lock => LockRule(s, op)
    case Unlock => UnlockRule(s, op)
    case Checkpoint => CheckpointRule(s, op)
  }

  // What stops an op whatever its kind: its link, its own shape, its signer's standing.
  function Screened(o: Oracle, s: State, op: FleetOp): Option<FoldError> {
    var linked := Linked(s, op);
    if linked.Some? then linked
    else
      var structural := Structural(op, s.height);
      if structural.Some? then structural else Authority(o, s, op)
  }

  // Why an op is refused, in the order the rules are read; None when it folds.
  function Refusal(o: Oracle, s: State, op: FleetOp): Option<FoldError> {
    var screened := Screened(o, s, op);
    if screened.Some? then screened else KindRule(o, s, op)
  }

  // ---- the state after ----

  function MembersAfter(s: State, op: FleetOp): seq<Key32> {
    if op.kind == Genesis || op.kind == Add then s.members + [op.device]
    else if op.kind == Remove then Without(s.members, op.device)
    else s.members
  }

  function LockedAfter(s: State, op: FleetOp): seq<Key32> {
    if op.kind == Lock then s.locked + [op.device]
    else if op.kind == Remove || op.kind == Unlock then Without(s.locked, op.device)
    else s.locked
  }

  function BundlesAfter(s: State, op: FleetOp): seq<Entry<KeyBundle>> {
    if op.kind == Add then s.bundles + [Entry(op.device, Joined(op))]
    else if op.kind == Declare && op.bundle.Some? then Upsert(s.bundles, op.device, op.bundle.value)
    else s.bundles
  }

  // What every unlocked member can sign with: all three families when there is none.
  function Live(members: seq<Key32>, locked: seq<Key32>, bundles: seq<Entry<KeyBundle>>): Mask {
    if members == [] then MASK_ALL
    else
      var rest, d := Live(members[..|members| - 1], locked, bundles), members[|members| - 1];
      if d in locked then rest else rest * MaskFor(bundles, d)
  }

  lemma {:induction false} LiveIsShared(members: seq<Key32>, locked: seq<Key32>, bundles: seq<Entry<KeyBundle>>, x: nat)
    ensures x in Live(members, locked, bundles) <==>
            x in MASK_ALL && forall d :: d in members && d !in locked ==> x in MaskFor(bundles, d)
  {
    if members != [] {
      var front := members[..|members| - 1];
      LiveIsShared(front, locked, bundles, x);
      assert members == front + [members[|members| - 1]];
    }
  }

  function After(o: Oracle, s: State, op: FleetOp): State {
    var members, locked, bundles := MembersAfter(s, op), LockedAfter(s, op), BundlesAfter(s, op);
    State(
      s.identity, members, locked, bundles,
      if op.plate.Some? then Upsert(s.plates, op.device, op.plate.value) else s.plates,
      if op.plateKind != UNSTATED then Upsert(s.kinds, op.device, op.plateKind) else s.kinds,
      s.floor + Live(members, locked, bundles),
      o.chainHash(op),
      if op.kind == Checkpoint then op.ckptK else s.lastK,
      s.height + 1)
  }

  function Step(o: Oracle, s: State, op: FleetOp): Result<State, FoldError> {
    var why := Refusal(o, s, op);
    if why.Some? then Err(why.value) else Ok(After(o, s, op))
  }

  // ---- the walk ----

  // The state after the first n ops, or the first refusal among them.
  function Run(o: Oracle, ops: seq<FleetOp>, n: nat): Result<State, FoldError>
    requires 0 < |ops| && n <= |ops|
    decreases n, 0
  {
    if n == 0 then Ok(Init(ops[0].handleProof))
    else
      var why := RefusalAt(o, ops, n - 1);
      if why.Some? then Err(why.value) else Ok(Advance(o, ops, n - 1))
  }

  // What stops the walk at op i or before it.
  function RefusalAt(o: Oracle, ops: seq<FleetOp>, i: nat): Option<FoldError>
    requires i < |ops|
    decreases i, 2
  {
    match Run(o, ops, i)
    case Err(e) => Some(e)
    case Ok(_) => Judged(o, ops, i)
  }

  function Judged(o: Oracle, ops: seq<FleetOp>, i: nat): Option<FoldError>
    requires i < |ops| && Run(o, ops, i).Ok?
    decreases i, 1
  {
    Refusal(o, Run(o, ops, i).value, ops[i])
  }

  function Advance(o: Oracle, ops: seq<FleetOp>, i: nat): State
    requires i < |ops| && RefusalAt(o, ops, i).None?
    decreases i, 3
  {
    After(o, Run(o, ops, i).value, ops[i])
  }

  function FoldChain(o: Oracle, ops: seq<FleetOp>): Result<State, FoldError> {
    if ops == [] then Err(EmptyChain) else Run(o, ops, |ops|)
  }

  predicate Folds(o: Oracle, ops: seq<FleetOp>) {
    FoldChain(o, ops).Ok?
  }

  // ---- the loop ----

  method LiveMask(members: seq<Key32>, locked: seq<Key32>, bundles: seq<Entry<KeyBundle>>) returns (live: Mask)
    ensures live == Live(members, locked, bundles)
  {
    live := MASK_ALL;
    for i := 0 to |members|
      invariant live == Live(members[..i], locked, bundles)
    {
      assert members[..i + 1][..i] == members[..i];
      if members[i] !in locked {
        live := live * MaskFor(bundles, members[i]);
      }
    }
    assert members[..|members|] == members;
  }

  // Every egg, each against the key its scheme names.
  method VerifySigs(o: Oracle, op: FleetOp, b: KeyBundle) returns (ok: bool)
    ensures ok == SigsHold(o, op, b)
  {
    if op.sigs == [] {
      return false;
    }
    var msg := o.signing(op);
    for n := 0 to |op.sigs|
      invariant forall i :: 0 <= i < n ==> SigHolds(o, op, b, op.sigs[i])
    {
      var egg := op.sigs[n];
      if egg.scheme == ED25519 {
        ok := VerifyEgg(o.verify, ED25519, Be(op.signer, 32), msg, egg.sig);
      } else {
        var pk := Pubkey(b, egg.scheme);
        ok := pk.Some? && VerifyEgg(o.verify, egg.scheme, pk.value, msg, egg.sig);
      }
      assert ok == SigHolds(o, op, b, op.sigs[n]);
      if !ok {
        return false;
      }
    }
    return true;
  }

  // The checks that read the op alone.
  method CheckStructure(op: FleetOp, i: nat) returns (why: Option<FoldError>)
    ensures why == Structural(op, i)
  {
    if op.time < 0 || op.time >= OP_TIME_MAX_OSC {
      return Some(ImpossibleTime(i));
    }
    if op.kind != Genesis && (op.identity != 0 || op.identitySig != []) {
      return Some(StrayIdentityBinding(i));
    }
    if !(op.kind == Add || op.kind == Remove) && (op.consentT != 0 || op.consent != []) {
      return Some(StrayConsent(i));
    }
    if op.kind == Remove && (op.consentT != 0) != (op.consent != []) {
      return Some(StrayConsent(i));
    }
    if op.kind != Checkpoint && (op.ckptK != 0 || op.ckptCommit != 0 || op.ckptEpoch != 0) {
      return Some(StrayCheckpoint(i));
    }
    if !(op.kind == Add || op.kind == Declare) && op.bundle.Some? {
      return Some(StrayBundle(i));
    }
    if op.plate.Some? && (!PlateKindOp(op.kind) || !Plated(op.version)) {
      return Some(StrayPlate(i));
    }
    if op.plateKind != UNSTATED && (!PlateKindOp(op.kind) || op.version != V4 || !KnownPlateKind(op.plateKind)) {
      return Some(StrayPlateKind(i));
    }
    if op.bundle.Some? {
      if Ed25519Of(op.bundle.value) != op.device {
        return Some(BundleMismatch(i));
      }
    }
    return None;
  }

  // The checks every kind meets, on the walk's own vectors.
  method Screen(
    o: Oracle, op: FleetOp, i: nat, identity: Key32, expectedPrev: Key32, floor: Mask, locked: seq<Key32>,
    bundles: seq<Entry<KeyBundle>>, ghost s: State) returns (why: Option<FoldError>)
    requires s.identity == identity && s.prev == expectedPrev && s.floor == floor && s.height == i
    requires s.locked == locked && s.bundles == bundles
    ensures why == Screened(o, s, op)
  {
    if op.handleProof != identity {
      return Some(InconsistentHandleProof(i));
    }
    if op.prevHash != expectedPrev {
      return Some(BrokenChain(i));
    }
    var stray := CheckStructure(op, i);
    if stray.Some? {
      return stray;
    }
    if op.signer in locked {
      return Some(SignerLocked(i));
    }
    if !Covers(EggMask(op.sigs), floor) {
      return Some(InsufficientEggs(i));
    }
    var verifyWith := if op.kind == Declare && op.bundle.Some? then op.bundle.value else BundleFor(bundles, op.signer);
    var ok := VerifySigs(o, op, verifyWith);
    return if ok then None else Some(BadSignature(i));
  }

  method ConsentStands(o: Oracle, op: FleetOp, joined: KeyBundle, required: Mask) returns (ok: bool)
    ensures ok == ConsentHolds(o, op, joined, required)
  {
    ok := VerifyEggs(o.verify, op.consent, joined, o.bindRequest(op), required);
  }

  method JoinCheck(
    o: Oracle, op: FleetOp, i: nat, floor: Mask, members: seq<Key32>, ghost s: State) returns (why: Option<FoldError>)
    requires s.members == members && s.floor == floor && s.height == i
    ensures why == AddRule(o, s, op)
  {
    if op.signer !in members {
      return Some(SignerNotMember(i));
    }
    if op.device in members {
      return Some(AddExistingMember(i));
    }
    var joined := Joined(op);
    if !Covers(BundleMask(joined), floor) {
      return Some(BelowFloor(i));
    }
    var consents := ConsentStands(o, op, joined, BundleMask(joined) + floor);
    if !consents {
      return Some(BadConsent(i));
    }
    if AbsDiff(op.time, op.consentT) > CONSENT_WINDOW_OSC {
      return Some(ConsentStale(i));
    }
    return None;
  }

  method LeaveCheck(
    o: Oracle, op: FleetOp, i: nat, floor: Mask, members: seq<Key32>, bundles: seq<Entry<KeyBundle>>, ghost s: State)
    returns (why: Option<FoldError>)
    requires s.members == members && s.bundles == bundles && s.floor == floor && s.height == i
    ensures why == RemoveRule(o, s, op)
  {
    if op.signer !in members {
      return Some(SignerNotMember(i));
    }
    if op.consent == [] {
      if op.signer != op.device {
        return Some(RemoveNotSelfSigned(i));
      }
    } else {
      if op.signer == op.device {
        return Some(RemoveApproverIsLeaver(i));
      }
      var consents := VerifyEggs(o.verify, op.consent, BundleFor(bundles, op.device), o.departRequest(op), floor);
      if !consents {
        return Some(BadConsent(i));
      }
      if AbsDiff(op.time, op.consentT) > CONSENT_WINDOW_OSC {
        return Some(ConsentStale(i));
      }
    }
    return if op.device in members then None else Some(RemoveNonMember(i));
  }

  // The kind's own checks, and its changes to the vectors when they pass.
  method ApplyKind(
    o: Oracle, op: FleetOp, i: nat, floor: Mask, lastK0: nat, members0: seq<Key32>, locked0: seq<Key32>,
    bundles0: seq<Entry<KeyBundle>>, ghost s: State)
    returns (why: Option<FoldError>, members: seq<Key32>, locked: seq<Key32>, bundles: seq<Entry<KeyBundle>>,
             lastK: nat)
    requires s.members == members0 && s.locked == locked0 && s.bundles == bundles0
    requires s.floor == floor && s.lastK == lastK0 && s.height == i
    ensures why == KindRule(o, s, op)
    ensures why.None?
            ==> members == MembersAfter(s, op) && locked == LockedAfter(s, op) && bundles == BundlesAfter(s, op)
    ensures why.None? ==> lastK == if op.kind == Checkpoint then op.ckptK else s.lastK
  {
    why, members, locked, bundles, lastK := None, members0, locked0, bundles0, lastK0;
    match op.kind {
      case Genesis =>
        if i != 0 || members != [] {
          why := Some(NotGenesisFirst);
        } else if op.signer != op.device {
          why := Some(GenesisNotSelfSigned);
        } else if op.identity == 0 {
          why := Some(BadIdentityBinding);
        } else if op.identitySig != [] && !o.identityBinding(op) {
          why := Some(BadIdentityBinding);
        } else {
          members := members + [op.device];
        }
      case Declare =>
        if op.signer != op.device {
          why := Some(DeclareNotSelfSigned(i));
        } else if op.device !in members {
          why := Some(SignerNotMember(i));
        } else if op.bundle.None? {
          why := Some(BadBundle(i));
        } else if !Covers(EggMask(op.sigs), BundleMask(op.bundle.value)) {
          why := Some(DeclareUnproven(i));
        } else {
          var slot := Find(bundles, op.device);
          if slot.Some? && !Covers(BundleMask(op.bundle.value), BundleMask(slot.value)) {
            why := Some(CapabilityRegression(i));
          } else {
            bundles := Upsert(bundles, op.device, op.bundle.value);
          }
        }
      case Add =>
        why := JoinCheck(o, op, i, floor, members, s);
        if why.None? {
          members, bundles := members + [op.device], bundles + [Entry(op.device, Joined(op))];
        }
      case Remove =>
        why := LeaveCheck(o, op, i, floor, members, bundles, s);
        if why.None? {
          members, locked := Without(members, op.device), Without(locked, op.device);
        }
      case Lock =>
        if op.signer !in members {
          why := Some(SignerNotMember(i));
        } else if op.device !in members || op.device == op.signer || op.device in locked {
          why := Some(LockMalformed(i));
        } else {
          locked := locked + [op.device];
        }
      case Unlock =>
        if op.signer !in members {
          why := Some(SignerNotMember(i));
        } else if op.device !in locked {
          why := Some(LockMalformed(i));
        } else {
          locked := Without(locked, op.device);
        }
      case Checkpoint =>
        if op.signer !in members {
          why := Some(SignerNotMember(i));
        } else if op.ckptK == 0 || op.ckptCommit == 0 || op.device != op.signer {
          why := Some(CheckpointMalformed(i));
        } else if op.ckptK != lastK + 1 {
          why := Some(CheckpointOutOfSequence(i));
        } else {
          lastK := op.ckptK;
        }
    }
  }

  // One turn of the walk on its vectors: where it stops the fold has its error, else the state after.
  method Turn(
    o: Oracle, ghost ops: seq<FleetOp>, op: FleetOp, i: nat, identity: Key32, expectedPrev: Key32, floor0: Mask,
    lastK0: nat,
    members0: seq<Key32>, locked0: seq<Key32>, bundles0: seq<Entry<KeyBundle>>, plates0: seq<Entry<Key32>>,
    kinds0: seq<Entry<nat>>)
    returns (why: Option<FoldError>, floor: Mask, lastK: nat, members: seq<Key32>, locked: seq<Key32>,
             bundles: seq<Entry<KeyBundle>>, plates: seq<Entry<Key32>>, kinds: seq<Entry<nat>>)
    requires i < |ops| && op == ops[i]
    requires Run(o, ops, i)
             == Ok(State(identity, members0, locked0, bundles0, plates0, kinds0, floor0, expectedPrev, lastK0, i))
    ensures why.Some? ==> Run(o, ops, |ops|) == Err(why.value)
    ensures why.None? ==>
              Run(o, ops, i + 1)
                == Ok(State(identity, members, locked, bundles, plates, kinds, floor, o.chainHash(op), lastK, i + 1))
  {
    ghost var s := State(identity, members0, locked0, bundles0, plates0, kinds0, floor0, expectedPrev, lastK0, i);
    floor, lastK, members, locked, bundles, plates, kinds :=
      floor0, lastK0, members0, locked0, bundles0, plates0, kinds0;
    why := Screen(o, op, i, identity, expectedPrev, floor, locked, bundles, s);
    if why.Some? {
      StopsHere(o, ops, i, s, why.value);
      return;
    }
    if op.plate.Some? {
      plates := Upsert(plates, op.device, op.plate.value);
    }
    if op.plateKind != UNSTATED {
      kinds := Upsert(kinds, op.device, op.plateKind);
    }
    why, members, locked, bundles, lastK := ApplyKind(o, op, i, floor, lastK, members, locked, bundles, s);
    if why.Some? {
      StopsHere(o, ops, i, s, why.value);
      return;
    }
    var live := LiveMask(members, locked, bundles);
    floor := floor + live;
    GoesOn(o, ops, i, s);
    AfterIs(o, s, op, State(identity, members, locked, bundles, plates, kinds, floor, o.chainHash(op), lastK, i + 1));
  }

  // The walk as the source makes it: one loop over mutable vectors that stops at the first refusal.
  method FoldInner(o: Oracle, ops: seq<FleetOp>) returns (r: Result<State, FoldError>)
    ensures r == FoldChain(o, ops)
  {
    if ops == [] {
      return Err(EmptyChain);
    }
    r := Walk(o, ops);
  }

  method Walk(o: Oracle, ops: seq<FleetOp>) returns (r: Result<State, FoldError>)
    requires ops != []
    ensures r == Run(o, ops, |ops|)
  {
    var members: seq<Key32>, locked: seq<Key32>, bundles: seq<Entry<KeyBundle>> := [], [], [];
    var plates: seq<Entry<Key32>>, kinds: seq<Entry<nat>> := [], [];
    var floor, expectedPrev, lastK := MASK_BASE, 0, 0;
    var identity := ops[0].handleProof;
    RunStarts(o, ops);
    for i := 0 to |ops|
      invariant Run(o, ops, i)
                == Ok(State(identity, members, locked, bundles, plates, kinds, floor, expectedPrev, lastK, i))
    {
      var op, why := ops[i], None;
      why, floor, lastK, members, locked, bundles, plates, kinds :=
        Turn(o, ops, op, i, identity, expectedPrev, floor, lastK, members, locked, bundles, plates, kinds);
      if why.Some? {
        return Err(why.value);
      }
      expectedPrev := o.chainHash(op);
    }
    r := Ok(State(identity, members, locked, bundles, plates, kinds, floor, expectedPrev, lastK, |ops|));
  }

  lemma RunStarts(o: Oracle, ops: seq<FleetOp>)
    requires ops != []
    ensures Run(o, ops, 0) == Ok(Init(ops[0].handleProof))
  {
  }

  // The first refusal ends the walk.
  lemma StopsHere(o: Oracle, ops: seq<FleetOp>, i: nat, s: State, why: FoldError)
    requires i < |ops| && Run(o, ops, i) == Ok(s) && Refusal(o, s, ops[i]) == Some(why)
    ensures FoldChain(o, ops) == Err(why)
  {
    OneMore(o, ops, i, s);
    StepRefuses(o, s, ops[i], why);
    ErrorIsFinal(o, ops, i + 1, why);
  }

  lemma StepRefuses(o: Oracle, s: State, op: FleetOp, why: FoldError)
    requires Refusal(o, s, op) == Some(why)
    ensures Step(o, s, op) == Err(why)
  {
  }

  lemma ErrorIsFinal(o: Oracle, ops: seq<FleetOp>, m: nat, why: FoldError)
    requires 0 < m <= |ops| && Run(o, ops, m) == Err(why)
    ensures FoldChain(o, ops) == Err(why)
  {
    RefusalIsFinal(o, ops, m, |ops|);
  }

  // The state an accepted op leaves, update by update.
  lemma AfterIs(o: Oracle, s: State, op: FleetOp, next: State)
    requires next.identity == s.identity && next.height == s.height + 1 && next.prev == o.chainHash(op)
    requires next.members == MembersAfter(s, op) && next.locked == LockedAfter(s, op)
             && next.bundles == BundlesAfter(s, op)
    requires next.plates == if op.plate.Some? then Upsert(s.plates, op.device, op.plate.value) else s.plates
    requires next.kinds == if op.plateKind != UNSTATED then Upsert(s.kinds, op.device, op.plateKind) else s.kinds
    requires next.floor == s.floor + Live(next.members, next.locked, next.bundles)
    requires next.lastK == if op.kind == Checkpoint then op.ckptK else s.lastK
    ensures next == After(o, s, op)
  {
  }

  lemma GoesOn(o: Oracle, ops: seq<FleetOp>, i: nat, s: State)
    requires i < |ops| && Run(o, ops, i) == Ok(s) && Refusal(o, s, ops[i]).None?
    ensures Run(o, ops, i + 1) == Ok(After(o, s, ops[i]))
  {
    OneMore(o, ops, i, s);
  }

  // One turn of the walk is one Step.
  lemma OneMore(o: Oracle, ops: seq<FleetOp>, i: nat, s: State)
    requires i < |ops| && Run(o, ops, i) == Ok(s)
    ensures Run(o, ops, i + 1) == Step(o, s, ops[i])
  {
    assert Judged(o, ops, i) == Refusal(o, s, ops[i]);
    assert RefusalAt(o, ops, i) == Judged(o, ops, i);
  }

  lemma {:induction false} RefusalIsFinal(o: Oracle, ops: seq<FleetOp>, m: nat, n: nat)
    requires 0 < |ops| && m <= n <= |ops| && Run(o, ops, m).Err?
    ensures Run(o, ops, n) == Run(o, ops, m)
    decreases n - m
  {
    if m < n {
      RefusalIsFinal(o, ops, m, n - 1);
    }
  }

  // ---- prefixes ----

  lemma {:induction false} RunOnPrefix(o: Oracle, ops: seq<FleetOp>, m: nat, n: nat)
    requires 0 < m <= |ops| && n <= m
    ensures Run(o, ops[..m], n) == Run(o, ops, n)
  {
    if n > 0 {
      RunOnPrefix(o, ops, m, n - 1);
      RefusedAlike(o, ops[..m], ops, n - 1);
    }
  }

  lemma RefusedAlike(o: Oracle, a: seq<FleetOp>, b: seq<FleetOp>, i: nat)
    requires i < |a| && i < |b| && a[i] == b[i] && Run(o, a, i) == Run(o, b, i)
    ensures RefusalAt(o, a, i) == RefusalAt(o, b, i)
    ensures RefusalAt(o, a, i).None? ==> Advance(o, a, i) == Advance(o, b, i)
  {
  }

  // Folding is prefix-closed, and a prefix's fold is the walk's own intermediate state.
  lemma PrefixFolds(o: Oracle, ops: seq<FleetOp>, n: nat)
    requires 0 < n <= |ops|
    ensures FoldChain(o, ops[..n]) == Run(o, ops, n)
    ensures Folds(o, ops) ==> Folds(o, ops[..n])
  {
    RunOnPrefix(o, ops, n, n);
    if Run(o, ops, n).Err? {
      RefusalIsFinal(o, ops, n, |ops|);
    }
  }

  lemma RunOk(o: Oracle, ops: seq<FleetOp>, n: nat)
    requires Folds(o, ops) && n <= |ops|
    ensures Run(o, ops, n).Ok?
  {
    if Run(o, ops, n).Err? {
      RefusalIsFinal(o, ops, n, |ops|);
    }
  }

  // The state before op i of a folding chain, and what its acceptance means.
  ghost function StateAt(o: Oracle, ops: seq<FleetOp>, i: nat): State
    requires Folds(o, ops) && i <= |ops|
  {
    RunOk(o, ops, i);
    Run(o, ops, i).value
  }

  lemma Accepted(o: Oracle, ops: seq<FleetOp>, i: nat)
    requires Folds(o, ops) && i < |ops|
    ensures Refusal(o, StateAt(o, ops, i), ops[i]).None?
    ensures StateAt(o, ops, i + 1) == After(o, StateAt(o, ops, i), ops[i])
  {
    RunOk(o, ops, i);
    RunOk(o, ops, i + 1);
    OneMore(o, ops, i, StateAt(o, ops, i));
    StepAccepts(o, StateAt(o, ops, i), ops[i]);
  }

  lemma StepAccepts(o: Oracle, s: State, op: FleetOp)
    ensures Step(o, s, op).Ok? <==> Refusal(o, s, op).None?
    ensures Step(o, s, op).Ok? ==> Step(o, s, op).value == After(o, s, op)
  {
  }

  // Folding a longer chain is folding its prefix and then the new op.
  lemma FoldSnoc(o: Oracle, ops: seq<FleetOp>, op: FleetOp)
    requires ops != []
    ensures FoldChain(o, ops + [op]) ==
            match FoldChain(o, ops)
            case Ok(s) => Step(o, s, op)
            case Err(e) => Err(e)
  {
    var longer := ops + [op];
    PrefixFolds(o, longer, |ops|);
    assert longer[..|ops|] == ops;
    if Folds(o, ops) {
      OneMore(o, longer, |ops|, FoldChain(o, ops).value);
    } else {
      RefusalIsFinal(o, longer, |ops|, |longer|);
    }
  }
}
