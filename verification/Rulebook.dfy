/**
 The rules of a chain without a walk: what each op must show, read off the ops before it alone.  The
 fold accepts exactly the chains that keep them.
 */
module Rulebook {
  import opened Wrappers
  import opened Bytes
  import opened Schemes
  import opened Assoc
  import opened FleetOps
  import opened Fold
  import opened Membership
  import opened Declared

  type Chain = seq<FleetOp>

  // ---- what the ops so far say ----

  predicate MemberIn(past: Chain, d: Key32) {
    var word := LastWord(past, |past|, d);
    word == Some(Genesis) || word == Some(Add)
  }

  predicate LockedIn(past: Chain, d: Key32) {
    LastLockWord(past, |past|, d) == Some(Lock)
  }

  // The keys a device is judged by: those its last Declare carried, or its first Add, or else Ed25519's.
  function JudgedBy(past: Chain, d: Key32): KeyBundle {
    match AnsweringOp(past, |past|, d)
    case None => KeyBundle([KeyEntry(ED25519, Be(d, 32))])
    case Some(i) => Offered(past[i])
  }

  // The keys an op gives its subject.
  function Offered(op: FleetOp): KeyBundle {
    if op.bundle.Some? then op.bundle.value else KeyBundle([KeyEntry(ED25519, Be(op.device, 32))])
  }

  ghost predicate HasScheme(b: KeyBundle, x: nat) {
    exists i :: 0 <= i < |b.keys| && b.keys[i].scheme == x
  }

  // Does every unlocked member hold scheme x?
  ghost predicate SharedBy(past: Chain, x: nat) {
    x <= SPHINCS_PLUS && forall d :: MemberIn(past, d) && !LockedIn(past, d) ==> HasScheme(JudgedBy(past, d), x)
  }

  // The floor: Ed25519, and every scheme that all unlocked members once shared.
  ghost predicate Demanded(past: Chain, x: nat) {
    x == ED25519 || exists m :: 0 < m <= |past| && SharedBy(past[..m], x)
  }

  // ---- signatures ----

  ghost predicate FirstUnder(b: KeyBundle, scheme: byte, i: nat) {
    i < |b.keys| && b.keys[i].scheme == scheme && forall j :: 0 <= j < i ==> b.keys[j].scheme != scheme
  }

  // The key a bundle holds under a scheme, its first.
  ghost predicate KeyUnder(b: KeyBundle, scheme: byte, key: seq<byte>) {
    exists i: nat :: FirstUnder(b, scheme, i) && b.keys[i].key == key
  }

  ghost predicate EggStands(v: Verify, e: Egg, b: KeyBundle, msg: seq<byte>) {
    e.scheme <= SPHINCS_PLUS && exists key :: KeyUnder(b, e.scheme, key) && v(e.scheme, key, msg, e.sig)
  }

  // Every egg of a consent under the subject's keys, and at least one.
  ghost predicate ConsentStands(v: Verify, eggs: seq<Egg>, b: KeyBundle, msg: seq<byte>) {
    eggs != [] && forall i :: 0 <= i < |eggs| ==> EggStands(v, eggs[i], b, msg)
  }

  // An op's own egg: Ed25519 under the signer's key itself, any other scheme under its bundle.
  ghost predicate SigStands(o: Oracle, op: FleetOp, b: KeyBundle, e: Egg) {
    if e.scheme == ED25519 then o.verify(ED25519, Be(op.signer, 32), o.signing(op), e.sig)
    else EggStands(o.verify, e, b, o.signing(op))
  }

  ghost predicate SigsStand(o: Oracle, op: FleetOp, b: KeyBundle) {
    op.sigs != [] && forall i :: 0 <= i < |op.sigs| ==> SigStands(o, op, b, op.sigs[i])
  }

  ghost predicate Carries(eggs: seq<Egg>, x: nat) {
    exists i :: 0 <= i < |eggs| && eggs[i].scheme == x
  }

  // ---- the rules ----

  // A stamp in range, and no field that the op's kind or version has no place for.
  predicate WellShaped(op: FleetOp) {
    && 0 <= op.time < 0x4000_0000_0000_0000
    && (op.kind == Genesis || (op.identity == 0 && op.identitySig == []))
    && (op.kind == Add || op.kind == Remove || (op.consentT == 0 && op.consent == []))
    && (op.kind == Remove ==> (op.consentT == 0 <==> op.consent == []))
    && (op.kind == Checkpoint || (op.ckptK == 0 && op.ckptCommit == 0 && op.ckptEpoch == 0))
    && (op.bundle.Some? ==> (op.kind == Add || op.kind == Declare) && Ed25519Of(op.bundle.value) == op.device)
    && (op.plate.Some? ==> (op.kind == Genesis || op.kind == Add || op.kind == Declare) && op.version in {V3, V4})
    && (op.plateKind != UNSTATED ==> (op.kind == Genesis || op.kind == Add || op.kind == Declare) && op.version == V4)
    && op.plateKind <= PLATE_PIPE
  }

  // One hour of oscillations either way.
  predicate InTheHour(op: FleetOp) {
    -3600 * OSCILLATIONS_PER_SECOND <= op.time - op.consentT <= 3600 * OSCILLATIONS_PER_SECOND
  }

  // The first op.
  ghost predicate Founds(o: Oracle, op: FleetOp) {
    && op.kind == Genesis && op.signer == op.device && op.prevHash == 0 && op.identity != 0
    && (op.identitySig != [] ==> o.identityBinding(op))
    && WellShaped(op)
    && Carries(op.sigs, ED25519) && SigsStand(o, op, KeyBundle([KeyEntry(ED25519, Be(op.signer, 32))]))
  }

  // The keys an op's eggs are checked under: a Declare's are its own.
  function SignedUnder(past: Chain, op: FleetOp): KeyBundle {
    if op.kind == Declare && op.bundle.Some? then op.bundle.value else JudgedBy(past, op.signer)
  }

  ghost predicate CarriesTheFloor(past: Chain, eggs: seq<Egg>) {
    forall x :: Demanded(past, x) ==> Carries(eggs, x)
  }

  // A consent of the subject, in time, with an egg for every scheme of the floor.
  ghost predicate Consents(o: Oracle, past: Chain, op: FleetOp, b: KeyBundle, msg: seq<byte>) {
    ConsentStands(o.verify, op.consent, b, msg) && CarriesTheFloor(past, op.consent) && InTheHour(op)
  }

  ghost predicate AddStands(o: Oracle, past: Chain, op: FleetOp) {
    && !MemberIn(past, op.device)
    && (forall x :: Demanded(past, x) ==> HasScheme(Offered(op), x))
    && Consents(o, past, op, Offered(op), o.bindRequest(op))
    && (forall x :: HasScheme(Offered(op), x) ==> Carries(op.consent, x))
  }

  ghost predicate RemoveStands(o: Oracle, past: Chain, op: FleetOp) {
    && MemberIn(past, op.device)
    && if op.consent == [] then op.signer == op.device
       else op.signer != op.device && Consents(o, past, op, JudgedBy(past, op.device), o.departRequest(op))
  }

  ghost predicate DeclareStands(past: Chain, op: FleetOp) {
    && op.signer == op.device && op.bundle.Some?
    && (forall x :: HasScheme(op.bundle.value, x) ==> Carries(op.sigs, x))
    && (AnsweringOp(past, |past|, op.device).Some?
        ==> forall x :: HasScheme(JudgedBy(past, op.device), x) ==> HasScheme(op.bundle.value, x))
  }

  ghost predicate KindStands(o: Oracle, past: Chain, op: FleetOp) {
    match op.kind
    case Genesis => false
    case Add => AddStands(o, past, op)
    case Remove => RemoveStands(o, past, op)
    case Declare => DeclareStands(past, op)
    case Lock => MemberIn(past, op.device) && op.device != op.signer && !LockedIn(past, op.device)
    case Unlock => LockedIn(past, op.device)
    case Checkpoint => op.ckptK == Checkpoints(past, |past|) + 1 && op.ckptCommit != 0 && op.device == op.signer
  }

  // Every later op: linked to the one before, signed by an unlocked member with the whole floor.
  ghost predicate Follows(o: Oracle, past: Chain, op: FleetOp)
    requires past != []
  {
    && op.handleProof == past[0].handleProof && op.prevHash == o.chainHash(past[|past| - 1])
    && WellShaped(op)
    && MemberIn(past, op.signer) && !LockedIn(past, op.signer)
    && CarriesTheFloor(past, op.sigs) && SigsStand(o, op, SignedUnder(past, op))
    && KindStands(o, past, op)
  }

  ghost predicate KeepsTheRules(o: Oracle, ops: Chain) {
    ops != [] && Founds(o, ops[0]) && forall i :: 0 < i < |ops| ==> Follows(o, ops[..i], ops[i])
  }

  // ---- the parts agree ----

  lemma {:induction false} FoundIsFirst(b: KeyBundle, scheme: byte, key: seq<byte>)
    ensures FindKey(b.keys, scheme) == Some(key) <==> KeyUnder(b, scheme, key)
    decreases |b.keys|
  {
    if b.keys != [] {
      var rest := KeyBundle(b.keys[1..]);
      FoundIsFirst(rest, scheme, key);
      if b.keys[0].scheme == scheme {
        assert FirstUnder(b, scheme, 0) && forall i: nat :: FirstUnder(b, scheme, i) ==> i == 0;
      } else {
        if i: nat :| FirstUnder(b, scheme, i) && b.keys[i].key == key {
          assert FirstUnder(rest, scheme, i - 1);
        }
        if i: nat :| FirstUnder(rest, scheme, i) && rest.keys[i].key == key {
          assert FirstUnder(b, scheme, i + 1);
        }
      }
    }
  }

  lemma OneKeyUnder(b: KeyBundle, scheme: byte, p: seq<byte>, q: seq<byte>)
    requires KeyUnder(b, scheme, p) && KeyUnder(b, scheme, q)
    ensures p == q
  {
    FoundIsFirst(b, scheme, p);
    FoundIsFirst(b, scheme, q);
  }

  lemma KeyOf(b: KeyBundle, x: nat) returns (key: seq<byte>)
    requires HasScheme(b, x)
    ensures x < 256 && KeyUnder(b, x, key)
  {
    var i :| 0 <= i < |b.keys| && b.keys[i].scheme == x;
    key := FindKey(b.keys, x).value;
    FoundIsFirst(b, x, key);
  }

  lemma EggIff(v: Verify, e: Egg, b: KeyBundle, msg: seq<byte>)
    ensures EggVerifies(v, e, b, msg) <==> EggStands(v, e, b, msg)
  {
    var pk := FindKey(b.keys, e.scheme);
    if pk.Some? {
      FoundIsFirst(b, e.scheme, pk.value);
    }
    if e.scheme <= SPHINCS_PLUS && exists key :: KeyUnder(b, e.scheme, key) && v(e.scheme, key, msg, e.sig) {
      var key :| KeyUnder(b, e.scheme, key) && v(e.scheme, key, msg, e.sig);
      FoundIsFirst(b, e.scheme, key);
    }
  }

  lemma MaskIs(b: KeyBundle, x: nat)
    ensures x in BundleMask(b) <==> HasScheme(b, x)
  {
  }

  // Once every listed egg verifies, no tag is past the mask's bits.
  lemma CoversIff(eggs: seq<Egg>, required: Mask)
    requires forall i :: 0 <= i < |eggs| ==> eggs[i].scheme < 16
    ensures Covers(EggMask(eggs), required) <==> forall x :: x in required ==> Carries(eggs, x)
  {
  }

  lemma ConsentIff(v: Verify, eggs: seq<Egg>, b: KeyBundle, msg: seq<byte>, required: Mask)
    ensures EggsHold(v, eggs, b, msg, required)
            <==> ConsentStands(v, eggs, b, msg) && forall x :: x in required ==> Carries(eggs, x)
  {
    forall i | 0 <= i < |eggs| ensures EggVerifies(v, eggs[i], b, msg) <==> EggStands(v, eggs[i], b, msg) {
      EggIff(v, eggs[i], b, msg);
    }
    if ConsentStands(v, eggs, b, msg) {
      forall i | 0 <= i < |eggs| ensures eggs[i].scheme < 16 {
        assert EggStands(v, eggs[i], b, msg);
      }
      CoversIff(eggs, required);
    }
  }

  lemma SigsIff(o: Oracle, op: FleetOp, b: KeyBundle)
    ensures SigsHold(o, op, b) <==> SigsStand(o, op, b)
  {
    forall i | 0 <= i < |op.sigs| ensures SigHolds(o, op, b, op.sigs[i]) <==> SigStands(o, op, b, op.sigs[i]) {
      EggIff(o.verify, op.sigs[i], b, o.signing(op));
    }
  }

  lemma ShapeIff(op: FleetOp, i: nat)
    ensures Structural(op, i).None? <==> WellShaped(op)
  {
  }

  lemma HourIff(op: FleetOp)
    ensures AbsDiff(op.time, op.consentT) <= CONSENT_WINDOW_OSC <==> InTheHour(op)
  {
  }

  // ---- the fold's state is what the ops say ----

  ghost predicate Reads(past: Chain, s: State) {
    && (forall d :: d in s.members <==> MemberIn(past, d))
    && (forall d :: d in s.locked <==> LockedIn(past, d))
    && (forall d :: BundleFor(s.bundles, d) == JudgedBy(past, d))
    && (forall d :: Find(s.bundles, d).Some? <==> AnsweringOp(past, |past|, d).Some?)
  }

  lemma {:induction false} SpokenKinds(ops: Chain, n: nat, d: Key32)
    requires n <= |ops|
    ensures LastWord(ops, n, d) in {None, Some(Genesis), Some(Add), Some(Remove)}
  {
    if n > 0 {
      SpokenKinds(ops, n - 1, d);
    }
  }

  lemma MaskForIs(bundles: seq<Entry<KeyBundle>>, d: Key32)
    ensures MaskFor(bundles, d) == BundleMask(BundleFor(bundles, d))
  {
    assert Ed25519Only(d).keys[0].scheme == ED25519;
  }

  lemma StateReads(o: Oracle, past: Chain)
    requires Folds(o, past)
    ensures Reads(past, FoldChain(o, past).value)
  {
    var s := FoldChain(o, past).value;
    forall d ensures d in s.members <==> MemberIn(past, d) {
      MemberIffNotRemoved(o, past, |past|, d);
      SpokenKinds(past, |past|, d);
    }
    forall d ensures d in s.locked <==> LockedIn(past, d) {
      LockedIffLastWord(o, past, |past|, d);
    }
    forall d ensures BundleFor(s.bundles, d) == JudgedBy(past, d)
                     && (Find(s.bundles, d).Some? <==> AnsweringOp(past, |past|, d).Some?) {
      BundleIsLastDeclareElseFirstAdd(o, past, |past|, d);
    }
  }

  // What the unlocked members all hold.
  lemma LiveIs(past: Chain, s: State, x: nat)
    requires Reads(past, s)
    ensures x in Live(s.members, s.locked, s.bundles) <==> SharedBy(past, x)
  {
    LiveIsShared(s.members, s.locked, s.bundles, x);
    forall d ensures x in MaskFor(s.bundles, d) <==> HasScheme(JudgedBy(past, d), x) {
      MaskForIs(s.bundles, d);
      MaskIs(JudgedBy(past, d), x);
    }
  }

  lemma FloorGrows(o: Oracle, past: Chain)
    requires Folds(o, past)
    ensures var t := FoldChain(o, past).value;
            t.floor == StateAt(o, past, |past| - 1).floor + Live(t.members, t.locked, t.bundles)
  {
    Accepted(o, past, |past| - 1);
  }

  lemma OneOpDemands(past: Chain, x: nat)
    requires |past| == 1
    ensures Demanded(past, x) <==> x == ED25519 || SharedBy(past, x)
  {
    assert past[..1] == past;
  }

  // The floor is Ed25519 and every scheme that all unlocked members shared after some op.
  lemma {:induction false} FloorIsOnceShared(o: Oracle, past: Chain, x: nat)
    requires Folds(o, past)
    ensures x in FoldChain(o, past).value.floor <==> Demanded(past, x)
  {
    FloorGrows(o, past);
    StateReads(o, past);
    LiveIs(past, FoldChain(o, past).value, x);
    if |past| == 1 {
      OneOpDemands(past, x);
    } else {
      PrefixFolds(o, past, |past| - 1);
      FloorIsOnceShared(o, past[..|past| - 1], x);
      DemandedByOneMore(past, x);
    }
  }

  lemma DemandedByOneMore(past: Chain, x: nat)
    requires |past| > 1
    ensures Demanded(past, x) <==> Demanded(past[..|past| - 1], x) || SharedBy(past, x)
  {
    var front := past[..|past| - 1];
    assert past[..|past|] == past;
    assert forall m :: 0 < m <= |front| ==> front[..m] == past[..m];
    if m :| 0 < m <= |past| && SharedBy(past[..m], x) {
      assert m == |past| || SharedBy(front[..m], x);
    }
    if m :| 0 < m <= |front| && SharedBy(front[..m], x) {
      assert SharedBy(past[..m], x);
    }
  }

  // ---- one op ----

  // What the walk holds when it comes to the op after `past`.
  ghost predicate Stands(o: Oracle, past: Chain, s: State) {
    && past != [] && Reads(past, s)
    && s.identity == past[0].handleProof && s.prev == o.chainHash(past[|past| - 1])
    && s.lastK == Checkpoints(past, |past|) && s.height == |past|
    && (forall x :: x in s.floor <==> Demanded(past, x))
  }

  lemma FoldDemands(o: Oracle, past: Chain)
    requires Folds(o, past)
    ensures forall x :: x in FoldChain(o, past).value.floor <==> Demanded(past, x)
  {
    forall x ensures x in FoldChain(o, past).value.floor <==> Demanded(past, x) {
      FloorIsOnceShared(o, past, x);
    }
  }

  lemma FoldLinks(o: Oracle, past: Chain)
    requires Folds(o, past)
    ensures var s := FoldChain(o, past).value;
            && s.identity == past[0].handleProof && s.prev == o.chainHash(past[|past| - 1])
            && s.lastK == Checkpoints(past, |past|) && s.height == |past|
  {
    var n := |past|;
    FoldedStateIsGood(o, past, n);
    LastCheckpoint(o, past, n);
    PrevIs(o, past);
    assert StateAt(o, past, n) == FoldChain(o, past).value;
  }

  lemma PrevIs(o: Oracle, past: Chain)
    requires Folds(o, past)
    ensures StateAt(o, past, |past|).prev == o.chainHash(past[|past| - 1])
  {
    Accepted(o, past, |past| - 1);
  }

  lemma FoldStands(o: Oracle, past: Chain)
    requires Folds(o, past)
    ensures Stands(o, past, FoldChain(o, past).value)
  {
    StateReads(o, past);
    FoldLinks(o, past);
    FoldDemands(o, past);
  }

  lemma FloorCarried(o: Oracle, past: Chain, s: State, eggs: seq<Egg>)
    requires Stands(o, past, s)
    ensures (forall x :: x in s.floor ==> Carries(eggs, x)) <==> CarriesTheFloor(past, eggs)
  {
  }

  lemma CoversFloorIff(o: Oracle, past: Chain, s: State, eggs: seq<Egg>)
    requires Stands(o, past, s) && s.floor <= MASK_ALL
    ensures Covers(EggMask(eggs), s.floor) <==> CarriesTheFloor(past, eggs)
  {
    FloorCarried(o, past, s, eggs);
    assert forall x :: x in s.floor ==> x < 16;
    assert forall x :: x in EggMask(eggs) <==> Carries(eggs, x) && x < 16;
  }

  lemma FloorIsKnown(past: Chain, x: nat)
    requires Demanded(past, x)
    ensures x in MASK_ALL
  {
  }

  // The screen: link, shape, an unlocked signer, the floor, the signatures.
  ghost predicate PassesTheScreen(o: Oracle, past: Chain, op: FleetOp)
    requires past != []
  {
    && op.handleProof == past[0].handleProof && op.prevHash == o.chainHash(past[|past| - 1])
    && WellShaped(op) && !LockedIn(past, op.signer)
    && CarriesTheFloor(past, op.sigs) && SigsStand(o, op, SignedUnder(past, op))
  }

  lemma ScreenIff(o: Oracle, past: Chain, s: State, op: FleetOp)
    requires Stands(o, past, s)
    ensures Screened(o, s, op).None? <==> PassesTheScreen(o, past, op)
  {
    ShapeIff(op, s.height);
    forall x | x in s.floor ensures x in MASK_ALL { FloorIsKnown(past, x); }
    CoversFloorIff(o, past, s, op.sigs);
    SigsIff(o, op, VerifyWith(s, op));
    assert VerifyWith(s, op) == SignedUnder(past, op);
  }

  lemma ConsentsIff(o: Oracle, past: Chain, s: State, op: FleetOp, b: KeyBundle, msg: seq<byte>)
    requires Stands(o, past, s)
    ensures EggsHold(o.verify, op.consent, b, msg, s.floor) && AbsDiff(op.time, op.consentT) <= CONSENT_WINDOW_OSC
            <==> Consents(o, past, op, b, msg)
  {
    ConsentIff(o.verify, op.consent, b, msg, s.floor);
    FloorCarried(o, past, s, op.consent);
    HourIff(op);
  }

  lemma AddIff(o: Oracle, past: Chain, s: State, op: FleetOp)
    requires Stands(o, past, s)
    ensures AddRule(o, s, op).None? <==> MemberIn(past, op.signer) && AddStands(o, past, op)
  {
    var joined := Offered(op);
    assert Joined(op) == joined;
    var all := BundleMask(joined) + s.floor;
    forall x ensures x in BundleMask(joined) <==> HasScheme(joined, x) { MaskIs(joined, x); }
    ConsentIff(o.verify, op.consent, joined, o.bindRequest(op), all);
    ConsentIff(o.verify, op.consent, joined, o.bindRequest(op), s.floor);
    ConsentsIff(o, past, s, op, joined, o.bindRequest(op));
    assert Covers(BundleMask(joined), s.floor) <==> forall x :: Demanded(past, x) ==> HasScheme(joined, x);
  }

  lemma RemoveIff(o: Oracle, past: Chain, s: State, op: FleetOp)
    requires Stands(o, past, s)
    ensures RemoveRule(o, s, op).None? <==> MemberIn(past, op.signer) && RemoveStands(o, past, op)
  {
    ConsentsIff(o, past, s, op, JudgedBy(past, op.device), o.departRequest(op));
  }

  lemma DeclareIff(o: Oracle, past: Chain, s: State, op: FleetOp)
    requires Stands(o, past, s) && SigsStand(o, op, SignedUnder(past, op))
    ensures DeclareRule(s, op).None? <==> MemberIn(past, op.signer) && DeclareStands(past, op)
  {
    if op.bundle.Some? {
      var b, before := op.bundle.value, JudgedBy(past, op.device);
      forall i | 0 <= i < |op.sigs| ensures op.sigs[i].scheme < 16 {
        assert SigStands(o, op, SignedUnder(past, op), op.sigs[i]);
      }
      forall x ensures x in BundleMask(b) <==> HasScheme(b, x) { MaskIs(b, x); }
      CoversIff(op.sigs, BundleMask(b));
      forall x ensures x in MaskFor(s.bundles, op.device) <==> HasScheme(before, x) {
        MaskForIs(s.bundles, op.device);
        MaskIs(before, x);
      }
    }
  }

  lemma KindIff(o: Oracle, past: Chain, s: State, op: FleetOp)
    requires Stands(o, past, s) && SigsStand(o, op, SignedUnder(past, op))
    ensures KindRule(o, s, op).None? <==> MemberIn(past, op.signer) && KindStands(o, past, op)
  {
    match op.kind
    case Add => AddIff(o, past, s, op);
    case Remove => RemoveIff(o, past, s, op);
    case Declare => DeclareIff(o, past, s, op);
    case _ =>
  }

  lemma RefusalIff(o: Oracle, past: Chain, s: State, op: FleetOp)
    requires Stands(o, past, s)
    ensures Refusal(o, s, op).None? <==> Follows(o, past, op)
  {
    ScreenIff(o, past, s, op);
    if PassesTheScreen(o, past, op) {
      KindIff(o, past, s, op);
    }
  }

  // A folding chain takes one more op exactly when the op follows from those before it.
  lemma FoldsOneMoreIff(o: Oracle, past: Chain, op: FleetOp)
    requires Folds(o, past)
    ensures Folds(o, past + [op]) <==> Follows(o, past, op)
  {
    var s := FoldChain(o, past).value;
    FoldStands(o, past);
    RefusalIff(o, past, s, op);
    FoldSnoc(o, past, op);
    StepAccepts(o, s, op);
  }

  // ---- whole chains ----

  lemma FounderScreen(o: Oracle, op: FleetOp)
    ensures Screened(o, Init(op.handleProof), op).None?
            <==> && op.prevHash == 0 && WellShaped(op) && Carries(op.sigs, ED25519)
                 && SigsStand(o, op, SignedUnder([], op))
  {
    ShapeIff(op, 0);
    SigsIff(o, op, SignedUnder([], op));
    assert VerifyWith(Init(op.handleProof), op) == SignedUnder([], op);
    assert ED25519 in EggMask(op.sigs) <==> Carries(op.sigs, ED25519);
  }

  // Nothing but a genesis starts a chain.
  lemma FoundsIff(o: Oracle, op: FleetOp)
    ensures Folds(o, [op]) <==> Founds(o, op)
  {
    var s := Init(op.handleProof);
    RunStarts(o, [op]);
    OneMore(o, [op], 0, s);
    StepAccepts(o, s, op);
    FounderScreen(o, op);
  }

  // The fold accepts exactly the chains that keep the rules, every rule read off the earlier ops.
  lemma {:induction false} FoldsIffRulesKept(o: Oracle, ops: Chain)
    ensures Folds(o, ops) <==> KeepsTheRules(o, ops)
  {
    if |ops| == 1 {
      assert ops == [ops[0]];
      FoundsIff(o, ops[0]);
    } else if |ops| > 1 {
      var n := |ops| - 1;
      var front, op := ops[..n], ops[n];
      assert ops == front + [op];
      FoldsIffRulesKept(o, front);
      RulesSnoc(o, front, op);
      if Folds(o, front) {
        FoldsOneMoreIff(o, front, op);
      } else {
        FoldSnoc(o, front, op);
      }
    }
  }

  lemma RulesSnoc(o: Oracle, front: Chain, op: FleetOp)
    requires front != []
    ensures KeepsTheRules(o, front + [op]) <==> KeepsTheRules(o, front) && Follows(o, front, op)
  {
    var ops := front + [op];
    assert ops[..|front|] == front && ops[|front|] == op;
    forall i | 0 < i < |front| ensures ops[..i] == front[..i] && ops[i] == front[i] {
    }
    if KeepsTheRules(o, ops) {
      assert Follows(o, ops[..|front|], ops[|front|]);
      forall i | 0 < i < |front| ensures Follows(o, front[..i], front[i]) {
        assert Follows(o, ops[..i], ops[i]);
      }
    }
  }

  lemma RuleAt(o: Oracle, ops: Chain, i: nat)
    requires Folds(o, ops) && i < |ops|
    ensures i == 0 ==> Founds(o, ops[0])
    ensures i > 0 ==> Follows(o, ops[..i], ops[i])
  {
    FoldsIffRulesKept(o, ops);
  }

  // Every egg of every op of a folding chain verifies over the bytes the op signs: an Ed25519 egg under
  // the signer's own key, any other under the key of its scheme that the signer last declared, or that
  // a Declare carries.
  lemma EveryEggVerifies(o: Oracle, ops: Chain, i: nat, e: Egg)
    requires Folds(o, ops) && i < |ops| && e in ops[i].sigs
    ensures e.scheme == ED25519 ==> o.verify(ED25519, Be(ops[i].signer, 32), o.signing(ops[i]), e.sig)
    ensures var b := if ops[i].kind == Declare then Offered(ops[i]) else JudgedBy(ops[..i], ops[i].signer);
            e.scheme != ED25519 ==>
              && (e.scheme == FALCON512 || e.scheme == SPHINCS_PLUS)
              && exists key :: KeyUnder(b, e.scheme, key) && o.verify(e.scheme, key, o.signing(ops[i]), e.sig)
  {
    RuleAt(o, ops, i);
    var b := SignedUnder(ops[..i], ops[i]);
    assert SigsStand(o, ops[i], b) by {
      if i == 0 {
        assert ops[..0] == [];
      }
    }
    var j :| 0 <= j < |ops[i].sigs| && ops[i].sigs[j] == e;
    assert SigStands(o, ops[i], b, ops[i].sigs[j]);
  }

  // And there is one for every scheme that the ops before it demand.
  lemma EveryOpMeetsTheFloor(o: Oracle, ops: Chain, i: nat, x: nat)
    requires Folds(o, ops) && i < |ops| && Demanded(ops[..i], x)
    ensures exists e :: e in ops[i].sigs && e.scheme == x
  {
    RuleAt(o, ops, i);
    if i == 0 {
      assert ops[..0] == [];
    }
    assert Carries(ops[i].sigs, x);
    var j :| 0 <= j < |ops[i].sigs| && ops[i].sigs[j].scheme == x;
    assert ops[i].sigs[j] in ops[i].sigs;
  }

  // Every member but the founder was added with its own consent, and every device that left signed its
  // own exit: as the signer of a bare Remove, or by a consent that another member countersigned.
  lemma NobodyMovesAnother(o: Oracle, ops: Chain, i: nat)
    requires Folds(o, ops) && i < |ops|
    ensures var op := ops[i];
            && (op.kind == Add ==> ConsentStands(o.verify, op.consent, Offered(op), o.bindRequest(op)))
            && (op.kind == Remove && op.signer != op.device
                ==> ConsentStands(o.verify, op.consent, JudgedBy(ops[..i], op.device), o.departRequest(op)))
    ensures ops[i].kind == Add || (ops[i].kind == Remove && ops[i].signer != ops[i].device)
            ==> CarriesTheFloor(ops[..i], ops[i].consent) && InTheHour(ops[i])
  {
    RuleAt(o, ops, i);
  }

  // ---- why an op is refused ----

  ghost predicate Linked(o: Oracle, past: Chain, op: FleetOp)
    requires past != []
  {
    op.handleProof == past[0].handleProof && op.prevHash == o.chainHash(past[|past| - 1])
  }

  // The screen names the first thing that is wrong: the slot, the link, a locked signer, a scheme of the
  // floor without an egg, an egg that does not verify or no egg at all.
  lemma ScreenNames(o: Oracle, past: Chain, op: FleetOp)
    requires Folds(o, past)
    ensures var why, n := FoldChain(o, past + [op]), |past|;
            && (why == Err(InconsistentHandleProof(n)) <==> op.handleProof != past[0].handleProof)
            && (why == Err(BrokenChain(n))
                <==> op.handleProof == past[0].handleProof && op.prevHash != o.chainHash(past[n - 1]))
            && (why == Err(SignerLocked(n))
                <==> Linked(o, past, op) && WellShaped(op) && LockedIn(past, op.signer))
            && (why == Err(InsufficientEggs(n))
                <==> && Linked(o, past, op) && WellShaped(op) && !LockedIn(past, op.signer)
                     && !CarriesTheFloor(past, op.sigs))
            && (why == Err(BadSignature(n))
                <==> && Linked(o, past, op) && WellShaped(op) && !LockedIn(past, op.signer)
                     && CarriesTheFloor(past, op.sigs) && !SigsStand(o, op, SignedUnder(past, op)))
  {
    var s := FoldChain(o, past).value;
    FoldStands(o, past);
    FoldSnoc(o, past, op);
    ShapeIff(op, s.height);
    forall x | x in s.floor ensures x in MASK_ALL { FloorIsKnown(past, x); }
    CoversFloorIff(o, past, s, op.sigs);
    SigsIff(o, op, VerifyWith(s, op));
    assert VerifyWith(s, op) == SignedUnder(past, op);
  }

  lemma ShapeOutcome(o: Oracle, past: Chain, op: FleetOp)
    requires Folds(o, past) && Linked(o, past, op) && !WellShaped(op)
    ensures var shape := Structural(op, |past|); shape.Some? && FoldChain(o, past + [op]) == Err(shape.value)
  {
    FoldLinks(o, past);
    ShapeIff(op, |past|);
    FoldSnoc(o, past, op);
  }

  // A linked op of a wrong shape is refused with an error that is true of it.
  lemma ShapeErrorIsTrue(o: Oracle, past: Chain, op: FleetOp)
    requires Folds(o, past) && Linked(o, past, op) && !WellShaped(op)
    ensures FoldChain(o, past + [op]).Err?
    ensures match FoldChain(o, past + [op]).error
            case ImpossibleTime(n) => !(0 <= op.time < 0x4000_0000_0000_0000)
            case StrayIdentityBinding(n) => op.kind != Genesis && (op.identity != 0 || op.identitySig != [])
            case StrayConsent(n) =>
              if op.kind == Remove then op.consentT == 0 <==> op.consent != []
              else op.kind != Add && (op.consentT != 0 || op.consent != [])
            case StrayCheckpoint(n) =>
              op.kind != Checkpoint && (op.ckptK != 0 || op.ckptCommit != 0 || op.ckptEpoch != 0)
            case StrayBundle(n) => op.bundle.Some? && op.kind != Add && op.kind != Declare
            case StrayPlate(n) => op.plate.Some? && (!PlateKindOp(op.kind) || op.version in {V1, V2})
            case StrayPlateKind(n) =>
              op.plateKind != UNSTATED && (!PlateKindOp(op.kind) || op.version != V4 || op.plateKind > PLATE_PIPE)
            case BundleMismatch(n) => op.bundle.Some? && Ed25519Of(op.bundle.value) != op.device
            case _ => false
  {
    ShapeOutcome(o, past, op);
  }

  // Of an op that passes the screen the kind's own rule names what is wrong first.
  lemma AddNames(o: Oracle, past: Chain, op: FleetOp)
    requires Folds(o, past) && PassesTheScreen(o, past, op) && op.kind == Add
    ensures var why, n := FoldChain(o, past + [op]), |past|;
            var sound := forall x :: Demanded(past, x) || HasScheme(Offered(op), x) ==> Carries(op.consent, x);
            var consents := ConsentStands(o.verify, op.consent, Offered(op), o.bindRequest(op)) && sound;
            var joins := MemberIn(past, op.signer) && !MemberIn(past, op.device);
            var meets := forall x :: Demanded(past, x) ==> HasScheme(Offered(op), x);
            && (why == Err(SignerNotMember(n)) <==> !MemberIn(past, op.signer))
            && (why == Err(AddExistingMember(n)) <==> MemberIn(past, op.signer) && MemberIn(past, op.device))
            && (why == Err(BelowFloor(n)) <==> joins && !meets)
            && (why == Err(BadConsent(n)) <==> joins && meets && !consents)
            && (why == Err(ConsentStale(n)) <==> joins && meets && consents && !InTheHour(op))
  {
    var s, joined := FoldChain(o, past).value, Offered(op);
    KindOutcome(o, past, op, s);
    assert Joined(op) == joined;
    forall x ensures x in BundleMask(joined) <==> HasScheme(joined, x) { MaskIs(joined, x); }
    ConsentIff(o.verify, op.consent, joined, o.bindRequest(op), BundleMask(joined) + s.floor);
    HourIff(op);
  }

  lemma KindOutcome(o: Oracle, past: Chain, op: FleetOp, s: State)
    requires Folds(o, past) && s == FoldChain(o, past).value && PassesTheScreen(o, past, op)
    ensures Stands(o, past, s)
    ensures FoldChain(o, past + [op])
            == match KindRule(o, s, op) case Some(e) => Err(e) case None => Ok(After(o, s, op))
  {
    FoldStands(o, past);
    ScreenIff(o, past, s, op);
    FoldSnoc(o, past, op);
  }

  lemma RemoveNames(o: Oracle, past: Chain, op: FleetOp)
    requires Folds(o, past) && PassesTheScreen(o, past, op) && op.kind == Remove
    ensures var why, n, bare := FoldChain(o, past + [op]), |past|, op.consent == [];
            var stands := ConsentStands(o.verify, op.consent, JudgedBy(past, op.device), o.departRequest(op))
              && CarriesTheFloor(past, op.consent);
            var signed := MemberIn(past, op.signer) && (op.signer == op.device <==> bare);
            && (why == Err(SignerNotMember(n)) <==> !MemberIn(past, op.signer))
            && (why == Err(RemoveNotSelfSigned(n)) <==> MemberIn(past, op.signer) && bare && op.signer != op.device)
            && (why == Err(RemoveApproverIsLeaver(n)) <==> MemberIn(past, op.signer) && !bare && op.signer == op.device)
            && (why == Err(BadConsent(n)) <==> signed && !bare && !stands)
            && (why == Err(ConsentStale(n)) <==> signed && !bare && stands && !InTheHour(op))
            && (why == Err(RemoveNonMember(n))
                <==> signed && !bare && stands && InTheHour(op) && !MemberIn(past, op.device))
  {
    var s, b := FoldChain(o, past).value, JudgedBy(past, op.device);
    KindOutcome(o, past, op, s);
    ConsentIff(o.verify, op.consent, b, o.departRequest(op), s.floor);
    FloorCarried(o, past, s, op.consent);
    HourIff(op);
  }

  lemma DeclareNames(o: Oracle, past: Chain, op: FleetOp)
    requires Folds(o, past) && PassesTheScreen(o, past, op) && op.kind == Declare
    ensures var why, n, own := FoldChain(o, past + [op]), |past|, op.signer == op.device && MemberIn(past, op.signer);
            var proven := op.bundle.Some? && forall x :: HasScheme(op.bundle.value, x) ==> Carries(op.sigs, x);
            && (why == Err(DeclareNotSelfSigned(n)) <==> op.signer != op.device)
            && (why == Err(SignerNotMember(n)) <==> op.signer == op.device && !MemberIn(past, op.signer))
            && (why == Err(BadBundle(n)) <==> own && op.bundle.None?)
            && (why == Err(DeclareUnproven(n)) <==> own && op.bundle.Some? && !proven)
            && (why == Err(CapabilityRegression(n)) <==> own && proven && !DeclareStands(past, op))
  {
    var s := FoldChain(o, past).value;
    KindOutcome(o, past, op, s);
    DeclareIff(o, past, s, op);
    if op.bundle.Some? {
      var b := op.bundle.value;
      forall i | 0 <= i < |op.sigs| ensures op.sigs[i].scheme < 16 {
        assert SigStands(o, op, SignedUnder(past, op), op.sigs[i]);
      }
      forall x ensures x in BundleMask(b) <==> HasScheme(b, x) { MaskIs(b, x); }
      CoversIff(op.sigs, BundleMask(b));
    }
  }

  lemma OthersName(o: Oracle, past: Chain, op: FleetOp)
    requires Folds(o, past) && PassesTheScreen(o, past, op)
    requires op.kind == Genesis || op.kind == Lock || op.kind == Unlock || op.kind == Checkpoint
    ensures var why, n, member := FoldChain(o, past + [op]), |past|, MemberIn(past, op.signer);
            && (why == Err(NotGenesisFirst) <==> op.kind == Genesis)
            && (why == Err(SignerNotMember(n)) <==> op.kind != Genesis && !member)
            && (why == Err(LockMalformed(n))
                <==> (op.kind == Lock || op.kind == Unlock) && member && !KindStands(o, past, op))
            && (why == Err(CheckpointMalformed(n))
                <==> op.kind == Checkpoint && member
                     && (op.ckptK == 0 || op.ckptCommit == 0 || op.device != op.signer))
            && (why == Err(CheckpointOutOfSequence(n))
                <==> op.kind == Checkpoint && member && op.ckptK > 0 && op.ckptCommit != 0 && op.device == op.signer
                     && op.ckptK != Checkpoints(past, |past|) + 1)
  {
    KindOutcome(o, past, op, FoldChain(o, past).value);
  }

  // A genesis that passes the screen is refused for another's signature, or else for its identity.
  lemma FounderNames(o: Oracle, op: FleetOp)
    requires op.kind == Genesis && op.prevHash == 0 && WellShaped(op)
    requires Carries(op.sigs, ED25519) && SigsStand(o, op, SignedUnder([], op))
    ensures FoldChain(o, []) == Err(EmptyChain)
    ensures FoldChain(o, [op]) == Err(GenesisNotSelfSigned) <==> op.signer != op.device
    ensures FoldChain(o, [op]) == Err(BadIdentityBinding)
            <==> op.signer == op.device && (op.identity == 0 || (op.identitySig != [] && !o.identityBinding(op)))
  {
    var s := Init(op.handleProof);
    RunStarts(o, [op]);
    OneMore(o, [op], 0, s);
    FounderScreen(o, op);
  }
}
