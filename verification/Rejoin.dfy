/**
 Three concrete chains: a device that left and rejoined is stuck behind its first bundle, a bare
 departure can end a fleet, and a v1 consent of two eggs folds and is lost on the wire.
 */
module Rejoin {
  import opened Wrappers
  import opened Bytes
  import opened Schemes
  import opened Assoc
  import opened FleetOps
  import opened Fold
  import opened Membership
  import opened Floor
  import opened Declared
  import OpCodec

  const SLOT: Key32 := 9
  const OLDER: Key32 := 1
  const ROAMER: Key32 := 2

  const ONE_EGG: seq<Egg> := [Egg(ED25519, [])]
  const TWO_EGGS: seq<Egg> := [Egg(ED25519, []), Egg(FALCON512, [])]
  const TWO_SCHEMES: Mask := {ED25519, FALCON512}

  function Upgraded(d: Key32): KeyBundle {
    KeyBundle([KeyEntry(ED25519, Be(d, 32)), KeyEntry(FALCON512, seq(897, _ => 0))])
  }

  function Plain(prev: Key32, kind: OpKind, device: Key32, signer: Key32, eggs: seq<Egg>): FleetOp {
    FleetOp(V2, SLOT, prev, kind, device, 10, signer, 0, [], 0, [], 0, 0, 0, eggs, None, None, UNSTATED)
  }

  function Found(): FleetOp {
    Plain(0, Genesis, OLDER, OLDER, ONE_EGG).(identity := 5)
  }

  function Join(o: Oracle): FleetOp {
    Plain(o.chainHash(Found()), Add, ROAMER, OLDER, ONE_EGG).(consentT := 10, consent := ONE_EGG)
  }

  function Leave(o: Oracle): FleetOp {
    Plain(o.chainHash(Join(o)), Remove, ROAMER, OLDER, ONE_EGG).(consentT := 10, consent := ONE_EGG)
  }

  function Upgrade(o: Oracle): FleetOp {
    Plain(o.chainHash(Leave(o)), Declare, OLDER, OLDER, TWO_EGGS).(bundle := Some(Upgraded(OLDER)))
  }

  function Rejoins(o: Oracle): FleetOp {
    Plain(o.chainHash(Upgrade(o)), Add, ROAMER, OLDER, TWO_EGGS)
      .(consentT := 10, consent := TWO_EGGS, bundle := Some(Upgraded(ROAMER)))
  }

  ghost predicate AllVerify(o: Oracle) {
    forall s, k, m, g :: o.verify(s, k, m, g)
  }

  function AfterFound(o: Oracle): State {
    State(SLOT, [OLDER], [], [], [], [], MASK_BASE, o.chainHash(Found()), 0, 1)
  }

  function AfterJoin(o: Oracle): State {
    State(SLOT, [OLDER, ROAMER], [], [Entry(ROAMER, Ed25519Only(ROAMER))], [], [], MASK_BASE, o.chainHash(Join(o)),
          0, 2)
  }

  function AfterLeave(o: Oracle): State {
    State(SLOT, [OLDER], [], [Entry(ROAMER, Ed25519Only(ROAMER))], [], [], MASK_BASE, o.chainHash(Leave(o)), 0, 3)
  }

  function AfterUpgrade(o: Oracle): State {
    State(SLOT, [OLDER], [], [Entry(ROAMER, Ed25519Only(ROAMER)), Entry(OLDER, Upgraded(OLDER))], [], [],
          TWO_SCHEMES, o.chainHash(Upgrade(o)), 0, 4)
  }

  function AfterRejoin(o: Oracle): State {
    State(SLOT, [OLDER, ROAMER], [],
          [Entry(ROAMER, Ed25519Only(ROAMER)), Entry(OLDER, Upgraded(OLDER)), Entry(ROAMER, Upgraded(ROAMER))], [], [],
          TWO_SCHEMES, o.chainHash(Rejoins(o)), 0, 5)
  }

  lemma Masks(d: Key32)
    ensures BundleMask(Ed25519Only(d)) == MASK_BASE && BundleMask(Upgraded(d)) == TWO_SCHEMES
    ensures EggMask(ONE_EGG) == MASK_BASE && EggMask(TWO_EGGS) == TWO_SCHEMES
  {
    Ed25519OnlyIsValid(d);
    assert Upgraded(d).keys[0].scheme == ED25519 && Upgraded(d).keys[1].scheme == FALCON512;
    assert ONE_EGG[0].scheme == ED25519 && TWO_EGGS[0].scheme == ED25519 && TWO_EGGS[1].scheme == FALCON512;
  }

  lemma AnchorOf(d: Key32)
    requires d < 256
    ensures Ed25519Of(Upgraded(d)) == d
  {
    assert FindKey(Upgraded(d).keys, ED25519) == Some(Be(d, 32));
    PowAdd(256, 1, 31);
    assert Pow(256, 1) == 256;
    MulMonotone(1, Pow(256, 31), 256);
    BeRoundTrip(d, 32);
  }

  lemma EggsAllHold(o: Oracle, eggs: seq<Egg>, b: KeyBundle, msg: seq<byte>, required: Mask)
    requires AllVerify(o) && eggs != [] && EggMask(eggs) <= BundleMask(b) <= MASK_KNOWN && required <= EggMask(eggs)
    requires forall i :: 0 <= i < |eggs| ==> eggs[i].scheme < 16
    ensures EggsHold(o.verify, eggs, b, msg, required)
  {
    forall i | 0 <= i < |eggs| ensures EggVerifies(o.verify, eggs[i], b, msg) {
      assert eggs[i].scheme in EggMask(eggs);
    }
  }

  lemma SigsAllHold(o: Oracle, op: FleetOp, b: KeyBundle)
    requires AllVerify(o) && op.sigs != [] && EggMask(op.sigs) <= BundleMask(b) <= MASK_KNOWN
    requires forall i :: 0 <= i < |op.sigs| ==> op.sigs[i].scheme < 16
    ensures SigsHold(o, op, b)
  {
    forall i | 0 <= i < |op.sigs| ensures SigHolds(o, op, b, op.sigs[i]) {
      assert op.sigs[i].scheme in EggMask(op.sigs);
    }
  }

  lemma LiveOne(d: Key32, bundles: seq<Entry<KeyBundle>>)
    ensures Live([d], [], bundles) == MASK_ALL * MaskFor(bundles, d)
  {
    assert [d][..0] == [];
  }

  lemma LiveTwo(c: Key32, d: Key32, bundles: seq<Entry<KeyBundle>>)
    ensures Live([c, d], [], bundles) == MASK_ALL * MaskFor(bundles, c) * MaskFor(bundles, d)
  {
    assert [c, d][..1] == [c];
    LiveOne(c, bundles);
  }

  // Lookups in the three bundle lists the chain goes through.
  lemma Lookups(o: Oracle)
    ensures BundleFor([], OLDER) == Ed25519Only(OLDER)
    ensures BundleFor(AfterJoin(o).bundles, OLDER) == Ed25519Only(OLDER)
    ensures BundleFor(AfterJoin(o).bundles, ROAMER) == Ed25519Only(ROAMER)
    ensures BundleFor(AfterUpgrade(o).bundles, OLDER) == Upgraded(OLDER)
    ensures BundleFor(AfterRejoin(o).bundles, OLDER) == Upgraded(OLDER)
    ensures BundleFor(AfterRejoin(o).bundles, ROAMER) == Ed25519Only(ROAMER)
    ensures Find(AfterJoin(o).bundles, OLDER).None?
  {
    assert AfterJoin(o).bundles[1..] == [];
    assert AfterUpgrade(o).bundles[1..][0] == Entry(OLDER, Upgraded(OLDER));
    assert Find(AfterUpgrade(o).bundles[1..], OLDER) == Some(Upgraded(OLDER));
    assert AfterRejoin(o).bundles[1..][0] == Entry(OLDER, Upgraded(OLDER));
    assert Find(AfterRejoin(o).bundles[1..], OLDER) == Some(Upgraded(OLDER));
  }

  lemma MaskOfBundleFor(bundles: seq<Entry<KeyBundle>>, d: Key32)
    ensures MaskFor(bundles, d) == BundleMask(BundleFor(bundles, d))
  {
    Masks(d);
  }

  lemma Accept(o: Oracle, s: State, op: FleetOp, b: KeyBundle)
    requires AllVerify(o) && op.handleProof == s.identity && op.prevHash == s.prev && Structural(op, s.height).None?
    requires op.signer !in s.locked && s.floor <= EggMask(op.sigs) <= BundleMask(b) <= MASK_KNOWN
             && b == VerifyWith(s, op)
    requires op.sigs == ONE_EGG || op.sigs == TWO_EGGS
    requires KindRule(o, s, op).None?
    ensures Refusal(o, s, op).None?
  {
    SigsAllHold(o, op, b);
  }

  lemma FoundFolds(o: Oracle)
    requires AllVerify(o)
    ensures Step(o, Init(SLOT), Found()) == Ok(AfterFound(o))
  {
    Masks(OLDER);
    Lookups(o);
    Accept(o, Init(SLOT), Found(), Ed25519Only(OLDER));
    LiveOne(OLDER, []);
    MaskOfBundleFor([], OLDER);
    assert [] + [OLDER] == [OLDER];
    assert MASK_BASE + Live([OLDER], [], []) == MASK_BASE;
  }

  lemma JoinRuleHolds(o: Oracle)
    requires AllVerify(o)
    ensures AddRule(o, AfterFound(o), Join(o)).None?
  {
    Masks(ROAMER);
    EggsAllHold(o, ONE_EGG, Ed25519Only(ROAMER), o.bindRequest(Join(o)), MASK_BASE);
    assert MASK_BASE + MASK_BASE == MASK_BASE;
    assert AfterFound(o).members[0] == OLDER;
  }

  lemma JoinAccepted(o: Oracle)
    requires AllVerify(o)
    ensures Refusal(o, AfterFound(o), Join(o)).None?
  {
    Masks(OLDER);
    Lookups(o);
    JoinRuleHolds(o);
    Accept(o, AfterFound(o), Join(o), Ed25519Only(OLDER));
  }

  lemma JoinLeavesTheFloor(o: Oracle)
    ensures MASK_BASE + Live([OLDER, ROAMER], [], AfterJoin(o).bundles) == MASK_BASE
  {
    var bundles := AfterJoin(o).bundles;
    Masks(OLDER);
    Masks(ROAMER);
    LiveTwo(OLDER, ROAMER, bundles);
    MaskOfBundleFor(bundles, OLDER);
    MaskOfBundleFor(bundles, ROAMER);
  }

  lemma JoinLands(o: Oracle)
    ensures After(o, AfterFound(o), Join(o)) == AfterJoin(o)
  {
    JoinLeavesTheFloor(o);
    assert [OLDER] + [ROAMER] == [OLDER, ROAMER];
    assert MembersAfter(AfterFound(o), Join(o)) == [OLDER, ROAMER];
    assert BundlesAfter(AfterFound(o), Join(o)) == AfterJoin(o).bundles;
    AfterIs(o, AfterFound(o), Join(o), AfterJoin(o));
  }

  lemma JoinFolds(o: Oracle)
    requires AllVerify(o)
    ensures Step(o, AfterFound(o), Join(o)) == Ok(AfterJoin(o))
  {
    JoinAccepted(o);
    JoinLands(o);
    StepAccepts(o, AfterFound(o), Join(o));
  }

  lemma LeaveRuleHolds(o: Oracle)
    requires AllVerify(o)
    ensures RemoveRule(o, AfterJoin(o), Leave(o)).None?
  {
    Masks(ROAMER);
    Lookups(o);
    EggsAllHold(o, ONE_EGG, Ed25519Only(ROAMER), o.departRequest(Leave(o)), MASK_BASE);
    assert AfterJoin(o).members[0] == OLDER && AfterJoin(o).members[1] == ROAMER;
  }

  lemma LeaveAccepted(o: Oracle)
    requires AllVerify(o)
    ensures Refusal(o, AfterJoin(o), Leave(o)).None?
  {
    Masks(OLDER);
    Lookups(o);
    LeaveRuleHolds(o);
    Accept(o, AfterJoin(o), Leave(o), Ed25519Only(OLDER));
  }

  lemma LeaveLands(o: Oracle)
    ensures After(o, AfterJoin(o), Leave(o)) == AfterLeave(o)
  {
    var bundles := AfterLeave(o).bundles;
    Masks(OLDER);
    WithoutSecond(OLDER, ROAMER);
    assert Without([], ROAMER) == [];
    LiveOne(OLDER, bundles);
    MaskOfBundleFor(bundles, OLDER);
    Lookups(o);
    assert MASK_BASE + Live([OLDER], [], bundles) == MASK_BASE;
    AfterIs(o, AfterJoin(o), Leave(o), AfterLeave(o));
  }

  lemma LeaveFolds(o: Oracle)
    requires AllVerify(o)
    ensures Step(o, AfterJoin(o), Leave(o)) == Ok(AfterLeave(o))
  {
    LeaveAccepted(o);
    LeaveLands(o);
    StepAccepts(o, AfterJoin(o), Leave(o));
  }

  lemma WithoutSecond(c: Key32, d: Key32)
    requires c != d
    ensures Without([c, d], d) == [c]
  {
    assert [c, d][..1] == [c] && [c][..0] == [];
    assert Without([c], d) == [c];
  }

  lemma UpgradeFolds(o: Oracle)
    requires AllVerify(o)
    ensures Step(o, AfterLeave(o), Upgrade(o)) == Ok(AfterUpgrade(o))
  {
    Masks(OLDER);
    AnchorOf(OLDER);
    Lookups(o);
    assert AfterLeave(o).members[0] == OLDER;
    Accept(o, AfterLeave(o), Upgrade(o), Upgraded(OLDER));
    var bundles := AfterUpgrade(o).bundles;
    assert Upsert(AfterLeave(o).bundles, OLDER, Upgraded(OLDER)) == bundles;
    LiveOne(OLDER, bundles);
    MaskOfBundleFor(bundles, OLDER);
    assert MASK_BASE + Live([OLDER], [], bundles) == TWO_SCHEMES;
  }

  lemma RejoinRuleHolds(o: Oracle)
    requires AllVerify(o)
    ensures AddRule(o, AfterUpgrade(o), Rejoins(o)).None?
  {
    Masks(ROAMER);
    EggsAllHold(o, TWO_EGGS, Upgraded(ROAMER), o.bindRequest(Rejoins(o)), TWO_SCHEMES);
    assert TWO_SCHEMES + TWO_SCHEMES == TWO_SCHEMES;
    assert AfterUpgrade(o).members[0] == OLDER;
  }

  lemma RejoinAccepted(o: Oracle)
    requires AllVerify(o)
    ensures Refusal(o, AfterUpgrade(o), Rejoins(o)).None?
  {
    Masks(OLDER);
    AnchorOf(ROAMER);
    Lookups(o);
    RejoinRuleHolds(o);
    Accept(o, AfterUpgrade(o), Rejoins(o), Upgraded(OLDER));
  }

  lemma RejoinLeavesTheFloor(o: Oracle)
    ensures TWO_SCHEMES + Live([OLDER, ROAMER], [], AfterRejoin(o).bundles) == TWO_SCHEMES
  {
    var bundles := AfterRejoin(o).bundles;
    Masks(OLDER);
    Masks(ROAMER);
    Lookups(o);
    LiveTwo(OLDER, ROAMER, bundles);
    MaskOfBundleFor(bundles, OLDER);
    MaskOfBundleFor(bundles, ROAMER);
  }

  lemma RejoinLands(o: Oracle)
    ensures After(o, AfterUpgrade(o), Rejoins(o)) == AfterRejoin(o)
  {
    RejoinLeavesTheFloor(o);
    assert [OLDER] + [ROAMER] == [OLDER, ROAMER];
    assert MembersAfter(AfterUpgrade(o), Rejoins(o)) == [OLDER, ROAMER];
    assert BundlesAfter(AfterUpgrade(o), Rejoins(o)) == AfterRejoin(o).bundles;
    AfterIs(o, AfterUpgrade(o), Rejoins(o), AfterRejoin(o));
  }

  lemma RejoinFolds(o: Oracle)
    requires AllVerify(o)
    ensures Step(o, AfterUpgrade(o), Rejoins(o)) == Ok(AfterRejoin(o))
  {
    RejoinAccepted(o);
    RejoinLands(o);
    StepAccepts(o, AfterUpgrade(o), Rejoins(o));
  }

  function StuckChain(o: Oracle): seq<FleetOp> {
    [Found(), Join(o), Leave(o), Upgrade(o), Rejoins(o)]
  }

  // A device left before its fleet raised the floor and rejoined with a full, proved bundle.  The
  // chain folds and the device is a member, but it is judged by its first, Ed25519-only entry: on
  // this chain no op it signs folds except a Declare.
  lemma RejoinedDeviceIsStuck(o: Oracle)
    requires AllVerify(o)
    ensures Folds(o, StuckChain(o)) && FoldChain(o, StuckChain(o)).value.floor == TWO_SCHEMES
    ensures ROAMER in FoldChain(o, StuckChain(o)).value.members && Rejoins(o).bundle == Some(Upgraded(ROAMER))
    ensures BundleFor(FoldChain(o, StuckChain(o)).value.bundles, ROAMER) == Ed25519Only(ROAMER)
    ensures forall op: FleetOp :: op.signer == ROAMER && op.kind != Declare ==> !Folds(o, StuckChain(o) + [op])
  {
    var c := StuckChain(o);
    StuckChainFolds(o);
    var s := AfterRejoin(o);
    assert s.members[1] == ROAMER;
    Masks(ROAMER);
    Lookups(o);
    MaskOfBundleFor(s.bundles, ROAMER);
    forall op: FleetOp | op.signer == ROAMER && op.kind != Declare ensures !Folds(o, c + [op]) {
      FoldSnoc(o, c, op);
      BelowFloorSignsOnlyDeclares(o, s, op);
    }
  }

  lemma FoundRuns(o: Oracle, ops: seq<FleetOp>, i: nat)
    requires AllVerify(o) && i < |ops| && ops[i] == Found() && Run(o, ops, i) == Ok(Init(SLOT))
    ensures Run(o, ops, i + 1) == Ok(AfterFound(o))
  {
    FoundFolds(o);
    OneMore(o, ops, i, Init(SLOT));
  }

  lemma JoinRuns(o: Oracle, ops: seq<FleetOp>, i: nat)
    requires AllVerify(o) && i < |ops| && ops[i] == Join(o) && Run(o, ops, i) == Ok(AfterFound(o))
    ensures Run(o, ops, i + 1) == Ok(AfterJoin(o))
  {
    JoinFolds(o);
    OneMore(o, ops, i, AfterFound(o));
  }

  lemma LeaveRuns(o: Oracle, ops: seq<FleetOp>, i: nat)
    requires AllVerify(o) && i < |ops| && ops[i] == Leave(o) && Run(o, ops, i) == Ok(AfterJoin(o))
    ensures Run(o, ops, i + 1) == Ok(AfterLeave(o))
  {
    LeaveFolds(o);
    OneMore(o, ops, i, AfterJoin(o));
  }

  lemma UpgradeRuns(o: Oracle, ops: seq<FleetOp>, i: nat)
    requires AllVerify(o) && i < |ops| && ops[i] == Upgrade(o) && Run(o, ops, i) == Ok(AfterLeave(o))
    ensures Run(o, ops, i + 1) == Ok(AfterUpgrade(o))
  {
    UpgradeFolds(o);
    OneMore(o, ops, i, AfterLeave(o));
  }

  lemma RejoinRuns(o: Oracle, ops: seq<FleetOp>, i: nat)
    requires AllVerify(o) && i < |ops| && ops[i] == Rejoins(o) && Run(o, ops, i) == Ok(AfterUpgrade(o))
    ensures Run(o, ops, i + 1) == Ok(AfterRejoin(o))
  {
    RejoinFolds(o);
    OneMore(o, ops, i, AfterUpgrade(o));
  }

  lemma StuckChainFolds(o: Oracle)
    requires AllVerify(o)
    ensures FoldChain(o, StuckChain(o)) == Ok(AfterRejoin(o))
  {
    var c := StuckChain(o);
    FoundRuns(o, c, 0);
    JoinRuns(o, c, 1);
    LeaveRuns(o, c, 2);
    UpgradeRuns(o, c, 3);
    RejoinRuns(o, c, 4);
  }

  // The same rejoining Add leaves the floor above what its unlocked members share.
  lemma RejoinLeavesTheFloorInexact(o: Oracle)
    requires AllVerify(o)
    ensures !SubjectCovers(o, AfterUpgrade(o), Rejoins(o)) && !Exact(AfterRejoin(o))
  {
    var t := AfterRejoin(o);
    RejoinLands(o);
    Masks(OLDER);
    Masks(ROAMER);
    Lookups(o);
    LiveTwo(OLDER, ROAMER, t.bundles);
    MaskOfBundleFor(t.bundles, ROAMER);
    assert FALCON512 in TWO_SCHEMES && FALCON512 !in MaskFor(t.bundles, ROAMER);
    assert t.members[0] == OLDER && OLDER in t.members;
    assert HasUnlocked(t);
  }

  // The founder alone departs with a bare Remove: the chain folds to nobody, and nothing follows.
  lemma BareDepartureCanEndAFleet(o: Oracle)
    requires AllVerify(o)
    ensures var c := [Found(), Plain(o.chainHash(Found()), Remove, OLDER, OLDER, ONE_EGG)];
            Folds(o, c) && FoldChain(o, c).value.members == [] && forall op :: !Folds(o, c + [op])
  {
    var leave := Plain(o.chainHash(Found()), Remove, OLDER, OLDER, ONE_EGG);
    var c := [Found(), leave];
    FoundFolds(o);
    OneMore(o, c, 0, Init(SLOT));
    LastLeaves(o, leave);
    OneMore(o, c, 1, AfterFound(o));
    NothingAppends(o, c);
  }

  lemma LastLeaves(o: Oracle, leave: FleetOp)
    requires AllVerify(o) && leave == Plain(o.chainHash(Found()), Remove, OLDER, OLDER, ONE_EGG)
    ensures Refusal(o, AfterFound(o), leave).None? && After(o, AfterFound(o), leave).members == []
  {
    Masks(OLDER);
    assert AfterFound(o).members[0] == OLDER;
    Accept(o, AfterFound(o), leave, Ed25519Only(OLDER));
    assert [OLDER][..0] == [];
  }

  // ---- a consent the wire form has no room for ----

  function TwiceConsented(o: Oracle): FleetOp {
    Plain(o.chainHash(Found()), Add, ROAMER, OLDER, ONE_EGG)
      .(version := V1, consentT := 10, consent := [Egg(ED25519, []), Egg(ED25519, [])])
  }

  lemma TwiceConsentedAccepted(o: Oracle)
    requires AllVerify(o)
    ensures Refusal(o, AfterFound(o), TwiceConsented(o)).None?
  {
    var op := TwiceConsented(o);
    Masks(OLDER);
    Masks(ROAMER);
    Lookups(o);
    assert EggMask(op.consent) == MASK_BASE by {
      assert op.consent[0].scheme == ED25519;
    }
    EggsAllHold(o, op.consent, Ed25519Only(ROAMER), o.bindRequest(op), MASK_BASE);
    assert MASK_BASE + MASK_BASE == MASK_BASE;
    assert AfterFound(o).members[0] == OLDER;
    assert AddRule(o, AfterFound(o), op).None?;
    Accept(o, AfterFound(o), op, Ed25519Only(OLDER));
  }

  lemma TwiceConsentedFolds(o: Oracle)
    requires AllVerify(o)
    ensures Folds(o, [Found(), TwiceConsented(o)])
  {
    var c := [Found(), TwiceConsented(o)];
    FoundRuns(o, c, 0);
    OneMore(o, c, 1, AfterFound(o));
    TwiceConsentedAccepted(o);
    StepAccepts(o, AfterFound(o), c[1]);
  }

  // A v1 Add whose joiner consented with two Ed25519 eggs folds, and the chain does not read back.
  lemma FoldingChainLostOnTheWire(o: Oracle, w: OpCodec.Eggs)
    requires AllVerify(o) && OpCodec.Inverse(w) && o.chainHash(Found()) < Pow(256, 32)
    ensures var c := [Found(), TwiceConsented(o)];
            Folds(o, c) && OpCodec.ParseChain(w, OpCodec.EncodeChain(w, c)) != Some(c)
  {
    TwiceConsentedFolds(o);
    TwiceConsentedIsTyped(o);
    OpCodec.SecondIsLost(w, o, Found(), TwiceConsented(o));
  }

  lemma TwiceConsentedIsTyped(o: Oracle)
    requires o.chainHash(Found()) < Pow(256, 32)
    ensures OpCodec.Typed(Found()) && OpCodec.Typed(TwiceConsented(o))
    ensures !OpCodec.SingleV1Consent(TwiceConsented(o))
  {
    SmallKeys();
  }

  lemma SmallKeys()
    ensures Pow(256, 32) > 255
  {
    PowAdd(256, 1, 31);
    assert Pow(256, 1) == 256;
    MulMonotone(1, Pow(256, 31), 256);
  }
}
