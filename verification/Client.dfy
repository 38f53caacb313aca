/**
 The client's calls on a slot.  Each reads the chain, decides, appends one op it builds, publishes,
 and retries on stale.  An Ok from any of them means the chain holds what the call was for; and a
 caller that may make the change, undisturbed, makes it.
 */
module Client {
  import opened Wrappers
  import opened Bytes
  import opened Schemes
  import opened Assoc
  import opened FleetOps
  import opened Fold
  import opened Membership
  import opened Floor
  import opened Chains
  import opened Stamps
  import opened ChainSlot
  import Preimage
  import Rulebook

  // Who is calling: its key, its clock, its keys beyond Ed25519, and how it signs a message under the
  // schemes of a mask.
  datatype Caller = Caller(me: Key32, now: int, bundle: Option<KeyBundle>, eggs: (seq<byte>, Mask) -> seq<Egg>)

  // A binding request, as its author signed it.
  datatype BindRequest = BindRequest(
    device: Key32, t: int, consent: seq<Egg>, bundle: Option<KeyBundle>, plate: Option<Key32>, plateKind: nat)

  function MintVersion(plate: Option<Key32>, plateKind: nat): OpVersion {
    if plate.Some? || plateKind != UNSTATED then V4 else V2
  }

  function Blank(o: Oracle, caller: Caller, c: Chain, kind: OpKind, device: Key32): FleetOp
    requires c != []
  {
    FleetOp(V2, c[0].handleProof, HeadOf(o, c), kind, device, StampAfter(c, caller.now), caller.me,
            0, [], 0, [], 0, 0, 0, [], None, None, UNSTATED)
  }

  function Sealed(o: Oracle, caller: Caller, op: FleetOp, schemes: Mask): FleetOp {
    op.(sigs := caller.eggs(o.signing(op), schemes))
  }

  predicate MemberOf(o: Oracle, c: Chain, d: Key32) {
    Folds(o, c) && d in FoldChain(o, c).value.members
  }

  predicate LockedIn(o: Oracle, c: Chain, d: Key32) {
    Folds(o, c) && d in FoldChain(o, c).value.locked
  }

  // What the chain knows a device can sign with.
  function DeclaredMask(o: Oracle, c: Chain, d: Key32): Mask {
    match FoldChain(o, c)
    case Ok(s) => MaskFor(s.bundles, d)
    case Err(_) => MASK_BASE
  }

  function Keys(caller: Caller): KeyBundle {
    if caller.bundle.Some? then caller.bundle.value else KeyBundle([KeyEntry(ED25519, Be(caller.me, 32))])
  }

  // ---- a caller whose op will stand ----

  // Signing gives an egg for every scheme asked for that the caller holds, Ed25519 always, each good.
  ghost predicate SealsTruly(v: Verify, caller: Caller, msg: seq<byte>, schemes: Mask) {
    var eggs := caller.eggs(msg, schemes);
    && (forall x :: (x == ED25519 || x in schemes) && Rulebook.HasScheme(Keys(caller), x) ==> Rulebook.Carries(eggs, x))
    && (forall i :: 0 <= i < |eggs| ==>
          (eggs[i].scheme == ED25519 || eggs[i].scheme in schemes) && Rulebook.EggStands(v, eggs[i], Keys(caller), msg))
  }

  ghost predicate SignsTruly(v: Verify, caller: Caller) {
    && Rulebook.KeyUnder(Keys(caller), ED25519, Be(caller.me, 32))
    && forall msg, schemes :: SealsTruly(v, caller, msg, schemes)
  }

  // An op's signing bytes do not cover the signatures over them.
  ghost predicate SignsBeforeSealing(o: Oracle) {
    forall op: FleetOp, eggs :: o.signing(op.(sigs := eggs)) == o.signing(op)
  }

  // An unlocked member with a sound clock, that signs truly.
  ghost predicate Ready(o: Oracle, caller: Caller, c: Chain) {
    && SignsBeforeSealing(o) && SignsTruly(o.verify, caller)
    && c != [] && Folds(o, c) && Rulebook.MemberIn(c, caller.me) && !Rulebook.LockedIn(c, caller.me)
    && caller.now < OP_TIME_MAX_OSC
  }

  // The keys the chain judges the caller by are its own and meet the floor.
  ghost predicate KeysMeetTheFloor(caller: Caller, c: Chain) {
    var judged := Rulebook.JudgedBy(c, caller.me);
    && (forall x, key :: Rulebook.KeyUnder(judged, x, key) ==> Rulebook.KeyUnder(Keys(caller), x, key))
    && (forall x :: Rulebook.Demanded(c, x) ==> Rulebook.HasScheme(judged, x))
  }

  // The later of the caller's clock and the tip lies within an hour of t.
  ghost predicate InTime(caller: Caller, c: Chain, t: int)
    requires c != []
  {
    var tip := c[|c| - 1].time;
    var at := if caller.now > tip then caller.now else tip;
    -3600 * OSCILLATIONS_PER_SECOND <= at - t <= 3600 * OSCILLATIONS_PER_SECOND
  }

  // The op on top of c: whose, what, linked to the op below, stamped with the later of clock and tip,
  // signed under the schemes named.
  ghost predicate Appended(o: Oracle, caller: Caller, c: Chain, kind: OpKind, device: Key32, schemes: Mask) {
    |c| > 1
    && var op, tip := c[|c| - 1], c[|c| - 2];
       && op.version == (if op.plate.Some? || op.plateKind != UNSTATED then V4 else V2)
       && op.kind == kind && op.device == device && op.signer == caller.me
       && op.handleProof == c[0].handleProof && op.prevHash == o.chainHash(tip)
       && op.time == (if caller.now > tip.time then caller.now else tip.time)
       && op.sigs == caller.eggs(o.signing(op.(sigs := [])), schemes)
  }

  // The schemes the chain below the last op knows a device by.
  function SchemesBelow(c: Chain, d: Key32): Mask
    requires c != []
  {
    BundleMask(Rulebook.JudgedBy(c[..|c| - 1], d))
  }

  lemma OnTop(c: Chain)
    requires |c| > 1
    ensures var below := c[..|c| - 1]; below != [] && below[0] == c[0] && below[|below| - 1] == c[|c| - 2]
  {
  }

  lemma StateIs(o: Oracle, c: Chain, d: Key32)
    requires Folds(o, c)
    ensures MemberOf(o, c, d) <==> Rulebook.MemberIn(c, d)
    ensures LockedIn(o, c, d) <==> Rulebook.LockedIn(c, d)
    ensures DeclaredMask(o, c, d) == BundleMask(Rulebook.JudgedBy(c, d))
  {
    Rulebook.StateReads(o, c);
    Rulebook.MaskForIs(FoldChain(o, c).value.bundles, d);
  }

  lemma TipIsSound(o: Oracle, c: Chain)
    requires Folds(o, c)
    ensures 0 <= c[|c| - 1].time < OP_TIME_MAX_OSC
  {
    Rulebook.RuleAt(o, c, |c| - 1);
  }

  // A good caller's eggs meet the rulebook, under the keys `b` that are its own.
  lemma SealStands(o: Oracle, caller: Caller, c: Chain, op: FleetOp, b: KeyBundle)
    requires SignsBeforeSealing(o) && SignsTruly(o.verify, caller) && op.signer == caller.me
    requires forall x, key :: Rulebook.KeyUnder(b, x, key) ==> Rulebook.KeyUnder(Keys(caller), x, key)
    requires Rulebook.HasScheme(b, ED25519)
    ensures var eggs := caller.eggs(o.signing(op), BundleMask(b));
            && Rulebook.SigsStand(o, op.(sigs := eggs), b)
            && forall x :: Rulebook.HasScheme(b, x) ==> Rulebook.Carries(eggs, x)
  {
    var eggs, msg := caller.eggs(o.signing(op), BundleMask(b)), o.signing(op);
    var sealed := op.(sigs := eggs);
    assert SealsTruly(o.verify, caller, msg, BundleMask(b));
    assert o.signing(sealed) == msg;
    forall x | Rulebook.HasScheme(b, x) ensures Rulebook.Carries(eggs, x) {
      Rulebook.MaskIs(b, x);
      HeldByTheCaller(caller, b, x);
    }
    forall i | 0 <= i < |eggs| ensures Rulebook.SigStands(o, sealed, b, eggs[i]) {
      EggUnder(o.verify, caller, b, eggs[i], msg);
    }
    assert Rulebook.Carries(eggs, ED25519);
  }

  lemma HeldByTheCaller(caller: Caller, b: KeyBundle, x: nat)
    requires forall x, key :: Rulebook.KeyUnder(b, x, key) ==> Rulebook.KeyUnder(Keys(caller), x, key)
    requires Rulebook.HasScheme(b, x)
    ensures Rulebook.HasScheme(Keys(caller), x)
  {
    var key := Rulebook.KeyOf(b, x);
    assert Rulebook.KeyUnder(Keys(caller), x, key);
  }

  // An egg that is good under the caller's keys is good under those of them the chain knows.
  lemma EggUnder(v: Verify, caller: Caller, b: KeyBundle, e: Egg, msg: seq<byte>)
    requires Rulebook.KeyUnder(Keys(caller), ED25519, Be(caller.me, 32))
    requires forall x, key :: Rulebook.KeyUnder(b, x, key) ==> Rulebook.KeyUnder(Keys(caller), x, key)
    requires Rulebook.EggStands(v, e, Keys(caller), msg) && (e.scheme == ED25519 || e.scheme in BundleMask(b))
    ensures e.scheme == ED25519 ==> v(ED25519, Be(caller.me, 32), msg, e.sig)
    ensures e.scheme != ED25519 ==> Rulebook.EggStands(v, e, b, msg)
  {
    var key :| Rulebook.KeyUnder(Keys(caller), e.scheme, key) && v(e.scheme, key, msg, e.sig);
    if e.scheme == ED25519 {
      Rulebook.OneKeyUnder(Keys(caller), ED25519, key, Be(caller.me, 32));
    } else {
      Rulebook.MaskIs(b, e.scheme);
      var known := Rulebook.KeyOf(b, e.scheme);
      Rulebook.OneKeyUnder(Keys(caller), e.scheme, key, known);
    }
  }

  // What a caller builds of any kind but a Declare folds, once its kind's own rule holds.
  lemma BuiltFolds(o: Oracle, caller: Caller, c: Chain, op: FleetOp)
    requires Ready(o, caller, c) && KeysMeetTheFloor(caller, c)
    requires op.signer == caller.me && op.kind != Declare
    requires op.handleProof == c[0].handleProof && op.prevHash == o.chainHash(c[|c| - 1])
    requires Rulebook.WellShaped(op)
    requires var sealed := Sealed(o, caller, op, DeclaredMask(o, c, caller.me)); Rulebook.KindStands(o, c, sealed)
    ensures Folds(o, c + [Sealed(o, caller, op, DeclaredMask(o, c, caller.me))])
  {
    var judged, sealed := Rulebook.JudgedBy(c, caller.me), Sealed(o, caller, op, DeclaredMask(o, c, caller.me));
    StateIs(o, c, caller.me);
    SealStands(o, caller, c, op, judged);
    assert Rulebook.CarriesTheFloor(c, sealed.sigs);
    Rulebook.FoldsOneMoreIff(o, c, sealed);
  }

  lemma StampIsSound(o: Oracle, caller: Caller, c: Chain)
    requires Folds(o, c) && caller.now < OP_TIME_MAX_OSC
    ensures 0 <= StampAfter(c, caller.now) < OP_TIME_MAX_OSC
  {
    TipIsSound(o, c);
  }

  // ---- bind ----

  function BuildAdd(o: Oracle, caller: Caller, c: Chain, req: BindRequest): FleetOp
    requires c != []
  {
    Sealed(o, caller, Blank(o, caller, c, Add, req.device).(
      version := MintVersion(req.plate, req.plateKind), consentT := req.t, consent := req.consent,
      bundle := req.bundle, plate := req.plate, plateKind := req.plateKind), DeclaredMask(o, c, caller.me))
  }

  function DecideBind(o: Oracle, caller: Caller, req: BindRequest, c: Chain): Decision {
    if c == [] || !MemberOf(o, c, caller.me) then Refuse
    else if MemberOf(o, c, req.device) then Done
    else Append(BuildAdd(o, caller, c, req))
  }

  lemma FoldedAppend(o: Oracle, c: Chain, op: FleetOp)
    requires c != [] && Folds(o, c) && Folds(o, c + [op])
    ensures Refusal(o, FoldChain(o, c).value, op).None?
    ensures FoldChain(o, c + [op]).value == After(o, FoldChain(o, c).value, op)
  {
    FoldSnoc(o, c, op);
  }

  // The keys a request brings.
  function Brought(req: BindRequest): KeyBundle {
    if req.bundle.Some? then req.bundle.value else KeyBundle([KeyEntry(ED25519, Be(req.device, 32))])
  }

  // Whatever op carries this request's terms, the consent verifies over what the joiner signed.
  ghost predicate ConsentIsTheirs(o: Oracle, req: BindRequest, identity: Key32) {
    forall op: FleetOp ::
      op.handleProof == identity && op.device == req.device && op.consentT == req.t && op.plate == req.plate
        && op.plateKind == req.plateKind
      ==> Rulebook.ConsentStands(o.verify, req.consent, Brought(req), o.bindRequest(op))
  }

  // A request that can be bound: in time, well formed, consented with every key it brings and with the
  // whole floor.
  ghost predicate Bindable(o: Oracle, caller: Caller, req: BindRequest, c: Chain)
    requires c != []
  {
    && ConsentIsTheirs(o, req, c[0].handleProof) && InTime(caller, c, req.t)
    && (req.bundle.Some? ==> Ed25519Of(req.bundle.value) == req.device) && req.plateKind <= PLATE_PIPE
    && (forall x :: Rulebook.Demanded(c, x) ==> Rulebook.HasScheme(Brought(req), x))
    && (forall x :: Rulebook.HasScheme(Brought(req), x) ==> Rulebook.Carries(req.consent, x))
  }

  ghost predicate MayBind(o: Oracle, caller: Caller, req: BindRequest, c: Chain) {
    Ready(o, caller, c)
    && (Rulebook.MemberIn(c, req.device) || (KeysMeetTheFloor(caller, c) && Bindable(o, caller, req, c)))
  }

  lemma BindIsWilling(o: Oracle, caller: Caller, req: BindRequest, c: Chain)
    requires MayBind(o, caller, req, c)
    ensures Willing(o, DecideBind(o, caller, req, c), c)
  {
    StateIs(o, c, caller.me);
    StateIs(o, c, req.device);
    if !MemberOf(o, c, req.device) {
      StampIsSound(o, caller, c);
      var op := Blank(o, caller, c, Add, req.device).(
        version := MintVersion(req.plate, req.plateKind), consentT := req.t, consent := req.consent,
        bundle := req.bundle, plate := req.plate, plateKind := req.plateKind);
      AddStandsSealed(o, caller, req, c, Sealed(o, caller, op, DeclaredMask(o, c, caller.me)));
      BuiltFolds(o, caller, c, op);
    }
  }

  lemma AddStandsSealed(o: Oracle, caller: Caller, req: BindRequest, c: Chain, op: FleetOp)
    requires c != [] && Bindable(o, caller, req, c) && !Rulebook.MemberIn(c, req.device)
    requires op.kind == Add && op.device == req.device && op.handleProof == c[0].handleProof && op.bundle == req.bundle
    requires op.consentT == req.t && op.consent == req.consent && op.plate == req.plate && op.plateKind == req.plateKind
    requires op.time == StampAfter(c, caller.now)
    ensures Rulebook.KindStands(o, c, op)
  {
    assert Rulebook.Offered(op) == Brought(req);
    assert Rulebook.CarriesTheFloor(c, op.consent);
  }

  // Once Ok: what stands on top is the requested Add.
  ghost predicate AddedOnTop(o: Oracle, caller: Caller, req: BindRequest, c: Chain) {
    && |c| > 1 && Appended(o, caller, c, Add, req.device, SchemesBelow(c, caller.me))
    && var op := c[|c| - 1];
       && op.consent == req.consent && op.consentT == req.t && op.bundle == req.bundle
       && op.plate == req.plate && op.plateKind == req.plateKind
  }

  method BindDevice(
    o: Oracle, slot: Slot, caller: Caller, req: BindRequest, others: seq<Chain>, wire: seq<Transit>)
    returns (r: Outcome)
    requires |others| == |wire| == 4
    requires forall i, j :: 0 <= i < 4 && 0 <= j < |others[i]| ==> others[i][j].signer != caller.me
    modifies slot
    ensures r.AlreadyDone? || LandedBy(r) != [] ==> MemberOf(o, slot.chain, req.device)
    ensures LandedBy(r) != [] ==> AddedOnTop(o, caller, req, slot.chain)
    ensures r.LostRaces? ==> forall i :: 0 <= i < 4 ==> others[i] != [] && wire[i].Clear?
    ensures forall k :: Undisturbed(others, wire, k)
                        && (forall i :: 0 <= i <= k ==> MayBind(o, caller, req, Fetched(old(slot.chain), others, i)))
              ==> r.AlreadyDone? || r.LandedOp?
  {
    var decide := c => DecideBind(o, caller, req, c);
    forall c | decide(c).Append? && Folds(o, c + [decide(c).op]) ensures MemberOf(o, c + [decide(c).op], req.device) {
      FoldedAppend(o, c, decide(c).op);
    }
    ghost var start, used := slot.chain, 0;
    r, used := Retry(o, slot, caller.me, decide, c => MemberOf(o, c, req.device), others, wire);
    forall k | Undisturbed(others, wire, k)
               && (forall i :: 0 <= i <= k ==> MayBind(o, caller, req, Fetched(start, others, i)))
      ensures r.AlreadyDone? || r.LandedOp?
    {
      forall i | 0 <= i <= k ensures WillingAt(o, decide, start, others, i) {
        BindIsWilling(o, caller, req, Fetched(start, others, i));
      }
    }
    if LandedBy(r) != [] {
      BindIsOnTop(o, caller, req, slot.chain);
    }
  }

  lemma BindIsOnTop(o: Oracle, caller: Caller, req: BindRequest, c: Chain)
    requires c != [] && DecideBind(o, caller, req, c[..|c| - 1]) == Append(c[|c| - 1])
    ensures AddedOnTop(o, caller, req, c)
  {
    var below := c[..|c| - 1];
    OnTop(c);
    StateIs(o, below, caller.me);
    assert c[|c| - 1] == BuildAdd(o, caller, below, req);
  }

  // ---- lock and unlock ----

  function DecideLock(o: Oracle, caller: Caller, device: Key32, lock: bool, c: Chain): Decision {
    if c == [] || !MemberOf(o, c, caller.me) || LockedIn(o, c, caller.me) then Refuse
    else if LockedIn(o, c, device) == lock then Done
    else
      Append(Sealed(o, caller, Blank(o, caller, c, if lock then Lock else Unlock, device),
                    DeclaredMask(o, c, caller.me)))
  }

  lemma LockTakes(o: Oracle, s: State, op: FleetOp)
    requires Refusal(o, s, op).None? && (op.kind == Lock || op.kind == Unlock)
    ensures op.device in After(o, s, op).locked <==> op.kind == Lock
  {
  }

  // Any other member can be locked, and whoever is locked unlocked.
  ghost predicate MayLock(o: Oracle, caller: Caller, device: Key32, lock: bool, c: Chain) {
    Ready(o, caller, c)
    && (Rulebook.LockedIn(c, device) == lock
        || (KeysMeetTheFloor(caller, c) && (lock ==> Rulebook.MemberIn(c, device) && device != caller.me)))
  }

  lemma LockIsWilling(o: Oracle, caller: Caller, device: Key32, lock: bool, c: Chain)
    requires MayLock(o, caller, device, lock, c)
    ensures Willing(o, DecideLock(o, caller, device, lock, c), c)
  {
    StateIs(o, c, caller.me);
    StateIs(o, c, device);
    if LockedIn(o, c, device) != lock {
      StampIsSound(o, caller, c);
      BuiltFolds(o, caller, c, Blank(o, caller, c, if lock then Lock else Unlock, device));
    }
  }

  lemma LockIsOnTop(o: Oracle, caller: Caller, device: Key32, lock: bool, c: Chain)
    requires c != [] && DecideLock(o, caller, device, lock, c[..|c| - 1]) == Append(c[|c| - 1])
    ensures |c| > 1 && Appended(o, caller, c, if lock then Lock else Unlock, device, SchemesBelow(c, caller.me))
  {
    OnTop(c);
    StateIs(o, c[..|c| - 1], caller.me);
  }

  method LockOpChain(
    o: Oracle, slot: Slot, caller: Caller, device: Key32, lock: bool, others: seq<Chain>, wire: seq<Transit>)
    returns (r: Outcome)
    requires |others| == |wire| == 4
    requires forall i, j :: 0 <= i < 4 && 0 <= j < |others[i]| ==> others[i][j].signer != caller.me
    modifies slot
    ensures r.AlreadyDone? || LandedBy(r) != [] ==> Folds(o, slot.chain) && LockedIn(o, slot.chain, device) == lock
    ensures LandedBy(r) != [] ==>
              && |slot.chain| > 1
              && Appended(o, caller, slot.chain, if lock then Lock else Unlock, device,
                          SchemesBelow(slot.chain, caller.me))
    ensures r.LostRaces? ==> forall i :: 0 <= i < 4 ==> others[i] != [] && wire[i].Clear?
    ensures forall k :: Undisturbed(others, wire, k)
                        && (forall i :: 0 <= i <= k ==>
                              MayLock(o, caller, device, lock, Fetched(old(slot.chain), others, i)))
              ==> r.AlreadyDone? || r.LandedOp?
  {
    var decide := c => DecideLock(o, caller, device, lock, c);
    ghost var want := c => Folds(o, c) && LockedIn(o, c, device) == lock;
    forall c | decide(c).Append? && Folds(o, c + [decide(c).op]) ensures want(c + [decide(c).op]) {
      FoldedAppend(o, c, decide(c).op);
      LockTakes(o, FoldChain(o, c).value, decide(c).op);
    }
    ghost var start, used := slot.chain, 0;
    r, used := Retry(o, slot, caller.me, decide, want, others, wire);
    forall k | Undisturbed(others, wire, k)
               && (forall i :: 0 <= i <= k ==> MayLock(o, caller, device, lock, Fetched(start, others, i)))
      ensures r.AlreadyDone? || r.LandedOp?
    {
      forall i | 0 <= i <= k ensures WillingAt(o, decide, start, others, i) {
        LockIsWilling(o, caller, device, lock, Fetched(start, others, i));
      }
    }
    if LandedBy(r) != [] {
      LockIsOnTop(o, caller, device, lock, slot.chain);
    }
  }

  // ---- departures ----

  function DecideDepart(o: Oracle, caller: Caller, c: Chain): Decision {
    if c == [] || !Folds(o, c) then Refuse
    else if !MemberOf(o, c, caller.me) then Done
    else Append(Sealed(o, caller, Blank(o, caller, c, Remove, caller.me), DeclaredMask(o, c, caller.me)))
  }

  function DecideDepartConsented(
    o: Oracle, caller: Caller, leaving: Key32, t: int, consent: seq<Egg>, c: Chain): Decision {
    if c == [] || !Folds(o, c) then Refuse
    else if !MemberOf(o, c, leaving) then Done
    else
      Append(Sealed(o, caller, Blank(o, caller, c, Remove, leaving).(consentT := t, consent := consent),
                    DeclaredMask(o, c, caller.me)))
  }

  lemma RemoveTakes(o: Oracle, s: State, op: FleetOp)
    requires Refusal(o, s, op).None? && op.kind == Remove
    ensures op.device !in After(o, s, op).members
  {
  }

  ghost predicate MayDepart(o: Oracle, caller: Caller, c: Chain) {
    c != [] && Folds(o, c)
    && (Rulebook.MemberIn(c, caller.me) ==> Ready(o, caller, c) && KeysMeetTheFloor(caller, c))
  }

  lemma DepartIsWilling(o: Oracle, caller: Caller, c: Chain)
    requires MayDepart(o, caller, c)
    ensures Willing(o, DecideDepart(o, caller, c), c)
  {
    StateIs(o, c, caller.me);
    if MemberOf(o, c, caller.me) {
      StampIsSound(o, caller, c);
      BuiltFolds(o, caller, c, Blank(o, caller, c, Remove, caller.me));
    }
  }

  lemma DepartIsOnTop(o: Oracle, caller: Caller, c: Chain)
    requires c != [] && DecideDepart(o, caller, c[..|c| - 1]) == Append(c[|c| - 1])
    ensures |c| > 1 && Appended(o, caller, c, Remove, caller.me, SchemesBelow(c, caller.me))
    ensures c[|c| - 1].consent == []
  {
    OnTop(c);
    StateIs(o, c[..|c| - 1], caller.me);
  }

  method DepartDevice(
    o: Oracle, slot: Slot, caller: Caller, others: seq<Chain>, wire: seq<Transit>) returns (r: Outcome)
    requires |others| == |wire| == 4
    requires forall i, j :: 0 <= i < 4 && 0 <= j < |others[i]| ==> others[i][j].signer != caller.me
    modifies slot
    ensures r.AlreadyDone? || LandedBy(r) != [] ==> Folds(o, slot.chain) && !MemberOf(o, slot.chain, caller.me)
    ensures LandedBy(r) != [] ==>
              && |slot.chain| > 1
              && Appended(o, caller, slot.chain, Remove, caller.me, SchemesBelow(slot.chain, caller.me))
              && slot.chain[|slot.chain| - 1].consent == []
    ensures r.LostRaces? ==> forall i :: 0 <= i < 4 ==> others[i] != [] && wire[i].Clear?
    ensures forall k :: Undisturbed(others, wire, k)
                        && (forall i :: 0 <= i <= k ==> MayDepart(o, caller, Fetched(old(slot.chain), others, i)))
              ==> r.AlreadyDone? || r.LandedOp?
  {
    var decide := c => DecideDepart(o, caller, c);
    ghost var want := c => Folds(o, c) && !MemberOf(o, c, caller.me);
    forall c | decide(c).Append? && Folds(o, c + [decide(c).op]) ensures want(c + [decide(c).op]) {
      FoldedAppend(o, c, decide(c).op);
      RemoveTakes(o, FoldChain(o, c).value, decide(c).op);
    }
    ghost var start, used := slot.chain, 0;
    r, used := Retry(o, slot, caller.me, decide, want, others, wire);
    forall k | Undisturbed(others, wire, k)
               && (forall i :: 0 <= i <= k ==> MayDepart(o, caller, Fetched(start, others, i)))
      ensures r.AlreadyDone? || r.LandedOp?
    {
      forall i | 0 <= i <= k ensures WillingAt(o, decide, start, others, i) {
        DepartIsWilling(o, caller, Fetched(start, others, i));
      }
    }
    if LandedBy(r) != [] {
      DepartIsOnTop(o, caller, slot.chain);
    }
  }

  // Whatever Remove carries this departure's terms, the consent verifies over what the leaver signed.
  ghost predicate LeaveIsTheirs(o: Oracle, leaving: Key32, t: int, consent: seq<Egg>, c: Chain)
    requires c != []
  {
    forall op: FleetOp ::
      op.handleProof == c[0].handleProof && op.device == leaving && op.consentT == t
      ==> Rulebook.ConsentStands(o.verify, consent, Rulebook.JudgedBy(c, leaving), o.departRequest(op))
  }

  // The leaver's consent, in time and with the whole floor, for another than the caller.
  ghost predicate MayRelease(o: Oracle, caller: Caller, leaving: Key32, t: int, consent: seq<Egg>, c: Chain) {
    c != [] && Folds(o, c)
    && (Rulebook.MemberIn(c, leaving) ==>
          && Ready(o, caller, c) && KeysMeetTheFloor(caller, c)
          && leaving != caller.me && t != 0 && consent != [] && InTime(caller, c, t)
          && LeaveIsTheirs(o, leaving, t, consent, c) && Rulebook.CarriesTheFloor(c, consent))
  }

  lemma ReleaseIsWilling(o: Oracle, caller: Caller, leaving: Key32, t: int, consent: seq<Egg>, c: Chain)
    requires MayRelease(o, caller, leaving, t, consent, c)
    ensures Willing(o, DecideDepartConsented(o, caller, leaving, t, consent, c), c)
  {
    StateIs(o, c, caller.me);
    StateIs(o, c, leaving);
    if MemberOf(o, c, leaving) {
      StampIsSound(o, caller, c);
      BuiltFolds(o, caller, c, Blank(o, caller, c, Remove, leaving).(consentT := t, consent := consent));
    }
  }

  lemma ReleaseIsOnTop(o: Oracle, caller: Caller, leaving: Key32, t: int, consent: seq<Egg>, c: Chain)
    requires c != []
    requires DecideDepartConsented(o, caller, leaving, t, consent, c[..|c| - 1]) == Append(c[|c| - 1])
    ensures |c| > 1 && Appended(o, caller, c, Remove, leaving, SchemesBelow(c, caller.me))
    ensures c[|c| - 1].consent == consent && c[|c| - 1].consentT == t
  {
    OnTop(c);
    StateIs(o, c[..|c| - 1], caller.me);
  }

  // The approver's side: it never checks that it is a member itself, the fold does.
  method DepartDeviceConsented(
    o: Oracle, slot: Slot, caller: Caller, leaving: Key32, t: int, consent: seq<Egg>, others: seq<Chain>,
    wire: seq<Transit>) returns (r: Outcome)
    requires |others| == |wire| == 4
    requires forall i, j :: 0 <= i < 4 && 0 <= j < |others[i]| ==> others[i][j].signer != caller.me
    modifies slot
    ensures r.AlreadyDone? || LandedBy(r) != [] ==> Folds(o, slot.chain) && !MemberOf(o, slot.chain, leaving)
    ensures LandedBy(r) != [] ==>
              && |slot.chain| > 1
              && Appended(o, caller, slot.chain, Remove, leaving, SchemesBelow(slot.chain, caller.me))
              && slot.chain[|slot.chain| - 1].consent == consent && slot.chain[|slot.chain| - 1].consentT == t
    ensures r.LostRaces? ==> forall i :: 0 <= i < 4 ==> others[i] != [] && wire[i].Clear?
    ensures forall k :: Undisturbed(others, wire, k)
                        && (forall i :: 0 <= i <= k ==>
                              MayRelease(o, caller, leaving, t, consent, Fetched(old(slot.chain), others, i)))
              ==> r.AlreadyDone? || r.LandedOp?
  {
    var decide := c => DecideDepartConsented(o, caller, leaving, t, consent, c);
    ghost var want := c => Folds(o, c) && !MemberOf(o, c, leaving);
    forall c | decide(c).Append? && Folds(o, c + [decide(c).op]) ensures want(c + [decide(c).op]) {
      FoldedAppend(o, c, decide(c).op);
      RemoveTakes(o, FoldChain(o, c).value, decide(c).op);
    }
    ghost var start, used := slot.chain, 0;
    r, used := Retry(o, slot, caller.me, decide, want, others, wire);
    forall k | Undisturbed(others, wire, k)
               && (forall i :: 0 <= i <= k ==>
                     MayRelease(o, caller, leaving, t, consent, Fetched(start, others, i)))
      ensures r.AlreadyDone? || r.LandedOp?
    {
      forall i | 0 <= i <= k ensures WillingAt(o, decide, start, others, i) {
        ReleaseIsWilling(o, caller, leaving, t, consent, Fetched(start, others, i));
      }
    }
    if LandedBy(r) != [] {
      ReleaseIsOnTop(o, caller, leaving, t, consent, slot.chain);
    }
  }

  // ---- declare ----

  // The device's declared capability covers `mask`, and its plate and kind are on the chain when it
  // states them.
  predicate DeclaredOn(o: Oracle, c: Chain, me: Key32, mask: Mask, plate: Option<Key32>, plateKind: nat) {
    Folds(o, c)
    && Covers(MaskFor(FoldChain(o, c).value.bundles, me), mask)
    && (plate.None? || Find(FoldChain(o, c).value.plates, me) == plate)
    && (plateKind == UNSTATED || Find(FoldChain(o, c).value.kinds, me) == Some(plateKind))
  }

  function DecideDeclare(o: Oracle, caller: Caller, plate: Option<Key32>, plateKind: nat, c: Chain): Decision {
    if c == [] || !MemberOf(o, c, caller.me) then Refuse
    else if DeclaredOn(o, c, caller.me, BundleMask(Keys(caller)), plate, plateKind) then Done
    else
      Append(Sealed(o, caller, Blank(o, caller, c, Declare, caller.me).(
        version := MintVersion(plate, plateKind), bundle := Some(Keys(caller)), plate := plate, plateKind := plateKind),
                    BundleMask(Keys(caller))))
  }

  lemma DeclareTakes(o: Oracle, s: State, op: FleetOp)
    requires Refusal(o, s, op).None? && op.kind == Declare
    ensures MaskFor(After(o, s, op).bundles, op.device) == BundleMask(op.bundle.value)
    ensures op.plate.Some? ==> Find(After(o, s, op).plates, op.device) == op.plate
    ensures op.plateKind != UNSTATED ==> Find(After(o, s, op).kinds, op.device) == Some(op.plateKind)
  {
    MaskAfter(o, s, op, op.device);
    if op.plate.Some? {
      FindUpsert(s.plates, op.device, op.plate.value, op.device);
    }
    FindUpsert(s.kinds, op.device, op.plateKind, op.device);
  }

  // What the caller holds is its device's, meets the floor, and gives up nothing it had declared.
  ghost predicate MayDeclare(o: Oracle, caller: Caller, plateKind: nat, c: Chain) {
    && Ready(o, caller, c) && Ed25519Of(Keys(caller)) == caller.me && plateKind <= PLATE_PIPE
    && (forall x :: Rulebook.Demanded(c, x) ==> Rulebook.HasScheme(Keys(caller), x))
    && (forall x :: Rulebook.HasScheme(Rulebook.JudgedBy(c, caller.me), x) ==> Rulebook.HasScheme(Keys(caller), x))
  }

  lemma DeclareIsWilling(o: Oracle, caller: Caller, plate: Option<Key32>, plateKind: nat, c: Chain)
    requires MayDeclare(o, caller, plateKind, c)
    ensures Willing(o, DecideDeclare(o, caller, plate, plateKind, c), c)
  {
    StateIs(o, c, caller.me);
    var b := Keys(caller);
    if !DeclaredOn(o, c, caller.me, BundleMask(b), plate, plateKind) {
      StampIsSound(o, caller, c);
      var op := Blank(o, caller, c, Declare, caller.me).(
        version := MintVersion(plate, plateKind), bundle := Some(b), plate := plate, plateKind := plateKind);
      var sealed := Sealed(o, caller, op, BundleMask(b));
      SealStands(o, caller, c, op, b);
      assert Rulebook.CarriesTheFloor(c, sealed.sigs);
      Rulebook.FoldsOneMoreIff(o, c, sealed);
    }
  }

  ghost predicate DeclaredOnTop(o: Oracle, caller: Caller, plate: Option<Key32>, plateKind: nat, c: Chain) {
    && Appended(o, caller, c, Declare, caller.me, BundleMask(Keys(caller)))
    && c[|c| - 1].bundle == Some(Keys(caller)) && c[|c| - 1].plate == plate && c[|c| - 1].plateKind == plateKind
  }

  lemma DeclareIsOnTop(o: Oracle, caller: Caller, plate: Option<Key32>, plateKind: nat, c: Chain)
    requires c != [] && DecideDeclare(o, caller, plate, plateKind, c[..|c| - 1]) == Append(c[|c| - 1])
    ensures DeclaredOnTop(o, caller, plate, plateKind, c)
  {
    OnTop(c);
  }

  method DeclareDevicePlated(
    o: Oracle, slot: Slot, caller: Caller, plate: Option<Key32>, plateKind: nat,
    others: seq<Chain>, wire: seq<Transit>) returns (r: Outcome)
    requires |others| == |wire| == 4
    requires forall i, j :: 0 <= i < 4 && 0 <= j < |others[i]| ==> others[i][j].signer != caller.me
    modifies slot
    ensures r.AlreadyDone? || LandedBy(r) != []
            ==> DeclaredOn(o, slot.chain, caller.me, BundleMask(Keys(caller)), plate, plateKind)
    ensures LandedBy(r) != [] ==> DeclaredOnTop(o, caller, plate, plateKind, slot.chain)
    ensures r.LostRaces? ==> forall i :: 0 <= i < 4 ==> others[i] != [] && wire[i].Clear?
    ensures forall k :: Undisturbed(others, wire, k)
                        && (forall i :: 0 <= i <= k ==>
                              MayDeclare(o, caller, plateKind, Fetched(old(slot.chain), others, i)))
              ==> r.AlreadyDone? || r.LandedOp?
  {
    var decide := c => DecideDeclare(o, caller, plate, plateKind, c);
    ghost var want := c => DeclaredOn(o, c, caller.me, BundleMask(Keys(caller)), plate, plateKind);
    forall c | decide(c).Append? && Folds(o, c + [decide(c).op]) ensures want(c + [decide(c).op]) {
      FoldedAppend(o, c, decide(c).op);
      DeclareTakes(o, FoldChain(o, c).value, decide(c).op);
    }
    ghost var start, used := slot.chain, 0;
    r, used := Retry(o, slot, caller.me, decide, want, others, wire);
    forall k | Undisturbed(others, wire, k)
               && (forall i :: 0 <= i <= k ==> MayDeclare(o, caller, plateKind, Fetched(start, others, i)))
      ensures r.AlreadyDone? || r.LandedOp?
    {
      forall i | 0 <= i <= k ensures WillingAt(o, decide, start, others, i) {
        DeclareIsWilling(o, caller, plate, plateKind, Fetched(start, others, i));
      }
    }
    if LandedBy(r) != [] {
      DeclareIsOnTop(o, caller, plate, plateKind, slot.chain);
    }
  }

  // ---- checkpoints ----

  function BuildCheckpoint(o: Oracle, caller: Caller, c: Chain, k: nat, commit: Key32, epoch: nat): FleetOp
    requires c != []
  {
    Sealed(o, caller, Blank(o, caller, c, Checkpoint, caller.me).(ckptK := k, ckptCommit := commit, ckptEpoch := epoch),
           DeclaredMask(o, c, caller.me))
  }

  // With nobody landing in between, the next number and a commitment, a ready member's checkpoint lands.
  lemma CheckpointLands(o: Oracle, caller: Caller, c: Chain, k: nat, commit: Key32, epoch: nat, again: Chain)
    requires Ready(o, caller, c) && KeysMeetTheFloor(caller, c) && k == Checkpoints(c, |c|) + 1 && commit != 0
    ensures var op := BuildCheckpoint(o, caller, c, k, commit, epoch);
            && PushCheckpoint(o, caller.me, k, op, c, c, again) == (Answer(None), c + [op])
            && Appended(o, caller, c + [op], Checkpoint, caller.me, SchemesBelow(c + [op], caller.me))
            && LatestCheckpoint(c + [op]) == Some((k, commit, epoch))
  {
    var blank := Blank(o, caller, c, Checkpoint, caller.me).(ckptK := k, ckptCommit := commit, ckptEpoch := epoch);
    var op := BuildCheckpoint(o, caller, c, k, commit, epoch);
    var blob := c + [op];
    StateIs(o, c, caller.me);
    StampIsSound(o, caller, c);
    BuiltFolds(o, caller, c, blank);
    PushOutcomes(o, caller.me, k, op, c, c, again);
    assert blob[..|c|] == c && blob[|c|] == op;
    OnTop(blob);
    LatestIsTheLastOne(blob, |c|);
  }

  // ---- under the real preimages ----

  lemma RealSigningComesFirst(w: Preimage.EggCodec, h: Hash, v: Verify)
    ensures SignsBeforeSealing(RealOracle(w, h, v))
  {
    var o := RealOracle(w, h, v);
    forall op: FleetOp, eggs ensures o.signing(op.(sigs := eggs)) == o.signing(op) {
      Preimage.SigningLeavesTheSealOut(w, op, eggs);
    }
  }

  // One op with a request's terms is enough: the bytes a joiner signs are those terms and no more.
  lemma RealConsentIsTheirs(w: Preimage.EggCodec, h: Hash, v: Verify, req: BindRequest, op: FleetOp)
    requires op.device == req.device && op.consentT == req.t && op.plate == req.plate && op.plateKind == req.plateKind
    requires Rulebook.ConsentStands(v, req.consent, Brought(req), Preimage.BindRequestBytes(op))
    ensures ConsentIsTheirs(RealOracle(w, h, v), req, op.handleProof)
  {
  }

  lemma RealLeaveIsTheirs(
    w: Preimage.EggCodec, h: Hash, v: Verify, c: Chain, leaving: Key32, t: int, consent: seq<Egg>, op: FleetOp)
    requires c != [] && op.handleProof == c[0].handleProof && op.device == leaving && op.consentT == t
    requires Rulebook.ConsentStands(v, consent, Rulebook.JudgedBy(c, leaving), Preimage.DepartRequestBytes(op))
    ensures LeaveIsTheirs(RealOracle(w, h, v), leaving, t, consent, c)
  {
  }
}
