/** The capability floor: a ratchet, the required egg set, and exactly what the fleet can do. */
module Floor {
  import opened Wrappers
  import opened Bytes
  import opened Schemes
  import opened Assoc
  import opened FleetOps
  import opened Fold
  import opened Membership

  // The floor never falls along a folding chain.
  lemma {:induction false} FloorNeverFalls(o: Oracle, ops: seq<FleetOp>, m: nat, n: nat)
    requires Folds(o, ops) && m <= n <= |ops|
    ensures StateAt(o, ops, m).floor <= StateAt(o, ops, n).floor
    decreases n - m
  {
    if m < n {
      FloorNeverFalls(o, ops, m, n - 1);
      FloorAt(o, ops, n - 1);
    }
  }

  lemma FloorAt(o: Oracle, ops: seq<FleetOp>, i: nat)
    requires Folds(o, ops) && i < |ops|
    ensures StateAt(o, ops, i).floor <= StateAt(o, ops, i + 1).floor
  {
    Accepted(o, ops, i);
  }

  lemma SignerIsUnlocked(o: Oracle, s: State, op: FleetOp)
    requires Refusal(o, s, op).None? && s.height > 0
    ensures op.signer in s.members && op.signer !in s.locked
  {
  }

  // Past the genesis, every op is signed by a device that was an unlocked member before it.
  lemma EverySignerWasUnlocked(o: Oracle, ops: seq<FleetOp>, i: nat)
    requires Folds(o, ops) && 0 < i < |ops|
    ensures ops[i].signer in StateAt(o, ops, i).members && ops[i].signer !in StateAt(o, ops, i).locked
  {
    FoldedStateIsGood(o, ops, i);
    Accepted(o, ops, i);
    SignerIsUnlocked(o, StateAt(o, ops, i), ops[i]);
  }

  // ---- the floor is what the unlocked members can all do ----

  predicate Joins(op: FleetOp) {
    op.kind == Genesis || op.kind == Add
  }

  // Was d brought in by one of the first n ops?
  predicate HasJoined(ops: seq<FleetOp>, n: nat, d: Key32)
    requires n <= |ops|
  {
    n > 0 && ((Joins(ops[n - 1]) && ops[n - 1].device == d) || HasJoined(ops, n - 1, d))
  }

  // No device is brought in twice.
  ghost predicate JoinsOnce(ops: seq<FleetOp>) {
    forall i :: 0 <= i < |ops| && Joins(ops[i]) ==> !HasJoined(ops, i, ops[i].device)
  }

  ghost predicate NoUnlock(ops: seq<FleetOp>) {
    forall i :: 0 <= i < |ops| ==> ops[i].kind != Unlock
  }

  // What parsing guarantees of carried bundles.
  ghost predicate BundlesParsed(ops: seq<FleetOp>) {
    forall i :: 0 <= i < |ops| ==> (ops[i].bundle.Some? ==> ValidBundle(ops[i].bundle.value))
  }

  ghost predicate Exact(s: State) {
    HasUnlocked(s) ==> s.floor == Live(s.members, s.locked, s.bundles)
  }

  lemma MaskAfter(o: Oracle, s: State, op: FleetOp, d: Key32)
    requires Refusal(o, s, op).None?
    ensures MaskFor(After(o, s, op).bundles, d) ==
            if d == op.device && op.kind == Declare then BundleMask(op.bundle.value)
            else if d == op.device && op.kind == Add && Find(s.bundles, d).None? then BundleMask(Joined(op))
            else MaskFor(s.bundles, d)
  {
    if op.kind == Declare {
      FindUpsert(s.bundles, op.device, op.bundle.value, d);
    } else if op.kind == Add {
      FindPushed(s.bundles, op.device, Joined(op), d);
    }
  }

  // A device that never joined has no entry to hide a new one behind.
  lemma {:induction false} EntryMeansJoined(o: Oracle, ops: seq<FleetOp>, n: nat, d: Key32)
    requires Folds(o, ops) && n <= |ops|
    ensures Find(StateAt(o, ops, n).bundles, d).Some? || d in StateAt(o, ops, n).members ==> HasJoined(ops, n, d)
  {
    if n > 0 {
      EntryMeansJoined(o, ops, n - 1, d);
      EntryAt(o, ops, n - 1, d);
    }
  }

  lemma EntryAt(o: Oracle, ops: seq<FleetOp>, i: nat, d: Key32)
    requires Folds(o, ops) && i < |ops|
    ensures Find(StateAt(o, ops, i + 1).bundles, d).Some? || d in StateAt(o, ops, i + 1).members ==>
              Find(StateAt(o, ops, i).bundles, d).Some? || d in StateAt(o, ops, i).members
              || (Joins(ops[i]) && ops[i].device == d)
  {
    Accepted(o, ops, i);
    EntryStep(o, StateAt(o, ops, i), ops[i], d);
  }

  lemma EntryStep(o: Oracle, s: State, op: FleetOp, d: Key32)
    requires Refusal(o, s, op).None?
    ensures Find(After(o, s, op).bundles, d).Some? || d in After(o, s, op).members ==>
              Find(s.bundles, d).Some? || d in s.members || (Joins(op) && op.device == d)
  {
    if op.kind == Declare {
      FindUpsert(s.bundles, op.device, op.bundle.value, d);
    } else if op.kind == Add {
      FindPushed(s.bundles, op.device, Joined(op), d);
    }
  }

  // The device an Unlock or an Add puts among the unlocked is judged, from then on, by a mask that
  // covers the floor.
  predicate SubjectCovers(o: Oracle, s: State, op: FleetOp) {
    op.kind == Unlock || op.kind == Add ==> s.floor <= MaskFor(After(o, s, op).bundles, op.device)
  }

  // One op cannot take away from what the unlocked members share, unless through the device it puts
  // among them: a declaration only grows, and leaving or being locked drops a constraint.
  lemma OnlyTheSubjectMayFallShort(o: Oracle, s: State, op: FleetOp, x: nat, d: Key32)
    requires Refusal(o, s, op).None? && op.kind != Genesis && (op.kind == Declare ==> ValidBundle(op.bundle.value))
    requires forall d :: d in s.members && d !in s.locked ==> x in MaskFor(s.bundles, d)
    requires d in After(o, s, op).members && d !in After(o, s, op).locked
    ensures x in MaskFor(After(o, s, op).bundles, d) || (d == op.device && (op.kind == Unlock || op.kind == Add))
  {
    MaskAfter(o, s, op, d);
    if d != op.device || (op.kind != Unlock && op.kind != Add) {
      assert d in s.members && d !in s.locked;
    }
  }

  lemma SubjectIsUnlocked(o: Oracle, s: State, op: FleetOp)
    requires Refusal(o, s, op).None? && Good(s) && (op.kind == Unlock || op.kind == Add)
    ensures op.device in After(o, s, op).members && op.device !in After(o, s, op).locked
  {
  }

  lemma CoveredStaysShared(o: Oracle, s: State, op: FleetOp)
    requires Refusal(o, s, op).None? && op.kind != Genesis && (op.kind == Declare ==> ValidBundle(op.bundle.value))
    requires s.floor == Live(s.members, s.locked, s.bundles) && SubjectCovers(o, s, op)
    ensures var t := After(o, s, op); s.floor <= Live(t.members, t.locked, t.bundles)
  {
    var t := After(o, s, op);
    forall x | x in s.floor ensures x in Live(t.members, t.locked, t.bundles) {
      LiveIsShared(s.members, s.locked, s.bundles, x);
      forall d | d in t.members && d !in t.locked ensures x in MaskFor(t.bundles, d) {
        OnlyTheSubjectMayFallShort(o, s, op, x, d);
      }
      LiveIsShared(t.members, t.locked, t.bundles, x);
    }
  }

  lemma SharedIsCovered(o: Oracle, s: State, op: FleetOp)
    requires Refusal(o, s, op).None? && Good(s)
    requires var t := After(o, s, op); s.floor <= Live(t.members, t.locked, t.bundles)
    ensures SubjectCovers(o, s, op)
  {
    var t := After(o, s, op);
    if op.kind == Unlock || op.kind == Add {
      SubjectIsUnlocked(o, s, op);
      forall x | x in s.floor ensures x in MaskFor(t.bundles, op.device) {
        LiveIsShared(t.members, t.locked, t.bundles, x);
      }
    }
  }

  // From an exact floor, an accepted op leaves it exact if and only if its subject covers it.
  lemma ExactStepIff(o: Oracle, s: State, op: FleetOp)
    requires Refusal(o, s, op).None? && op.kind != Genesis && (op.kind == Declare ==> ValidBundle(op.bundle.value))
    requires Good(s) && s.floor == Live(s.members, s.locked, s.bundles)
    ensures var t := After(o, s, op); t.floor == Live(t.members, t.locked, t.bundles) <==> SubjectCovers(o, s, op)
  {
    var t := After(o, s, op);
    assert t.floor == s.floor + Live(t.members, t.locked, t.bundles);
    if SubjectCovers(o, s, op) {
      CoveredStaysShared(o, s, op);
    } else if s.floor <= Live(t.members, t.locked, t.bundles) {
      SharedIsCovered(o, s, op);
    }
  }

  lemma FirstIsGenesis(o: Oracle, identity: Key32, op: FleetOp)
    requires Refusal(o, Init(identity), op).None?
    ensures op.kind == Genesis
  {
  }

  lemma FounderAlone(s: State, op: FleetOp)
    requires op.kind == Genesis && s.members == [] && s.locked == [] && s.bundles == []
    ensures MembersAfter(s, op) == [op.device] && LockedAfter(s, op) == [] && BundlesAfter(s, op) == []
  {
    assert [] + [op.device] == [op.device];
  }

  lemma ExactAfter(o: Oracle, s: State, op: FleetOp)
    requires s.floor + Live(MembersAfter(s, op), LockedAfter(s, op), BundlesAfter(s, op))
             == Live(MembersAfter(s, op), LockedAfter(s, op), BundlesAfter(s, op))
    ensures Exact(After(o, s, op))
  {
  }

  lemma LiveFounder(d: Key32)
    ensures Live([d], [], []) == MASK_BASE
  {
    assert [d][..0] == [];
  }

  lemma GenesisIsExact(o: Oracle, identity: Key32, op: FleetOp)
    requires Refusal(o, Init(identity), op).None?
    ensures Exact(After(o, Init(identity), op))
  {
    FirstIsGenesis(o, identity, op);
    FounderAlone(Init(identity), op);
    LiveFounder(op.device);
    ExactAfter(o, Init(identity), op);
  }

  ghost predicate ExactUpTo(o: Oracle, ops: seq<FleetOp>, n: nat)
    requires Folds(o, ops) && n <= |ops|
  {
    forall m :: 0 < m <= n ==> Exact(StateAt(o, ops, m))
  }

  ghost predicate SubjectsCover(o: Oracle, ops: seq<FleetOp>, n: nat)
    requires Folds(o, ops) && n <= |ops|
  {
    forall i :: 0 < i < n ==> SubjectCovers(o, StateAt(o, ops, i), ops[i])
  }

  // Along any folding chain, the floor is exactly the AND of the unlocked members' masks wherever one
  // remains, if and only if every device that was unlocked or added covered the floor it met.
  lemma {:induction false} FloorIsExactIff(o: Oracle, ops: seq<FleetOp>, n: nat)
    requires Folds(o, ops) && 0 < n <= |ops| && BundlesParsed(ops)
    ensures ExactUpTo(o, ops, n) <==> SubjectsCover(o, ops, n)
  {
    if n == 1 {
      Accepted(o, ops, 0);
      GenesisIsExact(o, ops[0].handleProof, ops[0]);
    } else {
      FloorIsExactIff(o, ops, n - 1);
      if ExactUpTo(o, ops, n - 1) {
        ExactAtIff(o, ops, n - 1);
      }
      assert ExactUpTo(o, ops, n) <==> ExactUpTo(o, ops, n - 1) && Exact(StateAt(o, ops, n));
      assert SubjectsCover(o, ops, n) <==>
             SubjectsCover(o, ops, n - 1) && SubjectCovers(o, StateAt(o, ops, n - 1), ops[n - 1]);
    }
  }

  lemma ExactAtIff(o: Oracle, ops: seq<FleetOp>, i: nat)
    requires Folds(o, ops) && 0 < i < |ops| && BundlesParsed(ops) && Exact(StateAt(o, ops, i))
    ensures Exact(StateAt(o, ops, i + 1)) <==> SubjectCovers(o, StateAt(o, ops, i), ops[i])
  {
    var s, op := StateAt(o, ops, i), ops[i];
    FoldedStateIsGood(o, ops, i);
    EverySignerWasUnlocked(o, ops, i);
    GenesisExactlyFirst(o, ops, i);
    Accepted(o, ops, i);
    if op.kind == Declare {
      DeclareCarriesBundle(o, s, op);
    }
    ExactStepIff(o, s, op);
    BareOrStillUnlocked(o, s, op);
  }

  lemma DeclareCarriesBundle(o: Oracle, s: State, op: FleetOp)
    requires Refusal(o, s, op).None? && op.kind == Declare
    ensures op.bundle.Some?
  {
  }

  // So in a chain where no lock is reversed and no device joins twice it always is.
  lemma FloorIsExact(o: Oracle, ops: seq<FleetOp>, n: nat)
    requires Folds(o, ops) && 0 < n <= |ops|
    requires NoUnlock(ops) && JoinsOnce(ops) && BundlesParsed(ops)
    ensures Exact(StateAt(o, ops, n))
  {
    forall i | 0 < i < n ensures SubjectCovers(o, StateAt(o, ops, i), ops[i]) {
      Accepted(o, ops, i);
      if ops[i].kind == Add {
        NewJoinerHasNoEntry(o, ops, i);
        NewJoinerCovers(o, StateAt(o, ops, i), ops[i]);
      }
    }
    FloorIsExactIff(o, ops, n);
  }

  lemma NewJoinerCovers(o: Oracle, s: State, op: FleetOp)
    requires Refusal(o, s, op).None? && op.kind == Add && Find(s.bundles, op.device).None?
    ensures SubjectCovers(o, s, op)
  {
    MaskAfter(o, s, op, op.device);
  }

  lemma NewJoinerHasNoEntry(o: Oracle, ops: seq<FleetOp>, i: nat)
    requires Folds(o, ops) && i < |ops| && JoinsOnce(ops) && ops[i].kind == Add
    ensures Find(StateAt(o, ops, i).bundles, ops[i].device).None?
  {
    EntryMeansJoined(o, ops, i, ops[i].device);
  }
}
