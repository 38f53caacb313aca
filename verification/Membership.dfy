/** What holds of every state a folding chain reaches. */
module Membership {
  import opened Wrappers
  import opened Schemes
  import opened Collections
  import opened Assoc
  import opened FleetOps
  import opened Fold

  // ---- the member and lock sets ----

  ghost predicate Good(s: State) {
    Distinct(s.members) && Distinct(s.locked) && forall d :: d in s.locked ==> d in s.members
  }

  lemma StepKeepsGood(o: Oracle, s: State, op: FleetOp)
    requires Good(s) && Refusal(o, s, op).None?
    ensures Good(After(o, s, op))
  {
    WithoutDistinct(s.members, op.device);
    WithoutDistinct(s.locked, op.device);
    AcceptedIsNew(o, s, op);
    RostersStayGood(s, op);
  }

  lemma AcceptedIsNew(o: Oracle, s: State, op: FleetOp)
    requires Refusal(o, s, op).None? && Good(s)
    ensures op.kind == Genesis || op.kind == Add ==> op.device !in s.members
    ensures op.kind == Lock ==> op.device in s.members && op.device !in s.locked
  {
  }

  lemma RostersStayGood(s: State, op: FleetOp)
    requires Good(s) && Distinct(Without(s.members, op.device)) && Distinct(Without(s.locked, op.device))
    requires op.kind == Genesis || op.kind == Add ==> op.device !in s.members
    requires op.kind == Lock ==> op.device in s.members && op.device !in s.locked
    ensures Distinct(MembersAfter(s, op)) && Distinct(LockedAfter(s, op))
    ensures forall d :: d in LockedAfter(s, op) ==> d in MembersAfter(s, op)
  {
  }

  lemma GoodAt(o: Oracle, ops: seq<FleetOp>, i: nat)
    requires Folds(o, ops) && i < |ops| && Good(StateAt(o, ops, i))
    ensures Good(StateAt(o, ops, i + 1)) && StateAt(o, ops, i + 1).height == StateAt(o, ops, i).height + 1
    ensures StateAt(o, ops, i + 1).identity == StateAt(o, ops, i).identity
  {
    Accepted(o, ops, i);
    StepKeepsGood(o, StateAt(o, ops, i), ops[i]);
  }

  // Members are distinct, the locked ones are distinct members, and the walk counts its ops.
  lemma {:induction false} FoldedStateIsGood(o: Oracle, ops: seq<FleetOp>, n: nat)
    requires Folds(o, ops) && n <= |ops|
    ensures Good(StateAt(o, ops, n)) && StateAt(o, ops, n).height == n
    ensures StateAt(o, ops, n).identity == ops[0].handleProof
  {
    if n > 0 {
      FoldedStateIsGood(o, ops, n - 1);
      GoodAt(o, ops, n - 1);
    }
  }

  // Genesis is the first op and no other, and every op names its identity.
  lemma GenesisExactlyFirst(o: Oracle, ops: seq<FleetOp>, i: nat)
    requires Folds(o, ops) && i < |ops|
    ensures ops[i].kind == Genesis <==> i == 0
    ensures ops[i].handleProof == ops[0].handleProof
  {
    Accepted(o, ops, i);
    FoldedStateIsGood(o, ops, i);
    GenesisOnlyAtZero(o, StateAt(o, ops, i), ops[i]);
  }

  lemma GenesisOnlyAtZero(o: Oracle, s: State, op: FleetOp)
    requires Refusal(o, s, op).None? && (s.height == 0 ==> s.members == [])
    ensures op.kind == Genesis <==> s.height == 0
    ensures op.handleProof == s.identity
  {
  }

  // ---- who is a member ----

  // The last word the first n ops say on d's membership.
  function LastWord(ops: seq<FleetOp>, n: nat, d: Key32): Option<OpKind>
    requires n <= |ops|
  {
    if n == 0 then None
    else
      var op := ops[n - 1];
      if Speaks(op, d) then Some(op.kind)
      else LastWord(ops, n - 1, d)
  }

  predicate Speaks(op: FleetOp, d: Key32) {
    op.device == d && (op.kind == Genesis || op.kind == Add || op.kind == Remove)
  }

  lemma MembersStep(o: Oracle, s: State, op: FleetOp, d: Key32)
    requires Refusal(o, s, op).None?
    ensures d in After(o, s, op).members <==> if Speaks(op, d) then op.kind != Remove else d in s.members
  {
  }

  lemma MembersAt(o: Oracle, ops: seq<FleetOp>, i: nat, d: Key32)
    requires Folds(o, ops) && i < |ops|
    ensures d in StateAt(o, ops, i + 1).members <==>
            if Speaks(ops[i], d) then ops[i].kind != Remove else d in StateAt(o, ops, i).members
  {
    Accepted(o, ops, i);
    MembersStep(o, StateAt(o, ops, i), ops[i], d);
  }

  // A device is a member exactly when something was said and the last word was not Remove.
  lemma {:induction false} MemberIffNotRemoved(o: Oracle, ops: seq<FleetOp>, n: nat, d: Key32)
    requires Folds(o, ops) && n <= |ops|
    ensures d in StateAt(o, ops, n).members <==> LastWord(ops, n, d).Some? && LastWord(ops, n, d) != Some(Remove)
  {
    if n > 0 {
      MemberIffNotRemoved(o, ops, n - 1, d);
      MembersAt(o, ops, n - 1, d);
    }
  }

  // The last word the first n ops say on d's lock.
  function LastLockWord(ops: seq<FleetOp>, n: nat, d: Key32): Option<OpKind>
    requires n <= |ops|
  {
    if n == 0 then None
    else
      var op := ops[n - 1];
      if SpeaksOfLock(op, d) then Some(op.kind)
      else LastLockWord(ops, n - 1, d)
  }

  predicate SpeaksOfLock(op: FleetOp, d: Key32) {
    op.device == d && (op.kind == Lock || op.kind == Unlock || op.kind == Remove)
  }

  lemma LockedAfterStep(o: Oracle, s: State, op: FleetOp, d: Key32)
    requires Refusal(o, s, op).None?
    ensures d in After(o, s, op).locked <==> if SpeaksOfLock(op, d) then op.kind == Lock else d in s.locked
  {
  }

  // A device is locked out exactly when the last word on it is a Lock: leaving ends a lock too.
  lemma {:induction false} LockedIffLastWord(o: Oracle, ops: seq<FleetOp>, n: nat, d: Key32)
    requires Folds(o, ops) && n <= |ops|
    ensures d in StateAt(o, ops, n).locked <==> LastLockWord(ops, n, d) == Some(Lock)
  {
    if n > 0 {
      LockedIffLastWord(o, ops, n - 1, d);
      Accepted(o, ops, n - 1);
      LockedAfterStep(o, StateAt(o, ops, n - 1), ops[n - 1], d);
    }
  }

  // ---- membership at a time ----

  // How many leading ops are stamped at or before t.
  function UpTo(ops: seq<FleetOp>, t: int): (n: nat)
    ensures n <= |ops|
    ensures forall i :: 0 <= i < n ==> ops[i].time <= t
    ensures n < |ops| ==> ops[n].time > t
  {
    if ops == [] || ops[0].time > t then 0 else 1 + UpTo(ops[1..], t)
  }

  function WasMemberAt(o: Oracle, ops: seq<FleetOp>, d: Key32, t: int): bool {
    match FoldChain(o, ops)
    case Err(_) => false
    case Ok(s) =>
      if d in s.locked then false
      else
        var n := UpTo(ops, t);
        if n == 0 then false
        else
          match FoldChain(o, ops[..n])
          case Err(_) => false
          case Ok(p) => d in p.members
  }

  // On a folding chain the inner fold never fails, so the answer is the prefix's own last word,
  // unless the whole chain has locked the device out.
  lemma WasMemberAtExact(o: Oracle, ops: seq<FleetOp>, d: Key32, t: int)
    requires Folds(o, ops)
    ensures UpTo(ops, t) > 0 ==> Folds(o, ops[..UpTo(ops, t)])
    ensures WasMemberAt(o, ops, d, t) <==>
            && d !in FoldChain(o, ops).value.locked
            && LastWord(ops, UpTo(ops, t), d).Some? && LastWord(ops, UpTo(ops, t), d) != Some(Remove)
  {
    var n := UpTo(ops, t);
    if n > 0 {
      PrefixFolds(o, ops, n);
      MemberIffNotRemoved(o, ops, n, d);
    }
  }

  // ---- checkpoints ----

  function Checkpoints(ops: seq<FleetOp>, n: nat): nat
    requires n <= |ops|
  {
    if n == 0 then 0 else Checkpoints(ops, n - 1) + if ops[n - 1].kind == Checkpoint then 1 else 0
  }

  lemma CheckpointStep(o: Oracle, s: State, op: FleetOp)
    requires Refusal(o, s, op).None?
    ensures After(o, s, op).lastK == s.lastK + if op.kind == Checkpoint then 1 else 0
    ensures op.kind == Checkpoint ==> op.ckptK == s.lastK + 1
  {
  }

  lemma CheckpointAt(o: Oracle, ops: seq<FleetOp>, i: nat)
    requires Folds(o, ops) && i < |ops|
    ensures StateAt(o, ops, i + 1).lastK == StateAt(o, ops, i).lastK + if ops[i].kind == Checkpoint then 1 else 0
    ensures ops[i].kind == Checkpoint ==> ops[i].ckptK == StateAt(o, ops, i).lastK + 1
  {
    Accepted(o, ops, i);
    CheckpointStep(o, StateAt(o, ops, i), ops[i]);
  }

  lemma {:induction false} LastCheckpoint(o: Oracle, ops: seq<FleetOp>, n: nat)
    requires Folds(o, ops) && n <= |ops|
    ensures StateAt(o, ops, n).lastK == Checkpoints(ops, n)
  {
    if n > 0 {
      LastCheckpoint(o, ops, n - 1);
      CheckpointAt(o, ops, n - 1);
    }
  }

  // The checkpoints of a folding chain are numbered 1, 2, ... in order.
  lemma CheckpointsRunInOrder(o: Oracle, ops: seq<FleetOp>, i: nat)
    requires Folds(o, ops) && i < |ops| && ops[i].kind == Checkpoint
    ensures ops[i].ckptK == Checkpoints(ops, i) + 1
  {
    CheckpointAt(o, ops, i);
    LastCheckpoint(o, ops, i);
  }

  lemma {:induction false} LaterCheckpointIsHigher(ops: seq<FleetOp>, i: nat, j: nat)
    requires i < j <= |ops| && ops[i].kind == Checkpoint
    ensures Checkpoints(ops, i) < Checkpoints(ops, j)
  {
    if i + 1 < j {
      LaterCheckpointIsHigher(ops, i, j - 1);
    }
  }

  // So no epoch has two checkpoints.
  lemma OneCheckpointPerEpoch(o: Oracle, ops: seq<FleetOp>, i: nat, j: nat)
    requires Folds(o, ops) && i < j < |ops|
    requires ops[i].kind == Checkpoint && ops[j].kind == Checkpoint
    ensures ops[i].ckptK < ops[j].ckptK
  {
    CheckpointsRunInOrder(o, ops, i);
    CheckpointsRunInOrder(o, ops, j);
    LaterCheckpointIsHigher(ops, i, j);
  }

  function LatestCheckpoint(ops: seq<FleetOp>): Option<(nat, Key32, nat)> {
    if ops == [] then None
    else
      var op := ops[|ops| - 1];
      if op.kind == Checkpoint then Some((op.ckptK, op.ckptCommit, op.ckptEpoch))
      else LatestCheckpoint(ops[..|ops| - 1])
  }

  // The latest checkpoint's number is how many there are.
  lemma {:induction false} LatestIsCount(o: Oracle, ops: seq<FleetOp>)
    requires Folds(o, ops)
    ensures LatestCheckpoint(ops).Some? <==> Checkpoints(ops, |ops|) > 0
    ensures LatestCheckpoint(ops).Some? ==> LatestCheckpoint(ops).value.0 == Checkpoints(ops, |ops|)
    ensures FoldChain(o, ops).value.lastK == Checkpoints(ops, |ops|)
  {
    LastCheckpoint(o, ops, |ops|);
    var front := ops[..|ops| - 1];
    if ops[|ops| - 1].kind == Checkpoint {
      CheckpointsRunInOrder(o, ops, |ops| - 1);
    } else if front != [] {
      PrefixFolds(o, ops, |ops| - 1);
      LatestIsCount(o, front);
      CheckpointsOfPrefix(ops, |ops| - 1, |ops| - 1);
    }
  }

  lemma {:induction false} CheckpointsOfPrefix(ops: seq<FleetOp>, m: nat, n: nat)
    requires n <= m <= |ops|
    ensures Checkpoints(ops[..m], n) == Checkpoints(ops, n)
  {
    if n > 0 {
      CheckpointsOfPrefix(ops, m, n - 1);
    }
  }

  // ---- the last unlocked member ----

  ghost predicate HasUnlocked(s: State) {
    exists d :: d in s.members && d !in s.locked
  }

  predicate BareDeparture(op: FleetOp) {
    op.kind == Remove && op.consent == []
  }

  // Whoever signs an op is an unlocked member after it, unless it has just removed itself.
  lemma SignerStaysUnlocked(o: Oracle, s: State, op: FleetOp)
    requires Refusal(o, s, op).None? && !BareDeparture(op)
    ensures op.signer in After(o, s, op).members && op.signer !in After(o, s, op).locked
  {
  }

  // With no unlocked member left nothing folds, ever again.
  lemma NothingFoldsWithoutUnlocked(o: Oracle, s: State, op: FleetOp)
    requires s.height > 0 && !HasUnlocked(s)
    ensures Refusal(o, s, op).Some?
  {
    assert op.signer in s.members ==> op.signer in s.locked;
  }

  // Only a bare self-departure can leave no unlocked member, and it is then the chain's last op.
  lemma OnlyBareDepartureEndsAFleet(o: Oracle, ops: seq<FleetOp>, n: nat)
    requires Folds(o, ops) && 0 < n <= |ops| && !HasUnlocked(StateAt(o, ops, n))
    ensures BareDeparture(ops[n - 1]) && n == |ops|
    ensures forall op :: !Folds(o, ops + [op])
  {
    FoldedStateIsGood(o, ops, n);
    Accepted(o, ops, n - 1);
    BareOrStillUnlocked(o, StateAt(o, ops, n - 1), ops[n - 1]);
    if n < |ops| {
      Accepted(o, ops, n);
      NothingFoldsWithoutUnlocked(o, StateAt(o, ops, n), ops[n]);
    }
    NothingAppends(o, ops);
  }

  lemma BareOrStillUnlocked(o: Oracle, s: State, op: FleetOp)
    requires Refusal(o, s, op).None?
    ensures BareDeparture(op) || HasUnlocked(After(o, s, op))
  {
    if !BareDeparture(op) {
      SignerStaysUnlocked(o, s, op);
    }
  }

  lemma NothingAppends(o: Oracle, ops: seq<FleetOp>)
    requires Folds(o, ops) && !HasUnlocked(FoldChain(o, ops).value)
    ensures forall op :: !Folds(o, ops + [op])
  {
    FoldedStateIsGood(o, ops, |ops|);
    forall op ensures !Folds(o, ops + [op]) {
      FoldSnoc(o, ops, op);
      NothingFoldsWithoutUnlocked(o, FoldChain(o, ops).value, op);
    }
  }

  // ---- plates ----

  function LastPlate(ops: seq<FleetOp>, n: nat, d: Key32): Option<Key32>
    requires n <= |ops|
  {
    if n == 0 then None
    else if ops[n - 1].device == d && ops[n - 1].plate.Some? then ops[n - 1].plate
    else LastPlate(ops, n - 1, d)
  }

  lemma PlateAt(o: Oracle, ops: seq<FleetOp>, i: nat, d: Key32)
    requires Folds(o, ops) && i < |ops|
    ensures Find(StateAt(o, ops, i + 1).plates, d) ==
            if ops[i].device == d && ops[i].plate.Some? then ops[i].plate else Find(StateAt(o, ops, i).plates, d)
  {
    Accepted(o, ops, i);
    if ops[i].plate.Some? {
      FindUpsert(StateAt(o, ops, i).plates, ops[i].device, ops[i].plate.value, d);
    }
  }

  // The plate the fold answers with is the last one declared for the device, whether or not it is
  // still a member.
  lemma {:induction false} PlateIsLastDeclared(o: Oracle, ops: seq<FleetOp>, n: nat, d: Key32)
    requires Folds(o, ops) && n <= |ops|
    ensures Find(StateAt(o, ops, n).plates, d) == LastPlate(ops, n, d)
  {
    if n > 0 {
      PlateIsLastDeclared(o, ops, n - 1, d);
      PlateAt(o, ops, n - 1, d);
    }
  }

  function LastPlateKind(ops: seq<FleetOp>, n: nat, d: Key32): Option<nat>
    requires n <= |ops|
  {
    if n == 0 then None
    else if ops[n - 1].device == d && ops[n - 1].plateKind != UNSTATED then Some(ops[n - 1].plateKind)
    else LastPlateKind(ops, n - 1, d)
  }

  lemma PlateKindAt(o: Oracle, ops: seq<FleetOp>, i: nat, d: Key32)
    requires Folds(o, ops) && i < |ops|
    ensures Find(StateAt(o, ops, i + 1).kinds, d) ==
            if ops[i].device == d && ops[i].plateKind != UNSTATED then Some(ops[i].plateKind)
            else Find(StateAt(o, ops, i).kinds, d)
  {
    Accepted(o, ops, i);
    if ops[i].plateKind != UNSTATED {
      FindUpsert(StateAt(o, ops, i).kinds, ops[i].device, ops[i].plateKind, d);
    }
  }

  // So is the kind of plate.
  lemma {:induction false} PlateKindIsLastDeclared(o: Oracle, ops: seq<FleetOp>, n: nat, d: Key32)
    requires Folds(o, ops) && n <= |ops|
    ensures Find(StateAt(o, ops, n).kinds, d) == LastPlateKind(ops, n, d)
  {
    if n > 0 {
      PlateKindIsLastDeclared(o, ops, n - 1, d);
      PlateKindAt(o, ops, n - 1, d);
    }
  }
}
