/** Which bundle the fold answers with for a device, and what a rejoining device runs into. */
module Declared {
  import opened Wrappers
  import opened Bytes
  import opened Schemes
  import opened Assoc
  import opened FleetOps
  import opened Fold
  import opened Membership
  import opened Floor

  // The last Declare by d among the first n ops.
  function LastDeclare(ops: seq<FleetOp>, n: nat, d: Key32): (r: Option<nat>)
    requires n <= |ops|
    ensures r.Some? ==> r.value < n
  {
    if n == 0 then None
    else if ops[n - 1].kind == Declare && ops[n - 1].device == d then Some(n - 1)
    else LastDeclare(ops, n - 1, d)
  }

  // The first Add of d among the first n ops.
  function FirstAdd(ops: seq<FleetOp>, n: nat, d: Key32): (r: Option<nat>)
    requires n <= |ops|
    ensures r.Some? ==> r.value < n
  {
    if n == 0 then None
    else
      var earlier := FirstAdd(ops, n - 1, d);
      if earlier.Some? then earlier
      else if ops[n - 1].kind == Add && ops[n - 1].device == d then Some(n - 1)
      else None
  }

  // The latest op that carries a bundle for d.
  function LastBundleOp(ops: seq<FleetOp>, n: nat, d: Key32): (r: Option<nat>)
    requires n <= |ops|
    ensures r.Some? ==> r.value < n
  {
    if n == 0 then None
    else if (ops[n - 1].kind == Declare || ops[n - 1].kind == Add) && ops[n - 1].device == d then Some(n - 1)
    else LastBundleOp(ops, n - 1, d)
  }

  // The op whose bundle the fold answers with.
  function AnsweringOp(ops: seq<FleetOp>, n: nat, d: Key32): (r: Option<nat>)
    requires n <= |ops|
    ensures r.Some? ==> r.value < n
  {
    if LastDeclare(ops, n, d).Some? then LastDeclare(ops, n, d) else FirstAdd(ops, n, d)
  }

  function AnsweredBundle(ops: seq<FleetOp>, n: nat, d: Key32): Option<KeyBundle>
    requires n <= |ops|
  {
    match AnsweringOp(ops, n, d)
    case Some(i) => Some(Joined(ops[i]))
    case None => None
  }

  lemma BundleStep(o: Oracle, s: State, op: FleetOp, d: Key32)
    requires Refusal(o, s, op).None?
    ensures Find(After(o, s, op).bundles, d) ==
            if op.device == d && op.kind == Declare then Some(Joined(op))
            else if op.device == d && op.kind == Add && Find(s.bundles, d).None? then Some(Joined(op))
            else Find(s.bundles, d)
  {
    if op.kind == Declare {
      FindUpsert(s.bundles, op.device, op.bundle.value, d);
    } else if op.kind == Add {
      FindPushed(s.bundles, op.device, Joined(op), d);
    }
  }

  lemma BundleAt(o: Oracle, ops: seq<FleetOp>, i: nat, d: Key32)
    requires Folds(o, ops) && i < |ops|
    ensures Find(StateAt(o, ops, i + 1).bundles, d) ==
            if ops[i].device == d && ops[i].kind == Declare then Some(Joined(ops[i]))
            else if ops[i].device == d && ops[i].kind == Add && Find(StateAt(o, ops, i).bundles, d).None? then
              Some(Joined(ops[i]))
            else Find(StateAt(o, ops, i).bundles, d)
  {
    Accepted(o, ops, i);
    BundleStep(o, StateAt(o, ops, i), ops[i], d);
  }

  // The fold answers with the device's last Declare, or else with its first Add.
  lemma {:induction false} BundleIsLastDeclareElseFirstAdd(o: Oracle, ops: seq<FleetOp>, n: nat, d: Key32)
    requires Folds(o, ops) && n <= |ops|
    ensures Find(StateAt(o, ops, n).bundles, d) == AnsweredBundle(ops, n, d)
  {
    if n > 0 {
      BundleIsLastDeclareElseFirstAdd(o, ops, n - 1, d);
      BundleAt(o, ops, n - 1, d);
    }
  }

  // That is the latest word on the device's keys unless an Add came after an earlier entry.
  lemma {:induction false} AnswerIsLatestIff(ops: seq<FleetOp>, n: nat, d: Key32)
    requires n <= |ops|
    ensures AnsweringOp(ops, n, d) == LastBundleOp(ops, n, d) <==>
            match LastBundleOp(ops, n, d)
            case None => true
            case Some(i) => ops[i].kind == Declare || AnsweringOp(ops, i, d).None?
    ensures AnsweringOp(ops, n, d).None? <==> LastBundleOp(ops, n, d).None?
  {
    if n > 0 {
      AnswerIsLatestIff(ops, n - 1, d);
    }
  }

  lemma {:induction false} LastBundleOpIs(ops: seq<FleetOp>, n: nat, d: Key32)
    requires n <= |ops| && LastBundleOp(ops, n, d).Some?
    ensures var i := LastBundleOp(ops, n, d).value;
            ops[i].device == d && (ops[i].kind == Declare || ops[i].kind == Add)
  {
    if LastBundleOp(ops, n, d) != Some(n - 1) {
      LastBundleOpIs(ops, n - 1, d);
    }
  }

  lemma AddHasNoEarlierEntry(o: Oracle, ops: seq<FleetOp>, i: nat)
    requires Folds(o, ops) && JoinsOnce(ops) && i < |ops| && ops[i].kind == Add
    ensures AnsweringOp(ops, i, ops[i].device).None?
  {
    NewJoinerHasNoEntry(o, ops, i);
    BundleIsLastDeclareElseFirstAdd(o, ops, i, ops[i].device);
  }

  // In a chain where no device joins twice, the answer is the latest Add or Declare.
  lemma LatestWhenJoinedOnce(o: Oracle, ops: seq<FleetOp>, n: nat, d: Key32)
    requires Folds(o, ops) && n <= |ops| && JoinsOnce(ops)
    ensures AnsweringOp(ops, n, d) == LastBundleOp(ops, n, d)
  {
    AnswerIsLatestIff(ops, n, d);
    if LastBundleOp(ops, n, d).Some? {
      LastBundleOpIs(ops, n, d);
      var i := LastBundleOp(ops, n, d).value;
      if ops[i].kind == Add {
        AddHasNoEarlierEntry(o, ops, i);
      }
    }
  }

  // A device judged by a bundle below the floor signs nothing that folds but a Declare.
  lemma BelowFloorSignsOnlyDeclares(o: Oracle, s: State, op: FleetOp)
    requires MASK_BASE <= MaskFor(s.bundles, op.signer) && !Covers(MaskFor(s.bundles, op.signer), s.floor)
    requires op.kind != Declare
    ensures Refusal(o, s, op).Some?
  {
    Ed25519OnlyIsValid(op.signer);
    var x :| x in s.floor && x !in MaskFor(s.bundles, op.signer);
    assert x !in BundleMask(BundleFor(s.bundles, op.signer));
    if Covers(EggMask(op.sigs), s.floor) {
      assert x in EggMask(op.sigs);
      var j :| 0 <= j < |op.sigs| && op.sigs[j].scheme == x;
      assert !SigHolds(o, op, VerifyWith(s, op), op.sigs[j]);
      assert !SigsHold(o, op, VerifyWith(s, op));
    }
  }
}
