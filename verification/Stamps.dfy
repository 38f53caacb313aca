/** The stamps a client puts on the ops it appends, and what they do to a waiting consent. */
module Stamps {
  import opened Wrappers
  import opened Schemes
  import opened FleetOps
  import opened Fold
  import opened Membership
  import opened Chains

  function Tip(ops: seq<FleetOp>): int {
    if ops == [] then 0 else ops[|ops| - 1].time
  }

  // A client never stamps below the tip it builds on.
  function StampAfter(ops: seq<FleetOp>, now: int): int {
    if now > Tip(ops) then now else Tip(ops)
  }

  // Every op from `from` on was stamped by some client's clock through StampAfter.
  ghost predicate ClientGrown(ops: seq<FleetOp>, from: nat) {
    forall i :: from <= i < |ops| ==> exists now :: ops[i].time == StampAfter(ops[..i], now)
  }

  // From the first such op on, stamps never go back.
  lemma {:induction false} StampsNeverFall(ops: seq<FleetOp>, from: nat, i: nat, j: nat)
    requires ClientGrown(ops, from) && 0 < from && from - 1 <= i <= j < |ops|
    ensures ops[i].time <= ops[j].time
    decreases j - i
  {
    if i < j {
      StampsNeverFall(ops, from, i, j - 1);
      assert ops[..j][|ops[..j]| - 1] == ops[j - 1];
    }
  }

  // An Add, or a consented Remove, that carries a consent stamped t.
  predicate CarriesConsent(op: FleetOp, t: int) {
    op.consentT == t && (op.kind == Add || (op.kind == Remove && op.consent != []))
  }

  predicate InWindow(at: int, t: int) {
    AbsDiff(at, t) <= CONSENT_WINDOW_OSC
  }

  // The window is the fold's own last word on an otherwise sound Add or consented Remove.
  lemma ConsentWindowDecides(o: Oracle, s: State, op: FleetOp, t: int)
    requires CarriesConsent(op, t) && Linked(s, op).None? && Structural(op, s.height).None? && Authority(o, s, op).None?
    requires op.signer in s.members && op.signer != op.device
    requires op.kind == Add ==> op.device !in s.members && Covers(BundleMask(Joined(op)), s.floor)
                                && ConsentHolds(o, op, Joined(op), BundleMask(Joined(op)) + s.floor)
    requires op.kind == Remove
             ==> op.device in s.members && DepartHolds(o, op, BundleFor(s.bundles, op.device), s.floor)
    ensures Refusal(o, s, op).None? <==> InWindow(op.time, t)
  {
  }

  lemma OutsideWindowNeverFolds(o: Oracle, s: State, op: FleetOp, t: int)
    requires CarriesConsent(op, t) && !InWindow(op.time, t)
    ensures Refusal(o, s, op).Some?
  {
  }

  // What a client appends to a chain passes the window exactly when the later of its clock and the
  // tip lies within it.
  lemma ClientOpPassesIff(o: Oracle, ops: seq<FleetOp>, op: FleetOp, now: int, t: int)
    requires Folds(o, ops) && op.time == StampAfter(ops, now) && CarriesConsent(op, t)
    requires var s := FoldChain(o, ops).value;
             && Linked(s, op).None? && Structural(op, s.height).None? && Authority(o, s, op).None?
             && op.signer in s.members && op.signer != op.device
             && (op.kind == Add ==> op.device !in s.members && Covers(BundleMask(Joined(op)), s.floor)
                                    && ConsentHolds(o, op, Joined(op), BundleMask(Joined(op)) + s.floor))
             && (op.kind == Remove
               ==> op.device in s.members && DepartHolds(o, op, BundleFor(s.bundles, op.device), s.floor))
    ensures Folds(o, ops + [op]) <==> InWindow(if now > Tip(ops) then now else Tip(ops), t)
  {
    FoldSnoc(o, ops, op);
    ConsentWindowDecides(o, FoldChain(o, ops).value, op, t);
  }

  // Whatever its clock says, a client stamps no earlier than any tip it has built on.
  lemma NoEarlierThanBase(base: seq<FleetOp>, ext: seq<FleetOp>, now: int)
    requires base != [] && Extends(ext, base) && ClientGrown(ext, |base|)
    ensures ext != [] && StampAfter(ext, now) >= Tip(base)
  {
    StampsNeverFall(ext, |base|, |base| - 1, |ext| - 1);
    assert base[|base| - 1] == ext[..|base|][|base| - 1];
  }

  lemma RefusedAppendNeverFolds(o: Oracle, ops: seq<FleetOp>, op: FleetOp)
    requires ops != [] && forall s: State :: Refusal(o, s, op).Some?
    ensures !Folds(o, ops + [op])
  {
    FoldSnoc(o, ops, op);
  }

  // Once the tip is past the window of a consent, that consent is spent: on this chain and on every
  // client-grown extension of it, no client-built op carrying it folds, whatever the clock says.
  lemma PastTheWindowForever(o: Oracle, base: seq<FleetOp>, ext: seq<FleetOp>, op: FleetOp, now: int, t: int)
    requires base != [] && Extends(ext, base) && ClientGrown(ext, |base|)
    requires Tip(base) - t > CONSENT_WINDOW_OSC
    requires CarriesConsent(op, t) && op.time == StampAfter(ext, now)
    ensures !Folds(o, ext + [op])
  {
    NoEarlierThanBase(base, ext, now);
    forall s: State ensures Refusal(o, s, op).Some? {
      OutsideWindowNeverFolds(o, s, op, t);
    }
    RefusedAppendNeverFolds(o, ext, op);
  }
}
