/**
 Optimistic concurrency over one chain slot: devices fetch, append one op locally and publish; the
 slot accepts a folding chain that extends what it holds.
 */
module ChainSlot {
  import opened Wrappers
  import opened Schemes
  import opened FleetOps
  import opened Fold
  import opened Membership
  import opened Chains

  type Chain = seq<FleetOp>

  // The empty chain stands for an empty slot.
  predicate Accepts(o: Oracle, slot: Chain, blob: Chain) {
    Extends(blob, slot) && Folds(o, blob)
  }

  // ---- every interleaving ----

  // A slot value and the device whose publish put it there.
  datatype Landing = Landing(publisher: Key32, chain: Chain)

  // What a device last fetched, and how many landings there had been.
  datatype Held = Held(chain: Chain, at: nat)

  datatype System = System(landings: seq<Landing>, held: map<Key32, Held>)

  datatype Event =
    // reads the value after `which` landings: any past value, or the current one
    | Fetch(device: Key32, which: nat)
    // publishes what it holds plus one op of its own
    | Publish(device: Key32, op: FleetOp)

  function ValueAfter(s: System, n: nat): Chain
    requires n <= |s.landings|
  {
    if n == 0 then [] else s.landings[n - 1].chain
  }

  function Current(s: System): Chain {
    ValueAfter(s, |s.landings|)
  }

  predicate Enabled(s: System, e: Event) {
    match e
    case Fetch(d, n) => n <= |s.landings|
    case Publish(d, op) => d in s.held && op.signer == d
  }

  predicate Succeeds(o: Oracle, s: System, e: Event) {
    e.Publish? && Enabled(s, e) && Accepts(o, Current(s), s.held[e.device].chain + [e.op])
  }

  function Next(o: Oracle, s: System, e: Event): System
    requires Enabled(s, e)
  {
    match e
    case Fetch(d, n) => s.(held := s.held[d := Held(ValueAfter(s, n), |s.landings|)])
    case Publish(d, op) =>
      var blob := s.held[d].chain + [op];
      System(if Accepts(o, Current(s), blob) then s.landings + [Landing(d, blob)] else s.landings, s.held - {d})
  }

  // The system after a trace of events; an event that is not enabled does nothing.
  function Play(o: Oracle, trace: seq<Event>): System {
    if trace == [] then System([], map[])
    else
      var s, e := Play(o, trace[..|trace| - 1]), trace[|trace| - 1];
      if Enabled(s, e) then Next(o, s, e) else s
  }

  // Every fetch of the trace read the value current at its time.
  ghost predicate AllFresh(o: Oracle, trace: seq<Event>) {
    trace == []
    || (AllFresh(o, trace[..|trace| - 1])
        && (trace[|trace| - 1].Fetch? ==> trace[|trace| - 1].which == |Play(o, trace[..|trace| - 1]).landings|))
  }

  // What every reachable system keeps: values only grow and fold, each landing carries its
  // publisher's op on top, and nobody holds a chain across a landing of its own.
  ghost predicate SlotInv(o: Oracle, s: System) {
    && (forall i, j :: 0 <= i <= j <= |s.landings| ==> Extends(ValueAfter(s, j), ValueAfter(s, i)))
    && (forall i :: 0 <= i < |s.landings| ==> Landed(o, s.landings[i]))
    && (forall d, i :: d in s.held && s.held[d].at <= i < |s.landings| ==> s.landings[i].publisher != d)
    && (forall d :: d in s.held ==> s.held[d].at <= |s.landings|)
  }

  ghost predicate Landed(o: Oracle, l: Landing) {
    l.chain != [] && Folds(o, l.chain) && l.chain[|l.chain| - 1].signer == l.publisher
  }

  lemma GrowsByOne(o: Oracle, s: System, l: Landing)
    requires SlotInv(o, s) && Landed(o, l) && Extends(l.chain, Current(s))
    requires forall d :: d in s.held ==> d != l.publisher
    ensures SlotInv(o, s.(landings := s.landings + [l]))
  {
    var t := s.(landings := s.landings + [l]);
    forall i, j | 0 <= i <= j <= |t.landings| ensures Extends(ValueAfter(t, j), ValueAfter(t, i)) {
      if j <= |s.landings| {
        assert ValueAfter(t, j) == ValueAfter(s, j) && ValueAfter(t, i) == ValueAfter(s, i);
      } else if i < j {
        assert ValueAfter(t, i) == ValueAfter(s, i);
        ExtendsTransitive(l.chain, Current(s), ValueAfter(s, i));
      } else {
        assert l.chain[..|l.chain|] == l.chain;
      }
    }
  }

  lemma SameLandings(o: Oracle, s: System, t: System)
    requires SlotInv(o, s) && t.landings == s.landings
    requires forall d :: d in t.held ==> t.held[d].at == |s.landings| || (d in s.held && t.held[d].at == s.held[d].at)
    ensures SlotInv(o, t)
  {
    assert forall i :: 0 <= i <= |s.landings| ==> ValueAfter(t, i) == ValueAfter(s, i);
  }

  lemma NextKeepsInv(o: Oracle, s: System, e: Event)
    requires SlotInv(o, s) && Enabled(s, e)
    ensures SlotInv(o, Next(o, s, e))
  {
    match e
    case Fetch(d, n) => SameLandings(o, s, Next(o, s, e));
    case Publish(d, op) =>
      var quiet := s.(held := s.held - {d});
      SameLandings(o, s, quiet);
      if Succeeds(o, s, e) {
        GrowsByOne(o, quiet, Landing(d, s.held[d].chain + [op]));
      }
  }

  lemma {:induction false} EveryRunKeepsInv(o: Oracle, trace: seq<Event>)
    ensures SlotInv(o, Play(o, trace))
  {
    if trace != [] {
      var front, e := trace[..|trace| - 1], trace[|trace| - 1];
      EveryRunKeepsInv(o, front);
      if Enabled(Play(o, front), e) {
        NextKeepsInv(o, Play(o, front), e);
      }
    }
  }

  ghost predicate HoldsFresh(s: System) {
    forall d :: d in s.held ==> s.held[d].at <= |s.landings| && s.held[d].chain == ValueAfter(s, s.held[d].at)
  }

  lemma {:induction false} FreshReadsHoldPastValues(o: Oracle, trace: seq<Event>)
    requires AllFresh(o, trace)
    ensures HoldsFresh(Play(o, trace))
  {
    if trace != [] {
      var front, e := trace[..|trace| - 1], trace[|trace| - 1];
      FreshReadsHoldPastValues(o, front);
      var s := Play(o, front);
      if Enabled(s, e) {
        var t := Next(o, s, e);
        assert forall i :: 0 <= i <= |s.landings| ==> ValueAfter(t, i) == ValueAfter(s, i);
      }
    }
  }

  // An acknowledged op stays where it landed in every later slot value.
  lemma AcknowledgedIsForever(o: Oracle, trace: seq<Event>, i: nat, j: nat)
    requires i <= j < |Play(o, trace).landings|
    ensures var c := Play(o, trace).landings[i].chain;
            && c != [] && |c| <= |Play(o, trace).landings[j].chain|
            && Play(o, trace).landings[j].chain[|c| - 1] == c[|c| - 1]
  {
    EveryRunKeepsInv(o, trace);
    assert Landed(o, Play(o, trace).landings[i]);
    var c := Play(o, trace).landings[i].chain;
    assert Extends(ValueAfter(Play(o, trace), j + 1), ValueAfter(Play(o, trace), i + 1));
    assert Play(o, trace).landings[j].chain[..|c|][|c| - 1] == c[|c| - 1];
  }

  // Two publishers that won the same height are one device.
  lemma OneWinnerPerHeight(o: Oracle, trace: seq<Event>, i: nat, j: nat)
    requires i <= j < |Play(o, trace).landings|
    requires |Play(o, trace).landings[i].chain| == |Play(o, trace).landings[j].chain|
    ensures Play(o, trace).landings[i].publisher == Play(o, trace).landings[j].publisher
            && Play(o, trace).landings[i].chain == Play(o, trace).landings[j].chain
  {
    AcknowledgedIsForever(o, trace, i, j);
    EveryRunKeepsInv(o, trace);
    assert Landed(o, Play(o, trace).landings[i]) && Landed(o, Play(o, trace).landings[j]);
    var c, d := Play(o, trace).landings[i].chain, Play(o, trace).landings[j].chain;
    assert Extends(ValueAfter(Play(o, trace), j + 1), ValueAfter(Play(o, trace), i + 1));
    assert d[..|c|] == c && d[..|d|] == d;
  }

  // A refusal for staleness after a fresh read is charged to another device's landing since.
  lemma StaleMeansAnotherLanded(o: Oracle, trace: seq<Event>, d: Key32, op: FleetOp)
    requires AllFresh(o, trace)
    requires var s := Play(o, trace); d in s.held && !Extends(s.held[d].chain + [op], Current(s))
    ensures var s := Play(o, trace);
            s.held[d].at < |s.landings| && s.landings[s.held[d].at].publisher != d
  {
    EveryRunKeepsInv(o, trace);
    FreshReadsHoldPastValues(o, trace);
    var c := Play(o, trace).held[d].chain;
    assert (c + [op])[..|c|] == c;
  }

  // Each checkpoint number has one winner forever.
  lemma CheckpointHasOneWinner(o: Oracle, trace: seq<Event>, i: nat, j: nat, m: nat, n: nat)
    requires i <= j < |Play(o, trace).landings|
    requires var c, d := Play(o, trace).landings[i].chain, Play(o, trace).landings[j].chain;
             && m < |c| && n < |d| && c[m].kind == Checkpoint && d[n].kind == Checkpoint && c[m].ckptK == d[n].ckptK
    ensures m == n && Play(o, trace).landings[i].chain[m] == Play(o, trace).landings[j].chain[n]
  {
    EveryRunKeepsInv(o, trace);
    var c, d := Play(o, trace).landings[i].chain, Play(o, trace).landings[j].chain;
    assert Landed(o, Play(o, trace).landings[j])
           && Extends(ValueAfter(Play(o, trace), j + 1), ValueAfter(Play(o, trace), i + 1));
    assert d[m] == d[..|c|][m] == c[m];
    if m < n {
      OneCheckpointPerEpoch(o, d, m, n);
    } else if n < m {
      OneCheckpointPerEpoch(o, d, n, m);
    }
  }

  // ---- push_checkpoint ----

  datatype PushResult = Answer(latest: Option<(nat, Key32, nat)>) | Failed

  function NextK(c: Chain): nat {
    match LatestCheckpoint(c)
    case Some(l) => l.0 + 1
    case None => 1
  }

  // One call: what it read first, what the slot held when its publish arrived, and what it read
  // again after a stale refusal.  Returns its answer and the slot value it leaves.
  function PushCheckpoint(
    o: Oracle, me: Key32, k: nat, op: FleetOp, seen: Chain, slot: Chain, again: Chain): (PushResult, Chain) {
    if seen == [] || !Folds(o, seen) || me !in FoldChain(o, seen).value.members then (Failed, slot)
    else if NextK(seen) != k then (Answer(LatestCheckpoint(seen)), slot)
    else if Accepts(o, slot, seen + [op]) then (Answer(None), seen + [op])
    else if Extends(seen + [op], slot) then (Failed, slot)
    else if again == [] || !Folds(o, again) then (Failed, slot)
    else if LatestCheckpoint(again).Some? && LatestCheckpoint(again).value.0 >= k then
      (Answer(LatestCheckpoint(again)), slot)
    else (Failed, slot)
  }

  ghost predicate IsCheckpoint(op: FleetOp, me: Key32, k: nat) {
    op.kind == Checkpoint && op.ckptK == k && op.signer == me
  }

  lemma {:induction false} LatestIsTheLastOne(ops: Chain, i: nat)
    requires i < |ops| && ops[i].kind == Checkpoint && forall j :: i < j < |ops| ==> ops[j].kind != Checkpoint
    ensures LatestCheckpoint(ops) == Some((ops[i].ckptK, ops[i].ckptCommit, ops[i].ckptEpoch))
  {
    if i < |ops| - 1 {
      LatestIsTheLastOne(ops[..|ops| - 1], i);
    }
  }

  lemma NextIsCount(o: Oracle, c: Chain)
    requires Folds(o, c)
    ensures NextK(c) == Checkpoints(c, |c|) + 1
    ensures LatestCheckpoint(c).Some? <==> Checkpoints(c, |c|) > 0
    ensures LatestCheckpoint(c).Some? ==> LatestCheckpoint(c).value.0 == Checkpoints(c, |c|)
  {
    LatestIsCount(o, c);
  }

  // Every outcome of a call by a member, by how many checkpoints the two reads hold.  It publishes when k
  // is the next number.  Refused as stale, it answers with the latest checkpoint read again exactly when
  // that chain has reached k; refused otherwise, it fails.
  lemma PushOutcomes(o: Oracle, me: Key32, k: nat, op: FleetOp, seen: Chain, slot: Chain, again: Chain)
    requires Folds(o, seen) && me in FoldChain(o, seen).value.members
    ensures var (answer, after) := PushCheckpoint(o, me, k, op, seen, slot, again);
            var held, blob := Checkpoints(seen, |seen|), seen + [op];
            var reached := Folds(o, again) && Checkpoints(again, |again|) >= k;
            && (k != held + 1 ==> answer == Answer(LatestCheckpoint(seen)) && after == slot)
            && (k == held + 1 && Extends(blob, slot) && Folds(o, blob) ==> answer == Answer(None) && after == blob)
            && (k == held + 1 && Extends(blob, slot) && !Folds(o, blob) ==> answer == Failed && after == slot)
            && (k == held + 1 && !Extends(blob, slot) ==>
                  answer == (if reached then Answer(LatestCheckpoint(again)) else Failed) && after == slot)
  {
    NextIsCount(o, seen);
    if Folds(o, again) {
      NextIsCount(o, again);
    }
  }

  // A call by anyone else, or over a chain that does not fold, fails and changes nothing.
  lemma PushNeedsAMember(o: Oracle, me: Key32, k: nat, op: FleetOp, seen: Chain, slot: Chain, again: Chain)
    ensures !Folds(o, seen) || me !in FoldChain(o, seen).value.members
            ==> PushCheckpoint(o, me, k, op, seen, slot, again) == (Failed, slot)
  {
  }

  // "None" is the answer exactly when our checkpoint landed, or when the chain read holds no
  // checkpoint and k is not 1: in that case nothing landed at all.
  lemma NoneMeansLandedUnlessSkipped(o: Oracle, me: Key32, k: nat, op: FleetOp, seen: Chain, slot: Chain, again: Chain)
    requires IsCheckpoint(op, me, k)
    ensures var (answer, after) := PushCheckpoint(o, me, k, op, seen, slot, again);
            var landed := Folds(o, seen) && me in FoldChain(o, seen).value.members && NextK(seen) == k
              && Accepts(o, slot, seen + [op]);
            var skipped := Folds(o, seen) && me in FoldChain(o, seen).value.members && LatestCheckpoint(seen).None?
              && k != 1;
            && (answer == Answer(None) <==> landed || skipped)
            && (landed ==> after == seen + [op] && LatestCheckpoint(after) == Some((k, op.ckptCommit, op.ckptEpoch)))
            && (!landed ==> after == slot)
  {
    if Folds(o, seen) {
      assert (seen + [op])[..|seen|] == seen;
    }
  }

  // A competing answer is at or past k unless the caller skipped ahead of the chain.
  lemma SomeIsAtOrPastUnlessSkipped(o: Oracle, me: Key32, k: nat, op: FleetOp, seen: Chain, slot: Chain, again: Chain)
    requires PushCheckpoint(o, me, k, op, seen, slot, again).0.Answer?
    requires PushCheckpoint(o, me, k, op, seen, slot, again).0.latest.Some?
    ensures PushCheckpoint(o, me, k, op, seen, slot, again).0.latest.value.0 >= k <==> k <= NextK(seen)
  {
  }

  // The case the answer misreports: a live chain with no checkpoint yet, asked for k = 2.
  lemma NoneWithNothingLanded(o: Oracle, me: Key32, op: FleetOp, seen: Chain)
    requires Folds(o, seen) && LatestCheckpoint(seen).None? && me in FoldChain(o, seen).value.members
    ensures PushCheckpoint(o, me, 2, op, seen, seen, seen) == (Answer(None), seen)
  {
  }

  // Did the call answer "None" for a checkpoint the chain it read did not skip?
  predicate WonUnskipped(o: Oracle, me: Key32, k: nat, op: FleetOp, seen: Chain, slot: Chain, again: Chain) {
    PushCheckpoint(o, me, k, op, seen, slot, again).0 == Answer(None) && (LatestCheckpoint(seen).Some? || k == 1)
  }

  lemma WinnersChain(o: Oracle, me: Key32, k: nat, op: FleetOp, seen: Chain, slot: Chain, again: Chain)
    requires IsCheckpoint(op, me, k) && WonUnskipped(o, me, k, op, seen, slot, again)
    ensures Accepts(o, slot, seen + [op])
  {
    NoneMeansLandedUnlessSkipped(o, me, k, op, seen, slot, again);
  }

  // Two calls for one k at two points of one run: the first lands what its device holds, the run goes
  // on, and the second publishes against the slot it finds.  Both are told they won only if they
  // published the very same op.
  lemma OneUnskippedWinner(
    o: Oracle, before: seq<Event>, me: Key32, op: FleetOp, again: Chain, after: seq<Event>,
    you: Key32, yours: FleetOp, seen: Chain, again2: Chain, k: nat)
    requires IsCheckpoint(op, me, k) && IsCheckpoint(yours, you, k)
    requires me in Play(o, before).held
    requires WonUnskipped(o, me, k, op, Play(o, before).held[me].chain, Current(Play(o, before)), again)
    requires WonUnskipped(o, you, k, yours, seen, Current(Play(o, before + [Publish(me, op)] + after)), again2)
    ensures yours == op
  {
    var s, run := Play(o, before), before + [Publish(me, op)] + after;
    var first, second := s.held[me].chain + [op], seen + [yours];
    WinnersChain(o, me, k, op, s.held[me].chain, Current(s), again);
    WinnersChain(o, you, k, yours, seen, Current(Play(o, run)), again2);
    PublishLands(o, before, me, op);
    EveryRunKeepsInv(o, run);
    LandingStays(o, before + [Publish(me, op)], after);
    ExtendsTransitive(second, Current(Play(o, run)), first);
    var m, n := |first| - 1, |second| - 1;
    assert second[m] == second[..|first|][m] == op && second[n] == yours;
    if m < n {
      OneCheckpointPerEpoch(o, second, m, n);
    }
  }

  lemma PublishLands(o: Oracle, before: seq<Event>, me: Key32, op: FleetOp)
    requires op.signer == me && me in Play(o, before).held
    requires Accepts(o, Current(Play(o, before)), Play(o, before).held[me].chain + [op])
    ensures Current(Play(o, before + [Publish(me, op)])) == Play(o, before).held[me].chain + [op]
  {
    assert (before + [Publish(me, op)])[..|before|] == before;
  }

  // What the slot holds is in every later value of it.
  lemma {:induction false} LandingStays(o: Oracle, before: seq<Event>, after: seq<Event>)
    ensures Extends(Current(Play(o, before + after)), Current(Play(o, before)))
  {
    if after == [] {
      assert before + after == before;
      var c := Current(Play(o, before));
      assert c[..|c|] == c;
    } else {
      var front, e := after[..|after| - 1], after[|after| - 1];
      assert (before + after)[..|before + after| - 1] == before + front;
      LandingStays(o, before, front);
      var s := Play(o, before + front);
      if Enabled(s, e) && Succeeds(o, s, e) {
        ExtendsTransitive(s.held[e.device].chain + [e.op], Current(s), Current(Play(o, before)));
      }
    }
  }

  // ---- the retry loop ----

  // What a client decides on the chain it just fetched.
  datatype Decision = Done | Refuse | Append(op: FleetOp)

  // `Broken` is a transport error; the op may have landed all the same.
  datatype Outcome = AlreadyDone | LandedOp(op: FleetOp) | Refused | LostRaces | Broken(landed: Option<FleetOp>)

  // What the wire does to one attempt.
  datatype Transit = Clear | FetchLost | PublishLost(arrived: bool)

  function LandedBy(r: Outcome): Chain {
    match r
    case LandedOp(op) => [op]
    case Broken(Some(op)) => [op]
    case _ => []
  }

  // Would the decision stand, were nobody else to land and the wire to hold?
  predicate Willing(o: Oracle, d: Decision, c: Chain) {
    match d
    case Done => true
    case Refuse => false
    case Append(op) => Folds(o, c + [op])
  }

  // At attempt k nobody lands in between, and up to it no call is lost.
  predicate Undisturbed(others: seq<Chain>, wire: seq<Transit>, k: nat) {
    k < |others| && k < |wire| && others[k] == [] && forall i :: 0 <= i <= k ==> wire[i].Clear?
  }

  function Concat(others: seq<Chain>, n: nat): Chain
    requires n <= |others|
  {
    if n == 0 then [] else Concat(others, n - 1) + others[n - 1]
  }

  // What attempt i fetches, every attempt before it having lost to the others' landings.
  function Fetched(start: Chain, others: seq<Chain>, i: nat): Chain
    requires i <= |others|
  {
    start + Concat(others, i)
  }

  predicate WillingAt(o: Oracle, decide: Chain -> Decision, start: Chain, others: seq<Chain>, i: nat)
    requires i <= |others|
  {
    Willing(o, decide(Fetched(start, others, i)), Fetched(start, others, i))
  }

  class Slot {
    var chain: Chain

    constructor (c: Chain)
      ensures chain == c
    {
      chain := c;
    }

    // The worker's rule, with its two refusals.
    method Put(o: Oracle, blob: Chain) returns (ok: bool, stale: bool)
      modifies this
      ensures ok <==> Accepts(o, old(chain), blob)
      ensures stale <==> !Extends(blob, old(chain))
      ensures chain == if ok then blob else old(chain)
    {
      stale := !Extends(blob, chain);
      ok := !stale && Folds(o, blob);
      if ok {
        chain := blob;
      }
    }

    // Other devices' landings between our fetch and our publish.
    method Others(ops: Chain)
      modifies this
      ensures chain == old(chain) + ops
    {
      chain := chain + ops;
    }
  }

  // One attempt: fetch, decide, append, publish.  None is the stale answer that sends the caller round
  // again; `posted` says whether it got as far as publishing, so that `theirs` landed before it.
  method Attempt(
    o: Oracle, slot: Slot, ghost me: Key32, decide: Chain -> Decision, ghost want: Chain -> bool, theirs: Chain,
    fate: Transit) returns (r: Option<Outcome>, ghost posted: bool)
    requires forall j :: 0 <= j < |theirs| ==> theirs[j].signer != me
    requires forall c :: decide(c).Append? ==> decide(c).op.signer == me
    requires forall c :: decide(c) == Done ==> want(c)
    requires forall c :: decide(c).Append? && Folds(o, c + [decide(c).op]) ==> want(c + [decide(c).op])
    modifies slot
    ensures r.None? ==> posted && slot.chain == old(slot.chain) + theirs && theirs != [] && fate.Clear?
    ensures r.Some? ==> !r.value.LostRaces?
                        && slot.chain == old(slot.chain) + (if posted then theirs else []) + LandedBy(r.value)
    ensures r.Some? && (r.value.AlreadyDone? || LandedBy(r.value) != []) ==> want(slot.chain)
    ensures r.Some? && LandedBy(r.value) != [] ==> Folds(o, slot.chain) && posted && theirs == []
    ensures r.Some? && r.value.Broken? ==>
              !fate.Clear? && (r.value.landed.Some? ==> posted && fate == PublishLost(true))
    ensures r.Some? && LandedBy(r.value) != [] ==> decide(old(slot.chain)) == Append(LandedBy(r.value)[0])
    ensures r.Some? && r.value.Refused? ==> !Willing(o, decide(old(slot.chain)), old(slot.chain))
    ensures fate.Clear? && Willing(o, decide(old(slot.chain)), old(slot.chain)) ==>
              if r.None? then theirs != [] else r.value.AlreadyDone? || r.value.LandedOp?
  {
    posted := false;
    assert slot.chain + [] + [] == slot.chain;
    if fate.FetchLost? {
      return Some(Broken(None)), posted;
    }
    var blob := slot.chain;
    match decide(blob)
    case Done => return Some(AlreadyDone), posted;
    case Refuse => return Some(Refused), posted;
    case Append(op) =>
      OnlyOthersBlock(blob, theirs, op);
      slot.Others(theirs);
      posted := true;
      assert slot.chain + [] == slot.chain;
      if fate == PublishLost(false) {
        return Some(Broken(None)), posted;
      }
      var ok, stale := slot.Put(o, blob + [op]);
      assert ok ==> slot.chain == blob + theirs + [op];
      if fate.PublishLost? {
        return Some(Broken(if ok then Some(op) else None)), posted;
      }
      if ok {
        return Some(LandedOp(op)), posted;
      }
      return if stale then None else Some(Refused), posted;
  }

  // The retry loop: refetch on stale, at most four attempts.  `others[i]` is what the rest of the fleet
  // lands during attempt i, `wire[i]` what becomes of its two calls, `want` the state the call is for.
  method Retry(
    o: Oracle, slot: Slot, ghost me: Key32, decide: Chain -> Decision, ghost want: Chain -> bool,
    others: seq<Chain>, wire: seq<Transit>) returns (r: Outcome, ghost used: nat)
    requires |others| == |wire| == 4
    requires forall i, j :: 0 <= i < 4 && 0 <= j < |others[i]| ==> others[i][j].signer != me
    requires forall c :: decide(c).Append? ==> decide(c).op.signer == me
    requires forall c :: decide(c) == Done ==> want(c)
    requires forall c :: decide(c).Append? && Folds(o, c + [decide(c).op]) ==> want(c + [decide(c).op])
    modifies slot
    ensures used <= 4
    ensures slot.chain == old(slot.chain) + Concat(others, used) + LandedBy(r)
    ensures r.AlreadyDone? || LandedBy(r) != [] ==> want(slot.chain)
    ensures LandedBy(r) != [] ==> Folds(o, slot.chain) && used > 0 && others[used - 1] == []
    ensures r.LostRaces? ==> used == 4 && forall i :: 0 <= i < 4 ==> others[i] != [] && wire[i].Clear?
    ensures r.Broken? ==> exists i :: 0 <= i < 4 && !wire[i].Clear?
    ensures r.Broken? && r.landed.Some? ==> wire[used - 1] == PublishLost(true)
    ensures LandedBy(r) != [] ==>
              && slot.chain != [] && slot.chain[|slot.chain| - 1] == LandedBy(r)[0]
              && decide(slot.chain[..|slot.chain| - 1]) == Append(LandedBy(r)[0])
    ensures r.Refused? ==> exists i :: 0 <= i < 4 && !WillingAt(o, decide, old(slot.chain), others, i)
    ensures forall k :: Undisturbed(others, wire, k)
                        && (forall i :: 0 <= i <= k ==> WillingAt(o, decide, old(slot.chain), others, i))
              ==> r.AlreadyDone? || r.LandedOp?
  {
    used := 0;
    for attempt := 0 to 4
      invariant used == attempt
      invariant slot.chain == old(slot.chain) + Concat(others, attempt)
      invariant forall i :: 0 <= i < attempt ==> others[i] != [] && wire[i].Clear?
    {
      ghost var before, fetched := Concat(others, attempt), slot.chain;
      assert fetched == Fetched(old(slot.chain), others, attempt);
      assert WillingAt(o, decide, old(slot.chain), others, attempt) == Willing(o, decide(fetched), fetched);
      var tried, posted := Attempt(o, slot, me, decide, want, others[attempt], wire[attempt]);
      Appending(old(slot.chain), before, others[attempt]);
      if posted {
        used := used + 1;
      }
      if tried.Some? {
        return tried.value, used;
      }
    }
    return LostRaces, used;
  }

  lemma Appending(start: Chain, before: Chain, theirs: Chain)
    ensures start + before + theirs == start + (before + theirs) && start + before + [] == start + before
  {
  }

  // Anything another device lands in between blocks ours; nothing else does.
  lemma OnlyOthersBlock(blob: Chain, theirs: Chain, op: FleetOp)
    requires forall i :: 0 <= i < |theirs| ==> theirs[i].signer != op.signer
    ensures Extends(blob + [op], blob + theirs) <==> theirs == []
  {
    var ours, both := blob + [op], blob + theirs;
    if theirs == [] {
      assert both == blob && ours[..|blob|] == blob;
    } else if |theirs| == 1 {
      assert ours[..|both|] == ours && ours[|blob|] == op && both[|blob|] == theirs[0];
    }
  }
}
