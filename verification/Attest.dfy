/**
 The attest verdict: from every chain a device can see, does it resume, join, mint or wait?
 */
module Attest {
  import opened Wrappers
  import opened Schemes
  import opened FleetOps
  import opened Fold
  import opened Chains

  type Chain = seq<FleetOp>

  datatype SeedAnswer = Found(chain: Chain) | NotFound | Silent

  datatype Verdict = Fresh | Member | JoinOurs | WrongFleet | Unreachable | Unverifiable(error: FoldError)

  // Folds, and claims our slot.
  predicate Ours(o: Oracle, hp: Key32, c: Chain) {
    c != [] && Folds(o, c) && c[0].handleProof == hp
  }

  predicate Elsewhere(o: Oracle, hp: Key32, c: Chain) {
    c != [] && Folds(o, c) && c[0].handleProof != hp
  }

  predicate Broken(o: Oracle, c: Chain) {
    c != [] && !Folds(o, c)
  }

  predicate Lists(o: Oracle, c: Chain, device: Key32) {
    Folds(o, c) && device in FoldChain(o, c).value.members
  }

  // The seed's chain first, then the held one, then the peers'.
  function Candidates(held: Option<Chain>, peers: seq<Chain>, seed: SeedAnswer): seq<Chain> {
    (if seed.Found? then [seed.chain] else []) + (if held.Some? then [held.value] else []) + peers
  }

  // The longest of ours, the earliest on a tie.
  function Deciding(o: Oracle, hp: Key32, cs: seq<Chain>): (d: Option<Chain>)
    ensures d.Some? ==> d.value in cs && Ours(o, hp, d.value)
  {
    if cs == [] then None
    else
      var d, c := Deciding(o, hp, cs[..|cs| - 1]), cs[|cs| - 1];
      if Ours(o, hp, c) && (d.None? || |c| > |d.value|) then Some(c) else d
  }

  predicate AnyElsewhere(o: Oracle, hp: Key32, cs: seq<Chain>) {
    exists i :: 0 <= i < |cs| && Elsewhere(o, hp, cs[i])
  }

  function FirstError(o: Oracle, cs: seq<Chain>): (e: Option<FoldError>)
    ensures e.Some? <==> exists i :: 0 <= i < |cs| && Broken(o, cs[i])
  {
    if cs == [] then None
    else
      var e, c := FirstError(o, cs[..|cs| - 1]), cs[|cs| - 1];
      if e.Some? then e else if Broken(o, c) then Some(FoldChain(o, c).error) else None
  }

  function VerdictOn(o: Oracle, hp: Key32, device: Key32, cs: seq<Chain>, silent: bool): Verdict {
    var d := Deciding(o, hp, cs);
    if d.Some? then (if Lists(o, d.value, device) then Member else JoinOurs)
    else if AnyElsewhere(o, hp, cs) then WrongFleet
    else
      var e := FirstError(o, cs);
      if e.Some? then Unverifiable(e.value) else if silent then Unreachable else Fresh
  }

  // What the loop keeps of the decider: its op count, and whether it lists this device.
  function Tally(o: Oracle, device: Key32, d: Option<Chain>): Option<(nat, bool)> {
    if d.None? then None else Some((|d.value|, Lists(o, d.value, device)))
  }

  // What one more chain does to the loop's three variables; an empty chain's fold error is ignored.
  method Weigh(
    o: Oracle, hp: Key32, device: Key32, c: Chain, ours: Option<(nat, bool)>, wrongSlot: bool,
    unverifiable: Option<FoldError>, ghost cs: seq<Chain>)
    returns (ours': Option<(nat, bool)>, wrongSlot': bool, unverifiable': Option<FoldError>)
    requires ours == Tally(o, device, Deciding(o, hp, cs)) && unverifiable == FirstError(o, cs)
    requires wrongSlot <==> AnyElsewhere(o, hp, cs)
    ensures ours' == Tally(o, device, Deciding(o, hp, cs + [c])) && unverifiable' == FirstError(o, cs + [c])
    ensures wrongSlot' <==> AnyElsewhere(o, hp, cs + [c])
  {
    ours', wrongSlot', unverifiable' := ours, wrongSlot, unverifiable;
    OneMoreCandidate(o, hp, cs, c);
    if c != [] {
      match FoldChain(o, c)
      case Ok(s) =>
        if c[0].handleProof != hp {
          wrongSlot' := true;
        } else if ours.None? || |c| > ours.value.0 {
          ours' := Some((|c|, device in s.members));
        }
      case Err(e) =>
        if unverifiable.None? {
          unverifiable' := Some(e);
        }
    }
  }

  method AttestVerdict(
    o: Oracle, hp: Key32, device: Key32, held: Option<Chain>, peers: seq<Chain>, seed: SeedAnswer) returns (v: Verdict)
    ensures v == VerdictOn(o, hp, device, Candidates(held, peers, seed), seed.Silent?)
  {
    var cs := Candidates(held, peers, seed);
    var ours: Option<(nat, bool)> := None;
    var wrongSlot := false;
    var unverifiable: Option<FoldError> := None;
    for i := 0 to |cs|
      invariant ours == Tally(o, device, Deciding(o, hp, cs[..i]))
      invariant wrongSlot <==> AnyElsewhere(o, hp, cs[..i])
      invariant unverifiable == FirstError(o, cs[..i])
    {
      assert cs[..i + 1] == cs[..i] + [cs[i]];
      ours, wrongSlot, unverifiable := Weigh(o, hp, device, cs[i], ours, wrongSlot, unverifiable, cs[..i]);
    }
    assert cs[..|cs|] == cs;
    if ours.Some? {
      return if ours.value.1 then Member else JoinOurs;
    }
    if wrongSlot {
      return WrongFleet;
    }
    if unverifiable.Some? {
      return Unverifiable(unverifiable.value);
    }
    v := if seed.Silent? then Unreachable else Fresh;
  }

  lemma OneMoreCandidate(o: Oracle, hp: Key32, cs: seq<Chain>, c: Chain)
    ensures AnyElsewhere(o, hp, cs + [c]) <==> AnyElsewhere(o, hp, cs) || Elsewhere(o, hp, c)
    ensures Deciding(o, hp, cs + [c]) ==
            var d := Deciding(o, hp, cs); if Ours(o, hp, c) && (d.None? || |c| > |d.value|) then Some(c) else d
    ensures FirstError(o, cs + [c]) ==
            var e := FirstError(o, cs);
            if e.Some? then e else if Broken(o, c) then Some(FoldChain(o, c).error) else None
  {
    var all := cs + [c];
    assert all[..|cs|] == cs && all[|cs|] == c;
    if i :| 0 <= i < |cs| && Elsewhere(o, hp, cs[i]) {
      assert Elsewhere(o, hp, all[i]);
    }
  }

  // ---- what each verdict says ----

  ghost predicate AnyOurs(o: Oracle, hp: Key32, cs: seq<Chain>) {
    exists c :: c in cs && Ours(o, hp, c)
  }

  // The decider is as long as any of ours, and strictly longer than every one before it.
  ghost predicate Leads(o: Oracle, hp: Key32, cs: seq<Chain>, at: nat) {
    && at < |cs| && Ours(o, hp, cs[at])
    && (forall j :: 0 <= j < |cs| && Ours(o, hp, cs[j]) ==> |cs[j]| <= |cs[at]|)
    && (forall j :: 0 <= j < at && Ours(o, hp, cs[j]) ==> |cs[j]| < |cs[at]|)
  }

  lemma {:induction false} DecidingLeads(o: Oracle, hp: Key32, cs: seq<Chain>) returns (at: nat)
    ensures Deciding(o, hp, cs).Some? <==> AnyOurs(o, hp, cs)
    ensures AnyOurs(o, hp, cs) ==> Leads(o, hp, cs, at) && Deciding(o, hp, cs) == Some(cs[at])
  {
    at := 0;
    if cs != [] {
      var front, c := cs[..|cs| - 1], cs[|cs| - 1];
      at := DecidingLeads(o, hp, front);
      assert forall x :: x in cs <==> x in front || x == c;
      var d := Deciding(o, hp, front);
      if Ours(o, hp, c) && (d.None? || |c| > |d.value|) {
        at := |cs| - 1;
        assert forall j :: 0 <= j < |front| ==> cs[j] == front[j] && cs[j] in front;
      }
    }
  }

  // If any folding chain sits at our slot, the longest decides, the earliest candidate on a tie.
  lemma TheLongestOfOursDecides(o: Oracle, hp: Key32, device: Key32, cs: seq<Chain>, silent: bool, at: nat)
    requires Leads(o, hp, cs, at)
    ensures VerdictOn(o, hp, device, cs, silent) == if Lists(o, cs[at], device) then Member else JoinOurs
  {
    assert cs[at] in cs;
    var k := DecidingLeads(o, hp, cs);
    assert k == at by {
      assert Leads(o, hp, cs, k);
      assert |cs[k]| == |cs[at]|;
    }
  }

  // Fresh is said only when no non-empty chain was seen and the seed answered; the other verdicts
  // partition what remains.
  lemma VerdictsPartition(o: Oracle, hp: Key32, device: Key32, cs: seq<Chain>, silent: bool)
    ensures var v := VerdictOn(o, hp, device, cs, silent);
            var nothing := forall i :: 0 <= i < |cs| ==> cs[i] == [];
            && (v == Fresh <==> nothing && !silent)
            && (v == Unreachable <==> nothing && silent)
            && (v == Member || v == JoinOurs <==> AnyOurs(o, hp, cs))
            && (v == WrongFleet <==> !AnyOurs(o, hp, cs) && AnyElsewhere(o, hp, cs))
            && (v.Unverifiable? <==> !nothing && forall i :: 0 <= i < |cs| && cs[i] != [] ==> Broken(o, cs[i]))
  {
    var at := DecidingLeads(o, hp, cs);
    forall i | 0 <= i < |cs| && cs[i] != [] && !AnyOurs(o, hp, cs) && !AnyElsewhere(o, hp, cs)
      ensures Broken(o, cs[i])
    {
      assert cs[i] in cs && !Ours(o, hp, cs[i]) && !Elsewhere(o, hp, cs[i]);
    }
    forall i | 0 <= i < |cs| && Ours(o, hp, cs[i]) ensures AnyOurs(o, hp, cs) {
      assert cs[i] in cs;
    }
  }

  lemma {:induction false} FirstErrorIs(o: Oracle, cs: seq<Chain>, i: nat)
    requires i < |cs| && cs[i] != [] && FoldChain(o, cs[i]).Err?
    requires forall j :: 0 <= j < i && cs[j] != [] ==> FoldChain(o, cs[j]).Ok?
    ensures FirstError(o, cs) == Some(FoldChain(o, cs[i]).error)
  {
    var front := cs[..|cs| - 1];
    if i < |front| {
      FirstErrorIs(o, front, i);
    } else {
      assert forall j :: 0 <= j < |front| ==> front[j] == cs[j];
    }
  }

  // What the seed, the device itself and its peers hold, the empty chains aside.
  ghost predicate Seen(held: Option<Chain>, peers: seq<Chain>, seed: SeedAnswer, c: Chain) {
    c != [] && (seed == Found(c) || held == Some(c) || c in peers)
  }

  // Each verdict on the call's own arguments.  Some longest chain that folds at our slot lists the device
  // or not; failing any, a chain that folds at another slot; failing that, a chain that does not fold;
  // and with no chain at all, whether the seed answered.
  lemma VerdictMeans(
    o: Oracle, hp: Key32, device: Key32, held: Option<Chain>, peers: seq<Chain>, seed: SeedAnswer)
    ensures var v := VerdictOn(o, hp, device, Candidates(held, peers, seed), seed.Silent?);
            match v
            case Member => exists c: Chain :: LongestSeen(o, hp, held, peers, seed, c)
                                       && device in FoldChain(o, c).value.members
            case JoinOurs => exists c: Chain :: LongestSeen(o, hp, held, peers, seed, c)
                                         && device !in FoldChain(o, c).value.members
            case WrongFleet =>
              && (exists c: Chain :: Seen(held, peers, seed, c) && FoldChain(o, c).Ok? && c[0].handleProof != hp)
              && (forall c: Chain :: Seen(held, peers, seed, c) && FoldChain(o, c).Ok? ==> c[0].handleProof != hp)
            case Unverifiable(_) =>
              && (exists c: Chain :: Seen(held, peers, seed, c))
              && (forall c: Chain :: Seen(held, peers, seed, c) ==> FoldChain(o, c).Err?)
            case Fresh => (forall c: Chain :: !Seen(held, peers, seed, c)) && !seed.Silent?
            case Unreachable => (forall c: Chain :: !Seen(held, peers, seed, c)) && seed.Silent?
  {
    var cs := Candidates(held, peers, seed);
    SeenAreCandidates(held, peers, seed);
    VerdictsPartition(o, hp, device, cs, seed.Silent?);
    if AnyOurs(o, hp, cs) {
      var at := DecidingLeads(o, hp, cs);
      TheLongestOfOursDecides(o, hp, device, cs, seed.Silent?, at);
      assert LongestSeen(o, hp, held, peers, seed, cs[at]) by {
        assert cs[at] in cs;
        forall c: Chain | Seen(held, peers, seed, c) && FoldChain(o, c).Ok? && c[0].handleProof == hp
          ensures |c| <= |cs[at]|
        {
          var j :| 0 <= j < |cs| && cs[j] == c;
          assert Ours(o, hp, cs[j]);
        }
      }
    } else {
      WithoutOurs(o, hp, cs);
      if i :| 0 <= i < |cs| && cs[i] != [] {
        assert cs[i] in cs && Seen(held, peers, seed, cs[i]);
      }
    }
  }

  lemma WithoutOurs(o: Oracle, hp: Key32, cs: seq<Chain>)
    requires !AnyOurs(o, hp, cs)
    ensures forall c: Chain :: c in cs && c != [] && FoldChain(o, c).Ok? ==> c[0].handleProof != hp
    ensures AnyElsewhere(o, hp, cs) <==>
            exists c: Chain :: c in cs && c != [] && FoldChain(o, c).Ok? && c[0].handleProof != hp
  {
    forall c: Chain | c in cs && c != [] && FoldChain(o, c).Ok?
      ensures c[0].handleProof != hp && AnyElsewhere(o, hp, cs)
    {
      assert !Ours(o, hp, c);
      var i :| 0 <= i < |cs| && cs[i] == c;
      assert Elsewhere(o, hp, cs[i]);
    }
    if i :| 0 <= i < |cs| && Elsewhere(o, hp, cs[i]) {
      assert cs[i] in cs;
    }
  }

  ghost predicate LongestSeen(
    o: Oracle, hp: Key32, held: Option<Chain>, peers: seq<Chain>, seed: SeedAnswer, c: Chain) {
    && Seen(held, peers, seed, c) && FoldChain(o, c).Ok? && c[0].handleProof == hp
    && forall d: Chain :: Seen(held, peers, seed, d) && FoldChain(o, d).Ok? && d[0].handleProof == hp ==> |d| <= |c|
  }

  lemma SeenAreCandidates(held: Option<Chain>, peers: seq<Chain>, seed: SeedAnswer)
    ensures forall c: Chain :: Seen(held, peers, seed, c) <==> c in Candidates(held, peers, seed) && c != []
  {
    var cs := Candidates(held, peers, seed);
    var first := if seed.Found? then [seed.chain] else [];
    var own := if held.Some? then [held.value] else [];
    assert cs == first + own + peers;
    assert forall c: Chain :: c in cs <==> c in first || c in own || c in peers;
  }

  // For the call itself: Fresh needs the seed's NotFound, or its empty chain.
  lemma FreshNeedsTheSeed(o: Oracle, hp: Key32, device: Key32, held: Option<Chain>, peers: seq<Chain>, seed: SeedAnswer)
    ensures VerdictOn(o, hp, device, Candidates(held, peers, seed), seed.Silent?) == Fresh
            <==> && (seed == NotFound || seed == Found([]))
                 && (held.Some? ==> held.value == [])
                 && forall i :: 0 <= i < |peers| ==> peers[i] == []
  {
    var cs := Candidates(held, peers, seed);
    VerdictsPartition(o, hp, device, cs, seed.Silent?);
    var k := |cs| - |peers|;
    assert forall i :: 0 <= i < |peers| ==> cs[k + i] == peers[i];
    assert held.Some? ==> cs[k - 1] == held.value;
    assert seed.Found? ==> cs[0] == seed.chain;
  }

  // ---- order, duplicates, more evidence ----

  ghost predicate Comparable(o: Oracle, hp: Key32, cs: seq<Chain>) {
    forall c, d :: c in cs && d in cs && Ours(o, hp, c) && Ours(o, hp, d) ==> Extends(c, d) || Extends(d, c)
  }

  predicate SameVerdict(v: Verdict, w: Verdict) {
    v == w || (v.Unverifiable? && w.Unverifiable?)
  }

  ghost predicate Longest(o: Oracle, hp: Key32, cs: seq<Chain>, c: Chain) {
    c in cs && Ours(o, hp, c) && forall d :: d in cs && Ours(o, hp, d) ==> |d| <= |c|
  }

  // The longest chains at our slot, when there are several, agree on whether they list the device.
  ghost predicate LongestAgree(o: Oracle, hp: Key32, device: Key32, cs: seq<Chain>) {
    forall c, d :: Longest(o, hp, cs, c) && Longest(o, hp, cs, d) ==> (Lists(o, c, device) <==> Lists(o, d, device))
  }

  // The verdict is the same for every list of the same chains.
  ghost predicate OrderIsNothing(o: Oracle, hp: Key32, device: Key32, cs: seq<Chain>, silent: bool) {
    forall ds :: (forall c :: c in cs <==> c in ds) ==>
      SameVerdict(VerdictOn(o, hp, device, cs, silent), VerdictOn(o, hp, device, ds, silent))
  }

  lemma DecidedByALongest(o: Oracle, hp: Key32, device: Key32, cs: seq<Chain>, silent: bool) returns (c: Chain)
    requires AnyOurs(o, hp, cs)
    ensures Longest(o, hp, cs, c)
    ensures VerdictOn(o, hp, device, cs, silent) == if Lists(o, c, device) then Member else JoinOurs
  {
    var at := DecidingLeads(o, hp, cs);
    TheLongestOfOursDecides(o, hp, device, cs, silent, at);
    c := cs[at];
    forall d | d in cs && Ours(o, hp, d) ensures |d| <= |c| {
      var j :| 0 <= j < |cs| && cs[j] == d;
    }
  }

  lemma SameChainsSameVerdict(o: Oracle, hp: Key32, device: Key32, cs: seq<Chain>, ds: seq<Chain>, silent: bool)
    requires LongestAgree(o, hp, device, cs) && forall c :: c in cs <==> c in ds
    ensures SameVerdict(VerdictOn(o, hp, device, cs, silent), VerdictOn(o, hp, device, ds, silent))
  {
    if AnyOurs(o, hp, cs) {
      assert AnyOurs(o, hp, ds);
      var c := DecidedByALongest(o, hp, device, cs, silent);
      var d := DecidedByALongest(o, hp, device, ds, silent);
      assert Longest(o, hp, cs, d);
    } else {
      VerdictsPartition(o, hp, device, cs, silent);
      VerdictsPartition(o, hp, device, ds, silent);
      assert forall c :: c in ds ==> !Ours(o, hp, c);
      SameElsewhere(o, hp, cs, ds);
      SameElsewhere(o, hp, ds, cs);
    }
  }

  // A longest chain put first decides.
  lemma PutFirstDecides(o: Oracle, hp: Key32, device: Key32, cs: seq<Chain>, c: Chain, silent: bool)
    requires Longest(o, hp, cs, c)
    ensures VerdictOn(o, hp, device, [c] + cs, silent) == if Lists(o, c, device) then Member else JoinOurs
    ensures forall d :: d in cs <==> d in [c] + cs
  {
    var ds := [c] + cs;
    assert ds[0] == c && forall j :: 0 < j < |ds| ==> ds[j] == cs[j - 1];
    TheLongestOfOursDecides(o, hp, device, ds, silent, 0);
  }

  lemma AgreeingLeavesNothing(o: Oracle, hp: Key32, device: Key32, cs: seq<Chain>, silent: bool)
    requires LongestAgree(o, hp, device, cs)
    ensures OrderIsNothing(o, hp, device, cs, silent)
  {
    forall ds | forall c :: c in cs <==> c in ds
      ensures SameVerdict(VerdictOn(o, hp, device, cs, silent), VerdictOn(o, hp, device, ds, silent))
    {
      SameChainsSameVerdict(o, hp, device, cs, ds, silent);
    }
  }

  lemma DisagreeingMatters(o: Oracle, hp: Key32, device: Key32, cs: seq<Chain>, silent: bool, c: Chain, d: Chain)
    requires Longest(o, hp, cs, c) && Longest(o, hp, cs, d) && Lists(o, c, device) && !Lists(o, d, device)
    ensures !OrderIsNothing(o, hp, device, cs, silent)
  {
    PutFirstDecides(o, hp, device, cs, c, silent);
    PutFirstDecides(o, hp, device, cs, d, silent);
    var v := VerdictOn(o, hp, device, cs, silent);
    var atC, atD := VerdictOn(o, hp, device, [c] + cs, silent), VerdictOn(o, hp, device, [d] + cs, silent);
    assert !SameVerdict(v, atC) || !SameVerdict(v, atD);
  }

  // The order and the number of copies of what was seen matter, beyond the error an Unverifiable
  // carries, exactly when two longest chains at our slot disagree on the device.
  lemma OrderAndDuplicatesMatterIff(o: Oracle, hp: Key32, device: Key32, cs: seq<Chain>, silent: bool)
    ensures OrderIsNothing(o, hp, device, cs, silent) <==> LongestAgree(o, hp, device, cs)
  {
    if LongestAgree(o, hp, device, cs) {
      AgreeingLeavesNothing(o, hp, device, cs, silent);
    } else {
      var c, d :|
        && Longest(o, hp, cs, c) && Longest(o, hp, cs, d)
        && Lists(o, c, device) && !Lists(o, d, device);
      DisagreeingMatters(o, hp, device, cs, silent, c, d);
    }
  }

  // In particular when our chains are prefixes of one another: then only which were seen matters.
  lemma PrefixesAgree(o: Oracle, hp: Key32, device: Key32, cs: seq<Chain>, silent: bool)
    requires Comparable(o, hp, cs)
    ensures OrderIsNothing(o, hp, device, cs, silent)
  {
    forall c, d | Longest(o, hp, cs, c) && Longest(o, hp, cs, d) ensures c == d {
      assert c[..|c|] == c && d[..|d|] == d;
    }
    OrderAndDuplicatesMatterIff(o, hp, device, cs, silent);
  }

  lemma SameElsewhere(o: Oracle, hp: Key32, cs: seq<Chain>, ds: seq<Chain>)
    requires forall c :: c in cs ==> c in ds
    ensures AnyElsewhere(o, hp, cs) ==> AnyElsewhere(o, hp, ds)
    ensures (exists i :: 0 <= i < |cs| && cs[i] != []) ==> exists i :: 0 <= i < |ds| && ds[i] != []
  {
    if i :| 0 <= i < |cs| && Elsewhere(o, hp, cs[i]) {
      assert cs[i] in ds;
      var j :| 0 <= j < |ds| && ds[j] == cs[i];
      assert Elsewhere(o, hp, ds[j]);
    }
    if i :| 0 <= i < |cs| && cs[i] != [] {
      assert cs[i] in ds;
      var j :| 0 <= j < |ds| && ds[j] == cs[i];
      assert ds[j] != [];
    }
  }

  // How much a verdict rests on.
  function Weight(v: Verdict): nat {
    match v
    case Fresh => 0
    case Unreachable => 0
    case Unverifiable(_) => 1
    case WrongFleet => 2
    case Member => 3
    case JoinOurs => 3
  }

  // Another chain never weakens a verdict, so non-empty evidence never turns one into Fresh or
  // Unreachable.
  lemma EvidenceOnlyStrengthens(o: Oracle, hp: Key32, device: Key32, cs: seq<Chain>, more: seq<Chain>, silent: bool)
    ensures Weight(VerdictOn(o, hp, device, cs + more, silent)) >= Weight(VerdictOn(o, hp, device, cs, silent))
    ensures (exists i :: 0 <= i < |more| && more[i] != []) ==> Weight(VerdictOn(o, hp, device, cs + more, silent)) > 0
  {
    var all := cs + more;
    VerdictsPartition(o, hp, device, cs, silent);
    VerdictsPartition(o, hp, device, all, silent);
    assert forall c :: c in cs ==> c in all;
    SameElsewhere(o, hp, cs, all);
    SameElsewhere(o, hp, more, all);
  }

  // Beside a slot that only grows by extension, the seed's chain decides: a stale held or peer copy
  // of it can neither admit a removed device nor shut out an added one.
  lemma TheSeedsChainDecides(o: Oracle, hp: Key32, device: Key32, held: Option<Chain>, peers: seq<Chain>, slot: Chain)
    requires Ours(o, hp, slot)
    requires held.Some? ==> Extends(slot, held.value)
    requires forall i :: 0 <= i < |peers| ==> Extends(slot, peers[i])
    ensures VerdictOn(o, hp, device, Candidates(held, peers, Found(slot)), false)
            == if Lists(o, slot, device) then Member else JoinOurs
  {
    var cs := Candidates(held, peers, Found(slot));
    assert cs[0] == slot;
    forall j | 0 <= j < |cs| ensures |cs[j]| <= |slot| {
      var k := |cs| - |peers|;
      assert j >= k ==> cs[j] == peers[j - k];
    }
    TheLongestOfOursDecides(o, hp, device, cs, false, 0);
  }
}
