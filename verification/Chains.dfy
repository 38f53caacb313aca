/**
 Chains under the real preimages: the hash links, what an equal head means, and how two chains for
 one slot relate.
 */
module Chains {
  import opened Wrappers
  import opened Bytes
  import opened Schemes
  import opened FleetOps
  import opened Fold
  import opened Membership
  import opened Preimage
  import Rulebook

  type Hash = seq<byte> -> Key32

  // The oracle whose preimages are the ones the code builds.
  function RealOracle(w: EggCodec, h: Hash, v: Verify): Oracle {
    Oracle(
      op => SigningBytes(w, op),
      op => BindRequestBytes(op),
      op => DepartRequestBytes(op),
      (op: FleetOp) => op.identity != 0 && |op.identitySig| == 64
                       && VerifyEgg(v, ED25519, Be(op.identity, 32), SigningBytes(w, op), op.identitySig),
      op => h(ChainBytes(w, op)),
      v)
  }

  // What a folding chain's signatures cover, in bytes: an op's Ed25519 egg and its genesis identity
  // signature its signing preimage, a consent the request it answers.
  lemma RealSignatures(w: EggCodec, h: Hash, v: Verify, ops: seq<FleetOp>, i: nat, e: Egg)
    requires Folds(RealOracle(w, h, v), ops) && i < |ops|
    ensures var op := ops[i];
            && (e in op.sigs && e.scheme == ED25519 ==> v(ED25519, Be(op.signer, 32), SigningBytes(w, op), e.sig))
            && (op.kind == Genesis && op.identitySig != [] ==>
                  |op.identitySig| == 64 && v(ED25519, Be(op.identity, 32), SigningBytes(w, op), op.identitySig))
            && (op.kind == Add ==>
                  Rulebook.ConsentStands(v, op.consent, Rulebook.Offered(op), BindRequestBytes(op)))
            && (op.kind == Remove && op.signer != op.device ==>
                  Rulebook.ConsentStands(v, op.consent, Rulebook.JudgedBy(ops[..i], op.device), DepartRequestBytes(op)))
  {
    var o := RealOracle(w, h, v);
    Rulebook.RuleAt(o, ops, i);
    Rulebook.NobodyMovesAnother(o, ops, i);
    GenesisExactlyFirst(o, ops, i);
    if e in ops[i].sigs {
      Rulebook.EveryEggVerifies(o, ops, i, e);
    }
  }

  // The hash the next op must reference; zero on an empty chain.
  function HeadOf(o: Oracle, ops: seq<FleetOp>): Key32 {
    if ops == [] then 0 else o.chainHash(ops[|ops| - 1])
  }

  lemma PrevAt(o: Oracle, s: State, op: FleetOp)
    requires Refusal(o, s, op).None?
    ensures op.prevHash == s.prev && After(o, s, op).prev == o.chainHash(op)
  {
  }

  lemma PrevAfter(o: Oracle, ops: seq<FleetOp>, i: nat)
    requires Folds(o, ops) && i < |ops|
    ensures StateAt(o, ops, i + 1).prev == o.chainHash(ops[i]) && ops[i].prevHash == StateAt(o, ops, i).prev
  {
    Accepted(o, ops, i);
    PrevAt(o, StateAt(o, ops, i), ops[i]);
  }

  // Every op of a folding chain references the hash of the op before it.
  lemma LinksHold(o: Oracle, ops: seq<FleetOp>, i: nat)
    requires Folds(o, ops) && 0 < i < |ops|
    ensures ops[i].prevHash == o.chainHash(ops[i - 1])
  {
    PrevAfter(o, ops, i);
    PrevAfter(o, ops, i - 1);
  }

  ghost predicate AllFramed(w: EggCodec, ops: seq<FleetOp>) {
    forall i :: 0 <= i < |ops| ==> WellFramed(w, ops[i])
  }

  // No two of these particular preimages collide.
  ghost predicate NoCollision(w: EggCodec, h: Hash, a: seq<FleetOp>, b: seq<FleetOp>) {
    forall i, j :: 0 <= i < |a| && 0 <= j < |b| && h(ChainBytes(w, a[i])) == h(ChainBytes(w, b[j])) ==>
      ChainBytes(w, a[i]) == ChainBytes(w, b[j])
  }

  lemma SameHashSameOp(w: EggCodec, h: Hash, a: seq<FleetOp>, b: seq<FleetOp>, i: nat, j: nat)
    requires Preimage.Injective(w) && AllFramed(w, a) && AllFramed(w, b) && NoCollision(w, h, a, b)
    requires i < |a| && j < |b| && h(ChainBytes(w, a[i])) == h(ChainBytes(w, b[j]))
    ensures a[i] == b[j]
  {
    assert ChainBytes(w, a[i]) + [] == ChainBytes(w, b[j]) + [];
    ChainBytesDetermine(w, a[i], [], b[j], []);
  }

  // Across two chains, an equal hash means an equal op.
  ghost predicate HashesDetermine(o: Oracle, a: seq<FleetOp>, b: seq<FleetOp>) {
    forall i, j :: 0 <= i < |a| && 0 <= j < |b| && o.chainHash(a[i]) == o.chainHash(b[j]) ==> a[i] == b[j]
  }

  lemma {:induction false} EqualHeadsEqualPrefixes(o: Oracle, a: seq<FleetOp>, b: seq<FleetOp>, m: nat, n: nat)
    requires Folds(o, a) && Folds(o, b) && HashesDetermine(o, a, b)
    requires 0 < m <= |a| && 0 < n <= |b| && o.chainHash(a[m - 1]) == o.chainHash(b[n - 1])
    ensures a[..m] == b[..n]
  {
    GenesisExactlyFirst(o, a, m - 1);
    GenesisExactlyFirst(o, b, n - 1);
    assert a[m - 1] == b[n - 1];
    if m > 1 {
      LinksHold(o, a, m - 1);
      LinksHold(o, b, n - 1);
      EqualHeadsEqualPrefixes(o, a, b, m - 1, n - 1);
      assert a[..m] == a[..m - 1] + [a[m - 1]] && b[..n] == b[..n - 1] + [b[n - 1]];
    } else {
      assert a[..m] == [a[0]] && b[..n] == [b[0]];
    }
  }

  lemma FramedHashesDetermine(w: EggCodec, h: Hash, v: Verify, a: seq<FleetOp>, b: seq<FleetOp>)
    requires Preimage.Injective(w) && AllFramed(w, a) && AllFramed(w, b) && NoCollision(w, h, a, b)
    ensures HashesDetermine(RealOracle(w, h, v), a, b)
  {
    var o := RealOracle(w, h, v);
    forall i, j | 0 <= i < |a| && 0 <= j < |b| && o.chainHash(a[i]) == o.chainHash(b[j]) ensures a[i] == b[j] {
      SameHashSameOp(w, h, a, b, i, j);
    }
  }

  // Two all-framed folding chains with the same head are the same chain, op for op.
  lemma HeadNamesTheChain(w: EggCodec, h: Hash, v: Verify, a: seq<FleetOp>, b: seq<FleetOp>)
    requires Folds(RealOracle(w, h, v), a) && Folds(RealOracle(w, h, v), b)
    requires HeadOf(RealOracle(w, h, v), a) == HeadOf(RealOracle(w, h, v), b)
    requires Preimage.Injective(w) && AllFramed(w, a) && AllFramed(w, b) && NoCollision(w, h, a, b)
    ensures a == b
  {
    FramedHashesDetermine(w, h, v, a, b);
    HeadsAgree(RealOracle(w, h, v), a, b);
  }

  lemma HeadsAgree(o: Oracle, a: seq<FleetOp>, b: seq<FleetOp>)
    requires Folds(o, a) && Folds(o, b) && HeadOf(o, a) == HeadOf(o, b) && HashesDetermine(o, a, b)
    ensures a == b
  {
    EqualHeadsEqualPrefixes(o, a, b, |a|, |b|);
    assert a[..|a|] == a && b[..|b|] == b;
  }

  // ---- how a fetched chain relates to the adopted one ----

  predicate Extends(a: seq<FleetOp>, prior: seq<FleetOp>) {
    |prior| <= |a| && a[..|prior|] == prior
  }

  datatype Adoption = First | Extended | Unchanged | Stale | Fork | DifferentGenesis

  function GenesisHash(o: Oracle, ops: seq<FleetOp>): Option<Key32> {
    if ops == [] then None else Some(o.chainHash(ops[0]))
  }

  function Adopt(o: Oracle, chain: seq<FleetOp>, adopted: Option<seq<FleetOp>>): Adoption {
    match adopted
    case None => First
    case Some(prior) =>
      if GenesisHash(o, chain) != GenesisHash(o, prior) then DifferentGenesis
      else if |chain| == |prior| && Extends(chain, prior) then Unchanged
      else if Extends(chain, prior) then Extended
      else if Extends(prior, chain) then Stale
      else Fork
  }

  predicate Lands(a: Adoption) {
    a == First || a == Extended || a == Unchanged
  }

  // A chain lands over an adopted one exactly when it only grew (over an empty one, when it is empty
  // too); it is stale exactly when it is a strict prefix with a genesis.  No stamp enters the verdict.
  lemma AdoptionIsStructure(o: Oracle, chain: seq<FleetOp>, prior: seq<FleetOp>)
    ensures Lands(Adopt(o, chain, Some(prior))) <==> Extends(chain, prior) && (prior == [] ==> chain == [])
    ensures Adopt(o, chain, Some(prior)) == Unchanged <==> chain == prior
    ensures Adopt(o, chain, Some(prior)) == Stale <==> Extends(prior, chain) && chain != prior && chain != []
  {
    if Extends(chain, prior) && prior != [] {
      assert chain[0] == chain[..|prior|][0];
    }
    if Extends(prior, chain) && chain != [] {
      assert prior[0] == prior[..|chain|][0];
    }
    if |chain| == |prior| {
      assert chain[..|prior|] == chain && prior[..|chain|] == prior;
    }
  }

  // The first read lands; a chain from another first op is another genesis; and what neither grew from
  // the adopted chain nor is a beginning of it, from the same genesis, is a fork.
  lemma OtherAdoptions(o: Oracle, chain: seq<FleetOp>, prior: seq<FleetOp>)
    ensures Adopt(o, chain, None) == First
    ensures var why := Adopt(o, chain, Some(prior));
            var same := (chain == [] && prior == [])
              || (chain != [] && prior != [] && o.chainHash(chain[0]) == o.chainHash(prior[0]));
            && (why == DifferentGenesis <==> !same)
            && (why == Extended <==> same && Extends(chain, prior) && |chain| > |prior|)
            && (why == Fork <==> same && !Extends(chain, prior) && !Extends(prior, chain))
  {
  }

  lemma ExtendsTransitive(a: seq<FleetOp>, b: seq<FleetOp>, c: seq<FleetOp>)
    requires Extends(a, b) && Extends(b, c)
    ensures Extends(a, c)
  {
    assert a[..|c|] == a[..|b|][..|c|];
  }

  // A reader that lands what it is told to land only ever moves forward: after any sequence of
  // answers the adopted chain extends every chain adopted before it.
  function AdoptAll(o: Oracle, start: seq<FleetOp>, answers: seq<seq<FleetOp>>): seq<FleetOp> {
    if answers == [] then start
    else
      var held := AdoptAll(o, start, answers[..|answers| - 1]);
      var read := answers[|answers| - 1];
      if Lands(Adopt(o, read, Some(held))) then read else held
  }

  lemma {:induction false} AdoptedOnlyGrows(
    o: Oracle, start: seq<FleetOp>, answers: seq<seq<FleetOp>>, m: nat, n: nat)
    requires m <= n <= |answers|
    ensures Extends(AdoptAll(o, start, answers[..n]), AdoptAll(o, start, answers[..m]))
    decreases n
  {
    var before := AdoptAll(o, start, answers[..m]);
    if m == n {
      assert before[..|before|] == before;
    } else {
      AdoptedOnlyGrows(o, start, answers, m, n - 1);
      assert answers[..n][..n - 1] == answers[..n - 1];
      var held, read := AdoptAll(o, start, answers[..n - 1]), answers[n - 1];
      AdoptionIsStructure(o, read, held);
      if Lands(Adopt(o, read, Some(held))) {
        ExtendsTransitive(read, held, before);
      }
    }
  }
}
