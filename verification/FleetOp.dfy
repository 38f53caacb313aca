/** One link of the membership chain, and the reasons a chain is refused. */
module FleetOps {
  import opened Wrappers
  import opened Bytes
  import opened Schemes

  datatype OpKind = Genesis | Add | Remove | Checkpoint | Declare | Lock | Unlock

  datatype OpVersion = V1 | V2 | V3 | V4

  const UNSTATED: nat := 0
  const PLATE_PIPE: nat := 5

  // 32-byte fields are numbers; an all-zero field is 0.
  datatype FleetOp = FleetOp(
    version: OpVersion,
    handleProof: Key32,
    prevHash: Key32,
    kind: OpKind,
    device: Key32,
    time: int,
    signer: Key32,
    identity: Key32,
    identitySig: seq<byte>,
    consentT: int,
    consent: seq<Egg>,
    ckptK: nat,
    ckptCommit: Key32,
    ckptEpoch: nat,
    sigs: seq<Egg>,
    bundle: Option<KeyBundle>,
    plate: Option<Key32>,
    plateKind: nat)

  predicate Plated(v: OpVersion) {
    v == V3 || v == V4
  }

  predicate Framed(v: OpVersion) {
    v != V1
  }

  // The kinds a plate may ride on.
  predicate PlateKindOp(k: OpKind) {
    k == Genesis || k == Add || k == Declare
  }

  predicate KnownPlateKind(k: nat) {
    k <= PLATE_PIPE
  }

  datatype FoldError =
    | EmptyChain
    | NotGenesisFirst
    | GenesisNotSelfSigned
    | BadIdentityBinding
    | StrayIdentityBinding(index: nat)
    | BadConsent(index: nat)
    | ConsentStale(index: nat)
    | ImpossibleTime(index: nat)
    | StrayConsent(index: nat)
    | StrayCheckpoint(index: nat)
    | CheckpointMalformed(index: nat)
    | CheckpointOutOfSequence(index: nat)
    | StrayBundle(index: nat)
    | StrayPlate(index: nat)
    | StrayPlateKind(index: nat)
    | BadBundle(index: nat)
    | DeclareNotSelfSigned(index: nat)
    | CapabilityRegression(index: nat)
    | BelowFloor(index: nat)
    | DeclareUnproven(index: nat)
    | InsufficientEggs(index: nat)
    | BundleMismatch(index: nat)
    | RemoveNotSelfSigned(index: nat)
    | RemoveApproverIsLeaver(index: nat)
    | InconsistentHandleProof(index: nat)
    | BrokenChain(index: nat)
    | BadSignature(index: nat)
    | SignerNotMember(index: nat)
    | SignerLocked(index: nat)
    | LockMalformed(index: nat)
    | AddExistingMember(index: nat)
    | RemoveNonMember(index: nat)

  const OP_TIME_MAX_OSC: int := 0x4000_0000_0000_0000
  const OSCILLATIONS_PER_SECOND: int := 1_420_407_826
  const CONSENT_WINDOW_OSC: int := 3600 * OSCILLATIONS_PER_SECOND

  function AbsDiff(a: int, b: int): nat {
    if a < b then b - a else a - b
  }

  // The checks that read the op alone, in the order the fold makes them: the first one it fails.
  function Structural(op: FleetOp, i: nat): Option<FoldError> {
    if op.time < 0 || op.time >= OP_TIME_MAX_OSC then Some(ImpossibleTime(i))
    else if op.kind != Genesis && (op.identity != 0 || op.identitySig != []) then Some(StrayIdentityBinding(i))
    else if op.kind != Add && op.kind != Remove && (op.consentT != 0 || op.consent != []) then Some(StrayConsent(i))
    else if op.kind == Remove && (op.consentT != 0) != (op.consent != []) then Some(StrayConsent(i))
    else if op.kind != Checkpoint && (op.ckptK != 0 || op.ckptCommit != 0 || op.ckptEpoch != 0) then
      Some(StrayCheckpoint(i))
    else if op.kind != Add && op.kind != Declare && op.bundle.Some? then Some(StrayBundle(i))
    else if op.plate.Some? && (!PlateKindOp(op.kind) || !Plated(op.version)) then Some(StrayPlate(i))
    else if op.plateKind != UNSTATED
      && (!PlateKindOp(op.kind) || op.version != V4 || !KnownPlateKind(op.plateKind)) then
      Some(StrayPlateKind(i))
    else if op.bundle.Some? && Ed25519Of(op.bundle.value) != op.device then Some(BundleMismatch(i))
    else None
  }
}
