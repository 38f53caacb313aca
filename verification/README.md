# Fleet verification model

A Dafny model of the fleet library: the phonebook slice and its registry, the membership chain and its
codec, the optimistic publishing around it, the fan-out register and blob, the fleet-state merge, and
four smaller companions (reflexive address, pairing words, attest verdict, key bundles).
`dafny verify dfyconfig.toml` checks all of it.

## How the source is modelled

- Code that changes things step by step is a loop or a class (`SliceTable.Slice` over its array,
  `Fold.FoldInner`, `Registry.PopAndSwap`, `MergeByKey.DedupBy`, `Reflexive.ReflexiveState`,
  `FanoutRegister.Register`, `ChainSlot.Slot`, the codec cursors), each proved against a function, and
  what the source promises is proved of that function. Code made of expressions is functions.
- What a body says is also said without it: the fold against a rulebook over the op history (`Rulebook`),
  bytes and values by offset (`PreimageLayout`, `WireLayout`), merges and reports on their own fields, and
  the client's calls by what they land when nobody disturbs them (`Client`).
- Protocols (`ChainSlot`, `FanoutRegister`) are state machines over events; a read may return any past
  value, and a theorem holds for every interleaving. In `ChainSlot` a device has one call under way at a
  time; that a stale refusal is another device's doing (`ChainSlot.StaleMeansAnotherLanded`) rests on it.
- A fixed array of bytes such as a key or hash is the number it spells big-endian, so slice order is
  number order (`Bytes.LexIsNumeric`). A scheme mask is the set of its bit numbers. Scheme tags are
  assumed to be 0, 1 and 2; the crate that defines them is not part of this model.
- Hashes, signature checks, the egg-list codec, value flattening and the word list are parameters.
  Nothing is assumed of signature checks, save that those of the chains in `Rejoin` and of a ready caller in
  `Client` hold. "No collision" is assumed only of the preimages of the two chains compared. A codec
  parameter is assumed injective, or inverse to its reader, where a lemma says so.
- Clocks, random keys and every network answer are parameters. Refusals the service makes for reasons of
  its own are the absence of an event.
- The service's rule for a chain slot (accept a chain that folds and extends the stored one) and for the
  fan-out register (accept a strictly larger revision) are as the client's and the chain's documentation
  state them; the service itself is not part of this repository.

## Where the code and its comments part

- Two invariants are named for a slice. They are not enough for lookup; a third is needed, no gap between
  a record and its ideal slot. `Layout.LookupNeedsContiguity` shows it is exactly what is missing and
  `SliceTable.CheckedBodyCanHideARecord` gives a body that passes `check_invariants` and hides a record.
- `registry_plan` calls its writes minimal. They are exactly when no member's pointer lies past the
  survivors' count inside the new length and, if the stored count is right already, nothing needs writing
  (`Registry.PlanIsMinimalIff`): a displaced pointer is moved where it could stay, and any pointer write
  brings a count record with it. A stored duplicate of a current member is never healed
  (`Registry.DuplicateNeverHealed`).
- `push_checkpoint` documents Ok(None) as "our op landed". On a chain without a checkpoint, k other
  than 1 gives Ok(None) with nothing landed (`ChainSlot.NoneMeansLandedUnlessSkipped` is the exact condition).
- A re-added device pushes a second bundle entry behind a find-first lookup and is judged by its old
  bundle until a Declare overwrites it (`Declared.AnswerIsLatestIff`, `Rejoin.RejoinedDeviceIsStuck`), which
  leaves the floor above what the unlocked members share (`Rejoin.RejoinLeavesTheFloorInexact`).
- `recover_or_establish_fleet_key` takes every first-read error for absence, and does not recover a key
  published between its two reads; it then mints over a live key
  (`FanoutRegister.OverwritesALiveBlobIff`, with both runs).
- Pending reflexive addresses are said to stay short of a quorum; once an address is held, its reporters
  pile up (`Reflexive.ShortUnlessUnwelcome`, `Reflexive.VotersPileUp`).
- `merge_device_settings` commutes exactly when no device's two surviving maps are equally stamped
  reorderings of one another (`FleetState.DeviceMergeCommutesIff`), and always up to that order.
- The v1 wire form has room for one Ed25519 consent signature. A v1 Add or Remove that folds with a
  consent of any other kind is lost on the wire (`OpCodec.FoldCommutesWithCodec` is the exact
  condition, `Rejoin.FoldingChainLostOnTheWire` such a chain). No builder mints v1 (src/fleet.rs:1464) and no
  parse yields such a consent, so only a struct filled by hand can be one.
- The spell-check is called case-insensitive. It is with inner whitespace or without a capital past the first
  letter; elsewhere capitals split words (`Tokens.CaseIgnoredIff`, `PairWords.CapitalsAreFlagged`).
- The v1 chain-hash preimage is called unambiguous. Nothing checks the signature lengths this rests on where
  it is built; with them it is, without them it is not (`V1Preimage.V1ChainBytesDetermine`,
  `V1Preimage.V1ChainBytesCollide`).

## Model

| member | source | states |
|---|---|---|
| `Layout.Monotone` | src/phonebook.rs:168-174 | a larger key never has a smaller ideal slot, and a larger ideal slot means a larger key |
| `Layout.LookupExact` | src/phonebook.rs:779-795 | on a body with all three invariants, lookup finds exactly the map's record at its slot, and misses only what the map lacks |
| `Layout.LookupNeedsContiguity` | src/phonebook.rs:712-717 | for a body with the two invariants the file names, every stored record can be found if and only if no gap lies between any record and its ideal slot: the unstated third invariant is exactly what is missing |
| `SliceTable.CheckedBodyCanHideARecord` | src/phonebook.rs:881-905 | for every slice of every address width, a body of its size that passes `check_invariants` while lookup misses the record stored in it |
| `Layout.Canonical` | src/phonebook.rs:797-865 | two bodies of one size that hold the same map are equal slot for slot |
| `Layout.PositionFormula` | src/phonebook.rs:797-836 | each record sits at the larger of its ideal slot and one past the previous record |
| `Layout.InsertExact` | src/phonebook.rs:797-836 | insert adds a new key, replaces a held one iff its epoch strictly rises, keeps all three invariants, and is Full only with nothing free from the ideal slot on |
| `Layout.FullMeansOverrun` | src/phonebook.rs:797-836 | a new key is refused as Full iff no body of that size holds the enlarged map at all |
| `Overrun.FitsIff` | src/phonebook.rs:797-836 | a set of keys fits a slice iff no key has fewer slots from its ideal to the end than there are keys from it on |
| `Overrun.FullIffOverrun` | src/phonebook.rs:797-836 | insert answers Full for a new key iff some key, held or new, overruns in that count |
| `Layout.RemoveExact` | src/phonebook.rs:848-865 | pulling the run left takes exactly that key out of the map and keeps all three invariants |
| `Layout.InsertThenRemove` | src/phonebook.rs:845-847 | inserting a new key and removing it restores the body exactly |
| `SliceRuns.RunRefines` | src/phonebook.rs:797-865 | from the empty slice, every sequence of inserts and removes refines the same calls on a map that knows nothing of slots |
| `SliceRuns.AddressedRunRefines` | src/phonebook.rs:160-174 | the same for a slice as shift-and-mask addresses it, for every field width |
| `SliceRuns.HistoryIndependent` | src/phonebook.rs:845-847 | two histories with the same contents end in the same body |
| `SliceRuns.ArrivalOrderIsInvisible` | src/phonebook.rs:797-836 | any order and repetition of a fitting record set (one record per key and epoch) ends in one body, that of each key's newest record |
| `Addressing.AddressIsSliceThenSlot` | src/phonebook.rs:160-181 | the address is the slice number followed by the slot number, and the slot is in range |
| `Addressing.AddressIsMonotone` | src/phonebook.rs:177-181 | keys in lexicographic order have addresses in order |
| `Addressing.SliceIsRange` | src/phonebook.rs:160-165 | a slice is one contiguous range of keys |
| `Addressing.SlotIsIdeal` | src/phonebook.rs:168-174 | the masked bits of a key of the slice are the layout's ideal slot |
| `Addressing.GrowthSplitsInTwo` | src/phonebook.rs:160-165 | one more slice bit splits a slice into its two contiguous halves |
| `SliceTable.Slice.Lookup` | src/phonebook.rs:779-795 | over the array: answers exactly what the slice holds |
| `SliceTable.Slice.Insert` | src/phonebook.rs:797-836 | over the array: every outcome's exact condition, Full included; a refused write changes nothing; the slice keeps its invariants and `fill` is the map's size |
| `SliceTable.Slice.Remove` | src/phonebook.rs:848-865 | over the array: removes exactly that key, reports whether it was there, and changes nothing when it was not |
| `SliceTable.Slice.CheckInvariants` | src/phonebook.rs:890-905 | the source's check, equal to the two invariants it is named for and no more |
| `SliceTable.Slice.FromBody` | src/phonebook.rs:881-888 | a raw body is adopted as it is, with its occupied slots recounted; it is a valid slice when it represents a map |
| `Registry.PopAndSwap` | src/phonebook.rs:1071-1083 | the loop drops every departed device, keeps every stored copy of a member, and leaves each surviving pointer below the kept length where it was |
| `Registry.Plan` | src/phonebook.rs:1059-1124 | the writes are the pointers that differ between the stored run and the target, then a count when anything changed or it differs |
| `Registry.PlanConverges` | src/phonebook.rs:1059-1124 | applying the plan to a store leaves exactly the target run and its count |
| `Registry.TargetIsTheFold` | src/phonebook.rs:1071-1089 | the target names exactly the fold and keeps each surviving pointer below the kept length where it was |
| `Registry.OnePlanConverges` | src/phonebook.rs:1055-1056 | end to end: applying a plan leaves a dense run whose set is the fold, duplicate-free when view and fold are, with its count, and the next plan is empty |
| `Registry.HealsUnlessMemberDuplicated` | src/phonebook.rs:1071-1083 | with a duplicate-free fold the target run is duplicate-free iff no member is stored twice |
| `Registry.DuplicateNeverHealed` | src/phonebook.rs:1071-1083 | a stored duplicate of a member that the plan leaves in place |
| `Registry.PlanIsMinimalIff` | src/phonebook.rs:1055-1124 | for a duplicate-free view: no list of writes that reaches the fold and its count is shorter than the plan iff no member's pointer lies past the survivors' count inside the new length and, when the stored count is right already, every slot of the new length holds a member |
| `Registry.PureChangesAreMinimal` | src/phonebook.rs:1055 | so pure adds and pure removals are minimal when the stored count is the stored run's length |
| `Registry.MixedPlanIsNotMinimal` | src/phonebook.rs:1055 | one device leaving and one joining where the plan is not the shortest, whatever count is stored |
| `Registry.MixedMayBeMinimal` | src/phonebook.rs:1055 | a mixed change whose plan is the shortest, and a pure add whose plan is not, its count being right already |
| `EggBlobs.RoundTrip` | src/phonebook.rs:550-576 | read under any count, a packed blob with any bytes after it: with fewer than its lists it does not unpack, otherwise its lists come first and the bytes after it are read for the rest |
| `EggBlobs.OwnCountReadsBack` | src/phonebook.rs:560-576 | so under its own count a packed blob reads back, iff nothing follows it |
| `WireLayout.EggBlobLayout` | src/phonebook.rs:550-558 | a blob is each list's two-byte length and bytes, in turn |
| `EggBlobs.EggsBlob` | src/phonebook.rs:550-558 | the packing loop writes that blob |
| `EggBlobs.EggsBlobLists` | src/phonebook.rs:561-576 | the unpacking loop reads as that parse does |
| `Schemes.VerifyEggs` | src/pq.rs:168-179 | true iff the list is not empty, every egg verifies under the bundle and the list covers what is required |
| `Schemes.VerifyEggsDeclared` | src/pq.rs:217-226 | true iff every egg the bundle has a key for verifies, there is one, and those cover what is required |
| `Schemes.StrictImpliesDeclared` | src/pq.rs:213-226 | what the strict rule accepts the envelope rule accepts |
| `KeyBundles.RoundTrip` | src/pq.rs:96-132 | reading a written bundle gives it back |
| `WireLayout.BundleLayout` | src/pq.rs:96-105 | a bundle is its count, then scheme, two-byte length and key of each entry |
| `KeyBundles.NewIsValid` | src/pq.rs:48-65 | whatever construction accepts is sorted, free of duplicates, of known key lengths, anchored in Ed25519, and over the same keys |
| `KeyBundles.NewAcceptsIff` | src/pq.rs:48-65 | construction accepts keys, in any order, iff no two share a scheme, each is of a known scheme and its length, and an Ed25519 key is among them |
| `KeyBundles.NewRefusesFor` | src/pq.rs:48-65 | why construction refuses: a shared scheme first, then a bad key, then no Ed25519 key |
| `KeyBundles.ToBytesInjective` | src/pq.rs:96-105 | different bundles have different bytes |
| `KeyBundles.ReadBytes` | src/pq.rs:108-132 | the cursor loop reads as the parse does, each error included |
| `Fold.FoldInner` | src/fleet.rs:581-819 | the loop, running every check inline on its own mutable vectors, equals the incremental fold for every chain, with the same error at the same op |
| `Fold.PrefixFolds` | src/fleet.rs:581-819 | every non-empty prefix of a folding chain folds, and to the state the walk had reached |
| `Fold.FoldSnoc` | src/fleet.rs:599-817 | folding one op more is one step on the folded state |
| `Fold.Accepted` | src/fleet.rs:599-817 | each op of a folding chain was refused for no reason in the state before it and left the state after it |
| `Rulebook.FoldsIffRulesKept` | src/fleet.rs:581-819 | the fold accepts exactly the chains that keep a rulebook without state: each op's rule is read off the ops before it, membership, locks, keys and floor included |
| `Rulebook.FoldsOneMoreIff` | src/fleet.rs:599-817 | a folding chain takes one more op, of any kind, iff it is linked, well shaped, signed by an unlocked member with the whole floor, and its kind's rule holds on the earlier ops |
| `Rulebook.FloorIsOnceShared` | src/fleet.rs:808-816 | the floor is Ed25519 and every scheme that all unlocked members once held together |
| `Rulebook.EveryEggVerifies` | src/fleet.rs:431-452 | every egg of every op verifies over the op's bytes: Ed25519 under the signer's own key, any other scheme under the key the signer last declared or a Declare carries |
| `Rulebook.EveryOpMeetsTheFloor` | src/fleet.rs:656-660 | every op carries an egg for every scheme the ops before it demand |
| `Rulebook.NobodyMovesAnother` | src/fleet.rs:717-773 | every Add carries the joiner's verified consent, in time and with the whole floor, and every Remove signed by another the leaver's |
| `Rulebook.ScreenNames` | src/fleet.rs:600-673 | for any op on a folding chain: wrong slot, broken link, locked signer, missing egg and bad signature, each answered exactly when it is the first that applies |
| `Rulebook.ShapeErrorIsTrue` | src/fleet.rs:606-654 | a linked op of a wrong shape is refused with an error that is true of it |
| `Rulebook.FounderNames` | src/fleet.rs:675-690 | why a genesis that passes the screen is refused |
| `Rulebook.DeclareNames` | src/fleet.rs:692-715 | why a Declare that passes the screen is refused, each error with its exact condition |
| `Rulebook.AddNames` | src/fleet.rs:717-740 | the same for an Add |
| `Rulebook.RemoveNames` | src/fleet.rs:741-773 | the same for a Remove, bare or consented |
| `Rulebook.OthersName` | src/fleet.rs:774-806 | the same for a later genesis, a Lock, an Unlock and a Checkpoint |
| `Membership.FoldedStateIsGood` | src/fleet.rs:585-587 | in every reached state members are distinct and the locked are distinct members |
| `Membership.GenesisExactlyFirst` | src/fleet.rs:597-691 | genesis is at index 0 and nowhere else, and every op names its identity |
| `Membership.MemberIffNotRemoved` | src/fleet.rs:675-773 | a device is a member iff something was said of its membership and the last word was not Remove |
| `Membership.LockedIffLastWord` | src/fleet.rs:741-793 | a device is locked out iff the last Lock, Unlock or Remove of it is a Lock |
| `Membership.WasMemberAtExact` | src/fleet.rs:899-909 | on a folding chain the inner fold never fails, and the answer is the prefix's last word unless the whole chain has locked the device |
| `Membership.CheckpointsRunInOrder` | src/fleet.rs:794-806 | checkpoints are numbered 1, 2, ... in order |
| `Membership.OneCheckpointPerEpoch` | src/fleet.rs:794-806 | a later checkpoint has a larger number, so no number is used twice |
| `Membership.LatestIsCount` | src/fleet.rs:1191-1197 | the latest checkpoint's number is how many there are |
| `Membership.SignerStaysUnlocked` | src/fleet.rs:654-807 | the signer of any accepted op but a bare departure is an unlocked member after it |
| `Membership.OnlyBareDepartureEndsAFleet` | src/fleet.rs:741-773 | only a bare self-departure can leave no unlocked member, and nothing folds after it |
| `Membership.PlateIsLastDeclared` | src/fleet.rs:827-832 | the plate answered is the last one declared for the device, member or not |
| `Membership.PlateKindIsLastDeclared` | src/fleet.rs:846-851 | and the kind of plate is the last one stated |
| `Floor.FloorNeverFalls` | src/fleet.rs:593-594 | the floor only rises along a folding chain |
| `Floor.EverySignerWasUnlocked` | src/fleet.rs:654-807 | every signer after genesis was an unlocked member |
| `Floor.ExactStepIff` | src/fleet.rs:808-815 | from an exact floor an accepted op leaves it exact iff the device an Unlock or Add names is judged afterwards by a mask covering the floor |
| `Floor.FloorIsExactIff` | src/fleet.rs:808-815 | along a folding chain the floor is the AND of the unlocked members' declared masks, wherever one remains, iff every device unlocked or added was judged by a mask covering the floor it met |
| `Floor.FloorIsExact` | src/fleet.rs:808-815 | so it always is with no Unlock and no device joining twice |
| `Declared.BundleIsLastDeclareElseFirstAdd` | src/fleet.rs:708-739 | the bundle answered is the device's last Declare, or else its first Add |
| `Declared.AnswerIsLatestIff` | src/fleet.rs:854-859 | that is the latest Add or Declare iff the latest one is a Declare or nothing earlier had answered |
| `Declared.LatestWhenJoinedOnce` | src/fleet.rs:854-859 | where no device joins twice the answer is its latest Add or Declare |
| `Declared.BelowFloorSignsOnlyDeclares` | src/fleet.rs:658-673 | a device judged by a bundle below the floor signs nothing that folds but a Declare |
| `Rejoin.RejoinedDeviceIsStuck` | src/fleet.rs:738-739 | a chain where a rejoined device is judged by its old Ed25519 bundle above a Falcon floor, so its non-Declare ops cannot fold |
| `Rejoin.RejoinLeavesTheFloorInexact` | src/fleet.rs:808-815 | the same rejoin does not cover the floor and leaves it above what the unlocked members share |
| `Rejoin.FoldingChainLostOnTheWire` | src/fleet.rs:1492-1510 | a folding chain with a v1 Add that carries two Ed25519 eggs as its consent does not parse back |
| `Rejoin.BareDepartureCanEndAFleet` | src/fleet.rs:741-773 | a folding chain whose last op is a departure after which nothing folds |
| `Preimage.SigningBytesDetermine` | src/fleet.rs:345-383 | the signing preimage is injective and prefix-free across framed versions, kinds and optional fields |
| `Preimage.ChainBytesDetermine` | src/fleet.rs:387-405 | so is the chain-hash preimage, signatures included |
| `V1Preimage.V1ChainBytesDetermine` | src/fleet.rs:384-405 | among v1 ops without a bundle whose signatures all have Ed25519's 64 bytes the unframed chain-hash preimage determines the op |
| `V1Preimage.V1ChainBytesCollide` | src/fleet.rs:384-405 | without that length two signatures run together as one: different ops, one preimage |
| `V1Preimage.V1LeavesTheBundleOut` | src/fleet.rs:369-373 | a v1 preimage does not cover a bundle |
| `Preimage.BindRequestDetermines` | src/fleet.rs:259-284 | a consent to join binds slot, device, stamp, kind and plate |
| `Preimage.JoinIsNeverLeave` | src/fleet.rs:259-292 | no consent to join is also a consent to leave |
| `PreimageLayout.SigningLayout` | src/fleet.rs:343-383 | every field of a signing preimage at its byte offset and in its byte order, the framed tail with its lengths, and nothing past it |
| `PreimageLayout.ChainLayout` | src/fleet.rs:387-404 | after the signed content: the egg count, scheme, length and signature of each egg, the identity signature, the end |
| `PreimageLayout.V1ChainLayout` | src/fleet.rs:387-404 | under v1 the same without counts or lengths |
| `PreimageLayout.BindRequestLayout` | src/fleet.rs:259-284 | every field of a join request at its offset, under either version's domain |
| `PreimageLayout.DepartRequestLayout` | src/fleet.rs:286-293 | every field of a departure request at its offset |
| `Bytes.LeAt` | src/fleet.rs:264 | byte i of a little-endian integer counts 256^i |
| `Bytes.BeAt` | src/fanout.rs:168 | byte i of a k-byte big-endian integer counts 256^(k-1-i) |
| `Chains.LinksHold` | src/fleet.rs:603-605 | each op references the hash of the op before it |
| `Chains.RealSignatures` | src/fleet.rs:405-452 | under the real preimages: what an op's Ed25519 egg, a genesis identity signature, a join consent and a leave consent verify over |
| `Chains.HeadNamesTheChain` | src/fleet.rs:912-915 | two all-framed folding chains with equal heads, none of whose preimages collide, are one chain op for op |
| `Chains.AdoptionIsStructure` | src/fleet.rs:922-945 | for any two chains: the fetched one lands iff it extends the adopted one and an empty one is followed only by an empty one; Unchanged iff equal; Stale iff a strict prefix with a genesis; no stamp matters |
| `Chains.OtherAdoptions` | src/fleet.rs:928-945 | a first read lands; DifferentGenesis iff the first ops' hashes differ; Extended iff strictly longer; Fork iff same genesis and neither extends the other |
| `Chains.AdoptedOnlyGrows` | src/client.rs:424-436 | through any sequence of answers, the chain adopted at each point extends every chain adopted before it |
| `Stamps.StampsNeverFall` | src/client.rs:218-222 | from the first client-stamped op on, stamps never go back |
| `Stamps.ClientOpPassesIff` | src/fleet.rs:735-765 | an otherwise sound client-built Add or consented Remove folds iff the later of clock and tip is within the consent window |
| `Stamps.PastTheWindowForever` | src/client.rs:456-458 | once the tip is past a consent's window, no client-built op carrying it folds on that chain or any client-grown extension |
| `OpCodec.RoundTrip` | src/fleet.rs:1510-1724 | an op that passes the structural checks parses back from its values, across all versions, kinds and optional groups, iff its consent fits its field: a single Ed25519 egg under v1, an empty list later only as the list codec has it |
| `WireLayout.OpLayout` | src/fleet.rs:1510-1562 | every value of an op's field at its position, across versions, kinds and optional groups |
| `OpCodec.ParsedFixed` | src/fleet.rs:1566-1608 | whatever values parse, the op's version and six fixed fields are the values in front |
| `OpCodec.EggsParseIff` | src/fleet.rs:1680-1724 | any values parse as eggs iff each pair is a number and a signature, and egg k is pair k |
| `OpCodec.ChainRoundTrip` | src/fleet.rs:1200-1230 | a chain of such ops parses back iff every consent fits |
| `OpCodec.FoldCommutesWithCodec` | src/fleet.rs:1200-1230 | every folding chain parses back iff each of its v1 consents is a single Ed25519 egg, and then folds to the same state |
| `OpCodec.ReadEggs` | src/fleet.rs:1680-1724 | the cursor loop over the egg tail reads as the parse does |
| `ChainSlot.EveryRunKeepsInv` | src/client.rs:104 | under every interleaving of stale or fresh fetches and publishes, slot values grow by extension, fold, and carry their publisher's op on top |
| `ChainSlot.AcknowledgedIsForever` | src/fleet.rs:922-925 | an acknowledged op stays at its height in every later slot value |
| `ChainSlot.OneWinnerPerHeight` | src/fleet.rs:922-925 | two landings of one height are one device's |
| `ChainSlot.StaleMeansAnotherLanded` | src/client.rs:440-466 | with fresh reads, a stale refusal means another device landed since our fetch |
| `ChainSlot.CheckpointHasOneWinner` | src/client.rs:226-260 | two landings that hold checkpoint k hold the same op at the same place |
| `ChainSlot.NoneMeansLandedUnlessSkipped` | src/client.rs:226-260 | `push_checkpoint` answers Ok(None) iff our checkpoint landed, or the chain holds no checkpoint and k is not 1 |
| `ChainSlot.OneUnskippedWinner` | src/client.rs:224-260 | two calls for one k at two points of one run, neither having skipped ahead, are both told they won only if they published the very same op |
| `ChainSlot.SomeIsAtOrPastUnlessSkipped` | src/client.rs:226-260 | a competing answer is at or past k iff the caller did not skip ahead |
| `ChainSlot.PushOutcomes` | src/client.rs:226-260 | every outcome of a member's `push_checkpoint` by the checkpoints its two reads hold: published iff k is next; after a stale refusal the winner's checkpoint iff the second read has reached k, else failure |
| `ChainSlot.PushNeedsAMember` | src/client.rs:234-239 | anyone else, or a chain that does not fold, fails and changes nothing |
| `ChainSlot.NoneWithNothingLanded` | src/client.rs:236-244 | the misreport: no checkpoint yet, k = 2, Ok(None), slot untouched |
| `ChainSlot.Retry` | src/client.rs:440-466 | fetch, decide, append, publish, at most four times: the slot ends as the others' landings plus at most our op, decided on what lies below it; success means the wanted state holds; an attempt nobody disturbs succeeds when every decision up to it would fold, and a refusal has a decision that would not; giving up means every attempt was beaten; a transport error says nothing of whether the op landed |
| `Client.BindDevice` | src/client.rs:440-466 | Ok means the device is a member of the chain in the slot, by the requested Add on top, linked to the tip below and stamped with the later of clock and tip; with an undisturbed attempt a ready member binds every request that is in time, consented and meets the floor |
| `Client.LockOpChain` | src/client.rs:315-343 | Ok means the device is locked, or unlocked, in the slot's chain as asked, by an op on top so linked and stamped; undisturbed, a ready member locks any other member and unlocks whoever is locked |
| `Client.DepartDevice` | src/client.rs:469-488 | Ok means we are no member of the slot's chain, by a bare Remove on top so linked and stamped; undisturbed, a ready member departs |
| `Client.DepartDeviceConsented` | src/client.rs:492-520 | Ok means the leaver is no member of the slot's chain, by a Remove with its consent on top; undisturbed, a ready member releases another whose consent is in time and meets the floor |
| `Client.DeclareDevicePlated` | src/client.rs:274-310 | Ok means the slot's chain holds our capability, plate and kind, by a Declare of our keys on top; undisturbed, a ready member whose keys meet the floor and give up nothing declares |
| `Client.CheckpointLands` | src/client.rs:226-245 | undisturbed, a ready member's checkpoint of the next number lands and is then the latest |
| `Client.RealSigningComesFirst` | src/fleet.rs:1483-1484 | the real signing bytes do not cover the eggs, as the calls assume |
| `Client.RealConsentIsTheirs` | src/fleet.rs:269-284 | a consent verified over one op's real request bytes is good for every op with the same terms, as the calls assume |
| `Client.RealLeaveIsTheirs` | src/fleet.rs:286-293 | and so is a consent to leave |
| `FanoutRegister.EveryRunKeepsInv` | src/client.rs:901-940 | under every interleaving of mints and grows, with stale and failed reads, revisions strictly rise and each grow sits on the blob it read |
| `FanoutRegister.LandsIffUntouched` | src/client.rs:901-940 | a publish that read the register lands iff nothing landed since: the revision guard is a compare-and-swap |
| `FanoutRegister.BlindMintLandsIff` | src/client.rs:908-914 | a mint whose read failed lands iff the register has no revision to step past |
| `FanoutRegister.EachRevisionWrittenOnce` | src/client.rs:901-940 | each revision is written at most once |
| `FanoutRegister.GrowNeverChangesTheKey` | src/client.rs:922-940 | an accepted grow republishes the key it read, one revision on |
| `FanoutRegister.MintStandsUntilTheNext` | src/client.rs:922-940 | however many grows follow, a mint's key stands until the next mint |
| `FanoutRegister.OverwritesALiveBlobIff` | src/client.rs:961-981 | `recover_or_establish_fleet_key` mints over a live blob iff its first read failed or saw none live and nothing landed after its second read, or, that read having failed too, the live revision is 0 |
| `FanoutRegister.MintsOnlyOverNothingReadable` | src/client.rs:961-981 | with parse errors only and nothing published between its reads it mints only over an absent or unparseable blob |
| `FanoutRegister.TransportErrorMintsOverALiveKey` | src/client.rs:969-971 | the run where a transport error is taken for absence |
| `FanoutRegister.TheRaceCanMintTwice` | src/client.rs:957-981 | the run where a second founder steps over the first one's key |
| `FanoutRegister.Register.RecoverOrEstablish` | src/client.rs:961-981 | case by case: a live first read is opened and nothing written; no member list fails, an empty one answers none; otherwise the coined key is posted one past the revision read (1 when that read failed), and the answer is that key if it lands, else what the last read opens |
| `FanoutRegister.Register.MintFleetKey` | src/client.rs:901-919 | lands iff the guard admits one past the revision read, and then leaves that key at that revision |
| `FanoutRegister.Register.GrowFleetWraps` | src/client.rs:922-940 | lands iff the blob read is live, carries the held key, and the guard admits its next revision |
| `FanoutBlobs.RoundTrip` | src/fanout.rs:164-240 | a printed fan-out parses back, trailing bytes ignored, iff it has at most 1024 wraps |
| `FanoutBlobs.CutIsTruncated` | src/fanout.rs:205-240 | a fan-out cut short at any byte is refused as truncated |
| `WireLayout.FanoutLayout` | src/fanout.rs:164-185 | every field of a fan-out at its offset and in its byte order |
| `FanoutBlobs.ReadersAgree` | src/lib.rs:96-115 | on every blob the full parser accepts both fixed-offset readers give its revision and epoch bundle |
| `FanoutBlobs.RevisionOutlivesTheVersion` | src/lib.rs:96-103 | the revision still reads under any other version byte and any body, which the parser refuses |
| `FanoutBlobs.RegisterReadsTheHeader` | src/client.rs:908-914 | the revision a mint steps past is the fixed-offset reader's, parseable body or not |
| `FanoutBlobs.TriggersSplit` | src/fanout.rs:243-250 | more wraps than desired members ask for a rotation, fewer for a grow, never both; neither iff the counts agree or nobody is desired |
| `FanoutBlobs.WriteFanout` | src/fanout.rs:164-185 | the appending loop writes that layout |
| `FanoutBlobs.ReadFanout` | src/fanout.rs:205-240 | the cursor walk reads as the parse does, each error in its place |
| `MergeByKey.MergeLists` | src/fstate.rs:514-528 | sort-and-dedup with swap computes the merge: canonical, one survivor a key |
| `MergeByKey.DedupBy` | src/fstate.rs:518-526 | the in-place pass over a sorted list keeps exactly each key's survivor, keys strictly ascending |
| `MergeByKey.MergeIsTheJoin` | src/fstate.rs:512-528 | a merge is canonical and holds, under each key, the join of the two sides' survivors |
| `MergeByKey.HeldIsMaximal` | src/fstate.rs:512-528 | no copy under a key outranks its survivor |
| `MergeByKey.MergeAssociates` | src/fstate.rs:514-528 | merging is associative on all lists, ties included |
| `MergeByKey.MergeCommutes` | src/fstate.rs:514-528 | and commutative on all lists when no two copies tie |
| `MergeByKey.MergeCommutesIff` | src/fstate.rs:514-528 | for any rules and lists, a merge commutes iff no key is left tied between two different survivors |
| `MergeByKey.MergeIdempotent` | src/fstate.rs:514-528 | and idempotent on canonical states |
| `MergeByKey.EveryHistoryConverges` | src/fstate.rs:514-528 | any two merge trees over the same entries, duplicates included, end in one state |
| `MergeByKey.EveryHistoryConvergesUnder` | src/fstate.rs:514-528 | where a projection settles the ties, any two merge trees over the same projected entries end alike under it |
| `FleetState.RosterNewerIsRank` | src/fstate.rs:531-543 | the roster's nested tie-breaks are one lexicographic comparison |
| `FleetState.RosterDecides` | src/fstate.rs:498-510 | the roster tie-break covers every field, so different copies never tie |
| `FleetState.SettingNewerIsRank` | src/fstate.rs:546-558 | the global layer's nested tie-breaks are one lexicographic comparison |
| `FleetState.MapNewerIsRank` | src/fstate.rs:561-580 | the device maps' rule, comparing sorted lists of rows, is one lexicographic comparison |
| `FleetState.RunTogetherCompares` | src/fstate.rs:561-571 | lists of rows compare as their rows run together do, rows being four wide |
| `FleetState.RostersConverge` | src/fstate.rs:530-543 | rosters converge under every merge history |
| `FleetState.GlobalsConverge` | src/fstate.rs:545-558 | so do global settings, given an injective flatten |
| `FleetState.StatesConverge` | src/fstate.rs:583-589 | whole states converge under every merge history over the same news, device maps up to the order of their entries |
| `FleetState.TombstoneWinsATie` | src/fstate.rs:530 | a removal beats a write of the same instant from either side |
| `FleetState.RemovedSettingIsGone` | src/fstate.rs:545-558 | a setting's removal leaves none of its live copies that is not later |
| `FleetState.TiedMapsKeepTheFirst` | src/fstate.rs:572-580 | two equally stamped copies of a device map tie iff they hold the same entries in some order, and then the first is kept |
| `FleetState.DeviceMergeIsNotCommutative` | src/fstate.rs:561-580 | so device maps do not commute: two settings in two orders |
| `FleetState.DeviceMergeCommutesIff` | src/fstate.rs:561-580 | merging device maps commutes iff no device's two surviving maps are equally stamped reorderings of one another |
| `FleetState.DeviceMergeCommutesUpToOrder` | src/fstate.rs:561-580 | they commute up to the order of entries inside a map |
| `FleetState.MergeFstate` | src/fstate.rs:530-589 | on the entries' own fields: in each layer keys strictly ascend, nothing is made up, and over every copy stands one of its key that is later, or of the same instant and removed, or no smaller in content; and the three merges compute the merge of states |
| `FleetState.StatesAssociate` | src/fstate.rs:583-589 | merging whole states is associative |
| `FleetState.StatesIdempotent` | src/fstate.rs:583-589 | and idempotent on canonical states |
| `FleetState.StatesCommute` | src/fstate.rs:583-589 | and commutative but for the order of entries inside device maps |
| `SettingsRows.LabelledReadsBack` | src/fstate.rs:112-130 | a labelled row reads back as its pairs whatever the values are, labels included |
| `SettingsRows.LabeledValues` | src/fstate.rs:119-130 | the iterator walk gives those pairs |
| `SettingsRows.LookupIsLast` | src/fstate.rs:132-135 | a lookup answers with the last pair of that name |
| `SettingsRows.GlobalsRoundTrip` | src/fstate.rs:328-367 | global settings read back from their rows |
| `SettingsRows.DevicesRoundTrip` | src/fstate.rs:369-437 | device maps read back from their rows, empty maps included, iff no device has two |
| `SettingsRows.ReadMapIs` | src/fstate.rs:414-437 | whatever the rows: a device has a map iff a row names it with a clock, its clock is the latest of them and its entries are those of its rows in order |
| `WireLayout.GlobalRowLayout` | src/fstate.rs:328-350 | a global setting's row, label by label and value by value |
| `WireLayout.EntryRowLayout` | src/fstate.rs:388-410 | a device map's row likewise |
| `SettingsRows.WriteDevices` | src/fstate.rs:369-412 | the nested loops write those rows |
| `SettingsRows.ReadDevices` | src/fstate.rs:414-437 | the row loop reads as that parse does |
| `Reflexive.ReflexiveState.Record` | src/traverse/reflexive.rs:49-103 | the family's slot takes the address iff it is not bogus, is trusted or named by a second device, and is not a LAN address over a public one; the other slot never moves; Some iff that is news; which addresses and voters are pending afterwards |
| `Reflexive.EveryReportIsHeard` | src/traverse/reflexive.rs:49-103 | the same for every report on every run |
| `Reflexive.LanBlocks` | src/traverse/gather.rs:24-28 | the LAN blocks as address ranges |
| `Reflexive.EveryRunKeepsInv` | src/traverse/reflexive.rs:49-109 | after any run: slots hold their own family, no bogus address, one a trusted source or two distinct devices named since the last clear; at most 8 distinct pending addresses with distinct voters who did report them |
| `Reflexive.PublicStaysPublic` | src/traverse/reflexive.rs:85-95 | a held public address is never replaced by a LAN one before a clear |
| `Reflexive.ClearForgets` | src/traverse/reflexive.rs:105-109 | nothing before the last clear matters |
| `Reflexive.ShortUnlessUnwelcome` | src/traverse/reflexive.rs:25-27 | a report leaves every pending address short of a quorum iff it is not a second device naming an address its slot does not welcome |
| `Reflexive.RunIsShortIff` | src/traverse/reflexive.rs:25-27 | over whole runs: pending addresses stay short at every point iff no report of the run is such |
| `Reflexive.VotersPileUp` | src/traverse/reflexive.rs:25-27 | the run where an adopted address gathers one more pending voter with every report, without bound |
| `PairWords.TwentyThreeWordsAreNeeded` | src/pair.rs:24-25 | 3177^22 < 2^256 <= 3177^23 |
| `PairWords.KeyRoundTrip` | src/pair.rs:54-201 | every key prints as exactly 23 words and decodes back from camelCase and from spaced form |
| `PairWords.WordAt` | src/pair.rs:54-64 | word i of a key is the list's entry for its i-th base-3177 digit, the most significant first |
| `PairWords.PrintWords` | src/pair.rs:55-64 | padding with the zero word gives the fixed-width form however the printer writes zero |
| `PairWords.PrintingIsInjective` | src/pair.rs:54-64 | different keys print different words |
| `PairWords.MaskedDeviceWords` | src/pair.rs:33-40 | the loop prints the key under the mask |
| `PairWords.UnmaskingFindsTheDevice` | src/pair.rs:32-40 | what a device's masked words decode to, unmasked, is that device |
| `PairWords.OneProbeDecides` | src/pair.rs:139-145 | the partition-point test accepts a partial word iff some list word begins with it |
| `PairWords.FirstBadPairWord` | src/pair.rs:127-150 | None iff every token passes, otherwise the first that fails |
| `PairWords.FlaggedIff` | src/pair.rs:124-150 | an entry passes iff each token is a list word, or is the last with nothing typed after it and begins one |
| `PairWords.CorrectTypingIsNeverFlagged` | src/pair.rs:124-150 | every beginning of the camelCase form of list words passes the live check |
| `PairWords.CorrectSpacedTypingIsNeverFlagged` | src/pair.rs:124-150 | so does every beginning of their spaced form, the space after each word included |
| `PairWords.SpellCheckIgnoresCase` | src/pair.rs:124-150 | with inner whitespace, or no capital past the first letter, an entry and its lowered form are flagged alike |
| `PairWords.CapitalsAreFlagged` | src/pair.rs:124-150 | a list word typed in capitals is flagged where its lowered form is not |
| `PairWords.CompleteEntryDecodesOrOverflows` | src/pair.rs:177-201 | the completeness gate opens iff the entry decodes or only overflows 256 bits |
| `Tokens.PairWordTokens` | src/pair.rs:67-82 | the counting loop gives the number of tokens of every string |
| `Tokens.PairWordList` | src/pair.rs:103-122 | the splitting loop gives those tokens |
| `Tokens.CamelTokens` | src/pair.rs:66-82 | a printed entry's tokens are its words |
| `Tokens.CaseIgnoredIff` | src/pair.rs:103-122 | an entry and its lowered form have the same tokens iff it holds inner whitespace or no capital past its first letter |
| `Attest.AttestVerdict` | src/attest.rs:41-87 | the loop computes the verdict of the candidates in their order |
| `Attest.TheLongestOfOursDecides` | src/attest.rs:52-75 | if a folding chain sits at our slot, the longest decides, the earliest on a tie |
| `Attest.VerdictsPartition` | src/attest.rs:18-34 | each verdict's exact condition on what was seen |
| `Attest.VerdictMeans` | src/attest.rs:18-87 | what each verdict says of the chains the seed, the device and the peers hold |
| `Attest.FreshNeedsTheSeed` | src/attest.rs:20-21 | Fresh iff the seed answered NotFound or an empty chain and no other chain seen has an op |
| `Attest.OrderAndDuplicatesMatterIff` | src/attest.rs:49-75 | every list of the same chains gives the same verdict, but for the error an Unverifiable carries, iff the longest chains at our slot agree on whether they list the device |
| `Attest.PrefixesAgree` | src/attest.rs:49-75 | as they do when our chains are prefixes of one another |
| `Attest.EvidenceOnlyStrengthens` | src/attest.rs:49-87 | another chain never weakens a verdict, and a non-empty one rules out Fresh and Unreachable |
| `Attest.TheSeedsChainDecides` | src/attest.rs:37-40 | beside a chain the others are prefixes of, that chain's fold alone decides |

## Left out

- Cryptography itself, key generation and random numbers: library calls, kept as parameters.
- VSF documents, envelopes and provenance hashes: an unseen codec; a document is the values it carries.
- HTTP transport and message matching: only the outcomes a protocol step branches on are kept.
- `SuccessorRecord::verify_for_pin` and `RegistryView::verify_with`: conjunctions of checks with no state.
- The roster's own row codec: the same labelled rows as `SettingsRows.GlobalsRoundTrip`, with twelve labels.
- The section version gate and the legacy tags of `fstate_from_bytes`: single branches.
- `src/scoped_blob.rs`, `src/keys.rs`, `src/pipe.rs`, `src/protocol.rs`, `src/traverse/session.rs`, `src/traverse/wire.rs`, `src/traverse/candidate.rs`: wrappers and tables.
- Slice fill ratios and grow and shrink thresholds: floating-point heuristics no operation depends on.
- A record's bytes and key derivation: a record is its key, its epoch and an opaque body, and a stored record's key is the one it was placed under.
- Device names, pseudonyms, beacons and lock words: hash truncations without structure.
- v1 signing preimages on their own: `Preimage.SigningBytesDetermine` is for v2 to v4, `V1Preimage.V1ChainBytesDetermine` for the v1 chain hash.
- The library's stable sort: `Sorting.StableSort` is an insertion sort with the same result.
- The word crate's printer and reader: digits of base 3177 under the list, split as `Tokens.WordsOf` splits; zero may print as no word or as one.
- Registry.Plan: a write is a pointer or a count; the eggs and blobs that sign it are not modelled.
- Preimage.SigningBytesDetermine: fields fit their wire widths and lengths are under 2^32, as the source's types and casts have it.
- FanoutRegister.Register.GrowFleetWraps: sealing is not modelled; a key is its fingerprint, so the check of the held key is equality.
- Client.BindDevice: the other devices' landings within each of the four attempts, and what the wire does to its two calls, are parameters; no other landing is signed by the caller. That an undisturbed call succeeds is stated from conditions that suffice, since the caller is asked to sign well whatever it signs.
- Reflexive.ReflexiveState.Record: addresses are numbers of their octets; the standard library's address predicates are written out.
