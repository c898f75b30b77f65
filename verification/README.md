# Verified model of the cross-chain relay

A trust-minimised bridge: a relay hub on one chain follows the validator sets of Parlia chains by
checking their block headers, a trie proof ties a transaction receipt to a checked header, a receipt
parser finds the one deposit event in the receipt, and a bridge pays it out. This project models these
parts and proves what they promise. `dafny verify dfyconfig.toml` checks all of it.

The model has the source's form: contracts are classes over their storage (`RelayHub`,
`CrossChainBridge`, `SimpleToken`), byte buffers are arrays that are filled and patched in place,
loops are loops. Beside each of them stands a description on plain values (`HubSpec`, `BridgeSpec`,
`VerifiedHeader`, `Walk`, `TheDeposit`, ...); the methods are proved to do what it says, and the
results are proved about it. A revert is a `Result` with the source's message, "" where it has none.

**Header to signing data** (`PoSaBlockVerifier`, `HeaderWalk`, `RawHeaders`, `RawHeaderLimits`, `Rlp`,
`RlpIntegers`, `RlpCursor`, `Header`, `Memory`, `Bytes`). The verifier never re-encodes a header: it edits the
raw bytes. `SpliceIsEncoding` says exactly when the edited bytes are the list that the relayer encodes and the
sealer signs: for chain ids below 2^64, unless the extra data without its seal is a single byte below 0x80. The
parser is described for arbitrary raw bytes, and for every canonical header up to 65535 bytes, across all prefix
lengths, in terms of the header's fields. Accepted bytes that are no canonical header are still read as the fields
that were signed (`SignedDataDetermines`), if the list's length is what it declares; else they need not be
(`RootIsNotSigned`).

**Validator history and epochs** (`ValidatorHistory`, `HistoryStorage`, `BitUtils`, `Quorum`,
`ParliaBlockVerifier`, `SealedHeaders`, `HubSpec`, `RelayHub`, `HubCalls`, `HubRuns`). Indexed address set and 256-bit
buckets refine a map from epochs to plain sets. Over every run in which each successful call starts an epoch,
epochs advance by one and old epochs never change, and step by step this happens in no other run. Where
ParliaBlockVerifier checks the chain and checkpoints come with an epoch's first header, each set installed is
endorsed by a quorum of the set before it; and only there. `HubCalls` has the exact conditions on which
each call succeeds. `Relayer` and `RelayerAgreement` give the
contract's exact verdict on the proofs the Go relayer collects, and none shorter is accepted.

**Trie proofs** (`RlpReader`, `RlpReaderCopy`, `Trie`, `MerklePatriciaProof`, `TrieProofs`,
`TrieCompleteness`, `ReceiptProofs`). The proof checker against an inductive trie (Yellow Paper,
Appendices B to D). `EndOf` says what a key comes down to in a checker that ignores the leaf flag: bytes
that are compared, or 32 bytes of a leaf that are followed as a node's hash. Where nothing is followed,
whatever nodes are supplied, only the bytes compared are accepted; the honest nodes get exactly the
verdict `EndOf` gives. The two cases in which that is not what the trie holds are shown by input.

**Receipts and bridge** (`ReceiptParser`, `BridgeEvents`, `TokenText`, `SimpleToken`, `BridgeSpec`,
`BridgeUnits`, `BridgeCalls`, `CrossChainBridge`, `BridgeNetwork`, `BridgeInvariant`, `BridgeSteps`, `BridgeBalances`,
`BridgeRuns`, `BridgeOnce`, `BridgeLosses`, `TwoChains`, `BridgeOpenWorld`, `StrangersChain`). Parsing inverts encoding
and emitting. Over every interleaving of deposits, withdrawals and transfers on any number of chains, nothing is paid
twice, whatever the registry. As long as it knows no chain but those of the network, escrow covers all deployed
tokens and unpaid deposits, no payout lacks funds, and token names and symbols stay what they were. For the
accounts and the names that condition is exact: with one chain more, a single withdrawal can break the accounts,
and name a token as it likes.
And anyone can register one more chain. Some deposits succeed and are never paid: two for one chain in a
transaction, and burns of tokens on a chain other than the one they name as their origin's.

What the results take as given:

- `keccak` and signature recovery are parameters. No hash of 32 bytes is injective, so results that need
  it speak of a finite set of byte strings without a collision (`NoCollision`).
- Addresses made by create2 are a function of bridge and origin token that is injective on the origin
  tokens of the network; origin addresses are not zero and belong to one chain each; chain ids are
  different and not zero (`SoundNetwork`).
- A registry may lack a chain but names no wrong bridge for a chain of the network (`Consistent`; the code lets
  whoever registers a chain first name its bridge); tokens that existed before the bridge move what they are
  told to and keep decimals, name and symbol (`Conforms`, `OthersMay`). `TwoChains` is a concrete network that
  meets all this.
- Every deposit is in the receipt of its transaction, with whatever other logs that has; a withdrawal brings
  any receipt, and its hash and its recognised logs decide what it is good for (`Receipted`, `WithdrawOn`).
- The hub may accept or refuse any receipt at will, but under a chain of the network, with the emitter that
  the registry names for it, only receipts of deposits that were really emitted (`Possible`, `Genuine`). What
  acceptance means on the hub's side is `AcceptedReceiptIsCommitted`, for chains that ParliaBlockVerifier
  checks. It justifies `Genuine` only for headers of an epoch e + 1 whose epoch e has two or more recorded
  validators: then some of these sealed a header. For headers of epoch 0, and where epoch e was never recorded
  or has one validator, the hub takes headers sealed by anyone, with any receipts root (`StrangersReceipt`,
  `AcceptanceNamesMember`, `FarAheadHeaderIsTrusted`). Nothing justifies it for chains with another
  verification function (`FakeChainIsTrusted`).
- Hub and registry are one contract, which accepts nothing for chains it does not know (`OneHub`, proved of the
  hub in `HubIsRegistry`). Under a registered chain outside the network everything can be proved. Solvency,
  funds and the names therefore hold for runs whose withdrawals use a registry without such chains (`Closed`);
  for accounts and names the condition is exact (`SolventExactlyIfClosed`, `NamesKeptExactlyIfClosed`). That
  nothing is paid twice, and the losses, hold for all runs. The condition is on what is registered, not on what is
  named, because a chain registered with bridge address 0 is no better: a forged receipt can have a log of address
  0. The code does nothing to keep the registry closed: registration is open to everyone (`OpenRegistration`,
  `StrangerTakesAll`).
- A verification function is any contract with the four calls; the hub's own results (`EpochMachine`,
  `ActiveChainIsFixed`, `CallInstallsOne`) hold for all of them. Those on quorums, endorsement and receipts are
  for chains whose verification function is ParliaBlockVerifier, with any reader of single headers.
  `PoSaBlockVerifier` is the reader that ships; `LinkedHeaders`, `QuorumSigned`,
  `RawQuorumSigned`, `ReadsAll` and `ShippedReads` join the two.
- Client and contract recover the same signer from a canonical seal (recovery byte 0 or 1, second number
  at most half the curve's order); the contract's library refuses other second numbers (`SameCrypto`).

Where the code and what is said about it differ, the model follows the code:

- The epoch order is not checked when either epoch is 0, and epoch 0 needs no quorum: an update without
  any header installs the empty set, block 0 installs any validators, and its seal is not looked at
  (`EmptyUpdateInstallsNothing`, `BlockZeroInstallsAnyone`, `BlockZeroIsNotSealed`).
- Registration and checkpoints do not test that their header is an epoch's first. Inside an epoch the parser
  lists no validators, so the empty set is installed, and the epoch after it is anyone's
  (`CheckpointInsideEpoch`, `RegisteredInsideEpoch`, `KeyHolderInstallsAnyone`).
- Two thirds are rounded down: none of 0 or 1 validators, and quorums of up to 2 or of 4 validators need
  not meet (`QuorumNamesMember`, `QuorumsMeetExactly`). Checkpoints of BSC chains count signatures, not
  signers (`OneStakerSuffices`).
- An update that would need a new bucket of 256 reverts; the quorum's marks are sized by the epoch's list
  length but indexed by position in the whole history. It counts a list with its repetitions, so a list that
  repeats addresses can set a threshold that its members cannot reach, and the chain takes no update of a further
  epoch (`QuorumIsReachable`, `RepeatedListIsStuck`, `StuckChainStays`).
- The contract's validator count adds the extra data's prefix length twice, and is right only because the
  error stays below one address: else it reads into the seal, which nobody signs (`SealedListExactly`). The
  relayer takes seals that the contract refuses (`OnlyLowSealsAreAccepted`).
- A burn is proved to the hub under the chain of its origin token, not the one that emitted it, and the
  bridges of the two chains must have the same address (`BurnsAreLookedUpAtHome`). With a hub that accepts
  under a chain only receipts of that chain, no burn made elsewhere is ever paid (`OnlyNamedChainsPay`,
  `OnlyHomeDepositsArePaid`, `BurnAbroadIsLost`, `BurnIsLost`).
- The parser wants exactly one recognised log and does not look at who emitted it. Two deposits for the same
  chain in one transaction, or one beside a look-alike log of another contract, stay unpaid for good
  (`TwoInOneTransaction`, `CrowdedIsNeverPaid`).
- A token that the bridge did not deploy but that names an origin chain is taken for a deployed one if it
  names origin 0, and refused otherwise (`ForeignTokenIsTaken`).
- The parser's comment about relevant contracts stands before a test of the chain id alone.

## Model

| member | source | states |
|---|---|---|
| `PoSaBlockVerifier.SpliceIsEncoding` | contracts/verifiers/PoSaBlockVerifier.sol:53-122 | for every header up to 65535 bytes with a seal: the spliced bytes equal the plain RLP list if and only if the chain id is below 2^64 and the unsealed extra data is not one byte below 0x80 |
| `PoSaBlockVerifier.PatchClosesGap` | contracts/verifiers/PoSaBlockVerifier.sol:95-122 | patching the gap in front of the shortened extra data, whichever of the four prefix widths, gives left part, RLP prefix and right part |
| `PoSaBlockVerifier.CopiedSideBySide` | contracts/verifiers/PoSaBlockVerifier.sol:77-93 | in a buffer of the right size the three raw copies leave the front fields, the gap, the extra data and the tail side by side |
| `PoSaBlockVerifier.SpliceSigningData` | contracts/verifiers/PoSaBlockVerifier.sol:53-122 | for arbitrary raw bytes the buffer allocated and filled in place holds the signed bytes of the specification, or the call reverts as it says: extra data shorter than a seal, or a buffer too small for the patch |
| `PoSaBlockVerifier.SignedBytesAre` | contracts/verifiers/PoSaBlockVerifier.sol:53-122 | where the list ends 42 bytes behind the extra data, as it declares, the signed bytes are the signing data of the raw ranges: chain id, front fields, unsealed extra data with a new prefix, tail |
| `PoSaBlockVerifier.RawIsHeader` | contracts/verifiers/PoSaBlockVerifier.sol:13-153 | wherever a canonical header lies in the calldata, the outcome on its raw bytes is that on its fields: fields, hash, recovered sealer and validators, or the revert |
| `HeaderWalk.ReadFields` | contracts/verifiers/PoSaBlockVerifier.sol:25-52 | on arbitrary bytes the cursor walk reads the fields at their places in the list and the bounds of the extra data |
| `HeaderWalk.WalkFindsFields` | contracts/verifiers/PoSaBlockVerifier.sol:25-52 | over a canonical header the walk finds exactly the header's fields and stops around the extra data; a block number of more than 256 bits reverts |
| `PoSaBlockVerifier.HeaderLists` | contracts/verifiers/PoSaBlockVerifier.sol:138-148 | the addresses taken from the raw extra data of a canonical header are the listed ones in an epoch block, none in others, and the same reverts |
| `PoSaBlockVerifier.ParseAndVerifyPoSaBlockHeader` | contracts/verifiers/PoSaBlockVerifier.sol:13-153 | the parser returns or reverts as specified on arbitrary raw bytes, and so for every canonical header, wherever it lies in the calldata, as the specification on fields says |
| `RawHeaders.SignedDataDetermines` | contracts/verifiers/PoSaBlockVerifier.sol:25-152 | two accepted raw headers, canonical or not, with the same signed bytes are read as the same fields, sealer and validators, if the prefix has three bytes, the list ends as declared, and hashes and addresses lie in front of the seal |
| `RawHeaders.HeaderIsFramed` | contracts/verifiers/PoSaBlockVerifier.sol:18-52 | every canonical header with a seal has such a prefix, such an end, and its hashes in front of the extra data |
| `RawHeaders.SealedListExactly` | contracts/verifiers/PoSaBlockVerifier.sol:138-148 | the validators of a canonical epoch block are the same for every seal if and only if none are counted or those counted end in front of the seal |
| `RawHeaderLimits.RootIsNotSigned` | contracts/verifiers/PoSaBlockVerifier.sol:20-93 | a list that declares 200 bytes: for every two headers with one seal and no validators that differ in the receipts root alone, raw bytes that are read as their fields have the same signed bytes |
| `Header.HeaderLayout` | relayer/parlia.go:27-49 | the size limit forces a three-byte outer prefix, and the mix digest and nonce always take 42 bytes |
| `Rlp.ReadsBack` | contracts/libraries/RLP.sol:220-284 | on a canonical item, wherever it lies and whatever follows, item length and payload offset are exact |
| `Rlp.PrefixFree` | contracts/libraries/RLP.sol:220-253 | no encoding is a proper prefix of another |
| `Rlp.ItemAt` | contracts/libraries/RLP.sol:36-42 | stepping by item lengths through a canonical list meets every item at its offset |
| `RlpIntegers.UintToRlp` | contracts/libraries/RLP.sol:91-172 | the buffer holds the RLP encoding of the value below 2^64 and its low eight bytes beyond |
| `RlpIntegers.UintRlpRange` | contracts/libraries/RLP.sol:91-172 | the contract's integer encoding is the minimal RLP encoding exactly for values below 2^64 |
| `RlpIntegers.IntReadsBack` | contracts/libraries/RLP.sol:194-204 | an encoded integer reads back, and one of more than 32 bytes reverts |
| `RlpIntegers.PrefixLengthIsMinimal` | contracts/libraries/RLP.sol:174-192 | the prefix length is the byte count of the shortest spelling |
| `RlpCursor.NextField` | contracts/libraries/RLP.sol:36-42 | over a canonical list the cursor moves from one item to the following one |
| `RlpCursor.AddressField` | contracts/libraries/RLP.sol:48-50 | a 20-byte field reads as the number its bytes spell |
| `Memory.CalldataCopy` | contracts/libraries/ReceiptParser.sol:147-154 | the buffer afterwards is the old one with the calldata range written over it, as far as the range lies in the buffer (byte by byte in `ClippedAt`) |
| `BitUtils.Ctz` | contracts/libraries/BitUtils.sol:6-25 | the result is the index of the lowest set bit of a non-zero 256-bit word |
| `HistoryStorage.UpdateActiveValidatorSet` | contracts/RelayHub.sol:187-210 | buckets and indexed set refine installing a plain set; it reverts exactly for a wrong epoch or when known and new validators exceed 256*(L/256+1) |
| `HistoryStorage.ExtractActiveValidators` | contracts/RelayHub.sol:217-236 | walking the buckets by lowest set bit lists the epoch's members in first-seen order |
| `HistoryStorage.ExtractedIsInstalled` | contracts/RelayHub.sol:187-236 | the extracted list has exactly the members installed for the epoch, without repetition |
| `ValidatorHistory.InOrderIsSet` | contracts/RelayHub.sol:217-236 | the ordered listing of a set over known addresses is the set, each member once |
| `ValidatorHistory.MarkedStable` | contracts/RelayHub.sol:196-205 | later growth of the address set does not change what an older bitmap means |
| `Quorum.CheckValidatorsAndQuorumReached` | contracts/RelayHub.sol:354-378 | the marking loop decides whether the distinct listed active addresses reach two thirds, rounded down, and reverts exactly when one of them has no mark word |
| `Quorum.QuorumIsAboutMembers` | contracts/RelayHub.sol:354-378 | order, repetition and outsiders do not matter |
| `Quorum.QuorumIsMonotone` | contracts/RelayHub.sol:354-378 | adding signers keeps a reached quorum when indices are in range |
| `Quorum.InRangeNeverReverts` | contracts/RelayHub.sol:360-376 | with in-range indices the check never reverts |
| `Quorum.QuorumsIntersect` | contracts/RelayHub.sol:354-378 | two accepted lists share at least 2*floor(2n/3)-n active members, one or more for n = 3 and n >= 5 |
| `Quorum.SmallQuorumsMayMiss` | contracts/RelayHub.sol:377 | with no, one, two or four validators there are two accepted lists without a common active member |
| `Quorum.QuorumsMeetExactly` | contracts/RelayHub.sol:377 | every two accepted lists of an epoch with n distinct validators have an active member in common if and only if n is 3 or at least 5 |
| `Quorum.AcceptedListHoldsMembers` | contracts/RelayHub.sol:354-378 | an accepted list holds two thirds, rounded down, of the epoch's count as distinct active members |
| `Quorum.QuorumNamesMember` | contracts/RelayHub.sol:354-378 | acceptance is sure to take an active member if and only if the epoch's count is two or more |
| `Quorum.StrangersAreAccepted` | contracts/RelayHub.sol:359-377 | a list without any active member is accepted exactly for a count of 0 or 1, as of an epoch that was never recorded |
| `Quorum.QuorumIsReachable` | contracts/RelayHub.sol:354-378 | some list of signers is accepted for an epoch if and only if its members with a mark word are at least two thirds, rounded down, of its count |
| `Quorum.RepeatedListIsStuck` | contracts/RelayHub.sol:187-210 | once a list with fewer distinct addresses than two thirds of its length is installed, no list of signers is accepted for its epoch |
| `HubRuns.StuckChainRefuses` | contracts/RelayHub.sol:254-352 | where no list reaches the quorum of the latest epoch, no call that starts an epoch succeeds on a chain that ParliaBlockVerifier checks, checkpoints of BSC chains aside |
| `HubRuns.StuckChainStays` | contracts/RelayHub.sol:254-352 | so over every run in which each success starts an epoch, the history of such a chain stays as it is; only calls of epoch 0 move it again |
| `ParliaBlockVerifier.LinkBlocks` | contracts/verifiers/ParliaBlockVerifier.sol:76-91 | the loop returns the first header and all sealers exactly when every header names the hash of the one before |
| `ParliaBlockVerifier.VerifyBlocksAndReachedQuorum` | contracts/verifiers/ParliaBlockVerifier.sol:67-99 | refines the check of a linked list whose sealers reach the quorum of the epoch before |
| `ParliaBlockVerifier.VerifyValidatorTransition` | contracts/verifiers/ParliaBlockVerifier.sol:29-43 | refines it for epoch blocks, with the new set and its epoch |
| `ParliaBlockVerifier.PrefixReads` | contracts/verifiers/ParliaBlockVerifier.sol:76-91 | a list reverts with the first fault of its prefixes, and a good list has good prefixes |
| `ParliaBlockVerifier.ReadExactlyIfLinked` | contracts/verifiers/ParliaBlockVerifier.sol:76-91 | a list is read if and only if every item reads and every header after the first has the hash of the one before as its parent hash |
| `ParliaBlockVerifier.BrokenFrontReverts` | contracts/verifiers/ParliaBlockVerifier.sol:86-90 | a list whose first items all read but are not linked reverts with "bad parent hash", whatever follows |
| `SealedHeaders.ShippedLinks` | contracts/verifiers/ParliaBlockVerifier.sol:76-91 | with the shipped parser the parent hashes of a list that is read are exactly the hashes of the raw bytes before |
| `HubCalls.UpdateSucceeds` | contracts/RelayHub.sol:187-263 | on a chain that ParliaBlockVerifier checks, an update with headers that all read succeeds if and only if the chain is registered, they are linked, start at an epoch block and reach the quorum of the epoch before, the epoch follows, and all addresses fit the buckets; then that set is stored and nothing else |
| `HubCalls.UnreadableFails` | contracts/verifiers/ParliaBlockVerifier.sol:76-91 | one header that does not read makes every update with it fail |
| `HubCalls.ReceiptIsAccepted` | contracts/RelayHub.sol:380-395 | the exact condition for a receipt with headers that all read: Active chain, linked headers, quorum of the epoch before the first, and the trie proof of its hash under the first header's receipts root |
| `RelayHub.RelayHub.RegisterChain` | contracts/RelayHub.sol:154-185 | registration refines the call on plain values, and a revert leaves the hub as it was |
| `HubCalls.RegistrationSucceeds` | contracts/RelayHub.sol:154-210 | a registration succeeds if and only if the chain is not Active, the header reads, the checkpoint hash is 0 or the header's hash, the epoch length is positive, the epoch follows or is unchecked, and all addresses fit the buckets; then chain and set are stored as given |
| `HubCalls.RegistrationChecksHash` | contracts/RelayHub.sol:171-173 | with the shipped parser a checkpoint hash that is given is the hash of the raw header |
| `HubCalls.ZeroIsDefault` | contracts/RelayHub.sol:397-403 | address 0 stands for the default verification function, and registering with either is alike |
| `HubCalls.RunKeepsOnce` | contracts/RelayHub.sol:154-352 | over every run no address is known twice, which these conditions ask for |
| `RelayHub.RelayHub.UpdateSet` | contracts/RelayHub.sol:254-263 | the update refines the call on plain values, and a revert leaves the hub as it was |
| `RelayHub.RelayHub.Checkpoint` | contracts/RelayHub.sol:309-352 | the checkpoint refines the call on plain values, and a revert leaves the hub as it was |
| `HubCalls.CheckpointSucceeds` | contracts/RelayHub.sol:309-352 | a checkpoint whose header reads succeeds if and only if the chain is registered, enough signers signed the 64 bytes that hold header hash and checkpoint hash, the epoch follows, and all addresses fit; then the set and, for this epoch alone, the hash are recorded |
| `HubCalls.DifferentMessages` | contracts/RelayHub.sol:327-335 | where the two messages do not collide, what is signed is the same if and only if header hash and checkpoint hash are |
| `RelayHub.RelayHub.GetActiveValidators` | contracts/RelayHub.sol:212-215 | returns the latest set, each member once, in first-seen order |
| `RelayHub.RelayHub.CheckReceiptProof` | contracts/RelayHub.sol:380-395 | only Active chains; the verification function checks the proof under the receipts root of the header it verified first |
| `HubRuns.CallInstallsOne` | contracts/RelayHub.sol:154-210 | a call installs exactly one epoch on its own chain or changes nothing; other chains and the registration of an Active chain stay |
| `HubRuns.SuccessStartsEpoch` | contracts/RelayHub.sol:187-352 | a successful call raises the latest epoch by one if what it brings is of an epoch above 0 (its first header exists and is of one; for other verification functions, the epoch they answer), and else sets it to 0; checkpoints of BAS chains are always of the first kind |
| `HubRuns.EmptyUpdateInstallsNothing` | contracts/RelayHub.sol:254-263 | on a chain that ParliaBlockVerifier checks an update without any header succeeds and leaves latest epoch 0 with the empty set |
| `HubRuns.FakeInstallsNothing` | contracts/verifiers/FakeBlockVerifier.sol:19-28 | with FakeBlockVerifier every update succeeds, installs the empty set for epoch 0 and makes the chain Active |
| `HubRuns.OpenRegistration` | contracts/RelayHub.sol:137-185 | anyone makes an unknown chain Active with a verification function, a bridge address and an epoch length of his choice, by registering it and an empty update; no other chain changes |
| `HubRuns.BlockZeroInstallsAnyone` | contracts/verifiers/ParliaBlockVerifier.sol:29-99 | on a chain that ParliaBlockVerifier checks, a single header below the first epoch's end is accepted exactly if it is block 0 and its validators, whoever they are, fit the buckets |
| `PoSaBlockVerifier.BlockZeroIsNotSealed` | contracts/verifiers/PoSaBlockVerifier.sol:123-138 | the verdict on a parsable header is the same for every signature recovery if and only if its number is 0 modulo 2^64 |
| `HubRuns.EpochMachine` | contracts/RelayHub.sol:187-210 | from a latest epoch above 0, the history advances one epoch at each success, over unchanged older ones, if and only if every successful call starts an epoch above 0; then the latest epoch counts the successes |
| `HubRuns.ActiveChainIsFixed` | contracts/RelayHub.sol:164-184 | over every run, bridge, verifier, type and epoch length of an Active chain never change |
| `HubRuns.NextEndorsed` | contracts/RelayHub.sol:254-352 | a success on an Active chain above epoch 0 that ParliaBlockVerifier checks brings the endorsement of the set it installs if and only if its first header exists and has a number of at least the epoch length, and for a checkpoint a multiple of it |
| `HubRuns.ChainOfEndorsement` | contracts/RelayHub.sol:187-352 | over every run from such a chain: each success installs the next epoch's set and brings a quorum of the set before for its first header, by linked headers or a signed checkpoint, if and only if every success starts an epoch, checkpoints with its first header; calls that all do so are such runs |
| `HubRuns.CheckpointInsideEpoch` | contracts/RelayHub.sol:309-352 | a BAS checkpoint with a header inside the next epoch and signatures of a quorum succeeds, raises the latest epoch by one without an endorsement, and leaves an empty set, for which every list of signers is a quorum |
| `HubRuns.RegisteredInsideEpoch` | contracts/RelayHub.sol:154-185 | a registration with a header inside an epoch leaves such a set, too |
| `HubRuns.KeyHolderInstallsAnyone` | contracts/verifiers/ParliaBlockVerifier.sol:29-99 | after such an epoch everyone with a key installs any validators that fit the buckets for the next one |
| `SealedHeaders.AnyoneSeals` | contracts/verifiers/PoSaBlockVerifier.sol:13-153 | for every number from 1 to 2^64 - 1, parent, receipts root and up to 3000 validators, whoever has a key can write a canonical header that the parser takes and reads so |
| `SealedHeaders.EncodingIsInjective` | relayer/parlia.go:27-49 | headers of at most 65535 bytes with the same encoding are the same |
| `HubRuns.EndorsementNamesMember` | contracts/RelayHub.sol:354-378 | an endorsement by an epoch with a count of two or more was sealed or signed by a member of that epoch's set |
| `HubRuns.OneStakerSuffices` | contracts/RelayHub.sol:325-333 | a BSC checkpoint has its quorum if and only if all signers are active and there are as many signatures as validators; one active validator's signature, repeated, is enough |
| `HubRuns.TransitionHasQuorum` | contracts/verifiers/ParliaBlockVerifier.sol:29-99 | a verified transition to epoch e has linked headers, starts at block e*epochLength, and its sealers reach two thirds of epoch e-1 |
| `Relayer.ExtractParliaValidators` | relayer/parlia.go:87-102 | the loop fills the list of addresses and the set of its members, and refuses what is not whole addresses |
| `Relayer.ValidatorListsAgree` | contracts/verifiers/PoSaBlockVerifier.sol:139-148 | contract and relayer read the same list whenever the relayer reads one; for other lengths the contract's count is given exactly |
| `Relayer.CreateBlockProofs` | relayer/proof.go:25-72 | for every epoch block and length, also one above it: succeeds exactly if the epoch has consecutive blocks, each sealed by its coinbase, that reach the quorum; then the proofs are their encodings up to the first quorum |
| `RelayerAgreement.ContractVerdict` | contracts/verifiers/ParliaBlockVerifier.sol:29-99 | every linked list of canonically sealed headers, whoever sealed them, gets the verdict of the quorum check of its sealers by the epoch before |
| `RelayerAgreement.CollectedProofsAreAccepted` | relayer/proof.go:25-72 | whatever createBlockProofs returns from a node that serves a hash-linked chain gets that verdict; with indices in range it is accepted if and only if the members of the recorded set among the sealers are two thirds, rounded down |
| `RelayerAgreement.ShorterProofsAreRefused` | relayer/proof.go:61-70 | every shorter non-empty prefix of what it returns is refused, if it waited for no more sealers than the contract does |
| `RelayerAgreement.MembersProofsAreAccepted` | relayer/proof.go:25-72 | where members of the recorded set seal the blocks and the relayer waits for at least the quorum, the contract accepts all that it collects |
| `RelayerAgreement.RelayerWaitsExactly` | relayer/proof.go:25-72 | where the epoch's own list is recorded and its members seal, what createBlockProofs returns is accepted and every shorter non-empty prefix is refused: it waits for exactly as many sealers as the hub wants |
| `RelayerAgreement.ContractAcceptsHeader` | contracts/verifiers/PoSaBlockVerifier.sol:123-138 | a canonically sealed header the relayer accepts is parsed by the contract with the same sealer |
| `RelayerAgreement.OnlyLowSealsAreAccepted` | contracts/verifiers/PoSaBlockVerifier.sol:123-138 | of the headers with recovery byte 0 or 1 that the relayer accepts, the contract accepts exactly those whose seal is low |
| `SealedHeaders.SealRecovers` | contracts/verifiers/PoSaBlockVerifier.sol:123-138 | recovery gets the first 64 bytes of the seal with byte 28 if the last one is 1 and 27 else |
| `RelayerAgreement.QuorumSigned` | contracts/verifiers/ParliaBlockVerifier.sol:67-99 | where the shipped parser reads the headers, an accepted quorum means two thirds of the count, rounded down, are members of the set and each signed the plain list of one of the headers |
| `RelayerAgreement.RawQuorumSigned` | contracts/verifiers/ParliaBlockVerifier.sol:67-99 | for arbitrary raw headers, as the shipped parser reads them, an accepted quorum means two thirds of the count are members of the set, and each, but for address 0, signed the bytes spliced together from one of the headers |
| `RlpReader.NumItems` | contracts/libraries/RLPReader.sol:258-270 | counting ends on arbitrary bytes after at most one step per byte, and counts the spans |
| `RlpReader.ToList` | contracts/libraries/RLPReader.sol:104-119 | returns the consecutive spans of the list, and reverts on anything that is not a list |
| `RlpReader.ItemsOfList` | contracts/libraries/RLPReader.sol:104-119 | on a canonical list the items are exactly the encodings of its elements, in order |
| `RlpReader.SpansAreConsecutive` | contracts/libraries/RLPReader.sol:104-119 | on arbitrary bytes spans start at the payload, follow each other, and the last one begins before the end |
| `RlpReader.WordOfItem` | contracts/libraries/RLPReader.sol:225-235 | a 32-byte string reads as its word; strings of other lengths revert |
| `RlpReader.PayloadOfItem` | contracts/libraries/RLPReader.sol:237-250 | on arbitrary bytes an item that is empty or shorter than its own prefix reverts, every other gives the bytes behind the prefix |
| `RlpReaderCopy.Copy` | contracts/libraries/RLPReader.sol:336-357 | word-wise copying writes exactly the requested bytes, repeating those before the destination where the source runs into it; the bytes sharing the last word keep their values |
| `RlpReaderCopy.CopyRlpBytes` | contracts/libraries/RLPReader.sol:166-177 | the copy in fresh memory holds the item's bytes, and the item still does; an item that claims to reach into the copy repeats what lies before it |
| `RlpReaderCopy.BlendBytes` | contracts/libraries/RLPReader.sol:349-355 | masking two words by 256^k-1 joins the high bytes of one with the low bytes of the other |
| `MerklePatriciaProof.GetNibbleArray` | contracts/libraries/MerklePatriciaProof.sol:101-136 | the nibbles filled in are the hex-prefix decoding |
| `MerklePatriciaProof.ComputeNibblesToTraverse` | contracts/libraries/MerklePatriciaProof.sol:74-98 | the length of the partial path if its hash matches the key's next nibbles, else 0; past the key's end it reverts |
| `MerklePatriciaProof.Verify` | contracts/libraries/MerklePatriciaProof.sol:22-72 | the loop over the siblings refines the recursive walk |
| `Trie.DecodeOfHexPrefix` | contracts/libraries/MerklePatriciaProof.sol:101-136 | decoding inverts the hex-prefix encoding for odd and even paths, leaf or extension |
| `TrieProofs.AcceptedProofIsSound` | contracts/libraries/MerklePatriciaProof.sol:22-98 | for every key not led on by a 32-byte leaf and every value: an accepted proof means the key ends in these bytes, whatever nodes were supplied; the trie holds them there if they are longer than 32 bytes, or not empty with no extension ending at the key |
| `TrieProofs.AcceptedIsHashChain` | contracts/libraries/MerklePatriciaProof.sol:22-72 | whatever bytes are brought: acceptance takes a path that is not empty and nodes of two or seventeen items, the first hashing to the root, each other one to a word in the node before, the last holding an item that hashes to the value |
| `TrieProofs.EndMeans` | contracts/libraries/MerklePatriciaProof.sol:38-71 | where the key ends in the checker's eyes, against the stored value: they differ exactly at extensions, at branches without value, and above 32-byte leaves |
| `TrieProofs.FollowedIsStored` | contracts/libraries/MerklePatriciaProof.sol:58-68 | the 32 bytes that lead a key on are a value stored under a shorter key |
| `TrieProofs.NothingFollowed` | contracts/libraries/MerklePatriciaProof.sol:58-68 | in a trie that stores no value of 32 bytes no key is led on |
| `TrieProofs.TraversesPrefix` | contracts/libraries/MerklePatriciaProof.sol:74-98 | a partial path is traversed whole if the key goes on with it, else not at all |
| `TrieCompleteness.HonestProofIsAccepted` | contracts/libraries/MerklePatriciaProof.sol:22-72 | the nodes from the root to a stored key of a trie with prefix-free keys and no embedded node on the path are accepted |
| `TrieCompleteness.WalkOnHonestProof` | contracts/libraries/MerklePatriciaProof.sol:38-71 | the exact verdict on the honest nodes of a key and anything behind them, for every value: the bytes compared decide, and where a 32-byte leaf leads on, the rest of the list |
| `TrieCompleteness.ReferenceIsProved` | contracts/libraries/MerklePatriciaProof.sol:58-68 | for a key at the end of an extension the honest nodes prove the child reference and nothing of another hash |
| `TrieCompleteness.ReferenceIsForged` | contracts/libraries/MerklePatriciaProof.sol:58-68 | a concrete trie with a key that holds nothing, for which a branch's hash is accepted |
| `TrieCompleteness.ForeignLeafIsProved` | contracts/libraries/MerklePatriciaProof.sol:58-68 | where a leaf stores the hash of a leaf outside the trie, that leaf's value of any length is accepted at the longer key, which holds nothing |
| `TrieCompleteness.ReceiptKeysArePrefixFree` | scripts/create-proof.js:70-98 | the keys of receipts, RLP-encoded indices as nibbles, are prefix-free |
| `TrieCompleteness.LongValueIsNotEmbedded` | scripts/create-proof.js:70-98 | no node on the way to a value of 32 bytes or more is embedded in its parent |
| `TrieCompleteness.StoredReceiptIsProved` | scripts/create-proof.js:70-98 | for every receipt stored under its index, the path of a zero byte and the encoded index with the list of nodes on the way is accepted |
| `ReceiptProofs.AcceptedReceiptIsCommitted` | contracts/RelayHub.sol:380-395 | acceptance on a chain that ParliaBlockVerifier checks means an Active chain, linked headers sealed by two thirds of the count of the epoch before, rounded down, as members, and these very bytes in the first header's receipts trie, if that stores no value of 32 bytes |
| `ReceiptProofs.NoHeadersProveNothing` | contracts/verifiers/ParliaBlockVerifier.sol:67-99 | a receipt proof without any header asks for no quorum and has root 0, so it is not accepted unless some node hashes to 0 |
| `ReceiptProofs.StrangersReceipt` | contracts/RelayHub.sol:354-395 | on a chain that ParliaBlockVerifier checks, headers sealed by no member of the epoch before are taken exactly if they are of epoch 0 or that epoch's count is 0 or 1; then the trie proof alone decides, against their receipts root |
| `ReceiptProofs.AcceptanceNamesMember` | contracts/RelayHub.sol:354-378 | with the shipped parser and an outsider who has a key, acceptance in epoch e + 1 is sure to take a member of epoch e if and only if the count of e is two or more |
| `ReceiptProofs.FarAheadHeaderIsTrusted` | contracts/RelayHub.sol:359-377 | a concrete history and a canonical header as the shipped parser reads it: an outsider's block of epoch 1000 is taken with any receipts root although only epoch 1 is recorded |
| `ReceiptParser.TopicsLength` | contracts/libraries/ReceiptParser.sol:97-103 | a topics list takes 101 bytes if and only if it has three topics |
| `ReceiptParser.StatusReads` | contracts/libraries/ReceiptParser.sol:50-54 | reading one byte gives 1 for the status 1 and no other status or state root |
| `ReceiptParser.DecodeReceiptLog` | contracts/libraries/ReceiptParser.sol:78-159 | a canonical log is recognised exactly when it is a deposit for this chain; then every struct field holds its word, else the struct is untouched |
| `ReceiptParser.WrittenFields` | contracts/libraries/ReceiptParser.sol:19-36 | the raw copy and the four stores land each word in its struct field |
| `ReceiptParser.ScanLogs` | contracts/libraries/ReceiptParser.sol:60-71 | over arbitrarily many logs the loop finds the only deposit, or none, or reverts at a second one |
| `ReceiptParser.ParseTransactionReceipt` | contracts/libraries/ReceiptParser.sol:46-76 | for every well-formed legacy receipt: kind and fields of its only deposit for this chain and the hash of its bytes, or a revert exactly for a status other than 1, no deposit, or several |
| `BridgeEvents.EventIsRecognised` | contracts/libraries/ReceiptParser.sol:15-16 | the event of a deposit is recognised on the chain it names, with its kind, and on no other chain |
| `BridgeEvents.StateIsLog` | contracts/libraries/ReceiptParser.sol:38-44 | the struct holding a log, read with the metadata view at byte 0x120, says what the log says, whatever its bytes |
| `BridgeEvents.LogSaysDeposit` | contracts/bridge/CrossChainBridge.sol:136-145 | the log of an emitted event says the deposit that was emitted |
| `BridgeEvents.RecognisedIsEvent` | contracts/libraries/ReceiptParser.sol:90-159 | a recognised log names this chain, and emitting what it says gives the log back, if nothing stands above its addresses |
| `BridgeEvents.RecognisedFits` | contracts/libraries/ReceiptParser.sol:104-159 | whatever bytes stand above its addresses, what a recognised log says fits an event: addresses are cut to 160 bits |
| `BridgeEvents.SaysOnlyDeposit` | contracts/libraries/ReceiptParser.sol:60-76 | a receipt with the event of a deposit says this deposit on its chain if no other log is recognised there, and else reverts |
| `BridgeEvents.TwoDepositsRevert` | contracts/libraries/ReceiptParser.sol:60-71 | two different deposits for one chain in a receipt revert there |
| `BridgeEvents.ReceiptSaysDeposit` | contracts/libraries/ReceiptParser.sol:46-76 | a receipt with one deposit event for this chain among any other logs says that deposit |
| `TokenText.BytesToString` | contracts/bridge/SimpleToken.sol:66-79 | the halving loop returns the specified text |
| `TokenText.RoundTrip` | contracts/libraries/StringUtils.sol:6-14 | text survives packing and unpacking if and only if it has at most 32 bytes, its last byte is not zero, and the search finds no zero on its way |
| `TokenText.NonZeroText` | contracts/bridge/SimpleToken.sol:66-79 | text of at most 32 non-zero bytes always survives |
| `TokenText.HopTwice` | contracts/bridge/CrossChainBridge.sol:156-161 | whatever one hop makes of a text, further hops keep it |
| `SimpleToken.SupplyIsHeld` | contracts/bridge/SimpleToken.sol:50-56 | minting, burning and transfers keep the supply equal to the sum of all balances, and no balance exceeds it |
| `SimpleToken.OwnerMintsAndBurns` | contracts/bridge/SimpleToken.sol:36-56 | the exact conditions: only the owner, never for address 0, minting while the supply stays below 2^256, burning up to the balance; one balance and the supply change by the amount |
| `SimpleToken.SimpleToken.Initialize` | contracts/bridge/SimpleToken.sol:25-44 | works while the token has no owner and never again |
| `SimpleToken.SimpleToken.Mint` | contracts/bridge/SimpleToken.sol:50-52 | only the owner; supply and balance rise by the amount, and a supply of 2^256 reverts |
| `SimpleToken.SimpleToken.Burn` | contracts/bridge/SimpleToken.sol:54-56 | only the owner; supply and balance fall by the amount, never below zero |
| `CrossChainBridge.CrossChainBridge.DepositNative` | contracts/bridge/CrossChainBridge.sol:126-146 | the coins stay with the bridge, the event names the deployed token of the target bridge, the nonce moves on; a revert changes nothing |
| `BridgeCalls.CoinsAreLocked` | contracts/bridge/CrossChainBridge.sol:126-146 | coins are locked if and only if the sender has them and the target chain is registered, with the event and the balances then |
| `CrossChainBridge.CrossChainBridge.DepositPegged` | contracts/bridge/CrossChainBridge.sol:148-174 | tokens that name an origin chain are burned and the event is for the origin token on its own chain, for the deployed one elsewhere; a token whose origin the bridge does not know reverts |
| `BridgeCalls.BurnSucceeds` | contracts/bridge/CrossChainBridge.sol:148-174 | a deployed token is burned if and only if the target chain is registered, the bridge knows the token by its origin and owns it, and the sender has the amount; the event, and balance and supply that fall by it |
| `BridgeCalls.ForeignBurnSucceeds` | contracts/bridge/CrossChainBridge.sol:148-174 | the same for a token that only names an origin |
| `CrossChainBridge.CrossChainBridge.DepositErc20` | contracts/bridge/CrossChainBridge.sol:176-213 | the tokens move to the bridge and the event counts 18 decimals; more decimals, overflow or a short transfer revert |
| `BridgeCalls.LockSucceeds` | contracts/bridge/CrossChainBridge.sol:176-234 | a token is locked if and only if allowance and balance suffice, the sender is not the bridge, the target chain is registered, decimals are at most 18 and the amount in 18 decimals fits a word; the event times 10^decimals is then the amount times 10^18 |
| `BridgeUnits.PowersOfTen` | contracts/bridge/CrossChainBridge.sol:227-234 | the factor is built from powers of ten: 1 for 0, 10 for 1, products for sums |
| `BridgeUnits.ScaledUp` | contracts/bridge/CrossChainBridge.sol:227-234 | scaling up is exact: the scaled amount times 10^decimals is the amount times 10^18 |
| `BridgeUnits.ScaledDown` | contracts/bridge/CrossChainBridge.sol:303-308 | scaling down gives the greatest number of units that, times 10^18, is at most the amount times 10^decimals |
| `CrossChainBridge.CrossChainBridge.DepositToken` | contracts/bridge/CrossChainBridge.sol:93-124 | tokens that name an origin chain take the burning path, all others the locking path |
| `BridgeCalls.DepositIsRouted` | contracts/bridge/CrossChainBridge.sol:93-124 | a successful deposit burns exactly the tokens that name an origin chain and locks the others; the native coin's made-up address is not asked |
| `BridgeSpec.ForeignTokenIsTaken` | contracts/bridge/CrossChainBridge.sol:93-102 | a token the bridge did not deploy that names an origin chain is taken if and only if it names origin 0, given the balance and a known target chain |
| `BridgeSteps.ForeignTokensAreRefused` | contracts/bridge/CrossChainBridge.sol:93-225 | in every reachable state with no token naming origin 0, only tokens the bridge deployed take the burning path |
| `CrossChainBridge.CrossChainBridge.FactoryPeggedToken` | contracts/bridge/CrossChainBridge.sol:336-357 | a known token is kept; a new one is deployed only at the address of its bridge and origin |
| `CrossChainBridge.CrossChainBridge.WithdrawErc20` | contracts/bridge/CrossChainBridge.sol:303-322 | pays the amount in the token's own decimals, rounded down |
| `BridgeCalls.UnlockSucceeds` | contracts/bridge/CrossChainBridge.sol:303-322 | a token is unlocked if and only if it has at most 18 decimals, the recipient is not 0 and the bridge holds the most units the amount is worth; these move to the recipient |
| `BridgeCalls.MintSucceeds` | contracts/bridge/CrossChainBridge.sol:285-301 | a token is minted if and only if the bridge owns it or can deploy it at the very address asked for, the recipient is not 0 and the supply stays below 2^256 |
| `BridgeCalls.PayOutTouches` | contracts/bridge/CrossChainBridge.sol:257-271 | a locked deposit never unlocks a token, a burned one of the origin itself never mints, and coins move only for the coin's address |
| `CrossChainBridge.CrossChainBridge.PayOut` | contracts/bridge/CrossChainBridge.sol:257-271 | the route by target token and kind of deposit |
| `CrossChainBridge.CrossChainBridge.Withdraw` | contracts/bridge/CrossChainBridge.sol:236-271 | from the raw receipt: for every well-formed receipt, whatever its logs, it refines the specification, with the hub asked about the chain of the origin token; a receipt is good once, and a revert changes nothing |
| `BridgeSpec.ProofIsUsedUp` | contracts/bridge/CrossChainBridge.sol:257-260 | a successful withdrawal needs an unused receipt and uses up exactly it |
| `BridgeSteps.StepKeepsInv` | contracts/bridge/CrossChainBridge.sol:111-357 | every deposit and foreign transfer on any chain, and every withdrawal on a registry without chains outside the network, keeps the invariant of the network: accounts, targets, token origins, nonces, receipts, used receipts |
| `BridgeSteps.TargetsFound` | contracts/bridge/CrossChainBridge.sol:215-225 | with a consistent registry the target in an event is the token the receiving bridge deploys, or the origin token when burned for its home chain |
| `BridgeSteps.MintTarget` | contracts/bridge/CrossChainBridge.sol:257-271 | the routing unlocks exactly burned deposits on the origin's home chain and mints the right deployed token for all others |
| `BridgeBalances.SenderPays` | contracts/bridge/CrossChainBridge.sol:115-213 | in every reachable state a token deposit costs the sender exactly its amount, to the bridge or burned, no other account or token changes, and the event names sender, recipient and chain as given and, for a locked token, amount*10^18/10^decimals, which divides evenly |
| `BridgeBalances.NativeSenderPays` | contracts/bridge/CrossChainBridge.sol:126-146 | the same for native coins |
| `BridgeBalances.RecipientIsPaid` | contracts/bridge/CrossChainBridge.sol:257-322 | in every reachable state a payment gives the named recipient the deposit's amount of a minted token, or the most units it is worth of an unlocked one, from the bridge, and changes no other account or token |
| `BridgeRuns.EscrowCoversSupply` | contracts/bridge/CrossChainBridge.sol:176-322 | over every run on registries without chains outside the network: escrow times 10^18 is 10^decimals times deployed supply on all chains, unpaid deposits and dropped remainders, plus gifts times 10^18 |
| `BridgeOpenWorld.SolventExactlyIfClosed` | contracts/bridge/CrossChainBridge.sol:236-255 | in every reachable state where a coin event and a mint event have unused receipts, no withdrawal on a registry breaks an account if and only if the registry knows no chain outside the network |
| `BridgeOpenWorld.StrangerDrains` | contracts/bridge/CrossChainBridge.sol:249-322 | a contract registered for any chain whose receipts the hub accepts gets all that the bridge holds of a token, with one burn event that names the token as target and origin |
| `StrangersChain.HubIsRegistry` | contracts/RelayHub.sol:380-395 | the hub accepts no receipt for a chain that is not in its registry |
| `StrangersChain.FakeChainIsTrusted` | contracts/verifiers/FakeBlockVerifier.sol:40-47 | after an open registration with FakeBlockVerifier the registry names the bridge given, and every receipt is accepted for the chain |
| `StrangersChain.OwnRootIsTrusted` | contracts/RelayHub.sol:117-185 | with the shipped verifier, too, whoever registers a chain has receipts checked against a root of his choice |
| `StrangersChain.StrangerTakesAll` | migrations/1_relay_hub.js:63 | so from every state of the hub in which a chain is unknown, and every state of a bridge with the hub as its registry, two calls and a withdrawal leave the bridge nothing of a token |
| `BridgeRuns.WithdrawalSucceeds` | contracts/bridge/CrossChainBridge.sol:236-322 | in every reachable state a logged deposit is paid on its chain if and only if its receipt is unused and holds no other log recognised there, the hub accepts it and the registry names the emitter, both for the origin's chain, and the recipient's side is in order: it never fails for lack of funds |
| `BridgeLosses.TwoInOneTransaction` | contracts/libraries/ReceiptParser.sol:60-71 | any two deposits, of coins or tokens, for the same chain in one transaction succeed and are logged; their receipt reverts there in every state, for every registry and verdict, and no run on any registry pays either |
| `TwoChains.BothAreLost` | contracts/bridge/CrossChainBridge.sol:111-146 | a concrete sound network in an initial state, and a run that makes two such deposits, which no run goes on to pay |
| `BridgeLosses.CrowdedIsNeverPaid` | contracts/libraries/ReceiptParser.sol:60-71 | from every state no run on any registry pays an unpaid deposit whose receipt holds another log recognised on its chain, whoever emitted it |
| `BridgeRuns.BurnsAreLookedUpAtHome` | contracts/bridge/CrossChainBridge.sol:236-255 | a deposit is paid only if the hub accepts it under the home chain of its origin and that chain's bridge has the address of the emitting one |
| `BridgeLosses.OnlyNamedChainsPay` | contracts/bridge/CrossChainBridge.sol:236-255 | over every run on any registry with a hub that accepts under a chain only receipts of that chain, every deposit paid was made on the chain it names as its origin's |
| `BridgeLosses.OnlyHomeDepositsArePaid` | contracts/bridge/CrossChainBridge.sol:236-255 | on closed registries that is the home chain of its origin token |
| `BridgeLosses.BurnAbroadIsLost` | contracts/bridge/CrossChainBridge.sol:148-255 | so every token that is burned on a chain other than the one it names is lost: the deposit succeeds, and no such run on any registry pays it |
| `TwoChains.BurnIsLost` | contracts/bridge/CrossChainBridge.sol:111-271 | a concrete run with an honest hub on a closed registry: coins are sent, paid as a token on chain 2 and burned there for their home chain, which no such run goes on to pay |
| `BridgeRuns.FundsSuffice` | contracts/bridge/CrossChainBridge.sol:303-322 | for every unpaid deposit the escrow holds the most units of its token that it is worth |
| `BridgeOnce.NoDoublePayment` | contracts/bridge/CrossChainBridge.sol:126-271 | over every run on any registry payments are injective on deposits, also by bridge and nonce alone, and made on the chain the deposit names, from a receipt that says nothing else there |
| `BridgeRuns.NamesSurvive` | contracts/bridge/CrossChainBridge.sol:156-161 | over every run on closed registries, a symbol and a name that survive packing are those of every deployed token and every deposit of their origin |
| `BridgeOpenWorld.StrangerNamesToken` | contracts/bridge/CrossChainBridge.sol:236-357 | with a registered chain outside the network, an accepted event deploys the token of an origin under any symbol and name |
| `BridgeOpenWorld.NamesKeptExactlyIfClosed` | contracts/bridge/CrossChainBridge.sol:236-357 | in every reachable state where a token is not deployed and its naming event has an unused receipt, no withdrawal on a registry changes the symbol or name of an origin if and only if the registry knows no chain outside the network |
| `BridgeRuns.WholeDepositsReturn` | contracts/bridge/CrossChainBridge.sol:227-232 | unlocking the amount a deposit was counted for pays back exactly the units deposited |

## Left out

- AcceptedProofIsSound: assumes no collision on the finite set of strings involved instead of an injective hash, because no 32-byte hash is injective.
- HonestProofIsAccepted: needs prefix-free keys and no embedded node on the path; WalkOnHonestProof gives the verdict without the first, and LongValueIsNotEmbedded the second for long values.
- ParseTransactionReceipt: outcomes are described for canonical legacy receipts; for other bytes only the hash is.
- EscrowCoversSupply: holds on registries without chains outside the network, exactly as SolventExactlyIfClosed says; deposits and withdrawals are atomic steps; token contracts with fees, hooks, changing decimals, or that name origin 0 of some chain are excluded.
- DepositPegged: what a foreign token's own burn does is taken to be what a deployed token's does.
- CreateBlockProofs: block numbers are integers without the wrap-around at 2^64 that no chain reaches; one below the epoch length gives the negative number that the client is asked for.
- ChainOfEndorsement: checkpoints of BSC chains are left to OneStakerSuffices, because their signers are not those of the epoch before.
- DepositErc20: tokens that move another amount than asked are excluded, as in EscrowCoversSupply.
- SignedDataDetermines: the conditions on prefix, length and places are sufficient; RootIsNotSigned and SealedListExactly show that length and addresses matter (whole addresses are always in front of the seal, WholeListInFront); an input for a root read past short front fields is not given.
- Verification functions other than the two: answers are a function of the arguments and of the hub; contracts with state of their own are not modelled.
- Verify: memory is a fixed snapshot with zeros behind it, so an item that claims more bytes than exist reads zeros where Verify takes its bytes (what copying makes of it is in CopyRlpBytes); gas and allocation limits are not modelled.
- RelayHub.updateValidatorSetUsingEpochBlocks: its comment and its test of the snapshot contradict each other, and it raises the epoch without recording a set.
- RelayHub.checkValidators and the staking contract's inside: who is active there, and how many it lists, come with the call.
- The relayer's checkpoint gossip and its signatures: cached under one key and looked up under another.
- RLP.toBytes and RLP.toRlpBytes of calldata: unused, and they copy from behind the item.
- PoSaBlockVerifier._parsePoSaBlockHeader: reads the uncle hash as parent hash.
- BitUtils.clz: unused.
- Typed receipts, embedded trie nodes, headers of more than 15 fields: outside what the code handles.
- Owner calls of the bridge (pause, router, token factory, factoryPeggedToken): the owner's metadata is not checked against anything.
- The deployed token's beacon proxy and its template: a deployed token starts as `initialize` leaves it.
- Events, configuration, RPC, timers, and the precompile verifier: no logic that the results need.
