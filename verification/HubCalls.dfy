/** When the calls of the hub succeed, on what is brought and what is stored, and what is stored then. */
module HubCalls {
  import opened Bytes
  import opened Header
  import opened PoSaBlockVerifier
  import opened ParliaBlockVerifier
  import opened SealedHeaders
  import opened ValidatorHistory
  import opened Quorum
  import opened RlpReader
  import opened MerklePatriciaProof
  import opened TrieProofs
  import opened ReceiptProofs
  import opened HubSpec
  import opened Wrappers

  // ---------- installing a set ----------

  /** The next epoch, unless one of the two is 0. */
  predicate EpochFollows(v: History, epoch: nat) {
    v.latest == 0 || epoch == 0 || epoch == v.latest + 1
  }

  /** All addresses known afterwards fit the buckets that were there before, with the one begun. */
  predicate FitsBuckets(v: History, list: seq<Address>) {
    |Members(v.known) + Members(list)| <= 256 * (|v.known| / 256 + 1)
  }

  lemma {:induction false} DistinctSize(list: seq<Address>)
    requires NoDuplicates(list)
    ensures |Members(list)| == |list|
  {
    if list != [] {
      var n := |list| - 1;
      DistinctSize(list[..n]);
      assert list == list[..n] + [list[n]];
      assert Members(list) == Members(list[..n]) + {list[n]};
    }
  }

  /** A set is installed if and only if its epoch follows and its addresses fit. */
  lemma InstallsExactly(v: History, list: seq<Address>, epoch: nat)
    requires NoDuplicates(v.known)
    ensures Install(v, list, epoch).Ok? <==> EpochFollows(v, epoch) && FitsBuckets(v, list)
    ensures Install(v, list, epoch).Ok? ==> Installed(v, Install(v, list, epoch).value, list, epoch)
  {
    AppendNewMembers(v.known, list);
    DistinctSize(AppendNew(v.known, list));
  }

  /** The epoch has this set and this count, is the latest, and nothing else changed. */
  ghost predicate Installed(v: History, w: History, list: seq<Address>, epoch: nat) {
    && w.latest == epoch && w.SetAt(epoch) == (set a | a in list) && w.CountAt(epoch) == |list|
    && Members(w.known) == Members(v.known) + Members(list) && NoDuplicates(w.known)
    && w.checkpoints == v.checkpoints
    && forall k: nat :: k != epoch ==> w.SetAt(k) == v.SetAt(k) && w.CountAt(k) == v.CountAt(k)
  }

  // ---------- registration ----------

  /** The registration stored, and the set of the header installed for its epoch. */
  ghost predicate IsRegistered(hub: Hub, hub': Hub, call: Call, p: ParsedHeader)
    requires call.Register? && call.epochLength > 0
  {
    && hub'.ChainOf(call.chainId) ==
         Chain(Verifying, call.chainType, call.verificationFunction, call.bridgeAddress, call.epochLength)
    && Installed(hub.HistoryOf(call.chainId), hub'.HistoryOf(call.chainId), p.validators,
                 p.header.blockNumber / call.epochLength)
  }

  /** A registration succeeds if and only if the chain is not Active, its header reads, the checkpoint hash is 0 or
      the header's hash, and the header's set can be installed for its epoch. */
  lemma RegistrationSucceeds(cfg: Config, hub: Hub, call: Call)
    requires call.Register? && NoDuplicates(hub.HistoryOf(call.chainId).known)
    ensures var v, header := hub.HistoryOf(call.chainId),
                             cfg.Reader(call.verificationFunction)(call.chainId, call.rawBlock, call.epochLength);
      && (Apply(cfg, hub, call).Ok? <==>
          && hub.ChainOf(call.chainId).status != Active && header.Ok? && call.epochLength > 0
          && (call.checkpointHash == 0 || call.checkpointHash == header.value.header.blockHash)
          && EpochFollows(v, header.value.header.blockNumber / call.epochLength)
          && FitsBuckets(v, header.value.validators))
      && (Apply(cfg, hub, call).Ok? ==> IsRegistered(hub, Apply(cfg, hub, call).value, call, header.value))
  {
    var header := cfg.Reader(call.verificationFunction)(call.chainId, call.rawBlock, call.epochLength);
    if header.Ok? && call.epochLength > 0 {
      InstallsExactly(hub.HistoryOf(call.chainId), header.value.validators,
                      EpochOf(header.value.header.blockNumber, call.epochLength));
    }
  }

  /** With the shipped parser a checkpoint hash that is given is the hash of the raw header. */
  lemma RegistrationChecksHash(cfg: Config, hub: Hub, call: Call)
    requires call.Register? && Apply(cfg, hub, call).Ok? && NoDuplicates(hub.HistoryOf(call.chainId).known)
    requires cfg.VerifierAt(call.verificationFunction) == Parlia(ShippedReader(cfg.crypto))
    ensures call.checkpointHash == 0 || call.checkpointHash == cfg.crypto.keccak(call.rawBlock)
  {
    RegistrationSucceeds(cfg, hub, call);
    ShippedHash(cfg.crypto, call.chainId, call.rawBlock, call.epochLength,
                ShippedReader(cfg.crypto)(call.chainId, call.rawBlock, call.epochLength).value);
  }

  // ---------- updates ----------

  /** Two thirds, rounded down, of the epoch's count are among the addresses as members of its set, and each of these
      has a mark word. */
  ghost predicate HasQuorum(v: History, list: seq<Address>, epoch: nat) {
    var signers := set a | a in list && a in v.SetAt(epoch);
    && |signers| >= v.CountAt(epoch) * 2 / 3
    && forall i: nat :: 256 * ((v.CountAt(epoch) + 255) / 256) <= i < |v.known| ==> v.known[i] !in signers
  }

  lemma QuorumExactly(v: History, list: seq<Address>, epoch: nat)
    ensures CheckQuorum(v, list, epoch) == Ok(true) <==> HasQuorum(v, list, epoch)
  {
    assert Signers(v, list, epoch) == set a | a in list && a in v.SetAt(epoch);
    BeyondMeans(v.known, (v.CountAt(epoch) + 255) / 256, Signers(v, list, epoch));
  }

  /** The header at the head of a list, or none. */
  function FirstHeader(chain: seq<ParsedHeader>): ParsedHeader {
    if chain == [] then NO_HEADER else chain[0]
  }

  /** The quorum of the epoch before, if there is one. */
  ghost predicate QuorumOfBefore(v: History, sealers: seq<Address>, epoch: nat) {
    epoch == 0 || HasQuorum(v, sealers, epoch - 1)
  }

  lemma FirstExactly(first: ParsedHeader, sealers: seq<Address>, epochLength: nat, v: History)
    ensures CheckedFirst(first, sealers, epochLength, v) == Ok(first) <==>
      epochLength > 0 && QuorumOfBefore(v, sealers, first.header.blockNumber / epochLength)
    ensures CheckedFirst(first, sealers, epochLength, v).Ok? ==>
      CheckedFirst(first, sealers, epochLength, v) == Ok(first)
  {
    if epochLength > 0 {
      InEpochExactly(first, sealers, EpochOf(first.header.blockNumber, epochLength), v);
    }
  }

  lemma InEpochExactly(first: ParsedHeader, sealers: seq<Address>, epoch: nat, v: History)
    ensures CheckedInEpoch(first, sealers, epoch, v).Ok? <==> QuorumOfBefore(v, sealers, epoch)
    ensures CheckedInEpoch(first, sealers, epoch, v).Ok? ==> CheckedInEpoch(first, sealers, epoch, v) == Ok(first)
  {
    if epoch > 0 {
      assert Before(epoch) == epoch - 1;
      QuorumExactly(v, sealers, Before(epoch));
    }
  }

  /** Headers that all read are verified if and only if they are linked and, unless the first is of epoch 0, their
      sealers reach the quorum of the epoch before; what counts then is the first. */
  lemma BlocksExactly(read: HeaderReader, c: nat, proofs: seq<seq<Byte>>, epochLength: nat, v: History,
                      chain: seq<ParsedHeader>)
    requires ReadAs(read, c, proofs, epochLength, chain)
    ensures VerifiedBlocks(read, c, proofs, epochLength, v).Ok? <==>
      Linked(chain) && epochLength > 0 &&
      QuorumOfBefore(v, Coinbases(chain), FirstHeader(chain).header.blockNumber / epochLength)
    ensures VerifiedBlocks(read, c, proofs, epochLength, v).Ok? ==>
      VerifiedBlocks(read, c, proofs, epochLength, v).value == FirstHeader(chain)
  {
    ReadExactlyIfLinked(read, c, proofs, epochLength, chain);
    if Linked(chain) {
      FirstExactly(FirstHeader(chain), Coinbases(chain), epochLength, v);
    } else {
      BrokenLinkReverts(read, c, proofs, epochLength, chain);
    }
  }

  /** What the headers of a transition must be. */
  ghost predicate StartsEpochWithQuorum(v: History, chain: seq<ParsedHeader>, epochLength: nat) {
    && Linked(chain) && epochLength > 0 && FirstHeader(chain).header.blockNumber % epochLength == 0
    && QuorumOfBefore(v, Coinbases(chain), FirstHeader(chain).header.blockNumber / epochLength)
  }

  lemma TransitionExactly(read: HeaderReader, c: nat, proofs: seq<seq<Byte>>, epochLength: nat, v: History,
                          chain: seq<ParsedHeader>)
    requires ReadAs(read, c, proofs, epochLength, chain)
    ensures VerifiedTransition(read, c, proofs, epochLength, v).Ok? <==> StartsEpochWithQuorum(v, chain, epochLength)
    ensures VerifiedTransition(read, c, proofs, epochLength, v).Ok? ==>
      VerifiedTransition(read, c, proofs, epochLength, v).value ==
        (FirstHeader(chain).validators, FirstHeader(chain).header.blockNumber / epochLength)
  {
    BlocksExactly(read, c, proofs, epochLength, v, chain);
  }

  /** A header that does not read makes the update fail. */
  lemma UnreadableFails(cfg: Config, hub: Hub, c: nat, proofs: seq<seq<Byte>>, i: nat)
    requires cfg.VerifierAt(hub.ChainOf(c).verificationFunction).Parlia? && i < |proofs|
    requires cfg.Reader(hub.ChainOf(c).verificationFunction)(c, proofs[i], hub.ChainOf(c).epochLength).Revert?
    ensures Apply(cfg, hub, UpdateValidatorSet(c, proofs)).Revert?
  {
    var read, epochLength := cfg.Reader(hub.ChainOf(c).verificationFunction), hub.ChainOf(c).epochLength;
    if ReadChain(read, c, proofs, epochLength).Ok? {
      ItemIsRead(read, c, proofs, epochLength, i);
    }
  }

  /** The chain is Active with the registration it had, and the set of the first header is installed for its epoch. */
  ghost predicate IsUpdated(hub: Hub, hub': Hub, c: nat, first: ParsedHeader)
    requires hub.ChainOf(c).epochLength > 0
  {
    && hub'.ChainOf(c) == hub.ChainOf(c).(status := Active)
    && Installed(hub.HistoryOf(c), hub'.HistoryOf(c), first.validators,
                 first.header.blockNumber / hub.ChainOf(c).epochLength)
  }

  /** An update with headers that all read succeeds on a chain that ParliaBlockVerifier checks if and only if the
      chain is registered, the headers are linked, start with an epoch block and reach the quorum of the epoch before,
      and the set of the first can be installed. */
  lemma UpdateSucceeds(cfg: Config, hub: Hub, c: nat, proofs: seq<seq<Byte>>, chain: seq<ParsedHeader>)
    requires cfg.VerifierAt(hub.ChainOf(c).verificationFunction).Parlia? && NoDuplicates(hub.HistoryOf(c).known)
    requires ReadAs(cfg.Reader(hub.ChainOf(c).verificationFunction), c, proofs, hub.ChainOf(c).epochLength, chain)
    ensures var v, epochLength := hub.HistoryOf(c), hub.ChainOf(c).epochLength;
      var after := Apply(cfg, hub, UpdateValidatorSet(c, proofs));
      && (after.Ok? <==>
          && hub.ChainOf(c).status != NotFound && StartsEpochWithQuorum(v, chain, epochLength)
          && EpochFollows(v, FirstHeader(chain).header.blockNumber / epochLength)
          && FitsBuckets(v, FirstHeader(chain).validators))
      && (after.Ok? ==> IsUpdated(hub, after.value, c, FirstHeader(chain)))
  {
    var v, epochLength := hub.HistoryOf(c), hub.ChainOf(c).epochLength;
    TransitionExactly(cfg.Reader(hub.ChainOf(c).verificationFunction), c, proofs, epochLength, v, chain);
    if epochLength > 0 {
      InstallsExactly(v, FirstHeader(chain).validators, FirstHeader(chain).header.blockNumber / epochLength);
    }
  }

  // ---------- checkpoints ----------

  /** One address is recovered from the hash of the message for each signature. */
  ghost predicate SignedMessage(crypto: Crypto, m: seq<Byte>, signatures: seq<seq<Byte>>, signers: seq<Address>) {
    |signers| == |signatures| &&
    forall i :: 0 <= i < |signatures| ==> crypto.recover(crypto.keccak(m), signatures[i]) == Some(signers[i])
  }

  lemma {:induction false} RecoversExactly(crypto: Crypto, m: seq<Byte>, signatures: seq<seq<Byte>>,
                                           signers: seq<Address>)
    ensures RecoverAll(crypto, crypto.keccak(m), signatures) == Ok(signers) <==>
      SignedMessage(crypto, m, signatures, signers)
  {
    if |signers| == |signatures| > 0 {
      var n := |signatures| - 1;
      RecoversExactly(crypto, m, signatures[..n], signers[..n]);
      assert signers == signers[..n] + [signers[n]];
      if SignedMessage(crypto, m, signatures[..n], signers[..n]) {
        forall i | 0 <= i < n
          ensures crypto.recover(crypto.keccak(m), signatures[i]) == Some(signers[i])
        {
          assert signatures[..n][i] == signatures[i] && signers[..n][i] == signers[i];
        }
      }
    }
  }

  lemma {:induction false} StakedExactly(crypto: Crypto, staking: Staking, m: seq<Byte>, signatures: seq<seq<Byte>>,
                                         signers: seq<Address>)
    requires SignedMessage(crypto, m, signatures, signers)
    ensures AllStaked(crypto, staking, crypto.keccak(m), signatures).Ok? <==> forall a :: a in signers ==>
      staking.isActive(a)
  {
    if signatures != [] {
      var n := |signatures| - 1;
      assert forall i :: 0 <= i < n ==> signatures[..n][i] == signatures[i] && signers[..n][i] == signers[i];
      StakedExactly(crypto, staking, m, signatures[..n], signers[..n]);
      assert signers == signers[..n] + [signers[n]];
    }
  }

  lemma {:induction false} StakersRecovered(crypto: Crypto, staking: Staking, m: seq<Byte>, signatures: seq<seq<Byte>>)
    requires AllStaked(crypto, staking, crypto.keccak(m), signatures).Ok?
    ensures RecoverAll(crypto, crypto.keccak(m), signatures).Ok?
  {
    if signatures != [] {
      StakersRecovered(crypto, staking, m, signatures[..|signatures| - 1]);
    }
  }

  /** As many as the staking contract lists, all of them active there (BSC), or a quorum of the epoch before (BAS). */
  ghost predicate EnoughSigners(v: History, chainType: ChainType, epoch: nat, staking: Staking, signers: seq<Address>) {
    if chainType == BSC then (forall a :: a in signers ==> staking.isActive(a)) && |signers| >= staking.total
    else epoch > 0 && HasQuorum(v, signers, epoch - 1)
  }

  /** The signatures are by enough signers of the message. */
  ghost predicate EnoughSigned(cfg: Config, v: History, chainType: ChainType, epoch: nat, call: Call, m: seq<Byte>)
    requires call.CheckpointTransition?
  {
    exists signers :: SignedMessage(cfg.crypto, m, call.signatures, signers) &&
      EnoughSigners(v, chainType, epoch, call.staking, signers)
  }

  lemma StakedQuorumExactly(cfg: Config, v: History, epoch: nat, call: Call, m: seq<Byte>)
    requires call.CheckpointTransition?
    ensures StakedQuorum(cfg.crypto, call.staking, cfg.crypto.keccak(m), call.signatures) == Ok(true) <==>
      EnoughSigned(cfg, v, BSC, epoch, call, m)
  {
    if StakedQuorum(cfg.crypto, call.staking, cfg.crypto.keccak(m), call.signatures) == Ok(true) {
      StakersRecovered(cfg.crypto, call.staking, m, call.signatures);
      var signers := RecoverAll(cfg.crypto, cfg.crypto.keccak(m), call.signatures).value;
      RecoversExactly(cfg.crypto, m, call.signatures, signers);
      StakedExactly(cfg.crypto, call.staking, m, call.signatures, signers);
      assert EnoughSigners(v, BSC, epoch, call.staking, signers);
    }
    if EnoughSigned(cfg, v, BSC, epoch, call, m) {
      var signers :| SignedMessage(cfg.crypto, m, call.signatures, signers) &&
        EnoughSigners(v, BSC, epoch, call.staking, signers);
      StakedExactly(cfg.crypto, call.staking, m, call.signatures, signers);
    }
  }

  lemma BeforeQuorumExactly(v: History, signers: seq<Address>, epoch: nat, staking: Staking)
    ensures QuorumBefore(v, signers, epoch) == Ok(true) <==> EnoughSigners(v, BAS, epoch, staking, signers)
  {
    if epoch > 0 {
      assert Before(epoch) == epoch - 1;
      QuorumExactly(v, signers, Before(epoch));
    }
  }

  lemma SetQuorumExactly(cfg: Config, v: History, blockHash: Word, epoch: nat, call: Call, m: seq<Byte>)
    requires call.CheckpointTransition? && IsMessage(m, blockHash, call.checkpointHash)
    ensures CheckpointQuorum(cfg, v, BAS, blockHash, epoch, call) == Ok(true) <==>
      EnoughSigned(cfg, v, BAS, epoch, call, m)
  {
    MessageIs(m, blockHash, call.checkpointHash);
    var recovered := RecoverAll(cfg.crypto, cfg.crypto.keccak(m), call.signatures);
    if recovered.Ok? {
      RecoversExactly(cfg.crypto, m, call.signatures, recovered.value);
      BeforeQuorumExactly(v, recovered.value, epoch, call.staking);
    }
    if EnoughSigned(cfg, v, BAS, epoch, call, m) {
      var signers :| SignedMessage(cfg.crypto, m, call.signatures, signers) &&
        EnoughSigners(v, BAS, epoch, call.staking, signers);
      RecoversExactly(cfg.crypto, m, call.signatures, signers);
    }
  }

  /** A checkpoint has its quorum if and only if enough signers signed the one message of header hash and checkpoint
      hash. */
  lemma CheckpointQuorumExactly(cfg: Config, v: History, chainType: ChainType, blockHash: Word, epoch: nat, call: Call,
                                m: seq<Byte>)
    requires call.CheckpointTransition? && IsMessage(m, blockHash, call.checkpointHash)
    ensures CheckpointQuorum(cfg, v, chainType, blockHash, epoch, call) == Ok(true) <==>
      EnoughSigned(cfg, v, chainType, epoch, call, m)
  {
    if chainType == BSC {
      MessageIs(m, blockHash, call.checkpointHash);
      StakedQuorumExactly(cfg, v, epoch, call, m);
    } else {
      SetQuorumExactly(cfg, v, blockHash, epoch, call, m);
    }
  }

  /** The chain is Active with the registration it had, the header's set is installed for its epoch, and the
      checkpoint hash is recorded for that epoch alone. */
  ghost predicate IsCheckpointed(hub: Hub, hub': Hub, call: Call, p: ParsedHeader)
    requires call.CheckpointTransition? && hub.ChainOf(call.chainId).epochLength > 0
  {
    var c, v, w := call.chainId, hub.HistoryOf(call.chainId), hub'.HistoryOf(call.chainId);
    var epoch := p.header.blockNumber / hub.ChainOf(c).epochLength;
    && hub'.ChainOf(c) == hub.ChainOf(c).(status := Active)
    && Installed(v, w.(checkpoints := v.checkpoints), p.validators, epoch)
    && w.checkpoints == v.checkpoints[epoch := call.checkpointHash]
  }

  /** A checkpoint whose header reads succeeds if and only if the chain is registered, enough signers signed the
      message of 64 bytes that holds the header's hash and the checkpoint hash, and the header's set can be installed
      for its epoch. */
  lemma CheckpointSucceeds(cfg: Config, hub: Hub, call: Call, p: ParsedHeader, m: seq<Byte>)
    requires call.CheckpointTransition? && NoDuplicates(hub.HistoryOf(call.chainId).known)
    requires var chain := hub.ChainOf(call.chainId);
      cfg.Reader(chain.verificationFunction)(call.chainId, call.rawBlock, chain.epochLength) == Ok(p)
    requires |m| == 64 && BE(m[..32]) == p.header.blockHash && BE(m[32..]) == call.checkpointHash
    ensures var v, chain := hub.HistoryOf(call.chainId), hub.ChainOf(call.chainId);
      var after := Apply(cfg, hub, call);
      && (after.Ok? <==>
          && chain.status != NotFound && chain.epochLength > 0
          && EnoughSigned(cfg, v, chain.chainType, p.header.blockNumber / chain.epochLength, call, m)
          && EpochFollows(v, p.header.blockNumber / chain.epochLength) && FitsBuckets(v, p.validators))
      && (after.Ok? ==> IsCheckpointed(hub, after.value, call, p))
  {
    var v, chain := hub.HistoryOf(call.chainId), hub.ChainOf(call.chainId);
    if chain.epochLength > 0 {
      var epoch := EpochOf(p.header.blockNumber, chain.epochLength);
      CheckpointQuorumExactly(cfg, v, chain.chainType, p.header.blockHash, epoch, call, m);
      InstallsExactly(v, p.validators, epoch);
    }
  }

  /** Where no two of these messages collide, two different pairs of hashes have different things signed. */
  lemma DifferentMessages(crypto: Crypto, blockHash: Word, checkpointHash: Word, blockHash': Word,
                          checkpointHash': Word, m: seq<Byte>, m': seq<Byte>)
    requires IsMessage(m, blockHash, checkpointHash) && IsMessage(m', blockHash', checkpointHash')
    requires NoCollision(crypto.keccak, {m, m'})
    ensures crypto.keccak(m) == crypto.keccak(m') <==> blockHash == blockHash' && checkpointHash == checkpointHash'
  {
    MessageIs(m, blockHash, checkpointHash);
    MessageIs(m', blockHash', checkpointHash');
  }

  // ---------- the default verification function ----------

  /** Address 0 stands for the default verification function: registering with either succeeds alike and stores the
      same history. */
  lemma ZeroIsDefault(cfg: Config, hub: Hub, call: Call, named: Call)
    requires call.Register? && call.verificationFunction == 0
    requires named == call.(verificationFunction := cfg.defaultVerifier)
    ensures Apply(cfg, hub, call).Ok? <==> Apply(cfg, hub, named).Ok?
    ensures After(cfg, hub, call).HistoryOf(call.chainId) == After(cfg, hub, named).HistoryOf(call.chainId)
    ensures cfg.VerifierAt(0) == cfg.VerifierAt(cfg.defaultVerifier) == cfg.verifiers(cfg.defaultVerifier)
    ensures forall a :: a != 0 ==> cfg.VerifierAt(a) == cfg.verifiers(a)
  {
    assert cfg.Reader(0) == cfg.Reader(cfg.defaultVerifier);
  }

  // ---------- receipts ----------

  /** With headers that all read, a receipt is accepted on a chain that ParliaBlockVerifier checks if and only if the
      chain is Active, the headers are linked and reach the quorum of the epoch before their first, and the trie proof
      holds for the hash of these bytes under the first header's receipts root. */
  lemma ReceiptIsAccepted(cfg: Config, hub: Hub, c: nat, proofs: seq<seq<Byte>>, rawReceipt: seq<Byte>, mem: seq<Byte>,
                          siblings: RLPItem, path: seq<Byte>, chain: seq<ParsedHeader>)
    requires cfg.VerifierAt(hub.ChainOf(c).verificationFunction).Parlia?
    requires ReadAs(cfg.Reader(hub.ChainOf(c).verificationFunction), c, proofs, hub.ChainOf(c).epochLength, chain)
    ensures CheckedReceipt(cfg, hub, c, proofs, rawReceipt, mem, siblings, path) == Ok(true) <==>
      && hub.ChainOf(c).status == Active && Linked(chain) && hub.ChainOf(c).epochLength > 0
      && QuorumOfBefore(hub.HistoryOf(c), Coinbases(chain),
                        FirstHeader(chain).header.blockNumber / hub.ChainOf(c).epochLength)
      && Verified(cfg.crypto.keccak, cfg.crypto.keccak(rawReceipt), path, mem, siblings,
                  FirstHeader(chain).header.receiptsRoot) == Ok(true)
  {
    BlocksExactly(cfg.Reader(hub.ChainOf(c).verificationFunction), c, proofs, hub.ChainOf(c).epochLength,
                  hub.HistoryOf(c), chain);
  }

  // ---------- every reachable hub ----------

  /** No history has an address twice. */
  ghost predicate KnownOnce(hub: Hub) {
    forall c: nat :: NoDuplicates(hub.HistoryOf(c).known)
  }

  lemma InstallKeepsOnce(v: History, list: seq<Address>, epoch: nat)
    requires NoDuplicates(v.known) && Install(v, list, epoch).Ok?
    ensures NoDuplicates(Install(v, list, epoch).value.known)
  {
    InstallsExactly(v, list, epoch);
  }

  lemma CallKeepsOnce(cfg: Config, hub: Hub, call: Call)
    requires KnownOnce(hub)
    ensures KnownOnce(After(cfg, hub, call))
  {
    if Apply(cfg, hub, call).Ok? {
      var list, e := InstalledList(cfg, hub, call);
      InstallKeepsOnce(hub.HistoryOf(call.chainId), list, e);
    }
  }

  lemma InstalledList(cfg: Config, hub: Hub, call: Call) returns (list: seq<Address>, e: nat)
    requires Apply(cfg, hub, call).Ok?
    ensures Install(hub.HistoryOf(call.chainId), list, e).Ok?
    ensures var w := Apply(cfg, hub, call).value.HistoryOf(call.chainId);
      w.known == Install(hub.HistoryOf(call.chainId), list, e).value.known
    ensures forall c :: c != call.chainId ==> Apply(cfg, hub, call).value.HistoryOf(c) == hub.HistoryOf(c)
  {
    var chain := hub.ChainOf(call.chainId);
    match call
    case Register(c, verificationFunction, raw, _, _, _, epochLength) =>
      var p := cfg.Reader(verificationFunction)(c, raw, epochLength).value;
      list, e := p.validators, EpochOf(p.header.blockNumber, epochLength);
    case UpdateValidatorSet(c, proofs) =>
      var t := cfg.VerifierAt(chain.verificationFunction).Transition(hub, c, proofs, chain.epochLength).value;
      list, e := t.0, t.1;
    case CheckpointTransition(c, raw, _, _, _) =>
      var p := cfg.Reader(chain.verificationFunction)(c, raw, chain.epochLength).value;
      list, e := p.validators, EpochOf(p.header.blockNumber, chain.epochLength);
  }

  /** So every run from an empty hub meets what the conditions above ask for. */
  lemma {:induction false} RunKeepsOnce(cfg: Config, hub: Hub, calls: seq<Call>)
    requires KnownOnce(hub)
    ensures KnownOnce(Run(cfg, hub, calls))
  {
    if calls != [] {
      RunKeepsOnce(cfg, hub, calls[..|calls| - 1]);
      CallKeepsOnce(cfg, Run(cfg, hub, calls[..|calls| - 1]), calls[|calls| - 1]);
    }
  }
}
