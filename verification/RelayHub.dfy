/** contracts/RelayHub.sol as an object over its storage; every call refines HubSpec. */
module RelayHub {
  import opened Bytes
  import opened Header
  import opened PoSaBlockVerifier
  import opened ParliaBlockVerifier
  import opened ValidatorHistory
  import opened HistoryStorage
  import opened Quorum
  import opened HubSpec
  import opened RlpReader
  import opened MerklePatriciaProof
  import opened ReceiptProofs
  import opened Wrappers

  class RelayHub {
    const cfg: Config
    var validatorHistories: map<nat, Storage>
    var registeredChains: map<nat, Chain>

    ghost predicate Valid()
      reads this
    {
      forall c :: c in validatorHistories ==> validatorHistories[c].Valid()
    }

    /** What the storage stands for. */
    function View(): Hub
      reads this
    {
      Hub(map c | c in validatorHistories :: validatorHistories[c].View(), registeredChains)
    }

    constructor (cfg: Config)
      ensures Valid() && View() == Hub(map[], map[]) && this.cfg == cfg
    {
      this.cfg := cfg;
      validatorHistories := map[];
      registeredChains := map[];
    }

    function ChainAt(chainId: nat): Chain
      reads this
      ensures ChainAt(chainId) == View().ChainOf(chainId)
    {
      if chainId in registeredChains then registeredChains[chainId] else NO_CHAIN
    }

    /** The history of a chain, empty when nothing was stored. */
    method HistoryAt(chainId: nat) returns (h: Storage)
      requires Valid()
      ensures h.Valid() && h.View() == View().HistoryOf(chainId)
    {
      FreshIsEmpty();
      h := if chainId in validatorHistories then validatorHistories[chainId] else FRESH;
    }

    method Store(chainId: nat, h: Storage, chain: Chain)
      requires Valid() && h.Valid()
      modifies this
      ensures Valid() && View() == old(View()).With(chainId, h.View(), chain)
    {
      validatorHistories := validatorHistories[chainId := h];
      registeredChains := registeredChains[chainId := chain];
      assert View().histories == old(View()).histories[chainId := h.View()];
    }

    method RegisterChain(ghost call: Call, chainId: nat, verificationFunction: Address, rawBlock: seq<Byte>,
                         checkpointHash: Word,
                         chainType: ChainType, bridgeAddress: Address, epochLength: nat)
      returns (r: Result<()>)
      requires Valid() && call == Register(chainId, verificationFunction, rawBlock, checkpointHash, chainType,
                                           bridgeAddress, epochLength)
      modifies this
      ensures Valid()
      ensures r.Ok? ==> Apply(cfg, old(View()), call) == Ok(View())
      ensures r.Revert? ==> Apply(cfg, old(View()), call) == Revert(r.reason) && View() == old(View())
    {
      var bas := ChainAt(chainId);
      if bas.status == Active {
        return Revert("already registered");
      }
      var parsed :- cfg.Reader(verificationFunction)(chainId, rawBlock, epochLength);
      if checkpointHash != 0 {
        if checkpointHash != parsed.header.blockHash {
          return Revert("bad checkpoint hash");
        }
      }
      if epochLength == 0 {
        return Revert("");
      }
      var h := HistoryAt(chainId);
      var h' :- UpdateActiveValidatorSet(h, parsed.validators, EpochOf(parsed.header.blockNumber, epochLength));
      Store(chainId, h', Chain(Verifying, chainType, verificationFunction, bridgeAddress, epochLength));
      return Ok(());
    }

    /** The external call for a new validator set; only ParliaBlockVerifier has a known body. */
    method AskTransition(verifier: Verifier, chainId: nat, blockProofs: seq<seq<Byte>>, epochLength: nat, h: Storage)
      returns (r: Result<(seq<Address>, nat)>)
      requires h.Valid() && h.View() == View().HistoryOf(chainId)
      ensures r == verifier.Transition(View(), chainId, blockProofs, epochLength)
    {
      match verifier {
        case Parlia(read) => r := VerifyValidatorTransition(read, chainId, blockProofs, epochLength, h);
        case Other(_, transition, _, _) => r := transition(View(), chainId, blockProofs, epochLength);
      }
    }

    /** The external call for a header with a quorum. */
    method AskBlocks(verifier: Verifier, chainId: nat, blockProofs: seq<seq<Byte>>, epochLength: nat, h: Storage)
      returns (r: Result<ParsedHeader>)
      requires h.Valid() && h.View() == View().HistoryOf(chainId)
      ensures r == verifier.Blocks(View(), chainId, blockProofs, epochLength)
    {
      match verifier {
        case Parlia(read) => r := VerifyBlocksAndReachedQuorum(read, chainId, blockProofs, epochLength, h);
        case Other(_, _, blocks, _) => r := blocks(View(), chainId, blockProofs, epochLength);
      }
    }

    /** The external call for a receipt. */
    method AskReceipt(verifier: Verifier, rawReceipt: seq<Byte>, root: nat, mem: seq<Byte>, siblings: RLPItem,
                      path: seq<Byte>)
      returns (r: Result<bool>)
      ensures r == ReceiptVerdict(cfg.crypto.keccak, verifier, rawReceipt, root, mem, siblings, path)
    {
      match verifier {
        case Parlia(_) => r := Verify(cfg.crypto.keccak, cfg.crypto.keccak(rawReceipt), path, mem, siblings, root);
        case Other(_, _, _, receipt) => r := receipt(rawReceipt, root, mem, siblings, path);
      }
    }

    method UpdateSet(chainId: nat, blockProofs: seq<seq<Byte>>) returns (r: Result<()>)
      requires Valid()
      modifies this
      ensures Valid()
      ensures r.Ok? ==> Apply(cfg, old(View()), UpdateValidatorSet(chainId, blockProofs)) == Ok(View())
      ensures r.Revert? ==>
        Apply(cfg, old(View()), UpdateValidatorSet(chainId, blockProofs)) == Revert(r.reason) && View() == old(View())
    {
      var bas := ChainAt(chainId);
      if bas.status == NotFound {
        return Revert("not active");
      }
      var h := HistoryAt(chainId);
      var transition :- AskTransition(cfg.VerifierAt(bas.verificationFunction), chainId, blockProofs,
                                      bas.epochLength, h);
      var h' :- UpdateActiveValidatorSet(h, transition.0, transition.1);
      Store(chainId, h', bas.(status := Active));
      return Ok(());
    }

    /** Recovers the signers of a checkpoint one by one. */
    method RecoverSigners(root: Word, signatures: seq<seq<Byte>>) returns (r: Result<seq<Address>>)
      ensures r == RecoverAll(cfg.crypto, root, signatures)
    {
      var signers: seq<Address> := [];
      for i := 0 to |signatures|
        invariant RecoverAll(cfg.crypto, root, signatures[..i]) == Ok(signers)
      {
        assert signatures[..i + 1][..i] == signatures[..i];
        RecoversPrefix(cfg.crypto, root, signatures, i + 1);
        var signer := cfg.crypto.recover(root, signatures[i]);
        if signer == None {
          return Revert("invalid signature");
        }
        signers := signers + [signer.value];
      }
      assert signatures[..|signatures|] == signatures;
      return Ok(signers);
    }

    /** Recovers the signers one by one and asks the staking contract about each. */
    method CheckStaked(staking: Staking, root: Word, signatures: seq<seq<Byte>>) returns (r: Result<()>)
      ensures r == AllStaked(cfg.crypto, staking, root, signatures)
    {
      for i := 0 to |signatures|
        invariant AllStaked(cfg.crypto, staking, root, signatures[..i]) == Ok(())
      {
        assert signatures[..i + 1][..i] == signatures[..i];
        StakedPrefix(cfg.crypto, staking, root, signatures, i + 1);
        var signer := cfg.crypto.recover(root, signatures[i]);
        if signer == None {
          return Revert("invalid signature");
        }
        if !staking.isActive(signer.value) {
          return Revert("bad validator");
        }
      }
      assert signatures[..|signatures|] == signatures;
      return Ok(());
    }

    /** The quorum test of a checkpoint. */
    method CheckCheckpoint(ghost call: Call, h: Storage, chainType: ChainType, blockHash: Word, epoch: nat,
                           checkpointHash: Word,
                           signatures: seq<seq<Byte>>, staking: Staking)
      returns (r: Result<bool>)
      requires h.Valid() && call.CheckpointTransition?
      requires call.checkpointHash == checkpointHash && call.signatures == signatures && call.staking == staking
      ensures r == CheckpointQuorum(cfg, h.View(), chainType, blockHash, epoch, call)
    {
      var root := cfg.crypto.keccak(CheckpointMessage(blockHash, checkpointHash));
      if chainType == BSC {
        var staked :- CheckStaked(staking, root, signatures);
        return Ok(|signatures| >= staking.total);
      }
      var signers :- RecoverSigners(root, signatures);
      r := CheckPreviousQuorum(h, signers, epoch);
    }

    method CheckPreviousQuorum(h: Storage, signers: seq<Address>, epoch: nat) returns (r: Result<bool>)
      requires h.Valid()
      ensures r == QuorumBefore(h.View(), signers, epoch)
    {
      if epoch == 0 {
        return Revert("");
      }
      r := CheckValidatorsAndQuorumReached(h, signers, Before(epoch));
    }

    method Checkpoint(ghost call: Call, chainId: nat, rawEpochBlock: seq<Byte>, checkpointHash: Word,
                      signatures: seq<seq<Byte>>, staking: Staking)
      returns (r: Result<()>)
      requires Valid() && call == CheckpointTransition(chainId, rawEpochBlock, checkpointHash, signatures,
                                                       staking)
      modifies this
      ensures Valid()
      ensures r.Ok? ==> Apply(cfg, old(View()), call) == Ok(View())
      ensures r.Revert? ==> Apply(cfg, old(View()), call) == Revert(r.reason) && View() == old(View())
    {
      var bas := ChainAt(chainId);
      if bas.status == NotFound {
        return Revert("not active");
      }
      var parsed :- cfg.Reader(bas.verificationFunction)(chainId, rawEpochBlock, bas.epochLength);
      if bas.epochLength == 0 {
        return Revert("");
      }
      var newEpochNumber := EpochOf(parsed.header.blockNumber, bas.epochLength);
      var h := HistoryAt(chainId);
      var reached :- CheckCheckpoint(call, h, bas.chainType, parsed.header.blockHash, newEpochNumber, checkpointHash,
                                     signatures, staking);
      if !reached {
        return Revert("quorum not reached");
      }
      var h' :- UpdateActiveValidatorSet(h, parsed.validators, newEpochNumber);
      Store(chainId, h'.(epochCheckpoints := h'.epochCheckpoints[newEpochNumber := checkpointHash]),
            bas.(status := Active));
      return Ok(());
    }

    /** `checkReceiptProof`. */
    method CheckReceiptProof(chainId: nat, blockProofs: seq<seq<Byte>>, rawReceipt: seq<Byte>, mem: seq<Byte>,
                             proofSiblings: RLPItem, proofPath: seq<Byte>)
      returns (r: Result<bool>)
      requires Valid()
      ensures r == CheckedReceipt(cfg, View(), chainId, blockProofs, rawReceipt, mem, proofSiblings, proofPath)
    {
      var bas := ChainAt(chainId);
      if bas.status != Active {
        return Revert("not active");
      }
      var h := HistoryAt(chainId);
      var pvf := cfg.VerifierAt(bas.verificationFunction);
      var blockHeader :- AskBlocks(pvf, chainId, blockProofs, bas.epochLength, h);
      r := AskReceipt(pvf, rawReceipt, blockHeader.header.receiptsRoot, mem, proofSiblings, proofPath);
    }

    /** `getActiveValidators`: the latest set, each member once, in first-seen order. */
    method GetActiveValidators(chainId: nat) returns (list: seq<Address>)
      requires Valid()
      ensures var v := View().HistoryOf(chainId);
        list == InOrder(v.known, v.SetAt(v.latest)) && Members(list) == v.SetAt(v.latest) && NoDuplicates(list)
    {
      var h := HistoryAt(chainId);
      list := ExtractActiveValidators(h, h.latestKnownEpoch);
      ExtractedIsInstalled(h, list, h.latestKnownEpoch);
    }
  }

  lemma {:induction false} StakedPrefix(crypto: Crypto, staking: Staking, root: Word, signatures: seq<seq<Byte>>,
                                        i: nat)
    requires i <= |signatures|
    ensures AllStaked(crypto, staking, root, signatures[..i]).Revert? ==>
      AllStaked(crypto, staking, root, signatures) == AllStaked(crypto, staking, root, signatures[..i])
    decreases |signatures|
  {
    if i == |signatures| {
      assert signatures[..i] == signatures;
    } else {
      assert signatures[..|signatures| - 1][..i] == signatures[..i];
      StakedPrefix(crypto, staking, root, signatures[..|signatures| - 1], i);
    }
  }

  lemma {:induction false} RecoversPrefix(crypto: Crypto, root: Word, signatures: seq<seq<Byte>>, i: nat)
    requires i <= |signatures|
    ensures RecoverAll(crypto, root, signatures[..i]).Revert? ==>
      RecoverAll(crypto, root, signatures) == RecoverAll(crypto, root, signatures[..i])
    decreases |signatures|
  {
    if i == |signatures| {
      assert signatures[..i] == signatures;
    } else {
      assert signatures[..|signatures| - 1][..i] == signatures[..i];
      RecoversPrefix(crypto, root, signatures[..|signatures| - 1], i);
    }
  }
}
