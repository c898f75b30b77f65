/** The relay hub on plain values: registered chains and their histories, and what each call does. */
module HubSpec {
  import opened Bytes
  import opened Header
  import opened PoSaBlockVerifier
  import opened ParliaBlockVerifier
  import opened ValidatorHistory
  import opened Quorum
  import opened RlpReader
  import opened Wrappers

  datatype ChainStatus = NotFound | Verifying | Active
  datatype ChainType = BSC | BAS

  datatype Chain = Chain(status: ChainStatus, chainType: ChainType, verificationFunction: Address,
                         bridgeAddress: Address, epochLength: nat)

  const NO_CHAIN := Chain(NotFound, BSC, 0, 0, 0)

  datatype Hub = Hub(histories: map<nat, History>, chains: map<nat, Chain>)
  {
    function HistoryOf(chainId: nat): History {
      if chainId in histories then histories[chainId] else EMPTY
    }

    function ChainOf(chainId: nat): Chain {
      if chainId in chains then chains[chainId] else NO_CHAIN
    }

    function With(chainId: nat, history: History, chain: Chain): Hub {
      Hub(histories[chainId := history], chains[chainId := chain])
    }
  }

  /** A verification function: ParliaBlockVerifier with a reader of single headers, or any other contract
      with the four calls. A contract may ask the hub back; it gets the raw receipt with the root, the
      memory, the siblings in it and the path. */
  datatype Verifier =
    | Parlia(read: HeaderReader)
    | Other(block: HeaderReader,
            transition: (Hub, nat, seq<seq<Byte>>, nat) -> Result<(seq<Address>, nat)>,
            blocks: (Hub, nat, seq<seq<Byte>>, nat) -> Result<ParsedHeader>,
            receipt: (seq<Byte>, nat, seq<Byte>, RLPItem, seq<Byte>) -> Result<bool>)
  {
    /** `verifyBlockWithoutQuorum`. */
    function Block(): HeaderReader {
      match this
      case Parlia(read) => read
      case Other(block, _, _, _) => block
    }

    /** `verifyValidatorTransition`. */
    ghost function Transition(hub: Hub, c: nat, proofs: seq<seq<Byte>>, epochLength: nat): Result<(seq<Address>, nat)> {
      match this
      case Parlia(read) => VerifiedTransition(read, c, proofs, epochLength, hub.HistoryOf(c))
      case Other(_, transition, _, _) => transition(hub, c, proofs, epochLength)
    }

    /** `verifyBlockAndReachedQuorum`. */
    ghost function Blocks(hub: Hub, c: nat, proofs: seq<seq<Byte>>, epochLength: nat): Result<ParsedHeader> {
      match this
      case Parlia(read) => VerifiedBlocks(read, c, proofs, epochLength, hub.HistoryOf(c))
      case Other(_, _, blocks, _) => blocks(hub, c, proofs, epochLength)
    }
  }

  /** FakeBlockVerifier.sol: zeros for every header, and every receipt is good. */
  const FAKE := Other((_, _, _) => Ok(NO_HEADER), (_, _, _, _) => Ok(([], 0)), (_, _, _, _) => Ok(NO_HEADER),
                      (_, _, _, _, _) => Ok(true))

  /** Verification functions by address, the default one, and the hash and recovery functions. */
  datatype Config = Config(verifiers: Address -> Verifier, defaultVerifier: Address, crypto: Crypto)
  {
    /** `_verificationFunction`: address 0 means the default. */
    function VerifierAt(verificationFunction: Address): Verifier {
      if verificationFunction == 0 then verifiers(defaultVerifier) else verifiers(verificationFunction)
    }

    /** How the verification function reads one header. */
    function Reader(verificationFunction: Address): HeaderReader {
      VerifierAt(verificationFunction).Block()
    }
  }

  /** The staking contract at the time of a call: who is active, and how many validators it lists. */
  datatype Staking = Staking(isActive: Address -> bool, total: nat)

  datatype Call =
    | Register(chainId: nat, verificationFunction: Address, rawBlock: seq<Byte>, checkpointHash: Word,
               chainType: ChainType, bridgeAddress: Address, epochLength: nat)
    | UpdateValidatorSet(chainId: nat, blockProofs: seq<seq<Byte>>)
    | CheckpointTransition(chainId: nat, rawBlock: seq<Byte>, checkpointHash: Word, signatures: seq<seq<Byte>>,
                           staking: Staking)

  /** `_registerChainWithVerificationFunction`; a zero checkpoint hash is not compared. */
  function Registered(cfg: Config, hub: Hub, call: Call): Result<Hub>
    requires call.Register?
  {
    if hub.ChainOf(call.chainId).status == Active then Revert("already registered")
    else
      var parsed :- cfg.Reader(call.verificationFunction)(call.chainId, call.rawBlock, call.epochLength);
      if call.checkpointHash != 0 && call.checkpointHash != parsed.header.blockHash then Revert("bad checkpoint hash")
      else if call.epochLength == 0 then Revert("")
      else
        var history :- Install(hub.HistoryOf(call.chainId), parsed.validators,
                               EpochOf(parsed.header.blockNumber, call.epochLength));
        Ok(hub.With(call.chainId, history,
                    Chain(Verifying, call.chainType, call.verificationFunction, call.bridgeAddress, call.epochLength)))
  }

  /** `updateValidatorSet`. */
  ghost function Updated(cfg: Config, hub: Hub, call: Call): Result<Hub>
    requires call.UpdateValidatorSet?
  {
    var chain, history := hub.ChainOf(call.chainId), hub.HistoryOf(call.chainId);
    if chain.status == NotFound then Revert("not active")
    else
      var transition :- cfg.VerifierAt(chain.verificationFunction).Transition(hub, call.chainId, call.blockProofs,
                                                                              chain.epochLength);
      var history' :- Install(history, transition.0, transition.1);
      Ok(hub.With(call.chainId, history', chain.(status := Active)))
  }

  /** Two words side by side. */
  predicate IsMessage(m: seq<Byte>, blockHash: Word, checkpointHash: Word) {
    |m| == 64 && BE(m[..32]) == blockHash && BE(m[32..]) == checkpointHash
  }

  /** What the signers of a checkpoint sign: the ABI encoding of block hash and checkpoint hash. */
  function CheckpointMessage(blockHash: Word, checkpointHash: Word): (m: seq<Byte>)
    ensures IsMessage(m, blockHash, checkpointHash)
  {
    BEOfFixed(blockHash, 32);
    BEOfFixed(checkpointHash, 32);
    FixedBE(blockHash, 32) + FixedBE(checkpointHash, 32)
  }

  /** There is only one such message. */
  lemma MessageIs(m: seq<Byte>, blockHash: Word, checkpointHash: Word)
    requires IsMessage(m, blockHash, checkpointHash)
    ensures m == CheckpointMessage(blockHash, checkpointHash)
  {
    FixedBEOfBE(m[..32]);
    FixedBEOfBE(m[32..]);
    assert m == m[..32] + m[32..];
  }

  function RecoverAll(crypto: Crypto, root: Word, signatures: seq<seq<Byte>>): (r: Result<seq<Address>>)
    ensures r.Ok? ==> |r.value| == |signatures|
  {
    if signatures == [] then Ok([])
    else
      var n := |signatures| - 1;
      var front :- RecoverAll(crypto, root, signatures[..n]);
      match crypto.recover(root, signatures[n])
      case None => Revert("invalid signature")
      case Some(a) => Ok(front + [a])
  }

  /** Every signer must be active in the staking contract. */
  function AllStaked(crypto: Crypto, staking: Staking, root: Word, signatures: seq<seq<Byte>>): Result<()> {
    if signatures == [] then Ok(())
    else
      var n := |signatures| - 1;
      var front :- AllStaked(crypto, staking, root, signatures[..n]);
      match crypto.recover(root, signatures[n])
      case None => Revert("invalid signature")
      case Some(a) => if staking.isActive(a) then Ok(()) else Revert("bad validator")
  }

  /** As many signatures as there are validators; they are counted, not the signers. */
  function StakedQuorum(crypto: Crypto, staking: Staking, root: Word, signatures: seq<seq<Byte>>): Result<bool> {
    var staked :- AllStaked(crypto, staking, root, signatures);
    Ok(|signatures| >= staking.total)
  }

  /** The quorum test of a checkpoint: staking contract (BSC) or the previous epoch's set (BAS). */
  ghost function CheckpointQuorum(cfg: Config, history: History, chainType: ChainType, blockHash: Word, epoch: nat,
                                  call: Call): Result<bool>
    requires call.CheckpointTransition?
  {
    var root := cfg.crypto.keccak(CheckpointMessage(blockHash, call.checkpointHash));
    if chainType == BSC then StakedQuorum(cfg.crypto, call.staking, root, call.signatures)
    else
      var signers :- RecoverAll(cfg.crypto, root, call.signatures);
      QuorumBefore(history, signers, epoch)
  }

  /** The quorum of the epoch before; there is none before epoch 0. */
  ghost function QuorumBefore(history: History, signers: seq<Address>, epoch: nat): Result<bool> {
    if epoch == 0 then Revert("") else CheckQuorum(history, signers, Before(epoch))
  }

  /** `checkpointTransition`. */
  ghost function Checkpointed(cfg: Config, hub: Hub, call: Call): Result<Hub>
    requires call.CheckpointTransition?
  {
    var chain, history := hub.ChainOf(call.chainId), hub.HistoryOf(call.chainId);
    if chain.status == NotFound then Revert("not active")
    else
      var parsed :- cfg.Reader(chain.verificationFunction)(call.chainId, call.rawBlock, chain.epochLength);
      if chain.epochLength == 0 then Revert("")
      else
        var epoch := EpochOf(parsed.header.blockNumber, chain.epochLength);
        var reached :- CheckpointQuorum(cfg, history, chain.chainType, parsed.header.blockHash, epoch, call);
        if !reached then Revert("quorum not reached")
        else
          var history' :- Install(history, parsed.validators, epoch);
          Ok(hub.With(call.chainId, history'.(checkpoints := history'.checkpoints[epoch := call.checkpointHash]),
                      chain.(status := Active)))
  }

  ghost function Apply(cfg: Config, hub: Hub, call: Call): Result<Hub> {
    match call
    case Register(_, _, _, _, _, _, _) => Registered(cfg, hub, call)
    case UpdateValidatorSet(_, _) => Updated(cfg, hub, call)
    case CheckpointTransition(_, _, _, _, _) => Checkpointed(cfg, hub, call)
  }

  /** A reverted call changes nothing. */
  ghost function After(cfg: Config, hub: Hub, call: Call): Hub {
    var r := Apply(cfg, hub, call);
    if r.Ok? then r.value else hub
  }

  ghost function Run(cfg: Config, hub: Hub, calls: seq<Call>): Hub {
    if calls == [] then hub else After(cfg, Run(cfg, hub, calls[..|calls| - 1]), calls[|calls| - 1])
  }
}
