/** The relay hub as the bridge's registry: anyone registers an unknown chain, and what the hub and the
    bridge then make of his receipts. */
module StrangersChain {
  import opened Bytes
  import opened Rlp
  import opened Header
  import opened RlpReader
  import opened MerklePatriciaProof
  import opened ParliaBlockVerifier
  import opened ValidatorHistory
  import opened HubSpec
  import opened SealedHeaders
  import opened ReceiptProofs
  import opened ReceiptParser
  import opened BridgeSpec
  import opened BridgeEvents
  import opened SimpleToken
  import opened Wrappers
  import BridgeNetwork
  import BridgeOpenWorld
  import HubRuns

  /** `getBridgeAddress` of all chains. */
  function RegistryOf(hub: Hub): Registry {
    map c | c in hub.chains :: hub.chains[c].bridgeAddress
  }

  lemma RegistryNames(hub: Hub, c: nat)
    ensures BridgeAt(RegistryOf(hub), c) == hub.ChainOf(c).bridgeAddress
  {
  }

  /** What is handed in with a receipt. */
  datatype Evidence = Evidence(blockProofs: seq<seq<Byte>>, receipt: seq<Byte>, mem: seq<Byte>, siblings: RLPItem,
                               path: seq<Byte>)

  ghost function Verdict(cfg: Config, hub: Hub, x: Evidence): HubVerdict {
    (c: nat) => CheckedReceipt(cfg, hub, c, x.blockProofs, x.receipt, x.mem, x.siblings, x.path)
  }

  /** The hub accepts nothing for chains that its registry does not know. */
  lemma HubIsRegistry(cfg: Config, hub: Hub, x: Evidence)
    ensures BridgeNetwork.OneHub(RegistryOf(hub), Verdict(cfg, hub, x))
  {
    forall c: nat | Verdict(cfg, hub, x)(c) == Ok(true)
      ensures c in RegistryOf(hub)
    {
      assert hub.ChainOf(c).status == Active;
    }
  }

  /** The hub after someone registered chain c and sent an empty update. */
  ghost function AfterStranger(cfg: Config, hub: Hub, c: nat, verificationFunction: Address, raw: seq<Byte>,
                               bridge: Address, epochLength: nat): Hub {
    HubSpec.Run(cfg, hub,
                [Register(c, verificationFunction, raw, 0, BAS, bridge, epochLength), UpdateValidatorSet(c, [])])
  }

  /** An unknown chain, and a header that its registrant can register it with. */
  ghost predicate CanRegister(cfg: Config, hub: Hub, c: nat, verificationFunction: Address, raw: seq<Byte>,
                              epochLength: nat) {
    var parsed := cfg.Reader(verificationFunction)(c, raw, epochLength);
    && hub.ChainOf(c) == NO_CHAIN && hub.HistoryOf(c) == EMPTY && epochLength > 0
    && parsed.Ok? && |AppendNew([], parsed.value.validators)| <= Capacity(0)
  }

  /** Anyone registers an unknown chain with FakeBlockVerifier and a bridge of his own; the registry names
      it, and the hub accepts every receipt for the chain. */
  lemma FakeChainIsTrusted(cfg: Config, hub: Hub, c: nat, verificationFunction: Address, raw: seq<Byte>,
                           bridge: Address, epochLength: nat, x: Evidence)
    requires CanRegister(cfg, hub, c, verificationFunction, raw, epochLength)
    requires cfg.VerifierAt(verificationFunction) == FAKE
    ensures var hub' := AfterStranger(cfg, hub, c, verificationFunction, raw, bridge, epochLength);
      BridgeAt(RegistryOf(hub'), c) == bridge && Verdict(cfg, hub', x)(c) == Ok(true)
  {
    var hub' := AfterStranger(cfg, hub, c, verificationFunction, raw, bridge, epochLength);
    HubRuns.OpenRegistration(cfg, hub, c, verificationFunction, raw,
                             cfg.Reader(verificationFunction)(c, raw, epochLength).value, bridge, epochLength);
    RegistryNames(hub', c);
    FakeVerifierAcceptsAnything(cfg, hub', c, x.blockProofs, x.receipt, x.mem, x.siblings, x.path);
  }

  /** The shipped verifier does no better: whoever has a key writes a header under which the trie proof alone
      decides, against a root of his choice. */
  lemma OwnRootIsTrusted(cfg: Config, hub: Hub, c: nat, verificationFunction: Address, raw: seq<Byte>,
                         bridge: Address, epochLength: nat, a: Address, root: Word, x: Evidence)
    returns (header: seq<Byte>)
    requires CanRegister(cfg, hub, c, verificationFunction, raw, epochLength)
    requires cfg.VerifierAt(verificationFunction).Parlia? && epochLength < Pow256(8)
    requires ReadsAll(cfg.Reader(verificationFunction), cfg.crypto, c, epochLength)
    requires CanSign(cfg.crypto, a) && IsAddress(a)
    ensures var hub' := AfterStranger(cfg, hub, c, verificationFunction, raw, bridge, epochLength);
      && BridgeAt(RegistryOf(hub'), c) == bridge
      && Verdict(cfg, hub', x.(blockProofs := [header]))(c) ==
           Verified(cfg.crypto.keccak, cfg.crypto.keccak(x.receipt), x.path, x.mem, x.siblings, root)
  {
    var hub' := AfterStranger(cfg, hub, c, verificationFunction, raw, bridge, epochLength);
    HubRuns.OpenRegistration(cfg, hub, c, verificationFunction, raw,
                             cfg.Reader(verificationFunction)(c, raw, epochLength).value, bridge, epochLength);
    RegistryNames(hub', c);
    var read, v := cfg.Reader(verificationFunction), hub'.HistoryOf(c);
    FirstOfEpoch(epochLength, epochLength, 1);
    var p;
    header, p := OutsidersHeader(cfg.crypto, read, c, epochLength, v, 0, a, epochLength, root);
  }

  /** So he takes all that a bridge with this registry holds of a token of its chain: with a receipt that
      holds one burn event of his own contract, which no chain ever saw. */
  lemma StrangerTakesAll(cfg: Config, hub: Hub, c: nat, verificationFunction: Address, raw: seq<Byte>,
                         bridge: Address, epochLength: nat, site: Site, s: State, ev: Events, t: Address, to: Address,
                         x: Evidence)
    requires CanRegister(cfg, hub, c, verificationFunction, raw, epochLength)
    requires cfg.VerifierAt(verificationFunction) == FAKE
    requires t in s.ledger.erc20 && t != site.native.origin && s.ledger.erc20[t].decimals <= 18
    requires to != 0 && to != site.self && ev.chainId == site.chainId && ev.locked != ev.burned
    requires var hub' := AfterStranger(cfg, hub, c, verificationFunction, raw, bridge, epochLength);
      var d := BridgeOpenWorld.DrainingBurn(site, s, RegistryOf(hub'), c, t, to);
      && Fits(d) && x.receipt == Encode(ReceiptItem(BridgeOpenWorld.LoneReceipt(ev, d, 0)))
      && cfg.crypto.keccak(x.receipt) !in s.used
    ensures var hub' := AfterStranger(cfg, hub, c, verificationFunction, raw, bridge, epochLength);
      var d := BridgeOpenWorld.DrainingBurn(site, s, RegistryOf(hub'), c, t, to);
      var r := WithdrawReceipt(site, s, RegistryOf(hub'), ev, BridgeOpenWorld.LoneReceipt(ev, d, 0),
                               cfg.crypto.keccak(x.receipt), Verdict(cfg, hub', x), true);
      && d.contract == bridge && r.Ok? && t in r.value.ledger.erc20
      && BalanceOf(r.value.ledger.erc20[t].balances, site.self) == 0
  {
    var hub' := AfterStranger(cfg, hub, c, verificationFunction, raw, bridge, epochLength);
    FakeChainIsTrusted(cfg, hub, c, verificationFunction, raw, bridge, epochLength, x);
    BridgeOpenWorld.StrangerDrains(site, s, RegistryOf(hub'), ev, c, t, to, 0, cfg.crypto.keccak(x.receipt),
                                   Verdict(cfg, hub', x), true);
  }
}
