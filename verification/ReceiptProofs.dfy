/** `checkReceiptProof`: from a registered chain's headers down to one receipt in a block. */
module ReceiptProofs {
  import opened Bytes
  import opened Header
  import opened RlpReader
  import opened Trie
  import opened MerklePatriciaProof
  import opened TrieProofs
  import opened PoSaBlockVerifier
  import opened ParliaBlockVerifier
  import opened ValidatorHistory
  import opened Quorum
  import opened HubSpec
  import opened SealedHeaders
  import opened Wrappers

  /** `checkReceiptProof` of a verification function. */
  function ReceiptVerdict(keccak: Keccak, verifier: Verifier, rawReceipt: seq<Byte>, root: nat, mem: seq<Byte>,
                          siblings: RLPItem, path: seq<Byte>): Result<bool> {
    match verifier
    case Parlia(_) => Verified(keccak, keccak(rawReceipt), path, mem, siblings, root)
    case Other(_, _, _, receipt) => receipt(rawReceipt, root, mem, siblings, path)
  }

  /** The receipt is looked up under the receipts root of the first header of a verified list. */
  ghost function CheckedReceipt(cfg: Config, hub: Hub, chainId: nat, blockProofs: seq<seq<Byte>>, rawReceipt: seq<Byte>,
                                mem: seq<Byte>, siblings: RLPItem, path: seq<Byte>): Result<bool> {
    var chain := hub.ChainOf(chainId);
    if chain.status != Active then Revert("not active")
    else
      var verifier := cfg.VerifierAt(chain.verificationFunction);
      var first :- verifier.Blocks(hub, chainId, blockProofs, chain.epochLength);
      ReceiptVerdict(cfg.crypto.keccak, verifier, rawReceipt, first.header.receiptsRoot, mem, siblings, path)
  }

  /** The epoch whose quorum a list of headers has to reach: the one before its first header's. */
  function QuorumEpoch(chain: seq<ParsedHeader>, epochLength: nat): Option<nat>
    requires epochLength > 0 && chain != []
  {
    var e := EpochOf(chain[0].header.blockNumber, epochLength);
    if e == 0 then None else Some(Before(e))
  }

  /** The headers are linked, and unless the first one is of epoch 0, two thirds, rounded down, of what
      was counted for the epoch before are members of that epoch's set who sealed one of them. */
  ghost predicate Endorsed(read: HeaderReader, chainId: nat, blockProofs: seq<seq<Byte>>, epochLength: nat,
                           v: History, chain: seq<ParsedHeader>) {
    && epochLength > 0 && chain != []
    && ReadAs(read, chainId, blockProofs, epochLength, chain) && Linked(chain)
    && match QuorumEpoch(chain, epochLength)
       case None => true
       case Some(e) => |Signers(v, Coinbases(chain), e)| >= Threshold(v.CountAt(e))
  }

  /** One of the headers was sealed by a member of the set recorded for epoch e. */
  ghost predicate SealedByMember(v: History, chain: seq<ParsedHeader>, e: nat) {
    exists a :: a in Coinbases(chain) && a in v.SetAt(e)
  }

  lemma VerifiedIsEndorsed(read: HeaderReader, chainId: nat, blockProofs: seq<seq<Byte>>, epochLength: nat, v: History)
    returns (chain: seq<ParsedHeader>)
    requires blockProofs != [] && VerifiedBlocks(read, chainId, blockProofs, epochLength, v).Ok?
    ensures Endorsed(read, chainId, blockProofs, epochLength, v, chain)
    ensures ReadChain(read, chainId, blockProofs, epochLength) == Ok(chain)
    ensures VerifiedBlocks(read, chainId, blockProofs, epochLength, v).value == chain[0]
    ensures match QuorumEpoch(chain, epochLength)
            case None => true
            case Some(e) => v.CountAt(e) >= 2 ==> SealedByMember(v, chain, e)
  {
    chain := ReadChain(read, chainId, blockProofs, epochLength).value;
    ReadExactlyIfLinked(read, chainId, blockProofs, epochLength, chain);
    CheckedFirstHasQuorum(chain[0], Coinbases(chain), epochLength, v);
    var e := QuorumEpoch(chain, epochLength);
    if e.Some? {
      AcceptedListHoldsMembers(v, Coinbases(chain), e.value);
    }
  }

  /** An accepted receipt proof of a chain that ParliaBlockVerifier checks means: the chain is Active, the headers
      are linked and endorsed, some member sealed one of them if two or more members were counted, and the
      receipts trie of the first header, in which no value has the length of a hash, holds exactly these
      bytes under the proved key. */
  lemma AcceptedReceiptIsCommitted(cfg: Config, hub: Hub, chainId: nat, blockProofs: seq<seq<Byte>>,
                                   rawReceipt: seq<Byte>, mem: seq<Byte>, siblings: RLPItem, path: seq<Byte>, t: Node,
                                   strings: set<seq<Byte>>)
    returns (chain: seq<ParsedHeader>)
    requires blockProofs != [] && cfg.VerifierAt(hub.ChainOf(chainId).verificationFunction).Parlia?
    requires CheckedReceipt(cfg, hub, chainId, blockProofs, rawReceipt, mem, siblings, path) == Ok(true)
    requires NoCollision(cfg.crypto.keccak, strings) && rawReceipt in strings && CoversParts(strings, DecodePath(path))
    requires CoversNodes(strings, mem, ItemsOf(mem, siblings))
    requires Shaped(t) && Covers(strings, cfg.crypto.keccak, t) && NoWordStored(t) && |rawReceipt| > 32
    ensures var bas, v := hub.ChainOf(chainId), hub.HistoryOf(chainId);
      && bas.status == Active
      && Endorsed(cfg.Reader(bas.verificationFunction), chainId, blockProofs, bas.epochLength, v, chain)
      && match QuorumEpoch(chain, bas.epochLength)
         case None => true
         case Some(e) => v.CountAt(e) >= 2 ==> SealedByMember(v, chain, e)
    ensures cfg.crypto.keccak(NodeBytes(cfg.crypto.keccak, t)) == chain[0].header.receiptsRoot ==>
      Lookup(t, DecodePath(path)) == Some(rawReceipt)
  {
    var bas := hub.ChainOf(chainId);
    chain := VerifiedIsEndorsed(cfg.Reader(bas.verificationFunction), chainId, blockProofs, bas.epochLength,
                                hub.HistoryOf(chainId));
    NothingFollowed(cfg.crypto.keccak, t, DecodePath(path));
    LookedUp(cfg.crypto.keccak, strings, t, rawReceipt, path, mem, siblings, chain[0].header.receiptsRoot);
  }

  /** Without any header the root is 0, and no quorum is asked for: nothing is accepted then, unless a node
      hashes to 0. */
  lemma NoHeadersProveNothing(cfg: Config, hub: Hub, chainId: nat, rawReceipt: seq<Byte>, mem: seq<Byte>,
                              siblings: RLPItem, path: seq<Byte>)
    requires cfg.VerifierAt(hub.ChainOf(chainId).verificationFunction).Parlia?
    requires forall node :: node in ItemsOf(mem, siblings) ==> cfg.crypto.keccak(ToRlpBytes(mem, node)) != 0
    ensures CheckedReceipt(cfg, hub, chainId, [], rawReceipt, mem, siblings, path) != Ok(true)
  {
    var bas, nodes := hub.ChainOf(chainId), ItemsOf(mem, siblings);
    var read := cfg.Reader(bas.verificationFunction);
    assert ReadChain(read, chainId, [], bas.epochLength) == Ok([]);
    if nodes != [] {
      assert nodes[0] in nodes;
      NotTheKey(cfg.crypto.keccak, mem, nodes, 0, DecodePath(path), cfg.crypto.keccak(rawReceipt));
    }
  }

  lemma NotTheKey(keccak: Keccak, mem: seq<Byte>, nodes: seq<RLPItem>, key: nat, path: seq<Byte>, value: nat)
    requires nodes != [] && keccak(ToRlpBytes(mem, nodes[0])) != key
    ensures Walk(keccak, mem, nodes, key, path, 0, value) == Ok(false)
  {
  }

  /** Headers sealed by strangers only: they are taken at their word exactly if the first one is of
      epoch 0 or the epoch before it has a count of 0 (it was never recorded, say) or 1. */
  lemma StrangersVerdict(read: HeaderReader, chainId: nat, blockProofs: seq<seq<Byte>>, epochLength: nat, v: History,
                         chain: seq<ParsedHeader>)
    requires epochLength > 0 && chain != [] && ReadChain(read, chainId, blockProofs, epochLength) == Ok(chain)
    requires match QuorumEpoch(chain, epochLength)
             case None => true
             case Some(e) => !SealedByMember(v, chain, e)
    ensures VerifiedBlocks(read, chainId, blockProofs, epochLength, v) ==
      match QuorumEpoch(chain, epochLength)
      case None => Ok(chain[0])
      case Some(e) => if v.CountAt(e) <= 1 then Ok(chain[0]) else Revert("quorum not reached")
  {
    var e := QuorumEpoch(chain, epochLength);
    if e.Some? {
      StrangersAreAccepted(v, Coinbases(chain), e.value);
    }
  }

  /** The hub's verdict on a receipt under such headers: the trie proof alone decides, against a root of
      the strangers' choice, exactly in those cases. */
  lemma StrangersReceipt(cfg: Config, hub: Hub, chainId: nat, blockProofs: seq<seq<Byte>>, rawReceipt: seq<Byte>,
                         mem: seq<Byte>, siblings: RLPItem, path: seq<Byte>, chain: seq<ParsedHeader>)
    requires var bas, v := hub.ChainOf(chainId), hub.HistoryOf(chainId);
      && bas.status == Active && bas.epochLength > 0 && chain != []
      && cfg.VerifierAt(bas.verificationFunction).Parlia?
      && ReadChain(cfg.Reader(bas.verificationFunction), chainId, blockProofs, bas.epochLength) == Ok(chain)
      && match QuorumEpoch(chain, bas.epochLength)
         case None => true
         case Some(e) => !SealedByMember(v, chain, e)
    ensures CheckedReceipt(cfg, hub, chainId, blockProofs, rawReceipt, mem, siblings, path) ==
      var trusted := match QuorumEpoch(chain, hub.ChainOf(chainId).epochLength)
        case None => true
        case Some(e) => hub.HistoryOf(chainId).CountAt(e) <= 1;
      if trusted then
        Verified(cfg.crypto.keccak, cfg.crypto.keccak(rawReceipt), path, mem, siblings, chain[0].header.receiptsRoot)
      else Revert("quorum not reached")
  {
    var bas := hub.ChainOf(chainId);
    StrangersVerdict(cfg.Reader(bas.verificationFunction), chainId, blockProofs, bas.epochLength,
                     hub.HistoryOf(chainId), chain);
  }

  /** The headers of epoch e + 1 that are accepted. */
  ghost predicate AcceptedInEpoch(read: HeaderReader, chainId: nat, blockProofs: seq<seq<Byte>>, epochLength: nat,
                                  v: History, e: nat, chain: seq<ParsedHeader>) {
    && chain != [] && ReadChain(read, chainId, blockProofs, epochLength) == Ok(chain)
    && VerifiedBlocks(read, chainId, blockProofs, epochLength, v).Ok?
    && QuorumEpoch(chain, epochLength) == Some(e)
  }

  lemma AcceptedTookMember(read: HeaderReader, chainId: nat, blockProofs: seq<seq<Byte>>, epochLength: nat, v: History,
                           e: nat, chain: seq<ParsedHeader>)
    requires epochLength > 0 && AcceptedInEpoch(read, chainId, blockProofs, epochLength, v, e, chain)
    requires v.CountAt(e) >= 2
    ensures SealedByMember(v, chain, e)
  {
    var same := VerifiedIsEndorsed(read, chainId, blockProofs, epochLength, v);
    assert same == chain;
  }

  /** With the shipped parser, and someone outside the set of e who has a key: acceptance in epoch e + 1 is
      sure to take a member of the set if and only if e has a count of two or more. */
  lemma AcceptanceNamesMember(c: Crypto, read: HeaderReader, chainId: nat, epochLength: nat, v: History, e: nat,
                              outsider: Address)
    requires epochLength > 0 && (e + 1) * epochLength < Pow256(8) && ReadsAll(read, c, chainId, epochLength)
    requires CanSign(c, outsider) && IsAddress(outsider) && outsider !in v.SetAt(e)
    ensures (forall blockProofs, chain :: AcceptedInEpoch(read, chainId, blockProofs, epochLength, v, e, chain) ==>
              SealedByMember(v, chain, e))
      <==> v.CountAt(e) >= 2
  {
    if v.CountAt(e) >= 2 {
      forall blockProofs, chain | AcceptedInEpoch(read, chainId, blockProofs, epochLength, v, e, chain)
        ensures SealedByMember(v, chain, e)
      {
        AcceptedTookMember(read, chainId, blockProofs, epochLength, v, e, chain);
      }
    } else {
      var first := (e + 1) * epochLength;
      AtLeastOnce(e + 1, epochLength);
      FirstOfEpoch(first, epochLength, e + 1);
      var raw, p := OutsidersHeader(c, read, chainId, epochLength, v, e, outsider, first, 0);
      assert AcceptedInEpoch(read, chainId, [raw], epochLength, v, e, [p]);
    }
  }

  /** The outsider's header of epoch e + 1 is accepted, with any receipts root, if the count of e is below
      two. */
  lemma OutsidersHeader(c: Crypto, read: HeaderReader, chainId: nat, epochLength: nat, v: History, e: nat,
                        outsider: Address, number: nat, root: Word)
    returns (raw: seq<Byte>, p: ParsedHeader)
    requires epochLength > 0 && 0 < number < Pow256(8) && EpochOf(number, epochLength) == e + 1
    requires ReadsAll(read, c, chainId, epochLength) && v.CountAt(e) <= 1
    requires CanSign(c, outsider) && IsAddress(outsider) && outsider !in v.SetAt(e)
    ensures read(chainId, raw, epochLength) == Ok(p) && ReadChain(read, chainId, [raw], epochLength) == Ok([p])
    ensures exists h: Header :: IsEncoding(raw, h) && VerifiedHeader(c, h, chainId, epochLength) == Ok(p)
    ensures p.header.receiptsRoot == root && p.header.coinbase == outsider && p.header.blockNumber == number
    ensures VerifiedBlocks(read, chainId, [raw], epochLength, v) == Ok(p) && QuorumEpoch([p], epochLength) == Some(e)
  {
    var h := AnyoneSeals(c, outsider, chainId, epochLength, number, 0, root, []);
    raw, p := EncodeHeader(h), VerifiedHeader(c, h, chainId, epochLength).value;
    assert IsEncoding(raw, h);
    OneHeader(read, chainId, raw, epochLength, p);
    assert Before(e + 1) == e;
    StrangersVerdict(read, chainId, [raw], epochLength, v, [p]);
  }

  lemma SmallAddress(a: Address)
    requires a < 256
    ensures IsAddress(a)
  {
    Pow256Values();
    Pow256Monotone(1, 20);
  }

  lemma SevenSigns(c: Crypto)
    requires forall w, s :: c.recover(w, s) == Some(7)
    ensures CanSign(c, 7)
  {
    forall w: Word
      ensures CanSeal(c, 7, w)
    {
      assert Signs(c, 7, w, FixedBE(0, 64), 27);
    }
  }

  lemma SevensHeader(c: Crypto, v: History, root: Word) returns (raw: seq<Byte>, p: ParsedHeader)
    requires CanSign(c, 7) && v.CountAt(999) <= 1 && 7 !in v.SetAt(999)
    ensures exists h: Header :: IsEncoding(raw, h) && VerifiedHeader(c, h, 56, 200) == Ok(p)
    ensures p.header.receiptsRoot == root && p.header.coinbase == 7 && p.header.blockNumber == 200_000
    ensures VerifiedBlocks(ShippedReader(c), 56, [raw], 200, v) == Ok(p)
  {
    ShippedReads(c, 56, 200);
    assert EpochOf(200_000, 200) == 1000;
    Pow256Values();
    SmallAddress(7);
    raw, p := OutsidersHeader(c, ShippedReader(c), 56, 200, v, 999, 7, 200_000, root);
  }

  /** A concrete case: two validators are recorded for epoch 1, and address 7, which is not one of them but
      has a key, seals block 200000. With 200 blocks to an epoch the hub takes the header as the shipped
      parser reads it, with any receipts root. */
  lemma FarAheadHeaderIsTrusted(root: Word) returns (c: Crypto, v: History, raw: seq<Byte>, p: ParsedHeader)
    ensures CanSign(c, 7) && v.latest == 1 && v.SetAt(1) == {5, 6} && v.CountAt(1) == 2
    ensures exists h: Header :: IsEncoding(raw, h) && VerifiedHeader(c, h, 56, 200) == Ok(p)
    ensures p.header.receiptsRoot == root && p.header.coinbase == 7 && p.header.blockNumber == 200_000
    ensures VerifiedBlocks(ShippedReader(c), 56, [raw], 200, v) == Ok(p)
  {
    c := Crypto(_ => 0, (_, _) => Some(7));
    v := History([5, 6], map[1 := {5, 6}], map[1 := 2], map[], 1);
    SevenSigns(c);
    raw, p := SevensHeader(c, v, root);
  }

  /** FakeBlockVerifier: on an Active chain that uses it every receipt is good, whatever headers and nodes
      come with it. */
  lemma FakeVerifierAcceptsAnything(cfg: Config, hub: Hub, chainId: nat, blockProofs: seq<seq<Byte>>,
                                    rawReceipt: seq<Byte>, mem: seq<Byte>, siblings: RLPItem, path: seq<Byte>)
    requires cfg.VerifierAt(hub.ChainOf(chainId).verificationFunction) == FAKE
    ensures CheckedReceipt(cfg, hub, chainId, blockProofs, rawReceipt, mem, siblings, path) ==
      if hub.ChainOf(chainId).status == Active then Ok(true) else Revert("not active")
  {
  }

  lemma LookedUp(keccak: Keccak, strings: set<seq<Byte>>, t: Node, v: seq<Byte>, path: seq<Byte>, mem: seq<Byte>,
                 siblings: RLPItem, root: nat)
    requires NoCollision(keccak, strings) && v in strings && CoversParts(strings, DecodePath(path))
    requires CoversNodes(strings, mem, ItemsOf(mem, siblings))
    requires Shaped(t) && Covers(strings, keccak, t) && |v| > 32 && !EndOf(keccak, t, DecodePath(path)).Followed?
    requires Verified(keccak, keccak(v), path, mem, siblings, root) == Ok(true)
    ensures root == keccak(NodeBytes(keccak, t)) ==> Lookup(t, DecodePath(path)) == Some(v)
  {
    if root == keccak(NodeBytes(keccak, t)) {
      AcceptedProofIsSound(keccak, strings, t, v, path, mem, siblings);
    }
  }
}
