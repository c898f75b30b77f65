/** The relayer's proofs against the contract's checks, across the two languages. */
module RelayerAgreement {
  import opened Bytes
  import opened Header
  import opened Rlp
  import opened HeaderWalk
  import opened PoSaBlockVerifier
  import opened SealedHeaders
  import opened ParliaBlockVerifier
  import opened ValidatorHistory
  import opened Quorum
  import opened Relayer
  import opened Wrappers

  /** Half the order of the curve secp256k1. */
  const HALF_ORDER := 0x7FFFFFFFFFFFFFFFFFFFFFFFFFFFFFFF5D576E7357A4501DDFE92F46681B20A0

  /** The second number of the signature is at most half the order. */
  predicate LowSignature(rs: seq<Byte>)
    requires |rs| == 64
  {
    BE(rs[32..]) <= HALF_ORDER
  }

  predicate LowSeal(seal: seq<Byte>)
    requires |seal| == EXTRA_SEAL
  {
    LowSignature(seal[..64])
  }

  /** As sealers write it: recovery byte 0 or 1, and low. */
  predicate CanonicalSeal(seal: seq<Byte>)
    requires |seal| == EXTRA_SEAL
  {
    seal[64] <= 1 && LowSeal(seal)
  }

  /** Both sides hash alike. The signer the client recovers from a low signature with recovery byte 0 or 1 the
      contract's library recovers with 27 or 28, unless it is address 0; and the library refuses signatures that are
      not low. */
  ghost predicate SameCrypto(client: Client, c: Crypto) {
    && (forall s :: client.keccak(s) == c.keccak(s))
    && (forall w, rs, v: Byte, a ::
          |rs| == 64 && LowSignature(rs) && v <= 1 && a != 0 && client.ecrecover(w, rs + [v]) == Some(a) ==>
          c.recover(w, rs + [27 + v]) == Some(a))
    && (forall w, rs, v: Byte :: |rs| == 64 && !LowSignature(rs) ==> c.recover(w, rs + [v]) == None)
  }

  function SealOf(h: Header): (r: seq<Byte>)
    requires |h.extra| >= EXTRA_SEAL
    ensures |r| == EXTRA_SEAL
  {
    h.extra[|h.extra| - EXTRA_SEAL..]
  }

  /** A header either side can handle: at most 65535 bytes, room for vanity and seal, a 64-bit number. */
  predicate Ordinary(h: Header) {
    WellSized(h) && |EncodeHeader(h)| <= 65535 && |h.extra| >= EXTRA_VANITY + EXTRA_SEAL && 0 < h.number < Pow256(8)
  }

  /** Sealed canonically by an account other than address 0. */
  predicate CanonicallySealed(h: Header)
    requires |h.extra| >= EXTRA_SEAL
  {
    CanonicalSeal(SealOf(h)) && BE(h.coinbase) != 0
  }

  /** The contract recovers the same signer as the relayer: the bytes it splices together are the
      bytes the relayer encodes. So it accepts every canonically sealed header the relayer accepts. */
  lemma ContractAcceptsHeader(client: Client, c: Crypto, h: Header, chainId: nat, epochLength: nat)
    requires SameCrypto(client, c) && Ordinary(h) && CanonicallySealed(h) && chainId < Pow256(8) && epochLength > 0
    requires RecoverBlockSigner(client, h, chainId) == Some(BE(h.coinbase))
    ensures var r := VerifiedHeader(c, h, chainId, epochLength);
      && r.Ok? && r.value.header.coinbase == BE(h.coinbase) && r.value.header.blockNumber == h.number
      && r.value.header.parentHash == BE(h.parentHash) && r.value.header.blockHash == c.keccak(EncodeHeader(h))
  {
    SmallNumber(h);
    SameSealer(client, c, h, chainId);
    AcceptsEpochBlock(h, epochLength);
    AcceptedParts(c, h, chainId, epochLength, BE(h.coinbase));
  }

  lemma SmallNumber(h: Header)
    requires Ordinary(h)
    ensures h.number % Pow256(8) == h.number < Pow256(32)
  {
    Pow256Monotone(8, 32);
    SmallRemainder(h.number, Pow256(8));
  }

  lemma AcceptedParts(c: Crypto, h: Header, chainId: nat, epochLength: nat, sealer: Address)
    requires |h.extra| >= EXTRA_SEAL && h.number % Pow256(8) == h.number < Pow256(32)
    requires SealerOf(c, h, chainId) == Ok(sealer) && EpochValidators(h, epochLength).Ok?
    ensures var r := VerifiedHeader(c, h, chainId, epochLength);
      && r.Ok? && r.value.header.coinbase == sealer && r.value.header.blockNumber == h.number
      && r.value.header.parentHash == BE(h.parentHash) && r.value.header.blockHash == c.keccak(EncodeHeader(h))
  {
  }

  lemma SameSealer(client: Client, c: Crypto, h: Header, chainId: nat)
    requires SameCrypto(client, c) && Ordinary(h) && CanonicallySealed(h) && chainId < Pow256(8)
    requires h.number % Pow256(8) == h.number
    requires RecoverBlockSigner(client, h, chainId) == Some(BE(h.coinbase))
    ensures SealerOf(c, h, chainId) == Ok(BE(h.coinbase))
  {
    Pow256Monotone(8, 32);
    SpliceIsEncoding(h, chainId);
    SameRecovery(client, c, EncodeSigHeader(h, chainId), SealOf(h), BE(h.coinbase));
  }

  lemma SameRecovery(client: Client, c: Crypto, signed: seq<Byte>, seal: seq<Byte>, a: Address)
    requires SameCrypto(client, c) && |seal| == EXTRA_SEAL && CanonicalSeal(seal) && a != 0
    requires client.ecrecover(client.keccak(signed), seal) == Some(a)
    ensures c.recover(c.keccak(signed), SealWithRecoveryByte(seal)) == Some(a)
  {
    var rs, v := seal[..64], seal[64];
    assert seal == rs + [v];
    RecoveryByte(rs, v);
    assert c.recover(c.keccak(signed), rs + [27 + v]) == Some(a);
  }

  /** With recovery byte 0 or 1 it accepts such a header if and only if the seal is low: the relayer's
      recovery takes high seals, too. */
  lemma OnlyLowSealsAreAccepted(client: Client, c: Crypto, h: Header, chainId: nat, epochLength: nat)
    requires SameCrypto(client, c) && Ordinary(h) && SealOf(h)[64] <= 1 && BE(h.coinbase) != 0
    requires chainId < Pow256(8) && epochLength > 0
    requires RecoverBlockSigner(client, h, chainId) == Some(BE(h.coinbase))
    ensures VerifiedHeader(c, h, chainId, epochLength).Ok? <==> LowSeal(SealOf(h))
    ensures !LowSeal(SealOf(h)) ==> VerifiedHeader(c, h, chainId, epochLength) == Revert("invalid signature")
  {
    if LowSeal(SealOf(h)) {
      ContractAcceptsHeader(client, c, h, chainId, epochLength);
    } else {
      HighSealIsRefused(client, c, h, chainId, epochLength);
    }
  }

  lemma HighSealIsRefused(client: Client, c: Crypto, h: Header, chainId: nat, epochLength: nat)
    requires SameCrypto(client, c) && Ordinary(h) && !LowSeal(SealOf(h))
    ensures VerifiedHeader(c, h, chainId, epochLength) == Revert("invalid signature")
  {
    SmallNumber(h);
    NotRecovered(client, c, SplicedHeader(h, chainId), SealOf(h));
  }

  lemma NotRecovered(client: Client, c: Crypto, signed: seq<Byte>, seal: seq<Byte>)
    requires SameCrypto(client, c) && |seal| == EXTRA_SEAL && !LowSeal(seal)
    ensures c.recover(c.keccak(signed), SealWithRecoveryByte(seal)) == None
  {
    var rs, v := seal[..64], seal[64];
    assert seal == rs + [v];
    RecoveryByte(rs, v);
    assert !LowSignature(rs);
  }

  lemma AcceptsEpochBlock(h: Header, epochLength: nat)
    requires Ordinary(h) && epochLength > 0
    ensures EpochValidators(h, epochLength).Ok?
  {
    HeaderLayout(h);
    if h.number % Pow256(8) % epochLength == 0 {
      ValidatorListsAgree(h, epochLength);
    }
  }

  /** The reader behaves like the parser of PoSaBlockVerifier on the header. */
  ghost predicate Reads(read: HeaderReader, c: Crypto, chainId: nat, epochLength: nat, h: Header) {
    read(chainId, EncodeHeader(h), epochLength) == VerifiedHeader(c, h, chainId, epochLength)
  }

  /** An ordinary header, canonically sealed, read as specified and accepted by the relayer. */
  ghost predicate AcceptedBoth(client: Client, c: Crypto, read: HeaderReader, chainId: nat, epochLength: nat,
                               h: Header)
  {
    && Ordinary(h) && CanonicallySealed(h) && Reads(read, c, chainId, epochLength, h)
    && RecoverBlockSigner(client, h, chainId) == Some(BE(h.coinbase))
  }

  /** Such headers, each linked to the one before. */
  ghost predicate LinkedHeaders(client: Client, c: Crypto, read: HeaderReader, chainId: nat, epochLength: nat,
                                headers: seq<Header>) {
    && (forall i :: 0 <= i < |headers| ==> AcceptedBoth(client, c, read, chainId, epochLength, headers[i]))
    && (forall i :: 1 <= i < |headers| ==> BE(headers[i].parentHash) == c.keccak(EncodeHeader(headers[i - 1])))
  }

  lemma FrontIsLinked(client: Client, c: Crypto, read: HeaderReader, chainId: nat, epochLength: nat,
                      headers: seq<Header>, k: nat)
    requires k <= |headers| && LinkedHeaders(client, c, read, chainId, epochLength, headers)
    ensures LinkedHeaders(client, c, read, chainId, epochLength, headers[..k])
  {
  }

  /** The contract's view of a header it accepts. */
  function Parsed(c: Crypto, h: Header, chainId: nat, epochLength: nat): ParsedHeader {
    match VerifiedHeader(c, h, chainId, epochLength)
    case Ok(p) => p
    case Revert(_) => NO_HEADER
  }

  function ParsedAll(c: Crypto, headers: seq<Header>, chainId: nat, epochLength: nat): (r: seq<ParsedHeader>)
    ensures |r| == |headers|
    ensures headers != [] ==>
      && r[0] == Parsed(c, headers[0], chainId, epochLength)
      && r[|r| - 1] == Parsed(c, headers[|headers| - 1], chainId, epochLength)
  {
    if headers == [] then []
    else
      var n := |headers| - 1;
      ParsedAll(c, headers[..n], chainId, epochLength) + [Parsed(c, headers[n], chainId, epochLength)]
  }

  /** The contract reads the whole list: every header is accepted and every link check passes. */
  lemma {:induction false} ContractReadsChain(client: Client, c: Crypto, read: HeaderReader, chainId: nat,
                                              epochLength: nat, headers: seq<Header>)
    requires SameCrypto(client, c) && chainId < Pow256(8) && epochLength > 0
    requires LinkedHeaders(client, c, read, chainId, epochLength, headers)
    ensures ReadChain(read, chainId, EncodeHeaders(headers), epochLength) ==
      Ok(ParsedAll(c, headers, chainId, epochLength))
    ensures Coinbases(ParsedAll(c, headers, chainId, epochLength)) == Sealers(headers)
  {
    if headers != [] {
      var n := |headers| - 1;
      FrontIsLinked(client, c, read, chainId, epochLength, headers, n);
      ContractReadsChain(client, c, read, chainId, epochLength, headers[..n]);
      ContractAcceptsHeader(client, c, headers[n], chainId, epochLength);
      if n > 0 {
        ContractAcceptsHeader(client, c, headers[n - 1], chainId, epochLength);
      }
      OneMoreRead(c, read, chainId, epochLength, headers);
    }
  }

  lemma OneMoreRead(c: Crypto, read: HeaderReader, chainId: nat, epochLength: nat, headers: seq<Header>)
    requires headers != []
    requires var n := |headers| - 1;
      && ReadChain(read, chainId, EncodeHeaders(headers[..n]), epochLength) ==
           Ok(ParsedAll(c, headers[..n], chainId, epochLength))
      && Coinbases(ParsedAll(c, headers[..n], chainId, epochLength)) == Sealers(headers[..n])
      && read(chainId, EncodeHeader(headers[n]), epochLength) == Ok(Parsed(c, headers[n], chainId, epochLength))
      && Parsed(c, headers[n], chainId, epochLength).header.coinbase == BE(headers[n].coinbase)
      && (n > 0 ==>
            Parsed(c, headers[n], chainId, epochLength).header.parentHash ==
              Parsed(c, headers[n - 1], chainId, epochLength).header.blockHash)
    ensures ReadChain(read, chainId, EncodeHeaders(headers), epochLength) ==
      Ok(ParsedAll(c, headers, chainId, epochLength))
    ensures Coinbases(ParsedAll(c, headers, chainId, epochLength)) == Sealers(headers)
  {
    var n := |headers| - 1;
    var proofs, all := EncodeHeaders(headers), ParsedAll(c, headers, chainId, epochLength);
    assert proofs[..n] == EncodeHeaders(headers[..n]) && proofs[n] == EncodeHeader(headers[n]);
    assert all[..n] == ParsedAll(c, headers[..n], chainId, epochLength);
  }

  /** The contract's verdict on a non-empty linked list of an epoch e + 1, whoever sealed it: the quorum
      check of its sealers by epoch e decides. */
  lemma ContractVerdict(client: Client, c: Crypto, read: HeaderReader, chainId: nat, epochLength: nat,
                        headers: seq<Header>, v: History, e: nat)
    requires SameCrypto(client, c) && chainId < Pow256(8) && epochLength > 0
    requires headers != [] && LinkedHeaders(client, c, read, chainId, epochLength, headers)
    requires headers[0].number == (e + 1) * epochLength
    ensures VerifiedTransition(read, chainId, EncodeHeaders(headers), epochLength, v) ==
      QuorumVerdict(CheckQuorum(v, Sealers(headers), e), Parsed(c, headers[0], chainId, epochLength).validators, e + 1)
  {
    ContractReadsChain(client, c, read, chainId, epochLength, headers);
    FirstNumber(client, c, read, chainId, epochLength, headers);
    var chain := ParsedAll(c, headers, chainId, epochLength);
    VerdictOnFirst(read, chainId, EncodeHeaders(headers), epochLength, v, chain, e);
  }

  lemma FirstNumber(client: Client, c: Crypto, read: HeaderReader, chainId: nat, epochLength: nat, headers: seq<Header>)
    requires SameCrypto(client, c) && chainId < Pow256(8) && epochLength > 0
    requires headers != [] && LinkedHeaders(client, c, read, chainId, epochLength, headers)
    ensures ParsedAll(c, headers, chainId, epochLength)[0].header.blockNumber == headers[0].number
  {
    ContractAcceptsHeader(client, c, headers[0], chainId, epochLength);
  }

  function QuorumVerdict(quorum: Result<bool>, validators: seq<Address>, epoch: nat): Result<(seq<Address>, nat)> {
    var reached :- quorum;
    if reached then Ok((validators, epoch)) else Revert("quorum not reached")
  }

  lemma VerdictOnFirst(read: HeaderReader, chainId: nat, proofs: seq<seq<Byte>>, epochLength: nat, v: History,
                       chain: seq<ParsedHeader>, e: nat)
    requires chain != [] && epochLength > 0
    requires ReadChain(read, chainId, proofs, epochLength) == Ok(chain)
    requires chain[0].header.blockNumber == (e + 1) * epochLength
    ensures VerifiedTransition(read, chainId, proofs, epochLength, v) ==
      QuorumVerdict(CheckQuorum(v, Coinbases(chain), e), chain[0].validators, e + 1)
  {
    FirstOfEpoch(chain[0].header.blockNumber, epochLength, e + 1);
    assert Before(e + 1) == e;
  }

  /** Every block the node answers with is what the network accepts: ordinary, canonically sealed, read as
      specified, under its number and on top of the block before. */
  ghost predicate ServesChain(client: Client, c: Crypto, read: HeaderReader, chainId: nat, epochLength: nat) {
    forall n: nat, h :: n > 0 && client.blockByNumber(n) == Some(h) ==>
      && Ordinary(h) && CanonicallySealed(h) && Reads(read, c, chainId, epochLength, h) && h.number == n
      && FollowsBlock(c, client.blockByNumber(n - 1), h)
  }

  ghost predicate FollowsBlock(c: Crypto, parent: Option<Header>, h: Header) {
    parent.Some? ==> BE(h.parentHash) == c.keccak(EncodeHeader(parent.value))
  }

  lemma ServedBlock(client: Client, c: Crypto, read: HeaderReader, chainId: nat, epochLength: nat, n: nat, h: Header)
    requires ServesChain(client, c, read, chainId, epochLength) && n > 0 && IsSealedBlock(client, chainId, n, h)
    ensures AcceptedBoth(client, c, read, chainId, epochLength, h) && h.number == n
  {
  }

  lemma ServedLink(client: Client, c: Crypto, read: HeaderReader, chainId: nat, epochLength: nat, n: nat,
                   parent: Header, h: Header)
    requires ServesChain(client, c, read, chainId, epochLength)
    requires IsSealedBlock(client, chainId, n, parent) && IsSealedBlock(client, chainId, n + 1, h)
    ensures BE(h.parentHash) == c.keccak(EncodeHeader(parent))
  {
    assert client.blockByNumber(n + 1 - 1) == Some(parent);
    assert FollowsBlock(c, client.blockByNumber(n + 1 - 1), h);
  }

  /** The blocks the relayer collects are a linked list then. */
  lemma ServedIsLinked(client: Client, c: Crypto, read: HeaderReader, chainId: nat, epochLength: nat,
                       epochBlock: nat, headers: seq<Header>)
    requires ServesChain(client, c, read, chainId, epochLength) && epochBlock > 0
    requires ConsecutiveBlocks(client, chainId, epochBlock, headers)
    ensures LinkedHeaders(client, c, read, chainId, epochLength, headers)
    ensures headers != [] ==> headers[0].number == epochBlock
  {
    forall i | 0 <= i < |headers|
      ensures AcceptedBoth(client, c, read, chainId, epochLength, headers[i]) && headers[i].number == epochBlock + i
    {
      ServedBlock(client, c, read, chainId, epochLength, epochBlock + i, headers[i]);
    }
    forall i | 1 <= i < |headers|
      ensures BE(headers[i].parentHash) == c.keccak(EncodeHeader(headers[i - 1]))
    {
      assert IsSealedBlock(client, chainId, epochBlock + (i - 1), headers[i - 1]);
      assert IsSealedBlock(client, chainId, epochBlock + i, headers[i]);
      ServedLink(client, c, read, chainId, epochLength, epochBlock + (i - 1), headers[i - 1], headers[i]);
    }
  }

  /** The verdict on the encodings of consecutive sealed blocks of the node. */
  lemma ServedVerdict(client: Client, c: Crypto, read: HeaderReader, chainId: nat, epochLength: nat, first: nat,
                      headers: seq<Header>, v: History, e: nat)
    requires SameCrypto(client, c) && chainId < Pow256(8) && epochLength > 0
    requires ServesChain(client, c, read, chainId, epochLength) && first == (e + 1) * epochLength
    requires headers != [] && ConsecutiveBlocks(client, chainId, first, headers)
    ensures VerifiedTransition(read, chainId, EncodeHeaders(headers), epochLength, v) ==
      QuorumVerdict(CheckQuorum(v, Sealers(headers), e), Parsed(c, headers[0], chainId, epochLength).validators, e + 1)
  {
    AtLeastOnce(e + 1, epochLength);
    ServedIsLinked(client, c, read, chainId, epochLength, first, headers);
    ContractVerdict(client, c, read, chainId, epochLength, headers, v, e);
  }

  /** Relayer and contract together: what `createBlockProofs` returns for the first blocks of epoch e + 1,
      whatever number of sealers it waited for, gets the verdict of the quorum check by epoch e on its
      sealers. Where no index of e's set is out of range it is accepted if and only if the members of the
      set among the sealers are two thirds, rounded down. */
  lemma CollectedProofsAreAccepted(client: Client, c: Crypto, read: HeaderReader, chainId: nat, epochLength: nat,
                                   first: nat, required: nat, proofs: seq<seq<Byte>>, v: History, e: nat)
    returns (headers: seq<Header>)
    requires SameCrypto(client, c) && chainId < Pow256(8) && epochLength > 0
    requires ServesChain(client, c, read, chainId, epochLength) && first == (e + 1) * epochLength
    requires AreProofs(client, chainId, first, epochLength, required, proofs)
    ensures IsProofChain(client, chainId, first, epochLength, required, headers)
    ensures proofs == EncodeHeaders(headers)
    ensures var verdict := VerifiedTransition(read, chainId, proofs, epochLength, v);
      && verdict == QuorumVerdict(CheckQuorum(v, Sealers(headers), e),
                                  Parsed(c, headers[0], chainId, epochLength).validators, e + 1)
      && (!OutOfRange(v, v.SetAt(e), e) ==>
          (verdict.Ok? <==> |Members(Sealers(headers)) * v.SetAt(e)| >= Threshold(v.CountAt(e))))
  {
    headers :| IsProofChain(client, chainId, first, epochLength, required, headers) &&
      proofs == EncodeHeaders(headers);
    ServedVerdict(client, c, read, chainId, epochLength, first, headers, v, e);
    SealersCounted(v, Sealers(headers), e);
  }

  lemma SealersCounted(v: History, sealers: seq<Address>, e: nat)
    ensures !OutOfRange(v, v.SetAt(e), e) ==>
      CheckQuorum(v, sealers, e) == Ok(|Members(sealers) * v.SetAt(e)| >= Threshold(v.CountAt(e)))
    ensures Members(sealers) <= v.SetAt(e) ==> Members(sealers) * v.SetAt(e) == Members(sealers)
  {
    if !OutOfRange(v, v.SetAt(e), e) {
      InRangeNeverReverts(v, sealers, e);
    }
  }

  lemma {:induction false} SealerAt(headers: seq<Header>, i: nat)
    requires i < |headers|
    ensures Sealers(headers)[i] == BE(headers[i].coinbase)
    decreases |headers|
  {
    var n := |headers| - 1;
    if i < n {
      SealerAt(headers[..n], i);
    }
  }

  /** The blocks of the epoch that starts with `first` are sealed by members of the set. */
  ghost predicate SealedByMembers(client: Client, chainId: nat, first: nat, epochLength: nat, members: set<Address>) {
    forall n: nat, h :: first <= n < first + epochLength && IsSealedBlock(client, chainId, n, h) ==>
      BE(h.coinbase) in members
  }

  lemma SealersAreMembers(client: Client, chainId: nat, first: nat, epochLength: nat, headers: seq<Header>,
                          members: set<Address>)
    requires SealedByMembers(client, chainId, first, epochLength, members) && |headers| <= epochLength
    requires ConsecutiveBlocks(client, chainId, first, headers)
    ensures Members(Sealers(headers)) <= members
  {
    forall i | 0 <= i < |headers|
      ensures Sealers(headers)[i] in members
    {
      SealerAt(headers, i);
      assert IsSealedBlock(client, chainId, first + i, headers[i]);
    }
  }

  /** Where members of the recorded set seal the blocks, and the relayer waits for as many sealers as the
      contract, all that it collects is accepted. */
  lemma MembersProofsAreAccepted(client: Client, c: Crypto, read: HeaderReader, chainId: nat, epochLength: nat,
                                 first: nat, required: nat, proofs: seq<seq<Byte>>, v: History, e: nat)
    requires SameCrypto(client, c) && chainId < Pow256(8) && epochLength > 0
    requires ServesChain(client, c, read, chainId, epochLength) && first == (e + 1) * epochLength
    requires AreProofs(client, chainId, first, epochLength, required, proofs)
    requires SealedByMembers(client, chainId, first, epochLength, v.SetAt(e)) && !OutOfRange(v, v.SetAt(e), e)
    requires required >= Threshold(v.CountAt(e))
    ensures VerifiedTransition(read, chainId, proofs, epochLength, v).Ok?
  {
    var headers := CollectedProofsAreAccepted(client, c, read, chainId, epochLength, first, required, proofs, v, e);
    SealersAreMembers(client, chainId, first, epochLength, headers, v.SetAt(e));
    SealersCounted(v, Sealers(headers), e);
  }

  lemma FrontVerdict(client: Client, c: Crypto, read: HeaderReader, chainId: nat, epochLength: nat, first: nat,
                     headers: seq<Header>, v: History, e: nat, k: nat)
    requires SameCrypto(client, c) && chainId < Pow256(8) && epochLength > 0
    requires ServesChain(client, c, read, chainId, epochLength) && first == (e + 1) * epochLength
    requires 0 < k < |headers| && ConsecutiveBlocks(client, chainId, first, headers)
    ensures VerifiedTransition(read, chainId, EncodeHeaders(headers)[..k], epochLength, v) ==
      QuorumVerdict(CheckQuorum(v, Sealers(headers[..k]), e),
                    Parsed(c, headers[0], chainId, epochLength).validators, e + 1)
  {
    FrontConsecutive(client, chainId, first, headers, k);
    FrontEncoded(headers, k);
    ServedVerdict(client, c, read, chainId, epochLength, first, headers[..k], v, e);
  }

  /** No shorter non-empty prefix of the collected proofs is accepted, if the relayer waits for no more
      sealers than the contract. */
  lemma ShorterProofsAreRefused(client: Client, c: Crypto, read: HeaderReader, chainId: nat, epochLength: nat,
                                first: nat, required: nat, headers: seq<Header>, v: History, e: nat, k: nat)
    requires SameCrypto(client, c) && chainId < Pow256(8) && epochLength > 0
    requires ServesChain(client, c, read, chainId, epochLength) && first == (e + 1) * epochLength
    requires IsProofChain(client, chainId, first, epochLength, required, headers)
    requires 0 < k < |headers| && required <= Threshold(v.CountAt(e))
    ensures var verdict := VerifiedTransition(read, chainId, EncodeHeaders(headers)[..k], epochLength, v);
      verdict.Revert? && (!OutOfRange(v, v.SetAt(e), e) ==> verdict == Revert("quorum not reached"))
  {
    PrefixBelow(headers, required, k);
    FrontVerdict(client, c, read, chainId, epochLength, first, headers, v, e, k);
    FewSealers(v, Sealers(headers[..k]), e);
  }

  /** Relayer and hub together: where the block before the epoch lists the validators that are recorded for it, and
      these seal the epoch's blocks, what createBlockProofs returns is accepted, and nothing shorter is: the relayer
      waits for exactly as many sealers as the hub wants. */
  lemma RelayerWaitsExactly(client: Client, c: Crypto, read: HeaderReader, chainId: nat, epochLength: nat, first: nat,
                            v: History, e: nat, list: seq<Address>, required: nat, proofs: seq<seq<Byte>>)
    requires SameCrypto(client, c) && chainId < Pow256(8) && epochLength > 0
    requires ServesChain(client, c, read, chainId, epochLength) && first == (e + 1) * epochLength
    requires RequiredSealers(client, first - epochLength) == Ok((list, required))
    requires v.SetAt(e) == Members(list) && v.CountAt(e) == |list| && !OutOfRange(v, v.SetAt(e), e)
    requires SealedByMembers(client, chainId, first, epochLength, v.SetAt(e))
    requires AreProofs(client, chainId, first, epochLength, required, proofs)
    ensures VerifiedTransition(read, chainId, proofs, epochLength, v).Ok?
    ensures forall k: nat :: 0 < k < |proofs| ==>
      VerifiedTransition(read, chainId, proofs[..k], epochLength, v) == Revert("quorum not reached")
  {
    MembersProofsAreAccepted(client, c, read, chainId, epochLength, first, required, proofs, v, e);
    var headers := CollectedProofsAreAccepted(client, c, read, chainId, epochLength, first, required, proofs, v, e);
    forall k: nat | 0 < k < |proofs|
      ensures VerifiedTransition(read, chainId, proofs[..k], epochLength, v) == Revert("quorum not reached")
    {
      ShorterProofsAreRefused(client, c, read, chainId, epochLength, first, required, headers, v, e, k);
    }
  }

  lemma FrontConsecutive(client: Client, chainId: nat, first: nat, headers: seq<Header>, k: nat)
    requires k <= |headers| && ConsecutiveBlocks(client, chainId, first, headers)
    ensures ConsecutiveBlocks(client, chainId, first, headers[..k])
  {
    forall i | 0 <= i < k
      ensures IsSealedBlock(client, chainId, first + i, headers[..k][i])
    {
      assert IsSealedBlock(client, chainId, first + i, headers[i]);
    }
  }

  lemma FewSealers(v: History, sealers: seq<Address>, e: nat)
    requires |Members(sealers)| < Threshold(v.CountAt(e))
    ensures CheckQuorum(v, sealers, e) != Ok(true)
    ensures !OutOfRange(v, v.SetAt(e), e) ==> CheckQuorum(v, sealers, e) == Ok(false)
  {
    SealersCounted(v, sealers, e);
    SubsetSize(Signers(v, sealers, e), Members(sealers));
  }

  lemma {:induction false} FrontEncoded(headers: seq<Header>, k: nat)
    requires k <= |headers|
    ensures EncodeHeaders(headers)[..k] == EncodeHeaders(headers[..k])
    decreases |headers|
  {
    if k < |headers| {
      var n := |headers| - 1;
      FrontEncoded(headers[..n], k);
      assert headers[..n][..k] == headers[..k];
      assert EncodeHeaders(headers)[..k] == EncodeHeaders(headers[..n])[..k];
    } else {
      assert headers[..k] == headers;
    }
  }

  lemma PrefixBelow(headers: seq<Header>, required: nat, k: nat)
    requires 0 < k < |headers| && StopsAtQuorum(headers, required)
    ensures |Members(Sealers(headers[..k]))| < required
  {
    var front := headers[..|headers| - 1];
    assert front[..k] == headers[..k];
  }

  // ---------- what a quorum of headers has signed ----------

  /** The seal of the header is a signature by a of the list that sealers sign. */
  predicate SignedBy(c: Crypto, h: Header, chainId: nat, a: Address) {
    |h.extra| >= EXTRA_SEAL && SealIsOf(c, a, c.keccak(EncodeSigHeader(h, chainId)), SealOf(h))
  }

  lemma AcceptedIsSigned(c: Crypto, h: Header, chainId: nat, epochLength: nat)
    requires Ordinary(h) && chainId < Pow256(8) && VerifiedHeader(c, h, chainId, epochLength).Ok?
    ensures SignedBy(c, h, chainId, VerifiedHeader(c, h, chainId, epochLength).value.header.coinbase)
  {
    SmallNumber(h);
    Pow256Monotone(8, 32);
    SpliceIsEncoding(h, chainId);
    SealerSigned(c, h, chainId);
  }

  lemma SealerSigned(c: Crypto, h: Header, chainId: nat)
    requires |h.extra| >= EXTRA_SEAL && SealerOf(c, h, chainId).Ok? && h.number % Pow256(8) != 0
    requires SplicedHeader(h, chainId) == EncodeSigHeader(h, chainId)
    ensures SignedBy(c, h, chainId, SealerOf(c, h, chainId).value)
  {
    SealRecovers(c, SealerOf(c, h, chainId).value, c.keccak(EncodeSigHeader(h, chainId)), SealOf(h));
  }

  /** Where the shipped parser reads ordinary headers, a quorum check of their list for epoch e means that
      two thirds of its count, rounded down, are members of its set, and each of them signed one of the
      headers: the signed bytes are the plain list that sealers sign. */
  lemma {:induction false} QuorumSigned(c: Crypto, read: HeaderReader, chainId: nat, epochLength: nat,
                                        headers: seq<Header>, chain: seq<ParsedHeader>, v: History, e: nat)
    requires chainId < Pow256(8)
    requires forall i :: 0 <= i < |headers| ==> Ordinary(headers[i]) && Reads(read, c, chainId, epochLength, headers[i])
    requires ReadChain(read, chainId, EncodeHeaders(headers), epochLength) == Ok(chain)
    requires CheckQuorum(v, Coinbases(chain), e) == Ok(true)
    ensures |Signers(v, Coinbases(chain), e)| >= Threshold(v.CountAt(e))
    ensures forall a :: a in Signers(v, Coinbases(chain), e) ==>
      a in v.SetAt(e) && exists i :: 0 <= i < |headers| && SignedBy(c, headers[i], chainId, a)
  {
    AcceptedListHoldsMembers(v, Coinbases(chain), e);
    forall a | a in Signers(v, Coinbases(chain), e)
      ensures exists i :: 0 <= i < |headers| && SignedBy(c, headers[i], chainId, a)
    {
      var i :| 0 <= i < |chain| && Coinbases(chain)[i] == a;
      ItemSigned(c, read, chainId, epochLength, headers, chain, i);
    }
  }

  lemma {:induction false} EncodedAt(headers: seq<Header>, i: nat)
    requires i < |headers|
    ensures EncodeHeaders(headers)[i] == EncodeHeader(headers[i])
    decreases |headers|
  {
    var n := |headers| - 1;
    if i < n {
      EncodedAt(headers[..n], i);
    }
  }

  lemma {:induction false} ItemSigned(c: Crypto, read: HeaderReader, chainId: nat, epochLength: nat,
                                      headers: seq<Header>, chain: seq<ParsedHeader>, i: nat)
    requires chainId < Pow256(8) && i < |headers|
    requires Ordinary(headers[i]) && Reads(read, c, chainId, epochLength, headers[i])
    requires ReadChain(read, chainId, EncodeHeaders(headers), epochLength) == Ok(chain)
    ensures |chain| == |headers| && SignedBy(c, headers[i], chainId, chain[i].header.coinbase)
  {
    EncodedAt(headers, i);
    ItemIsRead(read, chainId, EncodeHeaders(headers), epochLength, i);
    AcceptedIsSigned(c, headers[i], chainId, epochLength);
  }

  /** The seal found in the raw bytes is a signature by a of the bytes put together from them. */
  predicate RawSignedBy(c: Crypto, raw: seq<Byte>, chainId: nat, a: Address) {
    var walked := WalkedFields(raw, PayloadOffset(raw, 0));
    walked.Ok? && PartsSignedBy(c, RawSigned(raw, 0, walked.value, chainId), a)
  }

  predicate PartsSignedBy(c: Crypto, signed: Result<(seq<Byte>, seq<Byte>)>, a: Address)
    requires signed.Ok? ==> |signed.value.1| == EXTRA_SEAL
  {
    signed.Ok? && SealIsOf(c, a, c.keccak(signed.value.0), signed.value.1)
  }

  lemma {:induction false} RecoveredIsSigner(c: Crypto, f: RawFields, signed: Result<(seq<Byte>, seq<Byte>)>,
                                             a: Address)
    requires signed.Ok? ==> |signed.value.1| == EXTRA_SEAL
    requires SealerFromParts(c, f.number, f.coinbase, signed) == Ok(a) && a != 0
    ensures PartsSignedBy(c, signed, a)
  {
    SealRecovers(c, a, c.keccak(signed.value.0), signed.value.1);
  }

  lemma {:induction false} AssembledSealer(hash: Word, f: RawFields, sealer: Result<Address>,
                                           validators: Result<seq<Address>>)
    requires Assembled(hash, f, sealer, validators).Ok?
    ensures sealer == Ok(Assembled(hash, f, sealer, validators).value.header.coinbase)
  {
  }

  lemma {:induction false} AcceptedRawIsSigned(c: Crypto, raw: seq<Byte>, chainId: nat, epochLength: nat, f: RawFields,
                                               a: Address)
    requires VerifiedRaw(c, raw, 0, |raw|, chainId, epochLength).Ok? && a != 0
    requires VerifiedRaw(c, raw, 0, |raw|, chainId, epochLength).value.header.coinbase == a
    requires WalkedFields(raw, 0 + PayloadOffset(raw, 0)) == Ok(f)
    ensures PartsSignedBy(c, RawSigned(raw, 0, f, chainId), a)
  {
    var signed := RawSigned(raw, 0, f, chainId);
    var sealer := SealerFromParts(c, f.number, f.coinbase, signed);
    AssembledSealer(c.keccak(raw[0..0 + |raw|]), f, sealer, RawValidators(raw, f, epochLength));
    RecoveredIsSigner(c, f, signed, a);
  }

  /** The same for arbitrary raw headers, canonical or not: each member that counts has signed the bytes spliced
      together from one of them. A block 0 is sealed by nobody and counts for address 0. */
  lemma {:induction false} RawQuorumSigned(c: Crypto, chainId: nat, epochLength: nat, proofs: seq<seq<Byte>>,
                                           chain: seq<ParsedHeader>, v: History, e: nat)
    requires ReadChain(ShippedReader(c), chainId, proofs, epochLength) == Ok(chain)
    requires CheckQuorum(v, Coinbases(chain), e) == Ok(true)
    ensures |Signers(v, Coinbases(chain), e)| >= Threshold(v.CountAt(e))
    ensures forall a :: a in Signers(v, Coinbases(chain), e) ==>
      a in v.SetAt(e) && (a != 0 ==> exists i :: 0 <= i < |proofs| && RawSignedBy(c, proofs[i], chainId, a))
  {
    AcceptedListHoldsMembers(v, Coinbases(chain), e);
    forall a | a in Signers(v, Coinbases(chain), e) && a != 0
      ensures exists i :: 0 <= i < |proofs| && RawSignedBy(c, proofs[i], chainId, a)
    {
      var i :| 0 <= i < |chain| && Coinbases(chain)[i] == a;
      ItemIsRead(ShippedReader(c), chainId, proofs, epochLength, i);
      AcceptedRawIsSigned(c, proofs[i], chainId, epochLength,
                          WalkedFields(proofs[i], PayloadOffset(proofs[i], 0)).value, a);
    }
  }
}
