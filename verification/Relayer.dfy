/** The relayer (relayer/parlia.go, relayer/proof.go): it reads validator lists and collects block
    proofs until the previous epoch's quorum is reached. */
module Relayer {
  import opened Bytes
  import opened RlpIntegers
  import opened Header
  import opened PoSaBlockVerifier
  import opened ValidatorHistory
  import opened Quorum
  import opened Wrappers

  const ADDRESS_LENGTH := 20

  /** The validators in the extra data, and whether the relayer reads them at all. */
  function RelayerValidators(extra: seq<Byte>): Result<seq<Address>> {
    if |extra| < EXTRA_VANITY + EXTRA_SEAL then Revert("slice bounds out of range")
    else if (|extra| - EXTRA_VANITY - EXTRA_SEAL) % ADDRESS_LENGTH != 0 then Revert("bad parlia block")
    else Ok(ListedValidators(extra, (|extra| - EXTRA_VANITY - EXTRA_SEAL) / ADDRESS_LENGTH))
  }

  lemma SliceOfSlice(s: seq<Byte>, p: nat, q: nat, a: nat, b: nat)
    requires p <= q <= |s| && a <= b <= q - p
    ensures s[p..q][a..b] == s[p + a..p + b]
  {
    var inner := s[p..q];
    assert forall k :: a <= k < b ==> inner[k] == s[p + k];
    assert |inner[a..b]| == |s[p + a..p + b]|;
    forall k | 0 <= k < b - a
      ensures inner[a..b][k] == s[p + a..p + b][k]
    {
      assert inner[a..b][k] == inner[a + k];
    }
  }

  /** `extractParliaValidators`: the list and the set of its members. */
  method ExtractParliaValidators(extra: seq<Byte>) returns (r: Result<(seq<Address>, set<Address>)>)
    ensures r.Revert? ==> RelayerValidators(extra) == Revert(r.reason)
    ensures r.Ok? ==> RelayerValidators(extra) == Ok(r.value.0) && r.value.1 == Members(r.value.0)
  {
    if |extra| < EXTRA_VANITY + EXTRA_SEAL {
      return Revert("slice bounds out of range");
    }
    var validatorBytes := extra[EXTRA_VANITY..|extra| - EXTRA_SEAL];
    if |validatorBytes| % ADDRESS_LENGTH != 0 {
      return Revert("bad parlia block");
    }
    var n := |validatorBytes| / ADDRESS_LENGTH;
    var result: seq<Address> := [];
    var mapping: set<Address> := {};
    for i := 0 to n
      invariant |result| == i && mapping == Members(result)
      invariant forall j :: 0 <= j < i ==> result[j] == BE(extra[EXTRA_VANITY + 20 * j..EXTRA_VANITY + 20 * j + 20])
    {
      SliceOfSlice(extra, EXTRA_VANITY, |extra| - EXTRA_SEAL, ADDRESS_LENGTH * i, ADDRESS_LENGTH * i + ADDRESS_LENGTH);
      var address := BE(validatorBytes[ADDRESS_LENGTH * i..ADDRESS_LENGTH * i + ADDRESS_LENGTH]);
      result := result + [address];
      mapping := mapping + {address};
    }
    assert result == ListedValidators(extra, n);
    return Ok((result, mapping));
  }

  /** The two languages agree on every list the relayer reads: the contract's count formula is off by
      less than one address. For a list with a remainder the relayer refuses, the contract reads on. */
  lemma ValidatorListsAgree(h: Header, epochLength: nat)
    requires |h.extra| >= EXTRA_VANITY + EXTRA_SEAL && |h.extra| < 0x1_0000
    requires epochLength > 0 && h.number % Pow256(8) % epochLength == 0
    ensures EpochValidators(h, epochLength).Ok?
    ensures RelayerValidators(h.extra).Ok? ==> EpochValidators(h, epochLength) == RelayerValidators(h.extra)
    ensures var k := (|h.extra| - EXTRA_VANITY - EXTRA_SEAL) / ADDRESS_LENGTH;
      var r := (|h.extra| - EXTRA_VANITY - EXTRA_SEAL) % ADDRESS_LENGTH;
      |EpochValidators(h, epochLength).value| == if r >= (if |h.extra| < 256 then 16 else 14) then k + 1 else k
  {
    var p := 1 + UintRlpPrefixLength(|h.extra|);
    assert p == if |h.extra| < 256 then 2 else 3;
  }

  // ---------- block proofs ----------

  /** The node's answers, and the relayer's hash function and public-key recovery; the seal is used as it
      stands. Negative block numbers are asked for when an epoch block is below the epoch length. */
  datatype Client = Client(blockByNumber: int -> Option<Header>, keccak: seq<Byte> -> Word,
                           ecrecover: (Word, seq<Byte>) -> Option<Address>)

  /** `recoverParliaBlockSigner`. */
  function RecoverBlockSigner(client: Client, h: Header, chainId: nat): Option<Address> {
    if |h.extra| < EXTRA_SEAL then None
    else client.ecrecover(client.keccak(EncodeSigHeader(h, chainId)), h.extra[|h.extra| - EXTRA_SEAL..])
  }

  function Sealers(headers: seq<Header>): (r: seq<Address>)
    ensures |r| == |headers|
  {
    if headers == [] then [] else Sealers(headers[..|headers| - 1]) + [BE(headers[|headers| - 1].coinbase)]
  }

  function EncodeHeaders(headers: seq<Header>): (r: seq<seq<Byte>>)
    ensures |r| == |headers|
  {
    if headers == [] then [] else EncodeHeaders(headers[..|headers| - 1]) + [EncodeHeader(headers[|headers| - 1])]
  }

  /** Block number n exists and is sealed by its coinbase. */
  ghost predicate IsSealedBlock(client: Client, chainId: nat, n: nat, h: Header) {
    client.blockByNumber(n) == Some(h) && RecoverBlockSigner(client, h, chainId) == Some(BE(h.coinbase))
  }

  /** The headers are the consecutive blocks from epochBlock on, each sealed by its coinbase. */
  ghost predicate ConsecutiveBlocks(client: Client, chainId: nat, epochBlock: nat, headers: seq<Header>) {
    forall i :: 0 <= i < |headers| ==> IsSealedBlock(client, chainId, epochBlock + i, headers[i])
  }

  /** No non-empty prefix has enough distinct sealers. */
  ghost predicate BelowQuorum(headers: seq<Header>, required: nat) {
    forall k :: 0 < k <= |headers| ==> |Members(Sealers(headers[..k]))| < required
  }

  /** The last block completes the quorum, no earlier one does. */
  ghost predicate StopsAtQuorum(headers: seq<Header>, required: nat) {
    && |Members(Sealers(headers))| >= required
    && (headers != [] ==> BelowQuorum(headers[..|headers| - 1], required))
  }

  lemma OneMoreHeader(headers: seq<Header>, h: Header)
    ensures Members(Sealers(headers + [h])) == Members(Sealers(headers)) + {BE(h.coinbase)}
    ensures EncodeHeaders(headers + [h]) == EncodeHeaders(headers) + [EncodeHeader(h)]
  {
    assert (headers + [h])[..|headers|] == headers;
  }

  lemma StillBelow(headers: seq<Header>, h: Header, required: nat)
    requires BelowQuorum(headers, required) && |Members(Sealers(headers + [h]))| < required
    ensures BelowQuorum(headers + [h], required)
  {
    var all := headers + [h];
    forall k | 0 < k <= |all|
      ensures |Members(Sealers(all[..k]))| < required
    {
      if k == |all| {
        assert all[..k] == all;
      } else {
        assert all[..k] == headers[..k];
      }
    }
  }

  /** What the loop has collected from its headers. */
  ghost predicate Collected(client: Client, chainId: nat, epochBlock: nat, headers: seq<Header>,
                            proofs: seq<seq<Byte>>, sealers: set<Address>) {
    && proofs == EncodeHeaders(headers) && sealers == Members(Sealers(headers))
    && ConsecutiveBlocks(client, chainId, epochBlock, headers)
  }

  lemma CollectOne(client: Client, chainId: nat, epochBlock: nat, headers: seq<Header>, proofs: seq<seq<Byte>>,
                   sealers: set<Address>, h: Header)
    requires Collected(client, chainId, epochBlock, headers, proofs, sealers)
    requires IsSealedBlock(client, chainId, epochBlock + |headers|, h)
    ensures Collected(client, chainId, epochBlock, headers + [h], proofs + [EncodeHeader(h)],
                      sealers + {BE(h.coinbase)})
  {
    OneMoreHeader(headers, h);
    var all := headers + [h];
    forall i | 0 <= i < |all|
      ensures IsSealedBlock(client, chainId, epochBlock + i, all[i])
    {
      if i < |headers| {
        assert all[i] == headers[i];
      }
    }
  }

  lemma QuorumCompleted(headers: seq<Header>, h: Header, required: nat)
    requires BelowQuorum(headers, required) && |Members(Sealers(headers + [h]))| >= required
    ensures StopsAtQuorum(headers + [h], required)
  {
    assert (headers + [h])[..|headers|] == headers;
  }

  /** The headers are what the relayer should collect: consecutive sealed blocks up to the quorum, at
      most one epoch of them. */
  ghost predicate IsProofChain(client: Client, chainId: nat, epochBlock: nat, epochLength: nat, required: nat,
                               headers: seq<Header>) {
    && |headers| <= epochLength && (epochLength > 0 ==> headers != [])
    && ConsecutiveBlocks(client, chainId, epochBlock, headers) && StopsAtQuorum(headers, required)
  }

  ghost predicate HasProofChain(client: Client, chainId: nat, epochBlock: nat, epochLength: nat, required: nat) {
    exists headers :: IsProofChain(client, chainId, epochBlock, epochLength, required, headers)
  }

  /** The proofs are the encodings of a proof chain. */
  ghost predicate AreProofs(client: Client, chainId: nat, epochBlock: nat, epochLength: nat, required: nat,
                            proofs: seq<seq<Byte>>) {
    exists headers :: IsProofChain(client, chainId, epochBlock, epochLength, required, headers) &&
      proofs == EncodeHeaders(headers)
  }

  /** There is one block per number, so a proof chain no longer than the headers is a prefix of them. */
  lemma {:induction false} ChainIsPrefix(client: Client, chainId: nat, epochBlock: nat, headers: seq<Header>,
                                         chain: seq<Header>)
    requires ConsecutiveBlocks(client, chainId, epochBlock, headers) &&
      ConsecutiveBlocks(client, chainId, epochBlock, chain)
    requires |chain| <= |headers|
    ensures chain == headers[..|chain|]
  {
    forall i | 0 <= i < |chain|
      ensures chain[i] == headers[..|chain|][i]
    {
      assert IsSealedBlock(client, chainId, epochBlock + i, headers[i]) &&
        IsSealedBlock(client, chainId, epochBlock + i, chain[i]);
    }
  }

  /** There is no sealed block number n. */
  ghost predicate NoBlock(client: Client, chainId: nat, n: nat) {
    forall h :: !IsSealedBlock(client, chainId, n, h)
  }

  /** Headers below the quorum that cannot be continued, or fill the epoch, rule out a proof chain. */
  lemma {:induction false} NoProofChain(client: Client, chainId: nat, epochBlock: nat, epochLength: nat,
                                        required: nat, headers: seq<Header>)
    requires ConsecutiveBlocks(client, chainId, epochBlock, headers) && BelowQuorum(headers, required) &&
      |headers| <= epochLength
    requires |headers| == epochLength || NoBlock(client, chainId, epochBlock + |headers|)
    requires |Members(Sealers(headers))| < required || epochLength > 0
    ensures !HasProofChain(client, chainId, epochBlock, epochLength, required)
  {
    forall chain
      ensures !IsProofChain(client, chainId, epochBlock, epochLength, required, chain)
    {
      NotAProofChain(client, chainId, epochBlock, epochLength, required, headers, chain);
    }
  }

  lemma {:induction false} NotAProofChain(client: Client, chainId: nat, epochBlock: nat, epochLength: nat,
                                          required: nat, headers: seq<Header>, chain: seq<Header>)
    requires ConsecutiveBlocks(client, chainId, epochBlock, headers) && BelowQuorum(headers, required) &&
      |headers| <= epochLength
    requires |headers| == epochLength || NoBlock(client, chainId, epochBlock + |headers|)
    requires |Members(Sealers(headers))| < required || epochLength > 0
    ensures !IsProofChain(client, chainId, epochBlock, epochLength, required, chain)
  {
    if ConsecutiveBlocks(client, chainId, epochBlock, chain) {
      if |chain| > |headers| {
        LongerChain(client, chainId, epochBlock, |headers|, chain);
      } else {
        ChainIsPrefix(client, chainId, epochBlock, headers, chain);
        ShorterChain(headers, |chain|, required);
      }
    }
  }

  lemma {:induction false} LongerChain(client: Client, chainId: nat, epochBlock: nat, n: nat, chain: seq<Header>)
    requires ConsecutiveBlocks(client, chainId, epochBlock, chain) && |chain| > n
    ensures !NoBlock(client, chainId, epochBlock + n)
  {
    assert IsSealedBlock(client, chainId, epochBlock + n, chain[n]);
  }

  lemma {:induction false} ShorterChain(headers: seq<Header>, k: nat, required: nat)
    requires BelowQuorum(headers, required) && k <= |headers|
    ensures k > 0 ==> !StopsAtQuorum(headers[..k], required)
    ensures |headers| == 0 && |Members(Sealers(headers))| < required ==> !StopsAtQuorum(headers[..k], required)
  {
    if |headers| == 0 {
      assert headers[..k] == headers;
    }
  }

  /** Fetches a block and checks its signer. */
  method FetchSealed(client: Client, chainId: nat, n: nat) returns (r: Result<Header>)
    ensures r.Ok? ==> IsSealedBlock(client, chainId, n, r.value)
    ensures r.Revert? ==> NoBlock(client, chainId, n)
  {
    var block := client.blockByNumber(n);
    if block == None {
      return Revert("can't fetch block");
    }
    var signer := RecoverBlockSigner(client, block.value, chainId);
    if signer == None {
      return Revert("bad parlia block");
    }
    if BE(block.value.coinbase) != signer.value {
      return Revert("recovered bad block signer");
    }
    return Ok(block.value);
  }

  /** The validators of the epoch before, and the number of distinct sealers to collect. */
  function RequiredSealers(client: Client, block: int): Result<(seq<Address>, nat)> {
    match client.blockByNumber(block)
    case None => Revert("can't fetch prev epoch block")
    case Some(h) =>
      var list :- RelayerValidators(h.extra);
      Ok((list, Threshold(|list|)))
  }

  /** `createBlockProofs`: the encoded headers of an epoch's first blocks, up to the quorum of the
      epoch before. It succeeds exactly if the blocks are there. */
  method CreateBlockProofs(client: Client, chainId: nat, epochBlock: nat, epochLength: nat)
    returns (r: Result<seq<seq<Byte>>>)
    ensures var required := RequiredSealers(client, epochBlock - epochLength);
      && (r.Ok? <==> required.Ok? && HasProofChain(client, chainId, epochBlock, epochLength, required.value.1))
      && (r.Ok? ==> AreProofs(client, chainId, epochBlock, epochLength, required.value.1, r.value))
  {
    var prevEpochBlock := client.blockByNumber(epochBlock - epochLength);
    if prevEpochBlock == None {
      return Revert("can't fetch prev epoch block");
    }
    var extracted := ExtractParliaValidators(prevEpochBlock.value.extra);
    if extracted.Revert? {
      return Revert(extracted.reason);
    }
    var quorumRequired := |extracted.value.0| * 2 / 3;
    r := CollectBlocks(client, chainId, epochBlock, epochLength, quorumRequired);
  }

  /** The state of the loop: what was collected is below the quorum. */
  ghost predicate Collecting(client: Client, chainId: nat, epochBlock: nat, required: nat, headers: seq<Header>,
                             proofs: seq<seq<Byte>>, sealers: set<Address>)
  {
    Collected(client, chainId, epochBlock, headers, proofs, sealers) && BelowQuorum(headers, required)
  }

  /** One more block either completes a proof chain or leaves the loop below the quorum. */
  lemma {:induction false} CollectStep(client: Client, chainId: nat, epochBlock: nat, epochLength: nat, required: nat,
                                       headers: seq<Header>, proofs: seq<seq<Byte>>, sealers: set<Address>, n: nat,
                                       h: Header)
    requires Collecting(client, chainId, epochBlock, required, headers, proofs, sealers) && |headers| < epochLength
    requires n == epochBlock + |headers| && IsSealedBlock(client, chainId, n, h)
    ensures if |sealers + {BE(h.coinbase)}| >= required
            then AreProofs(client, chainId, epochBlock, epochLength, required, proofs + [EncodeHeader(h)]) &&
                 HasProofChain(client, chainId, epochBlock, epochLength, required)
            else Collecting(client, chainId, epochBlock, required, headers + [h], proofs + [EncodeHeader(h)],
                            sealers + {BE(h.coinbase)})
  {
    CollectOne(client, chainId, epochBlock, headers, proofs, sealers, h);
    if |sealers + {BE(h.coinbase)}| >= required {
      QuorumCompleted(headers, h, required);
      assert IsProofChain(client, chainId, epochBlock, epochLength, required, headers + [h]);
    } else {
      StillBelow(headers, h, required);
    }
  }

  /** A block is missing, and no proof chain can do without it. */
  lemma {:induction false} CollectionStops(client: Client, chainId: nat, epochBlock: nat, epochLength: nat,
                                           required: nat,
                                           headers: seq<Header>, proofs: seq<seq<Byte>>, sealers: set<Address>, n: nat)
    requires Collecting(client, chainId, epochBlock, required, headers, proofs, sealers) && |headers| < epochLength
    requires n == epochBlock + |headers| && NoBlock(client, chainId, n)
    ensures !HasProofChain(client, chainId, epochBlock, epochLength, required)
  {
    NoProofChain(client, chainId, epochBlock, epochLength, required, headers);
  }

  /** The loop is over: with enough sealers it never ran, otherwise there is no proof chain. */
  lemma {:induction false} CollectionEnds(client: Client, chainId: nat, epochBlock: nat, epochLength: nat,
                                          required: nat,
                                          headers: seq<Header>, proofs: seq<seq<Byte>>, sealers: set<Address>)
    requires Collecting(client, chainId, epochBlock, required, headers, proofs, sealers) && |headers| == epochLength
    ensures if |sealers| < required then !HasProofChain(client, chainId, epochBlock, epochLength, required)
            else AreProofs(client, chainId, epochBlock, epochLength, required, proofs) &&
                 HasProofChain(client, chainId, epochBlock, epochLength, required)
  {
    if |sealers| < required {
      NoProofChain(client, chainId, epochBlock, epochLength, required, headers);
    } else {
      QuorumAtOnce(headers, epochLength, required);
      assert IsProofChain(client, chainId, epochBlock, epochLength, required, headers);
    }
  }

  /** The block loop. */
  method CollectBlocks(client: Client, chainId: nat, epochBlock: nat, epochLength: nat, quorumRequired: nat)
    returns (r: Result<seq<seq<Byte>>>)
    ensures r.Ok? <==> HasProofChain(client, chainId, epochBlock, epochLength, quorumRequired)
    ensures r.Ok? ==> AreProofs(client, chainId, epochBlock, epochLength, quorumRequired, r.value)
  {
    ghost var headers: seq<Header> := [];
    var uniqueSigners: set<Address> := {};
    var blockProofs: seq<seq<Byte>> := [];
    var i := epochBlock;
    while i < epochBlock + epochLength
      invariant epochBlock <= i <= epochBlock + epochLength && |headers| == i - epochBlock
      invariant Collecting(client, chainId, epochBlock, quorumRequired, headers, blockProofs, uniqueSigners)
    {
      var fetched := FetchSealed(client, chainId, i);
      if fetched.Revert? {
        CollectionStops(client, chainId, epochBlock, epochLength, quorumRequired, headers, blockProofs, uniqueSigners,
                        i);
        return Revert(fetched.reason);
      }
      var h := fetched.value;
      CollectStep(client, chainId, epochBlock, epochLength, quorumRequired, headers, blockProofs, uniqueSigners, i, h);
      blockProofs := blockProofs + [EncodeHeader(h)];
      uniqueSigners := uniqueSigners + {BE(h.coinbase)};
      headers := headers + [h];
      if |uniqueSigners| >= quorumRequired {
        return Ok(blockProofs);
      }
      i := i + 1;
    }
    CollectionEnds(client, chainId, epochBlock, epochLength, quorumRequired, headers, blockProofs, uniqueSigners);
    if |uniqueSigners| < quorumRequired {
      return Revert("failed to reach quorum");
    }
    r := Ok(blockProofs);
  }

  /** The loop runs out with enough sealers only when it never ran. */
  lemma QuorumAtOnce(headers: seq<Header>, epochLength: nat, required: nat)
    requires |headers| == epochLength && BelowQuorum(headers, required) && |Members(Sealers(headers))| >= required
    ensures headers == [] && StopsAtQuorum(headers, required)
  {
    assert headers[..|headers|] == headers;
  }
}
