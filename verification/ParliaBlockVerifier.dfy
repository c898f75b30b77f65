/** ParliaBlockVerifier.sol: a list of headers, each linked to the one before, signed by a quorum of
    the previous epoch. How one raw header is parsed and its sealer recovered is a parameter;
    PoSaBlockVerifier describes the parser the repository ships. */
module ParliaBlockVerifier {
  import opened Bytes
  import opened Header
  import opened PoSaBlockVerifier
  import opened ValidatorHistory
  import opened Quorum
  import opened Wrappers

  /** Parses a raw header for a chain id and an epoch length. */
  type HeaderReader = (nat, seq<Byte>, nat) -> Result<ParsedHeader>

  const NO_HEADER := ParsedHeader(BlockHeader(0, 0, 0, 0, 0, 0, 0), [])

  /** The epoch of a block. */
  function EpochOf(number: nat, epochLength: nat): nat
    requires epochLength > 0
  {
    number / epochLength
  }

  lemma FirstOfEpoch(number: nat, epochLength: nat, epoch: nat)
    requires epochLength > 0 && number == epoch * epochLength
    ensures EpochOf(number, epochLength) == epoch && number % epochLength == 0
  {
    QuotientIs(number, epochLength, epoch, 0);
  }

  /** The epoch before one that is not the first. */
  function Before(epoch: nat): nat
    requires epoch > 0
  {
    epoch - 1
  }

  /** The parsed headers, when every one after the first names the hash of the one before as its
      parent. */
  function ReadChain(read: HeaderReader, chainId: nat, blockProofs: seq<seq<Byte>>,
                     epochLength: nat): (r: Result<seq<ParsedHeader>>)
    ensures r.Ok? ==> |r.value| == |blockProofs|
  {
    if blockProofs == [] then Ok([])
    else
      var n := |blockProofs| - 1;
      var front :- ReadChain(read, chainId, blockProofs[..n], epochLength);
      var parsed :- read(chainId, blockProofs[n], epochLength);
      if n > 0 && parsed.header.parentHash != front[n - 1].header.blockHash then Revert("bad parent hash")
      else Ok(front + [parsed])
  }

  function Coinbases(chain: seq<ParsedHeader>): (r: seq<Address>)
    ensures |r| == |chain| && forall i :: 0 <= i < |chain| ==> r[i] == chain[i].header.coinbase
  {
    if chain == [] then [] else Coinbases(chain[..|chain| - 1]) + [chain[|chain| - 1].header.coinbase]
  }

  /** The first header of a linked list; when its epoch is not 0, the recovered sealers must reach the
      quorum of the epoch before. */
  ghost function VerifiedBlocks(read: HeaderReader, chainId: nat, blockProofs: seq<seq<Byte>>, epochLength: nat,
                                v: History): (r: Result<ParsedHeader>)
    ensures r.Ok? ==> epochLength > 0
  {
    var chain :- ReadChain(read, chainId, blockProofs, epochLength);
    CheckedFirst(if chain == [] then NO_HEADER else chain[0], Coinbases(chain), epochLength, v)
  }

  ghost function CheckedFirst(first: ParsedHeader, sealers: seq<Address>, epochLength: nat,
                              v: History): (r: Result<ParsedHeader>)
    ensures r.Ok? ==> epochLength > 0
  {
    if epochLength == 0 then Revert("")
    else CheckedInEpoch(first, sealers, EpochOf(first.header.blockNumber, epochLength), v)
  }

  /** Before epoch 0 there are no validators to check. */
  ghost function CheckedInEpoch(first: ParsedHeader, sealers: seq<Address>, epoch: nat,
                                v: History): Result<ParsedHeader> {
    if epoch == 0 then Ok(first) else IfReached(CheckQuorum(v, sealers, Before(epoch)), first)
  }

  function IfReached(quorum: Result<bool>, first: ParsedHeader): Result<ParsedHeader> {
    var reached :- quorum;
    if reached then Ok(first) else Revert("quorum not reached")
  }

  lemma CheckedFirstHasQuorum(first: ParsedHeader, sealers: seq<Address>, epochLength: nat, v: History)
    requires CheckedFirst(first, sealers, epochLength, v).Ok?
    ensures epochLength > 0 && CheckedFirst(first, sealers, epochLength, v).value == first
    ensures EpochOf(first.header.blockNumber, epochLength) > 0 ==>
      CheckQuorum(v, sealers, Before(EpochOf(first.header.blockNumber, epochLength))) == Ok(true)
  {
  }

  /** The new validator set and its epoch, for a list that starts at an epoch block. */
  ghost function VerifiedTransition(read: HeaderReader, chainId: nat, blockProofs: seq<seq<Byte>>, epochLength: nat,
                                    v: History): Result<(seq<Address>, nat)> {
    var first :- VerifiedBlocks(read, chainId, blockProofs, epochLength, v);
    if first.header.blockNumber % epochLength != 0 then Revert("not epoch block")
    else Ok((first.validators, EpochOf(first.header.blockNumber, epochLength)))
  }

  method VerifyBlocksAndReachedQuorum(read: HeaderReader, chainId: nat, blockProofs: seq<seq<Byte>>, epochLength: nat,
                                      h: Storage)
    returns (r: Result<ParsedHeader>)
    requires h.Valid()
    ensures r == VerifiedBlocks(read, chainId, blockProofs, epochLength, h.View())
  {
    var first, blockValidators := LinkBlocks(read, chainId, blockProofs, epochLength);
    var firstBlock :- first;
    r := CheckFirst(firstBlock, blockValidators, epochLength, h);
  }

  /** The quorum check of the first block's previous epoch; there is none before epoch 0. */
  method CheckFirst(firstBlock: ParsedHeader, blockValidators: seq<Address>, epochLength: nat,
                    h: Storage) returns (r: Result<ParsedHeader>)
    requires h.Valid()
    ensures r == CheckedFirst(firstBlock, blockValidators, epochLength, h.View())
  {
    if epochLength == 0 {
      return Revert("");
    }
    r := CheckInEpoch(firstBlock, blockValidators, EpochOf(firstBlock.header.blockNumber, epochLength), h);
  }

  method CheckInEpoch(firstBlock: ParsedHeader, blockValidators: seq<Address>, epochNumber: nat,
                      h: Storage) returns (r: Result<ParsedHeader>)
    requires h.Valid()
    ensures r == CheckedInEpoch(firstBlock, blockValidators, epochNumber, h.View())
  {
    if epochNumber > 0 {
      var reached :- CheckValidatorsAndQuorumReached(h, blockValidators, Before(epochNumber));
      if !reached {
        return Revert("quorum not reached");
      }
    }
    return Ok(firstBlock);
  }

  /** The loop over the headers: parent hashes are compared, sealers collected. */
  method LinkBlocks(read: HeaderReader, chainId: nat, blockProofs: seq<seq<Byte>>, epochLength: nat)
    returns (first: Result<ParsedHeader>, blockValidators: seq<Address>)
    ensures var chain := ReadChain(read, chainId, blockProofs, epochLength);
      if chain.Revert? then first == Revert(chain.reason)
      else
        && first == Ok(if chain.value == [] then NO_HEADER else chain.value[0])
        && blockValidators == Coinbases(chain.value)
  {
    var firstBlock := NO_HEADER;
    blockValidators := [];
    var parentHash: Word := 0;
    ghost var chain: seq<ParsedHeader> := [];
    for i := 0 to |blockProofs|
      invariant ReadChain(read, chainId, blockProofs[..i], epochLength) == Ok(chain)
      invariant blockValidators == Coinbases(chain)
      invariant i > 0 ==> parentHash == chain[i - 1].header.blockHash && firstBlock == chain[0]
      invariant i == 0 ==> firstBlock == NO_HEADER
    {
      assert blockProofs[..i + 1][..i] == blockProofs[..i];
      PrefixReads(read, chainId, blockProofs, epochLength, i + 1);
      var parsed := read(chainId, blockProofs[i], epochLength);
      if parsed.Revert? {
        return Revert(parsed.reason), [];
      }
      if i == 0 {
        firstBlock := parsed.value;
      } else if parsed.value.header.parentHash != parentHash {
        return Revert("bad parent hash"), [];
      }
      blockValidators := blockValidators + [parsed.value.header.coinbase];
      parentHash := parsed.value.header.blockHash;
      chain := chain + [parsed.value];
    }
    assert blockProofs[..|blockProofs|] == blockProofs;
    return Ok(firstBlock), blockValidators;
  }

  /** A list reverts with the first fault of its prefixes, and a good list has good prefixes. */
  lemma {:induction false} PrefixReads(read: HeaderReader, chainId: nat, blockProofs: seq<seq<Byte>>,
                                       epochLength: nat, i: nat)
    requires i <= |blockProofs|
    ensures var all := ReadChain(read, chainId, blockProofs, epochLength);
      var prefix := ReadChain(read, chainId, blockProofs[..i], epochLength);
      && (prefix.Revert? ==> all == prefix)
      && (all.Ok? ==> prefix == Ok(all.value[..i]))
    decreases |blockProofs|
  {
    if i == |blockProofs| {
      assert blockProofs[..i] == blockProofs;
      var all := ReadChain(read, chainId, blockProofs, epochLength);
      assert all.Ok? ==> all.value[..i] == all.value;
    } else {
      var n := |blockProofs| - 1;
      assert blockProofs[..n][..i] == blockProofs[..i];
      PrefixReads(read, chainId, blockProofs[..n], epochLength, i);
      var front := ReadChain(read, chainId, blockProofs[..n], epochLength);
      var all := ReadChain(read, chainId, blockProofs, epochLength);
      if all.Ok? {
        assert all.value[..n] == front.value;
        assert all.value[..i] == front.value[..i];
      }
    }
  }

  /** Every header of a readable list is the reading of its item. */
  lemma ItemIsRead(read: HeaderReader, chainId: nat, blockProofs: seq<seq<Byte>>, epochLength: nat, i: nat)
    requires i < |blockProofs| && ReadChain(read, chainId, blockProofs, epochLength).Ok?
    ensures read(chainId, blockProofs[i], epochLength) ==
      Ok(ReadChain(read, chainId, blockProofs, epochLength).value[i])
  {
    var all, prefix := ReadChain(read, chainId, blockProofs, epochLength).value, blockProofs[..i + 1];
    PrefixReads(read, chainId, blockProofs, epochLength, i + 1);
    assert prefix[i] == blockProofs[i] && all[..i + 1][i] == all[i];
  }

  /** Every header after the first names the hash of the one before as its parent. */
  predicate Linked(chain: seq<ParsedHeader>) {
    forall i :: 1 <= i < |chain| ==> chain[i].header.parentHash == chain[i - 1].header.blockHash
  }

  /** The headers are the readings of the items, one by one. */
  ghost predicate ReadAs(read: HeaderReader, chainId: nat, blockProofs: seq<seq<Byte>>, epochLength: nat,
                         chain: seq<ParsedHeader>) {
    |chain| == |blockProofs| &&
    forall i :: 0 <= i < |blockProofs| ==> read(chainId, blockProofs[i], epochLength) == Ok(chain[i])
  }

  lemma ReadAsFront(read: HeaderReader, chainId: nat, blockProofs: seq<seq<Byte>>, epochLength: nat,
                    chain: seq<ParsedHeader>, n: nat)
    requires |chain| == |blockProofs| == n + 1
    ensures ReadAs(read, chainId, blockProofs, epochLength, chain) <==>
      ReadAs(read, chainId, blockProofs[..n], epochLength, chain[..n]) &&
      read(chainId, blockProofs[n], epochLength) == Ok(chain[n])
    ensures Linked(chain) <==>
      Linked(chain[..n]) && (n > 0 ==> chain[n].header.parentHash == chain[n - 1].header.blockHash)
  {
    if ReadAs(read, chainId, blockProofs[..n], epochLength, chain[..n]) {
      forall i | 0 <= i < n
        ensures read(chainId, blockProofs[i], epochLength) == Ok(chain[i])
      {
        assert blockProofs[..n][i] == blockProofs[i] && chain[..n][i] == chain[i];
      }
    }
    if Linked(chain[..n]) {
      forall i | 1 <= i < n
        ensures chain[i].header.parentHash == chain[i - 1].header.blockHash
      {
        assert chain[..n][i] == chain[i] && chain[..n][i - 1] == chain[i - 1];
      }
    }
  }

  /** A list is read as a chain if and only if every item reads as its header and the headers are linked. */
  lemma {:induction false} ReadExactlyIfLinked(read: HeaderReader, chainId: nat, blockProofs: seq<seq<Byte>>,
                                               epochLength: nat, chain: seq<ParsedHeader>)
    ensures ReadChain(read, chainId, blockProofs, epochLength) == Ok(chain) <==>
      ReadAs(read, chainId, blockProofs, epochLength, chain) && Linked(chain)
  {
    if |blockProofs| == |chain| > 0 {
      var n := |chain| - 1;
      ReadAsFront(read, chainId, blockProofs, epochLength, chain, n);
      ReadExactlyIfLinked(read, chainId, blockProofs[..n], epochLength, chain[..n]);
      assert chain == chain[..n] + [chain[n]];
    }
  }

  /** Items that all read, over a link that is broken, revert. */
  lemma {:induction false} BrokenLinkReverts(read: HeaderReader, chainId: nat, blockProofs: seq<seq<Byte>>,
                                             epochLength: nat, chain: seq<ParsedHeader>)
    requires ReadAs(read, chainId, blockProofs, epochLength, chain) && !Linked(chain)
    ensures ReadChain(read, chainId, blockProofs, epochLength) == Revert("bad parent hash")
  {
    var n := |chain| - 1;
    ReadAsFront(read, chainId, blockProofs, epochLength, chain, n);
    if Linked(chain[..n]) {
      ReadExactlyIfLinked(read, chainId, blockProofs[..n], epochLength, chain[..n]);
    } else {
      BrokenLinkReverts(read, chainId, blockProofs[..n], epochLength, chain[..n]);
    }
  }

  /** So does every list that goes on behind a broken link, whatever it goes on with. */
  lemma BrokenFrontReverts(read: HeaderReader, chainId: nat, blockProofs: seq<seq<Byte>>, epochLength: nat, k: nat,
                           chain: seq<ParsedHeader>)
    requires k <= |blockProofs| && ReadAs(read, chainId, blockProofs[..k], epochLength, chain) && !Linked(chain)
    ensures ReadChain(read, chainId, blockProofs, epochLength) == Revert("bad parent hash")
  {
    BrokenLinkReverts(read, chainId, blockProofs[..k], epochLength, chain);
    PrefixReads(read, chainId, blockProofs, epochLength, k);
  }

  /** A list of one readable header. */
  lemma OneHeader(read: HeaderReader, chainId: nat, raw: seq<Byte>, epochLength: nat, p: ParsedHeader)
    requires read(chainId, raw, epochLength) == Ok(p)
    ensures ReadChain(read, chainId, [raw], epochLength) == Ok([p])
    ensures Coinbases([p]) == [p.header.coinbase]
  {
    var none: seq<seq<Byte>> := [];
    assert [raw][..0] == none && [raw][0] == raw;
    assert ReadChain(read, chainId, none, epochLength) == Ok([]);
    assert [] + [p] == [p];
    assert [p][..0] == [];
  }

  method VerifyValidatorTransition(read: HeaderReader, chainId: nat, blockProofs: seq<seq<Byte>>, epochLength: nat,
                                   h: Storage)
    returns (r: Result<(seq<Address>, nat)>)
    requires h.Valid()
    ensures r == VerifiedTransition(read, chainId, blockProofs, epochLength, h.View())
  {
    var firstBlock :- VerifyBlocksAndReachedQuorum(read, chainId, blockProofs, epochLength, h);
    if firstBlock.header.blockNumber % epochLength != 0 {
      return Revert("not epoch block");
    }
    return Ok((firstBlock.validators, EpochOf(firstBlock.header.blockNumber, epochLength)));
  }
}
