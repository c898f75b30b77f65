/** What holds over every run of the hub: the epoch machine and the chain of endorsement. */
module HubRuns {
  import opened Bytes
  import opened Header
  import opened PoSaBlockVerifier
  import opened ParliaBlockVerifier
  import opened ValidatorHistory
  import opened Quorum
  import opened HubSpec
  import opened SealedHeaders
  import opened Wrappers

  /** Set and count of an epoch are the same in both histories. */
  predicate SameEpoch(v: History, w: History, e: nat) {
    v.SetAt(e) == w.SetAt(e) && v.CountAt(e) == w.CountAt(e)
  }

  /** w comes from v by installing one epoch: that epoch's data is new, all other epochs keep theirs,
      and the address list only grows. */
  ghost predicate OneInstall(v: History, w: History, list: seq<Address>, e: nat) {
    && w.latest == e && w.SetAt(e) == Members(list) && w.CountAt(e) == |list|
    && v.known <= w.known
    && (forall k: nat :: k != e ==> SameEpoch(v, w, k))
    && (v.latest > 0 ==> (e == v.latest + 1 <==> e != 0))
  }

  lemma InstallIsOne(v: History, list: seq<Address>, e: nat)
    requires Install(v, list, e).Ok?
    ensures OneInstall(v, Install(v, list, e).value, list, e)
  {
  }

  /** One call: the history of a chain stays, or it is the addressed chain and exactly one epoch was
      installed. When the latest epoch is above 0, the new one is the next for every epoch but 0,
      which is not checked. Other chains are untouched, and an Active chain keeps its registration. */
  lemma CallInstallsOne(cfg: Config, hub: Hub, call: Call, c: nat)
    ensures var hub' := After(cfg, hub, call);
      && (hub'.HistoryOf(c) == hub.HistoryOf(c) ||
          (call.chainId == c && Apply(cfg, hub, call).Ok? &&
           exists list, e :: OneInstall(hub.HistoryOf(c), hub'.HistoryOf(c), list, e)))
      && (call.chainId != c ==> hub'.HistoryOf(c) == hub.HistoryOf(c) && hub'.ChainOf(c) == hub.ChainOf(c))
      && (hub.ChainOf(c).status == Active ==> hub'.ChainOf(c) == hub.ChainOf(c))
      && (call.chainId == c && Apply(cfg, hub, call).Ok? ==>
           exists list, e :: OneInstall(hub.HistoryOf(c), hub'.HistoryOf(c), list, e))
  {
    if call.chainId == c && Apply(cfg, hub, call).Ok? {
      var list, e := InstalledBy(cfg, hub, call);
    }
  }

  /** The list and epoch that a successful call installs. */
  lemma InstalledBy(cfg: Config, hub: Hub, call: Call) returns (list: seq<Address>, e: nat)
    requires Apply(cfg, hub, call).Ok?
    ensures OneInstall(hub.HistoryOf(call.chainId), Apply(cfg, hub, call).value.HistoryOf(call.chainId), list, e)
  {
    match call
    case Register(_, _, _, _, _, _, _) => list, e := InstalledByRegistration(cfg, hub, call);
    case UpdateValidatorSet(_, _) => list, e := InstalledByUpdate(cfg, hub, call);
    case CheckpointTransition(_, _, _, _, _) => list, e := InstalledByCheckpoint(cfg, hub, call);
  }

  lemma InstalledByRegistration(cfg: Config, hub: Hub, call: Call) returns (list: seq<Address>, e: nat)
    requires call.Register? && Registered(cfg, hub, call).Ok?
    ensures OneInstall(hub.HistoryOf(call.chainId), Registered(cfg, hub, call).value.HistoryOf(call.chainId), list, e)
    ensures var parsed := cfg.Reader(call.verificationFunction)(call.chainId, call.rawBlock, call.epochLength);
      parsed.Ok? && list == parsed.value.validators
  {
    var parsed := cfg.Reader(call.verificationFunction)(call.chainId, call.rawBlock, call.epochLength).value;
    list, e := parsed.validators, EpochOf(parsed.header.blockNumber, call.epochLength);
    InstallIsOne(hub.HistoryOf(call.chainId), list, e);
  }

  lemma InstalledByUpdate(cfg: Config, hub: Hub, call: Call) returns (list: seq<Address>, e: nat)
    requires call.UpdateValidatorSet? && Updated(cfg, hub, call).Ok?
    ensures OneInstall(hub.HistoryOf(call.chainId), Updated(cfg, hub, call).value.HistoryOf(call.chainId), list, e)
    ensures var chain := hub.ChainOf(call.chainId);
      cfg.VerifierAt(chain.verificationFunction).Transition(hub, call.chainId, call.blockProofs, chain.epochLength)
        == Ok((list, e))
  {
    var chain := hub.ChainOf(call.chainId);
    var t := cfg.VerifierAt(chain.verificationFunction).Transition(hub, call.chainId, call.blockProofs,
                                                                   chain.epochLength).value;
    list, e := t.0, t.1;
    InstallIsOne(hub.HistoryOf(call.chainId), list, e);
  }

  lemma InstalledByCheckpoint(cfg: Config, hub: Hub, call: Call) returns (list: seq<Address>, e: nat)
    requires call.CheckpointTransition? && Checkpointed(cfg, hub, call).Ok?
    ensures OneInstall(hub.HistoryOf(call.chainId), Checkpointed(cfg, hub, call).value.HistoryOf(call.chainId), list, e)
    ensures var chain := hub.ChainOf(call.chainId);
      var parsed := cfg.Reader(chain.verificationFunction)(call.chainId, call.rawBlock, chain.epochLength);
      && parsed.Ok? && chain.epochLength > 0 && list == parsed.value.validators &&
           e == EpochOf(parsed.value.header.blockNumber, chain.epochLength)
      && CheckpointQuorum(cfg, hub.HistoryOf(call.chainId), chain.chainType, parsed.value.header.blockHash, e,
                          call) == Ok(true)
  {
    var chain := hub.ChainOf(call.chainId);
    var parsed := cfg.Reader(chain.verificationFunction)(call.chainId, call.rawBlock, chain.epochLength).value;
    list, e := parsed.validators, EpochOf(parsed.header.blockNumber, chain.epochLength);
    InstallIsOne(hub.HistoryOf(call.chainId), list, e);
  }

  // ---------- which calls start an epoch ----------

  /** A header of an epoch above 0 was read. */
  predicate AboveEpochZero(parsed: Result<ParsedHeader>, epochLength: nat) {
    parsed.Ok? && 0 < epochLength <= parsed.value.header.blockNumber
  }

  /** The verification function gives an epoch above 0: ParliaBlockVerifier if there is a first header and
      it is of one. */
  predicate TransitionStarts(verifier: Verifier, hub: Hub, c: nat, proofs: seq<seq<Byte>>, epochLength: nat) {
    match verifier
    case Parlia(read) => proofs != [] && AboveEpochZero(read(c, proofs[0], epochLength), epochLength)
    case Other(_, transition, _, _) =>
      var t := transition(hub, c, proofs, epochLength);
      t.Ok? && t.value.1 > 0
  }

  /** What the call brings is of an epoch above 0. */
  predicate StartsEpoch(cfg: Config, hub: Hub, call: Call) {
    var chain := hub.ChainOf(call.chainId);
    match call
    case Register(c, verificationFunction, raw, _, _, _, epochLength) =>
      AboveEpochZero(cfg.Reader(verificationFunction)(c, raw, epochLength), epochLength)
    case UpdateValidatorSet(c, proofs) =>
      TransitionStarts(cfg.VerifierAt(chain.verificationFunction), hub, c, proofs, chain.epochLength)
    case CheckpointTransition(c, raw, _, _, _) =>
      AboveEpochZero(cfg.Reader(chain.verificationFunction)(c, raw, chain.epochLength), chain.epochLength)
  }

  /** The header read is the first one of its epoch. */
  predicate AtEpochBlock(parsed: Result<ParsedHeader>, epochLength: nat) {
    parsed.Ok? && epochLength > 0 && parsed.value.header.blockNumber % epochLength == 0
  }

  /** A checkpoint also has to bring the first header of its epoch. Nobody tests that, but only there the
      header lists validators. */
  predicate StartsEndorsed(cfg: Config, hub: Hub, call: Call) {
    var chain := hub.ChainOf(call.chainId);
    && StartsEpoch(cfg, hub, call)
    && match call
       case CheckpointTransition(c, raw, _, _, _) =>
         AtEpochBlock(cfg.Reader(chain.verificationFunction)(c, raw, chain.epochLength), chain.epochLength)
       case _ => true
  }

  /** The guard for steps, and the one for endorsed steps. */
  predicate Guard(cfg: Config, hub: Hub, call: Call, endorsed: bool) {
    if endorsed then StartsEndorsed(cfg, hub, call) else StartsEpoch(cfg, hub, call)
  }

  lemma EpochAboveZero(number: nat, epochLength: nat)
    requires epochLength > 0
    ensures EpochOf(number, epochLength) > 0 <==> number >= epochLength
  {
    var e := number / epochLength;
    assert number == e * epochLength + number % epochLength;
    if e > 0 {
      assert e * epochLength >= epochLength;
    }
  }

  lemma ParliaStarts(read: HeaderReader, c: nat, proofs: seq<seq<Byte>>, epochLength: nat, v: History,
                     list: seq<Address>, e: nat)
    requires VerifiedTransition(read, c, proofs, epochLength, v) == Ok((list, e))
    ensures e > 0 <==> proofs != [] && AboveEpochZero(read(c, proofs[0], epochLength), epochLength)
  {
    var first, headers := TransitionChecked(read, c, proofs, epochLength, v, list, e);
    EpochAboveZero(first.header.blockNumber, epochLength);
    if proofs != [] {
      ItemIsRead(read, c, proofs, epochLength, 0);
    }
  }

  /** A successful call installs an epoch above 0 if and only if it starts one. Then the latest epoch goes
      up by one, if it was above 0; otherwise it falls to 0. Checkpoints of BAS chains always start one. */
  lemma SuccessStartsEpoch(cfg: Config, hub: Hub, call: Call)
    requires Apply(cfg, hub, call).Ok?
    ensures var c := call.chainId;
      var v, w, starts := hub.HistoryOf(c), After(cfg, hub, call).HistoryOf(c), StartsEpoch(cfg, hub, call);
      && (w.latest > 0 <==> starts)
      && (v.latest > 0 ==> w.latest == if starts then v.latest + 1 else 0)
      && (call.CheckpointTransition? && hub.ChainOf(c).chainType == BAS ==> starts)
  {
    var chain := hub.ChainOf(call.chainId);
    match call
    case Register(c, verificationFunction, raw, _, _, _, epochLength) =>
      var list, e := InstalledByRegistration(cfg, hub, call);
      EpochAboveZero(cfg.Reader(verificationFunction)(c, raw, epochLength).value.header.blockNumber, epochLength);
    case UpdateValidatorSet(c, proofs) =>
      var list, e := InstalledByUpdate(cfg, hub, call);
      var verifier := cfg.VerifierAt(chain.verificationFunction);
      if verifier.Parlia? {
        ParliaStarts(verifier.read, c, proofs, chain.epochLength, hub.HistoryOf(c), list, e);
      }
    case CheckpointTransition(c, raw, _, _, _) =>
      var list, e := InstalledByCheckpoint(cfg, hub, call);
      EpochAboveZero(cfg.Reader(chain.verificationFunction)(c, raw, chain.epochLength).value.header.blockNumber,
                     chain.epochLength);
  }

  /** Without any header ParliaBlockVerifier lets an update of a registered chain succeed: it installs the
      empty set for epoch 0. */
  lemma EmptyUpdateInstallsNothing(cfg: Config, hub: Hub, c: nat)
    requires hub.ChainOf(c).status != NotFound && hub.ChainOf(c).epochLength > 0
    requires cfg.VerifierAt(hub.ChainOf(c).verificationFunction).Parlia?
    ensures var call := UpdateValidatorSet(c, []);
      && Apply(cfg, hub, call).Ok?
      && var w := After(cfg, hub, call).HistoryOf(c);
      && w.latest == 0 && w.SetAt(0) == {} && w.CountAt(0) == 0
      && After(cfg, hub, call).ChainOf(c) == hub.ChainOf(c).(status := Active)
  {
    var chain, v := hub.ChainOf(c), hub.HistoryOf(c);
    var read := cfg.Reader(chain.verificationFunction);
    assert ReadChain(read, c, [], chain.epochLength) == Ok([]);
    assert VerifiedTransition(read, c, [], chain.epochLength, v) == Ok(([], 0));
    var none: seq<Address> := [];
    assert Members(none) == {};
    assert Install(v, none, 0).Ok?;
  }

  /** One header below the first epoch's end is asked for no quorum: exactly block 0 gets in, with any
      validators that fit the buckets. */
  lemma BlockZeroInstallsAnyone(cfg: Config, hub: Hub, c: nat, raw: seq<Byte>, p: ParsedHeader)
    requires var chain := hub.ChainOf(c);
      && chain.status != NotFound && p.header.blockNumber < chain.epochLength
      && cfg.VerifierAt(chain.verificationFunction).Parlia?
      && cfg.Reader(chain.verificationFunction)(c, raw, chain.epochLength) == Ok(p)
    ensures var v, call := hub.HistoryOf(c), UpdateValidatorSet(c, [raw]);
      && (Apply(cfg, hub, call).Ok? <==>
          p.header.blockNumber == 0 && |AppendNew(v.known, p.validators)| <= Capacity(|v.known|))
      && (Apply(cfg, hub, call).Ok? ==>
          OneInstall(v, After(cfg, hub, call).HistoryOf(c), p.validators, 0))
  {
    var chain, v := hub.ChainOf(c), hub.HistoryOf(c);
    var read := cfg.Reader(chain.verificationFunction);
    OneHeader(read, c, raw, chain.epochLength, p);
    EpochAboveZero(p.header.blockNumber, chain.epochLength);
    assert VerifiedBlocks(read, c, [raw], chain.epochLength, v) == Ok(p);
    assert p.header.blockNumber % chain.epochLength == p.header.blockNumber;
    if Apply(cfg, hub, UpdateValidatorSet(c, [raw])).Ok? {
      InstallIsOne(v, p.validators, 0);
    }
  }

  /** On a chain with FakeBlockVerifier every update succeeds and installs the empty set for epoch 0. */
  lemma FakeInstallsNothing(cfg: Config, hub: Hub, c: nat, proofs: seq<seq<Byte>>)
    requires hub.ChainOf(c).status != NotFound && cfg.VerifierAt(hub.ChainOf(c).verificationFunction) == FAKE
    ensures var call := UpdateValidatorSet(c, proofs);
      && Apply(cfg, hub, call).Ok?
      && var w := After(cfg, hub, call).HistoryOf(c);
      && w.latest == 0 && w.SetAt(0) == {} && w.CountAt(0) == 0
      && After(cfg, hub, call).ChainOf(c) == hub.ChainOf(c).(status := Active)
  {
    var none: seq<Address> := [];
    assert Members(none) == {};
    assert Install(hub.HistoryOf(c), none, 0).Ok?;
  }

  /** Anyone makes an unknown chain Active, with a verification function, a bridge address and an epoch
      length of his choice: by registering it with a header of his own and an empty update. */
  lemma OpenRegistration(cfg: Config, hub: Hub, c: nat, verificationFunction: Address, raw: seq<Byte>,
                         p: ParsedHeader, bridge: Address, epochLength: nat)
    requires hub.ChainOf(c) == NO_CHAIN && hub.HistoryOf(c) == EMPTY && epochLength > 0
    requires cfg.VerifierAt(verificationFunction).Parlia? || cfg.VerifierAt(verificationFunction) == FAKE
    requires cfg.Reader(verificationFunction)(c, raw, epochLength) == Ok(p)
    requires |AppendNew([], p.validators)| <= Capacity(0)
    ensures var calls :=
        [Register(c, verificationFunction, raw, 0, BAS, bridge, epochLength), UpdateValidatorSet(c, [])];
      var hub' := Run(cfg, hub, calls);
      && hub'.ChainOf(c) == Chain(Active, BAS, verificationFunction, bridge, epochLength)
      && hub'.HistoryOf(c).latest == 0 && hub'.HistoryOf(c).SetAt(0) == {} && hub'.HistoryOf(c).CountAt(0) == 0
      && forall k: nat :: k != c ==> hub'.ChainOf(k) == hub.ChainOf(k) && hub'.HistoryOf(k) == hub.HistoryOf(k)
  {
    var register := Register(c, verificationFunction, raw, 0, BAS, bridge, epochLength);
    var update := UpdateValidatorSet(c, []);
    var after := After(cfg, hub, register);
    assert Apply(cfg, hub, register).Ok?;
    assert after.ChainOf(c) == Chain(Verifying, BAS, verificationFunction, bridge, epochLength);
    if cfg.VerifierAt(verificationFunction).Parlia? {
      EmptyUpdateInstallsNothing(cfg, after, c);
    } else {
      FakeInstallsNothing(cfg, after, c, []);
    }
    TwoCalls(cfg, hub, register, update);
    forall k: nat | k != c
      ensures var hub' := Run(cfg, hub, [register, update]);
        hub'.ChainOf(k) == hub.ChainOf(k) && hub'.HistoryOf(k) == hub.HistoryOf(k)
    {
      CallInstallsOne(cfg, hub, register, k);
      CallInstallsOne(cfg, after, update, k);
    }
  }

  lemma TwoCalls(cfg: Config, hub: Hub, first: Call, second: Call)
    ensures Run(cfg, hub, [first, second]) == After(cfg, After(cfg, hub, first), second)
  {
    assert [first, second][..1] == [first];
    assert [first][..0] == [];
    assert Run(cfg, hub, []) == hub;
    assert Run(cfg, hub, [first]) == After(cfg, hub, first);
  }

  // ---------- endorsement ----------

  /** The set recorded for e was announced by the header numbered e * epochLength at the head of a
      hash-linked list, whose recovered sealers reach two thirds of the set recorded for e - 1. */
  ghost predicate HeadersEndorse(read: HeaderReader, v: History, c: nat, epochLength: nat, proofs: seq<seq<Byte>>,
                                 e: nat) {
    && e > 0
    && var headers := ReadChain(read, c, proofs, epochLength);
    && headers.Ok? && headers.value != [] && Linked(headers.value)
    && headers.value[0].header.blockNumber == e * epochLength
    && v.SetAt(e) == Members(headers.value[0].validators) && v.CountAt(e) == |headers.value[0].validators|
    && |Signers(v, Coinbases(headers.value), e - 1)| >= Threshold(v.CountAt(e - 1))
  }

  /** Or it was announced by the header of that number whose hash, with a checkpoint hash, was signed by
      two thirds of the set recorded for e - 1. */
  ghost predicate CheckpointEndorses(cfg: Config, read: HeaderReader, v: History, c: nat, epochLength: nat,
                                     rawBlock: seq<Byte>, checkpointHash: Word, signatures: seq<seq<Byte>>, e: nat)
  {
    && e > 0 && epochLength > 0
    && var parsed := read(c, rawBlock, epochLength);
    && parsed.Ok? && parsed.value.header.blockNumber == e * epochLength
    && v.SetAt(e) == Members(parsed.value.validators) && v.CountAt(e) == |parsed.value.validators|
    && var signers := RecoverAll(cfg.crypto,
                                 cfg.crypto.keccak(CheckpointMessage(parsed.value.header.blockHash, checkpointHash)),
                                 signatures);
    && signers.Ok? && |Signers(v, signers.value, e - 1)| >= Threshold(v.CountAt(e - 1))
  }

  ghost predicate Endorsed(cfg: Config, chain: Chain, v: History, c: nat, e: nat) {
    var read := cfg.Reader(chain.verificationFunction);
    || (exists proofs :: HeadersEndorse(read, v, c, chain.epochLength, proofs, e))
    || (exists raw, hash, signatures ::
          CheckpointEndorses(cfg, read, v, c, chain.epochLength, raw, hash, signatures, e))
  }

  /** The call brings the endorsement. */
  ghost predicate EndorsedBy(cfg: Config, chain: Chain, v: History, c: nat, e: nat, call: Call) {
    var read := cfg.Reader(chain.verificationFunction);
    match call
    case Register(_, _, _, _, _, _, _) => false
    case UpdateValidatorSet(_, proofs) => HeadersEndorse(read, v, c, chain.epochLength, proofs, e)
    case CheckpointTransition(_, raw, hash, signatures, _) =>
      CheckpointEndorses(cfg, read, v, c, chain.epochLength, raw, hash, signatures, e)
  }

  /** An endorsement only speaks of two epochs. */
  lemma EndorsementStays(cfg: Config, chain: Chain, v: History, w: History, c: nat, e: nat)
    requires e > 0 && SameEpoch(v, w, e) && SameEpoch(v, w, e - 1)
    ensures Endorsed(cfg, chain, v, c, e) ==> Endorsed(cfg, chain, w, c, e)
  {
    var read := cfg.Reader(chain.verificationFunction);
    forall proofs | HeadersEndorse(read, v, c, chain.epochLength, proofs, e)
      ensures HeadersEndorse(read, w, c, chain.epochLength, proofs, e)
    {
    }
    forall raw, hash, signatures | CheckpointEndorses(cfg, read, v, c, chain.epochLength, raw, hash, signatures, e)
      ensures CheckpointEndorses(cfg, read, w, c, chain.epochLength, raw, hash, signatures, e)
    {
    }
  }

  /** The address sealed one of the headers of such an endorsement, or signed its checkpoint. */
  ghost predicate SignedEndorsement(cfg: Config, chain: Chain, v: History, c: nat, e: nat, a: Address) {
    var read := cfg.Reader(chain.verificationFunction);
    || (exists proofs :: HeadersEndorse(read, v, c, chain.epochLength, proofs, e) &&
          a in Coinbases(ReadChain(read, c, proofs, chain.epochLength).value))
    || (exists raw, hash, signatures ::
          CheckpointEndorses(cfg, read, v, c, chain.epochLength, raw, hash, signatures, e) &&
          a in CheckpointSigners(cfg, read, c, chain.epochLength, raw, hash, signatures))
  }

  ghost function CheckpointSigners(cfg: Config, read: HeaderReader, c: nat, epochLength: nat, rawBlock: seq<Byte>,
                                   checkpointHash: Word, signatures: seq<seq<Byte>>): seq<Address> {
    var parsed := read(c, rawBlock, epochLength);
    if parsed.Revert? then []
    else
      var m := CheckpointMessage(parsed.value.header.blockHash, checkpointHash);
      var signers := RecoverAll(cfg.crypto, cfg.crypto.keccak(m), signatures);
      if signers.Revert? then [] else signers.value
  }

  /** Two thirds of two or more are at least one: such an endorsement names a member of the set of the
      epoch before. Two thirds of none or one are none. */
  lemma EndorsementNamesMember(cfg: Config, chain: Chain, v: History, c: nat, e: nat) returns (a: Address)
    requires Endorsed(cfg, chain, v, c, e) && e > 0 && v.CountAt(e - 1) >= 2
    ensures a in v.SetAt(e - 1) && SignedEndorsement(cfg, chain, v, c, e, a)
  {
    var read := cfg.Reader(chain.verificationFunction);
    if proofs :| HeadersEndorse(read, v, c, chain.epochLength, proofs, e) {
      a := SealersNameMember(read, v, c, chain.epochLength, proofs, e);
    } else {
      var raw, hash, signatures :| CheckpointEndorses(cfg, read, v, c, chain.epochLength, raw, hash, signatures, e);
      a := CheckpointNamesMember(cfg, read, v, c, chain.epochLength, raw, hash, signatures, e);
    }
  }

  lemma SealersNameMember(read: HeaderReader, v: History, c: nat, epochLength: nat, proofs: seq<seq<Byte>>, e: nat)
    returns (a: Address)
    requires HeadersEndorse(read, v, c, epochLength, proofs, e) && v.CountAt(e - 1) >= 2
    ensures a in v.SetAt(e - 1) && a in Coinbases(ReadChain(read, c, proofs, epochLength).value)
  {
    var headers := ReadChain(read, c, proofs, epochLength).value;
    a := ReachedByMember(v, Coinbases(headers), e - 1);
  }

  lemma CheckpointNamesMember(cfg: Config, read: HeaderReader, v: History, c: nat, epochLength: nat, raw: seq<Byte>,
                              hash: Word, signatures: seq<seq<Byte>>, e: nat)
    returns (a: Address)
    requires CheckpointEndorses(cfg, read, v, c, epochLength, raw, hash, signatures, e) && v.CountAt(e - 1) >= 2
    ensures a in v.SetAt(e - 1) && a in CheckpointSigners(cfg, read, c, epochLength, raw, hash, signatures)
  {
    a := ReachedByMember(v, CheckpointSigners(cfg, read, c, epochLength, raw, hash, signatures), e - 1);
  }

  lemma ReachedByMember(v: History, list: seq<Address>, e: nat) returns (a: Address)
    requires |Signers(v, list, e)| >= Threshold(v.CountAt(e)) && v.CountAt(e) >= 2
    ensures a in list && a in v.SetAt(e)
  {
    assert |Signers(v, list, e)| >= 1;
    a :| a in Signers(v, list, e);
  }

  /** A verified transition to an epoch above 0 starts at that epoch's first block and has a quorum. */
  lemma TransitionHasQuorum(read: HeaderReader, c: nat, proofs: seq<seq<Byte>>, epochLength: nat, v: History,
                            list: seq<Address>, e: nat)
    requires VerifiedTransition(read, c, proofs, epochLength, v) == Ok((list, e)) && e > 0
    ensures var headers := ReadChain(read, c, proofs, epochLength);
      && headers.Ok? && headers.value != [] && Linked(headers.value)
      && headers.value[0].header.blockNumber == e * epochLength && headers.value[0].validators == list
      && |Signers(v, Coinbases(headers.value), e - 1)| >= Threshold(v.CountAt(e - 1))
  {
    var first, headers := TransitionChecked(read, c, proofs, epochLength, v, list, e);
    ReadExactlyIfLinked(read, c, proofs, epochLength, headers);
    CheckedFirstHasQuorum(first, Coinbases(headers), epochLength, v);
    SealersReached(v, Coinbases(headers), e);
  }

  /** The parts of a verified transition. */
  lemma TransitionChecked(read: HeaderReader, c: nat, proofs: seq<seq<Byte>>, epochLength: nat, v: History,
                          list: seq<Address>, e: nat)
    returns (first: ParsedHeader, headers: seq<ParsedHeader>)
    requires VerifiedTransition(read, c, proofs, epochLength, v) == Ok((list, e))
    ensures ReadChain(read, c, proofs, epochLength) == Ok(headers)
    ensures first == if headers == [] then NO_HEADER else headers[0]
    ensures CheckedFirst(first, Coinbases(headers), epochLength, v) == Ok(first)
    ensures epochLength > 0 && list == first.validators && e == EpochOf(first.header.blockNumber, epochLength)
    ensures first.header.blockNumber == e * epochLength
  {
    headers := ReadChain(read, c, proofs, epochLength).value;
    first := if headers == [] then NO_HEADER else headers[0];
    WholeMultiple(first.header.blockNumber, epochLength, e);
  }

  lemma SealersReached(v: History, sealers: seq<Address>, e: nat)
    requires e > 0 && CheckQuorum(v, sealers, Before(e)) == Ok(true)
    ensures |Signers(v, sealers, e - 1)| >= Threshold(v.CountAt(e - 1))
  {
    AcceptedListHoldsMembers(v, sealers, Before(e));
  }

  lemma WholeMultiple(n: nat, d: nat, q: nat)
    requires d > 0 && n % d == 0 && q == EpochOf(n, d)
    ensures n == q * d
    ensures n == 0 ==> q == 0
  {
  }

  lemma UpdateEndorses(cfg: Config, hub: Hub, call: Call)
    requires call.UpdateValidatorSet? && Updated(cfg, hub, call).Ok?
    requires cfg.VerifierAt(hub.ChainOf(call.chainId).verificationFunction).Parlia?
    requires hub.HistoryOf(call.chainId).latest > 0 && After(cfg, hub, call).HistoryOf(call.chainId).latest > 0
    ensures var w := After(cfg, hub, call).HistoryOf(call.chainId);
      EndorsedBy(cfg, hub.ChainOf(call.chainId), w, call.chainId, w.latest, call)
  {
    var c, chain := call.chainId, hub.ChainOf(call.chainId);
    var v, w := hub.HistoryOf(c), After(cfg, hub, call).HistoryOf(c);
    var read := cfg.Reader(chain.verificationFunction);
    var list, e := InstalledByUpdate(cfg, hub, call);
    TransitionHasQuorum(read, c, call.blockProofs, chain.epochLength, v, list, e);
    assert SameEpoch(v, w, e - 1);
    assert HeadersEndorse(read, w, c, chain.epochLength, call.blockProofs, e);
  }

  /** The checkpoint of a BAS chain is endorsed if and only if its header is the first of its epoch. */
  lemma CheckpointIsEndorsed(cfg: Config, hub: Hub, call: Call)
    requires call.CheckpointTransition? && Checkpointed(cfg, hub, call).Ok?
    requires hub.ChainOf(call.chainId).chainType == BAS
    requires hub.HistoryOf(call.chainId).latest > 0 && After(cfg, hub, call).HistoryOf(call.chainId).latest > 0
    ensures var c := call.chainId;
      var chain, w := hub.ChainOf(c), After(cfg, hub, call).HistoryOf(c);
      EndorsedBy(cfg, chain, w, c, w.latest, call) <==>
        AtEpochBlock(cfg.Reader(chain.verificationFunction)(c, call.rawBlock, chain.epochLength), chain.epochLength)
  {
    var c, chain := call.chainId, hub.ChainOf(call.chainId);
    var v, w := hub.HistoryOf(c), After(cfg, hub, call).HistoryOf(c);
    var read := cfg.Reader(chain.verificationFunction);
    var list, e := InstalledByCheckpoint(cfg, hub, call);
    var number := read(c, call.rawBlock, chain.epochLength).value.header.blockNumber;
    EpochBlockNumber(number, chain.epochLength, e);
    if number == e * chain.epochLength {
      assert SameEpoch(v, w, e - 1);
      assert CheckpointEndorses(cfg, read, w, c, chain.epochLength, call.rawBlock, call.checkpointHash,
                                call.signatures, e);
    }
  }

  lemma EpochBlockNumber(n: nat, d: nat, q: nat)
    requires d > 0 && q == EpochOf(n, d)
    ensures n == q * d <==> n % d == 0
  {
  }

  // ---------- checkpoints inside an epoch ----------

  /** Nobody is in the set of the epoch, and every list of signers reaches its quorum. */
  ghost predicate IsAnyones(v: History, e: nat) {
    && v.SetAt(e) == {} && v.CountAt(e) == 0
    && forall list :: CheckQuorum(v, list, e) == Ok(true)
  }

  lemma NobodyIsAnyones(v: History, e: nat)
    requires v.SetAt(e) == {} && v.CountAt(e) == 0
    ensures IsAnyones(v, e)
  {
    forall list
      ensures CheckQuorum(v, list, e) == Ok(true)
    {
      assert Signers(v, list, e) == {};
      StrangersAreAccepted(v, list, e);
    }
  }

  lemma NoListInstallsNobody(v: History, w: History, list: seq<Address>, e: nat)
    requires OneInstall(v, w, list, e) && list == []
    ensures IsAnyones(w, w.latest)
  {
    assert Members(list) == {};
    NobodyIsAnyones(w, e);
  }

  /** The shipped parser finds no validators inside an epoch. */
  lemma NoListInside(crypto: Crypto, h: Header, c: nat, epochLength: nat)
    requires VerifiedHeader(crypto, h, c, epochLength).Ok?
    requires epochLength > 0 && h.number % Pow256(8) % epochLength != 0
    ensures VerifiedHeader(crypto, h, c, epochLength).value.validators == []
    ensures VerifiedHeader(crypto, h, c, epochLength).value.header.blockNumber == h.number % Pow256(8)
  {
  }

  /** Registration takes a header from inside an epoch: the epoch is then anyone's. */
  lemma RegisteredInsideEpoch(cfg: Config, hub: Hub, call: Call, h: Header)
    requires call.Register? && Apply(cfg, hub, call).Ok?
    requires cfg.Reader(call.verificationFunction)(call.chainId, call.rawBlock, call.epochLength) ==
      VerifiedHeader(cfg.crypto, h, call.chainId, call.epochLength)
    requires call.epochLength > 0 && h.number % Pow256(8) % call.epochLength != 0
    ensures var w := After(cfg, hub, call).HistoryOf(call.chainId);
      IsAnyones(w, w.latest)
  {
    NoListInside(cfg.crypto, h, call.chainId, call.epochLength);
    var list, e := InstalledByRegistration(cfg, hub, call);
    NoListInstallsNobody(hub.HistoryOf(call.chainId), After(cfg, hub, call).HistoryOf(call.chainId), list, e);
  }

  /** So does a checkpoint. */
  lemma CheckpointedInsideEpoch(cfg: Config, hub: Hub, call: Call, h: Header)
    requires call.CheckpointTransition? && Apply(cfg, hub, call).Ok?
    requires var chain := hub.ChainOf(call.chainId);
      && cfg.Reader(chain.verificationFunction)(call.chainId, call.rawBlock, chain.epochLength) ==
           VerifiedHeader(cfg.crypto, h, call.chainId, chain.epochLength)
      && chain.epochLength > 0 && h.number % Pow256(8) % chain.epochLength != 0
    ensures var w := After(cfg, hub, call).HistoryOf(call.chainId);
      IsAnyones(w, w.latest)
  {
    NoListInside(cfg.crypto, h, call.chainId, hub.ChainOf(call.chainId).epochLength);
    var list, e := InstalledByCheckpoint(cfg, hub, call);
    NoListInstallsNobody(hub.HistoryOf(call.chainId), After(cfg, hub, call).HistoryOf(call.chainId), list, e);
  }

  /** The header and the signatures that make a checkpoint of a BAS chain succeed inside its next epoch. */
  ghost predicate SignedInside(cfg: Config, chain: Chain, v: History, call: Call, h: Header)
    requires call.CheckpointTransition?
  {
    var parsed := VerifiedHeader(cfg.crypto, h, call.chainId, chain.epochLength);
    && chain.status != NotFound && chain.chainType == BAS && chain.epochLength > 0
    && cfg.Reader(chain.verificationFunction)(call.chainId, call.rawBlock, chain.epochLength) == parsed && parsed.Ok?
    && h.number % Pow256(8) % chain.epochLength != 0
    && EpochOf(h.number % Pow256(8), chain.epochLength) == v.latest + 1
    && var m := CheckpointMessage(parsed.value.header.blockHash, call.checkpointHash);
       var signers := RecoverAll(cfg.crypto, cfg.crypto.keccak(m), call.signatures);
       signers.Ok? && CheckQuorum(v, signers.value, v.latest) == Ok(true)
  }

  /** Such a checkpoint needs no more than any other: a header of the next epoch and signatures of a quorum
      of the latest one. It raises the latest epoch by one, and brings no endorsement. */
  lemma CheckpointInsideEpoch(cfg: Config, hub: Hub, call: Call, h: Header)
    requires call.CheckpointTransition?
    requires SignedInside(cfg, hub.ChainOf(call.chainId), hub.HistoryOf(call.chainId), call, h)
    ensures Apply(cfg, hub, call).Ok?
    ensures var c := call.chainId;
      var w := After(cfg, hub, call).HistoryOf(c);
      && w.latest == hub.HistoryOf(c).latest + 1 && IsAnyones(w, w.latest)
      && !EndorsedBy(cfg, hub.ChainOf(c), w, c, w.latest, call)
  {
    var c := call.chainId;
    var chain, v := hub.ChainOf(c), hub.HistoryOf(c);
    NoListInside(cfg.crypto, h, c, chain.epochLength);
    EmptyInstall(v);
    assert Apply(cfg, hub, call).Ok?;
    CheckpointedInsideEpoch(cfg, hub, call, h);
    var list, e := InstalledByCheckpoint(cfg, hub, call);
    EpochBlockNumber(h.number % Pow256(8), chain.epochLength, e);
  }

  lemma EmptyInstall(v: History)
    ensures Install(v, [], v.latest + 1).Ok? && Before(v.latest + 1) == v.latest
  {
  }

  /** Whoever can write a readable first header of the next epoch then installs the validators of his
      choice, as many as fit the buckets. */
  lemma AnyonesNextEpoch(cfg: Config, hub: Hub, c: nat, raw: seq<Byte>, p: ParsedHeader)
    requires var chain, v := hub.ChainOf(c), hub.HistoryOf(c);
      && chain.status != NotFound && chain.epochLength > 0 && IsAnyones(v, v.latest)
      && cfg.VerifierAt(chain.verificationFunction).Parlia?
      && cfg.Reader(chain.verificationFunction)(c, raw, chain.epochLength) == Ok(p)
      && p.header.blockNumber == (v.latest + 1) * chain.epochLength
    ensures var v, call := hub.HistoryOf(c), UpdateValidatorSet(c, [raw]);
      && (Apply(cfg, hub, call).Ok? <==> |AppendNew(v.known, p.validators)| <= Capacity(|v.known|))
      && (Apply(cfg, hub, call).Ok? ==>
          OneInstall(v, After(cfg, hub, call).HistoryOf(c), p.validators, v.latest + 1))
  {
    var chain, v := hub.ChainOf(c), hub.HistoryOf(c);
    var read := cfg.Reader(chain.verificationFunction);
    var e := v.latest + 1;
    OneHeader(read, c, raw, chain.epochLength, p);
    FirstOfEpoch(p.header.blockNumber, chain.epochLength, e);
    assert CheckQuorum(v, Coinbases([p]), Before(e)) == Ok(true);
    assert VerifiedBlocks(read, c, [raw], chain.epochLength, v) == Ok(p);
    if Apply(cfg, hub, UpdateValidatorSet(c, [raw])).Ok? {
      InstallIsOne(v, p.validators, e);
    }
  }

  /** With the shipped parser that is everyone who has a key. */
  lemma KeyHolderInstallsAnyone(cfg: Config, hub: Hub, c: nat, a: Address, list: seq<Address>)
    returns (raw: seq<Byte>)
    requires var chain, v := hub.ChainOf(c), hub.HistoryOf(c);
      && chain.status != NotFound && chain.epochLength > 0 && IsAnyones(v, v.latest)
      && cfg.VerifierAt(chain.verificationFunction).Parlia?
      && ReadsAll(cfg.Reader(chain.verificationFunction), cfg.crypto, c, chain.epochLength)
      && (v.latest + 1) * chain.epochLength < Pow256(8)
    requires CanSign(cfg.crypto, a) && IsAddress(a)
    requires |list| <= 3000 && forall x :: x in list ==> IsAddress(x)
    ensures var v, call := hub.HistoryOf(c), UpdateValidatorSet(c, [raw]);
      && (Apply(cfg, hub, call).Ok? <==> |AppendNew(v.known, list)| <= Capacity(|v.known|))
      && (Apply(cfg, hub, call).Ok? ==> OneInstall(v, After(cfg, hub, call).HistoryOf(c), list, v.latest + 1))
  {
    var chain, v := hub.ChainOf(c), hub.HistoryOf(c);
    var first := (v.latest + 1) * chain.epochLength;
    AtLeastOnce(v.latest + 1, chain.epochLength);
    FirstOfEpoch(first, chain.epochLength, v.latest + 1);
    var h := AnyoneSeals(cfg.crypto, a, c, chain.epochLength, first, 0, 0, list);
    raw := EncodeHeader(h);
    AnyonesNextEpoch(cfg, hub, c, raw, VerifiedHeader(cfg.crypto, h, c, chain.epochLength).value);
  }

  // ---------- checkpoints of BSC chains ----------

  /** The signers are all active. */
  ghost predicate SignedByStakers(crypto: Crypto, staking: Staking, root: Word, signatures: seq<seq<Byte>>) {
    forall i :: 0 <= i < |signatures| ==>
      crypto.recover(root, signatures[i]).Some? && staking.isActive(crypto.recover(root, signatures[i]).value)
  }

  lemma {:induction false} StakedMeans(crypto: Crypto, staking: Staking, root: Word, signatures: seq<seq<Byte>>)
    ensures AllStaked(crypto, staking, root, signatures).Ok? <==> SignedByStakers(crypto, staking, root, signatures)
  {
    if signatures != [] {
      var front := signatures[..|signatures| - 1];
      StakedMeans(crypto, staking, root, front);
      assert forall i :: 0 <= i < |front| ==> front[i] == signatures[i];
      if SignedByStakers(crypto, staking, root, signatures) {
        forall i | 0 <= i < |front|
          ensures crypto.recover(root, front[i]).Some? && staking.isActive(crypto.recover(root, front[i]).value)
        {
          assert front[i] == signatures[i];
        }
      }
    }
  }

  /** The checkpoint of a BSC chain is signed well enough if and only if all its signers are active and
      there are as many signatures as validators. One active validator's signature, repeated, will do. */
  lemma {:induction false} OneStakerSuffices(crypto: Crypto, staking: Staking, root: Word, signatures: seq<seq<Byte>>,
                                             signature: seq<Byte>)
    requires crypto.recover(root, signature).Some? && staking.isActive(crypto.recover(root, signature).value)
    ensures StakedQuorum(crypto, staking, root, signatures) == Ok(true) <==>
      SignedByStakers(crypto, staking, root, signatures) && |signatures| >= staking.total
    ensures StakedQuorum(crypto, staking, root, seq(staking.total, _ => signature)) == Ok(true)
  {
    StakedMeans(crypto, staking, root, signatures);
    StakedMeans(crypto, staking, root, seq(staking.total, _ => signature));
  }

  // ---------- runs ----------

  /** The histories of a chain along a run. */
  ghost function Histories(cfg: Config, hub: Hub, calls: seq<Call>, c: nat): (vs: seq<History>)
    ensures |vs| == |calls| + 1
  {
    if calls == [] then [hub.HistoryOf(c)]
    else Histories(cfg, hub, calls[..|calls| - 1], c) + [Run(cfg, hub, calls).HistoryOf(c)]
  }

  /** Which calls of a run succeed on the chain. */
  ghost function Successes(cfg: Config, hub: Hub, calls: seq<Call>, c: nat): (oks: seq<bool>)
    ensures |oks| == |calls|
  {
    if calls == [] then []
    else
      var n := |calls| - 1;
      Successes(cfg, hub, calls[..n], c) +
        [calls[n].chainId == c && Apply(cfg, Run(cfg, hub, calls[..n]), calls[n]).Ok?]
  }

  function Count(oks: seq<bool>): nat {
    if oks == [] then 0 else Count(oks[..|oks| - 1]) + (if oks[|oks| - 1] then 1 else 0)
  }

  /** Every successful call of the run on the chain meets the guard in the hub as it then is. */
  ghost predicate Guarded(cfg: Config, hub: Hub, calls: seq<Call>, c: nat, endorsed: bool) {
    calls == [] ||
    var n := |calls| - 1;
    var before := Run(cfg, hub, calls[..n]);
    && Guarded(cfg, hub, calls[..n], c, endorsed)
    && (calls[n].chainId == c && Apply(cfg, before, calls[n]).Ok? ==> Guard(cfg, before, calls[n], endorsed))
  }

  /** One step of a history: the next epoch is installed over unchanged older ones, endorsed by the
      call, or nothing happens. */
  ghost predicate Advances(cfg: Config, chain: Chain, c: nat, v: History, w: History, call: Call, ok: bool,
                           endorsed: bool)
  {
    if ok then
      && w.latest == v.latest + 1 && v.known <= w.known
      && (forall e: nat :: e <= v.latest ==> SameEpoch(v, w, e))
      && (endorsed ==> EndorsedBy(cfg, chain, w, c, w.latest, call))
    else w == v
  }

  /** Any number of steps: the latest epoch counts them, older epochs keep their data, and the new
      ones are endorsed. */
  ghost predicate Continues(cfg: Config, chain: Chain, c: nat, v: History, w: History, installs: nat, endorsed: bool) {
    && w.latest == v.latest + installs && v.known <= w.known
    && (forall e: nat :: e <= v.latest ==> SameEpoch(v, w, e))
    && (endorsed ==> forall e: nat :: v.latest < e <= w.latest ==> Endorsed(cfg, chain, w, c, e))
  }

  lemma ContinuesOnce(cfg: Config, chain: Chain, c: nat, v: History, u: History, w: History, call: Call,
                      installs: nat, ok: bool, endorsed: bool)
    requires Continues(cfg, chain, c, v, u, installs, endorsed) && Advances(cfg, chain, c, u, w, call, ok, endorsed)
    ensures Continues(cfg, chain, c, v, w, installs + (if ok then 1 else 0), endorsed)
  {
    if ok {
      OlderEpochsStay(v, u, w);
      if endorsed {
        CallEndorses(cfg, chain, w, c, w.latest, call);
        EndorsedOnward(cfg, chain, c, v.latest, u, w);
      }
    }
  }

  lemma CallEndorses(cfg: Config, chain: Chain, v: History, c: nat, e: nat, call: Call)
    requires EndorsedBy(cfg, chain, v, c, e, call)
    ensures Endorsed(cfg, chain, v, c, e)
  {
  }

  lemma OlderEpochsStay(v: History, u: History, w: History)
    requires v.latest <= u.latest && (forall e: nat :: e <= v.latest ==> SameEpoch(v, u, e))
    requires forall e: nat :: e <= u.latest ==> SameEpoch(u, w, e)
    ensures forall e: nat :: e <= v.latest ==> SameEpoch(v, w, e)
  {
    forall e: nat | e <= v.latest
      ensures SameEpoch(v, w, e)
    {
      assert SameEpoch(v, u, e) && SameEpoch(u, w, e);
    }
  }

  lemma EndorsedOnward(cfg: Config, chain: Chain, c: nat, start: nat, u: History, w: History)
    requires forall e: nat :: start < e <= u.latest ==> Endorsed(cfg, chain, u, c, e)
    requires forall e: nat :: e <= u.latest ==> SameEpoch(u, w, e)
    requires w.latest == u.latest + 1 && Endorsed(cfg, chain, w, c, w.latest)
    ensures forall e: nat :: start < e <= w.latest ==> Endorsed(cfg, chain, w, c, e)
  {
    forall e: nat | start < e <= w.latest
      ensures Endorsed(cfg, chain, w, c, e)
    {
      EndorsedNext(cfg, chain, c, u, w, e);
    }
  }

  lemma EndorsedNext(cfg: Config, chain: Chain, c: nat, u: History, w: History, e: nat)
    requires 0 < e <= w.latest == u.latest + 1
    requires e <= u.latest ==> Endorsed(cfg, chain, u, c, e) && SameEpoch(u, w, e) && SameEpoch(u, w, e - 1)
    requires e == w.latest ==> Endorsed(cfg, chain, w, c, e)
    ensures Endorsed(cfg, chain, w, c, e)
  {
    if e <= u.latest {
      EndorsementStays(cfg, chain, u, w, c, e);
    }
  }

  /** Every step of the histories is such a step. */
  ghost predicate AllAdvance(cfg: Config, chain: Chain, c: nat, vs: seq<History>, calls: seq<Call>, oks: seq<bool>,
                             endorsed: bool)
    requires |vs| == |oks| + 1 && |calls| == |oks|
  {
    forall i :: 0 <= i < |oks| ==> Advances(cfg, chain, c, vs[i], vs[i + 1], calls[i], oks[i], endorsed)
  }

  lemma {:induction false} AdvancesAlong(cfg: Config, chain: Chain, c: nat, vs: seq<History>, calls: seq<Call>,
                                         oks: seq<bool>, endorsed: bool)
    requires |vs| == |oks| + 1 && |calls| == |oks|
    requires AllAdvance(cfg, chain, c, vs, calls, oks, endorsed)
    ensures Continues(cfg, chain, c, vs[0], vs[|oks|], Count(oks), endorsed)
    decreases |oks|
  {
    if oks != [] {
      var n := |oks| - 1;
      AdvancesAlong(cfg, chain, c, vs[..n + 1], calls[..n], oks[..n], endorsed);
      ContinuesOnce(cfg, chain, c, vs[0], vs[n], vs[n + 1], calls[n], Count(oks[..n]), oks[n], endorsed);
    }
  }

  /** No call of the run is a checkpoint of the chain. */
  predicate NoCheckpoints(calls: seq<Call>, c: nat) {
    forall i :: 0 <= i < |calls| ==> !(calls[i].CheckpointTransition? && calls[i].chainId == c)
  }

  /** The chain is Active with ParliaBlockVerifier. */
  predicate FollowsParlia(cfg: Config, chain: Chain) {
    chain.status == Active && cfg.VerifierAt(chain.verificationFunction).Parlia?
  }

  /** One call advances the history of the chain by one step if and only if it meets the guard, should
      it succeed. */
  lemma CallAdvances(cfg: Config, hub: Hub, call: Call, c: nat, endorsed: bool)
    requires hub.HistoryOf(c).latest > 0
    requires endorsed ==> FollowsParlia(cfg, hub.ChainOf(c))
    requires endorsed ==> hub.ChainOf(c).chainType == BAS || !(call.CheckpointTransition? && call.chainId == c)
    ensures var ok := call.chainId == c && Apply(cfg, hub, call).Ok?;
      && (Advances(cfg, hub.ChainOf(c), c, hub.HistoryOf(c), After(cfg, hub, call).HistoryOf(c), call, ok, endorsed)
          <==> (ok ==> Guard(cfg, hub, call, endorsed)))
      && ((ok ==> Guard(cfg, hub, call, endorsed)) ==> After(cfg, hub, call).HistoryOf(c).latest > 0)
  {
    CallInstallsOne(cfg, hub, call, c);
    if call.chainId == c && Apply(cfg, hub, call).Ok? {
      SuccessStartsEpoch(cfg, hub, call);
      if endorsed {
        NextEndorsed(cfg, hub, call);
      }
    }
  }

  /** A success on an Active chain that ParliaBlockVerifier checks brings the endorsement of the epoch it
      installs if and only if it starts one, a checkpoint with the first header of the epoch. */
  lemma NextEndorsed(cfg: Config, hub: Hub, call: Call)
    requires var c := call.chainId;
      && FollowsParlia(cfg, hub.ChainOf(c)) && hub.HistoryOf(c).latest > 0 && Apply(cfg, hub, call).Ok?
      && (hub.ChainOf(c).chainType == BAS || !call.CheckpointTransition?)
    ensures var c := call.chainId;
      var w := After(cfg, hub, call).HistoryOf(c);
      EndorsedBy(cfg, hub.ChainOf(c), w, c, w.latest, call) <==> StartsEndorsed(cfg, hub, call)
  {
    SuccessStartsEpoch(cfg, hub, call);
    if StartsEpoch(cfg, hub, call) {
      match call
      case Register(_, _, _, _, _, _, _) =>
      case UpdateValidatorSet(_, _) => UpdateEndorses(cfg, hub, call);
      case CheckpointTransition(_, _, _, _, _) => CheckpointIsEndorsed(cfg, hub, call);
    }
  }

  /** Once a chain is Active its bridge, verification function, type and epoch length never change. */
  lemma {:induction false} ActiveChainIsFixed(cfg: Config, hub: Hub, calls: seq<Call>, c: nat)
    requires hub.ChainOf(c).status == Active
    ensures Run(cfg, hub, calls).ChainOf(c) == hub.ChainOf(c)
    decreases |calls|
  {
    if calls != [] {
      var n := |calls| - 1;
      ActiveChainIsFixed(cfg, hub, calls[..n], c);
      CallInstallsOne(cfg, Run(cfg, hub, calls[..n]), calls[n], c);
    }
  }

  lemma StepAdded(cfg: Config, chain: Chain, c: nat, vs: seq<History>, calls: seq<Call>, oks: seq<bool>, w: History,
                  call: Call, ok: bool, endorsed: bool)
    requires |vs| == |oks| + 1 && |calls| == |oks|
    requires AllAdvance(cfg, chain, c, vs, calls, oks, endorsed)
    requires Advances(cfg, chain, c, vs[|oks|], w, call, ok, endorsed)
    ensures AllAdvance(cfg, chain, c, vs + [w], calls + [call], oks + [ok], endorsed)
  {
    var vs', calls', oks' := vs + [w], calls + [call], oks + [ok];
    forall i | 0 <= i < |oks'|
      ensures Advances(cfg, chain, c, vs'[i], vs'[i + 1], calls'[i], oks'[i], endorsed)
    {
      assert i < |oks| ==> Advances(cfg, chain, c, vs[i], vs[i + 1], calls[i], oks[i], endorsed);
    }
  }

  lemma StepDropped(cfg: Config, chain: Chain, c: nat, vs: seq<History>, calls: seq<Call>, oks: seq<bool>,
                    w: History, call: Call, ok: bool, endorsed: bool)
    requires |vs| == |oks| + 1 && |calls| == |oks|
    requires AllAdvance(cfg, chain, c, vs + [w], calls + [call], oks + [ok], endorsed)
    ensures AllAdvance(cfg, chain, c, vs, calls, oks, endorsed)
    ensures Advances(cfg, chain, c, vs[|oks|], w, call, ok, endorsed)
  {
    var vs', calls', oks' := vs + [w], calls + [call], oks + [ok];
    var n := |oks|;
    forall i | 0 <= i < n
      ensures Advances(cfg, chain, c, vs[i], vs[i + 1], calls[i], oks[i], endorsed)
    {
      assert Advances(cfg, chain, c, vs'[i], vs'[i + 1], calls'[i], oks'[i], endorsed);
    }
    assert Advances(cfg, chain, c, vs'[n], vs'[n + 1], calls'[n], oks'[n], endorsed);
  }

  /** The steps of a run with one more call. */
  lemma OneMoreStep(cfg: Config, chain: Chain, c: nat, vs: seq<History>, calls: seq<Call>, oks: seq<bool>, w: History,
                    call: Call, ok: bool, endorsed: bool)
    requires |vs| == |oks| + 1 && |calls| == |oks|
    ensures AllAdvance(cfg, chain, c, vs + [w], calls + [call], oks + [ok], endorsed) <==>
      AllAdvance(cfg, chain, c, vs, calls, oks, endorsed) && Advances(cfg, chain, c, vs[|oks|], w, call, ok, endorsed)
  {
    if AllAdvance(cfg, chain, c, vs, calls, oks, endorsed) &&
       Advances(cfg, chain, c, vs[|oks|], w, call, ok, endorsed) {
      StepAdded(cfg, chain, c, vs, calls, oks, w, call, ok, endorsed);
    }
    if AllAdvance(cfg, chain, c, vs + [w], calls + [call], oks + [ok], endorsed) {
      StepDropped(cfg, chain, c, vs, calls, oks, w, call, ok, endorsed);
    }
  }

  lemma HistoriesEnd(cfg: Config, hub: Hub, calls: seq<Call>, c: nat)
    ensures Histories(cfg, hub, calls, c)[|calls|] == Run(cfg, hub, calls).HistoryOf(c)
  {
  }

  /** Without endorsement a step does not speak of the registration. */
  lemma AnyChain(cfg: Config, chain: Chain, other: Chain, c: nat, v: History, w: History, call: Call, ok: bool)
    ensures Advances(cfg, chain, c, v, w, call, ok, false) <==> Advances(cfg, other, c, v, w, call, ok, false)
  {
  }

  /** A run advances if and only if it does without its last call, and this call advances, too. */
  lemma LastStep(cfg: Config, hub: Hub, calls: seq<Call>, c: nat, chain: Chain, endorsed: bool)
    requires calls != []
    ensures var n := |calls| - 1;
      var before := Run(cfg, hub, calls[..n]);
      AllAdvance(cfg, chain, c, Histories(cfg, hub, calls, c), calls, Successes(cfg, hub, calls, c), endorsed) <==>
        && AllAdvance(cfg, chain, c, Histories(cfg, hub, calls[..n], c), calls[..n],
                      Successes(cfg, hub, calls[..n], c), endorsed)
        && Advances(cfg, chain, c, before.HistoryOf(c), After(cfg, before, calls[n]).HistoryOf(c), calls[n],
                    calls[n].chainId == c && Apply(cfg, before, calls[n]).Ok?, endorsed)
  {
    var n := |calls| - 1;
    var before := Run(cfg, hub, calls[..n]);
    HistoriesEnd(cfg, hub, calls[..n], c);
    assert calls == calls[..n] + [calls[n]];
    OneMoreStep(cfg, chain, c, Histories(cfg, hub, calls[..n], c), calls[..n], Successes(cfg, hub, calls[..n], c),
                Run(cfg, hub, calls).HistoryOf(c), calls[n],
                calls[n].chainId == c && Apply(cfg, before, calls[n]).Ok?, endorsed);
  }

  /** From a latest epoch above 0 the history advances step by step if and only if the run is guarded. */
  lemma {:induction false} RunAdvances(cfg: Config, hub: Hub, calls: seq<Call>, c: nat, endorsed: bool)
    requires hub.HistoryOf(c).latest > 0
    requires endorsed ==> FollowsParlia(cfg, hub.ChainOf(c))
    requires endorsed ==> hub.ChainOf(c).chainType == BAS || NoCheckpoints(calls, c)
    ensures AllAdvance(cfg, hub.ChainOf(c), c, Histories(cfg, hub, calls, c), calls, Successes(cfg, hub, calls, c),
                       endorsed)
      <==> Guarded(cfg, hub, calls, c, endorsed)
    ensures Guarded(cfg, hub, calls, c, endorsed) ==> Run(cfg, hub, calls).HistoryOf(c).latest > 0
    decreases |calls|
  {
    if calls != [] {
      var n := |calls| - 1;
      var before := Run(cfg, hub, calls[..n]);
      RunAdvances(cfg, hub, calls[..n], c, endorsed);
      LastStep(cfg, hub, calls, c, hub.ChainOf(c), endorsed);
      if Guarded(cfg, hub, calls[..n], c, endorsed) {
        if endorsed {
          ActiveChainIsFixed(cfg, hub, calls[..n], c);
        } else {
          AnyChain(cfg, hub.ChainOf(c), before.ChainOf(c), c, before.HistoryOf(c),
                   After(cfg, before, calls[n]).HistoryOf(c), calls[n],
                   calls[n].chainId == c && Apply(cfg, before, calls[n]).Ok?);
        }
        CallAdvances(cfg, before, calls[n], c, endorsed);
      }
    }
  }

  lemma {:induction false} HistoriesStart(cfg: Config, hub: Hub, calls: seq<Call>, c: nat)
    ensures Histories(cfg, hub, calls, c)[0] == hub.HistoryOf(c)
    decreases |calls|
  {
    if calls != [] {
      HistoriesStart(cfg, hub, calls[..|calls| - 1], c);
    }
  }

  /** The epoch machine, from a latest epoch above 0 and whatever the verification function: every success
      raises the latest epoch by exactly one, and no epoch installed before the run ever changes, if every
      success starts an epoch. Step by step this happens only then. */
  lemma EpochMachine(cfg: Config, hub: Hub, calls: seq<Call>, c: nat)
    requires hub.HistoryOf(c).latest > 0
    ensures Guarded(cfg, hub, calls, c, false) <==>
      AllAdvance(cfg, hub.ChainOf(c), c, Histories(cfg, hub, calls, c), calls, Successes(cfg, hub, calls, c), false)
    ensures Guarded(cfg, hub, calls, c, false) ==>
      Continues(cfg, hub.ChainOf(c), c, hub.HistoryOf(c), Run(cfg, hub, calls).HistoryOf(c),
                Count(Successes(cfg, hub, calls, c)), false)
  {
    RunAdvances(cfg, hub, calls, c, false);
    HistoriesStart(cfg, hub, calls, c);
    HistoriesEnd(cfg, hub, calls, c);
    if Guarded(cfg, hub, calls, c, false) {
      AdvancesAlong(cfg, hub.ChainOf(c), c, Histories(cfg, hub, calls, c), calls, Successes(cfg, hub, calls, c), false);
    }
  }

  /** All calls on the chain meet the guard for endorsed steps. */
  predicate AllStart(cfg: Config, hub: Hub, calls: seq<Call>, c: nat) {
    forall i :: 0 <= i < |calls| && calls[i].chainId == c ==> StartsEndorsed(cfg, hub, calls[i])
  }

  /** An Active chain stays as it is, so its calls can be checked before the run. */
  lemma {:induction false} AllStartIsGuarded(cfg: Config, hub: Hub, calls: seq<Call>, c: nat)
    requires FollowsParlia(cfg, hub.ChainOf(c)) && AllStart(cfg, hub, calls, c)
    ensures Guarded(cfg, hub, calls, c, true)
    decreases |calls|
  {
    if calls != [] {
      var n := |calls| - 1;
      assert forall i :: 0 <= i < n ==> calls[..n][i] == calls[i];
      AllStartIsGuarded(cfg, hub, calls[..n], c);
      ActiveChainIsFixed(cfg, hub, calls[..n], c);
    }
  }

  /** The chain of endorsement: from an Active chain above epoch 0 that ParliaBlockVerifier checks, in every
      run, each success installs the next epoch with a validator set for which it brings the endorsement by
      two thirds of the set of the epoch before, if and only if every success starts an epoch, checkpoints
      with the epoch's first header; then all epochs above the starting one are endorsed. Checkpoints of BSC
      chains rest on an external contract, so a BSC chain must not take any. */
  lemma ChainOfEndorsement(cfg: Config, hub: Hub, calls: seq<Call>, c: nat)
    requires FollowsParlia(cfg, hub.ChainOf(c)) && hub.HistoryOf(c).latest > 0
    requires hub.ChainOf(c).chainType == BAS || NoCheckpoints(calls, c)
    ensures AllAdvance(cfg, hub.ChainOf(c), c, Histories(cfg, hub, calls, c), calls, Successes(cfg, hub, calls, c),
                       true)
      <==> Guarded(cfg, hub, calls, c, true)
    ensures Guarded(cfg, hub, calls, c, true) ==>
      var v, w := hub.HistoryOf(c), Run(cfg, hub, calls).HistoryOf(c);
      forall e: nat :: v.latest < e <= w.latest ==> Endorsed(cfg, hub.ChainOf(c), w, c, e)
    ensures AllStart(cfg, hub, calls, c) ==> Guarded(cfg, hub, calls, c, true)
  {
    RunAdvances(cfg, hub, calls, c, true);
    HistoriesStart(cfg, hub, calls, c);
    HistoriesEnd(cfg, hub, calls, c);
    if Guarded(cfg, hub, calls, c, true) {
      AdvancesAlong(cfg, hub.ChainOf(c), c, Histories(cfg, hub, calls, c), calls, Successes(cfg, hub, calls, c), true);
    }
    if AllStart(cfg, hub, calls, c) {
      AllStartIsGuarded(cfg, hub, calls, c);
    }
  }

  // ---------- chains that cannot go on ----------

  /** No list of signers reaches the quorum of the latest epoch. */
  ghost predicate IsStuck(v: History) {
    v.latest > 0 && |Countable(v, v.latest)| < Threshold(v.CountAt(v.latest))
  }

  /** Then no call that starts an epoch succeeds on the chain. */
  lemma StuckChainRefuses(cfg: Config, hub: Hub, call: Call)
    requires FollowsParlia(cfg, hub.ChainOf(call.chainId)) && IsStuck(hub.HistoryOf(call.chainId))
    requires hub.ChainOf(call.chainId).chainType == BAS || !call.CheckpointTransition?
    ensures Apply(cfg, hub, call).Ok? ==> !StartsEpoch(cfg, hub, call)
  {
    var c := call.chainId;
    if Apply(cfg, hub, call).Ok? && StartsEpoch(cfg, hub, call) {
      SuccessStartsEpoch(cfg, hub, call);
      QuorumIsReachable(hub.HistoryOf(c), hub.HistoryOf(c).latest);
      match call
      case Register(_, _, _, _, _, _, _) =>
      case UpdateValidatorSet(_, _) => UpdateTookQuorum(cfg, hub, call);
      case CheckpointTransition(_, _, _, _, _) => CheckpointTookQuorum(cfg, hub, call);
    }
  }

  lemma UpdateTookQuorum(cfg: Config, hub: Hub, call: Call)
    requires call.UpdateValidatorSet? && Updated(cfg, hub, call).Ok?
    requires cfg.VerifierAt(hub.ChainOf(call.chainId).verificationFunction).Parlia?
    requires var v := hub.HistoryOf(call.chainId);
      v.latest > 0 && After(cfg, hub, call).HistoryOf(call.chainId).latest == v.latest + 1
    ensures var v := hub.HistoryOf(call.chainId);
      exists list :: CheckQuorum(v, list, v.latest) == Ok(true)
  {
    var c, chain := call.chainId, hub.ChainOf(call.chainId);
    var v, read := hub.HistoryOf(c), cfg.Reader(chain.verificationFunction);
    var list, e := InstalledByUpdate(cfg, hub, call);
    var first, headers := TransitionChecked(read, c, call.blockProofs, chain.epochLength, v, list, e);
    CheckedFirstHasQuorum(first, Coinbases(headers), chain.epochLength, v);
    assert Before(e) == v.latest;
  }

  lemma CheckpointTookQuorum(cfg: Config, hub: Hub, call: Call)
    requires call.CheckpointTransition? && Checkpointed(cfg, hub, call).Ok?
    requires hub.ChainOf(call.chainId).chainType == BAS
    requires var v := hub.HistoryOf(call.chainId);
      v.latest > 0 && After(cfg, hub, call).HistoryOf(call.chainId).latest == v.latest + 1
    ensures var v := hub.HistoryOf(call.chainId);
      exists list :: CheckQuorum(v, list, v.latest) == Ok(true)
  {
    var v := hub.HistoryOf(call.chainId);
    var list, e := InstalledByCheckpoint(cfg, hub, call);
    assert Before(e) == v.latest;
  }

  /** So in every run in which each success starts an epoch, the history of a stuck chain stays as it is: it
      only moves again through epoch 0. */
  lemma {:induction false} StuckChainStays(cfg: Config, hub: Hub, calls: seq<Call>, c: nat)
    requires FollowsParlia(cfg, hub.ChainOf(c)) && IsStuck(hub.HistoryOf(c))
    requires hub.ChainOf(c).chainType == BAS || NoCheckpoints(calls, c)
    requires Guarded(cfg, hub, calls, c, false)
    ensures Run(cfg, hub, calls).HistoryOf(c) == hub.HistoryOf(c)
    decreases |calls|
  {
    if calls != [] {
      var n := |calls| - 1;
      StuckChainStays(cfg, hub, calls[..n], c);
      ActiveChainIsFixed(cfg, hub, calls[..n], c);
      var before := Run(cfg, hub, calls[..n]);
      CallInstallsOne(cfg, before, calls[n], c);
      if calls[n].chainId == c {
        StuckChainRefuses(cfg, before, calls[n]);
      }
    }
  }
}
