/** ReceiptParser.sol: finding the one deposit log of a receipt by walking its RLP, and copying the
    log's words over the fields of a memory struct. */
module ReceiptParser {
  import opened Bytes
  import opened Rlp
  import opened RlpIntegers
  import opened Header
  import opened RlpCursor
  import opened Memory
  import opened Wrappers

  datatype PegInType = NoPegIn | Lock | Burn

  // ---------- receipts and what they say ----------

  datatype Log = Log(contract: seq<Byte>, topics: seq<seq<Byte>>, data: seq<Byte>)

  /** A legacy receipt; `status` is the first field's byte string (1 for success, empty for failure,
      or an old-style state root). */
  datatype Receipt = Receipt(status: seq<Byte>, gasUsed: nat, bloom: seq<Byte>, logs: seq<Log>)

  predicate WellFormed(l: Log) {
    |l.contract| == 20 && forall i :: 0 <= i < |l.topics| ==> |l.topics[i]| == 32
  }

  function TopicItems(topics: seq<seq<Byte>>): (r: seq<Item>)
    ensures |r| == |topics| && forall i :: 0 <= i < |topics| ==> r[i] == Str(topics[i])
  {
    if topics == [] then [] else [Str(topics[0])] + TopicItems(topics[1..])
  }

  function LogFields(l: Log): seq<Item> {
    [Str(l.contract), List(TopicItems(l.topics)), Str(l.data)]
  }

  function LogItem(l: Log): Item {
    List(LogFields(l))
  }

  function LogItems(logs: seq<Log>): (r: seq<Item>)
    ensures |r| == |logs| && forall i :: 0 <= i < |logs| ==> r[i] == LogItem(logs[i])
  {
    if logs == [] then [] else [LogItem(logs[0])] + LogItems(logs[1..])
  }

  function ReceiptFields(rc: Receipt): seq<Item> {
    [Str(rc.status), Int(rc.gasUsed), Str(rc.bloom), List(LogItems(rc.logs))]
  }

  function ReceiptItem(r: Receipt): Item {
    List(ReceiptFields(r))
  }

  /** The two event signatures, and the chain the contract runs on. */
  datatype Events = Events(locked: Word, burned: Word, chainId: Word)

  const WORD := 32
  const DATA_LENGTH := 0x120

  /** Word number k of a byte string. */
  function WordAt(s: seq<Byte>, k: nat): nat {
    ReadBE(s, WORD * k, WORD)
  }

  /** Whether a log is a deposit for this chain, and of which kind: three topics, one of the two
      signatures, nine words of data, and this chain's id in the first of them. The emitting contract
      is not looked at here. */
  function LogType(ev: Events, l: Log): PegInType {
    if |l.topics| != 3 || |l.data| != DATA_LENGTH then NoPegIn
    else if BE(l.topics[0]) != ev.locked && BE(l.topics[0]) != ev.burned then NoPegIn
    else if WordAt(l.data, 0) != ev.chainId then NoPegIn
    else if BE(l.topics[0]) == ev.locked then Lock else Burn
  }

  /** The deposit logs among the logs. */
  function Deposits(ev: Events, logs: seq<Log>): seq<Log> {
    if logs == [] then []
    else
      var front, l := Deposits(ev, logs[..|logs| - 1]), logs[|logs| - 1];
      if LogType(ev, l) == NoPegIn then front else front + [l]
  }

  // ---------- the memory struct ----------

  const FIELDS := 13
  const RECEIPT_HASH := 0
  const CONTRACT := 1
  const CHAIN_ID := 2
  const FROM_ADDRESS := 3
  const TO_ADDRESS := 4
  const FROM_TOKEN := 5

  /** Field number k of the struct: receiptHash, contractAddress, chainId, fromAddress, toAddress,
      fromToken, toToken, totalAmount, nonce, originSymbol, originName, originChain, originToken. */
  function Field(state: seq<Byte>, k: nat): nat {
    WordAt(state, k)
  }

  /** What the fields must hold for a deposit log: fields 5 to 12 are the data words 1 to 8. */
  function DepositField(l: Log, k: nat): nat
    requires |l.topics| == 3 && 1 <= k < FIELDS
  {
    if k == CONTRACT then BE(l.contract)
    else if k == CHAIN_ID then WordAt(l.data, 0)
    else if k == FROM_ADDRESS then BE(l.topics[1]) % Pow256(20)
    else if k == TO_ADDRESS then BE(l.topics[2]) % Pow256(20)
    else WordAt(l.data, k - FROM_TOKEN + 1)
  }

  ghost predicate HoldsDeposit(state: seq<Byte>, l: Log)
    requires |l.topics| == 3
  {
    |state| == WORD * FIELDS && forall k :: 1 <= k < FIELDS ==> Field(state, k) == DepositField(l, k)
  }

  /** Storing a word into a field leaves the other fields. */
  lemma FieldStored(s: seq<Byte>, r: seq<Byte>, k: nat, value: nat, j: nat)
    requires |s| == WORD * FIELDS && k < FIELDS && j < FIELDS && value < Pow256(32)
    requires r == Overwrite(s, WORD * k, FixedBE(value, WORD))
    ensures |r| == |s| && Field(r, j) == if j == k then value else Field(s, j)
  {
    OverwriteKeeps(s, WORD * k, FixedBE(value, WORD), 0, []);
    if j == k {
      BEOfFixed(value, 32);
    } else {
      OverwriteKeeps(s, WORD * k, FixedBE(value, WORD), WORD * j, Slice(s, WORD * j, WORD));
    }
  }

  /** Copying n words into consecutive fields. */
  lemma WordsCopied(s: seq<Byte>, r: seq<Byte>, first: nat, n: nat, words: seq<Byte>, j: nat)
    requires |s| == WORD * FIELDS && first + n <= FIELDS && |words| == WORD * n && j < FIELDS
    requires r == Overwrite(s, WORD * first, words)
    ensures |r| == |s|
    ensures Field(r, j) == if first <= j < first + n then WordAt(words, j - first) else Field(s, j)
  {
    OverwriteKeeps(s, WORD * first, words, 0, []);
    if first <= j < first + n {
      SubSlice(r, WORD * first, words, WORD * (j - first), WORD);
    } else {
      OverwriteKeeps(s, WORD * first, words, WORD * j, Slice(s, WORD * j, WORD));
    }
  }

  // ---------- one log ----------

  /** The area holds the encoding of the log l at `log`. */
  ghost predicate IsRawLog(cd: seq<Byte>, log: nat, l: Log) {
    WellFormed(l) && |Encode(LogItem(l))| < Pow256(8) && Holds(cd, log, Encode(LogItem(l)))
  }

  /** Three topics, and only three, encode to 101 bytes. */
  lemma TopicsLength(topics: seq<seq<Byte>>)
    requires forall i :: 0 <= i < |topics| ==> |topics[i]| == 32
    requires |Encode(List(TopicItems(topics)))| < Pow256(8)
    ensures |Encode(List(TopicItems(topics)))| == 101 <==> |topics| == 3
  {
    var body := EncodeAll(TopicItems(topics));
    TopicsPayload(topics);
    EncodeParts(List(TopicItems(topics)));
    if |topics| == 2 || |topics| == 3 {
      Pow256Values();
      MinBELength(|body|, 1);
      MinBEHead(|body|);
    }
  }

  lemma {:induction false} TopicsPayload(topics: seq<seq<Byte>>)
    requires forall i :: 0 <= i < |topics| ==> |topics[i]| == 32
    ensures |EncodeAll(TopicItems(topics))| == 33 * |topics|
  {
    if topics != [] {
      TopicsPayload(topics[1..]);
      assert TopicItems(topics)[1..] == TopicItems(topics[1..]);
    }
  }

  predicate IsWord(x: Item) {
    x.Str? && |x.bytes| == 32
  }

  /** `toUintStrict`: skips one prefix byte and reads a word, whatever the item is. */
  method ReadTopic(cd: seq<Byte>, it: nat, ghost p: nat, ghost xs: seq<Item>, ghost k: nat) returns (v: nat)
    ensures AtField(cd, p, xs, k, it) && k < |xs| && IsWord(xs[k]) ==> v == BE(xs[k].bytes)
  {
    v := Load(cd, it + 1);
    if AtField(cd, p, xs, k, it) && k < |xs| && IsWord(xs[k]) {
      ItemAt(cd, p, xs, k);
      HoldsSplit(cd, it, [0xa0], xs[k].bytes);
    }
  }

  /** One topic and the cursor behind it. */
  method TakeTopic(cd: seq<Byte>, it: nat, ghost p: nat, ghost xs: seq<Item>, ghost k: nat) returns (v: nat, next: nat)
    ensures AtField(cd, p, xs, k, it) && k < |xs| && IsWord(xs[k]) ==>
      v == BE(xs[k].bytes) && AtField(cd, p, xs, k + 1, next)
  {
    v := ReadTopic(cd, it, p, xs, k);
    NextField(cd, it, p, xs, k);
    next := Next(cd, it);
  }

  /** Three topics in a row, and where the cursor stands after them. */
  method ReadThree(cd: seq<Byte>, p: nat, ghost xs: seq<Item>) returns (mainTopic: nat, from: nat, to: nat, it: nat)
    ensures AtField(cd, p, xs, 0, p) && |xs| == 3 && IsWord(xs[0]) && IsWord(xs[1]) && IsWord(xs[2]) ==>
      && mainTopic == BE(xs[0].bytes) && from == BE(xs[1].bytes) && to == BE(xs[2].bytes)
      && AtField(cd, p, xs, 3, it)
  {
    mainTopic, it := TakeTopic(cd, p, p, xs, 0);
    from, it := TakeTopic(cd, it, p, xs, 1);
    to, it := TakeTopic(cd, it, p, xs, 2);
  }

  /** The area holds the list of topics between `at` and `end`. */
  ghost predicate IsTopicList(cd: seq<Byte>, at: nat, end: nat, topics: seq<seq<Byte>>) {
    && (forall i: nat :: i < |topics| ==> |topics[i]| == 32)
    && |Encode(List(TopicItems(topics)))| < Pow256(8)
    && Holds(cd, at, Encode(List(TopicItems(topics))))
    && end == at + |Encode(List(TopicItems(topics)))|
  }

  lemma TopicsStart(cd: seq<Byte>, at: nat, end: nat, topics: seq<seq<Byte>>)
    requires IsTopicList(cd, at, end, topics)
    ensures ItemLength(cd, at) == 101 <==> |topics| == 3
    ensures AtField(cd, at + PayloadOffset(cd, at), TopicItems(topics), 0, at + PayloadOffset(cd, at))
    ensures end == at + PayloadOffset(cd, at) + Offset(TopicItems(topics), |topics|)
  {
    ListStarts(cd, at, TopicItems(topics));
    TopicsLength(topics);
  }

  /** The topics: signature, sender and recipient; None unless their list takes 101 bytes, and a
      revert unless the three topics end where the list ends. */
  method ReadTopics(cd: seq<Byte>, at: nat, end: nat,
                    ghost topics: seq<seq<Byte>>) returns (r: Result<Option<(nat, nat, nat)>>)
    ensures IsTopicList(cd, at, end, topics) ==>
      r == if |topics| == 3 then Ok(Some((BE(topics[0]), BE(topics[1]), BE(topics[2])))) else Ok(None)
  {
    if IsTopicList(cd, at, end, topics) {
      TopicsStart(cd, at, end, topics);
    }
    if ItemLength(cd, at) != 101 {
      return Ok(None);
    }
    var mainTopic, from, to, it := ReadThree(cd, at + PayloadOffset(cd, at), TopicItems(topics));
    if it != end {
      return Revert("");
    }
    return Ok(Some((mainTopic, from, to)));
  }

  datatype LogParts = LogParts(contract: Address, mainTopic: nat, from: Address, to: Address, ptr: nat, len: nat)

  /** The walk over a log found its fields. */
  ghost predicate PartsOf(cd: seq<Byte>, r: Result<Option<LogParts>>, l: Log) {
    if |l.topics| != 3 then r == Ok(None) else r.Ok? && r.value.Some? && Found(cd, r.value.value, l)
  }

  ghost predicate Found(cd: seq<Byte>, f: LogParts, l: Log)
    requires |l.topics| == 3
  {
    && f.contract == BE(l.contract) && f.mainTopic == BE(l.topics[0])
    && f.from == BE(l.topics[1]) % Pow256(20) && f.to == BE(l.topics[2]) % Pow256(20)
    && f.len == |l.data| && Holds(cd, f.ptr, l.data)
  }

  lemma LogStarts(cd: seq<Byte>, log: nat, l: Log)
    requires IsRawLog(cd, log, l)
    ensures AtField(cd, log + PayloadOffset(cd, log), LogFields(l), 0, log + PayloadOffset(cd, log))
  {
    ListStarts(cd, log, LogFields(l));
  }

  /** The second field is the list of topics. */
  lemma TopicsField(cd: seq<Byte>, p: nat, l: Log, at: nat, end: nat)
    requires WellFormed(l) && AtField(cd, p, LogFields(l), 1, at) && AtField(cd, p, LogFields(l), 2, end)
    ensures IsTopicList(cd, at, end, l.topics)
  {
    ItemAt(cd, p, LogFields(l), 1);
  }

  /** The data field: where its bytes are and how many. */
  method ReadData(cd: seq<Byte>, it: nat, ghost p: nat, ghost xs: seq<Item>, ghost k: nat) returns (ptr: nat, len: nat)
    ensures AtField(cd, p, xs, k, it) && k < |xs| && xs[k].Str? ==> len == |xs[k].bytes| && Holds(cd, ptr, xs[k].bytes)
  {
    ptr := it + PayloadOffset(cd, it);
    len := it + ItemLength(cd, it) - ptr;
    if AtField(cd, p, xs, k, it) && k < |xs| && xs[k].Str? {
      ItemAt(cd, p, xs, k);
      ReadsBack(cd, it, xs[k]);
    }
  }

  /** The first field is the emitting contract. */
  method ReadContract(cd: seq<Byte>, p: nat, ghost xs: seq<Item>, ghost bytes: seq<Byte>) returns (contract: Address)
    ensures contract < Pow256(20)
    ensures AtField(cd, p, xs, 0, p) && xs != [] && xs[0] == Str(bytes) && |bytes| == 20 ==> contract == BE(bytes)
  {
    AddressField(cd, p, p, xs, 0);
    contract := ReadAddress(cd, p);
  }

  /** The start of the fields, and the cursors before and after the topics. */
  method FindTopics(cd: seq<Byte>, log: nat, ghost l: Log) returns (p: nat, topics: nat, it: nat)
    ensures IsRawLog(cd, log, l) ==> IsTopicList(cd, topics, it, l.topics)
    ensures IsRawLog(cd, log, l) ==> AtField(cd, p, LogFields(l), 0, p) && AtField(cd, p, LogFields(l), 2, it)
  {
    p := log + PayloadOffset(cd, log);
    if IsRawLog(cd, log, l) {
      LogStarts(cd, log, l);
    }
    topics, it := SkipTwo(cd, p, LogFields(l));
    if IsRawLog(cd, log, l) {
      TopicsField(cd, p, l, topics, it);
    }
  }

  /** The cursors behind the first two items. */
  method SkipTwo(cd: seq<Byte>, p: nat, ghost xs: seq<Item>) returns (first: nat, second: nat)
    ensures AtField(cd, p, xs, 0, p) && |xs| >= 2 ==> AtField(cd, p, xs, 1, first) && AtField(cd, p, xs, 2, second)
  {
    first := Next(cd, p);
    second := Next(cd, first);
    NextField(cd, p, p, xs, 0);
    NextField(cd, first, p, xs, 1);
  }

  method WalkLog(cd: seq<Byte>, log: nat, ghost l: Log) returns (r: Result<Option<LogParts>>)
    ensures r.Ok? && r.value.Some? ==>
      r.value.value.contract < Pow256(20) && r.value.value.from < Pow256(20) && r.value.value.to < Pow256(20)
    ensures IsRawLog(cd, log, l) ==> PartsOf(cd, r, l)
  {
    var p, topics, it := FindTopics(cd, log, l);
    var contract := ReadContract(cd, p, LogFields(l), l.contract);
    var words :- ReadTopics(cd, topics, it, l.topics);
    if words.None? {
      return Ok(None);
    }
    var ptr, len := ReadData(cd, it, p, LogFields(l), 2);
    var from, to := words.value.1 % Pow256(20), words.value.2 % Pow256(20);
    return Ok(Some(LogParts(contract, words.value.0, from, to, ptr, len)));
  }

  /** The struct after the writes for a deposit log, in the order they are made. */
  function Written(s: seq<Byte>, chainId: nat, words: seq<Byte>, contract: nat, from: nat, to: nat): (r: seq<Byte>)
    requires |s| == WORD * FIELDS && |words| == WORD * 8
    ensures |r| == |s|
  {
    var s1 := Overwrite(s, WORD * CHAIN_ID, FixedBE(chainId, WORD));
    var s2 := Overwrite(s1, WORD * FROM_TOKEN, words);
    var s3 := Overwrite(s2, WORD * CONTRACT, FixedBE(contract, WORD));
    var s4 := Overwrite(s3, WORD * FROM_ADDRESS, FixedBE(from, WORD));
    Overwrite(s4, WORD * TO_ADDRESS, FixedBE(to, WORD))
  }

  lemma WrittenFields(s: seq<Byte>, chainId: nat, words: seq<Byte>, contract: nat, from: nat, to: nat, k: nat)
    requires |s| == WORD * FIELDS && |words| == WORD * 8 && 1 <= k < FIELDS
    requires chainId < Pow256(32) && contract < Pow256(20) && from < Pow256(20) && to < Pow256(20)
    ensures Field(Written(s, chainId, words, contract, from, to), k) ==
      if k == CONTRACT then contract
      else if k == CHAIN_ID then chainId
      else if k == FROM_ADDRESS then from
      else if k == TO_ADDRESS then to
      else WordAt(words, k - FROM_TOKEN)
  {
    Pow256Monotone(20, 32);
    var s1 := Overwrite(s, WORD * CHAIN_ID, FixedBE(chainId, WORD));
    var s2 := Overwrite(s1, WORD * FROM_TOKEN, words);
    var s3 := Overwrite(s2, WORD * CONTRACT, FixedBE(contract, WORD));
    var s4 := Overwrite(s3, WORD * FROM_ADDRESS, FixedBE(from, WORD));
    FieldStored(s, s1, CHAIN_ID, chainId, k);
    WordsCopied(s1, s2, FROM_TOKEN, 8, words, k);
    FieldStored(s2, s3, CONTRACT, contract, k);
    FieldStored(s3, s4, FROM_ADDRESS, from, k);
    FieldStored(s4, Overwrite(s4, WORD * TO_ADDRESS, FixedBE(to, WORD)), TO_ADDRESS, to, k);
  }

  method WriteDeposit(state: array<Byte>, cd: seq<Byte>, ptr: nat, chainId: nat, f: LogParts)
    requires state.Length == WORD * FIELDS
    modifies state
    ensures state[..] == Written(old(state[..]), chainId, Slice(cd, ptr, WORD * 8), f.contract, f.from, f.to)
  {
    StoreBytes(state, WORD * CHAIN_ID, FixedBE(chainId, WORD));
    CalldataCopy(state, WORD * FROM_TOKEN, cd, ptr, WORD * 8);
    StoreBytes(state, WORD * CONTRACT, FixedBE(f.contract, WORD));
    StoreBytes(state, WORD * FROM_ADDRESS, FixedBE(f.from, WORD));
    StoreBytes(state, WORD * TO_ADDRESS, FixedBE(f.to, WORD));
  }

  /** The words copied are the data words from the second on. */
  lemma DataWords(cd: seq<Byte>, ptr: nat, data: seq<Byte>, k: nat)
    requires Holds(cd, ptr, data) && |data| == DATA_LENGTH && k < 8
    ensures WordAt(Slice(cd, ptr + WORD, WORD * 8), k) == WordAt(data, k + 1)
    ensures Load(cd, ptr) == WordAt(data, 0)
  {
    var words := Slice(cd, ptr + WORD, WORD * 8);
    SubSlice(cd, ptr, data, 0, WORD);
    SubSlice(cd, ptr, data, WORD * (k + 1), WORD);
    assert Slice(words, WORD * k, WORD) == Slice(cd, ptr + WORD * (k + 1), WORD);
  }

  /** The eight words are the data words behind the first. */
  ghost predicate CopiedWords(words: seq<Byte>, data: seq<Byte>) {
    |words| == WORD * 8 && forall k: nat :: k < 8 ==> WordAt(words, k) == WordAt(data, k + 1)
  }

  lemma AllDataWords(cd: seq<Byte>, ptr: nat, data: seq<Byte>)
    requires Holds(cd, ptr, data) && |data| == DATA_LENGTH
    ensures CopiedWords(Slice(cd, ptr + WORD, WORD * 8), data)
  {
    var words := Slice(cd, ptr + WORD, WORD * 8);
    forall k: nat | k < 8
      ensures WordAt(words, k) == WordAt(data, k + 1)
    {
      DataWords(cd, ptr, data, k);
    }
  }

  lemma DepositFieldWritten(f: LogParts, l: Log, s: seq<Byte>, chainId: nat, words: seq<Byte>, k: nat)
    requires |s| == WORD * FIELDS && |l.topics| == 3 && CopiedWords(words, l.data) && 1 <= k < FIELDS
    requires f.contract == BE(l.contract) && f.from == BE(l.topics[1]) % Pow256(20) &&
      f.to == BE(l.topics[2]) % Pow256(20)
    requires f.contract < Pow256(20) && f.from < Pow256(20) && f.to < Pow256(20)
    requires chainId < Pow256(32) && WordAt(l.data, 0) == chainId
    ensures Field(Written(s, chainId, words, f.contract, f.from, f.to), k) == DepositField(l, k)
  {
    WrittenFields(s, chainId, words, f.contract, f.from, f.to, k);
  }

  lemma DepositWritten(f: LogParts, l: Log, s: seq<Byte>, chainId: nat, words: seq<Byte>)
    requires |s| == WORD * FIELDS && |l.topics| == 3 && CopiedWords(words, l.data)
    requires f.contract == BE(l.contract) && f.from == BE(l.topics[1]) % Pow256(20) &&
      f.to == BE(l.topics[2]) % Pow256(20)
    requires f.contract < Pow256(20) && f.from < Pow256(20) && f.to < Pow256(20)
    requires chainId < Pow256(32) && WordAt(l.data, 0) == chainId
    ensures HoldsDeposit(Written(s, chainId, words, f.contract, f.from, f.to), l)
  {
    forall k: nat | 1 <= k < FIELDS
      ensures Field(Written(s, chainId, words, f.contract, f.from, f.to), k) == DepositField(l, k)
    {
      DepositFieldWritten(f, l, s, chainId, words, k);
    }
  }

  lemma DepositFromCalldata(cd: seq<Byte>, f: LogParts, l: Log, s: seq<Byte>, chainId: nat)
    requires |s| == WORD * FIELDS && |l.topics| == 3 && Found(cd, f, l) && |l.data| == DATA_LENGTH
    requires f.contract < Pow256(20) && f.from < Pow256(20) && f.to < Pow256(20)
    requires chainId < Pow256(32) && WordAt(l.data, 0) == chainId
    ensures HoldsDeposit(Written(s, chainId, Slice(cd, f.ptr + WORD, WORD * 8), f.contract, f.from, f.to), l)
  {
    AllDataWords(cd, f.ptr, l.data);
    DepositWritten(f, l, s, chainId, Slice(cd, f.ptr + WORD, WORD * 8));
  }

  /** `_decodeReceiptLogs`: recognises a deposit for this chain and only then writes the struct. */
  method DecodeReceiptLog(ev: Events, state: array<Byte>, cd: seq<Byte>, log: nat,
                          ghost l: Log) returns (r: Result<PegInType>)
    requires state.Length == WORD * FIELDS
    modifies state
    ensures r == Ok(NoPegIn) ==> state[..] == old(state[..])
    ensures IsRawLog(cd, log, l) ==> r == Ok(LogType(ev, l))
    ensures IsRawLog(cd, log, l) && LogType(ev, l) != NoPegIn ==> HoldsDeposit(state[..], l)
  {
    var walked := WalkLog(cd, log, l);
    var parts :- walked;
    if parts.None? {
      return Ok(NoPegIn);
    }
    var f := parts.value;
    if f.len != DATA_LENGTH {
      return Ok(NoPegIn);
    }
    var pegInType: PegInType;
    if f.mainTopic == ev.locked {
      pegInType := Lock;
    } else if f.mainTopic == ev.burned {
      pegInType := Burn;
    } else {
      return Ok(NoPegIn);
    }
    if IsRawLog(cd, log, l) {
      DataWords(cd, f.ptr, l.data, 0);
    }
    var chainId := Load(cd, f.ptr);
    if chainId != ev.chainId {
      return Ok(NoPegIn);
    }
    if IsRawLog(cd, log, l) {
      DepositFromCalldata(cd, f, l, state[..], chainId);
    }
    WriteDeposit(state, cd, f.ptr + WORD, chainId, f);
    return Ok(pegInType);
  }

  // ---------- the whole receipt ----------

  /** What a receipt says: the kind and the log of its only deposit for this chain. */
  function TheDeposit(ev: Events, rc: Receipt): Result<(PegInType, Log)> {
    var ds := Deposits(ev, rc.logs);
    if rc.status != [1] then Revert("tx is reverted")
    else if |ds| == 0 then Revert("missing logs")
    else if |ds| > 1 then Revert("multiple logs")
    else Ok((LogType(ev, ds[0]), ds[0]))
  }

  lemma {:induction false} DepositsAreDeposits(ev: Events, logs: seq<Log>)
    ensures forall l :: l in Deposits(ev, logs) <==> l in logs && LogType(ev, l) != NoPegIn
  {
    if logs != [] {
      DepositsAreDeposits(ev, logs[..|logs| - 1]);
      assert logs == logs[..|logs| - 1] + [logs[|logs| - 1]];
    }
  }

  lemma {:induction false} DepositsGrow(ev: Events, logs: seq<Log>, i: nat)
    requires i <= |logs|
    ensures Deposits(ev, logs[..i]) <= Deposits(ev, logs)
    decreases |logs|
  {
    if i == |logs| {
      assert logs[..i] == logs;
    } else {
      assert logs[..|logs| - 1][..i] == logs[..i];
      DepositsGrow(ev, logs[..|logs| - 1], i);
    }
  }

  ghost predicate IsRawReceipt(cd: seq<Byte>, off: nat, rc: Receipt) {
    && (forall l :: l in rc.logs ==> WellFormed(l))
    && |Encode(ReceiptItem(rc))| < Pow256(8) && Holds(cd, off, Encode(ReceiptItem(rc)))
  }

  /** A byte below 0x80 is its own item. */
  lemma SingleByteReads(cd: seq<Byte>, it: nat, s: seq<Byte>)
    requires |s| == 1 && Holds(cd, it, s) && PayloadOffset(cd, it) == 0
    ensures ToUint(cd, it, 1) == Ok(s[0] as nat)
  {
    LoadTopIsRead(cd, it, 1);
    assert Slice(cd, it, 1) == s;
    assert BE(s) == 256 * BE([]) + s[0] as int;
  }

  lemma LongerItemReads(cd: seq<Byte>, it: nat)
    requires PayloadOffset(cd, it) >= 1
    ensures ToUint(cd, it, 1) != Ok(1)
  {
    if PayloadOffset(cd, it) == 1 {
      LoadTopIsRead(cd, it + 1, 0);
    }
  }

  /** Reading the status with length 1 gives 1 for the one-byte status 1 and for nothing else. */
  lemma StatusReads(cd: seq<Byte>, p: nat, xs: seq<Item>, it: nat)
    requires AtField(cd, p, xs, 0, it) && |xs| > 0 && xs[0].Str?
    ensures ToUint(cd, it, 1) == Ok(1) <==> xs[0].bytes == [1]
  {
    ItemAt(cd, p, xs, 0);
    StatusItem(cd, it, xs[0].bytes);
  }

  lemma StatusItem(cd: seq<Byte>, it: nat, s: seq<Byte>)
    requires Holds(cd, it, Encode(Str(s))) && |Encode(Str(s))| < Pow256(8)
    ensures ToUint(cd, it, 1) == Ok(1) <==> s == [1]
  {
    ReadsBack(cd, it, Str(s));
    if PayloadOffset(cd, it) == 0 {
      SingleByteReads(cd, it, s);
    } else {
      LongerItemReads(cd, it);
    }
  }

  /** Inside a list the cursor is before the end; after the last item it is at the end. */
  lemma CursorBeforeEnd(cd: seq<Byte>, p: nat, xs: seq<Item>, k: nat, it: nat)
    requires AtField(cd, p, xs, k, it)
    ensures it < p + Offset(xs, |xs|) <==> k < |xs|
  {
    OffsetEnds(xs);
    if k < |xs| {
      ItemAt(cd, p, xs, k);
      NeverEmpty(xs[k]);
    }
  }

  lemma {:induction false} LogAt(cd: seq<Byte>, p: nat, logs: seq<Log>, k: nat, it: nat)
    requires AtField(cd, p, LogItems(logs), k, it) && k < |logs| && WellFormed(logs[k])
    ensures IsRawLog(cd, it, logs[k])
  {
    ItemAt(cd, p, LogItems(logs), k);
  }

  // ---------- the walk over the logs ----------

  /** What the loop knows after the first i logs. */
  ghost predicate Scanned(ev: Events, logs: seq<Log>, i: nat, state: seq<Byte>, pegInType: PegInType) {
    i <= |logs| &&
    var ds := Deposits(ev, logs[..i]);
    if pegInType == NoPegIn then ds == []
    else |ds| == 1 && pegInType == LogType(ev, ds[0]) && HoldsTheDeposit(state, ds[0])
  }

  ghost predicate HoldsTheDeposit(state: seq<Byte>, l: Log) {
    |l.topics| == 3 && HoldsDeposit(state, l)
  }

  lemma DepositsStep(ev: Events, logs: seq<Log>, i: nat)
    requires i < |logs|
    ensures Deposits(ev, logs[..i + 1]) ==
      Deposits(ev, logs[..i]) + (if LogType(ev, logs[i]) == NoPegIn then [] else [logs[i]])
  {
    assert logs[..i + 1][..i] == logs[..i];
  }

  lemma SecondDeposit(ev: Events, logs: seq<Log>, i: nat)
    requires i < |logs| && Deposits(ev, logs[..i]) != [] && LogType(ev, logs[i]) != NoPegIn
    ensures |Deposits(ev, logs)| > 1
  {
    DepositsStep(ev, logs, i);
    DepositsGrow(ev, logs, i + 1);
  }

  /** One more log, with the outcome r and the struct after it. */
  lemma {:induction false} ScannedStep(ev: Events, logs: seq<Log>, i: nat, state: seq<Byte>, pegInType: PegInType,
                                       state': seq<Byte>, logType: PegInType)
    requires i < |logs| && Scanned(ev, logs, i, state, pegInType) && logType == LogType(ev, logs[i])
    requires if logType == NoPegIn then state' == state else HoldsTheDeposit(state', logs[i])
    ensures pegInType == NoPegIn || logType == NoPegIn ==>
      Scanned(ev, logs, i + 1, state', if logType == NoPegIn then pegInType else logType)
    ensures pegInType != NoPegIn && logType != NoPegIn ==> |Deposits(ev, logs)| > 1
  {
    DepositsStep(ev, logs, i);
    if pegInType != NoPegIn && logType != NoPegIn {
      SecondDeposit(ev, logs, i);
    }
  }

  /** The area holds the logs between the two cursors. */
  ghost predicate IsLogList(cd: seq<Byte>, first: nat, end: nat, logs: seq<Log>) {
    && (forall l :: l in logs ==> WellFormed(l))
    && AtField(cd, first, LogItems(logs), 0, first) && end == first + Offset(LogItems(logs), |logs|)
  }

  /** The outcome of the scan: nothing, the only deposit's kind with its words in the struct, or a
      revert when there are two. */
  ghost predicate DepositFound(ev: Events, logs: seq<Log>, r: Result<PegInType>, state: seq<Byte>) {
    var ds := Deposits(ev, logs);
    if |ds| == 0 then r == Ok(NoPegIn)
    else if |ds| > 1 then r == Revert("multiple logs")
    else r == Ok(LogType(ev, ds[0])) && LogType(ev, ds[0]) != NoPegIn && HoldsTheDeposit(state, ds[0])
  }

  lemma ScannedAll(ev: Events, logs: seq<Log>, state: seq<Byte>, pegInType: PegInType)
    requires Scanned(ev, logs, |logs|, state, pegInType)
    ensures DepositFound(ev, logs, Ok(pegInType), state)
  {
    assert logs[..|logs|] == logs;
    DepositsAreDeposits(ev, logs);
  }

  /** The cursor is at the i-th log, and the scan has got that far. */
  ghost predicate AtLog(ev: Events, cd: seq<Byte>, first: nat, end: nat, logs: seq<Log>, i: nat, it: nat,
                        state: seq<Byte>, pegInType: PegInType) {
    IsLogList(cd, first, end, logs) && AtField(cd, first, LogItems(logs), i, it) &&
      Scanned(ev, logs, i, state, pegInType)
  }

  lemma LogIsNext(ev: Events, cd: seq<Byte>, first: nat, end: nat, logs: seq<Log>, i: nat, it: nat, state: seq<Byte>,
                  pegInType: PegInType)
    requires AtLog(ev, cd, first, end, logs, i, it, state, pegInType)
    ensures it < end <==> i < |logs|
    ensures i < |logs| ==> IsRawLog(cd, it, logs[i])
    ensures i == |logs| ==> DepositFound(ev, logs, Ok(pegInType), state)
  {
    CursorBeforeEnd(cd, first, LogItems(logs), i, it);
    if i < |logs| {
      LogAt(cd, first, logs, i, it);
    } else {
      ScannedAll(ev, logs, state, pegInType);
    }
  }

  /** One round of the loop. */
  method ScanLog(ev: Events, state: array<Byte>, cd: seq<Byte>, first: nat, end: nat, it: nat, pegInType: PegInType,
                 ghost logs: seq<Log>, ghost i: nat)
    returns (r: Result<PegInType>, next: nat)
    requires state.Length == WORD * FIELDS && it < end
    modifies state
    ensures next > it
    ensures AtLog(ev, cd, first, end, logs, i, it, old(state[..]), pegInType) ==>
      if r.Ok? then AtLog(ev, cd, first, end, logs, i + 1, next, state[..], r.value)
      else r.reason == "multiple logs" && |Deposits(ev, logs)| > 1
  {
    ghost var canonical := AtLog(ev, cd, first, end, logs, i, it, state[..], pegInType);
    ghost var before := state[..];
    if canonical {
      LogIsNext(ev, cd, first, end, logs, i, it, state[..], pegInType);
    }
    NextField(cd, it, first, LogItems(logs), i);
    next := Next(cd, it);
    ghost var l := if canonical then logs[i] else Log([], [], []);
    var decoded := DecodeReceiptLog(ev, state, cd, it, l);
    if decoded.Revert? {
      return decoded, next;
    }
    if canonical {
      ScannedStep(ev, logs, i, before, pegInType, state[..], decoded.value);
    }
    if decoded.value == NoPegIn {
      return Ok(pegInType), next;
    }
    if pegInType != NoPegIn {
      return Revert("multiple logs"), next;
    }
    return decoded, next;
  }

  method ScanLogs(ev: Events, state: array<Byte>, cd: seq<Byte>, first: nat, end: nat, ghost logs: seq<Log>)
    returns (r: Result<PegInType>)
    requires state.Length == WORD * FIELDS
    modifies state
    ensures IsLogList(cd, first, end, logs) ==> DepositFound(ev, logs, r, state[..])
  {
    ghost var i: nat := 0;
    var it := first;
    r := Ok(NoPegIn);
    while it < end
      invariant r.Ok?
      invariant IsLogList(cd, first, end, logs) ==> AtLog(ev, cd, first, end, logs, i, it, state[..], r.value)
      decreases end - it
    {
      r, it := ScanLog(ev, state, cd, first, end, it, r.value, logs, i);
      if r.Revert? {
        return;
      }
      i := i + 1;
    }
    if IsLogList(cd, first, end, logs) {
      LogIsNext(ev, cd, first, end, logs, i, it, state[..], r.value);
    }
  }

  lemma ReceiptStarts(cd: seq<Byte>, off: nat, rc: Receipt)
    requires IsRawReceipt(cd, off, rc)
    ensures AtField(cd, off + PayloadOffset(cd, off), ReceiptFields(rc), 0, off + PayloadOffset(cd, off))
  {
    ListStarts(cd, off, ReceiptFields(rc));
  }

  lemma LogsField(cd: seq<Byte>, p: nat, rc: Receipt, logs: nat)
    requires AtField(cd, p, ReceiptFields(rc), 3, logs) && forall l :: l in rc.logs ==> WellFormed(l)
    ensures IsLogList(cd, logs + PayloadOffset(cd, logs), logs + ItemLength(cd, logs), rc.logs)
  {
    ItemAt(cd, p, ReceiptFields(rc), 3);
    ListStarts(cd, logs, LogItems(rc.logs));
  }

  /** The hash is written last and leaves the other fields. */
  lemma HashWritten(s: seq<Byte>, hash: Word, l: Log)
    requires HoldsTheDeposit(s, l)
    ensures HoldsTheDeposit(Overwrite(s, WORD * RECEIPT_HASH, FixedBE(hash, WORD)), l)
  {
    var r := Overwrite(s, WORD * RECEIPT_HASH, FixedBE(hash, WORD));
    forall k: nat | 1 <= k < FIELDS
      ensures Field(r, k) == DepositField(l, k)
    {
      FieldStored(s, r, RECEIPT_HASH, hash, k);
    }
  }

  /** The fields in front of the logs: the status is checked, gas and bloom are skipped. */
  method WalkReceipt(cd: seq<Byte>, off: nat, ghost rc: Receipt) returns (r: Result<nat>)
    ensures IsRawReceipt(cd, off, rc) ==>
      if rc.status != [1] then r == Revert("tx is reverted")
      else r.Ok? && IsLogList(cd, r.value + PayloadOffset(cd, r.value), r.value + ItemLength(cd, r.value), rc.logs)
  {
    ghost var xs, canonical := ReceiptFields(rc), IsRawReceipt(cd, off, rc);
    var p := off + PayloadOffset(cd, off);
    if canonical {
      ReceiptStarts(cd, off, rc);
      StatusReads(cd, p, xs, p);
    }
    var status := ToUint(cd, p, 1);
    if status != Ok(1) {
      return Revert("tx is reverted");
    }
    var it := Next(cd, Next(cd, Next(cd, p)));
    if canonical {
      NextField(cd, p, p, xs, 0);
      NextField(cd, Next(cd, p), p, xs, 1);
      NextField(cd, Next(cd, Next(cd, p)), p, xs, 2);
      LogsField(cd, p, rc, it);
    }
    return Ok(it);
  }

  method StoreHash(state: array<Byte>, hash: Word, ghost l: Log)
    requires state.Length == WORD * FIELDS
    modifies state
    ensures Field(state[..], RECEIPT_HASH) == hash
    ensures old(HoldsTheDeposit(state[..], l)) ==> HoldsTheDeposit(state[..], l)
  {
    FieldStored(state[..], Overwrite(state[..], WORD * RECEIPT_HASH, FixedBE(hash, WORD)), RECEIPT_HASH, hash,
                RECEIPT_HASH);
    if HoldsTheDeposit(state[..], l) {
      HashWritten(state[..], hash, l);
    }
    StoreBytes(state, WORD * RECEIPT_HASH, FixedBE(hash, WORD));
  }

  /** The outcome is that of the receipt: its kind and its only deposit's fields, or the reason. */
  ghost predicate SaysReceipt(ev: Events, rc: Receipt, r: Result<PegInType>, state: seq<Byte>) {
    match TheDeposit(ev, rc)
    case Revert(reason) => r == Revert(reason)
    case Ok((kind, l)) => r == Ok(kind) && HoldsTheDeposit(state, l)
  }

  /** The outcome of the logs alone. */
  ghost predicate SaysLogs(ev: Events, logs: seq<Log>, r: Result<PegInType>, state: seq<Byte>) {
    var ds := Deposits(ev, logs);
    if |ds| == 0 then r == Revert("missing logs")
    else if |ds| > 1 then r == Revert("multiple logs")
    else r == Ok(LogType(ev, ds[0])) && HoldsTheDeposit(state, ds[0])
  }

  method ReadLogs(ev: Events, state: array<Byte>, cd: seq<Byte>, at: nat, ghost logs: seq<Log>)
    returns (r: Result<PegInType>)
    requires state.Length == WORD * FIELDS
    modifies state
    ensures r.Ok? ==> r.value != NoPegIn
    ensures IsLogList(cd, at + PayloadOffset(cd, at), at + ItemLength(cd, at), logs) ==>
      SaysLogs(ev, logs, r, state[..])
  {
    r := ScanLogs(ev, state, cd, at + PayloadOffset(cd, at), at + ItemLength(cd, at), logs);
    if r == Ok(NoPegIn) {
      r := Revert("missing logs");
    }
  }

  /** The checks and the scan, up to the receipt's hash. */
  method ReadReceipt(ev: Events, state: array<Byte>, cd: seq<Byte>, off: nat, ghost rc: Receipt)
    returns (r: Result<PegInType>)
    requires state.Length == WORD * FIELDS
    modifies state
    ensures r.Ok? ==> r.value != NoPegIn
    ensures IsRawReceipt(cd, off, rc) ==> SaysReceipt(ev, rc, r, state[..])
  {
    var logs :- WalkReceipt(cd, off, rc);
    r := ReadLogs(ev, state, cd, logs, rc.logs);
  }

  /** `parseTransactionReceipt`: parsing inverts the encoding. For every well-formed legacy receipt it
      returns kind and fields of the only deposit for this chain, with the hash of the raw bytes, and
      it reverts exactly when the status is not 1, or no log or more than one is such a deposit. */
  method ParseTransactionReceipt(c: Crypto, ev: Events, cd: seq<Byte>, off: nat, len: nat, ghost rc: Receipt)
    returns (r: Result<PegInType>, state: array<Byte>)
    requires off + len <= |cd|
    ensures fresh(state) && state.Length == WORD * FIELDS
    ensures r.Ok? ==> r.value != NoPegIn && Field(state[..], RECEIPT_HASH) == c.keccak(cd[off..off + len])
    ensures IsRawReceipt(cd, off, rc) ==> SaysReceipt(ev, rc, r, state[..])
  {
    state := new Byte[WORD * FIELDS](_ => 0);
    r := ReadReceipt(ev, state, cd, off, rc);
    if r.Ok? {
      ghost var l := if TheDeposit(ev, rc).Ok? then TheDeposit(ev, rc).value.1 else Log([], [], []);
      StoreHash(state, c.keccak(cd[off..off + len]), l);
    }
  }
}
