/** Deposit events as logs: what a bridge emits, and what the parser's struct says back. */
module BridgeEvents {
  import opened Bytes
  import opened Header
  import opened ReceiptParser
  import opened BridgeSpec
  import opened Wrappers

  /** Words one after the other. */
  function Words(ws: seq<nat>): (r: seq<Byte>)
    ensures |r| == WORD * |ws|
  {
    if ws == [] then [] else Words(ws[..|ws| - 1]) + FixedBE(ws[|ws| - 1], WORD)
  }

  lemma {:induction false} WordsSliced(ws: seq<nat>, k: nat)
    requires k < |ws|
    ensures Slice(Words(ws), WORD * k, WORD) == FixedBE(ws[k], WORD)
  {
    var n := |ws| - 1;
    if k < n {
      WordsSliced(ws[..n], k);
      SliceOfFront(Words(ws[..n]), FixedBE(ws[n], WORD), WORD * k, WORD);
    } else {
      SliceOfBack(Words(ws[..n]), FixedBE(ws[n], WORD));
    }
  }

  lemma {:induction false} WordsReadBack(ws: seq<nat>, k: nat)
    requires k < |ws| && ws[k] < Pow256(32)
    ensures Slice(Words(ws), WORD * k, WORD) == FixedBE(ws[k], WORD)
    ensures WordAt(Words(ws), k) == ws[k]
  {
    WordsSliced(ws, k);
    BEOfFixed(ws[k], 32);
  }

  lemma SliceOfFront(front: seq<Byte>, back: seq<Byte>, p: nat, n: nat)
    requires p + n <= |front|
    ensures Slice(front + back, p, n) == Slice(front, p, n)
  {
  }

  lemma SliceOfBack(front: seq<Byte>, back: seq<Byte>)
    ensures Slice(front + back, |front|, |back|) == back
  {
  }

  function Signature(ev: Events, kind: PegInType): nat {
    if kind == Lock then ev.locked else ev.burned
  }

  function EventWords(d: Deposit): seq<nat> {
    [d.chainId, d.fromToken, d.toToken, d.amount, d.nonce,
     BE(d.metadata.symbol), BE(d.metadata.name), d.metadata.fromChain, d.metadata.origin]
  }

  /** The log of a deposit event: signature, sender and recipient are topics, the rest is data. */
  function EventLog(ev: Events, d: Deposit): Log {
    Log(FixedBE(d.contract, 20),
        [FixedBE(Signature(ev, d.kind), WORD), FixedBE(d.from, WORD), FixedBE(d.to, WORD)],
        Words(EventWords(d)))
  }

  /** The metadata as read at byte 0x120 of the struct. */
  function GetMetadata(state: seq<Byte>): Metadata {
    Metadata(Slice(state, 0x120, WORD), Slice(state, 0x120 + WORD, WORD),
             ReadBE(state, 0x120 + 2 * WORD, WORD), ReadBE(state, 0x120 + 3 * WORD, WORD) % Pow256(20))
  }

  /** The parsed struct as a deposit; address fields count by their low 160 bits. */
  function StateDeposit(kind: PegInType, state: seq<Byte>): Deposit {
    Deposit(kind, Field(state, 1) % Pow256(20), Field(state, 2), Field(state, 3) % Pow256(20),
            Field(state, 4) % Pow256(20),
            Field(state, 5) % Pow256(20), Field(state, 6) % Pow256(20), Field(state, 7), Field(state, 8),
            GetMetadata(state))
  }

  /** What a log of three topics says as a deposit of the given kind. */
  function LogDeposit(kind: PegInType, l: Log): Deposit
    requires |l.topics| == 3
  {
    Deposit(kind, BE(l.contract) % Pow256(20), WordAt(l.data, 0), BE(l.topics[1]) % Pow256(20),
            BE(l.topics[2]) % Pow256(20),
            WordAt(l.data, 1) % Pow256(20), WordAt(l.data, 2) % Pow256(20), WordAt(l.data, 3), WordAt(l.data, 4),
            LogMetadata(l.data))
  }

  /** The last four words of a deposit log's data. */
  function LogMetadata(data: seq<Byte>): Metadata {
    Metadata(Slice(data, WORD * 5, WORD), Slice(data, WORD * 6, WORD), WordAt(data, 7), WordAt(data, 8) % Pow256(20))
  }

  /** The values of a deposit fit in their event fields. */
  ghost predicate Fits(d: Deposit) {
    && d.kind != NoPegIn
    && d.contract < Pow256(20) && d.from < Pow256(20) && d.to < Pow256(20)
    && d.fromToken < Pow256(20) && d.toToken < Pow256(20) && d.metadata.origin < Pow256(20)
    && d.chainId < Pow256(32) && d.amount < Pow256(32) && d.nonce < Pow256(32) && d.metadata.fromChain < Pow256(32)
  }

  lemma EventWordFits(d: Deposit, k: nat, small: nat, limit: nat)
    requires k < 9 && small <= limit
    requires d.fromToken < small && d.toToken < small && d.metadata.origin < small
    requires d.chainId < limit && d.amount < limit && d.nonce < limit && d.metadata.fromChain < limit
    requires BE(d.metadata.symbol) < limit && BE(d.metadata.name) < limit
    ensures EventWords(d)[k] < limit
  {
  }

  /** The event's data, word by word. */
  lemma EventData(d: Deposit, k: nat)
    requires Fits(d) && k < 9
    ensures WordAt(Words(EventWords(d)), k) == EventWords(d)[k]
    ensures Slice(Words(EventWords(d)), WORD * k, WORD) == FixedBE(EventWords(d)[k], WORD)
  {
    EventWordIsWord(d, k);
    WordsReadBack(EventWords(d), k);
  }

  lemma EventWordIsWord(d: Deposit, k: nat)
    requires Fits(d) && k < 9
    ensures EventWords(d)[k] < Pow256(32)
  {
    var small, limit := EventLimits(d);
    EventWordFits(d, k, small, limit);
  }

  lemma EventLimits(d: Deposit) returns (small: nat, limit: nat)
    requires Fits(d)
    ensures small <= limit == Pow256(32)
    ensures d.fromToken < small && d.toToken < small && d.metadata.origin < small
    ensures d.chainId < limit && d.amount < limit && d.nonce < limit && d.metadata.fromChain < limit
    ensures BE(d.metadata.symbol) < limit && BE(d.metadata.name) < limit
  {
    small, limit := Pow256(20), Pow256(32);
    Pow256Monotone(20, 32);
    BEBound(d.metadata.symbol);
    BEBound(d.metadata.name);
  }

  /** The event of a deposit is recognised on the chain it names and on no other, with its kind. */
  lemma EventIsRecognised(ev: Events, d: Deposit)
    requires Fits(d) && ev.locked != ev.burned
    ensures WellFormed(EventLog(ev, d))
    ensures LogType(ev, EventLog(ev, d)) == if d.chainId == ev.chainId then d.kind else NoPegIn
  {
    var l := EventLog(ev, d);
    EventShape(ev, d);
    BEOfFixed(Signature(ev, d.kind), 32);
    EventData(d, 0);
    assert WordAt(l.data, 0) == d.chainId;
    RecognisedBy(ev, d, l);
  }

  lemma EventShape(ev: Events, d: Deposit)
    ensures var l := EventLog(ev, d);
      WellFormed(l) && |l.topics| == 3 && |l.data| == DATA_LENGTH && l.topics[0] == FixedBE(Signature(ev, d.kind), WORD)
  {
  }

  lemma RecognisedBy(ev: Events, d: Deposit, l: Log)
    requires |l.topics| == 3 && |l.data| == DATA_LENGTH && d.kind != NoPegIn && ev.locked != ev.burned
    requires BE(l.topics[0]) == Signature(ev, d.kind) && WordAt(l.data, 0) == d.chainId
    ensures LogType(ev, l) == if d.chainId == ev.chainId then d.kind else NoPegIn
  {
  }

  /** An address survives 32-byte and 20-byte fields. */
  lemma AddressReads(a: Address)
    requires a < Pow256(20)
    ensures BE(FixedBE(a, 20)) == a && BE(FixedBE(a, 32)) == a && a % Pow256(20) == a
  {
    Pow256Monotone(20, 32);
    BEOfFixed(a, 20);
    BEOfFixed(a, 32);
    SmallRemainder(a, Pow256(20));
  }

  /** The topics and the contract of the event's log. */
  lemma EventTopics(ev: Events, d: Deposit)
    requires Fits(d)
    ensures var l := EventLog(ev, d);
      BE(l.contract) == d.contract && BE(l.topics[1]) % Pow256(20) == d.from && BE(l.topics[2]) % Pow256(20) == d.to
  {
    AddressReads(d.contract);
    AddressReads(d.from);
    AddressReads(d.to);
  }

  lemma FieldHeld(state: seq<Byte>, l: Log, k: nat)
    requires HoldsTheDeposit(state, l) && 1 <= k < FIELDS
    ensures Field(state, k) == DepositField(l, k)
  {
  }

  /** The metadata view covers the struct's last four fields. */
  lemma MetadataFields(state: seq<Byte>)
    requires |state| == WORD * FIELDS
    ensures GetMetadata(state).symbol == FixedBE(Field(state, 9), WORD) &&
      GetMetadata(state).name == FixedBE(Field(state, 10), WORD)
    ensures GetMetadata(state).fromChain == Field(state, 11) &&
      GetMetadata(state).origin == Field(state, 12) % Pow256(20)
  {
    FixedBEOfBE(Slice(state, WORD * 9, WORD));
    FixedBEOfBE(Slice(state, WORD * 10, WORD));
  }

  /** The metadata view of a struct that holds a log. */
  lemma MetadataHeld(state: seq<Byte>, l: Log)
    requires HoldsTheDeposit(state, l)
    ensures GetMetadata(state) == LogMetadata(l.data)
  {
    MetadataFields(state);
    FieldHeld(state, l, 9);
    FieldHeld(state, l, 10);
    FieldHeld(state, l, 11);
    FieldHeld(state, l, 12);
    FixedBEOfBE(Slice(l.data, WORD * 5, WORD));
    FixedBEOfBE(Slice(l.data, WORD * 6, WORD));
  }

  lemma RemainderTwice(n: nat, m: nat)
    requires m > 0
    ensures n % m % m == n % m
  {
    SmallRemainder(n % m, m);
  }

  lemma AddressesHeld(state: seq<Byte>, l: Log)
    requires HoldsTheDeposit(state, l)
    ensures Field(state, 3) % Pow256(20) == BE(l.topics[1]) % Pow256(20)
    ensures Field(state, 4) % Pow256(20) == BE(l.topics[2]) % Pow256(20)
  {
    FieldHeld(state, l, 3);
    FieldHeld(state, l, 4);
    RemainderTwice(BE(l.topics[1]), Pow256(20));
    RemainderTwice(BE(l.topics[2]), Pow256(20));
  }

  lemma WordsHeld(state: seq<Byte>, l: Log)
    requires HoldsTheDeposit(state, l)
    ensures Field(state, 1) == BE(l.contract) && Field(state, 2) == WordAt(l.data, 0)
    ensures Field(state, 5) == WordAt(l.data, 1) && Field(state, 6) == WordAt(l.data, 2)
    ensures Field(state, 7) == WordAt(l.data, 3) && Field(state, 8) == WordAt(l.data, 4)
  {
    FieldHeld(state, l, 1);
    FieldHeld(state, l, 2);
    FieldHeld(state, l, 5);
    FieldHeld(state, l, 6);
    FieldHeld(state, l, 7);
    FieldHeld(state, l, 8);
  }

  /** The struct that holds a log, read with the metadata view, says what the log says. */
  lemma StateIsLog(kind: PegInType, state: seq<Byte>, l: Log)
    requires HoldsTheDeposit(state, l)
    ensures StateDeposit(kind, state) == LogDeposit(kind, l)
  {
    WordsHeld(state, l);
    AddressesHeld(state, l);
    MetadataHeld(state, l);
  }

  lemma EventMetadata(ev: Events, d: Deposit)
    requires Fits(d)
    ensures LogMetadata(EventLog(ev, d).data) == d.metadata
  {
    EventData(d, 5);
    EventData(d, 6);
    EventData(d, 7);
    EventData(d, 8);
    FixedBEOfBE(d.metadata.symbol);
    FixedBEOfBE(d.metadata.name);
    SmallRemainder(d.metadata.origin, Pow256(20));
  }

  /** One number of the event's data. */
  lemma NumberReads(ev: Events, d: Deposit, k: nat, n: nat)
    requires Fits(d) && k < 9 && EventWords(d)[k] == n
    ensures WordAt(EventLog(ev, d).data, k) == n
  {
    EventData(d, k);
  }

  lemma TokenReads(ev: Events, d: Deposit, k: nat, a: Address)
    requires Fits(d) && k < 9 && EventWords(d)[k] == a && a < Pow256(20)
    ensures WordAt(EventLog(ev, d).data, k) % Pow256(20) == a
  {
    NumberReads(ev, d, k, a);
    SmallRemainder(a, Pow256(20));
  }

  lemma EventNumbers(ev: Events, d: Deposit)
    requires Fits(d)
    ensures var data := EventLog(ev, d).data;
      WordAt(data, 0) == d.chainId && WordAt(data, 3) == d.amount && WordAt(data, 4) == d.nonce
  {
    NumberReads(ev, d, 0, d.chainId);
    NumberReads(ev, d, 3, d.amount);
    NumberReads(ev, d, 4, d.nonce);
  }

  lemma EventTokens(ev: Events, d: Deposit)
    requires Fits(d)
    ensures var data := EventLog(ev, d).data;
      WordAt(data, 1) % Pow256(20) == d.fromToken && WordAt(data, 2) % Pow256(20) == d.toToken
  {
    TokenReads(ev, d, 1, d.fromToken);
    TokenReads(ev, d, 2, d.toToken);
  }

  /** Decoding inverts emitting. */
  lemma LogSaysDeposit(ev: Events, d: Deposit)
    requires Fits(d)
    ensures |EventLog(ev, d).topics| == 3 && LogDeposit(d.kind, EventLog(ev, d)) == d
  {
    EventTopics(ev, d);
    EventNumbers(ev, d);
    EventTokens(ev, d);
    EventMetadata(ev, d);
    SmallRemainder(d.contract, Pow256(20));
  }

  /** Different deposits of the same kind of event have different logs. */
  lemma LogsDiffer(ev: Events, d: Deposit, e: Deposit)
    requires Fits(d) && Fits(e) && d != e && ev.locked != ev.burned
    ensures EventLog(ev, d) != EventLog(ev, e)
  {
    LogSaysDeposit(ev, d);
    LogSaysDeposit(ev, e);
    BEOfFixed(Signature(ev, d.kind), 32);
    BEOfFixed(Signature(ev, e.kind), 32);
  }

  /** The parsed struct is turned into a deposit. */
  method ReadDeposit(kind: PegInType, state: seq<Byte>, ghost l: Log) returns (r: Deposit)
    ensures HoldsTheDeposit(state, l) ==> r == LogDeposit(kind, l)
  {
    if HoldsTheDeposit(state, l) {
      StateIsLog(kind, state, l);
    }
    r := StateDeposit(kind, state);
  }

  // ---------- a recognised log is an event ----------

  /** Words read back are the bytes they were read from. */
  lemma {:induction false} WordsOfBytes(s: seq<Byte>, ws: seq<nat>)
    requires |s| == WORD * |ws| && forall k :: 0 <= k < |ws| ==> ws[k] == WordAt(s, k)
    ensures Words(ws) == s
  {
    if ws != [] {
      var n := |ws| - 1;
      var front := s[..WORD * n];
      forall k | 0 <= k < n
        ensures ws[..n][k] == WordAt(front, k)
      {
        assert Slice(front, WORD * k, WORD) == Slice(s, WORD * k, WORD);
      }
      WordsOfBytes(front, ws[..n]);
      FixedBEOfBE(Slice(s, WORD * n, WORD));
      assert s == front + s[WORD * n..];
    }
  }

  /** The words that hold addresses have nothing above them. */
  predicate AddressesAreShort(l: Log)
    requires |l.topics| == 3
  {
    && BE(l.topics[1]) < Pow256(20) && BE(l.topics[2]) < Pow256(20)
    && WordAt(l.data, 1) < Pow256(20) && WordAt(l.data, 2) < Pow256(20) && WordAt(l.data, 8) < Pow256(20)
  }

  /** The deposit's fields are the words of the data and the topics themselves. */
  predicate FieldsAreWords(l: Log, d: Deposit)
    requires |l.topics| == 3
  {
    && d.contract == BE(l.contract) && d.from == BE(l.topics[1]) && d.to == BE(l.topics[2])
    && d.chainId == WordAt(l.data, 0) && d.fromToken == WordAt(l.data, 1) && d.toToken == WordAt(l.data, 2)
    && d.amount == WordAt(l.data, 3) && d.nonce == WordAt(l.data, 4)
    && d.metadata.symbol == Slice(l.data, WORD * 5, WORD) && d.metadata.name == Slice(l.data, WORD * 6, WORD)
    && d.metadata.fromChain == WordAt(l.data, 7) && d.metadata.origin == WordAt(l.data, 8)
  }

  lemma ShortFields(l: Log, kind: PegInType, limit: nat)
    requires |l.topics| == 3 && AddressesAreShort(l) && limit == Pow256(20) && BE(l.contract) < limit
    ensures FieldsAreWords(l, LogDeposit(kind, l))
  {
    SmallRemainder(BE(l.contract), limit);
    SmallRemainder(BE(l.topics[1]), limit);
    SmallRemainder(BE(l.topics[2]), limit);
    SmallRemainder(WordAt(l.data, 1), limit);
    SmallRemainder(WordAt(l.data, 2), limit);
    SmallRemainder(WordAt(l.data, 8), limit);
  }

  lemma DataIsWords(l: Log, d: Deposit)
    requires |l.topics| == 3 && |l.data| == DATA_LENGTH && FieldsAreWords(l, d)
    ensures Words(EventWords(d)) == l.data
  {
    WordsOfBytes(l.data, EventWords(d));
  }

  lemma TopicsAreWords(ev: Events, l: Log, d: Deposit)
    requires WellFormed(l) && |l.topics| == 3 && FieldsAreWords(l, d) && BE(l.topics[0]) == Signature(ev, d.kind)
    ensures EventLog(ev, d).contract == l.contract && EventLog(ev, d).topics == l.topics
  {
    FixedBEOfBE(l.contract);
    FixedBEOfBE(l.topics[0]);
    FixedBEOfBE(l.topics[1]);
    FixedBEOfBE(l.topics[2]);
  }

  lemma ContractIsShort(contract: seq<Byte>)
    requires |contract| == 20
    ensures BE(contract) < Pow256(20)
  {
    BEBound(contract);
  }

  lemma RecognisedMeans(ev: Events, l: Log)
    requires LogType(ev, l) != NoPegIn
    ensures |l.topics| == 3 && |l.data| == DATA_LENGTH && BE(l.topics[0]) == Signature(ev, LogType(ev, l))
    ensures WordAt(l.data, 0) == ev.chainId
  {
  }

  lemma WordIsWord(s: seq<Byte>, k: nat)
    ensures WordAt(s, k) < Pow256(32)
  {
    BEBound(Slice(s, WORD * k, WORD));
  }

  /** What a recognised log says fits an event, whatever stands above its addresses. */
  lemma RecognisedFits(ev: Events, l: Log)
    requires LogType(ev, l) != NoPegIn
    ensures |l.topics| == 3 && Fits(LogDeposit(LogType(ev, l), l))
  {
    WordIsWord(l.data, 0);
    WordIsWord(l.data, 3);
    WordIsWord(l.data, 4);
    WordIsWord(l.data, 7);
  }

  /** Emitting what a recognised log says gives the log back: nine words of data, three topics, the chain's own id in
      front. Bytes above an address are all that parsing loses. */
  lemma RecognisedIsEvent(ev: Events, l: Log)
    requires WellFormed(l) && LogType(ev, l) != NoPegIn
    ensures |l.topics| == 3 && LogDeposit(LogType(ev, l), l).chainId == ev.chainId
    ensures AddressesAreShort(l) ==> EventLog(ev, LogDeposit(LogType(ev, l), l)) == l
  {
    RecognisedMeans(ev, l);
    if AddressesAreShort(l) {
      var d := LogDeposit(LogType(ev, l), l);
      ContractIsShort(l.contract);
      ShortFields(l, LogType(ev, l), Pow256(20));
      DataIsWords(l, d);
      TopicsAreWords(ev, l, d);
    }
  }

  // ---------- receipts with one deposit ----------

  lemma {:induction false} DepositsConcat(ev: Events, a: seq<Log>, b: seq<Log>)
    ensures Deposits(ev, a + b) == Deposits(ev, a) + Deposits(ev, b)
  {
    if b == [] {
      assert a + b == a;
    } else {
      var n := |b| - 1;
      assert (a + b)[..|a + b| - 1] == a + b[..n];
      DepositsConcat(ev, a, b[..n]);
    }
  }

  /** The receipt of a transaction with the event of d among other logs, none of which is a deposit for
      this chain, says d. */
  lemma ReceiptSaysDeposit(ev: Events, rc: Receipt, before: seq<Log>, d: Deposit, after: seq<Log>)
    requires Fits(d) && ev.locked != ev.burned && d.chainId == ev.chainId
    requires rc.status == [1] && rc.logs == before + [EventLog(ev, d)] + after
    requires Deposits(ev, before) == [] && Deposits(ev, after) == []
    ensures TheDeposit(ev, rc) == Ok((d.kind, EventLog(ev, d)))
  {
    var l := EventLog(ev, d);
    EventIsRecognised(ev, d);
    DepositsConcat(ev, before + [l], after);
    DepositsConcat(ev, before, [l]);
    assert [l][..0] == [];
    assert Deposits(ev, [l]) == [l];
  }

  // ---------- what a receipt says ----------

  lemma FoundHasTopics(ev: Events, rc: Receipt)
    requires TheDeposit(ev, rc).Ok?
    ensures var (kind, l) := TheDeposit(ev, rc).value;
      |l.topics| == 3 && kind == LogType(ev, l) != NoPegIn && l in rc.logs
  {
    DepositsAreDeposits(ev, rc.logs);
    assert Deposits(ev, rc.logs)[0] in Deposits(ev, rc.logs);
  }

  /** The deposit that a receipt says on a chain, or the parser's revert. */
  function ReceiptDeposit(ev: Events, rc: Receipt): Result<Deposit> {
    var found :- TheDeposit(ev, rc);
    FoundHasTopics(ev, rc);
    Ok(LogDeposit(found.0, found.1))
  }

  /** `withdraw` from the receipt on; `hash` is the hash of its bytes. */
  function WithdrawReceipt(site: Site, s: State, registry: Registry, ev: Events, rc: Receipt, hash: Word,
                           hub: HubVerdict, accepts: bool): Result<State> {
    var d :- ReceiptDeposit(ev, rc);
    Withdraw(site, s, registry, d, hash, hub, accepts)
  }

  lemma ReceiptWithdrawn(site: Site, s: State, registry: Registry, ev: Events, rc: Receipt, hash: Word,
                         hub: HubVerdict, accepts: bool)
    ensures WithdrawReceipt(site, s, registry, ev, rc, hash, hub, accepts) ==
      match ReceiptDeposit(ev, rc)
      case Revert(reason) => Revert(reason)
      case Ok(d) => Withdraw(site, s, registry, d, hash, hub, accepts)
  {
  }

  /** The withdrawal of a receipt that can only say d. */
  lemma ReceiptPaysOut(site: Site, s: State, registry: Registry, ev: Events, rc: Receipt, hash: Word,
                       hub: HubVerdict, accepts: bool, d: Deposit, alone: bool)
    requires ReceiptDeposit(ev, rc) == if alone then Ok(d) else Revert("multiple logs")
    ensures WithdrawReceipt(site, s, registry, ev, rc, hash, hub, accepts).Ok? <==>
      alone && Passes(site, s, registry, d, hash, hub) && PayOut(site, s.(used := s.used + {hash}), d, accepts).Ok?
    ensures WithdrawReceipt(site, s, registry, ev, rc, hash, hub, accepts).Ok? ==>
      WithdrawReceipt(site, s, registry, ev, rc, hash, hub, accepts) ==
        PayOut(site, s.(used := s.used + {hash}), d, accepts)
  {
    ReceiptWithdrawn(site, s, registry, ev, rc, hash, hub, accepts);
    WithdrawalIsPayOut(site, s, registry, d, hash, hub, accepts);
  }

  /** Saying a deposit takes exactly one recognised log. */
  lemma SaysOne(ev: Events, rc: Receipt)
    requires ReceiptDeposit(ev, rc).Ok?
    ensures |Deposits(ev, rc.logs)| == 1 && ReceiptDeposit(ev, rc).value.chainId == ev.chainId
  {
    FoundHasTopics(ev, rc);
  }

  /** The event of d is in the receipt of a transaction that was not reverted. */
  ghost predicate InReceipt(ev: Events, d: Deposit, rc: Receipt) {
    Fits(d) && rc.status == [1] && EventLog(ev, d) in rc.logs
  }

  lemma TwoOfThem<T>(s: seq<T>, a: T, b: T)
    requires a in s && b in s && a != b
    ensures |s| > 1
  {
  }

  lemma OnlyRecognised(ev: Events, rc: Receipt, l: Log)
    requires rc.status == [1] && l in rc.logs && LogType(ev, l) != NoPegIn
    ensures |Deposits(ev, rc.logs)| >= 1
    ensures TheDeposit(ev, rc) ==
      if |Deposits(ev, rc.logs)| == 1 then Ok((LogType(ev, l), l)) else Revert("multiple logs")
  {
    DepositsAreDeposits(ev, rc.logs);
    assert l in Deposits(ev, rc.logs);
  }

  /** Such a receipt says d on the chain that d names, if no other log of it is recognised there; else it
      is good for nothing. */
  lemma SaysOnlyDeposit(ev: Events, d: Deposit, rc: Receipt)
    requires InReceipt(ev, d, rc) && d.chainId == ev.chainId && ev.locked != ev.burned
    ensures |Deposits(ev, rc.logs)| >= 1
    ensures ReceiptDeposit(ev, rc) == if |Deposits(ev, rc.logs)| == 1 then Ok(d) else Revert("multiple logs")
  {
    EventIsRecognised(ev, d);
    OnlyRecognised(ev, rc, EventLog(ev, d));
    LogSaysDeposit(ev, d);
  }

  /** Two deposits for the same chain in one transaction: the parser takes neither. */
  lemma TwoDepositsRevert(ev: Events, d: Deposit, e: Deposit, rc: Receipt)
    requires InReceipt(ev, d, rc) && InReceipt(ev, e, rc) && d != e && d.chainId == e.chainId == ev.chainId
    requires ev.locked != ev.burned
    ensures |Deposits(ev, rc.logs)| > 1 && TheDeposit(ev, rc) == Revert("multiple logs")
  {
    EventIsRecognised(ev, d);
    EventIsRecognised(ev, e);
    LogsDiffer(ev, d, e);
    DepositsAreDeposits(ev, rc.logs);
    TwoOfThem(Deposits(ev, rc.logs), EventLog(ev, d), EventLog(ev, e));
  }
}
