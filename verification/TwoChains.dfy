/** A concrete network of two chains: it meets what the results assume, and shows deposits that are never
    paid. */
module TwoChains {
  import opened Bytes
  import opened Header
  import opened ReceiptParser
  import opened BridgeSpec
  import opened BridgeEvents
  import opened SimpleToken
  import opened TokenText
  import opened BridgeNetwork
  import opened BridgeInvariant
  import opened BridgeSteps
  import opened BridgeOnce
  import opened BridgeRuns
  import opened BridgeLosses
  import opened BridgeOpenWorld
  import opened Wrappers

  const NO_TEXT: Bytes32 := FixedBE(0, 32)
  const NO_RECEIPT := Receipt([], 0, [], [])

  /** The address of a deployed token, for the bridges and origins below. */
  function Peg(bridge: Address, origin: Address): Address {
    1000 * bridge + origin
  }

  /** Chain 1 with bridge 100 and coin 10, chain 2 with bridge 200 and coin 20. */
  function Chains(): Network {
    Network([Site(1, 100, Metadata(NO_TEXT, NO_TEXT, 1, 10), Peg),
             Site(2, 200, Metadata(NO_TEXT, NO_TEXT, 2, 20), Peg)],
            map[10 := Origin(0, 18, NO_TEXT, NO_TEXT), 20 := Origin(1, 18, NO_TEXT, NO_TEXT)], 1, 2, _ => 0)
  }

  const BRIDGES: Registry := map[1 := 100, 2 := 200]

  /** Account 7 has five coins on chain 1. */
  function Start(): World {
    World([State({}, map[], 0, Ledger(map[7 := 5], map[], map[])), State({}, map[], 0, Ledger(map[], map[], map[]))],
          [], [], map[], map[])
  }

  lemma SitesAreOk()
    ensures SiteOk(Chains(), 0) && SiteOk(Chains(), 1)
  {
  }

  lemma PegIs(i: nat, o: Address)
    requires i < 2
    ensures PegOf(Chains(), i, o) == 100_000 * (i + 1) + o
  {
  }

  lemma ChainsAreSound()
    ensures SoundNetwork(Chains())
  {
    var net := Chains();
    SitesAreOk();
    forall i: nat, o | i < 2 && o in net.origins
      ensures PegOf(net, i, o) == 100_000 * (i + 1) + o
    {
      PegIs(i, o);
    }
  }

  lemma StartIsInitial()
    ensures Initial(Chains(), Start())
  {
  }

  lemma BridgesAreClosed()
    ensures Consistent(Chains(), BRIDGES) && Closed(Chains(), BRIDGES)
  {
    assert Chains().sites[0].chainId == 1 && Chains().sites[1].chainId == 2;
    assert InNetwork(Chains(), 1) && InNetwork(Chains(), 2);
  }

  lemma SmallFits(d: Deposit)
    requires d.kind != NoPegIn && d.contract < 0x100_0000 && d.from < 0x100_0000 && d.to < 0x100_0000
    requires d.fromToken < 0x100_0000 && d.toToken < 0x100_0000 && d.metadata.origin < 0x100_0000
    requires d.chainId < 0x100_0000 && d.amount < 0x100_0000 && d.nonce < 0x100_0000
    requires d.metadata.fromChain < 0x100_0000
    ensures Fits(d)
  {
    Pow256Values();
    Pow256Monotone(3, 20);
    Pow256Monotone(3, 32);
  }

  // ---------- two deposits in one transaction ----------

  /** Account 7 sends coins to account 8 on chain 2. */
  function Send(amount: nat): Step {
    NativeDeposit(0, BRIDGES, 7, 2, 8, amount, NO_RECEIPT)
  }

  lemma DepositsCanBeMade() returns (e1: Emitted, e2: Emitted)
    ensures CanDepositTwice(Chains(), Start(), Send(2), Send(3), e1, e2) && e1.deposit.chainId == 2
  {
    BridgesAreClosed();
    e1 := DepositOf(Chains(), Start(), Send(2)).value;
    SmallFits(e1.deposit);
    e2 := DepositOf(Chains(), Midway(Chains(), Start(), e1, 0), Send(3)).value;
    SmallFits(e2.deposit);
  }

  lemma TwoSteps(net: Network, w: World, one: Step, w1: World, two: Step, w2: World)
    requires Possible(net, w, one) && w1 == Do(net, w, one) && Possible(net, w1, two) && w2 == Do(net, w1, two)
    ensures Run(net, w, [one]) == w1 && Run(net, w, [one, two]) == w2
  {
    assert [one, two][..1] == [one] && [one][..0] == [];
    assert Run(net, w, []) == w;
  }

  /** From an initial state of a sound network a run logs two deposits for chain 2, made in one transaction,
      and no run goes on to pay either. */
  lemma BothAreLost() returns (net: Network, w: World, taken: seq<Step>, w2: World, rc: Receipt)
    ensures SoundNetwork(net) && Initial(net, w) && Run(net, w, taken) == w2 && PairLogged(w, w2, 2, rc)
    ensures NeverPaid(net, w2, 0) && NeverPaid(net, w2, 1)
  {
    net, w := Chains(), Start();
    ChainsAreSound();
    StartIsInitial();
    InitialOnce(net, w);
    var e1, e2 := DepositsCanBeMade();
    var w1;
    rc, w1, w2 := TwoInOneTransaction(net, w, Send(2), Send(3), e1, e2, 1);
    taken := [WithReceipt(Send(2), rc), WithReceipt(Send(3), rc)];
    TwoSteps(net, w, taken[0], w1, taken[1], w2);
  }

  // ---------- a burn on the other chain ----------

  /** The hub accepts receipts under chain 1 alone. */
  const UNDER_ONE: HubVerdict := (c: nat) => Ok(c == 1)

  /** The deposit of two coins, and its receipt. */
  function Sent(): Deposit {
    Deposit(Lock, 100, 2, 7, 8, 10, 200_010, 2, 0, Metadata(NO_TEXT, NO_TEXT, 1, 10))
  }

  function SentReceipt(): Receipt {
    LoneReceipt(EventsAt(Chains(), 1), Sent(), 0)
  }

  lemma SendIsEmitted() returns (e: Emitted)
    ensures DepositOf(Chains(), Start(), Send(2)) == Ok(e) && e.deposit == Sent()
  {
    e := DepositOf(Chains(), Start(), Send(2)).value;
  }

  lemma SendIsTaken() returns (e: Emitted)
    ensures e.deposit == Sent() && Possible(Chains(), Start(), WithReceipt(Send(2), SentReceipt()))
    ensures Do(Chains(), Start(), WithReceipt(Send(2), SentReceipt())) == Logged(Start(), 0, e, SentReceipt())
  {
    e := SendIsEmitted();
    BridgesAreClosed();
    SentIsThere();
    DepositIsTaken(Chains(), Start(), Start(), Send(2), e, SentReceipt());
  }

  lemma SentIsThere()
    ensures InReceipt(EventsAt(Chains(), 0), Sent(), SentReceipt())
  {
    SentFits();
    LoneIsThere(Chains(), 0, 1, Sent(), SentReceipt());
  }

  lemma SentFits()
    ensures Fits(Sent())
  {
    SmallFits(Sent());
  }

  lemma LoneIsThere(net: Network, i: nat, k: nat, d: Deposit, rc: Receipt)
    requires i < |net.sites| && k < |net.sites| && Fits(d) && rc == LoneReceipt(EventsAt(net, k), d, 0)
    ensures InReceipt(EventsAt(net, i), d, rc)
  {
    EventIsThere(EventsAt(net, k), d);
    SameEvent(net, i, k, d, rc);
  }

  lemma EventIsThere(ev: Events, d: Deposit)
    requires Fits(d)
    ensures InReceipt(ev, d, LoneReceipt(ev, d, 0))
  {
  }

  /** Chain 2 before and after it has minted two tokens for account 8. */
  function MintedOn(s: State): State {
    s.WithPegged(200_010, Token(NO_TEXT, NO_TEXT, 200, 1, 10, 2, map[8 := 2]))
     .(peggedOrigin := s.peggedOrigin[200_010 := 10])
  }

  lemma SentIsMinted(s: State)
    requires s.ledger.pegged == map[] && s.peggedOrigin == map[]
    ensures PayOut(Chains().sites[1], s, Sent(), true) == Ok(MintedOn(s))
  {
    var r := PayOut(Chains().sites[1], s, Sent(), true);
    assert r.Ok?;
    assert r.value.ledger.pegged == MintedOn(s).ledger.pegged;
  }

  function Claim(): Step {
    Withdrawal(1, BRIDGES, SentReceipt(), 0, UNDER_ONE, true)
  }

  lemma LoneIsPaid(net: Network, i: nat, s: State, registry: Registry, d: Deposit, rc: Receipt, hash: Word,
                   hub: HubVerdict, s': State)
    requires i < |net.sites| && Fits(d) && d.chainId == net.sites[i].chainId && net.locked != net.burned
    requires rc == LoneReceipt(EventsAt(net, i), d, 0) && hash == HashOf(net, rc) && hash !in s.used
    requires d.contract == BridgeAt(registry, d.metadata.fromChain) && hub(d.metadata.fromChain) == Ok(true)
    requires PayOut(net.sites[i], s.(used := s.used + {hash}), d, true) == Ok(s')
    ensures ReceiptDeposit(EventsAt(net, i), rc) == Ok(d)
    ensures WithdrawOn(net, i, s, registry, rc, hub, true) == Ok(s')
  {
    OneEvent(EventsAt(net, i), d, 0);
    StrangerIsPaid(net.sites[i], s, registry, EventsAt(net, i), d, 0, hash, hub, true);
  }

  lemma ClaimGoesThrough(s: State)
    requires s == Start().chains[1]
    ensures ReceiptDeposit(EventsAt(Chains(), 1), SentReceipt()) == Ok(Sent())
    ensures WithdrawOn(Chains(), 1, s, BRIDGES, SentReceipt(), UNDER_ONE, true) == Ok(MintedOn(s.(used := {0})))
  {
    SentFits();
    SentIsPaidOut(s);
    SentIsForTwo();
    LoneIsPaid(Chains(), 1, s, BRIDGES, Sent(), SentReceipt(), 0, UNDER_ONE, MintedOn(s.(used := {0})));
  }

  lemma SentIsPaidOut(s: State)
    requires s == Start().chains[1]
    ensures 0 !in s.used
    ensures PayOut(Chains().sites[1], s.(used := s.used + {0}), Sent(), true) == Ok(MintedOn(s.(used := {0})))
  {
    assert s.used + {0} == {0};
    SentIsMinted(s.(used := {0}));
  }

  lemma SentIsForTwo()
    ensures var net, d := Chains(), Sent();
      && |net.sites| == 2 && d.chainId == net.sites[1].chainId && net.locked != net.burned
      && d.contract == BridgeAt(BRIDGES, d.metadata.fromChain) && UNDER_ONE(d.metadata.fromChain) == Ok(true)
      && HashOf(net, SentReceipt()) == 0 && SentReceipt() == LoneReceipt(EventsAt(net, 1), d, 0)
  {
  }

  /** Chain 2 pays the deposit, on the word of an honest hub. */
  lemma ClaimIsTaken(w1: World)
    requires |w1.chains| == 2 && w1.chains[1] == Start().chains[1]
    requires w1.log == [Entry(0, Sent(), SentReceipt())]
    ensures Possible(Chains(), w1, Claim()) && HonestHub(Chains(), w1, Claim())
    ensures Do(Chains(), w1, Claim()).chains == w1.chains[1 := MintedOn(w1.chains[1].(used := {0}))]
    ensures |Do(Chains(), w1, Claim()).log| == 1
  {
    var s' := MintedOn(w1.chains[1].(used := {0}));
    BridgesAreClosed();
    ClaimGoesThrough(w1.chains[1]);
    SentIsOurs(w1);
    HubIsHonest(w1);
    EntryIsPaid(Chains(), w1, 1, BRIDGES, SentReceipt(), 0, UNDER_ONE, s');
    PaidAccounts(Chains(), w1, 1, 0, s', 0);
  }

  lemma HubIsHonest(w1: World)
    requires |w1.log| == 1 && w1.log[0].source == 0
    ensures HonestHub(Chains(), w1, Claim()) && OneHub(BRIDGES, UNDER_ONE)
  {
    assert Chains().sites[1].chainId == 2;
  }

  /** A withdrawal that pays the j-th entry. */
  lemma EntryIsPaid(net: Network, w: World, i: nat, registry: Registry, rc: Receipt, j: nat, hub: HubVerdict, s': State)
    requires i < |w.chains| == |net.sites| && j < |w.log|
    requires Consistent(net, registry) && OneHub(registry, hub)
    requires SaysOurs(net, i, registry, rc, hub) && Genuine(net, w, i, registry, rc, j, hub)
    requires WithdrawOn(net, i, w.chains[i], registry, rc, hub, true) == Ok(s')
    ensures Possible(net, w, Withdrawal(i, registry, rc, j, hub, true))
    ensures Do(net, w, Withdrawal(i, registry, rc, j, hub, true)) == Paid(net, w, i, j, s')
  {
  }

  lemma SentIsOurs(w1: World)
    requires |w1.chains| == 2 && w1.log == [Entry(0, Sent(), SentReceipt())]
    requires ReceiptDeposit(EventsAt(Chains(), 1), SentReceipt()) == Ok(Sent())
    ensures SaysOurs(Chains(), 1, BRIDGES, SentReceipt(), UNDER_ONE)
    ensures Genuine(Chains(), w1, 1, BRIDGES, SentReceipt(), 0, UNDER_ONE)
  {
    SentIsForTwo();
    assert Chains().sites[0].chainId == 1;
    assert InNetwork(Chains(), 1);
  }

  /** Account 8 burns one token for account 9 on chain 1. */
  function Return(): Step {
    TokenDeposit(1, BRIDGES, 0, 8, 200_010, 1, 9, 1, NO_RECEIPT)
  }

  lemma ReturnIsEmitted(w: World) returns (e: Emitted)
    requires |w.chains| == 2 && w.chains[1] == MintedOn(Start().chains[1].(used := {0}))
    ensures DepositOf(Chains(), w, Return()) == Ok(e) && Fits(e.deposit)
  {
    var r := DepositOf(Chains(), w, Return());
    assert r.Ok?;
    e := r.value;
    SmallFits(e.deposit);
  }

  /** From an initial state of a sound network, with a closed registry and an honest hub, a run pays a deposit on
      chain 2. The token is burned there for its home chain, and no run with an honest hub goes on to pay that. */
  lemma BurnIsLost() returns (net: Network, w: World, taken: seq<Step>, w2: World, burn: Step)
    ensures SoundNetwork(net) && Initial(net, w) && AllClosed(net, taken) && HonestRun(net, w, taken)
    ensures Run(net, w, taken) == w2 && |w2.log| == 1
    ensures Possible(net, w2, burn) && |Do(net, w2, burn).log| == 2
    ensures forall steps :: HonestRun(net, Do(net, w2, burn), steps) ==>
      !IsPaid(Run(net, Do(net, w2, burn), steps).payments, 1)
  {
    net, w := Chains(), Start();
    ChainsAreSound();
    StartIsInitial();
    var e := SendIsTaken();
    var one, w1 := WithReceipt(Send(2), SentReceipt()), Logged(w, 0, e, SentReceipt());
    ClaimIsTaken(w1);
    taken, w2 := [one, Claim()], Do(net, w1, Claim());
    TwoSteps(net, w, one, w1, Claim(), w2);
    BridgesAreClosed();
    RunIsHonest(net, w, one, w1, Claim());
    OnlyNamedChainsPay(net, w, taken);
    burn := BurnOnTwo(w2);
  }

  lemma RunIsHonest(net: Network, w: World, one: Step, w1: World, two: Step)
    requires one.NativeDeposit? && two.Withdrawal? && Run(net, w, [one]) == w1 && HonestHub(net, w1, two)
    requires Closed(net, one.registry) && Closed(net, two.registry)
    ensures HonestRun(net, w, [one, two]) && AllClosed(net, [one, two])
  {
    assert [one, two][..1] == [one] && [one][..0] == [];
    assert HonestRun(net, w, []);
    assert HonestRun(net, w, [one]);
  }

  lemma BurnOnTwo(w2: World) returns (burn: Step)
    requires |w2.chains| == 2 && w2.chains[1] == MintedOn(Start().chains[1].(used := {0}))
    requires OnlyNamedPaid(Chains(), w2) && |w2.log| == 1
    ensures Possible(Chains(), w2, burn) && |Do(Chains(), w2, burn).log| == 2
    ensures forall steps :: HonestRun(Chains(), Do(Chains(), w2, burn), steps) ==>
      !IsPaid(Run(Chains(), Do(Chains(), w2, burn), steps).payments, 1)
  {
    var e := ReturnIsEmitted(w2);
    var rc := LoneReceipt(EventsAt(Chains(), 1), e.deposit, 0);
    EventIsThere(EventsAt(Chains(), 1), e.deposit);
    BridgesAreClosed();
    DepositIsTaken(Chains(), w2, w2, Return(), e, rc);
    burn := WithReceipt(Return(), rc);
    EmitsAlike(Chains(), w2, w2, Return(), rc);
    BurnAbroadIsLost(Chains(), w2, burn);
  }
}
