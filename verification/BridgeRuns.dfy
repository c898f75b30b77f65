/** What holds over every run of the network on closed registries: solvency, funds, names. */
module BridgeRuns {
  import opened Bytes
  import opened Header
  import opened ReceiptParser
  import opened BridgeSpec
  import opened BridgeUnits
  import opened BridgeEvents
  import opened SimpleToken
  import opened TokenText
  import opened BridgeNetwork
  import opened BridgeInvariant
  import opened BridgeSteps
  import opened Wrappers

  lemma {:induction false} NothingDeployed(net: Network, chains: seq<State>, o: Address, n: nat)
    requires n <= |chains| == |net.sites|
    requires forall i: nat :: i < |chains| ==> chains[i].ledger.pegged == map[]
    ensures Supply(net, chains, o, n) == 0
  {
    if n > 0 {
      NothingDeployed(net, chains, o, n - 1);
    }
  }

  lemma InitialSolvent(net: Network, w: World, o: Address)
    requires SoundNetwork(net) && Initial(net, w) && o in net.origins
    ensures Solvent(net, w, o)
  {
    BackingIsEscrowLessSupply(net, w, o, |w.chains|);
    NothingDeployed(net, w.chains, o, |w.chains|);
  }

  lemma InitialInv(net: Network, w: World)
    requires SoundNetwork(net) && Initial(net, w)
    ensures Inv(net, w)
  {
    forall o | o in net.origins
      ensures Solvent(net, w, o)
    {
      InitialSolvent(net, w, o);
    }
  }

  /** No withdrawal of the run uses a registry that knows a chain outside the network. */
  ghost predicate AllClosed(net: Network, steps: seq<Step>) {
    forall k :: 0 <= k < |steps| ==> ClosedStep(net, steps[k])
  }

  lemma {:induction false} RunKeepsInv(net: Network, w: World, steps: seq<Step>)
    requires SoundNetwork(net) && Inv(net, w) && AllClosed(net, steps)
    ensures Inv(net, Run(net, w, steps))
  {
    if steps != [] {
      var n := |steps| - 1;
      RunKeepsInv(net, w, steps[..n]);
      var v := Run(net, w, steps[..n]);
      assert ClosedStep(net, steps[n]);
      if Possible(net, v, steps[n]) {
        StepKeepsInv(net, v, steps[n]);
      }
    }
  }

  /** Escrow solvency over every interleaving of deposits, withdrawals and other transfers on registries
      without chains outside the network: in units of 18 decimals, what the home bridge holds is the supply
      of the deployed tokens on all chains, plus all deposits not paid yet, plus the remainders dropped by
      unlocks, plus gifts. */
  lemma EscrowCoversSupply(net: Network, w: World, steps: seq<Step>, o: Address)
    requires SoundNetwork(net) && Initial(net, w) && AllClosed(net, steps) && o in net.origins
    ensures var v := Run(net, w, steps);
      && |v.chains| == |net.sites|
      && Escrow(net, v, o) * Factor(net, o) ==
           Supply(net, v.chains, o, |v.chains|) + Unpaid(v.log, v.payments, o, |v.log|)
           + Get(v.dust, o) + Get(v.donated, o) * Factor(net, o)
      && (net.origins[o].decimals <= 18 ==>
           Escrow(net, v, o) * Pow10(18) ==
             Owed(net, v, o) * Pow10(net.origins[o].decimals) + Get(v.donated, o) * Pow10(18))
  {
    InitialInv(net, w);
    RunKeepsInv(net, w, steps);
    var v := Run(net, w, steps);
    BackingIsEscrowLessSupply(net, v, o, |v.chains|);
    if net.origins[o].decimals <= 18 {
      AccountInUnits(Escrow(net, v, o), Owed(net, v, o), Get(v.donated, o), Factor(net, o), net.origins[o].decimals);
    }
  }

  /** Deployed tokens, unpaid deposits and dropped remainders of an origin token, in units of 18 decimals. */
  ghost function Owed(net: Network, v: World, o: Address): nat
    requires |v.chains| == |net.sites|
  {
    Supply(net, v.chains, o, |v.chains|) + Unpaid(v.log, v.payments, o, |v.log|) + Get(v.dust, o)
  }

  /** What the recipient's side of a payout needs: a taker of coins other than the bridge, or an
      address that is not 0, and for a mint, room in the supply. */
  predicate CanReceive(net: Network, i: nat, s: State, d: Deposit, accepts: bool)
    requires i < |net.sites|
  {
    if d.toToken == net.sites[i].native.origin then accepts && d.to != net.sites[i].self
    else if Unlocks(d) then d.to != 0
    else d.to != 0 && SupplyAt(net, i, s.ledger, d.metadata.origin) + d.amount < WORD_LIMIT
  }

  /** What the receipt of a logged deposit says on the chain the deposit names: this deposit, if no other
      log of the receipt is recognised there, and otherwise nothing. */
  lemma EntrySays(net: Network, w: World, i: nat, j: nat)
    requires SoundNetwork(net) && Inv(net, w) && i < |w.chains| && j < |w.log|
    requires w.log[j].deposit.chainId == net.sites[i].chainId
    ensures var rc := w.log[j].receipt;
      ReceiptDeposit(EventsAt(net, i), rc) ==
        if |Deposits(EventsAt(net, i), rc.logs)| == 1 then Ok(w.log[j].deposit) else Revert("multiple logs")
  {
    var x := w.log[j];
    assert EntryOk(net, w.chains, x);
    SameEvent(net, i, x.source, x.deposit, x.receipt);
    SaysOnlyDeposit(EventsAt(net, i), x.deposit, x.receipt);
  }

  /** The event's log does not depend on the chain it is read on. */
  lemma SameEvent(net: Network, i: nat, k: nat, d: Deposit, rc: Receipt)
    requires i < |net.sites| && k < |net.sites| && InReceipt(EventsAt(net, k), d, rc)
    ensures InReceipt(EventsAt(net, i), d, rc)
  {
    assert EventLog(EventsAt(net, i), d) == EventLog(EventsAt(net, k), d);
  }

  /** A withdrawal of a logged deposit on the chain it names succeeds exactly if its log is the only one of
      its receipt that is recognised there, the hub accepts the proof and the registry names the emitting
      bridge, both for the origin's chain, the receipt was not used, and the recipient's side is in order.
      It never fails for lack of funds or because a token is missing. */
  lemma WithdrawalSucceeds(net: Network, w: World, i: nat, registry: Registry, j: nat, hub: HubVerdict,
                           accepts: bool)
    requires SoundNetwork(net) && Inv(net, w) && i < |w.chains| && j < |w.log|
    requires w.log[j].deposit.chainId == net.sites[i].chainId
    ensures var d, rc := w.log[j].deposit, w.log[j].receipt;
      WithdrawOn(net, i, w.chains[i], registry, rc, hub, accepts).Ok? <==>
        && |Deposits(EventsAt(net, i), rc.logs)| == 1
        && hub(d.metadata.fromChain) == Ok(true) && BridgeAt(registry, d.metadata.fromChain) == d.contract
        && HashOf(net, rc) !in w.chains[i].used && CanReceive(net, i, w.chains[i], d, accepts)
  {
    var x := w.log[j];
    EntrySays(net, w, i, j);
    if HashOf(net, x.receipt) !in w.chains[i].used {
      DepositIsPaid(net, w, i, j, accepts);
    }
    Succeeds(net.sites[i], w.chains[i], registry, EventsAt(net, i), x.receipt, HashOf(net, x.receipt), hub, accepts,
             x.deposit, |Deposits(EventsAt(net, i), x.receipt.logs)| == 1,
             CanReceive(net, i, w.chains[i], x.deposit, accepts));
  }

  lemma Succeeds(site: Site, s: State, registry: Registry, ev: Events, rc: Receipt, hash: Word, hub: HubVerdict,
                 accepts: bool, d: Deposit, alone: bool, receives: bool)
    requires ReceiptDeposit(ev, rc) == if alone then Ok(d) else Revert("multiple logs")
    requires d.chainId == site.chainId
    requires hash !in s.used ==> (PayOut(site, s.(used := s.used + {hash}), d, accepts).Ok? <==> receives)
    ensures WithdrawReceipt(site, s, registry, ev, rc, hash, hub, accepts).Ok? <==>
      && alone && hub(d.metadata.fromChain) == Ok(true) && BridgeAt(registry, d.metadata.fromChain) == d.contract
      && hash !in s.used && receives
  {
    ReceiptPaysOut(site, s, registry, ev, rc, hash, hub, accepts, d, alone);
  }

  lemma DepositIsPaid(net: Network, w: World, i: nat, j: nat, accepts: bool)
    requires SoundNetwork(net) && Inv(net, w) && i < |w.chains| && j < |w.log|
    requires w.log[j].deposit.chainId == net.sites[i].chainId && HashOf(net, w.log[j].receipt) !in w.chains[i].used
    ensures var s, hash := w.chains[i], HashOf(net, w.log[j].receipt);
      PayOut(net.sites[i], s.(used := s.used + {hash}), w.log[j].deposit, accepts).Ok? <==>
        CanReceive(net, i, s, w.log[j].deposit, accepts)
  {
    assert EntryOk(net, w.chains, w.log[j]);
    NotPaidYet(net, w, i, j);
    PayOutSucceeds(net, w, i, j, w.chains[i].(used := w.chains[i].used + {HashOf(net, w.log[j].receipt)}), accepts);
  }

  /** So a burn is paid only if the hub finds its receipt under the headers of the origin's home chain,
      although it was emitted elsewhere, and the bridges of the two chains have the same address. */
  lemma BurnsAreLookedUpAtHome(net: Network, w: World, i: nat, registry: Registry, j: nat, hub: HubVerdict,
                               accepts: bool)
    requires SoundNetwork(net) && Inv(net, w) && Consistent(net, registry) && i < |w.chains| && j < |w.log|
    requires w.log[j].deposit.chainId == net.sites[i].chainId
    requires WithdrawOn(net, i, w.chains[i], registry, w.log[j].receipt, hub, accepts).Ok?
    ensures var e := w.log[j];
      && e.source < |net.sites| && e.deposit.metadata.origin in net.origins
      && var home := net.origins[e.deposit.metadata.origin].home;
      && home < |net.sites| && hub(net.sites[home].chainId) == Ok(true) &&
           net.sites[home].self == net.sites[e.source].self
  {
    var e := w.log[j];
    WithdrawalSucceeds(net, w, i, registry, j, hub, accepts);
    assert EntryOk(net, w.chains, e);
    assert SiteOk(net, e.source);
  }

  lemma PayOutSucceeds(net: Network, w: World, i: nat, j: nat, s: State, accepts: bool)
    requires SoundNetwork(net) && Inv(net, w) && i < |w.chains| && j < |w.log| && !IsPaid(w.payments, j)
    requires Payable(net, w.chains, i, w.log[j].deposit) && s == w.chains[i].(used := s.used)
    ensures PayOut(net.sites[i], s, w.log[j].deposit, accepts).Ok? <==> CanReceive(net, i, s, w.log[j].deposit, accepts)
  {
    var d := w.log[j].deposit;
    MintTarget(net, w.chains, i, d);
    if Unlocks(d) {
      FundsSuffice(net, w, j);
      UnlockSucceeds(net, w, i, j, s, accepts);
    } else {
      MintSucceeds(net, w.chains, i, d, s);
    }
  }

  /** The escrow covers every deposit that is not paid yet. */
  lemma FundsSuffice(net: Network, w: World, j: nat)
    requires SoundNetwork(net) && Inv(net, w) && j < |w.log| && !IsPaid(w.payments, j)
    ensures var d := w.log[j].deposit;
      d.metadata.origin in net.origins && net.origins[d.metadata.origin].home < |net.sites|
      && Escrow(net, w, d.metadata.origin) >= Quotient(d.amount, Factor(net, d.metadata.origin))
      && EscrowIsWorth(net, w, d.metadata.origin, d.amount)
  {
    assert EntryOk(net, w.chains, w.log[j]);
    var o := w.log[j].deposit.metadata.origin;
    assert Solvent(net, w, o);
    BackingIsEscrowLessSupply(net, w, o, |w.chains|);
    UnpaidAtLeast(w.log, w.payments, j, |w.log|);
    QuotientBound(w.log[j].deposit.amount, Factor(net, o), Escrow(net, w, o), Get(w.donated, o));
    assert SiteOk(net, net.origins[o].home);
    EscrowSuffices(net, w, o, w.log[j].deposit.amount);
  }

  /** The bridge holds every unit of the token that the amount is worth. */
  ghost predicate EscrowIsWorth(net: Network, w: World, o: Address, amount: nat)
    requires |w.chains| == |net.sites| && o in net.origins && net.origins[o].home < |net.sites|
  {
    net.origins[o].decimals <= 18 &&
    forall units :: MostUnits(units, amount, net.origins[o].decimals) ==> Escrow(net, w, o) >= units
  }

  lemma EscrowSuffices(net: Network, w: World, o: Address, amount: nat)
    requires |w.chains| == |net.sites| && o in net.origins && net.origins[o].home < |net.sites|
    requires net.origins[o].decimals <= 18 && Escrow(net, w, o) >= Quotient(amount, Factor(net, o))
    ensures EscrowIsWorth(net, w, o, amount)
  {
    HoldsMost(Escrow(net, w, o), amount, net.origins[o].decimals);
  }

  lemma QuotientBound(a: nat, f: nat, e: nat, g: nat)
    requires f > 0
    ensures g * f >= 0
    ensures e * f >= a ==> e >= Quotient(a, f)
  {
    QuotientSplits(a, f);
    if e < Quotient(a, f) {
      Distributes(e, Quotient(a, f) - e, f);
      AtLeastOnce(Quotient(a, f) - e, f);
    }
  }

  lemma UnlockSucceeds(net: Network, w: World, i: nat, j: nat, s: State, accepts: bool)
    requires SoundNetwork(net) && |w.chains| == |net.sites| && i < |w.chains| && j < |w.log| && ChainsOk(net, w.chains)
    requires Payable(net, w.chains, i, w.log[j].deposit) && s == w.chains[i].(used := s.used) &&
      Unlocks(w.log[j].deposit)
    requires net.origins[w.log[j].deposit.metadata.origin].home == i
    requires var d := w.log[j].deposit;
      Escrow(net, w, d.metadata.origin) >= Quotient(d.amount, Factor(net, d.metadata.origin))
    ensures PayOut(net.sites[i], s, w.log[j].deposit, accepts).Ok? <==> CanReceive(net, i, s, w.log[j].deposit, accepts)
  {
    var d := w.log[j].deposit;
    assert SiteOk(net, i);
    QuotientSplits(d.amount, 1);
  }

  lemma MintSucceeds(net: Network, chains: seq<State>, i: nat, d: Deposit, s: State)
    requires SoundNetwork(net) && |chains| == |net.sites| && i < |chains| && ChainsOk(net, chains)
    requires Payable(net, chains, i, d) && s == chains[i].(used := s.used) && !Unlocks(d)
    ensures WithdrawPegged(net.sites[i], s, d).Ok? <==>
      d.to != 0 && SupplyAt(net, i, s.ledger, d.metadata.origin) + d.amount < WORD_LIMIT
  {
    MintTarget(net, chains, i, d);
    if d.toToken in s.ledger.pegged {
      KnownToken(net, chains, i, d);
    } else {
      assert s.OriginOf(d.toToken) == chains[i].OriginOf(d.toToken) == 0;
    }
  }

  /** Symbol and name of an origin, packed, and both survive it. */
  ghost predicate HasTexts(net: Network, o: Address, symbol: seq<Byte>, name: seq<Byte>) {
    && o in net.origins && net.origins[o].symbol == Pack(symbol) && net.origins[o].name == Pack(name)
    && Unpack(Pack(symbol)) == symbol && Unpack(Pack(name)) == name
  }

  predicate Carries(packedSymbol: Bytes32, packedName: Bytes32, symbol: seq<Byte>, name: seq<Byte>) {
    Unpack(packedSymbol) == symbol && Unpack(packedName) == name
  }

  /** All tokens deployed for the origin, and all deposits of it, carry these texts. */
  ghost predicate NamesKept(net: Network, v: World, o: Address, symbol: seq<Byte>, name: seq<Byte>) {
    && (forall i: nat, t ::
          i < |v.chains| && t in v.chains[i].ledger.pegged && v.chains[i].ledger.pegged[t].originAddress == o ==>
          Carries(v.chains[i].ledger.pegged[t].symbol, v.chains[i].ledger.pegged[t].name, symbol, name))
    && (forall j: nat :: j < |v.log| && v.log[j].deposit.metadata.origin == o ==>
          Carries(v.log[j].deposit.metadata.symbol, v.log[j].deposit.metadata.name, symbol, name))
  }

  lemma TextKept(text: Bytes32, original: seq<Byte>)
    requires TextOf(text, Pack(original)) && Unpack(Pack(original)) == original
    ensures Unpack(text) == original
  {
  }

  lemma InvKeepsNames(net: Network, v: World, o: Address, symbol: seq<Byte>, name: seq<Byte>)
    requires Inv(net, v) && HasTexts(net, o, symbol, name)
    ensures NamesKept(net, v, o, symbol, name)
  {
    forall i: nat, t | i < |v.chains| && t in v.chains[i].ledger.pegged &&
      v.chains[i].ledger.pegged[t].originAddress == o
      ensures Carries(v.chains[i].ledger.pegged[t].symbol, v.chains[i].ledger.pegged[t].name, symbol, name)
    {
      assert TokenOk(net, v.chains, i, t, v.chains[i].ledger.pegged[t]);
      TextKept(v.chains[i].ledger.pegged[t].symbol, symbol);
      TextKept(v.chains[i].ledger.pegged[t].name, name);
    }
    forall j: nat | j < |v.log| && v.log[j].deposit.metadata.origin == o
      ensures Carries(v.log[j].deposit.metadata.symbol, v.log[j].deposit.metadata.name, symbol, name)
    {
      assert EntryOk(net, v.chains, v.log[j]);
      TextKept(v.log[j].deposit.metadata.symbol, symbol);
      TextKept(v.log[j].deposit.metadata.name, name);
    }
  }

  /** Symbols and names survive any number of hops: if the origin's texts survive being packed once, every
      token deployed for it anywhere, and every deposit of it, carries these very texts. */
  lemma NamesSurvive(net: Network, w: World, steps: seq<Step>, symbol: seq<Byte>, name: seq<Byte>, o: Address)
    requires SoundNetwork(net) && Initial(net, w) && AllClosed(net, steps) && HasTexts(net, o, symbol, name)
    ensures NamesKept(net, Run(net, w, steps), o, symbol, name)
  {
    InitialInv(net, w);
    RunKeepsInv(net, w, steps);
    InvKeepsNames(net, Run(net, w, steps), o, symbol, name);
  }

  /** There and back: what a deposit of a token counted in 18 decimals, an unlock of the same amount
      turns back into the very units deposited. */
  lemma WholeDepositsReturn(site: Site, s: State, registry: Registry, allowance: nat, sender: Address, token: Address,
                            toChain: nat, to: Address,
                            amount: nat, e: Emitted, s2: State, d: Deposit, s3: State)
    requires DepositErc20(site, s, registry, allowance, sender, token, toChain, to, amount) == Ok(e)
    requires d.toToken == token && d.amount == e.deposit.amount && d.to != site.self
    requires token in s2.ledger.erc20 && s2.ledger.erc20[token].decimals == s.ledger.erc20[token].decimals
    requires WithdrawErc20(site, s2, d) == Ok(s3)
    ensures token in s3.ledger.erc20
    ensures BalanceOf(s3.ledger.erc20[token].balances, d.to) ==
      BalanceOf(s2.ledger.erc20[token].balances, d.to) + amount
  {
    var f := Scale(s.ledger.erc20[token].decimals);
    WholeQuotient(amount, f);
    MovedBalances(s2.ledger.erc20[token].balances, site.self, d.to, Quotient(d.amount, f), d.to);
  }

  lemma WholeQuotient(a: nat, f: nat)
    requires f > 0
    ensures Quotient(a * f, f) == a
  {
    QuotientIs(a * f, f, a, 0);
  }
}
