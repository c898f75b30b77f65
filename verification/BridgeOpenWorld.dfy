/** Registration is open: what a chain that someone registers lets him take, and why a registry without
    such chains is exactly what solvency needs. */
module BridgeOpenWorld {
  import opened Bytes
  import opened Header
  import opened ReceiptParser
  import opened BridgeSpec
  import opened BridgeEvents
  import opened SimpleToken
  import opened TokenText
  import opened BridgeNetwork
  import opened BridgeInvariant
  import opened BridgeSteps
  import opened BridgeRuns
  import opened Wrappers

  // ---------- events of a registered stranger ----------

  /** A receipt with this one event; the gas used makes it one of many. */
  function LoneReceipt(ev: Events, d: Deposit, gas: nat): Receipt {
    Receipt([1], gas, [], [EventLog(ev, d)])
  }

  lemma OneEvent(ev: Events, d: Deposit, gas: nat)
    requires Fits(d) && d.chainId == ev.chainId && ev.locked != ev.burned
    ensures ReceiptDeposit(ev, LoneReceipt(ev, d, gas)) == Ok(d)
  {
    var rc := LoneReceipt(ev, d, gas);
    var none: seq<Log> := [];
    assert rc.logs == none + [EventLog(ev, d)] + none;
    ReceiptSaysDeposit(ev, rc, none, d, none);
    LogSaysDeposit(ev, d);
  }

  /** The event of a contract registered for chain c is paid out as it stands, if the hub accepts its
      receipt. */
  lemma StrangerIsPaid(site: Site, s: State, registry: Registry, ev: Events, d: Deposit, gas: nat, hash: Word,
                       hub: HubVerdict, accepts: bool)
    requires Fits(d) && d.chainId == ev.chainId == site.chainId && ev.locked != ev.burned
    requires d.contract == BridgeAt(registry, d.metadata.fromChain) && hub(d.metadata.fromChain) == Ok(true)
    requires hash !in s.used && PayOut(site, s.(used := s.used + {hash}), d, accepts).Ok?
    ensures WithdrawReceipt(site, s, registry, ev, LoneReceipt(ev, d, gas), hash, hub, accepts) ==
      PayOut(site, s.(used := s.used + {hash}), d, accepts)
  {
    OneEvent(ev, d, gas);
    ReceiptPaysOut(site, s, registry, ev, LoneReceipt(ev, d, gas), hash, hub, accepts, d, true);
  }

  /** A burn that no one burned anything for: it names token t as target and as origin, and all that the
      bridge holds of it. */
  function DrainingBurn(site: Site, s: State, registry: Registry, c: nat, t: Address, to: Address): Deposit
    requires t in s.ledger.erc20
  {
    var held := BalanceOf(s.ledger.erc20[t].balances, site.self);
    Deposit(Burn, BridgeAt(registry, c), site.chainId, to, to, t, t,
            held * Scale(s.ledger.erc20[t].decimals), 0, Metadata(site.native.symbol, site.native.name, c, t))
  }

  lemma ScaledBack(held: nat, decimals: nat)
    ensures Unscaled(held * Scale(decimals), decimals) == held
  {
    WholeQuotient(held, Scale(decimals));
  }

  /** A contract registered for any chain whose receipts the hub accepts takes all that the bridge holds of a
      token of its own chain. */
  lemma StrangerDrains(site: Site, s: State, registry: Registry, ev: Events, c: nat, t: Address, to: Address, gas: nat,
                       hash: Word, hub: HubVerdict, accepts: bool)
    requires t in s.ledger.erc20 && t != site.native.origin && s.ledger.erc20[t].decimals <= 18
    requires to != 0 && to != site.self && Fits(DrainingBurn(site, s, registry, c, t, to))
    requires ev.chainId == site.chainId && ev.locked != ev.burned && hub(c) == Ok(true) && hash !in s.used
    ensures var d := DrainingBurn(site, s, registry, c, t, to);
      var r := WithdrawReceipt(site, s, registry, ev, LoneReceipt(ev, d, gas), hash, hub, accepts);
      && r.Ok? && t in r.value.ledger.erc20
      && BalanceOf(r.value.ledger.erc20[t].balances, site.self) == 0
  {
    var d := DrainingBurn(site, s, registry, c, t, to);
    var b := s.ledger.erc20[t].balances;
    ScaledBack(BalanceOf(b, site.self), s.ledger.erc20[t].decimals);
    MovedBalances(b, site.self, to, BalanceOf(b, site.self), site.self);
    BurnIsUnlocked(site, s.(used := s.used + {hash}), d, BalanceOf(b, site.self), accepts);
    StrangerIsPaid(site, s, registry, ev, d, gas, hash, hub, accepts);
  }

  lemma BurnIsUnlocked(site: Site, s: State, d: Deposit, units: nat, accepts: bool)
    requires d.kind == Burn && d.toToken == d.metadata.origin != site.native.origin && d.toToken in s.ledger.erc20
    requires s.ledger.erc20[d.toToken].decimals <= 18 && d.to != 0
    requires units == Unscaled(d.amount, s.ledger.erc20[d.toToken].decimals)
    requires BalanceOf(s.ledger.erc20[d.toToken].balances, site.self) >= units
    ensures PayOut(site, s, d, accepts) ==
      Ok(s.WithErc20(d.toToken, Moved(s.ledger.erc20[d.toToken].balances, site.self, d.to, units)))
  {
  }

  // ---------- solvency, exactly ----------

  /** All accounts close. */
  ghost predicate AllSolvent(net: Network, w: World) {
    |w.chains| == |net.sites| && forall o :: o in net.origins ==> Solvent(net, w, o)
  }

  /** The withdrawal with a stranger's event on chain i, accepted under chain c. */
  function StrangersStep(net: Network, i: nat, registry: Registry, c: nat, d: Deposit, gas: nat): Step
    requires i < |net.sites|
  {
    Withdrawal(i, registry, LoneReceipt(EventsAt(net, i), d, gas), 0, (k: nat) => Ok(k == c), true)
  }

  /** An event under a registered chain outside the network that would be paid out. */
  ghost predicate PaysStranger(net: Network, w: World, i: nat, registry: Registry, c: nat, d: Deposit, gas: nat) {
    && i < |net.sites| == |w.chains| && net.locked != net.burned
    && Consistent(net, registry) && c in registry && !InNetwork(net, c)
    && Fits(d) && d.chainId == net.sites[i].chainId && d.metadata.fromChain == c && d.contract == BridgeAt(registry, c)
    && var hash := HashOf(net, LoneReceipt(EventsAt(net, i), d, gas));
       hash !in w.chains[i].used
       && PayOut(net.sites[i], w.chains[i].(used := w.chains[i].used + {hash}), d, true).Ok?
  }

  lemma StrangersStepIsTaken(net: Network, w: World, i: nat, registry: Registry, c: nat, d: Deposit, gas: nat)
    returns (s': State)
    requires PaysStranger(net, w, i, registry, c, d, gas)
    ensures var hash := HashOf(net, LoneReceipt(EventsAt(net, i), d, gas));
      PayOut(net.sites[i], w.chains[i].(used := w.chains[i].used + {hash}), d, true) == Ok(s')
    ensures Possible(net, w, StrangersStep(net, i, registry, c, d, gas))
    ensures Do(net, w, StrangersStep(net, i, registry, c, d, gas)) == w.(chains := w.chains[i := s'])
  {
    var ev, step := EventsAt(net, i), StrangersStep(net, i, registry, c, d, gas);
    var hash := HashOf(net, step.receipt);
    OneEvent(ev, d, gas);
    StrangerIsPaid(net.sites[i], w.chains[i], registry, ev, d, gas, hash, step.hub, true);
    s' := PayOut(net.sites[i], w.chains[i].(used := w.chains[i].used + {hash}), d, true).value;
  }

  /** A payout that no deposit stands for breaks the account it lowers. */
  lemma UnbackedPayout(net: Network, w: World, i: nat, s': State, o: Address)
    requires |w.chains| == |net.sites| && i < |w.chains| && o in net.origins && Solvent(net, w, o)
    requires BackingAt(net, i, s'.ledger, o) < BackingAt(net, i, w.chains[i].ledger, o)
    ensures !Solvent(net, w.(chains := w.chains[i := s']), o)
  {
    BackingUpdated(net, w.chains, i, s', o, |w.chains|);
  }

  /** One coin for the recipient. */
  function CoinEvent(net: Network, i: nat, registry: Registry, c: nat, to: Address): Deposit
    requires i < |net.sites|
  {
    var site := net.sites[i];
    Deposit(Burn, BridgeAt(registry, c), site.chainId, 0, to, 0, site.native.origin, 1, 0,
            Metadata(site.native.symbol, site.native.name, c, site.native.origin))
  }

  /** One token of the chain's own coin, deployed by its own bridge. */
  function MintEvent(net: Network, i: nat, registry: Registry, c: nat, to: Address): Deposit
    requires i < |net.sites|
  {
    var site := net.sites[i];
    Deposit(Lock, BridgeAt(registry, c), site.chainId, 0, to, 0, PegOf(net, i, site.native.origin), 1, 0,
            Metadata(site.native.symbol, site.native.name, c, site.native.origin))
  }

  lemma CoinIsPaid(net: Network, i: nat, registry: Registry, c: nat, to: Address, s: State)
    requires i < |net.sites| && SiteOk(net, i) && to != net.sites[i].self
    requires BalanceOf(s.ledger.native, net.sites[i].self) >= 1
    ensures var r := PayOut(net.sites[i], s, CoinEvent(net, i, registry, c, to), true);
      var o := net.sites[i].native.origin;
      r.Ok? && BackingAt(net, i, r.value.ledger, o) == BackingAt(net, i, s.ledger, o) - 1
  {
    var self := net.sites[i].self;
    MovedBalances(s.ledger.native, self, to, 1, self);
    NativeChange(net, i, s.ledger, Moved(s.ledger.native, self, to, 1), -1);
  }

  /** One token more than before: either the known one, or a new one. */
  lemma MintIsPaid(net: Network, chains: seq<State>, i: nat, registry: Registry, c: nat, to: Address, s: State)
    returns (s': State)
    requires SoundNetwork(net) && |chains| == |net.sites| && i < |chains| && TokensOk(net, chains, i)
    requires KnownOk(chains[i]) && s == chains[i].(used := s.used) && to != 0
    requires SupplyAt(net, i, s.ledger, net.sites[i].native.origin) == 0
    ensures PayOut(net.sites[i], s, MintEvent(net, i, registry, c, to), true) == Ok(s')
    ensures var o := net.sites[i].native.origin;
      o in net.origins && BackingAt(net, i, s'.ledger, o) == BackingAt(net, i, s.ledger, o) - 1
  {
    var site, d := net.sites[i], MintEvent(net, i, registry, c, to);
    assert SiteOk(net, i);
    var o := site.native.origin;
    OwnPeg(net, chains, i);
    MintRoute(site, s, d);
    s' := WithdrawPegged(site, s, d).value;
    if d.toToken in s.ledger.pegged {
      MintedKnown(site, s, d, s');
    } else {
      MintedNew(site, s, d, s');
    }
    PeggedChange(net, i, s.ledger, s'.ledger, o, s'.ledger.pegged[d.toToken]);
  }

  /** The token of the chain's own coin is known if and only if it exists, and then the bridge owns it. */
  lemma OwnPeg(net: Network, chains: seq<State>, i: nat)
    requires SoundNetwork(net) && |chains| == |net.sites| && i < |chains| && TokensOk(net, chains, i)
    requires KnownOk(chains[i])
    ensures var o, s := net.sites[i].native.origin, chains[i];
      && o in net.origins && PegOf(net, i, o) != o
      && (PegOf(net, i, o) in s.ledger.pegged <==> s.OriginOf(PegOf(net, i, o)) != 0)
      && (PegOf(net, i, o) in s.ledger.pegged ==> s.ledger.pegged[PegOf(net, i, o)].owner == net.sites[i].self)
  {
    assert SiteOk(net, i);
    var t := PegOf(net, i, net.sites[i].native.origin);
    if t in chains[i].ledger.pegged {
      assert TokenOk(net, chains, i, t, chains[i].ledger.pegged[t]);
    }
  }

  lemma MintRoute(site: Site, s: State, d: Deposit)
    requires d.toToken != site.native.origin && d.kind == Lock && d.amount == 1 && d.to != 0
    requires d.toToken in s.ledger.pegged <==> s.OriginOf(d.toToken) != 0
    requires d.toToken in s.ledger.pegged ==>
      s.ledger.pegged[d.toToken].owner == site.self && s.ledger.pegged[d.toToken].supply == 0
    requires d.toToken == site.peg(site.self, d.metadata.origin)
    ensures PayOut(site, s, d, true) == WithdrawPegged(site, s, d) && WithdrawPegged(site, s, d).Ok?
  {
  }

  /** Where nothing is in escrow nothing is deployed. */
  lemma {:induction false} SupplyPart(net: Network, chains: seq<State>, o: Address, i: nat, n: nat)
    requires i < n <= |chains| == |net.sites|
    ensures SupplyAt(net, i, chains[i].ledger, o) <= Supply(net, chains, o, n)
  {
    if i < n - 1 {
      SupplyPart(net, chains, o, i, n - 1);
    }
  }

  lemma NoEscrowNoSupply(net: Network, w: World, i: nat, o: Address)
    requires |w.chains| == |net.sites| && i < |w.chains| && o in net.origins && net.origins[o].home < |net.sites|
    requires Solvent(net, w, o) && Escrow(net, w, o) == 0
    ensures SupplyAt(net, i, w.chains[i].ledger, o) == 0
  {
    BackingIsEscrowLessSupply(net, w, o, |w.chains|);
    SupplyPart(net, w.chains, o, i, |w.chains|);
  }

  /** What a stranger needs on chain i: the addresses are addresses, the recipient is neither the bridge nor
      address 0, and for each of the two events some receipt holding it is not used up. */
  ghost predicate StrangersChance(net: Network, w: World, i: nat, registry: Registry, c: nat, to: Address)
    requires i < |net.sites| == |w.chains|
  {
    && to != 0 && to != net.sites[i].self
    && Fits(CoinEvent(net, i, registry, c, to)) && Fits(MintEvent(net, i, registry, c, to))
    && UnusedFor(net, w, i, CoinEvent(net, i, registry, c, to))
    && UnusedFor(net, w, i, MintEvent(net, i, registry, c, to))
  }

  ghost predicate UnusedFor(net: Network, w: World, i: nat, d: Deposit)
    requires i < |net.sites| == |w.chains|
  {
    exists gas :: IsUnused(net, w, i, d, gas)
  }

  ghost predicate IsUnused(net: Network, w: World, i: nat, d: Deposit, gas: nat)
    requires i < |net.sites| == |w.chains|
  {
    HashOf(net, LoneReceipt(EventsAt(net, i), d, gas)) !in w.chains[i].used
  }

  /** A registered chain outside the network breaks solvency: a stranger takes a coin, or, where the bridge
      holds none, mints a token for which there is none. */
  lemma StrangerBreaksSolvency(net: Network, w: World, i: nat, registry: Registry, c: nat, to: Address)
    returns (step: Step)
    requires SoundNetwork(net) && Inv(net, w) && i < |net.sites| && Consistent(net, registry)
    requires c in registry && !InNetwork(net, c) && StrangersChance(net, w, i, registry, c, to)
    ensures step.Withdrawal? && step.registry == registry && Possible(net, w, step)
    ensures !AllSolvent(net, Do(net, w, step))
  {
    var o := net.sites[i].native.origin;
    assert SiteOk(net, i);
    assert Solvent(net, w, o);
    if BalanceOf(w.chains[i].ledger.native, net.sites[i].self) >= 1 {
      step := CoinTaken(net, w, i, registry, c, to);
    } else {
      NoEscrowNoSupply(net, w, i, o);
      step := TokenMinted(net, w, i, registry, c, to);
    }
  }

  lemma CoinTaken(net: Network, w: World, i: nat, registry: Registry, c: nat, to: Address) returns (step: Step)
    requires |w.chains| == |net.sites| && i < |net.sites| && SiteOk(net, i) && Consistent(net, registry)
    requires net.locked != net.burned && Solvent(net, w, net.sites[i].native.origin)
    requires c in registry && !InNetwork(net, c) && StrangersChance(net, w, i, registry, c, to)
    requires BalanceOf(w.chains[i].ledger.native, net.sites[i].self) >= 1
    ensures step.Withdrawal? && step.registry == registry && Possible(net, w, step)
    ensures !AllSolvent(net, Do(net, w, step))
  {
    var d := CoinEvent(net, i, registry, c, to);
    assert UnusedFor(net, w, i, d);
    var gas :| IsUnused(net, w, i, d, gas);
    var s := w.chains[i].(used := w.chains[i].used + {HashOf(net, LoneReceipt(EventsAt(net, i), d, gas))});
    CoinIsPaid(net, i, registry, c, to, s);
    step := StrangersStep(net, i, registry, c, d, gas);
    var s' := StrangersStepIsTaken(net, w, i, registry, c, d, gas);
    UnbackedPayout(net, w, i, s', net.sites[i].native.origin);
  }

  lemma TokenMinted(net: Network, w: World, i: nat, registry: Registry, c: nat, to: Address) returns (step: Step)
    requires SoundNetwork(net) && Inv(net, w) && i < |net.sites| && Consistent(net, registry)
    requires c in registry && !InNetwork(net, c) && StrangersChance(net, w, i, registry, c, to)
    requires SupplyAt(net, i, w.chains[i].ledger, net.sites[i].native.origin) == 0
    ensures step.Withdrawal? && step.registry == registry && Possible(net, w, step)
    ensures !AllSolvent(net, Do(net, w, step))
  {
    var d := MintEvent(net, i, registry, c, to);
    assert UnusedFor(net, w, i, d);
    var gas :| IsUnused(net, w, i, d, gas);
    var s := w.chains[i].(used := w.chains[i].used + {HashOf(net, LoneReceipt(EventsAt(net, i), d, gas))});
    var minted := MintIsPaid(net, w.chains, i, registry, c, to, s);
    step := StrangersStep(net, i, registry, c, d, gas);
    var s' := StrangersStepIsTaken(net, w, i, registry, c, d, gas);
    UnbackedPayout(net, w, i, s', net.sites[i].native.origin);
  }

  /** In every reachable state, no withdrawal on a registry can break the accounts if and only if no chain
      outside the network is registered in it. */
  lemma SolventExactlyIfClosed(net: Network, w: World, registry: Registry, i: nat, to: Address)
    requires SoundNetwork(net) && Inv(net, w) && i < |net.sites| && Consistent(net, registry)
    requires forall c :: c in registry && !InNetwork(net, c) ==> StrangersChance(net, w, i, registry, c, to)
    ensures (forall step: Step :: step.Withdrawal? && step.registry == registry && Possible(net, w, step) ==>
              AllSolvent(net, Do(net, w, step)))
      <==> Closed(net, registry)
  {
    if Closed(net, registry) {
      forall step: Step | step.Withdrawal? && step.registry == registry && Possible(net, w, step)
        ensures AllSolvent(net, Do(net, w, step))
      {
        StepKeepsInv(net, w, step);
      }
    } else {
      var c :| c in registry && !InNetwork(net, c);
      var step := StrangerBreaksSolvency(net, w, i, registry, c, to);
    }
  }

  // ---------- names, exactly ----------

  /** A text other than the given one that survives packing. */
  function OtherText(text: seq<Byte>): seq<Byte> {
    if text == [] then [65] else []
  }

  lemma OtherTextDiffers(text: seq<Byte>)
    ensures Unpack(Pack(OtherText(text))) != text
  {
    NonZeroText(OtherText(text));
  }

  /** One token for origin o, under a symbol and a name of the stranger's choice. */
  function NamingEvent(net: Network, i: nat, registry: Registry, c: nat, to: Address, o: Address, symbol: seq<Byte>,
                       name: seq<Byte>): Deposit
    requires i < |net.sites|
  {
    Deposit(Lock, BridgeAt(registry, c), net.sites[i].chainId, 0, to, 0, PegOf(net, i, o), 1, 0,
            Metadata(Pack(symbol), Pack(name), c, o))
  }

  /** A new token is deployed as the event describes it. */
  lemma NewTokenIsNamed(site: Site, s: State, d: Deposit)
    requires d.toToken != site.native.origin && d.kind == Lock && d.amount == 1 && d.to != 0
    requires d.toToken !in s.ledger.pegged && s.OriginOf(d.toToken) == 0
    requires d.toToken == site.peg(site.self, d.metadata.origin)
    ensures var r := PayOut(site, s, d, true);
      && r.Ok? && d.toToken in r.value.ledger.pegged
      && r.value.ledger.pegged[d.toToken].originAddress == d.metadata.origin
      && r.value.ledger.pegged[d.toToken].symbol == d.metadata.symbol
      && r.value.ledger.pegged[d.toToken].name == d.metadata.name
  {
  }

  /** Where the token of an origin is not deployed yet, a stranger of a registered chain outside the network has
      it deployed under any symbol and name. */
  lemma StrangerNamesToken(net: Network, w: World, i: nat, registry: Registry, c: nat, to: Address, o: Address,
                           symbol: seq<Byte>, name: seq<Byte>, gas: nat)
    returns (step: Step, w': World)
    requires SoundNetwork(net) && Inv(net, w) && i < |net.sites| && Consistent(net, registry) && o in net.origins
    requires PegOf(net, i, o) !in w.chains[i].ledger.pegged && c in registry && !InNetwork(net, c) && to != 0
    requires Fits(NamingEvent(net, i, registry, c, to, o, symbol, name))
    requires IsUnused(net, w, i, NamingEvent(net, i, registry, c, to, o, symbol, name), gas)
    ensures step.Withdrawal? && step.registry == registry && Possible(net, w, step) && w' == Do(net, w, step)
    ensures var t := PegOf(net, i, o);
      && i < |w'.chains| && t in w'.chains[i].ledger.pegged && w'.chains[i].ledger.pegged[t].originAddress == o
      && w'.chains[i].ledger.pegged[t].symbol == Pack(symbol) && w'.chains[i].ledger.pegged[t].name == Pack(name)
  {
    var d := NamingEvent(net, i, registry, c, to, o, symbol, name);
    var s := w.chains[i].(used := w.chains[i].used + {HashOf(net, LoneReceipt(EventsAt(net, i), d, gas))});
    UnknownPeg(net, w.chains, i, o);
    NewTokenIsNamed(net.sites[i], s, d);
    step := StrangersStep(net, i, registry, c, d, gas);
    var s' := StrangersStepIsTaken(net, w, i, registry, c, d, gas);
    w' := w.(chains := w.chains[i := s']);
  }

  lemma UnknownPeg(net: Network, chains: seq<State>, i: nat, o: Address)
    requires SoundNetwork(net) && |chains| == |net.sites| && i < |chains| && KnownOk(chains[i]) && o in net.origins
    requires PegOf(net, i, o) !in chains[i].ledger.pegged
    ensures chains[i].OriginOf(PegOf(net, i, o)) == 0 && PegOf(net, i, o) != net.sites[i].native.origin
  {
    assert SiteOk(net, i);
  }

  /** What a stranger needs to name a token other than its origin. */
  ghost predicate NamingChance(net: Network, w: World, i: nat, registry: Registry, c: nat, to: Address, o: Address,
                               symbol: seq<Byte>, name: seq<Byte>)
    requires i < |net.sites| == |w.chains|
  {
    var d := NamingEvent(net, i, registry, c, to, o, OtherText(symbol), name);
    to != 0 && Fits(d) && UnusedFor(net, w, i, d)
  }

  lemma StrangerRenames(net: Network, w: World, i: nat, registry: Registry, c: nat, to: Address, o: Address,
                        symbol: seq<Byte>, name: seq<Byte>)
    returns (step: Step)
    requires SoundNetwork(net) && Inv(net, w) && i < |net.sites| && Consistent(net, registry) && o in net.origins
    requires PegOf(net, i, o) !in w.chains[i].ledger.pegged && c in registry && !InNetwork(net, c)
    requires NamingChance(net, w, i, registry, c, to, o, symbol, name)
    ensures step.Withdrawal? && step.registry == registry && Possible(net, w, step)
    ensures !NamesKept(net, Do(net, w, step), o, symbol, name)
  {
    var gas :| IsUnused(net, w, i, NamingEvent(net, i, registry, c, to, o, OtherText(symbol), name), gas);
    var w';
    step, w' := StrangerNamesToken(net, w, i, registry, c, to, o, OtherText(symbol), name, gas);
    OtherTextDiffers(symbol);
    NotCarried(net, w', i, PegOf(net, i, o), o, symbol, name);
  }

  lemma NotCarried(net: Network, w: World, i: nat, t: Address, o: Address, symbol: seq<Byte>, name: seq<Byte>)
    requires i < |w.chains| && t in w.chains[i].ledger.pegged && w.chains[i].ledger.pegged[t].originAddress == o
    requires Unpack(w.chains[i].ledger.pegged[t].symbol) != symbol
    ensures !NamesKept(net, w, o, symbol, name)
  {
  }

  /** In every reachable state in which the token of an origin is not deployed on some chain, no withdrawal on a
      registry can give the origin another symbol or name if and only if no chain outside the network is
      registered in it. */
  lemma NamesKeptExactlyIfClosed(net: Network, w: World, registry: Registry, i: nat, to: Address, o: Address,
                                 symbol: seq<Byte>, name: seq<Byte>)
    requires SoundNetwork(net) && Inv(net, w) && i < |net.sites| && Consistent(net, registry)
    requires HasTexts(net, o, symbol, name) && PegOf(net, i, o) !in w.chains[i].ledger.pegged
    requires forall c :: c in registry && !InNetwork(net, c) ==>
      NamingChance(net, w, i, registry, c, to, o, symbol, name)
    ensures (forall step: Step :: step.Withdrawal? && step.registry == registry && Possible(net, w, step) ==>
              NamesKept(net, Do(net, w, step), o, symbol, name))
      <==> Closed(net, registry)
  {
    if Closed(net, registry) {
      forall step: Step | step.Withdrawal? && step.registry == registry && Possible(net, w, step)
        ensures NamesKept(net, Do(net, w, step), o, symbol, name)
      {
        StepKeepsInv(net, w, step);
        InvKeepsNames(net, Do(net, w, step), o, symbol, name);
      }
    } else {
      var c :| c in registry && !InNetwork(net, c);
      var step := StrangerRenames(net, w, i, registry, c, to, o, symbol, name);
    }
  }
}
