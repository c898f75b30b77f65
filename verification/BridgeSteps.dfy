/** Every step keeps the invariant of the network. */
module BridgeSteps {
  import opened Bytes
  import opened Header
  import opened ReceiptParser
  import opened BridgeSpec
  import opened BridgeEvents
  import opened SimpleToken
  import opened TokenText
  import opened BridgeNetwork
  import opened BridgeInvariant
  import opened Wrappers

  // ---------- deposits ----------

  /** What a deposit does to the state of its chain: all but nonce, balances and supplies stays. */
  ghost predicate DepositState(net: Network, i: nat, s: State, e: Emitted)
    requires i < |net.sites|
  {
    var s', d := e.state, e.deposit;
    && s'.used == s.used && s'.nonce == s.nonce + 1 && s'.peggedOrigin == s.peggedOrigin
    && s'.ledger.erc20.Keys == s.ledger.erc20.Keys && Conforms(net, i, s'.ledger.erc20)
    && s'.ledger.pegged.Keys == s.ledger.pegged.Keys
    && (forall t :: t in s'.ledger.pegged ==> SameButSupply(s.ledger.pegged[t], s'.ledger.pegged[t]))
    && d.kind != NoPegIn && d.contract == net.sites[i].self && d.nonce == s.nonce
  }

  /** The event tells of an origin token that exists, and of the right target. */
  ghost predicate DepositOrigin(net: Network, chains: seq<State>, d: Deposit)
    requires |chains| == |net.sites|
  {
    && Describes(net, d.metadata.symbol, d.metadata.name, d.metadata.fromChain, d.metadata.origin)
    && Backed(net, chains, d.metadata.origin) && TargetsOk(net, d)
  }

  /** What a deposit on chain i does; the account of the origin token rises by the amount. */
  ghost predicate DepositEffect(net: Network, chains: seq<State>, i: nat, e: Emitted)
    requires i < |chains| == |net.sites|
  {
    && DepositState(net, i, chains[i], e) && DepositOrigin(net, chains, e.deposit)
    && Counted(net, i, chains[i].ledger, e.state.ledger, e.deposit.metadata.origin, e.deposit.amount)
  }

  /** The account of o rises by the amount on chain i, and no other account changes there. */
  ghost predicate Counted(net: Network, i: nat, l: Ledger, l': Ledger, o: Address, amount: int)
    requires i < |net.sites|
  {
    forall p :: p in net.origins ==> BackingAt(net, i, l', p) == BackingAt(net, i, l, p) + if p == o then amount else 0
  }

  lemma KnownKept(s: State, s': State)
    requires KnownOk(s) && s'.peggedOrigin == s.peggedOrigin && s.ledger.pegged.Keys <= s'.ledger.pegged.Keys
    ensures KnownOk(s')
  {
    forall t | s'.OriginOf(t) != 0
      ensures t in s'.ledger.pegged
    {
      assert s.OriginOf(t) != 0 && t in s.ledger.pegged.Keys;
    }
  }

  lemma DepositKeepsInv(net: Network, w: World, i: nat, e: Emitted, rc: Receipt)
    requires Inv(net, w) && i < |w.chains| && DepositEffect(net, w.chains, i, e)
    requires InReceipt(EventsAt(net, i), e.deposit, rc)
    ensures Inv(net, Logged(w, i, e, rc))
  {
    var w' := Logged(w, i, e, rc);
    TokensKept(net, w.chains, i, e.state);
    KnownKept(w.chains[i], e.state);
    ChainsGrow(net, w.chains, i, e.state);
    LogGrows(net, w.chains, i, e.state, w.log);
    EntryAdded(net, w, i, e, rc);
    PaymentsGrow(net, w, i, e.state, [Entry(i, e.deposit, rc)]);
    forall o | o in net.origins
      ensures Solvent(net, w', o)
    {
      DepositKeepsSolvent(net, w, i, e, rc, o);
    }
  }

  lemma EntryAdded(net: Network, w: World, i: nat, e: Emitted, rc: Receipt)
    requires |w.chains| == |net.sites| && i < |w.chains| && DepositEffect(net, w.chains, i, e)
    requires InReceipt(EventsAt(net, i), e.deposit, rc)
    requires LogOk(net, w.chains, w.log) && LogOk(net, w.chains[i := e.state], w.log) && NoncesUnique(w.log)
    ensures LogOk(net, w.chains[i := e.state], w.log + [Entry(i, e.deposit, rc)])
    ensures NoncesUnique(w.log + [Entry(i, e.deposit, rc)])
  {
    var x := Entry(i, e.deposit, rc);
    var log, chains' := w.log + [x], w.chains[i := e.state];
    NewEntryOk(net, w.chains, i, e, rc);
    forall j: nat | j < |log|
      ensures EntryOk(net, chains', log[j])
    {
      assert j < |w.log| ==> EntryOk(net, chains', w.log[j]);
    }
    forall j: nat | j < |w.log| && w.log[j].source == i
      ensures w.log[j].deposit.nonce < e.deposit.nonce
    {
      assert EntryOk(net, w.chains, w.log[j]);
    }
    NewNonce(w.log, x);
  }

  lemma NewEntryOk(net: Network, chains: seq<State>, i: nat, e: Emitted, rc: Receipt)
    requires |chains| == |net.sites| && i < |chains| && DepositEffect(net, chains, i, e)
    requires InReceipt(EventsAt(net, i), e.deposit, rc)
    ensures EntryOk(net, chains[i := e.state], Entry(i, e.deposit, rc))
  {
    BackedGrows(net, chains, i, e.state, e.deposit.metadata.origin);
  }

  lemma NewNonce(log: seq<Entry>, x: Entry)
    requires NoncesUnique(log)
    requires forall j: nat :: j < |log| && log[j].source == x.source ==> log[j].deposit.nonce < x.deposit.nonce
    ensures NoncesUnique(log + [x])
  {
  }

  lemma DepositKeepsSolvent(net: Network, w: World, i: nat, e: Emitted, rc: Receipt, o: Address)
    requires |w.chains| == |net.sites| && i < |w.chains| && o in net.origins && Solvent(net, w, o) && PaymentsOk(net, w)
    requires BackingAt(net, i, e.state.ledger, o) ==
      BackingAt(net, i, w.chains[i].ledger, o) + if o == e.deposit.metadata.origin then e.deposit.amount else 0
    ensures Solvent(net, Logged(w, i, e, rc), o)
  {
    var n := |w.log|;
    BackingUpdated(net, w.chains, i, e.state, o, |w.chains|);
    UnpaidOfPrefix(w.log, [Entry(i, e.deposit, rc)], w.payments, o, n);
    assert !IsPaid(w.payments, n);
  }

  /** Changing one deployed token changes the account of its origin only. */
  lemma PeggedChange(net: Network, i: nat, l: Ledger, l': Ledger, o: Address, t: Token)
    requires SoundNetwork(net) && i < |net.sites| && o in net.origins
    requires l' == l.(pegged := l.pegged[PegOf(net, i, o) := t])
    ensures Counted(net, i, l, l', o, SupplyAt(net, i, l, o) - t.supply)
  {
    forall p | p in net.origins
      ensures BackingAt(net, i, l', p) ==
        BackingAt(net, i, l, p) - if p == o then t.supply - SupplyAt(net, i, l, o) else 0
    {
      assert PegOf(net, i, p) == PegOf(net, i, o) ==> p == o;
      assert EscrowAt(net, i, l', p) == EscrowAt(net, i, l, p);
    }
  }

  /** Changing the balances of one token of the chain changes the account of that token only. */
  lemma Erc20Change(net: Network, i: nat, l: Ledger, l': Ledger, t: Address, b: Balances)
    requires i < |net.sites| && t in net.origins && t in l.erc20 && t != net.sites[i].native.origin &&
      net.origins[t].home == i
    requires l' == l.(erc20 := l.erc20[t := l.erc20[t].(balances := b)])
    ensures forall p :: p in net.origins && p != t ==> BackingAt(net, i, l', p) == BackingAt(net, i, l, p)
    ensures BackingAt(net, i, l', t) ==
      BackingAt(net, i, l, t) + BalanceOf(b, net.sites[i].self) * Factor(net, t) -
        BalanceOf(l.erc20[t].balances, net.sites[i].self) * Factor(net, t)
  {
    forall p | p in net.origins && p != t
      ensures BackingAt(net, i, l', p) == BackingAt(net, i, l, p)
    {
      assert EscrowAt(net, i, l', p) == EscrowAt(net, i, l, p);
    }
  }

  /** Changing the balances of the native coin changes its account only. */
  lemma NativeChange(net: Network, i: nat, l: Ledger, b: Balances, delta: int)
    requires i < |net.sites| && SiteOk(net, i)
    requires BalanceOf(b, net.sites[i].self) == BalanceOf(l.native, net.sites[i].self) + delta
    ensures Counted(net, i, l, l.(native := b), net.sites[i].native.origin, delta)
  {
    var l', native := l.(native := b), net.sites[i].native.origin;
    assert Factor(net, native) == Pow10(0) == 1;
    forall p | p in net.origins
      ensures BackingAt(net, i, l', p) == BackingAt(net, i, l, p) + if p == native then delta else 0
    {
      assert p != native ==> EscrowAt(net, i, l', p) == EscrowAt(net, i, l, p);
    }
  }

  /** With a consistent registry the target computed by the sender is the right token. */
  lemma PegTarget(net: Network, registry: Registry, i: nat, toChain: nat, o: Address, k: nat)
    requires SoundNetwork(net) && Consistent(net, registry) && i < |net.sites| && k < |net.sites| && o in net.origins
    requires BridgeAt(registry, toChain) != 0 && net.sites[k].chainId == toChain
    ensures net.sites[i].peg(BridgeAt(registry, toChain), o) == PegOf(net, k, o)
  {
    assert BridgeAt(registry, net.sites[k].chainId) == net.sites[k].self;
  }

  /** A deposit on chain i for chain toChain is for the token deployed there, or for the origin token if
      a deployed token is burned for its home chain. */
  lemma TargetsFound(net: Network, registry: Registry, i: nat, d: Deposit)
    requires SoundNetwork(net) && Consistent(net, registry) && i < |net.sites|
    requires BridgeAt(registry, d.chainId) != 0
    requires var o := d.metadata.origin;
      && o in net.origins && net.origins[o].home < |net.sites|
      && d.toToken == if d.kind == Burn && d.chainId == net.sites[net.origins[o].home].chainId then o
                      else net.sites[i].peg(BridgeAt(registry, d.chainId), o)
    ensures TargetsOk(net, d)
  {
    forall k: nat | k < |net.sites| && net.sites[k].chainId == d.chainId
      ensures d.toToken == Target(net, k, d.kind, d.metadata.origin)
    {
      PegTarget(net, registry, i, d.chainId, d.metadata.origin, k);
    }
  }

  lemma NativeEffect(net: Network, chains: seq<State>, i: nat, registry: Registry, sender: Address, toChain: nat,
                     to: Address, amount: nat, e: Emitted)
    requires SoundNetwork(net) && Consistent(net, registry) && |chains| == |net.sites| && i < |chains| &&
      sender != net.sites[i].self
    requires ChainsOk(net, chains)
    requires DepositNative(net.sites[i], chains[i], registry, sender, toChain, to, amount) == Ok(e)
    ensures DepositEffect(net, chains, i, e)
  {
    assert SiteOk(net, i);
    TargetsFound(net, registry, i, e.deposit);
    MovedBalances(chains[i].ledger.native, sender, net.sites[i].self, amount, net.sites[i].self);
    NativeChange(net, i, chains[i].ledger, e.state.ledger.native, amount);
  }

  lemma Erc20Effect(net: Network, chains: seq<State>, i: nat, registry: Registry, allowance: nat, sender: Address,
                    token: Address,
                    toChain: nat, to: Address, amount: nat, e: Emitted)
    requires SoundNetwork(net) && Consistent(net, registry) && |chains| == |net.sites| && i < |chains| &&
      ChainsOk(net, chains)
    requires DepositErc20(net.sites[i], chains[i], registry, allowance, sender, token, toChain, to, amount) == Ok(e)
    ensures DepositEffect(net, chains, i, e)
  {
    assert token in net.origins && net.origins[token].home == i;
    Erc20Counted(net, i, chains[i], registry, allowance, sender, token, toChain, to, amount, e);
    TargetsFound(net, registry, i, e.deposit);
  }

  lemma Erc20Counted(net: Network, i: nat, s: State, registry: Registry, allowance: nat, sender: Address,
                     token: Address,
                     toChain: nat, to: Address, amount: nat, e: Emitted)
    requires i < |net.sites| && Conforms(net, i, s.ledger.erc20) && token in s.ledger.erc20
    requires DepositErc20(net.sites[i], s, registry, allowance, sender, token, toChain, to, amount) == Ok(e)
    ensures Counted(net, i, s.ledger, e.state.ledger, token, e.deposit.amount)
  {
    var b, self := s.ledger.erc20[token].balances, net.sites[i].self;
    MovedBalances(b, sender, self, amount, self);
    Distributes(BalanceOf(b, self), amount, Factor(net, token));
    Erc20Change(net, i, s.ledger, e.state.ledger, token, Moved(b, sender, self, amount));
  }

  lemma Distributes(a: nat, b: nat, f: nat)
    ensures (a + b) * f == a * f + b * f
  {
  }

  lemma PeggedState(net: Network, i: nat, s: State, registry: Registry, sender: Address, token: Address, toChain: nat,
                    to: Address, amount: nat, e: Emitted)
    requires i < |net.sites| && Conforms(net, i, s.ledger.erc20) && token in s.ledger.pegged
    requires DepositDeployed(net.sites[i], s, registry, sender, token, toChain, to, amount) == Ok(e)
    ensures DepositState(net, i, s, e)
    ensures var t := s.ledger.pegged[token];
      && e.state.ledger.pegged.Keys == s.ledger.pegged.Keys
      && e.state.ledger == s.ledger.(pegged := s.ledger.pegged[token := e.state.ledger.pegged[token]])
      && e.state.ledger.pegged[token].supply == t.supply - amount && e.deposit.amount == amount
      && e.deposit.metadata == Metadata(Hop(t.symbol), Hop(t.name), t.originChain, t.originAddress)
      && e.deposit.kind == Burn && e.deposit.chainId == toChain && BridgeAt(registry, toChain) != 0
      && e.deposit.toToken == if toChain == t.originChain then t.originAddress
                              else net.sites[i].peg(BridgeAt(registry, toChain), t.originAddress)
  {
    assert e.state.ledger.pegged.Keys == s.ledger.pegged.Keys;
  }

  lemma PeggedOrigin(net: Network, chains: seq<State>, registry: Registry, i: nat, token: Address, d: Deposit)
    requires SoundNetwork(net) && Consistent(net, registry) && |chains| == |net.sites| && i < |chains|
    requires token in chains[i].ledger.pegged && TokenOk(net, chains, i, token, chains[i].ledger.pegged[token])
    requires BridgeAt(registry, d.chainId) != 0 && d.kind == Burn
    requires var t := chains[i].ledger.pegged[token];
      && d.metadata == Metadata(Hop(t.symbol), Hop(t.name), t.originChain, t.originAddress)
      && d.toToken == if d.chainId == t.originChain then t.originAddress
                      else net.sites[i].peg(BridgeAt(registry, d.chainId), t.originAddress)
    ensures DepositOrigin(net, chains, d)
  {
    var t := chains[i].ledger.pegged[token];
    HopAgain(net.origins[t.originAddress].symbol, t.symbol);
    HopAgain(net.origins[t.originAddress].name, t.name);
    TargetsFound(net, registry, i, d);
  }

  lemma PeggedEffect(net: Network, chains: seq<State>, i: nat, registry: Registry, sender: Address, token: Address,
                     toChain: nat, to: Address, amount: nat, e: Emitted)
    requires SoundNetwork(net) && Consistent(net, registry) && |chains| == |net.sites| && i < |chains| &&
      ChainsOk(net, chains)
    requires token in chains[i].ledger.pegged
    requires DepositDeployed(net.sites[i], chains[i], registry, sender, token, toChain, to, amount) == Ok(e)
    ensures DepositEffect(net, chains, i, e)
  {
    assert TokenOk(net, chains, i, token, chains[i].ledger.pegged[token]);
    PeggedState(net, i, chains[i], registry, sender, token, toChain, to, amount, e);
    PeggedOrigin(net, chains, registry, i, token, e.deposit);
    PeggedCounted(net, i, chains[i].ledger, e.state.ledger, token, amount);
  }

  lemma PeggedCounted(net: Network, i: nat, l: Ledger, l': Ledger, token: Address, amount: int)
    requires SoundNetwork(net) && i < |net.sites| && token in l.pegged && token in l'.pegged
    requires l.pegged[token].originAddress in net.origins && token == PegOf(net, i, l.pegged[token].originAddress)
    requires l' == l.(pegged := l.pegged[token := l'.pegged[token]])
    requires l'.pegged[token].supply == l.pegged[token].supply - amount
    ensures Counted(net, i, l, l', l.pegged[token].originAddress, amount)
  {
    PeggedChange(net, i, l, l', l.pegged[token].originAddress, l'.pegged[token]);
  }

  /** A text one hop on is still a text of the origin. */
  lemma HopAgain(original: Bytes32, text: Bytes32)
    requires TextOf(text, original)
    ensures TextOf(Hop(text), original)
  {
    HopTwice(original);
  }

  // ---------- withdrawals ----------

  /** The change of an origin token's account by a payment of d on chain i: an unlocked amount leaves
      without its remainder, unless the bridge pays itself. */
  function PaidOut(net: Network, i: nat, d: Deposit): int
    requires i < |net.sites|
  {
    var o := d.metadata.origin;
    if !Unlocks(d) then d.amount
    else d.amount - Remainder(d.amount, Factor(net, o))
         - if d.to == net.sites[i].self then Quotient(d.amount, Factor(net, o)) * Factor(net, o) else 0
  }

  ghost predicate PaymentEffect(net: Network, chains: seq<State>, i: nat, d: Deposit, s': State)
    requires i < |chains| == |net.sites|
  {
    var s := chains[i];
    && s.used <= s'.used && s'.nonce == s.nonce && s'.ledger.erc20.Keys == s.ledger.erc20.Keys
    && Conforms(net, i, s'.ledger.erc20) && KnownOk(s') && TokensOk(net, chains[i := s'], i)
    && Counted(net, i, s.ledger, s'.ledger, d.metadata.origin, -PaidOut(net, i, d))
  }

  /** The deposit that chain i is asked to pay: logged, and for this chain. */
  ghost predicate Payable(net: Network, chains: seq<State>, i: nat, d: Deposit)
    requires i < |chains| == |net.sites|
  {
    && d.chainId == net.sites[i].chainId && d.kind != NoPegIn
    && Describes(net, d.metadata.symbol, d.metadata.name, d.metadata.fromChain, d.metadata.origin)
    && Backed(net, chains, d.metadata.origin) && TargetsOk(net, d)
  }

  /** Native coins have no remainder. */
  lemma WholePayment(net: Network, i: nat, d: Deposit)
    requires i < |net.sites| && SiteOk(net, i) && d.metadata.origin == net.sites[i].native.origin &&
      d.to != net.sites[i].self
    ensures PaidOut(net, i, d) == d.amount
  {
    assert Factor(net, d.metadata.origin) == Pow10(0) == 1;
  }

  lemma UnlockNativeEffect(net: Network, chains: seq<State>, i: nat, d: Deposit, s: State, accepts: bool)
    requires SoundNetwork(net) && |chains| == |net.sites| && i < |chains| && ChainsOk(net, chains)
    requires Payable(net, chains, i, d) && s == chains[i].(used := s.used) && chains[i].used <= s.used
    requires d.toToken == net.sites[i].native.origin && WithdrawNative(net.sites[i], s, d, accepts).Ok?
    ensures PaymentEffect(net, chains, i, d, WithdrawNative(net.sites[i], s, d, accepts).value)
  {
    var s' := WithdrawNative(net.sites[i], s, d, accepts).value;
    assert SiteOk(net, i);
    assert d.toToken == Target(net, i, d.kind, d.metadata.origin);
    MovedBalances(s.ledger.native, net.sites[i].self, d.to, d.amount, net.sites[i].self);
    NativeChange(net, i, s.ledger, s'.ledger.native, 0 - d.amount);
    WholePayment(net, i, d);
    TokensKept(net, chains, i, s');
    KnownKept(chains[i], s');
  }

  lemma UnlockErc20Effect(net: Network, chains: seq<State>, i: nat, d: Deposit, s: State, s': State)
    requires SoundNetwork(net) && |chains| == |net.sites| && i < |chains| && ChainsOk(net, chains)
    requires Payable(net, chains, i, d) && s == chains[i].(used := s.used) && chains[i].used <= s.used
    requires d.toToken == d.metadata.origin != net.sites[i].native.origin && WithdrawErc20(net.sites[i], s, d) == Ok(s')
    ensures PaymentEffect(net, chains, i, d, s')
  {
    Erc20Paid(net, i, s, d, s');
    Erc20Moved(net, i, s, d, s');
    TokensKept(net, chains, i, s');
    KnownKept(chains[i], s');
  }

  /** Paying in a token of the chain changes the balances of that token only. */
  lemma Erc20Moved(net: Network, i: nat, s: State, d: Deposit, s': State)
    requires i < |net.sites| && Conforms(net, i, s.ledger.erc20) && WithdrawErc20(net.sites[i], s, d) == Ok(s')
    ensures s'.used == s.used && s'.nonce == s.nonce && s'.peggedOrigin == s.peggedOrigin
    ensures s'.ledger.pegged == s.ledger.pegged && s'.ledger.erc20.Keys == s.ledger.erc20.Keys
    ensures Conforms(net, i, s'.ledger.erc20)
  {
    assert d.toToken in s.ledger.erc20;
  }

  lemma Erc20Paid(net: Network, i: nat, s: State, d: Deposit, s': State)
    requires i < |net.sites| && Conforms(net, i, s.ledger.erc20)
    requires d.toToken == d.metadata.origin && WithdrawErc20(net.sites[i], s, d) == Ok(s')
    ensures Counted(net, i, s.ledger, s'.ledger, d.metadata.origin, -PaidOut(net, i, d))
  {
    var self, o := net.sites[i].self, d.metadata.origin;
    var b, f := s.ledger.erc20[o].balances, Factor(net, o);
    MovedBalances(b, self, d.to, Quotient(d.amount, f), self);
    QuotientSplits(d.amount, f);
    if d.to != self {
      Distributes(BalanceOf(b, self) - Quotient(d.amount, f), Quotient(d.amount, f), f);
    }
    Erc20Change(net, i, s.ledger, s'.ledger, o, Moved(b, self, d.to, Quotient(d.amount, f)));
  }

  /** Minting on chain i is for a token deployed by its bridge for the deposit's origin. */
  lemma MintTarget(net: Network, chains: seq<State>, i: nat, d: Deposit)
    requires SoundNetwork(net) && |chains| == |net.sites| && i < |chains| && ChainsOk(net, chains) &&
      Payable(net, chains, i, d)
    ensures d.toToken == Target(net, i, d.kind, d.metadata.origin)
    ensures d.toToken == net.sites[i].native.origin ==> Unlocks(d)
    ensures !Unlocks(d) ==> d.toToken == PegOf(net, i, d.metadata.origin)
    ensures Unlocks(d) <==> d.kind == Burn && net.origins[d.metadata.origin].home == i
  {
    assert SiteOk(net, i);
  }

  /** The known token of a mint is the deposit's. */
  lemma KnownToken(net: Network, chains: seq<State>, i: nat, d: Deposit)
    requires SoundNetwork(net) && |chains| == |net.sites| && i < |chains| && ChainsOk(net, chains) &&
      Payable(net, chains, i, d)
    requires d.toToken in chains[i].ledger.pegged && !Unlocks(d)
    ensures chains[i].ledger.pegged[d.toToken].originAddress == d.metadata.origin
    ensures chains[i].OriginOf(d.toToken) == d.metadata.origin != 0
    ensures chains[i].ledger.pegged[d.toToken].owner == net.sites[i].self
  {
    MintTarget(net, chains, i, d);
    assert TokenOk(net, chains, i, d.toToken, chains[i].ledger.pegged[d.toToken]);
  }

  /** Minting a known token changes its supply and balances only. */
  lemma MintedKnown(site: Site, s: State, d: Deposit, s': State)
    requires d.toToken in s.ledger.pegged && s.OriginOf(d.toToken) != 0 && WithdrawPegged(site, s, d) == Ok(s')
    ensures d.toToken in s'.ledger.pegged
    ensures var k, k' := s.ledger.pegged[d.toToken], s'.ledger.pegged[d.toToken];
      && s' == s.WithPegged(d.toToken, k') && SameButSupply(k, k') && k'.supply == k.supply + d.amount
  {
  }

  lemma MintKnown(net: Network, chains: seq<State>, i: nat, d: Deposit, s: State, s': State)
    requires SoundNetwork(net) && |chains| == |net.sites| && i < |chains| && ChainsOk(net, chains)
    requires Payable(net, chains, i, d) && s == chains[i].(used := s.used) && chains[i].used <= s.used
    requires d.toToken == PegOf(net, i, d.metadata.origin) && !Unlocks(d) && d.toToken in s.ledger.pegged
    requires s.ledger.pegged[d.toToken].originAddress == d.metadata.origin
    requires d.toToken in s'.ledger.pegged && s' == s.WithPegged(d.toToken, s'.ledger.pegged[d.toToken])
    requires SameButSupply(s.ledger.pegged[d.toToken], s'.ledger.pegged[d.toToken])
    requires s'.ledger.pegged[d.toToken].supply == s.ledger.pegged[d.toToken].supply + d.amount
    ensures PaymentEffect(net, chains, i, d, s')
  {
    TokensKept(net, chains, i, s');
    KnownKept(chains[i], s');
    PeggedCounted(net, i, s.ledger, s'.ledger, d.toToken, 0 - d.amount);
  }

  /** One new token, for origin o. */
  lemma TokenAdded(net: Network, chains: seq<State>, i: nat, s': State, t: Address, o: Address)
    requires |chains| == |net.sites| && i < |chains| && TokensOk(net, chains, i) && Grows(chains[i], s') &&
      Backed(net, chains, o)
    requires t in s'.ledger.pegged && s'.ledger.pegged.Keys == chains[i].ledger.pegged.Keys + {t}
    requires forall u :: u in chains[i].ledger.pegged && u != t ==> s'.ledger.pegged[u] == chains[i].ledger.pegged[u]
    requires s'.peggedOrigin == chains[i].peggedOrigin[t := o]
    requires var k := s'.ledger.pegged[t];
      Describes(net, k.symbol, k.name, k.originChain, o) && k.originAddress == o && t == PegOf(net, i, o) &&
        k.owner == net.sites[i].self
    ensures TokensOk(net, chains[i := s'], i)
  {
    BackedGrows(net, chains, i, s', o);
    forall u | u in s'.ledger.pegged
      ensures TokenOk(net, chains[i := s'], i, u, s'.ledger.pegged[u])
    {
      if u != t {
        assert u in chains[i].ledger.pegged.Keys;
        assert TokenOk(net, chains, i, u, chains[i].ledger.pegged[u]);
        BackedGrows(net, chains, i, s', chains[i].ledger.pegged[u].originAddress);
      }
    }
  }

  /** Minting an unknown token deploys it first, as the metadata describes it. */
  lemma MintedNew(site: Site, s: State, d: Deposit, s': State)
    requires d.toToken !in s.ledger.pegged && s.OriginOf(d.toToken) == 0 && WithdrawPegged(site, s, d) == Ok(s')
    ensures d.toToken in s'.ledger.pegged
    ensures var m, k := d.metadata, s'.ledger.pegged[d.toToken];
      && s' == s.WithPegged(d.toToken, k).(peggedOrigin := s.peggedOrigin[d.toToken := m.origin])
      && k.supply == d.amount && k.owner == site.self && k.symbol == m.symbol && k.name == m.name
      && k.originChain == m.fromChain && k.originAddress == m.origin
  {
  }

  lemma KnownGrows(s: State, s': State, t: Address, o: Address)
    requires KnownOk(s) && s'.peggedOrigin == s.peggedOrigin[t := o]
    requires s'.ledger.pegged.Keys == s.ledger.pegged.Keys + {t}
    ensures KnownOk(s')
  {
    forall u | s'.OriginOf(u) != 0
      ensures u in s'.ledger.pegged
    {
      assert u == t || s.OriginOf(u) != 0;
      assert u in s'.ledger.pegged.Keys;
    }
  }

  lemma MintNew(net: Network, chains: seq<State>, i: nat, d: Deposit, s: State, s': State)
    requires SoundNetwork(net) && |chains| == |net.sites| && i < |chains| && ChainsOk(net, chains)
    requires Payable(net, chains, i, d) && s == chains[i].(used := s.used) && chains[i].used <= s.used
    requires d.toToken == PegOf(net, i, d.metadata.origin) && !Unlocks(d)
    requires d.toToken !in s.ledger.pegged && d.toToken in s'.ledger.pegged
    requires var m, k := d.metadata, s'.ledger.pegged[d.toToken];
      && s' == s.WithPegged(d.toToken, k).(peggedOrigin := s.peggedOrigin[d.toToken := m.origin])
      && k.supply == d.amount && k.owner == net.sites[i].self && k.symbol == m.symbol && k.name == m.name
      && k.originChain == m.fromChain && k.originAddress == m.origin
    ensures PaymentEffect(net, chains, i, d, s')
  {
    assert s'.ledger.pegged.Keys == chains[i].ledger.pegged.Keys + {d.toToken};
    TokenAdded(net, chains, i, s', d.toToken, d.metadata.origin);
    KnownGrows(chains[i], s', d.toToken, d.metadata.origin);
    PeggedChange(net, i, s.ledger, s'.ledger, d.metadata.origin, s'.ledger.pegged[d.toToken]);
  }

  lemma MintEffect(net: Network, chains: seq<State>, i: nat, d: Deposit, s: State, s': State)
    requires SoundNetwork(net) && |chains| == |net.sites| && i < |chains| && ChainsOk(net, chains)
    requires Payable(net, chains, i, d) && s == chains[i].(used := s.used) && chains[i].used <= s.used
    requires !Unlocks(d) && WithdrawPegged(net.sites[i], s, d) == Ok(s')
    ensures PaymentEffect(net, chains, i, d, s')
  {
    MintTarget(net, chains, i, d);
    if d.toToken in s.ledger.pegged {
      KnownToken(net, chains, i, d);
      MintedKnown(net.sites[i], s, d, s');
      MintKnown(net, chains, i, d, s, s');
    } else {
      assert s.OriginOf(d.toToken) == chains[i].OriginOf(d.toToken) == 0;
      MintedNew(net.sites[i], s, d, s');
      MintNew(net, chains, i, d, s, s');
    }
  }

  lemma PayOutEffect(net: Network, chains: seq<State>, i: nat, d: Deposit, s: State, accepts: bool)
    requires SoundNetwork(net) && |chains| == |net.sites| && i < |chains| && ChainsOk(net, chains)
    requires Payable(net, chains, i, d) && s == chains[i].(used := s.used) && chains[i].used <= s.used
    requires PayOut(net.sites[i], s, d, accepts).Ok?
    ensures PaymentEffect(net, chains, i, d, PayOut(net.sites[i], s, d, accepts).value)
  {
    MintTarget(net, chains, i, d);
    PayOutRoute(net.sites[i], s, d, accepts);
    if d.toToken == net.sites[i].native.origin {
      UnlockNativeEffect(net, chains, i, d, s, accepts);
    } else if Unlocks(d) {
      UnlockErc20Effect(net, chains, i, d, s, PayOut(net.sites[i], s, d, accepts).value);
    } else {
      MintEffect(net, chains, i, d, s, PayOut(net.sites[i], s, d, accepts).value);
    }
  }

  /** A logged deposit for chain i whose receipt chain i has not used up is not paid anywhere. */
  lemma NotPaidYet(net: Network, w: World, i: nat, j: nat)
    requires SoundNetwork(net) && |w.chains| == |net.sites| && PaymentsOk(net, w) && i < |w.chains| && j < |w.log|
    requires w.log[j].deposit.chainId == net.sites[i].chainId
    requires HashOf(net, w.log[j].receipt) !in w.chains[i].used
    ensures !IsPaid(w.payments, j)
  {
    forall k: nat | k < |w.payments|
      ensures w.payments[k].entry != j
    {
      assert PaymentOk(net, w, w.payments[k]);
    }
  }

  lemma WithdrawalKeepsInv(net: Network, w: World, i: nat, j: nat, accepts: bool, s: State, s': State)
    requires SoundNetwork(net) && Inv(net, w) && i < |w.chains| && j < |w.log|
    requires |Deposits(EventsAt(net, i), w.log[j].receipt.logs)| == 1
    requires w.log[j].deposit.chainId == net.sites[i].chainId
    requires HashOf(net, w.log[j].receipt) !in w.chains[i].used
    requires s == w.chains[i].(used := w.chains[i].used + {HashOf(net, w.log[j].receipt)})
    requires PayOut(net.sites[i], s, w.log[j].deposit, accepts) == Ok(s')
    ensures Inv(net, Paid(net, w, i, j, s'))
  {
    NotPaidYet(net, w, i, j);
    assert EntryOk(net, w.chains, w.log[j]);
    PayOutKeeps(net.sites[i], s, w.log[j].deposit, accepts);
    PayOutEffect(net, w.chains, i, w.log[j].deposit, s, accepts);
    PaymentKeepsInv(net, w, i, j, s');
  }

  lemma PaymentKeepsInv(net: Network, w: World, i: nat, j: nat, s': State)
    requires Inv(net, w) && i < |w.chains| && j < |w.log| && !IsPaid(w.payments, j)
    requires PaymentEffect(net, w.chains, i, w.log[j].deposit, s')
    requires w.log[j].deposit.chainId == net.sites[i].chainId && HashOf(net, w.log[j].receipt) in s'.used
    requires |Deposits(EventsAt(net, i), w.log[j].receipt.logs)| == 1
    ensures Inv(net, Paid(net, w, i, j, s'))
  {
    var w' := Paid(net, w, i, j, s');
    ChainsGrow(net, w.chains, i, s');
    LogGrows(net, w.chains, i, s', w.log);
    PaymentAdded(net, w, i, j, s');
    forall o | o in net.origins
      ensures Solvent(net, w', o)
    {
      PaymentKeepsSolvent(net, w, i, j, s', o);
    }
  }

  lemma PaymentAdded(net: Network, w: World, i: nat, j: nat, s': State)
    requires |w.chains| == |net.sites| && i < |w.chains| && j < |w.log| && !IsPaid(w.payments, j)
    requires PaymentsOk(net, w) && PaidOnce(w.payments) && w.chains[i].used <= s'.used
    requires w.log[j].deposit.chainId == net.sites[i].chainId && HashOf(net, w.log[j].receipt) in s'.used
    requires |Deposits(EventsAt(net, i), w.log[j].receipt.logs)| == 1
    ensures PaymentsOk(net, Paid(net, w, i, j, s')) && PaidOnce(Paid(net, w, i, j, s').payments)
  {
    var w' := Paid(net, w, i, j, s');
    forall k: nat | k < |w'.payments|
      ensures PaymentOk(net, w', w'.payments[k])
    {
      if k < |w.payments| {
        PaymentStays(net, w, w', i, s', w.payments[k]);
      } else {
        PaymentMade(net, w, w', i, j, s');
      }
    }
    PaidOnceMore(w.payments, Payment(j, i));
  }

  lemma PaymentStays(net: Network, w: World, w': World, i: nat, s': State, p: Payment)
    requires i < |w.chains| == |net.sites| && w'.chains == w.chains[i := s'] && w'.log == w.log
    requires w.chains[i].used <= s'.used && PaymentOk(net, w, p)
    ensures PaymentOk(net, w', p)
  {
  }

  lemma PaymentsStay(net: Network, w: World, w': World, i: nat, s': State)
    requires i < |w.chains| == |net.sites| && w'.chains == w.chains[i := s'] && w'.log == w.log
    requires w'.payments == w.payments && w.chains[i].used <= s'.used && PaymentsOk(net, w)
    ensures PaymentsOk(net, w')
  {
    forall k: nat | k < |w'.payments|
      ensures PaymentOk(net, w', w'.payments[k])
    {
      PaymentStays(net, w, w', i, s', w.payments[k]);
    }
  }

  lemma PaymentMade(net: Network, w: World, w': World, i: nat, j: nat, s': State)
    requires i < |w.chains| == |net.sites| && w'.chains == w.chains[i := s'] && w'.log == w.log && j < |w.log|
    requires w.log[j].deposit.chainId == net.sites[i].chainId && HashOf(net, w.log[j].receipt) in s'.used
    requires |Deposits(EventsAt(net, i), w.log[j].receipt.logs)| == 1
    ensures PaymentOk(net, w', Payment(j, i))
  {
  }

  lemma PaidOnceMore(payments: seq<Payment>, p: Payment)
    requires PaidOnce(payments) && !IsPaid(payments, p.entry)
    ensures PaidOnce(payments + [p])
  {
    var all := payments + [p];
    forall a: nat, b: nat | a < b < |all|
      ensures all[a].entry != all[b].entry
    {
      assert payments[a] in payments;
    }
  }

  lemma PaymentKeepsSolvent(net: Network, w: World, i: nat, j: nat, s': State, o: Address)
    requires |w.chains| == |net.sites| && i < |w.chains| && j < |w.log| && !IsPaid(w.payments, j) &&
      o in net.origins && Solvent(net, w, o)
    requires BackingAt(net, i, s'.ledger, o) ==
      BackingAt(net, i, w.chains[i].ledger, o) -
        if o == w.log[j].deposit.metadata.origin then PaidOut(net, i, w.log[j].deposit) else 0
    ensures Solvent(net, Paid(net, w, i, j, s'), o)
  {
    BackingUpdated(net, w.chains, i, s', o, |w.chains|);
    UnpaidStep(w.log, w.payments, Payment(j, i), o, |w.log|);
    PaidAccounts(net, w, i, j, s', o);
    Closes(w.log[j].deposit, Get(w.donated, o), Factor(net, o));
  }

  /** Remainders and gifts after a payment. */
  lemma PaidAccounts(net: Network, w: World, i: nat, j: nat, s': State, o: Address)
    requires i < |w.chains| == |net.sites| && j < |w.log|
    ensures var d, w' := w.log[j].deposit, Paid(net, w, i, j, s');
      var ours := o == d.metadata.origin && Unlocks(d);
      && Get(w'.dust, o) == Get(w.dust, o) + (if ours then Remainder(d.amount, Factor(net, o)) else 0)
      && Get(w'.donated, o) == Get(w.donated, o) +
           (if ours && d.to == net.sites[i].self then Quotient(d.amount, Factor(net, o)) else 0)
      && w'.chains == w.chains[i := s'] && w'.log == w.log && w'.payments == w.payments + [Payment(j, i)]
  {
  }

  lemma Closes(d: Deposit, donated: nat, f: nat)
    requires f > 0
    ensures (donated + Quotient(d.amount, f)) * f == donated * f + Quotient(d.amount, f) * f
  {
    Distributes(donated, Quotient(d.amount, f), f);
  }

  // ---------- what others do ----------

  lemma OthersKeepInv(net: Network, w: World, i: nat, ledger: Ledger)
    requires SoundNetwork(net) && Inv(net, w) && i < |w.chains| && OthersMay(net, i, w.chains[i].ledger, ledger)
    ensures Inv(net, w.(chains := w.chains[i := w.chains[i].(ledger := ledger)], donated := Gifts(net, w, i, ledger)))
  {
    var s' := w.chains[i].(ledger := ledger);
    var w' := w.(chains := w.chains[i := s'], donated := Gifts(net, w, i, ledger));
    OthersGrow(w.chains[i], s', net, i);
    TokensKept(net, w.chains, i, s');
    KnownKept(w.chains[i], s');
    ChainsGrow(net, w.chains, i, s');
    LogGrows(net, w.chains, i, s', w.log);
    PaymentsStay(net, w, w', i, s');
    forall o | o in net.origins
      ensures Solvent(net, w', o)
    {
      OthersKeepSolvent(net, w, i, ledger, o);
    }
  }

  lemma OthersKeepSolvent(net: Network, w: World, i: nat, ledger: Ledger, o: Address)
    requires SoundNetwork(net) && |w.chains| == |net.sites| && i < |w.chains| &&
      OthersMay(net, i, w.chains[i].ledger, ledger)
    requires Conforms(net, i, w.chains[i].ledger.erc20) && o in net.origins && Solvent(net, w, o)
    ensures Solvent(net, w.(chains := w.chains[i := w.chains[i].(ledger := ledger)],
                            donated := Gifts(net, w, i, ledger)), o)
  {
    var gift := GiftMade(net, w, i, ledger, o);
    GiftKeepsSolvent(net, w, i, w.chains[i].(ledger := ledger), Gifts(net, w, i, ledger), gift, o);
  }

  /** What others gave to the bridge: it is entered among the gifts and raises the account. */
  lemma GiftMade(net: Network, w: World, i: nat, ledger: Ledger, o: Address) returns (gift: nat)
    requires SoundNetwork(net) && |w.chains| == |net.sites| && i < |w.chains| &&
      OthersMay(net, i, w.chains[i].ledger, ledger)
    requires Conforms(net, i, w.chains[i].ledger.erc20) && o in net.origins
    ensures Get(Gifts(net, w, i, ledger), o) == Get(w.donated, o) + gift
    ensures BackingAt(net, i, ledger, o) - BackingAt(net, i, w.chains[i].ledger, o) == gift * Factor(net, o)
  {
    GiftOf(net, w, i, ledger, o);
    GiftsAreBacking(net, w, i, ledger, o);
    gift := EscrowAt(net, i, ledger, o) - EscrowAt(net, i, w.chains[i].ledger, o);
  }

  lemma OthersGrow(s: State, s': State, net: Network, i: nat)
    requires i < |net.sites| && OthersMay(net, i, s.ledger, s'.ledger) && s' == s.(ledger := s'.ledger)
    ensures Grows(s, s')
    ensures forall t :: t in s'.ledger.pegged ==> SameButSupply(s.ledger.pegged[t], s'.ledger.pegged[t])
  {
    forall t | t in s'.ledger.pegged
      ensures SameButSupply(s.ledger.pegged[t], s'.ledger.pegged[t])
    {
      assert t in s.ledger.pegged.Keys;
    }
  }

  lemma GiftKeepsSolvent(net: Network, w: World, i: nat, s': State, donated: map<Address, nat>, gift: nat, o: Address)
    requires |w.chains| == |net.sites| && i < |w.chains| && o in net.origins && Solvent(net, w, o)
    requires BackingAt(net, i, s'.ledger, o) - BackingAt(net, i, w.chains[i].ledger, o) == gift * Factor(net, o)
    requires Get(donated, o) == Get(w.donated, o) + gift
    ensures Solvent(net, w.(chains := w.chains[i := s'], donated := donated), o)
  {
    BackingUpdated(net, w.chains, i, s', o, |w.chains|);
    Distributes(Get(w.donated, o), gift, Factor(net, o));
  }

  lemma GiftOf(net: Network, w: World, i: nat, ledger: Ledger, o: Address)
    requires i < |w.chains| == |net.sites| && OthersMay(net, i, w.chains[i].ledger, ledger) && o in net.origins
    ensures Get(Gifts(net, w, i, ledger), o) ==
      Get(w.donated, o) + (EscrowAt(net, i, ledger, o) - EscrowAt(net, i, w.chains[i].ledger, o))
  {
  }

  lemma GiftsAreBacking(net: Network, w: World, i: nat, ledger: Ledger, o: Address)
    requires SoundNetwork(net) && |w.chains| == |net.sites| && i < |w.chains| &&
      OthersMay(net, i, w.chains[i].ledger, ledger)
    requires Conforms(net, i, w.chains[i].ledger.erc20) && o in net.origins
    ensures EscrowAt(net, i, ledger, o) >= EscrowAt(net, i, w.chains[i].ledger, o)
    ensures BackingAt(net, i, ledger, o) - BackingAt(net, i, w.chains[i].ledger, o)
      == (EscrowAt(net, i, ledger, o) - EscrowAt(net, i, w.chains[i].ledger, o)) * Factor(net, o)
  {
    assert SiteOk(net, i);
    var before, after := w.chains[i].ledger, ledger;
    assert PegOf(net, i, o) in after.pegged.Keys <==> PegOf(net, i, o) in before.pegged.Keys;
    assert SupplyAt(net, i, after, o) == SupplyAt(net, i, before, o);
    if net.origins[o].home == i {
      Distributes(EscrowAt(net, i, before, o), EscrowAt(net, i, after, o) - EscrowAt(net, i, before, o),
                  Factor(net, o));
    }
  }

  // ---------- every step ----------

  /** Only a token that the bridge deployed is ever burned: one that merely claims an origin is refused. */
  lemma ForeignTokensAreRefused(net: Network, chains: seq<State>, i: nat, step: Step)
    requires SoundNetwork(net) && |chains| == |net.sites| && i < |chains| && ChainsOk(net, chains) && step.TokenDeposit?
    requires ChainClaimed(net.sites[i], chains[i], step.token) != 0
    ensures DepositToken(net.sites[i], chains[i], step.registry, step.allowance, step.sender, step.token, step.toChain,
                         step.to, step.amount).Ok? ==>
      step.token in chains[i].ledger.pegged
  {
    var s := chains[i];
    if step.token !in s.ledger.pegged {
      assert Conforms(net, i, s.ledger.erc20) && KnownOk(s);
      assert s.OriginOf(step.token) == 0;
    }
  }

  lemma DepositTokenKeepsInv(net: Network, w: World, step: Step)
    requires SoundNetwork(net) && Inv(net, w) && Possible(net, w, step) && step.TokenDeposit?
    ensures Inv(net, Do(net, w, step))
  {
    var i, s := step.chain, w.chains[step.chain];
    var r := DepositToken(net.sites[i], s, step.registry, step.allowance, step.sender, step.token, step.toChain,
                          step.to, step.amount);
    if r.Ok? {
      if ChainClaimed(net.sites[i], s, step.token) != 0 {
        ForeignTokensAreRefused(net, w.chains, i, step);
        PeggedEffect(net, w.chains, i, step.registry, step.sender, step.token, step.toChain, step.to, step.amount,
                     r.value);
      } else {
        Erc20Effect(net, w.chains, i, step.registry, step.allowance, step.sender, step.token, step.toChain, step.to,
                    step.amount, r.value);
      }
      DepositKeepsInv(net, w, i, r.value, step.receipt);
    }
  }

  lemma DepositNativeKeepsInv(net: Network, w: World, step: Step)
    requires SoundNetwork(net) && Inv(net, w) && Possible(net, w, step) && step.NativeDeposit?
    ensures Inv(net, Do(net, w, step))
  {
    var i := step.chain;
    var r := DepositNative(net.sites[i], w.chains[i], step.registry, step.sender, step.toChain, step.to, step.amount);
    if r.Ok? {
      NativeEffect(net, w.chains, i, step.registry, step.sender, step.toChain, step.to, step.amount, r.value);
      DepositKeepsInv(net, w, i, r.value, step.receipt);
    }
  }

  /** What passes on a registry without chains outside the network passes as the network's. */
  lemma ClosedPasses(net: Network, registry: Registry, d: Deposit, hub: HubVerdict)
    requires Closed(net, registry) && OneHub(registry, hub) && hub(d.metadata.fromChain) == Ok(true)
    requires BridgeAt(registry, d.metadata.fromChain) == d.contract
    ensures PassesAsOurs(net, registry, d, hub)
  {
  }

  /** A withdrawal on such a registry is one of a logged deposit, the only one its receipt says. */
  lemma WithdrawsEntry(net: Network, w: World, i: nat, registry: Registry, rc: Receipt, j: nat, hub: HubVerdict,
                       accepts: bool, s: State)
    requires i < |net.sites| && OneHub(registry, hub) && Genuine(net, w, i, registry, rc, j, hub)
    requires Closed(net, registry) && WithdrawOn(net, i, s, registry, rc, hub, accepts).Ok?
    ensures SaysOurs(net, i, registry, rc, hub)
    ensures j < |w.log| && w.log[j].receipt == rc && |Deposits(EventsAt(net, i), rc.logs)| == 1
    ensures Passes(net.sites[i], s, registry, w.log[j].deposit, HashOf(net, rc), hub)
    ensures WithdrawOn(net, i, s, registry, rc, hub, accepts) ==
      PayOut(net.sites[i], s.(used := s.used + {HashOf(net, rc)}), w.log[j].deposit, accepts)
  {
    var ev, hash := EventsAt(net, i), HashOf(net, rc);
    ReceiptWithdrawn(net.sites[i], s, registry, ev, rc, hash, hub, accepts);
    var d := ReceiptDeposit(ev, rc).value;
    ReceiptPaysOut(net.sites[i], s, registry, ev, rc, hash, hub, accepts, d, true);
    SaysOne(ev, rc);
    ClosedPasses(net, registry, d, hub);
  }

  lemma WithdrawalStep(net: Network, w: World, step: Step)
    requires SoundNetwork(net) && Inv(net, w) && Possible(net, w, step) && step.Withdrawal?
    requires Closed(net, step.registry)
    ensures Inv(net, Do(net, w, step))
  {
    var i := step.chain;
    var r := WithdrawOn(net, i, w.chains[i], step.registry, step.receipt, step.hub, step.accepts);
    if r.Ok? {
      WithdrawsEntry(net, w, i, step.registry, step.receipt, step.entry, step.hub, step.accepts, w.chains[i]);
      var s := w.chains[i].(used := w.chains[i].used + {HashOf(net, step.receipt)});
      WithdrawalKeepsInv(net, w, i, step.entry, step.accepts, s, r.value);
    }
  }

  /** The registry of a withdrawal knows no chain outside the network. */
  ghost predicate ClosedStep(net: Network, step: Step) {
    step.Withdrawal? ==> Closed(net, step.registry)
  }

  lemma StepKeepsInv(net: Network, w: World, step: Step)
    requires SoundNetwork(net) && Inv(net, w) && Possible(net, w, step) && ClosedStep(net, step)
    ensures Inv(net, Do(net, w, step))
  {
    match step
    case NativeDeposit(_, _, _, _, _, _, _) => DepositNativeKeepsInv(net, w, step);
    case TokenDeposit(_, _, _, _, _, _, _, _, _) => DepositTokenKeepsInv(net, w, step);
    case Withdrawal(_, _, _, _, _, _) => WithdrawalStep(net, w, step);
    case Others(i, ledger) => OthersKeepInv(net, w, i, ledger);
  }
}
