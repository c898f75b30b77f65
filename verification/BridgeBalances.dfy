/** Who pays and who is paid: what deposits and withdrawals do to every account in every token. */
module BridgeBalances {
  import opened Bytes
  import opened Header
  import opened ReceiptParser
  import opened BridgeSpec
  import opened BridgeUnits
  import opened SimpleToken
  import opened BridgeNetwork
  import opened BridgeInvariant
  import opened BridgeSteps
  import opened Wrappers

  /** What an account has of a token of chain i; the native coin goes by its made-up address. */
  function Holding(net: Network, i: nat, ledger: Ledger, token: Address, a: Address): nat
    requires i < |net.sites|
  {
    if token == net.sites[i].native.origin then BalanceOf(ledger.native, a)
    else if token in ledger.erc20 then BalanceOf(ledger.erc20[token].balances, a)
    else if token in ledger.pegged then BalanceOf(ledger.pegged[token].balances, a)
    else 0
  }

  /** The units that change hands: all of a minted amount, and an unlocked one in the token's decimals. */
  function Units(net: Network, d: Deposit): nat {
    if Unlocks(d) then Quotient(d.amount, Factor(net, d.metadata.origin)) else d.amount
  }

  /** Only `token` changes hands, by these differences. */
  ghost predicate OnlyMoves(net: Network, i: nat, before: Ledger, after: Ledger, token: Address, units: nat,
                            payer: Option<Address>, payee: Option<Address>)
    requires i < |net.sites|
  {
    forall t: Address, a: Address ::
      Holding(net, i, after, t, a) == Holding(net, i, before, t, a)
        + (if t == token && payee == Some(a) then units else 0) - (if t == token && payer == Some(a) then units else 0)
  }

  /** Deployed tokens, plain tokens and the native coin never share an address. */
  lemma TokensApart(net: Network, chains: seq<State>, i: nat, t: Address)
    requires SoundNetwork(net) && |chains| == |net.sites| && i < |chains| && ChainsOk(net, chains)
    ensures t in chains[i].ledger.pegged ==> t !in chains[i].ledger.erc20 && t !in net.origins
    ensures t in chains[i].ledger.erc20 ==> t in net.origins && t != net.sites[i].native.origin
    ensures net.sites[i].native.origin in net.origins
  {
    assert SiteOk(net, i);
    if t in chains[i].ledger.pegged {
      assert TokenOk(net, chains, i, t, chains[i].ledger.pegged[t]);
    }
  }

  lemma NativeMoves(net: Network, i: nat, l: Ledger, from: Address, to: Address, units: nat)
    requires i < |net.sites| && BalanceOf(l.native, from) >= units
    ensures OnlyMoves(net, i, l, l.(native := Moved(l.native, from, to, units)), net.sites[i].native.origin, units,
                      Some(from), Some(to))
  {
  }

  lemma Erc20Moves(net: Network, i: nat, l: Ledger, token: Address, from: Address, to: Address, units: nat)
    requires i < |net.sites| && token in l.erc20 && token != net.sites[i].native.origin
    requires BalanceOf(l.erc20[token].balances, from) >= units
    ensures OnlyMoves(net, i, l,
                      l.(erc20 := l.erc20[token := l.erc20[token].(balances := Moved(l.erc20[token].balances, from, to,
                                                                                     units))]),
                      token, units, Some(from), Some(to))
  {
  }

  /** A token, deployed or not before, gets new balances: one account has more. */
  lemma MintMoves(net: Network, i: nat, l: Ledger, token: Address, b: Balances, to: Address, units: nat, k': Token)
    requires i < |net.sites| && token !in l.erc20 && token != net.sites[i].native.origin
    requires b == if token in l.pegged then l.pegged[token].balances else map[]
    requires k'.balances == b[to := BalanceOf(b, to) + units]
    ensures OnlyMoves(net, i, l, l.(pegged := l.pegged[token := k']), token, units, None, Some(to))
  {
  }

  lemma BurnMoves(net: Network, i: nat, l: Ledger, token: Address, from: Address, units: nat, k': Token)
    requires i < |net.sites| && token !in l.erc20 && token != net.sites[i].native.origin && token in l.pegged
    requires BalanceOf(l.pegged[token].balances, from) >= units
    requires k'.balances == l.pegged[token].balances[from := BalanceOf(l.pegged[token].balances, from) - units]
    ensures OnlyMoves(net, i, l, l.(pegged := l.pegged[token := k']), token, units, Some(from), None)
  {
  }

  lemma NativeUnits(net: Network, i: nat, d: Deposit)
    requires i < |net.sites| && SiteOk(net, i) && d.toToken == d.metadata.origin == net.sites[i].native.origin
    ensures Units(net, d) == d.amount
  {
    assert Factor(net, d.metadata.origin) == Pow10(0) == 1;
    QuotientSplits(d.amount, 1);
  }

  lemma NativeIsPaid(net: Network, i: nat, s: State, d: Deposit, accepts: bool, s': State)
    requires i < |net.sites| && SiteOk(net, i) && d.toToken == d.metadata.origin == net.sites[i].native.origin
    requires WithdrawNative(net.sites[i], s, d, accepts) == Ok(s')
    ensures OnlyMoves(net, i, s.ledger, s'.ledger, d.toToken, Units(net, d), Some(net.sites[i].self), Some(d.to))
  {
    NativeMoves(net, i, s.ledger, net.sites[i].self, d.to, d.amount);
    NativeUnits(net, i, d);
  }

  lemma Erc20IsPaid(net: Network, i: nat, s: State, d: Deposit, s': State)
    requires i < |net.sites| && Conforms(net, i, s.ledger.erc20) && Unlocks(d)
    requires WithdrawErc20(net.sites[i], s, d) == Ok(s')
    ensures OnlyMoves(net, i, s.ledger, s'.ledger, d.toToken, Units(net, d), Some(net.sites[i].self), Some(d.to))
  {
    Erc20Moves(net, i, s.ledger, d.toToken, net.sites[i].self, d.to, Units(net, d));
  }

  lemma MintIsPaid(net: Network, i: nat, s: State, d: Deposit, s': State)
    requires i < |net.sites| && d.toToken !in s.ledger.erc20 && d.toToken != net.sites[i].native.origin
    requires d.toToken in s.ledger.pegged <==> s.OriginOf(d.toToken) != 0
    requires WithdrawPegged(net.sites[i], s, d) == Ok(s')
    ensures OnlyMoves(net, i, s.ledger, s'.ledger, d.toToken, d.amount, None, Some(d.to))
  {
    if d.toToken in s.ledger.pegged {
      MintMoves(net, i, s.ledger, d.toToken, s.ledger.pegged[d.toToken].balances, d.to, d.amount,
                s'.ledger.pegged[d.toToken]);
    } else {
      MintMoves(net, i, s.ledger, d.toToken, map[], d.to, d.amount, s'.ledger.pegged[d.toToken]);
    }
  }

  /** The token of a mint is none of the chain's own, and the bridge knows it exactly if it exists. */
  lemma MintedApart(net: Network, chains: seq<State>, i: nat, d: Deposit)
    requires SoundNetwork(net) && |chains| == |net.sites| && i < |chains| && ChainsOk(net, chains)
    requires Payable(net, chains, i, d) && !Unlocks(d)
    ensures d.toToken !in chains[i].ledger.erc20 && d.toToken != net.sites[i].native.origin
    ensures d.toToken in chains[i].ledger.pegged <==> chains[i].OriginOf(d.toToken) != 0
  {
    MintTarget(net, chains, i, d);
    TokensApart(net, chains, i, d.toToken);
    if d.toToken in chains[i].ledger.pegged {
      KnownToken(net, chains, i, d);
    }
  }

  lemma PayOutMoves(net: Network, chains: seq<State>, i: nat, d: Deposit, s: State, accepts: bool, s': State)
    requires SoundNetwork(net) && |chains| == |net.sites| && i < |chains| && ChainsOk(net, chains)
    requires Payable(net, chains, i, d) && s == chains[i].(used := s.used)
    requires PayOut(net.sites[i], s, d, accepts) == Ok(s')
    ensures OnlyMoves(net, i, s.ledger, s'.ledger, d.toToken, Units(net, d),
                      if Unlocks(d) then Some(net.sites[i].self) else None, Some(d.to))
  {
    MintTarget(net, chains, i, d);
    PayOutRoute(net.sites[i], s, d, accepts);
    if d.toToken == net.sites[i].native.origin {
      NativeIsPaid(net, i, s, d, accepts, s');
    } else if Unlocks(d) {
      Erc20IsPaid(net, i, s, d, s');
    } else {
      MintedApart(net, chains, i, d);
      MintIsPaid(net, i, s, d, s');
    }
  }

  /** A payment gives the recipient named in the deposit the deposit's amount of the token named there,
      from the bridge if it is unlocked and newly minted otherwise. No other account and no other token
      changes. */
  lemma RecipientIsPaid(net: Network, w: World, i: nat, registry: Registry, j: nat, hub: HubVerdict, accepts: bool,
                        s': State)
    returns (units: nat)
    requires SoundNetwork(net) && Inv(net, w) && i < |w.chains| && j < |w.log|
    requires Withdraw(net.sites[i], w.chains[i], registry, w.log[j].deposit, HashOf(net, w.log[j].receipt), hub,
                      accepts) == Ok(s')
    ensures var d := w.log[j].deposit;
      && OnlyMoves(net, i, w.chains[i].ledger, s'.ledger, d.toToken, units,
                   if Unlocks(d) then Some(net.sites[i].self) else None, Some(d.to))
      && if Unlocks(d) then AllUnlocked(net, d, units) else units == d.amount
  {
    var d, s := w.log[j].deposit, w.chains[i].(used := w.chains[i].used + {HashOf(net, w.log[j].receipt)});
    WithdrawalIsPayOut(net.sites[i], w.chains[i], registry, d, HashOf(net, w.log[j].receipt), hub, accepts);
    EntryMoves(net, w, i, j, s, accepts, s');
    units := Units(net, d);
    if Unlocks(d) {
      assert EntryOk(net, w.chains, w.log[j]);
      UnlockedUnits(net, w.chains, d);
    }
  }

  /** The most units of the origin token that the deposit's amount is worth. */
  predicate AllUnlocked(net: Network, d: Deposit, units: nat) {
    && d.metadata.origin in net.origins && net.origins[d.metadata.origin].decimals <= 18
    && MostUnits(units, d.amount, net.origins[d.metadata.origin].decimals)
  }

  lemma UnlockedUnits(net: Network, chains: seq<State>, d: Deposit)
    requires SoundNetwork(net) && |chains| == |net.sites| && Backed(net, chains, d.metadata.origin) && Unlocks(d)
    ensures AllUnlocked(net, d, Units(net, d))
  {
    var o := d.metadata.origin;
    assert SiteOk(net, net.origins[o].home);
    ScaledDown(d.amount, net.origins[o].decimals);
  }

  lemma EntryMoves(net: Network, w: World, i: nat, j: nat, s: State, accepts: bool, s': State)
    requires SoundNetwork(net) && Inv(net, w) && i < |w.chains| && j < |w.log|
    requires w.log[j].deposit.chainId == net.sites[i].chainId && s == w.chains[i].(used := s.used)
    requires PayOut(net.sites[i], s, w.log[j].deposit, accepts) == Ok(s')
    ensures var d := w.log[j].deposit;
      OnlyMoves(net, i, w.chains[i].ledger, s'.ledger, d.toToken, Units(net, d),
                if Unlocks(d) then Some(net.sites[i].self) else None, Some(d.to))
  {
    assert EntryOk(net, w.chains, w.log[j]);
    PayOutMoves(net, w.chains, i, w.log[j].deposit, s, accepts, s');
  }

  /** The event of a token deposit names what it was called with. */
  predicate Says(d: Deposit, step: Step, kind: PegInType, amount: nat)
    requires step.TokenDeposit?
  {
    && d.kind == kind && d.from == step.sender && d.to == step.to && d.chainId == step.toChain
    && d.fromToken == step.token && d.amount == amount
  }

  /** The event tells the amount in units of 18 decimals, and exactly the amount deposited leaves the
      sender's account, for the bridge's if the token is locked; nothing else moves. */
  ghost predicate Costs(net: Network, i: nat, s: State, step: Step, e: Emitted)
    requires i < |net.sites| && step.TokenDeposit?
  {
    if step.token in s.ledger.pegged then
      && Says(e.deposit, step, Burn, step.amount)
      && OnlyMoves(net, i, s.ledger, e.state.ledger, step.token, step.amount, Some(step.sender), None)
    else
      && step.token in s.ledger.erc20 && s.ledger.erc20[step.token].decimals <= 18
      && Worth(e.deposit.amount, step.amount, s.ledger.erc20[step.token].decimals)
      && Says(e.deposit, step, Lock, e.deposit.amount)
      && OnlyMoves(net, i, s.ledger, e.state.ledger, step.token, step.amount, Some(step.sender),
                   Some(net.sites[i].self))
  }

  /** Deployed tokens are burned, all others that are taken are locked. */
  lemma DepositRoute(net: Network, chains: seq<State>, i: nat, step: Step, e: Emitted)
    requires SoundNetwork(net) && |chains| == |net.sites| && i < |chains| && ChainsOk(net, chains) && step.TokenDeposit?
    requires DepositToken(net.sites[i], chains[i], step.registry, step.allowance, step.sender, step.token, step.toChain,
                          step.to, step.amount) == Ok(e)
    ensures Conforms(net, i, chains[i].ledger.erc20)
    ensures if step.token in chains[i].ledger.pegged then
        && step.token !in chains[i].ledger.erc20 && step.token != net.sites[i].native.origin
        && DepositDeployed(net.sites[i], chains[i], step.registry, step.sender, step.token, step.toChain, step.to,
                           step.amount) == Ok(e)
      else DepositErc20(net.sites[i], chains[i], step.registry, step.allowance, step.sender, step.token, step.toChain,
                        step.to, step.amount) == Ok(e)
  {
    TokensApart(net, chains, i, step.token);
    if step.token in chains[i].ledger.pegged {
      OriginIsNamed(net, chains, i, step.token);
    } else if ChainClaimed(net.sites[i], chains[i], step.token) != 0 {
      ForeignTokensAreRefused(net, chains, i, step);
    }
  }

  /** A deposit costs the sender exactly the amount deposited, which goes to the bridge or is burned, and
      the event names sender, recipient and target chain as they were given, and the amount in units of
      18 decimals. No other account and no other token changes. */
  lemma SenderPays(net: Network, w: World, step: Step, e: Emitted)
    requires Possible(net, w, step) && step.TokenDeposit? && SoundNetwork(net) && Inv(net, w)
    requires DepositOf(net, w, step) == Ok(e)
    ensures Costs(net, step.chain, w.chains[step.chain], step, e)
  {
    var i, s := step.chain, w.chains[step.chain];
    DepositRoute(net, w.chains, i, step, e);
    if step.token in s.ledger.pegged {
      BurnIsPaid(net, i, s, step, e);
    } else {
      LockIsPaid(net, i, s, step, e);
    }
  }

  /** The same for native coins. */
  lemma NativeSenderPays(net: Network, w: World, step: Step, e: Emitted)
    requires SoundNetwork(net) && Inv(net, w) && Possible(net, w, step) && step.NativeDeposit?
    requires DepositOf(net, w, step) == Ok(e)
    ensures e.deposit.from == step.sender && e.deposit.to == step.to && e.deposit.chainId == step.toChain
    ensures e.deposit.kind == Lock && e.deposit.amount == step.amount
    ensures e.deposit.fromToken == net.sites[step.chain].native.origin
    ensures OnlyMoves(net, step.chain, w.chains[step.chain].ledger, e.state.ledger, net.sites[step.chain].native.origin,
                      step.amount, Some(step.sender), Some(net.sites[step.chain].self))
  {
    NativeMoves(net, step.chain, w.chains[step.chain].ledger, step.sender, net.sites[step.chain].self, step.amount);
  }

  /** Every deployed token names an origin chain. */
  lemma OriginIsNamed(net: Network, chains: seq<State>, i: nat, t: Address)
    requires SoundNetwork(net) && |chains| == |net.sites| && i < |chains| && ChainsOk(net, chains)
    requires t in chains[i].ledger.pegged
    ensures chains[i].ledger.pegged[t].originChain != 0
  {
    var k := chains[i].ledger.pegged[t];
    assert TokenOk(net, chains, i, t, k);
    assert SiteOk(net, net.origins[k.originAddress].home);
  }

  lemma BurnIsPaid(net: Network, i: nat, s: State, step: Step, e: Emitted)
    requires i < |net.sites| && step.TokenDeposit? && step.token in s.ledger.pegged
    requires step.token !in s.ledger.erc20 && step.token != net.sites[i].native.origin
    requires DepositDeployed(net.sites[i], s, step.registry, step.sender, step.token, step.toChain, step.to,
                             step.amount) == Ok(e)
    ensures Says(e.deposit, step, Burn, step.amount)
    ensures OnlyMoves(net, i, s.ledger, e.state.ledger, step.token, step.amount, Some(step.sender), None)
  {
    BurnMoves(net, i, s.ledger, step.token, step.sender, step.amount, e.state.ledger.pegged[step.token]);
  }

  lemma LockIsPaid(net: Network, i: nat, s: State, step: Step, e: Emitted)
    requires i < |net.sites| && step.TokenDeposit? && Conforms(net, i, s.ledger.erc20)
    requires DepositErc20(net.sites[i], s, step.registry, step.allowance, step.sender, step.token, step.toChain,
                          step.to, step.amount) == Ok(e)
    ensures step.token in s.ledger.erc20 && s.ledger.erc20[step.token].decimals <= 18
    ensures Worth(e.deposit.amount, step.amount, s.ledger.erc20[step.token].decimals)
    ensures Says(e.deposit, step, Lock, e.deposit.amount)
    ensures OnlyMoves(net, i, s.ledger, e.state.ledger, step.token, step.amount, Some(step.sender),
                      Some(net.sites[i].self))
  {
    Erc20Moves(net, i, s.ledger, step.token, step.sender, net.sites[i].self, step.amount);
    ScaledUp(step.amount, s.ledger.erc20[step.token].decimals);
  }
}
