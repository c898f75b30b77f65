/** When deposits and payouts succeed, on what is called and stored, and in units that do not depend on how amounts are
    scaled. */
module BridgeCalls {
  import opened Header
  import opened ReceiptParser
  import opened SimpleToken
  import opened TokenText
  import opened BridgeSpec
  import opened BridgeUnits
  import opened Wrappers

  // ---------- locking a token ----------

  /** What the sender, the token and the registry must provide; the amount in 18 decimals must fit a word. */
  predicate MayLock(site: Site, s: State, registry: Registry, allowance: nat, sender: Address, token: Address,
                    toChain: nat, amount: nat) {
    && token in s.ledger.erc20
    && var t := s.ledger.erc20[token];
    && amount <= allowance && amount <= BalanceOf(t.balances, sender) && (sender != site.self || amount == 0)
    && toChain in registry && registry[toChain] != 0
    && t.decimals <= 18 && FitsWord(amount, t.decimals)
  }

  /** The amount in 18 decimals is below 2^256. */
  predicate FitsWord(amount: nat, decimals: nat) {
    amount * Pow10(18) < WORD_LIMIT * Pow10(decimals)
  }

  /** The event of the deposit, and the state but for the balances. */
  predicate LocksAs(site: Site, s: State, registry: Registry, sender: Address, token: Address, toChain: nat,
                    to: Address, amount: nat, e: Emitted)
    requires token in s.ledger.erc20 && toChain in registry
  {
    var t, d := s.ledger.erc20[token], e.deposit;
    && d.kind == Lock && d.contract == site.self && d.chainId == toChain && d.from == sender && d.to == to
    && d.fromToken == token && d.toToken == site.peg(registry[toChain], token) && d.nonce == s.nonce
    && Worth(d.amount, amount, t.decimals)
    && d.metadata == Metadata(Pack(t.symbol), Pack(t.name), site.chainId, token)
    && e.state.nonce == s.nonce + 1 && e.state.used == s.used && e.state.peggedOrigin == s.peggedOrigin
  }

  lemma ScaledFits(amount: nat, decimals: nat, limit: nat)
    requires decimals <= 18
    ensures amount * Scale(decimals) < limit <==> amount * Pow10(18) < limit * Pow10(decimals)
  {
    ScaleSplits(decimals);
    SameOrder(amount, limit, Scale(decimals), Pow10(decimals), Pow10(18));
  }

  lemma SameOrder(a: nat, b: nat, f: nat, t: nat, h: nat)
    requires t > 0 && f * t == h
    ensures a * f < b <==> a * h < b * t
  {
    Regroup(a, f, t);
    if a * f < b {
      Grows(a * f + 1, b, t);
    } else {
      Grows(b, a * f, t);
    }
  }

  lemma WordFits(amount: nat, decimals: nat, scaled: nat)
    requires scaled == amount * Scale(decimals) && decimals <= 18
    ensures scaled < WORD_LIMIT <==> FitsWord(amount, decimals)
  {
    ScaledFits(amount, decimals, WORD_LIMIT);
  }

  /** What the scaled amount has to do with it. */
  lemma LockedWhen(site: Site, s: State, registry: Registry, allowance: nat, sender: Address, token: Address,
                   toChain: nat, to: Address, amount: nat, scaled: nat)
    requires token in s.ledger.erc20 && scaled == amount * Scale(s.ledger.erc20[token].decimals)
    ensures var t := s.ledger.erc20[token];
      DepositErc20(site, s, registry, allowance, sender, token, toChain, to, amount).Ok? <==>
        && amount <= allowance && amount <= BalanceOf(t.balances, sender) && (sender != site.self || amount == 0)
        && toChain in registry && registry[toChain] != 0 && t.decimals <= 18 && scaled < WORD_LIMIT
  {
    var t := s.ledger.erc20[token];
    if amount <= BalanceOf(t.balances, sender) {
      MovedBalances(t.balances, sender, site.self, amount, site.self);
    }
  }

  lemma LocksExactly(site: Site, s: State, registry: Registry, allowance: nat, sender: Address, token: Address,
                     toChain: nat, to: Address, amount: nat, scaled: nat)
    requires token in s.ledger.erc20 && scaled == amount * Scale(s.ledger.erc20[token].decimals)
    ensures DepositErc20(site, s, registry, allowance, sender, token, toChain, to, amount).Ok? <==>
      MayLock(site, s, registry, allowance, sender, token, toChain, amount)
  {
    LockedWhen(site, s, registry, allowance, sender, token, toChain, to, amount, scaled);
    if s.ledger.erc20[token].decimals <= 18 {
      WordFits(amount, s.ledger.erc20[token].decimals, scaled);
    }
  }

  lemma LockEvent(site: Site, s: State, registry: Registry, allowance: nat, sender: Address, token: Address,
                  toChain: nat, to: Address, amount: nat, e: Emitted)
    requires DepositErc20(site, s, registry, allowance, sender, token, toChain, to, amount) == Ok(e)
    ensures token in s.ledger.erc20 && toChain in registry
    ensures LocksAs(site, s, registry, sender, token, toChain, to, amount, e)
  {
    ScaledUp(amount, s.ledger.erc20[token].decimals);
  }

  /** A token is locked if and only if sender, token and registry provide all that. */
  lemma LockSucceeds(site: Site, s: State, registry: Registry, allowance: nat, sender: Address, token: Address,
                     toChain: nat, to: Address, amount: nat)
    ensures var r := DepositErc20(site, s, registry, allowance, sender, token, toChain, to, amount);
      && (r.Ok? <==> MayLock(site, s, registry, allowance, sender, token, toChain, amount))
      && (r.Ok? ==> LocksAs(site, s, registry, sender, token, toChain, to, amount, r.value))
  {
    var r := DepositErc20(site, s, registry, allowance, sender, token, toChain, to, amount);
    if token in s.ledger.erc20 {
      LocksExactly(site, s, registry, allowance, sender, token, toChain, to, amount,
                   amount * Scale(s.ledger.erc20[token].decimals));
    }
    if r.Ok? {
      LockEvent(site, s, registry, allowance, sender, token, toChain, to, amount, r.value);
    }
  }

  /** Coins are locked if and only if the sender has them and the target chain is registered. */
  lemma CoinsAreLocked(site: Site, s: State, registry: Registry, sender: Address, toChain: nat, to: Address,
                       amount: nat)
    ensures var r := DepositNative(site, s, registry, sender, toChain, to, amount);
      && (r.Ok? <==> BalanceOf(s.ledger.native, sender) >= amount && toChain in registry && registry[toChain] != 0)
      && (r.Ok? ==>
          && r.value.deposit == Deposit(Lock, site.self, toChain, sender, to, site.native.origin,
                                        site.peg(registry[toChain], site.native.origin), amount, s.nonce, site.native)
          && r.value.state.nonce == s.nonce + 1
          && forall a: Address ::
               BalanceOf(r.value.state.ledger.native, a) == BalanceOf(s.ledger.native, a)
                 - (if a == sender then amount else 0) + (if a == site.self then amount else 0))
  {
  }

  // ---------- burning a token ----------

  /** The event of a burned deposit of a token of this origin, and the state but for the tokens. */
  predicate BurnsAs(site: Site, s: State, registry: Registry, sender: Address, token: Address, toChain: nat,
                    to: Address, amount: nat, metadata: Metadata, e: Emitted)
    requires toChain in registry
  {
    var d := e.deposit;
    && d.kind == Burn && d.contract == site.self && d.chainId == toChain && d.from == sender && d.to == to
    && d.fromToken == token && d.amount == amount && d.nonce == s.nonce && d.metadata == metadata
    && d.toToken == (if toChain == metadata.fromChain then metadata.origin
                     else site.peg(registry[toChain], metadata.origin))
    && e.state.nonce == s.nonce + 1 && e.state.used == s.used && e.state.peggedOrigin == s.peggedOrigin
  }

  /** The target chain is registered, and the bridge knows the token by the origin that it names. */
  predicate IsKnown(s: State, registry: Registry, token: Address, toChain: nat, origin: Address) {
    toChain in registry && registry[toChain] != 0 && s.OriginOf(token) == origin
  }

  /** A deployed token is burned if and only if it is known, the bridge owns it, and the sender, not address 0, has
      enough; the sender's balance and the supply fall by the amount. */
  lemma BurnSucceeds(site: Site, s: State, registry: Registry, sender: Address, token: Address, toChain: nat,
                     to: Address, amount: nat)
    requires token in s.ledger.pegged && s.ledger.pegged[token].Sound()
    ensures var t, r := s.ledger.pegged[token], DepositDeployed(site, s, registry, sender, token, toChain, to, amount);
      && (r.Ok? <==>
          && IsKnown(s, registry, token, toChain, t.originAddress) && t.owner == site.self && sender != 0
          && BalanceOf(t.balances, sender) >= amount)
      && (r.Ok? ==>
          && BurnsAs(site, s, registry, sender, token, toChain, to, amount,
                     Metadata(Pack(Unpack(t.symbol)), Pack(Unpack(t.name)), t.originChain, t.originAddress), r.value)
          && token in r.value.state.ledger.pegged
          && OnlyBalance(t, r.value.state.ledger.pegged[token], sender, 0 - amount))
  {
    OwnerMintsAndBurns(s.ledger.pegged[token], site.self, sender, amount);
  }

  /** Another token that names an origin chain: it must be known by the origin it names, and the sender have enough,
      who loses the amount. */
  lemma ForeignBurnSucceeds(site: Site, s: State, registry: Registry, sender: Address, token: Address, toChain: nat,
                            to: Address, amount: nat)
    requires token in s.ledger.erc20
    ensures var t, r := s.ledger.erc20[token], DepositForeign(site, s, registry, sender, token, toChain, to, amount);
      && (r.Ok? <==>
          IsKnown(s, registry, token, toChain, t.claimedOrigin) && BalanceOf(t.balances, sender) >= amount)
      && (r.Ok? ==>
          && BurnsAs(site, s, registry, sender, token, toChain, to, amount,
                     Metadata(Pack(t.symbol), Pack(t.name), t.claimedChain, t.claimedOrigin), r.value)
          && token in r.value.state.ledger.erc20
          && forall a: Address ::
               BalanceOf(r.value.state.ledger.erc20[token].balances, a) ==
                 BalanceOf(t.balances, a) - (if a == sender then amount else 0))
  {
  }

  // ---------- the two kinds of deposits ----------

  /** A token that names an origin chain is burned, all others are locked; nobody asks the native coin's made-up
      address, whatever is there. */
  lemma DepositIsRouted(site: Site, s: State, registry: Registry, allowance: nat, sender: Address, token: Address,
                        toChain: nat, to: Address, amount: nat)
    requires site.native.origin !in s.ledger.pegged && (token in s.ledger.pegged ==> token !in s.ledger.erc20)
    ensures var r := DepositToken(site, s, registry, allowance, sender, token, toChain, to, amount);
      && (r.Ok? && token in s.ledger.pegged ==>
           s.ledger.pegged[token].originChain != 0 && r.value.deposit.kind == Burn)
      && (r.Ok? && token !in s.ledger.pegged ==>
           && token in s.ledger.erc20
           && r.value.deposit.kind ==
                if token != site.native.origin && s.ledger.erc20[token].claimedChain != 0 then Burn else Lock)
  {
  }

  // ---------- payouts ----------

  /** Only native coins change hands, or only deployed tokens change, or only the chain's own tokens, by target and
      kind: a locked deposit never unlocks a token, and a burned one of the origin itself never mints one. */
  lemma PayOutTouches(site: Site, s: State, d: Deposit, accepts: bool, s': State)
    requires PayOut(site, s, d, accepts) == Ok(s')
    ensures d.toToken != site.native.origin ==> s'.ledger.native == s.ledger.native
    ensures d.toToken == site.native.origin || (d.kind == Burn && d.toToken == d.metadata.origin) ==>
      s'.ledger.pegged == s.ledger.pegged && s'.peggedOrigin == s.peggedOrigin
    ensures d.toToken == site.native.origin || d.kind == Lock || d.toToken != d.metadata.origin ==>
      s'.ledger.erc20 == s.ledger.erc20
  {
  }

  /** A token is unlocked if and only if it has at most 18 decimals, the recipient is not 0, and the bridge holds the
      most units that the amount is worth; these are what it pays. */
  lemma UnlockSucceeds(site: Site, s: State, d: Deposit) returns (units: nat)
    requires d.toToken in s.ledger.erc20
    ensures var t, r := s.ledger.erc20[d.toToken], WithdrawErc20(site, s, d);
      && (t.decimals <= 18 ==> MostUnits(units, d.amount, t.decimals))
      && (r.Ok? <==> t.decimals <= 18 && d.to != 0 && BalanceOf(t.balances, site.self) >= units)
      && (r.Ok? ==> forall a: Address ::
           d.toToken in r.value.ledger.erc20 &&
           BalanceOf(r.value.ledger.erc20[d.toToken].balances, a) == BalanceOf(t.balances, a)
             - (if a == site.self then units else 0) + (if a == d.to then units else 0))
  {
    var t := s.ledger.erc20[d.toToken];
    units := Unscaled(d.amount, t.decimals);
    if t.decimals <= 18 {
      ScaledDown(d.amount, t.decimals);
    }
  }

  /** A token is minted if and only if the bridge knows it or can deploy it at the very address that is asked for, it
      owns it, and the supply stays below 2^256. */
  lemma MintSucceeds(site: Site, s: State, d: Deposit)
    ensures var known := s.OriginOf(d.toToken) != 0;
      WithdrawPegged(site, s, d).Ok? <==>
        && d.to != 0
        && if known then
             && d.toToken in s.ledger.pegged && s.ledger.pegged[d.toToken].owner == site.self
             && s.ledger.pegged[d.toToken].supply + d.amount < WORD_LIMIT
           else
             && d.toToken == site.peg(site.self, d.metadata.origin) && d.toToken !in s.ledger.pegged
             && d.amount < WORD_LIMIT
  {
  }
}
