/** The bridge of one chain on plain values: its storage, the tokens of its chain, and what deposits
    and withdrawals do to both. */
module BridgeSpec {
  import opened Bytes
  import opened Header
  import opened ReceiptParser
  import opened SimpleToken
  import opened TokenText
  import opened Wrappers

  datatype Metadata = Metadata(symbol: Bytes32, name: Bytes32, fromChain: nat, origin: Address)

  /** A deposit event, which is also what parsing its receipt gives back. */
  datatype Deposit = Deposit(kind: PegInType, contract: Address, chainId: nat, from: Address, to: Address,
                             fromToken: Address, toToken: Address, amount: nat, nonce: nat, metadata: Metadata)

  /** A token that the bridge did not deploy. It may answer `getOrigin` as if it had; otherwise the claim
      is 0, 0. */
  datatype Erc20 = Erc20(decimals: nat, symbol: seq<Byte>, name: seq<Byte>, balances: Balances,
                         claimedChain: nat, claimedOrigin: Address)

  /** The tokens of a chain: its native coin, its own tokens, and the tokens its bridge deployed. */
  datatype Ledger = Ledger(native: Balances, erc20: map<Address, Erc20>, pegged: map<Address, Token>)

  /** What is fixed about a bridge: chain id, address, the description of the native coin (whose origin
      address is made up), and the address a bridge's token for an origin token gets (create2). */
  datatype Site = Site(chainId: Word, self: Address, native: Metadata, peg: (Address, Address) -> Address)

  datatype State = State(used: set<Word>, peggedOrigin: map<Address, Address>, nonce: nat, ledger: Ledger)
  {
    /** `_peggedTokenOrigin`; 0 for unknown tokens. */
    function OriginOf(token: Address): Address {
      if token in peggedOrigin then peggedOrigin[token] else 0
    }

    function WithNative(b: Balances): State {
      this.(ledger := ledger.(native := b))
    }

    function WithErc20(token: Address, b: Balances): State
      requires token in ledger.erc20
    {
      this.(ledger := ledger.(erc20 := ledger.erc20[token := ledger.erc20[token].(balances := b)]))
    }

    function WithPegged(token: Address, t: Token): State {
      this.(ledger := ledger.(pegged := ledger.pegged[token := t]))
    }
  }

  /** Bridge addresses of the registered chains, 0 for the others. */
  type Registry = map<nat, Address>

  function BridgeAt(registry: Registry, chainId: nat): Address {
    if chainId in registry then registry[chainId] else 0
  }

  function Pow10(n: nat): (p: nat)
    ensures p > 0
  {
    if n == 0 then 1 else 10 * Pow10(n - 1)
  }

  /** The factor between a token's units and units of 18 decimals. */
  function Scale(decimals: nat): (p: nat)
    ensures p > 0
  {
    if decimals <= 18 then Pow10(18 - decimals) else 1
  }

  /** From 18 decimals to the token's own, rounding down. */
  function Unscaled(amount: nat, decimals: nat): nat {
    Quotient(amount, Scale(decimals))
  }

  datatype Emitted = Emitted(state: State, deposit: Deposit)

  // ---------- deposits ----------

  /** `_depositNative`: the coins sent along stay with the bridge. */
  function DepositNative(site: Site, s: State, registry: Registry, sender: Address, toChain: nat, to: Address,
                         amount: nat): Result<Emitted> {
    var toBridge, native := BridgeAt(registry, toChain), site.native;
    if BalanceOf(s.ledger.native, sender) < amount then Revert("")
    else if toBridge == 0 then Revert("bad chain")
    else
      Ok(Emitted(s.WithNative(Moved(s.ledger.native, sender, site.self, amount)).(nonce := s.nonce + 1),
                 Deposit(Lock, site.self, toChain, sender, to, native.origin, site.peg(toBridge, native.origin), amount,
                         s.nonce, native)))
  }

  /** `_peggedDestinationErc20Token`: the origin itself on its own chain, the deployed token elsewhere. */
  function PeggedDestination(site: Site, s: State, registry: Registry, token: Address, toChain: nat, chain: nat,
                             origin: Address): Result<Address> {
    var toBridge := BridgeAt(registry, toChain);
    if toBridge == 0 then Revert("bad chain")
    else if s.OriginOf(token) != origin then Revert("non-pegged contract not supported")
    else Ok(if toChain == chain then s.OriginOf(token) else site.peg(toBridge, origin))
  }

  /** `_depositPegged` of a token the bridge deployed: it is burned. */
  function DepositDeployed(site: Site, s: State, registry: Registry, sender: Address, token: Address, toChain: nat,
                           to: Address, amount: nat): Result<Emitted>
    requires token in s.ledger.pegged
  {
    var t := s.ledger.pegged[token];
    if BalanceOf(t.balances, sender) < amount then Revert("insufficient balance")
    else
      var toToken :- PeggedDestination(site, s, registry, token, toChain, t.originChain, t.originAddress);
      var burned :- t.Burned(site.self, sender, amount);
      Ok(Emitted(s.WithPegged(token, burned).(nonce := s.nonce + 1),
                 Deposit(Burn, site.self, toChain, sender, to, token, toToken, amount, s.nonce,
                         Metadata(Hop(t.symbol), Hop(t.name), t.originChain, t.originAddress))))
  }

  /** `_depositPegged` of another token that claims an origin. What its `burn` does is its own business;
      here it takes the amount from the sender. */
  function DepositForeign(site: Site, s: State, registry: Registry, sender: Address, token: Address, toChain: nat,
                          to: Address, amount: nat): Result<Emitted>
    requires token in s.ledger.erc20
  {
    var t := s.ledger.erc20[token];
    if BalanceOf(t.balances, sender) < amount then Revert("insufficient balance")
    else
      var toToken :- PeggedDestination(site, s, registry, token, toChain, t.claimedChain, t.claimedOrigin);
      var b := t.balances[sender := BalanceOf(t.balances, sender) - amount];
      Ok(Emitted(s.WithErc20(token, b).(nonce := s.nonce + 1),
                 Deposit(Burn, site.self, toChain, sender, to, token, toToken, amount, s.nonce,
                         Metadata(Pack(t.symbol), Pack(t.name), t.claimedChain, t.claimedOrigin))))
  }

  /** `_depositPegged`. */
  function DepositPegged(site: Site, s: State, registry: Registry, sender: Address, token: Address, toChain: nat,
                         to: Address, amount: nat): Result<Emitted>
    requires token in s.ledger.pegged || token in s.ledger.erc20
  {
    if token in s.ledger.pegged then DepositDeployed(site, s, registry, sender, token, toChain, to, amount)
    else DepositForeign(site, s, registry, sender, token, toChain, to, amount)
  }

  /** `_depositErc20`: a token of this chain moves to the bridge; the event counts 18 decimals. */
  function DepositErc20(site: Site, s: State, registry: Registry, allowance: nat, sender: Address, token: Address,
                        toChain: nat, to: Address, amount: nat): Result<Emitted> {
    if token !in s.ledger.erc20 then Revert("")
    else
      var t, toBridge := s.ledger.erc20[token], BridgeAt(registry, toChain);
      if allowance < amount then Revert("insufficient allowance")
      else if BalanceOf(t.balances, sender) < amount then Revert("ERC20: transfer amount exceeds balance")
      else
        var b := Moved(t.balances, sender, site.self, amount);
        if BalanceOf(b, site.self) < BalanceOf(t.balances, site.self) + amount then Revert("incorrect behaviour")
        else if toBridge == 0 then Revert("bad chain")
        else if t.decimals > 18 then Revert("decimals overflow")
        else if amount * Scale(t.decimals) >= WORD_LIMIT then Revert("")
        else
          Ok(Emitted(s.WithErc20(token, b).(nonce := s.nonce + 1),
                     Deposit(Lock, site.self, toChain, sender, to, token, site.peg(toBridge, token),
                             amount * Scale(t.decimals), s.nonce,
                             Metadata(Pack(t.symbol), Pack(t.name), site.chainId, token))))
  }

  /** The chain a token contract names in `getOrigin`; the native coin is not asked. */
  function ChainClaimed(site: Site, s: State, token: Address): nat {
    if token == site.native.origin then 0
    else if token in s.ledger.pegged then s.ledger.pegged[token].originChain
    else if token in s.ledger.erc20 then s.ledger.erc20[token].claimedChain
    else 0
  }

  /** `deposit` of a token: one that names an origin chain is taken for a pegged one. */
  function DepositToken(site: Site, s: State, registry: Registry, allowance: nat, sender: Address, token: Address,
                        toChain: nat, to: Address, amount: nat): Result<Emitted> {
    if ChainClaimed(site, s, token) != 0 then DepositPegged(site, s, registry, sender, token, toChain, to, amount)
    else DepositErc20(site, s, registry, allowance, sender, token, toChain, to, amount)
  }

  /** A token the bridge does not know that claims a chain, when the sender has enough and the target
      chain is known, is taken if and only if it claims origin 0. */
  lemma ForeignTokenIsTaken(site: Site, s: State, registry: Registry, allowance: nat, sender: Address, token: Address,
                            toChain: nat, to: Address, amount: nat)
    requires token in s.ledger.erc20 && token !in s.ledger.pegged && token != site.native.origin
    requires s.ledger.erc20[token].claimedChain != 0 && s.OriginOf(token) == 0
    ensures var r := DepositToken(site, s, registry, allowance, sender, token, toChain, to, amount);
      && (r.Ok? <==>
          && BalanceOf(s.ledger.erc20[token].balances, sender) >= amount
          && BridgeAt(registry, toChain) != 0
          && s.ledger.erc20[token].claimedOrigin == 0)
      && (r.Ok? ==> r.value.deposit.metadata.origin == 0)
  {
  }

  // ---------- withdrawals ----------

  /** `_factoryPeggedToken`: deploys the token unless it is known. The new contract's address depends on
      this bridge and the origin token only. */
  function Factory(site: Site, s: State, toToken: Address, m: Metadata): Result<State> {
    if s.OriginOf(toToken) != 0 then Ok(s)
    else if site.peg(site.self, m.origin) in s.ledger.pegged then Revert("deploy failed")
    else if site.peg(site.self, m.origin) != toToken then Revert("bad chain")
    else Ok(s.WithPegged(toToken, Deployed(site.self, m.symbol, m.name, m.fromChain, m.origin))
             .(peggedOrigin := s.peggedOrigin[toToken := m.origin]))
  }

  function WithdrawPegged(site: Site, s: State, d: Deposit): Result<State> {
    var s' :- Factory(site, s, d.toToken, d.metadata);
    if d.toToken !in s'.ledger.pegged then Revert("")
    else
      var minted :- s'.ledger.pegged[d.toToken].Minted(site.self, d.to, d.amount);
      Ok(s'.WithPegged(d.toToken, minted))
  }

  /** `_withdrawNative`: fails if the recipient does not take coins; the bridge itself does not. */
  function WithdrawNative(site: Site, s: State, d: Deposit, accepts: bool): Result<State> {
    if !accepts || d.to == site.self || BalanceOf(s.ledger.native, site.self) < d.amount then Revert("")
    else Ok(s.WithNative(Moved(s.ledger.native, site.self, d.to, d.amount)))
  }

  /** `_withdrawErc20`: from 18 decimals back to the token's, rounding down. */
  function WithdrawErc20(site: Site, s: State, d: Deposit): Result<State> {
    if d.toToken !in s.ledger.erc20 then Revert("")
    else
      var t := s.ledger.erc20[d.toToken];
      if t.decimals > 18 then Revert("decimals overflow")
      else
        var amount := Unscaled(d.amount, t.decimals);
        if d.to == 0 then Revert("ERC20: transfer to the zero address")
        else if BalanceOf(t.balances, site.self) < amount then Revert("ERC20: transfer amount exceeds balance")
        else Ok(s.WithErc20(d.toToken, Moved(t.balances, site.self, d.to, amount)))
  }

  /** `_withdraw`: the payout by kind of deposit and target token. */
  function PayOut(site: Site, s: State, d: Deposit, accepts: bool): Result<State> {
    if d.toToken == site.native.origin then WithdrawNative(site, s, d, accepts)
    else if d.kind == Lock then WithdrawPegged(site, s, d)
    else if d.toToken != d.metadata.origin then WithdrawPegged(site, s, d)
    else WithdrawErc20(site, s, d)
  }

  /** Where native coins are only unlocked and what is unlocked was burned, there are three routes. */
  lemma PayOutRoute(site: Site, s: State, d: Deposit, accepts: bool)
    requires d.toToken == site.native.origin ==> d.toToken == d.metadata.origin
    requires d.toToken == d.metadata.origin ==> d.kind == Burn
    ensures PayOut(site, s, d, accepts) ==
      if d.toToken == site.native.origin then WithdrawNative(site, s, d, accepts)
      else if d.toToken == d.metadata.origin then WithdrawErc20(site, s, d)
      else WithdrawPegged(site, s, d)
  {
  }

  /** What the relay hub says to the proof when it is asked about a chain. */
  type HubVerdict = nat -> Result<bool>

  /** `withdraw`, for the deposit a receipt was parsed to. The hub is asked about the chain of the origin
      token, wherever the deposit was made. */
  function Withdraw(site: Site, s: State, registry: Registry, d: Deposit, hash: Word, hub: HubVerdict,
                    accepts: bool): Result<State> {
    if d.chainId != site.chainId then Revert("receipt points to another chain")
    else
      var good :- hub(d.metadata.fromChain);
      if !good then Revert("bad proof")
      else if BridgeAt(registry, d.metadata.fromChain) != d.contract then Revert("event from not allowed contract")
      else if hash in s.used then Revert("proof already used")
      else PayOut(site, s.(used := s.used + {hash}), d, accepts)
  }

  /** What a withdrawal has to pass before the payout. */
  predicate Passes(site: Site, s: State, registry: Registry, d: Deposit, hash: Word, hub: HubVerdict) {
    && d.chainId == site.chainId && hub(d.metadata.fromChain) == Ok(true)
    && BridgeAt(registry, d.metadata.fromChain) == d.contract && hash !in s.used
  }

  lemma WithdrawalIsPayOut(site: Site, s: State, registry: Registry, d: Deposit, hash: Word, hub: HubVerdict,
                           accepts: bool)
    ensures Withdraw(site, s, registry, d, hash, hub, accepts).Ok? <==>
      Passes(site, s, registry, d, hash, hub) && PayOut(site, s.(used := s.used + {hash}), d, accepts).Ok?
    ensures Withdraw(site, s, registry, d, hash, hub, accepts).Ok? ==>
      Withdraw(site, s, registry, d, hash, hub, accepts) == PayOut(site, s.(used := s.used + {hash}), d, accepts)
  {
  }

  /** A payout leaves the used proofs and the nonce alone. */
  lemma PayOutKeeps(site: Site, s: State, d: Deposit, accepts: bool)
    requires PayOut(site, s, d, accepts).Ok?
    ensures PayOut(site, s, d, accepts).value.used == s.used && PayOut(site, s, d, accepts).value.nonce == s.nonce
  {
  }

  /** A proof is used up by the first withdrawal it serves. */
  lemma ProofIsUsedUp(site: Site, s: State, registry: Registry, d: Deposit, hash: Word, hub: HubVerdict,
                      accepts: bool)
    requires Withdraw(site, s, registry, d, hash, hub, accepts).Ok?
    ensures hash !in s.used && Withdraw(site, s, registry, d, hash, hub, accepts).value.used == s.used + {hash}
    ensures Withdraw(site, s, registry, d, hash, hub, accepts).value.nonce == s.nonce
  {
    PayOutKeeps(site, s.(used := s.used + {hash}), d, accepts);
  }
}
