/** contracts/bridge/CrossChainBridge.sol as an object over its storage and the tokens of its chain;
    every call refines BridgeSpec. */
module CrossChainBridge {
  import opened Bytes
  import opened Header
  import opened ReceiptParser
  import opened BridgeEvents
  import opened SimpleToken
  import opened TokenText
  import opened Wrappers
  import Spec = BridgeSpec

  class CrossChainBridge {
    const site: Spec.Site
    const events: Events
    const crypto: Crypto
    var usedProofs: set<Word>
    var peggedTokenOrigin: map<Address, Address>
    var globalNonce: nat
    /** The token contracts of the chain, which the bridge calls. */
    var ledger: Spec.Ledger

    function View(): Spec.State
      reads this
    {
      Spec.State(usedProofs, peggedTokenOrigin, globalNonce, ledger)
    }

    /** The specification emits this event and ends in the present state, or reverts alike. */
    ghost predicate Emits(spec: Result<Spec.Emitted>, r: Result<Spec.Deposit>)
      reads this
    {
      match r
      case Ok(event) => spec == Ok(Spec.Emitted(View(), event))
      case Revert(reason) => spec == Revert(reason)
    }

    constructor (site: Spec.Site, events: Events, crypto: Crypto, ledger: Spec.Ledger)
      ensures View() == Spec.State({}, map[], 0, ledger)
      ensures this.site == site && this.events == events && this.crypto == crypto
    {
      this.site, this.events, this.crypto := site, events, crypto;
      usedProofs, peggedTokenOrigin, globalNonce, this.ledger := {}, map[], 0, ledger;
    }

    method DepositNative(registry: Spec.Registry, sender: Address, toChain: nat, to: Address,
                         amount: nat) returns (r: Result<Spec.Deposit>)
      modifies this
      ensures Emits(Spec.DepositNative(site, old(View()), registry, sender, toChain, to, amount), r)
      ensures r.Revert? ==> View() == old(View())
    {
      if BalanceOf(ledger.native, sender) < amount {
        return Revert("");
      }
      var toBridge := Spec.BridgeAt(registry, toChain);
      if toBridge == 0 {
        return Revert("bad chain");
      }
      ledger := ledger.(native := Moved(ledger.native, sender, site.self, amount));
      var toToken := site.peg(toBridge, site.native.origin);
      var event := Spec.Deposit(Lock, site.self, toChain, sender, to, site.native.origin, toToken, amount, globalNonce,
                                site.native);
      globalNonce := globalNonce + 1;
      return Ok(event);
    }

    method DepositPegged(registry: Spec.Registry, sender: Address, token: Address, toChain: nat, to: Address,
                         amount: nat) returns (r: Result<Spec.Deposit>)
      requires token in ledger.pegged || token in ledger.erc20
      modifies this
      ensures Emits(Spec.DepositPegged(site, old(View()), registry, sender, token, toChain, to, amount), r)
      ensures r.Revert? ==> View() == old(View())
    {
      if token in ledger.pegged {
        r := DepositDeployed(registry, sender, token, toChain, to, amount);
      } else {
        r := DepositForeign(registry, sender, token, toChain, to, amount);
      }
    }

    /** The calls of `_depositPegged` to a token that the bridge deployed. */
    method DepositDeployed(registry: Spec.Registry, sender: Address, token: Address, toChain: nat, to: Address,
                           amount: nat) returns (r: Result<Spec.Deposit>)
      requires token in ledger.pegged
      modifies this
      ensures Emits(Spec.DepositDeployed(site, old(View()), registry, sender, token, toChain, to, amount), r)
      ensures r.Revert? ==> View() == old(View())
    {
      var t := ledger.pegged[token];
      if BalanceOf(t.balances, sender) < amount {
        return Revert("insufficient balance");
      }
      var toToken :- Spec.PeggedDestination(site, View(), registry, token, toChain, t.originChain, t.originAddress);
      var burned :- t.Burned(site.self, sender, amount);
      ledger := ledger.(pegged := ledger.pegged[token := burned]);
      var symbol, name := Unpack(t.symbol), Unpack(t.name);
      var event := Spec.Deposit(Burn, site.self, toChain, sender, to, token, toToken, amount, globalNonce,
                                Spec.Metadata(Pack(symbol), Pack(name), t.originChain, t.originAddress));
      globalNonce := globalNonce + 1;
      return Ok(event);
    }

    /** The same calls to a token that only claims an origin. */
    method DepositForeign(registry: Spec.Registry, sender: Address, token: Address, toChain: nat, to: Address,
                          amount: nat) returns (r: Result<Spec.Deposit>)
      requires token in ledger.erc20
      modifies this
      ensures Emits(Spec.DepositForeign(site, old(View()), registry, sender, token, toChain, to, amount), r)
      ensures r.Revert? ==> View() == old(View())
    {
      var t := ledger.erc20[token];
      if BalanceOf(t.balances, sender) < amount {
        return Revert("insufficient balance");
      }
      var toToken :- Spec.PeggedDestination(site, View(), registry, token, toChain, t.claimedChain, t.claimedOrigin);
      var balances := t.balances[sender := BalanceOf(t.balances, sender) - amount];
      ledger := ledger.(erc20 := ledger.erc20[token := t.(balances := balances)]);
      var event := Spec.Deposit(Burn, site.self, toChain, sender, to, token, toToken, amount, globalNonce,
                                Spec.Metadata(Pack(t.symbol), Pack(t.name), t.claimedChain, t.claimedOrigin));
      globalNonce := globalNonce + 1;
      return Ok(event);
    }

    method DepositErc20(registry: Spec.Registry, allowance: nat, sender: Address, token: Address, toChain: nat,
                        to: Address, amount: nat)
      returns (r: Result<Spec.Deposit>)
      modifies this
      ensures Emits(Spec.DepositErc20(site, old(View()), registry, allowance, sender, token, toChain, to, amount), r)
      ensures r.Revert? ==> View() == old(View())
    {
      if token !in ledger.erc20 {
        return Revert("");
      }
      var before := ledger;
      var t := ledger.erc20[token];
      var balanceBefore := BalanceOf(t.balances, site.self);
      if allowance < amount {
        return Revert("insufficient allowance");
      }
      if BalanceOf(t.balances, sender) < amount {
        return Revert("ERC20: transfer amount exceeds balance");
      }
      var balances := Moved(t.balances, sender, site.self, amount);
      ledger := ledger.(erc20 := ledger.erc20[token := t.(balances := balances)]);
      var balanceAfter := BalanceOf(balances, site.self);
      if balanceAfter < balanceBefore + amount {
        ledger := before;
        return Revert("incorrect behaviour");
      }
      var toBridge := Spec.BridgeAt(registry, toChain);
      if toBridge == 0 {
        ledger := before;
        return Revert("bad chain");
      }
      if t.decimals > 18 {
        ledger := before;
        return Revert("decimals overflow");
      }
      var scaledAmount := amount * Spec.Scale(t.decimals);
      if scaledAmount >= WORD_LIMIT {
        ledger := before;
        return Revert("");
      }
      var toToken := site.peg(toBridge, token);
      var event := Spec.Deposit(Lock, site.self, toChain, sender, to, token, toToken, scaledAmount, globalNonce,
                                Spec.Metadata(Pack(t.symbol), Pack(t.name), site.chainId, token));
      globalNonce := globalNonce + 1;
      return Ok(event);
    }

    method DepositToken(registry: Spec.Registry, allowance: nat, sender: Address, token: Address, toChain: nat,
                        to: Address, amount: nat)
      returns (r: Result<Spec.Deposit>)
      modifies this
      ensures Emits(Spec.DepositToken(site, old(View()), registry, allowance, sender, token, toChain, to, amount), r)
      ensures r.Revert? ==> View() == old(View())
    {
      if Spec.ChainClaimed(site, View(), token) != 0 {
        r := DepositPegged(registry, sender, token, toChain, to, amount);
      } else {
        r := DepositErc20(registry, allowance, sender, token, toChain, to, amount);
      }
    }

    method FactoryPeggedToken(toToken: Address, m: Spec.Metadata) returns (r: Result<()>)
      modifies this`ledger, this`peggedTokenOrigin
      ensures r.Ok? ==> Spec.Factory(site, old(View()), toToken, m) == Ok(View())
      ensures r.Revert? ==> Spec.Factory(site, old(View()), toToken, m) == Revert(r.reason) && View() == old(View())
    {
      if View().OriginOf(toToken) != 0 {
        return Ok(());
      }
      var targetToken := site.peg(site.self, m.origin);
      if targetToken in ledger.pegged {
        return Revert("deploy failed");
      }
      if targetToken != toToken {
        return Revert("bad chain");
      }
      ledger := ledger.(pegged := ledger.pegged[toToken := Deployed(site.self, m.symbol, m.name, m.fromChain,
                                                                    m.origin)]);
      peggedTokenOrigin := peggedTokenOrigin[toToken := m.origin];
      return Ok(());
    }

    method WithdrawPegged(d: Spec.Deposit) returns (r: Result<()>)
      modifies this`ledger, this`peggedTokenOrigin
      ensures r.Ok? ==> Spec.WithdrawPegged(site, old(View()), d) == Ok(View())
      ensures r.Revert? ==> Spec.WithdrawPegged(site, old(View()), d) == Revert(r.reason)
    {
      var _ :- FactoryPeggedToken(d.toToken, d.metadata);
      if d.toToken !in ledger.pegged {
        return Revert("");
      }
      var minted :- ledger.pegged[d.toToken].Minted(site.self, d.to, d.amount);
      ledger := ledger.(pegged := ledger.pegged[d.toToken := minted]);
      return Ok(());
    }

    method WithdrawNative(d: Spec.Deposit, accepts: bool) returns (r: Result<()>)
      modifies this`ledger
      ensures r.Ok? ==> Spec.WithdrawNative(site, old(View()), d, accepts) == Ok(View())
      ensures r.Revert? ==> Spec.WithdrawNative(site, old(View()), d, accepts) == Revert(r.reason)
    {
      if !accepts || d.to == site.self || BalanceOf(ledger.native, site.self) < d.amount {
        return Revert("");
      }
      ledger := ledger.(native := Moved(ledger.native, site.self, d.to, d.amount));
      return Ok(());
    }

    method WithdrawErc20(d: Spec.Deposit) returns (r: Result<()>)
      modifies this`ledger
      ensures r.Ok? ==> Spec.WithdrawErc20(site, old(View()), d) == Ok(View())
      ensures r.Revert? ==> Spec.WithdrawErc20(site, old(View()), d) == Revert(r.reason)
    {
      if d.toToken !in ledger.erc20 {
        return Revert("");
      }
      var t := ledger.erc20[d.toToken];
      if t.decimals > 18 {
        return Revert("decimals overflow");
      }
      var scaledAmount := Spec.Unscaled(d.amount, t.decimals);
      if d.to == 0 {
        return Revert("ERC20: transfer to the zero address");
      }
      if BalanceOf(t.balances, site.self) < scaledAmount {
        return Revert("ERC20: transfer amount exceeds balance");
      }
      ledger := ledger.(erc20 := ledger.erc20[d.toToken := t.(balances := Moved(t.balances, site.self, d.to,
                                                                                scaledAmount))]);
      return Ok(());
    }

    method PayOut(d: Spec.Deposit, accepts: bool) returns (r: Result<()>)
      modifies this`ledger, this`peggedTokenOrigin
      ensures r.Ok? ==> Spec.PayOut(site, old(View()), d, accepts) == Ok(View())
      ensures r.Revert? ==> Spec.PayOut(site, old(View()), d, accepts) == Revert(r.reason)
    {
      if d.toToken == site.native.origin {
        r := WithdrawNative(d, accepts);
      } else if d.kind == Lock {
        r := WithdrawPegged(d);
      } else if d.toToken != d.metadata.origin {
        r := WithdrawPegged(d);
      } else {
        r := WithdrawErc20(d);
      }
    }

    /** `withdraw` of a parsed deposit; a revert restores the state. */
    method WithdrawParsed(registry: Spec.Registry, d: Spec.Deposit, hash: Word, hub: Spec.HubVerdict,
                          accepts: bool) returns (r: Result<()>)
      modifies this
      ensures r.Ok? ==> Spec.Withdraw(site, old(View()), registry, d, hash, hub, accepts) == Ok(View())
      ensures r.Revert? ==>
        Spec.Withdraw(site, old(View()), registry, d, hash, hub, accepts) == Revert(r.reason) && View() == old(View())
    {
      if d.chainId != site.chainId {
        return Revert("receipt points to another chain");
      }
      var good :- hub(d.metadata.fromChain);
      if !good {
        return Revert("bad proof");
      }
      if Spec.BridgeAt(registry, d.metadata.fromChain) != d.contract {
        return Revert("event from not allowed contract");
      }
      if hash in usedProofs {
        return Revert("proof already used");
      }
      var used, origins, tokens := usedProofs, peggedTokenOrigin, ledger;
      usedProofs := usedProofs + {hash};
      r := PayOut(d, accepts);
      if r.Revert? {
        usedProofs, peggedTokenOrigin, ledger := used, origins, tokens;
      }
    }

    /** Kind and struct of a raw receipt. */
    method ParseWords(cd: seq<Byte>, off: nat, len: nat, ghost rc: Receipt)
      returns (kind: Result<PegInType>, words: seq<Byte>, hash: Word)
      requires off + len <= |cd|
      ensures kind.Ok? ==> hash == crypto.keccak(cd[off..off + len])
      ensures IsRawReceipt(cd, off, rc) ==> SaysReceipt(events, rc, kind, words)
    {
      var state;
      kind, state := ParseTransactionReceipt(crypto, events, cd, off, len, rc);
      words, hash := state[..], 0;
      if kind.Ok? {
        hash := Field(words, RECEIPT_HASH);
      }
    }

    /** Parses a raw receipt to a deposit and the hash of the receipt. */
    method ParseDeposit(cd: seq<Byte>, off: nat, len: nat, ghost rc: Receipt)
      returns (r: Result<(Spec.Deposit, Word)>)
      requires off + len <= |cd|
      ensures r.Ok? ==> r.value.1 == crypto.keccak(cd[off..off + len])
      ensures IsRawReceipt(cd, off, rc) ==>
        match ReceiptDeposit(events, rc)
        case Revert(reason) => r == Revert(reason)
        case Ok(d) => r.Ok? && r.value.0 == d
    {
      var kind, words, hash := ParseWords(cd, off, len, rc);
      if kind.Revert? {
        return Revert(kind.reason);
      }
      ghost var said := TheDeposit(events, rc);
      var parsed := ReadDeposit(kind.value, words, if said.Ok? then said.value.1 else Log([], [], []));
      return Ok((parsed, hash));
    }

    /** `withdraw`: for every well-formed receipt, whatever its logs, it does what the specification does. */
    method Withdraw(registry: Spec.Registry, cd: seq<Byte>, off: nat, len: nat, hub: Spec.HubVerdict, accepts: bool,
                    ghost rc: Receipt)
      returns (r: Result<()>)
      requires off + len <= |cd|
      modifies this
      ensures r.Revert? ==> View() == old(View())
      ensures r.Ok? ==>
        crypto.keccak(cd[off..off + len]) !in old(usedProofs) && crypto.keccak(cd[off..off + len]) in usedProofs
      ensures IsRawReceipt(cd, off, rc) ==>
        WithdrawReceipt(site, old(View()), registry, events, rc, crypto.keccak(cd[off..off + len]), hub, accepts) ==
          if r.Ok? then Ok(View()) else Revert(r.reason)
    {
      var parsed :- ParseDeposit(cd, off, len, rc);
      r := WithdrawParsed(registry, parsed.0, parsed.1, hub, accepts);
      if r.Ok? {
        Spec.ProofIsUsedUp(site, old(View()), registry, parsed.0, parsed.1, hub, accepts);
      }
    }
  }
}
