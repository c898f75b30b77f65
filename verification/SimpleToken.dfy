/** SimpleToken.sol: the token a bridge deploys for an origin token of another chain. Only the bridge
    that deployed it mints and burns. */
module SimpleToken {
  import opened Header
  import opened TokenText
  import opened Wrappers

  /** 2^256. */
  const WORD_LIMIT: nat := 0x1_0000000000000000_0000000000000000_0000000000000000_0000000000000000

  type Balances = map<Address, nat>

  function BalanceOf(b: Balances, a: Address): nat {
    if a in b then b[a] else 0
  }

  /** A transfer of at most what the sender has. */
  function Moved(b: Balances, from: Address, to: Address, amount: nat): Balances
    requires BalanceOf(b, from) >= amount
  {
    var b' := b[from := BalanceOf(b, from) - amount];
    b'[to := BalanceOf(b', to) + amount]
  }

  lemma MovedBalances(b: Balances, from: Address, to: Address, amount: nat, a: Address)
    requires BalanceOf(b, from) >= amount
    ensures BalanceOf(Moved(b, from, to, amount), a) ==
      BalanceOf(b, a) - (if a == from then amount else 0) + (if a == to then amount else 0)
  {
  }

  /** The sum of all balances. */
  ghost function Total(b: Balances): nat {
    if b == map[] then 0 else
      var a :| a in b;
      b[a] + Total(b - {a})
  }

  lemma {:induction false} TotalWithout(b: Balances, a: Address)
    requires a in b
    ensures Total(b) == b[a] + Total(b - {a})
    decreases |b|
  {
    var c :| c in b && Total(b) == b[c] + Total(b - {c});
    if c != a {
      TotalWithout(b - {c}, a);
      TotalWithout(b - {a}, c);
      assert b - {c} - {a} == b - {a} - {c};
    }
  }

  /** Changing one balance changes the total by the difference. */
  lemma {:induction false} TotalUpdated(b: Balances, a: Address, n: nat)
    ensures Total(b[a := n]) == Total(b) - BalanceOf(b, a) + n
  {
    var b' := b[a := n];
    TotalWithout(b', a);
    if a in b {
      TotalWithout(b, a);
      assert b' - {a} == b - {a};
    } else {
      assert b' - {a} == b;
    }
  }

  lemma {:induction false} MovedKeepsTotal(b: Balances, from: Address, to: Address, amount: nat)
    requires BalanceOf(b, from) >= amount
    ensures Total(Moved(b, from, to, amount)) == Total(b)
  {
    var b' := b[from := BalanceOf(b, from) - amount];
    TotalUpdated(b, from, BalanceOf(b, from) - amount);
    TotalUpdated(b', to, BalanceOf(b', to) + amount);
  }

  /** What the contract stores. */
  datatype Token = Token(symbol: Bytes32, name: Bytes32, owner: Address, originChain: nat, originAddress: Address,
                         supply: nat, balances: Balances)
  {
    /** The supply is what the holders own, and fits in a word. */
    ghost predicate Sound() {
      supply == Total(balances) && supply < WORD_LIMIT
    }

    function Minted(sender: Address, account: Address, amount: nat): Result<Token> {
      if sender != owner then Revert("only owner")
      else if account == 0 then Revert("ERC20: mint to the zero address")
      else if supply + amount >= WORD_LIMIT then Revert("")
      else Ok(this.(supply := supply + amount, balances := balances[account := BalanceOf(balances, account) + amount]))
    }

    function Burned(sender: Address, account: Address, amount: nat): Result<Token> {
      if sender != owner then Revert("only owner")
      else if account == 0 then Revert("ERC20: burn from the zero address")
      else if BalanceOf(balances, account) < amount then Revert("ERC20: burn amount exceeds balance")
      else if supply < amount then Revert("")
      else Ok(this.(supply := supply - amount, balances := balances[account := BalanceOf(balances, account) - amount]))
    }

    /** Transfers between holders. */
    function Transferred(from: Address, to: Address, amount: nat): Result<Token> {
      if from == 0 then Revert("ERC20: transfer from the zero address")
      else if to == 0 then Revert("ERC20: transfer to the zero address")
      else if BalanceOf(balances, from) < amount then Revert("ERC20: transfer amount exceeds balance")
      else Ok(this.(balances := Moved(balances, from, to, amount)))
    }
  }

  /** A token as `initialize` leaves it. */
  function Deployed(bridge: Address, symbol: Bytes32, name: Bytes32, originChain: nat, originAddress: Address): Token {
    Token(symbol, name, bridge, originChain, originAddress, 0, map[])
  }

  lemma {:induction false} MintIsHeld(t: Token, sender: Address, a: Address, amount: nat)
    requires t.Sound() && t.Minted(sender, a, amount).Ok?
    ensures t.Minted(sender, a, amount).value.Sound() && t.Minted(sender, a, amount).value.supply == t.supply + amount
  {
    TotalUpdated(t.balances, a, BalanceOf(t.balances, a) + amount);
  }

  lemma {:induction false} BurnIsHeld(t: Token, sender: Address, a: Address, amount: nat)
    requires t.Sound() && t.Burned(sender, a, amount).Ok?
    ensures t.Burned(sender, a, amount).value.Sound() && t.Burned(sender, a, amount).value.supply == t.supply - amount
  {
    TotalUpdated(t.balances, a, BalanceOf(t.balances, a) - amount);
  }

  lemma {:induction false} TransferIsHeld(t: Token, a: Address, b: Address, amount: nat)
    requires t.Sound() && t.Transferred(a, b, amount).Ok?
    ensures t.Transferred(a, b, amount).value.Sound() && t.Transferred(a, b, amount).value.supply == t.supply
  {
    MovedKeepsTotal(t.balances, a, b, amount);
  }

  /** The supply stays what the holders own: minting and burning change both by the amount, transfers
      change neither, and no burn of a holder's balance exceeds the supply. */
  lemma {:induction false} SupplyIsHeld(t: Token, sender: Address, a: Address, b: Address, amount: nat)
    requires t.Sound()
    ensures t.Minted(sender, a, amount).Ok? ==>
      t.Minted(sender, a, amount).value.Sound() && t.Minted(sender, a, amount).value.supply == t.supply + amount
    ensures t.Burned(sender, a, amount).Ok? ==>
      t.Burned(sender, a, amount).value.Sound() && t.Burned(sender, a, amount).value.supply == t.supply - amount
    ensures t.Transferred(a, b, amount).Ok? ==>
      t.Transferred(a, b, amount).value.Sound() && t.Transferred(a, b, amount).value.supply == t.supply
    ensures BalanceOf(t.balances, a) <= t.supply
  {
    TotalUpdated(t.balances, a, 0);
    if t.Minted(sender, a, amount).Ok? {
      MintIsHeld(t, sender, a, amount);
    }
    if t.Burned(sender, a, amount).Ok? {
      BurnIsHeld(t, sender, a, amount);
    }
    if t.Transferred(a, b, amount).Ok? {
      TransferIsHeld(t, a, b, amount);
    }
  }

  /** Who has what: `account` has more or less than before, nobody else; owner, texts and origin stay. */
  ghost predicate OnlyBalance(t: Token, u: Token, account: Address, difference: int) {
    && u == t.(supply := u.supply, balances := u.balances) && u.supply == t.supply + difference
    && forall a: Address ::
         BalanceOf(u.balances, a) == BalanceOf(t.balances, a) + (if a == account then difference else 0)
  }

  /** Minting and burning are for the owner alone, and change one balance and the supply by the amount. A token whose
      supply is held mints whenever the supply stays below 2^256, and burns what the account has. */
  lemma OwnerMintsAndBurns(t: Token, sender: Address, account: Address, amount: nat)
    requires t.Sound()
    ensures t.Minted(sender, account, amount).Ok? <==>
      sender == t.owner && account != 0 && t.supply + amount < WORD_LIMIT
    ensures t.Minted(sender, account, amount).Ok? ==>
      OnlyBalance(t, t.Minted(sender, account, amount).value, account, amount)
    ensures t.Burned(sender, account, amount).Ok? <==>
      sender == t.owner && account != 0 && BalanceOf(t.balances, account) >= amount
    ensures t.Burned(sender, account, amount).Ok? ==>
      OnlyBalance(t, t.Burned(sender, account, amount).value, account, 0 - amount)
  {
    TotalUpdated(t.balances, account, 0);
  }

  class SimpleToken {
    var symbol: Bytes32
    var name: Bytes32
    var owner: Address
    var originAddress: Address
    var originChain: nat
    var totalSupply: nat
    var balances: Balances

    function View(): Token
      reads this
    {
      Token(symbol, name, owner, originChain, originAddress, totalSupply, balances)
    }

    constructor ()
      ensures View() == Token(ZERO_WORD, ZERO_WORD, 0, 0, 0, 0, map[])
    {
      symbol, name, owner := ZERO_WORD, ZERO_WORD, 0;
      originAddress, originChain := 0, 0;
      totalSupply, balances := 0, map[];
    }

    /** Works only once: afterwards the token has an owner. */
    method Initialize(sender: Address, symbol_: Bytes32, name_: Bytes32, chain: nat,
                      origin: Address) returns (r: Result<()>)
      modifies this
      ensures old(owner) == 0 ==> r.Ok?
      ensures old(owner) == 0 ==>
        View() == Token(symbol_, name_, sender, chain, origin, old(totalSupply), old(balances))
      ensures old(owner) != 0 ==> r.Revert? && View() == old(View())
    {
      if owner != 0 {
        return Revert("");
      }
      owner := sender;
      symbol, name := symbol_, name_;
      originAddress, originChain := origin, chain;
      return Ok(());
    }

    method Mint(sender: Address, account: Address, amount: nat) returns (r: Result<()>)
      modifies this
      ensures r.Ok? ==> old(View()).Minted(sender, account, amount) == Ok(View())
      ensures r.Revert? ==> old(View()).Minted(sender, account, amount) == Revert(r.reason) && View() == old(View())
    {
      if sender != owner {
        return Revert("only owner");
      }
      if account == 0 {
        return Revert("ERC20: mint to the zero address");
      }
      if totalSupply + amount >= WORD_LIMIT {
        return Revert("");
      }
      totalSupply := totalSupply + amount;
      balances := balances[account := BalanceOf(balances, account) + amount];
      return Ok(());
    }

    method Burn(sender: Address, account: Address, amount: nat) returns (r: Result<()>)
      modifies this
      ensures r.Ok? ==> old(View()).Burned(sender, account, amount) == Ok(View())
      ensures r.Revert? ==> old(View()).Burned(sender, account, amount) == Revert(r.reason) && View() == old(View())
    {
      if sender != owner {
        return Revert("only owner");
      }
      if account == 0 {
        return Revert("ERC20: burn from the zero address");
      }
      var accountBalance := BalanceOf(balances, account);
      if accountBalance < amount {
        return Revert("ERC20: burn amount exceeds balance");
      }
      if totalSupply < amount {
        return Revert("");
      }
      balances := balances[account := accountBalance - amount];
      totalSupply := totalSupply - amount;
      return Ok(());
    }
  }
}
