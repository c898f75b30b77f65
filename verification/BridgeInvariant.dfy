/** What holds in every reachable state of the network, and what the accounts say. */
module BridgeInvariant {
  import opened Header
  import opened ReceiptParser
  import opened BridgeSpec
  import opened BridgeEvents
  import opened SimpleToken
  import opened TokenText
  import opened BridgeNetwork

  // ---------- the accounts ----------

  /** Supply of the token that bridge i deployed for an origin token. */
  function SupplyAt(net: Network, i: nat, ledger: Ledger, o: Address): nat
    requires i < |net.sites|
  {
    if PegOf(net, i, o) in ledger.pegged then ledger.pegged[PegOf(net, i, o)].supply else 0
  }

  /** What chain i adds to the account of an origin token, in units of 18 decimals: the escrow, if the
      token lives there, less the tokens deployed there. */
  function BackingAt(net: Network, i: nat, ledger: Ledger, o: Address): int
    requires i < |net.sites| && o in net.origins
  {
    (if net.origins[o].home == i then EscrowAt(net, i, ledger, o) * Factor(net, o) else 0) - SupplyAt(net, i, ledger, o)
  }

  /** The account over the first n chains. */
  function Backing(net: Network, chains: seq<State>, o: Address, n: nat): int
    requires n <= |chains| == |net.sites| && o in net.origins
  {
    if n == 0 then 0 else Backing(net, chains, o, n - 1) + BackingAt(net, n - 1, chains[n - 1].ledger, o)
  }

  predicate IsPaid(payments: seq<Payment>, j: nat) {
    exists p :: p in payments && p.entry == j
  }

  /** Amounts of the first n logged deposits of an origin token that are not paid yet. */
  ghost function Unpaid(log: seq<Entry>, payments: seq<Payment>, o: Address, n: nat): nat
    requires n <= |log|
  {
    if n == 0 then 0
    else Unpaid(log, payments, o, n - 1) +
         (if log[n - 1].deposit.metadata.origin == o && !IsPaid(payments, n - 1) then log[n - 1].deposit.amount else 0)
  }

  /** The account of an origin token closes: escrow less deployed supply is owed to unpaid deposits, or
      is dust, or was a gift. */
  ghost predicate Solvent(net: Network, w: World, o: Address)
    requires |w.chains| == |net.sites| && o in net.origins
  {
    Backing(net, w.chains, o, |w.chains|)
      == Unpaid(w.log, w.payments, o, |w.log|) + Get(w.dust, o) + Get(w.donated, o) * Factor(net, o)
  }

  // ---------- the invariant ----------

  /** A packed text of the origin, at most one unpacking and packing later. */
  predicate TextOf(text: Bytes32, original: Bytes32) {
    text == original || text == Hop(original)
  }

  /** The origin token exists on its chain and can be bridged. */
  ghost predicate Backed(net: Network, chains: seq<State>, o: Address)
    requires |chains| == |net.sites|
  {
    && o in net.origins && net.origins[o].home < |net.sites|
    && (!IsNative(net, o) ==> o in chains[net.origins[o].home].ledger.erc20 && net.origins[o].decimals <= 18)
  }

  /** Metadata describes the origin token. */
  ghost predicate Describes(net: Network, symbol: Bytes32, name: Bytes32, chain: nat, o: Address) {
    && o in net.origins && net.origins[o].home < |net.sites|
    && chain == net.sites[net.origins[o].home].chainId
    && TextOf(symbol, net.origins[o].symbol) && TextOf(name, net.origins[o].name)
  }

  /** A token deployed on chain i. */
  ghost predicate TokenOk(net: Network, chains: seq<State>, i: nat, t: Address, k: Token)
    requires i < |chains| == |net.sites|
  {
    && Describes(net, k.symbol, k.name, k.originChain, k.originAddress)
    && t == PegOf(net, i, k.originAddress) && k.owner == net.sites[i].self
    && chains[i].OriginOf(t) == k.originAddress && Backed(net, chains, k.originAddress)
  }

  ghost predicate TokensOk(net: Network, chains: seq<State>, i: nat)
    requires i < |chains| == |net.sites|
  {
    forall t :: t in chains[i].ledger.pegged ==> TokenOk(net, chains, i, t, chains[i].ledger.pegged[t])
  }

  /** The bridge only knows tokens that exist. */
  ghost predicate KnownOk(s: State) {
    forall t :: s.OriginOf(t) != 0 ==> t in s.ledger.pegged
  }

  ghost predicate ChainsOk(net: Network, chains: seq<State>)
    requires |chains| == |net.sites|
  {
    forall i: nat :: i < |chains| ==>
      Conforms(net, i, chains[i].ledger.erc20) && TokensOk(net, chains, i) && KnownOk(chains[i])
  }

  /** The token a deposit is for, on chain i. */
  function Target(net: Network, i: nat, kind: PegInType, o: Address): Address
    requires i < |net.sites| && o in net.origins
  {
    if kind == Burn && net.origins[o].home == i then o else PegOf(net, i, o)
  }

  ghost predicate TargetsOk(net: Network, d: Deposit)
    requires d.metadata.origin in net.origins
  {
    forall i: nat :: i < |net.sites| && net.sites[i].chainId == d.chainId ==>
      d.toToken == Target(net, i, d.kind, d.metadata.origin)
  }

  ghost predicate EntryOk(net: Network, chains: seq<State>, e: Entry)
    requires |chains| == |net.sites|
  {
    var d := e.deposit;
    && e.source < |chains| && d.kind != NoPegIn && d.contract == net.sites[e.source].self
    && d.nonce < chains[e.source].nonce && InReceipt(EventsAt(net, e.source), d, e.receipt)
    && Describes(net, d.metadata.symbol, d.metadata.name, d.metadata.fromChain, d.metadata.origin)
    && Backed(net, chains, d.metadata.origin) && TargetsOk(net, d)
  }

  ghost predicate LogOk(net: Network, chains: seq<State>, log: seq<Entry>)
    requires |chains| == |net.sites|
  {
    forall j: nat :: j < |log| ==> EntryOk(net, chains, log[j])
  }

  /** No bridge uses a nonce twice. */
  ghost predicate NoncesUnique(log: seq<Entry>) {
    forall a: nat, b: nat ::
      a < |log| && b < |log| && log[a].source == log[b].source && log[a].deposit.nonce == log[b].deposit.nonce ==>
        a == b
  }

  /** Every payment was made on the chain that its deposit names, whose parser recognises nothing else in
      the receipt, and used up the receipt there. */
  ghost predicate PaymentOk(net: Network, w: World, p: Payment)
    requires |w.chains| == |net.sites|
  {
    && p.entry < |w.log| && p.chain < |w.chains|
    && net.sites[p.chain].chainId == w.log[p.entry].deposit.chainId
    && HashOf(net, w.log[p.entry].receipt) in w.chains[p.chain].used
    && |Deposits(EventsAt(net, p.chain), w.log[p.entry].receipt.logs)| == 1
  }

  ghost predicate PaymentsOk(net: Network, w: World)
    requires |w.chains| == |net.sites|
  {
    forall k: nat :: k < |w.payments| ==> PaymentOk(net, w, w.payments[k])
  }

  ghost predicate PaidOnce(payments: seq<Payment>) {
    forall a: nat, b: nat :: a < b < |payments| ==> payments[a].entry != payments[b].entry
  }

  ghost predicate Inv(net: Network, w: World) {
    && |w.chains| == |net.sites|
    && ChainsOk(net, w.chains) && LogOk(net, w.chains, w.log) && NoncesUnique(w.log)
    && PaymentsOk(net, w) && PaidOnce(w.payments)
    && forall o :: o in net.origins ==> Solvent(net, w, o)
  }

  // ---------- how the parts change ----------

  /** Chain i moves to s. What others rely on stays: used proofs, nonces and known tokens only grow. */
  ghost predicate Grows(s: State, s': State) {
    s.used <= s'.used && s.nonce <= s'.nonce && s.ledger.erc20.Keys <= s'.ledger.erc20.Keys
  }

  lemma BackedGrows(net: Network, chains: seq<State>, i: nat, s: State, o: Address)
    requires i < |chains| == |net.sites| && Grows(chains[i], s) && Backed(net, chains, o)
    ensures Backed(net, chains[i := s], o)
  {
    if !IsNative(net, o) && net.origins[o].home == i {
      assert o in chains[i].ledger.erc20.Keys;
    }
  }

  lemma LogGrows(net: Network, chains: seq<State>, i: nat, s: State, log: seq<Entry>)
    requires i < |chains| == |net.sites| && Grows(chains[i], s) && LogOk(net, chains, log)
    ensures LogOk(net, chains[i := s], log)
  {
    forall j: nat | j < |log|
      ensures EntryOk(net, chains[i := s], log[j])
    {
      BackedGrows(net, chains, i, s, log[j].deposit.metadata.origin);
    }
  }

  /** The other chains keep what was known about them. */
  lemma ChainsGrow(net: Network, chains: seq<State>, i: nat, s: State)
    requires i < |chains| == |net.sites| && Grows(chains[i], s) && ChainsOk(net, chains)
    requires Conforms(net, i, s.ledger.erc20) && KnownOk(s) && TokensOk(net, chains[i := s], i)
    ensures ChainsOk(net, chains[i := s])
  {
    var chains' := chains[i := s];
    forall k: nat | k < |chains'|
      ensures Conforms(net, k, chains'[k].ledger.erc20) && TokensOk(net, chains', k) && KnownOk(chains'[k])
    {
      if k != i {
        TokensGrow(net, chains, i, s, k);
      }
    }
  }

  lemma TokensGrow(net: Network, chains: seq<State>, i: nat, s: State, k: nat)
    requires i < |chains| == |net.sites| && k < |chains| && k != i && Grows(chains[i], s) && TokensOk(net, chains, k)
    ensures TokensOk(net, chains[i := s], k)
  {
    forall t | t in chains[k].ledger.pegged
      ensures TokenOk(net, chains[i := s], k, t, chains[k].ledger.pegged[t])
    {
      BackedGrows(net, chains, i, s, chains[k].ledger.pegged[t].originAddress);
    }
  }

  /** Chain i keeps its tokens up to supply and balances. */
  lemma TokensKept(net: Network, chains: seq<State>, i: nat, s: State)
    requires i < |chains| == |net.sites| && Grows(chains[i], s) && TokensOk(net, chains, i)
    requires s.peggedOrigin == chains[i].peggedOrigin && s.ledger.pegged.Keys == chains[i].ledger.pegged.Keys
    requires forall t :: t in s.ledger.pegged ==> SameButSupply(chains[i].ledger.pegged[t], s.ledger.pegged[t])
    ensures TokensOk(net, chains[i := s], i)
  {
    forall t | t in s.ledger.pegged
      ensures TokenOk(net, chains[i := s], i, t, s.ledger.pegged[t])
    {
      assert TokenOk(net, chains, i, t, chains[i].ledger.pegged[t]);
      BackedGrows(net, chains, i, s, chains[i].ledger.pegged[t].originAddress);
    }
  }

  predicate SameButSupply(k: Token, k': Token) {
    k' == k.(supply := k'.supply, balances := k'.balances)
  }

  lemma PaymentsGrow(net: Network, w: World, i: nat, s: State, more: seq<Entry>)
    requires i < |w.chains| == |net.sites| && w.chains[i].used <= s.used && PaymentsOk(net, w)
    ensures PaymentsOk(net, w.(chains := w.chains[i := s], log := w.log + more))
  {
  }

  // ---------- how the accounts change ----------

  lemma {:induction false} BackingUpdated(net: Network, chains: seq<State>, i: nat, s: State, o: Address, n: nat)
    requires i < |chains| == |net.sites| && n <= |chains| && o in net.origins
    ensures Backing(net, chains[i := s], o, n) ==
      Backing(net, chains, o, n) +
        if i < n then BackingAt(net, i, s.ledger, o) - BackingAt(net, i, chains[i].ledger, o) else 0
  {
    if n > 0 {
      BackingUpdated(net, chains, i, s, o, n - 1);
    }
  }

  lemma {:induction false} UnpaidOfPrefix(log: seq<Entry>, more: seq<Entry>, payments: seq<Payment>, o: Address, n: nat)
    requires n <= |log|
    ensures Unpaid(log + more, payments, o, n) == Unpaid(log, payments, o, n)
  {
    if n > 0 {
      UnpaidOfPrefix(log, more, payments, o, n - 1);
    }
  }

  lemma IsPaidStep(payments: seq<Payment>, p: Payment, j: nat)
    ensures IsPaid(payments + [p], j) <==> IsPaid(payments, j) || p.entry == j
  {
    if IsPaid(payments, j) {
      var q :| q in payments && q.entry == j;
      assert q in payments + [p];
    }
    assert p in payments + [p];
  }

  lemma {:induction false} UnpaidStep(log: seq<Entry>, payments: seq<Payment>, p: Payment, o: Address, n: nat)
    requires n <= |log| && p.entry < |log| && !IsPaid(payments, p.entry)
    ensures Unpaid(log, payments + [p], o, n) ==
      Unpaid(log, payments, o, n) -
        if p.entry < n && log[p.entry].deposit.metadata.origin == o then log[p.entry].deposit.amount else 0
  {
    if n > 0 {
      IsPaidStep(payments, p, n - 1);
      UnpaidStep(log, payments, p, o, n - 1);
    }
  }

  /** An unpaid deposit is part of what is owed. */
  lemma {:induction false} UnpaidAtLeast(log: seq<Entry>, payments: seq<Payment>, j: nat, n: nat)
    requires j < n <= |log| && !IsPaid(payments, j)
    ensures Unpaid(log, payments, log[j].deposit.metadata.origin, n) >= log[j].deposit.amount
  {
    if j < n - 1 {
      UnpaidAtLeast(log, payments, j, n - 1);
    }
  }

  /** Escrow and supply, seen apart. */
  function Supply(net: Network, chains: seq<State>, o: Address, n: nat): nat
    requires n <= |chains| == |net.sites|
  {
    if n == 0 then 0 else Supply(net, chains, o, n - 1) + SupplyAt(net, n - 1, chains[n - 1].ledger, o)
  }

  function Escrow(net: Network, w: World, o: Address): nat
    requires |w.chains| == |net.sites| && o in net.origins && net.origins[o].home < |net.sites|
  {
    EscrowAt(net, net.origins[o].home, w.chains[net.origins[o].home].ledger, o)
  }

  lemma {:induction false} BackingIsEscrowLessSupply(net: Network, w: World, o: Address, n: nat)
    requires |w.chains| == |net.sites| && n <= |w.chains| && o in net.origins && net.origins[o].home < |net.sites|
    ensures Backing(net, w.chains, o, n) ==
      (if net.origins[o].home < n then Escrow(net, w, o) * Factor(net, o) else 0) - Supply(net, w.chains, o, n)
  {
    if n > 0 {
      BackingIsEscrowLessSupply(net, w, o, n - 1);
    }
  }
}
