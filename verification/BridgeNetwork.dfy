/** All chains with their bridges: the assumptions about them, and the steps by which the whole moves. */
module BridgeNetwork {
  import opened Bytes
  import opened Rlp
  import opened Header
  import opened ReceiptParser
  import opened BridgeSpec
  import opened BridgeEvents
  import opened SimpleToken
  import opened TokenText
  import opened Wrappers

  /** A token that can be bridged: the chain it lives on and what it says about itself. */
  datatype Origin = Origin(home: nat, decimals: nat, symbol: Bytes32, name: Bytes32)

  /** The bridges, one per chain, and all origin tokens by address (the made-up addresses of the native
      coins among them); the two event signatures and the hash of receipts. */
  datatype Network = Network(sites: seq<Site>, origins: map<Address, Origin>, locked: Word, burned: Word,
                             keccak: seq<Byte> -> Word)

  /** What the parser on chain i recognises. */
  function EventsAt(net: Network, i: nat): Events
    requires i < |net.sites|
  {
    Events(net.locked, net.burned, net.sites[i].chainId)
  }

  /** The hash under which a receipt is used up. */
  function HashOf(net: Network, rc: Receipt): Word {
    net.keccak(Encode(ReceiptItem(rc)))
  }

  /** The address of the token that the bridge of chain i deploys for an origin token. */
  function PegOf(net: Network, i: nat, o: Address): Address
    requires i < |net.sites|
  {
    net.sites[i].peg(net.sites[i].self, o)
  }

  predicate IsNative(net: Network, o: Address)
    requires o in net.origins && net.origins[o].home < |net.sites|
  {
    o == net.sites[net.origins[o].home].native.origin
  }

  /** A native coin has 18 decimals and is described by its bridge. */
  predicate SiteOk(net: Network, i: nat)
    requires i < |net.sites|
  {
    var s := net.sites[i];
    && s.chainId > 0 && s.self != 0 && s.native.fromChain == s.chainId
    && s.native.origin in net.origins
    && net.origins[s.native.origin] == Origin(i, 18, s.native.symbol, s.native.name)
  }

  /** What the bridges rely on: chain ids are different and not 0, bridges have addresses, origin
      addresses are not 0 and belong to one chain each, deployed tokens have addresses of their own, and the
      two events different signatures. */
  ghost predicate SoundNetwork(net: Network) {
    && net.locked != net.burned
    && (forall i: nat :: i < |net.sites| ==> SiteOk(net, i))
    && (forall i: nat, k: nat :: i < |net.sites| && k < |net.sites| && net.sites[i].chainId == net.sites[k].chainId ==>
          i == k)
    && (forall o :: o in net.origins ==> o != 0 && net.origins[o].home < |net.sites|)
    && (forall i: nat, k: nat, o :: i < |net.sites| && k < |net.sites| && o in net.origins ==>
          net.sites[k].peg(net.sites[i].self, o) == PegOf(net, i, o))
    && (forall i: nat, o :: i < |net.sites| && o in net.origins ==> PegOf(net, i, o) !in net.origins)
    && (forall i: nat, o, p ::
          i < |net.sites| && o in net.origins && p in net.origins && PegOf(net, i, o) == PegOf(net, i, p) ==> o == p)
  }

  /** A registry may lack a chain, but it never names a wrong bridge for one of the chains. */
  ghost predicate Consistent(net: Network, registry: Registry) {
    forall i: nat :: i < |net.sites| ==>
      BridgeAt(registry, net.sites[i].chainId) == 0 || BridgeAt(registry, net.sites[i].chainId) == net.sites[i].self
  }

  predicate InNetwork(net: Network, chainId: nat) {
    exists k: nat :: k < |net.sites| && net.sites[k].chainId == chainId
  }

  /** No chain outside the network is registered. */
  ghost predicate Closed(net: Network, registry: Registry) {
    forall c :: c in registry ==> InNetwork(net, c)
  }

  /** Hub and registry are one contract: it accepts no proofs for chains that are not registered. */
  ghost predicate OneHub(registry: Registry, hub: HubVerdict) {
    forall c: nat :: hub(c) == Ok(true) ==> c in registry
  }

  /** The tokens of chain i are origin tokens of chain i and stay as they were described. They may claim
      any other origin, but not that they come from address 0 of some chain. */
  ghost predicate Conforms(net: Network, i: nat, erc20: map<Address, Erc20>)
    requires i < |net.sites|
  {
    forall t :: t in erc20 ==>
      && t in net.origins && t != net.sites[i].native.origin
      && net.origins[t] == Origin(i, erc20[t].decimals, Pack(erc20[t].symbol), Pack(erc20[t].name))
      && (erc20[t].claimedChain != 0 ==> erc20[t].claimedOrigin != 0)
  }

  // ---------- the state of the network ----------

  /** An emitted deposit: the chain whose bridge emitted it, and the receipt of its transaction. */
  datatype Entry = Entry(source: nat, deposit: Deposit, receipt: Receipt)

  /** A successful withdrawal: the deposit's place in the log, and the chain where it was paid. */
  datatype Payment = Payment(entry: nat, chain: nat)

  /** Units kept by rounding (of 18 decimals), and units (of the token) given to a bridge without a
      deposit; both only kept for the account. */
  datatype World = World(chains: seq<State>, log: seq<Entry>, payments: seq<Payment>,
                         dust: map<Address, nat>, donated: map<Address, nat>)

  /** Deposits come with the receipt that their transaction will have. A withdrawal comes with a receipt,
      and with the place in the log of the deposit that it says, if it says one of the network. */
  datatype Step =
    | NativeDeposit(chain: nat, registry: Registry, sender: Address, toChain: nat, to: Address, amount: nat,
                    receipt: Receipt)
    | TokenDeposit(chain: nat, registry: Registry, allowance: nat, sender: Address, token: Address, toChain: nat,
                   to: Address, amount: nat, receipt: Receipt)
    | Withdrawal(chain: nat, registry: Registry, receipt: Receipt, entry: nat, hub: HubVerdict, accepts: bool)
    | Others(chain: nat, ledger: Ledger)

  /** What everyone but the bridges may do to the tokens of chain i: move, create and destroy coins
      and tokens, deploy new tokens, and pay to the bridge, but not take what the bridge owns, nor mint
      or burn the tokens it deployed. */
  ghost predicate OthersMay(net: Network, i: nat, before: Ledger, after: Ledger)
    requires i < |net.sites|
  {
    var self := net.sites[i].self;
    && BalanceOf(after.native, self) >= BalanceOf(before.native, self)
    && Conforms(net, i, after.erc20)
    && (forall t :: t in before.erc20 ==>
          t in after.erc20 && BalanceOf(after.erc20[t].balances, self) >= BalanceOf(before.erc20[t].balances, self))
    && after.pegged.Keys == before.pegged.Keys
    && (forall t :: t in before.pegged ==> after.pegged[t].(balances := before.pegged[t].balances) == before.pegged[t])
  }

  /** The receipt of a deposit that goes through holds its event, among any others, and was not reverted. */
  ghost predicate Receipted(net: Network, i: nat, r: Result<Emitted>, rc: Receipt)
    requires i < |net.sites|
  {
    r.Ok? ==> InReceipt(EventsAt(net, i), r.value.deposit, rc)
  }

  function DepositOf(net: Network, w: World, step: Step): Result<Emitted>
    requires step.NativeDeposit? || step.TokenDeposit?
    requires step.chain < |net.sites| == |w.chains|
  {
    match step
    case NativeDeposit(i, registry, sender, toChain, to, amount, _) =>
      DepositNative(net.sites[i], w.chains[i], registry, sender, toChain, to, amount)
    case TokenDeposit(i, registry, allowance, sender, token, toChain, to, amount, _) =>
      DepositToken(net.sites[i], w.chains[i], registry, allowance, sender, token, toChain, to, amount)
  }

  /** Hub and registry let the deposit pass as one of a bridge of the network. */
  predicate PassesAsOurs(net: Network, registry: Registry, d: Deposit, hub: HubVerdict) {
    && InNetwork(net, d.metadata.fromChain) && hub(d.metadata.fromChain) == Ok(true)
    && BridgeAt(registry, d.metadata.fromChain) == d.contract
  }

  /** The receipt says such a deposit on chain i. */
  ghost predicate SaysOurs(net: Network, i: nat, registry: Registry, rc: Receipt, hub: HubVerdict)
    requires i < |net.sites|
  {
    var d := ReceiptDeposit(EventsAt(net, i), rc);
    d.Ok? && PassesAsOurs(net, registry, d.value, hub)
  }

  /** What passes as a deposit of the network's bridges is one that was logged, with its own receipt. */
  ghost predicate Genuine(net: Network, w: World, i: nat, registry: Registry, rc: Receipt, j: nat, hub: HubVerdict)
    requires i < |net.sites|
  {
    SaysOurs(net, i, registry, rc, hub) ==>
      j < |w.log| && w.log[j].receipt == rc && ReceiptDeposit(EventsAt(net, i), rc) == Ok(w.log[j].deposit)
  }

  /** A step that can be taken. Every registry answer, every sender, amount and recipient, every receipt and
      every verdict on it is possible; but under the chains of the network only deposits that were really
      emitted can be proved. Under other chains, if they are registered, anything can. */
  ghost predicate Possible(net: Network, w: World, step: Step) {
    step.chain < |net.sites| == |w.chains| &&
    match step
    case NativeDeposit(i, registry, sender, _, _, _, rc) =>
      Consistent(net, registry) && sender != net.sites[i].self && Receipted(net, i, DepositOf(net, w, step), rc)
    case TokenDeposit(i, registry, _, _, _, _, _, _, rc) =>
      Consistent(net, registry) && Receipted(net, i, DepositOf(net, w, step), rc)
    case Withdrawal(i, registry, rc, j, hub, _) =>
      Consistent(net, registry) && OneHub(registry, hub) && Genuine(net, w, i, registry, rc, j, hub)
    case Others(i, ledger) => OthersMay(net, i, w.chains[i].ledger, ledger)
  }

  function Get(m: map<Address, nat>, a: Address): nat {
    if a in m then m[a] else 0
  }

  function Plus(m: map<Address, nat>, a: Address, n: nat): map<Address, nat> {
    m[a := Get(m, a) + n]
  }

  /** A deposit is logged. */
  function Logged(w: World, i: nat, e: Emitted, rc: Receipt): World
    requires i < |w.chains|
  {
    w.(chains := w.chains[i := e.state], log := w.log + [Entry(i, e.deposit, rc)])
  }

  function Factor(net: Network, o: Address): (p: nat)
    ensures p > 0
  {
    if o in net.origins then Scale(net.origins[o].decimals) else 1
  }

  predicate Unlocks(d: Deposit) {
    d.toToken == d.metadata.origin
  }

  /** A deposit is paid. Of an unlocked amount the remainder is kept; a bridge that pays itself keeps
      everything. */
  function Paid(net: Network, w: World, i: nat, j: nat, s: State): World
    requires i < |w.chains| == |net.sites| && j < |w.log|
  {
    var d := w.log[j].deposit;
    var o := d.metadata.origin;
    var w' := w.(chains := w.chains[i := s], payments := w.payments + [Payment(j, i)]);
    if !Unlocks(d) then w'
    else
      w'.(dust := Plus(w.dust, o, Remainder(d.amount, Factor(net, o))),
          donated := if d.to == net.sites[i].self then Plus(w.donated, o, Quotient(d.amount, Factor(net, o)))
                     else w.donated)
  }

  /** What the bridge of chain i holds of an origin token. */
  function EscrowAt(net: Network, i: nat, ledger: Ledger, o: Address): nat
    requires i < |net.sites|
  {
    if o == net.sites[i].native.origin then BalanceOf(ledger.native, net.sites[i].self)
    else if o in ledger.erc20 then BalanceOf(ledger.erc20[o].balances, net.sites[i].self)
    else 0
  }

  /** The gifts a step of others makes to the bridge of chain i. */
  ghost function Gifts(net: Network, w: World, i: nat, ledger: Ledger): map<Address, nat>
    requires i < |w.chains| == |net.sites|
    requires OthersMay(net, i, w.chains[i].ledger, ledger)
  {
    map o | o in net.origins ::
      Get(w.donated, o) + (EscrowAt(net, i, ledger, o) - EscrowAt(net, i, w.chains[i].ledger, o))
  }

  /** A withdrawal on chain i with this receipt. */
  function WithdrawOn(net: Network, i: nat, s: State, registry: Registry, rc: Receipt, hub: HubVerdict,
                      accepts: bool): Result<State>
    requires i < |net.sites|
  {
    WithdrawReceipt(net.sites[i], s, registry, EventsAt(net, i), rc, HashOf(net, rc), hub, accepts)
  }

  /** One step; a reverted call changes nothing. The payout of a deposit that no bridge of the network made
      is no payment. */
  ghost function Do(net: Network, w: World, step: Step): World
    requires Possible(net, w, step)
  {
    match step
    case NativeDeposit(i, _, _, _, _, _, rc) =>
      var r := DepositOf(net, w, step);
      if r.Ok? then Logged(w, i, r.value, rc) else w
    case TokenDeposit(i, _, _, _, _, _, _, _, rc) =>
      var r := DepositOf(net, w, step);
      if r.Ok? then Logged(w, i, r.value, rc) else w
    case Withdrawal(i, registry, rc, j, hub, accepts) =>
      var r := WithdrawOn(net, i, w.chains[i], registry, rc, hub, accepts);
      if r.Revert? then w
      else if SaysOurs(net, i, registry, rc, hub) then Paid(net, w, i, j, r.value)
      else w.(chains := w.chains[i := r.value])
    case Others(i, ledger) =>
      w.(chains := w.chains[i := w.chains[i].(ledger := ledger)], donated := Gifts(net, w, i, ledger))
  }

  /** Before the first deposit: no deployed token, no used proof, nothing in escrow but gifts. */
  ghost predicate Initial(net: Network, w: World) {
    && |w.chains| == |net.sites| && w.log == [] && w.payments == []
    && (forall i: nat :: i < |w.chains| ==>
          w.chains[i].peggedOrigin == map[] && w.chains[i].ledger.pegged == map[] &&
            Conforms(net, i, w.chains[i].ledger.erc20))
    && (forall o :: o in net.origins && net.origins[o].home < |net.sites| ==>
          Get(w.donated, o) == EscrowAt(net, net.origins[o].home, w.chains[net.origins[o].home].ledger, o) &&
            Get(w.dust, o) == 0)
  }

  /** A run; what is not possible is not taken. */
  ghost function Run(net: Network, w: World, steps: seq<Step>): World {
    if steps == [] then w
    else
      var v, step := Run(net, w, steps[..|steps| - 1]), steps[|steps| - 1];
      if Possible(net, v, step) then Do(net, v, step) else v
  }
}
