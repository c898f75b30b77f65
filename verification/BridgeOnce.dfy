/** No deposit is paid twice: over every run, on every registry, whatever else goes wrong. */
module BridgeOnce {
  import opened Header
  import opened ReceiptParser
  import opened BridgeSpec
  import opened BridgeEvents
  import opened BridgeNetwork
  import opened BridgeInvariant
  import opened BridgeSteps

  /** Nonces in the log were given out by the bridge that is named there. */
  ghost predicate NoncesGiven(w: World) {
    forall j: nat :: j < |w.log| ==> NonceGiven(w.chains, w.log[j])
  }

  predicate NonceGiven(chains: seq<State>, e: Entry) {
    e.source < |chains| && e.deposit.nonce < chains[e.source].nonce
  }

  /** The part of the invariant that needs no closed registry. */
  ghost predicate OnceInv(net: Network, w: World) {
    && |w.chains| == |net.sites| && NoncesGiven(w) && NoncesUnique(w.log)
    && PaymentsOk(net, w) && PaidOnce(w.payments)
  }

  lemma InitialOnce(net: Network, w: World)
    requires Initial(net, w)
    ensures OnceInv(net, w)
  {
  }

  // ---------- steps ----------

  /** A deposit gives out the next nonce and uses up no receipt. */
  predicate GivesNonce(s: State, e: Emitted) {
    e.state.used == s.used && e.state.nonce == s.nonce + 1 && e.deposit.nonce == s.nonce
  }

  lemma TokenGivesNonce(site: Site, s: State, registry: Registry, allowance: nat, sender: Address, token: Address,
                        toChain: nat, to: Address, amount: nat)
    ensures var r := DepositToken(site, s, registry, allowance, sender, token, toChain, to, amount);
      r.Ok? ==> GivesNonce(s, r.value)
  {
    if ChainClaimed(site, s, token) != 0 {
      PeggedGivesNonce(site, s, registry, sender, token, toChain, to, amount);
    }
  }

  lemma PeggedGivesNonce(site: Site, s: State, registry: Registry, sender: Address, token: Address, toChain: nat,
                         to: Address, amount: nat)
    requires token in s.ledger.pegged || token in s.ledger.erc20
    ensures var r := DepositPegged(site, s, registry, sender, token, toChain, to, amount);
      r.Ok? ==> GivesNonce(s, r.value)
  {
  }

  lemma DepositGivesNonce(net: Network, w: World, step: Step)
    requires step.NativeDeposit? || step.TokenDeposit?
    requires step.chain < |net.sites| == |w.chains| && DepositOf(net, w, step).Ok?
    ensures GivesNonce(w.chains[step.chain], DepositOf(net, w, step).value)
  {
    if step.TokenDeposit? {
      TokenGivesNonce(net.sites[step.chain], w.chains[step.chain], step.registry, step.allowance, step.sender,
                      step.token, step.toChain, step.to, step.amount);
    }
  }

  /** Chain i keeps its nonces and its used receipts; other chains stay. */
  lemma NoncesStay(w: World, w': World, i: nat, s: State)
    requires NoncesGiven(w) && i < |w.chains| && w'.chains == w.chains[i := s] && w'.log == w.log
    requires w.chains[i].nonce <= s.nonce
    ensures NoncesGiven(w')
  {
    forall j: nat | j < |w'.log|
      ensures NonceGiven(w'.chains, w'.log[j])
    {
      assert NonceGiven(w.chains, w.log[j]);
    }
  }

  lemma LoggedNonces(w: World, i: nat, e: Emitted, rc: Receipt)
    requires NoncesGiven(w) && NoncesUnique(w.log) && i < |w.chains| && GivesNonce(w.chains[i], e)
    ensures NoncesGiven(Logged(w, i, e, rc)) && NoncesUnique(Logged(w, i, e, rc).log)
  {
    var w' := Logged(w, i, e, rc);
    forall j: nat | j < |w'.log|
      ensures NonceGiven(w'.chains, w'.log[j])
    {
      assert j < |w.log| ==> NonceGiven(w.chains, w.log[j]);
    }
    forall j: nat | j < |w.log| && w.log[j].source == i
      ensures w.log[j].deposit.nonce < e.deposit.nonce
    {
      assert NonceGiven(w.chains, w.log[j]);
    }
    NewNonce(w.log, Entry(i, e.deposit, rc));
  }

  lemma DepositKeepsOnce(net: Network, w: World, step: Step)
    requires OnceInv(net, w) && Possible(net, w, step) && (step.NativeDeposit? || step.TokenDeposit?)
    ensures OnceInv(net, Do(net, w, step))
  {
    var r := DepositOf(net, w, step);
    if r.Ok? {
      DepositGivesNonce(net, w, step);
      LoggedNonces(w, step.chain, r.value, step.receipt);
      PaymentsGrow(net, w, step.chain, r.value.state, [Entry(step.chain, r.value.deposit, step.receipt)]);
    }
  }

  /** What goes through uses up its receipt, keeps the nonce, and is read alone. */
  lemma UsesReceipt(net: Network, i: nat, s: State, registry: Registry, rc: Receipt, hub: HubVerdict, accepts: bool)
    requires i < |net.sites| && WithdrawOn(net, i, s, registry, rc, hub, accepts).Ok?
    ensures HashOf(net, rc) !in s.used && |Deposits(EventsAt(net, i), rc.logs)| == 1
    ensures var s' := WithdrawOn(net, i, s, registry, rc, hub, accepts).value;
      s'.used == s.used + {HashOf(net, rc)} && s'.nonce == s.nonce
    ensures ReceiptDeposit(EventsAt(net, i), rc).Ok?
    ensures ReceiptDeposit(EventsAt(net, i), rc).value.chainId == net.sites[i].chainId
  {
    ReceiptWithdrawn(net.sites[i], s, registry, EventsAt(net, i), rc, HashOf(net, rc), hub, accepts);
    ProofIsUsedUp(net.sites[i], s, registry, ReceiptDeposit(EventsAt(net, i), rc).value, HashOf(net, rc), hub, accepts);
    SaysOne(EventsAt(net, i), rc);
  }

  /** The payment of an entry, as a step of the log. */
  lemma PaymentKeepsOnce(net: Network, w: World, i: nat, j: nat, s': State)
    requires SoundNetwork(net) && OnceInv(net, w) && i < |w.chains| && j < |w.log|
    requires w.log[j].deposit.chainId == net.sites[i].chainId
    requires HashOf(net, w.log[j].receipt) !in w.chains[i].used
    requires |Deposits(EventsAt(net, i), w.log[j].receipt.logs)| == 1
    requires s'.used == w.chains[i].used + {HashOf(net, w.log[j].receipt)} && s'.nonce == w.chains[i].nonce
    ensures OnceInv(net, Paid(net, w, i, j, s'))
  {
    PaidAccounts(net, w, i, j, s', 0);
    NotPaidYet(net, w, i, j);
    NoncesStay(w, Paid(net, w, i, j, s'), i, s');
    PaymentAdded(net, w, i, j, s');
  }

  lemma WithdrawalKeepsOnce(net: Network, w: World, step: Step)
    requires SoundNetwork(net) && OnceInv(net, w) && Possible(net, w, step) && step.Withdrawal?
    ensures OnceInv(net, Do(net, w, step))
  {
    var i, j := step.chain, step.entry;
    var r := WithdrawOn(net, i, w.chains[i], step.registry, step.receipt, step.hub, step.accepts);
    if r.Ok? {
      UsesReceipt(net, i, w.chains[i], step.registry, step.receipt, step.hub, step.accepts);
      if SaysOurs(net, i, step.registry, step.receipt, step.hub) {
        PaymentKeepsOnce(net, w, i, j, r.value);
      } else {
        NoncesStay(w, Do(net, w, step), i, r.value);
        PaymentsStay(net, w, Do(net, w, step), i, r.value);
      }
    }
  }

  lemma OthersKeepOnce(net: Network, w: World, step: Step)
    requires OnceInv(net, w) && Possible(net, w, step) && step.Others?
    ensures OnceInv(net, Do(net, w, step))
  {
    var s := w.chains[step.chain].(ledger := step.ledger);
    NoncesStay(w, Do(net, w, step), step.chain, s);
    PaymentsStay(net, w, Do(net, w, step), step.chain, s);
  }

  lemma StepKeepsOnce(net: Network, w: World, step: Step)
    requires SoundNetwork(net) && OnceInv(net, w) && Possible(net, w, step)
    ensures OnceInv(net, Do(net, w, step))
  {
    match step
    case NativeDeposit(_, _, _, _, _, _, _) => DepositKeepsOnce(net, w, step);
    case TokenDeposit(_, _, _, _, _, _, _, _, _) => DepositKeepsOnce(net, w, step);
    case Withdrawal(_, _, _, _, _, _) => WithdrawalKeepsOnce(net, w, step);
    case Others(_, _) => OthersKeepOnce(net, w, step);
  }

  lemma {:induction false} RunKeepsOnce(net: Network, w: World, steps: seq<Step>)
    requires SoundNetwork(net) && OnceInv(net, w)
    ensures OnceInv(net, Run(net, w, steps))
  {
    if steps != [] {
      var n := |steps| - 1;
      RunKeepsOnce(net, w, steps[..n]);
      var v := Run(net, w, steps[..n]);
      if Possible(net, v, steps[n]) {
        StepKeepsOnce(net, v, steps[n]);
      }
    }
  }

  // ---------- the result ----------

  /** The deposit is for this chain, and its receipt says nothing else there. */
  predicate PaidAlone(net: Network, i: nat, e: Entry)
    requires i < |net.sites|
  {
    net.sites[i].chainId == e.deposit.chainId && |Deposits(EventsAt(net, i), e.receipt.logs)| == 1
  }

  /** No double payment: over every run, on whatever registries, the map from payments to deposits is
      injective, also when deposits are told apart by bridge and nonce only; every payment was made on the
      chain that the deposit names, and no other log of its receipt is recognised there. */
  lemma NoDoublePayment(net: Network, w: World, steps: seq<Step>)
    requires SoundNetwork(net) && Initial(net, w)
    ensures var v := Run(net, w, steps);
      && PaidOnce(v.payments)
      && (forall k: nat :: k < |v.payments| ==>
            v.payments[k].entry < |v.log| && v.payments[k].chain < |net.sites| &&
            PaidAlone(net, v.payments[k].chain, v.log[v.payments[k].entry]))
      && (forall a: nat, b: nat :: a < b < |v.payments| ==>
            v.log[v.payments[a].entry].source != v.log[v.payments[b].entry].source ||
            v.log[v.payments[a].entry].deposit.nonce != v.log[v.payments[b].entry].deposit.nonce)
  {
    InitialOnce(net, w);
    RunKeepsOnce(net, w, steps);
    var v := Run(net, w, steps);
    forall k: nat | k < |v.payments|
      ensures PaymentOk(net, v, v.payments[k]) && PaidAlone(net, v.payments[k].chain, v.log[v.payments[k].entry])
    {
      assert PaymentOk(net, v, v.payments[k]);
    }
  }
}
