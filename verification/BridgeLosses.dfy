/** Deposits that are never paid: two for one chain in a transaction, and burns on another chain. */
module BridgeLosses {
  import opened ReceiptParser
  import opened BridgeSpec
  import opened BridgeEvents
  import opened BridgeNetwork
  import opened BridgeInvariant
  import opened BridgeSteps
  import opened BridgeOnce
  import opened BridgeRuns
  import opened Wrappers

  /** A withdrawal that pays a deposit of the network. */
  ghost predicate Pays(net: Network, w: World, step: Step) {
    step.Withdrawal? && step.chain < |net.sites| == |w.chains| &&
    WithdrawOn(net, step.chain, w.chains[step.chain], step.registry, step.receipt, step.hub, step.accepts).Ok? &&
    SaysOurs(net, step.chain, step.registry, step.receipt, step.hub)
  }

  /** It pays its entry, whose receipt says this deposit alone on the chain, and which the hub accepts under
      the chain that it names as its origin's. */
  lemma PaysEntry(net: Network, w: World, step: Step)
    requires Possible(net, w, step) && Pays(net, w, step)
    ensures step.entry < |w.log| && w.log[step.entry].receipt == step.receipt
    ensures w.log[step.entry].deposit.chainId == net.sites[step.chain].chainId
    ensures |Deposits(EventsAt(net, step.chain), step.receipt.logs)| == 1
    ensures PassesAsOurs(net, step.registry, w.log[step.entry].deposit, step.hub)
    ensures Do(net, w, step).log == w.log
    ensures Do(net, w, step).payments == w.payments + [Payment(step.entry, step.chain)]
  {
    var i, j := step.chain, step.entry;
    var s' := WithdrawOn(net, i, w.chains[i], step.registry, step.receipt, step.hub, step.accepts).value;
    SaysOne(EventsAt(net, i), step.receipt);
    assert Do(net, w, step) == Paid(net, w, i, j, s');
    PaidAccounts(net, w, i, j, s', 0);
  }

  /** Every other step pays no deposit. */
  lemma PaysNothing(net: Network, w: World, step: Step)
    requires Possible(net, w, step) && !Pays(net, w, step)
    ensures w.log <= Do(net, w, step).log && Do(net, w, step).payments == w.payments
  {
  }

  /** The log only grows. */
  lemma {:induction false} LogStays(net: Network, w: World, steps: seq<Step>)
    ensures w.log <= Run(net, w, steps).log
  {
    if steps != [] {
      var n := |steps| - 1;
      LogStays(net, w, steps[..n]);
      var v := Run(net, w, steps[..n]);
      if Possible(net, v, steps[n]) {
        if Pays(net, v, steps[n]) {
          PaysEntry(net, v, steps[n]);
        } else {
          PaysNothing(net, v, steps[n]);
        }
      }
    }
  }

  // ---------- deposits that share a receipt ----------

  /** No run goes on to pay the deposit. */
  ghost predicate NeverPaid(net: Network, w: World, j: nat) {
    forall steps :: !IsPaid(Run(net, w, steps).payments, j)
  }

  /** The deposit is for chain i, and the number of logs of its receipt that are recognised there is not one. */
  predicate Crowded(net: Network, i: nat, e: Entry)
    requires i < |net.sites|
  {
    e.deposit.chainId == net.sites[i].chainId && |Deposits(EventsAt(net, i), e.receipt.logs)| != 1
  }

  lemma CrowdedIsNotPaidNow(net: Network, w: World, step: Step, i: nat, j: nat)
    requires Possible(net, w, step) && i < |net.sites| && j < |w.log| && Crowded(net, i, w.log[j])
    requires !IsPaid(w.payments, j)
    ensures !IsPaid(Do(net, w, step).payments, j)
  {
    if Pays(net, w, step) {
      PaysEntry(net, w, step);
      assert EventsAt(net, i).chainId == w.log[j].deposit.chainId;
      IsPaidStep(w.payments, Payment(step.entry, step.chain), j);
    } else {
      PaysNothing(net, w, step);
    }
  }

  /** In no run at all, on no registry, is an unpaid deposit paid if another log of its receipt is recognised
      on its chain, whoever emitted it. */
  lemma {:induction false} CrowdedRun(net: Network, w: World, steps: seq<Step>, i: nat, j: nat)
    requires i < |net.sites| && j < |w.log| && Crowded(net, i, w.log[j]) && !IsPaid(w.payments, j)
    ensures !IsPaid(Run(net, w, steps).payments, j)
    decreases |steps|
  {
    if steps != [] {
      var n := |steps| - 1;
      CrowdedRun(net, w, steps[..n], i, j);
      LogStays(net, w, steps[..n]);
      var v := Run(net, w, steps[..n]);
      assert v.log[j] == w.log[j];
      if Possible(net, v, steps[n]) {
        CrowdedIsNotPaidNow(net, v, steps[n], i, j);
      }
    }
  }

  lemma CrowdedIsNeverPaid(net: Network, w: World, i: nat, j: nat)
    requires i < |net.sites| && j < |w.log| && Crowded(net, i, w.log[j]) && !IsPaid(w.payments, j)
    ensures NeverPaid(net, w, j)
  {
    forall steps
      ensures !IsPaid(Run(net, w, steps).payments, j)
    {
      CrowdedRun(net, w, steps, i, j);
    }
  }

  /** The receipt of a transaction with these two events. */
  function PairReceipt(net: Network, i: nat, d: Deposit, e: Deposit): Receipt
    requires i < |net.sites|
  {
    Receipt([1], 0, [], [EventLog(EventsAt(net, i), d), EventLog(EventsAt(net, i), e)])
  }

  predicate IsDeposit(step: Step) {
    step.NativeDeposit? || step.TokenDeposit?
  }

  function WithReceipt(step: Step, rc: Receipt): Step
    requires IsDeposit(step)
  {
    match step
    case NativeDeposit(i, registry, sender, toChain, to, amount, _) =>
      NativeDeposit(i, registry, sender, toChain, to, amount, rc)
    case TokenDeposit(i, registry, allowance, sender, token, toChain, to, amount, _) =>
      TokenDeposit(i, registry, allowance, sender, token, toChain, to, amount, rc)
  }

  /** The deposit can be made, but for its receipt. */
  ghost predicate MayDeposit(net: Network, step: Step) {
    && IsDeposit(step) && step.chain < |net.sites| && Consistent(net, step.registry)
    && (step.NativeDeposit? ==> step.sender != net.sites[step.chain].self)
  }

  /** What a deposit does to the state and emits does not depend on its receipt, nor on the log. */
  lemma EmitsAlike(net: Network, w: World, v: World, step: Step, rc: Receipt)
    requires IsDeposit(step) && step.chain < |net.sites| == |w.chains| == |v.chains|
    requires w.chains[step.chain] == v.chains[step.chain]
    ensures DepositOf(net, v, WithReceipt(step, rc)) == DepositOf(net, w, step)
  {
  }

  /** The world after the deposit's call, before its transaction ends. */
  function Midway(net: Network, w: World, e: Emitted, i: nat): World
    requires i < |w.chains|
  {
    w.(chains := w.chains[i := e.state])
  }

  /** Two deposits of any kind and by anyone on one chain, for the same chain: both calls succeed, one after
      the other, and their values fit. */
  ghost predicate CanDepositTwice(net: Network, w: World, one: Step, two: Step, e1: Emitted, e2: Emitted) {
    && |net.sites| == |w.chains| && MayDeposit(net, one) && MayDeposit(net, two) && one.chain == two.chain
    && DepositOf(net, w, one) == Ok(e1) && Fits(e1.deposit)
    && DepositOf(net, Midway(net, w, e1, one.chain), two) == Ok(e2) && Fits(e2.deposit)
    && e1.deposit.chainId == e2.deposit.chainId
  }

  /** Two more deposits for the chain are logged, with one receipt. */
  predicate PairLogged(w: World, w2: World, toChain: nat, rc: Receipt) {
    && |w2.log| == |w.log| + 2 && w.log <= w2.log && w2.payments == w.payments
    && w2.log[|w.log|].receipt == w2.log[|w.log| + 1].receipt == rc
    && w2.log[|w.log|].deposit.chainId == w2.log[|w.log| + 1].deposit.chainId == toChain
  }

  lemma PairIsReceipted(net: Network, i: nat, d: Deposit, e: Deposit)
    requires i < |net.sites| && Fits(d) && Fits(e)
    ensures InReceipt(EventsAt(net, i), d, PairReceipt(net, i, d, e))
    ensures InReceipt(EventsAt(net, i), e, PairReceipt(net, i, d, e))
  {
  }

  /** A deposit with the right receipt is taken. */
  lemma DepositIsTaken(net: Network, w: World, v: World, step: Step, e: Emitted, rc: Receipt)
    requires MayDeposit(net, step) && |net.sites| == |w.chains| == |v.chains|
    requires w.chains[step.chain] == v.chains[step.chain]
    requires DepositOf(net, w, step) == Ok(e) && InReceipt(EventsAt(net, step.chain), e.deposit, rc)
    ensures Possible(net, v, WithReceipt(step, rc))
    ensures Do(net, v, WithReceipt(step, rc)) == Logged(v, step.chain, e, rc)
  {
    EmitsAlike(net, w, v, step, rc);
  }

  lemma PairIsCrowded(net: Network, i: nat, k: nat, d: Deposit, e: Deposit, rc: Receipt)
    requires i < |net.sites| && k < |net.sites| && net.locked != net.burned && d.nonce != e.nonce
    requires InReceipt(EventsAt(net, i), d, rc) && InReceipt(EventsAt(net, i), e, rc)
    requires d.chainId == e.chainId == net.sites[k].chainId
    ensures rc.status == [1] && |Deposits(EventsAt(net, k), rc.logs)| > 1
  {
    SameEvent(net, k, i, d, rc);
    SameEvent(net, k, i, e, rc);
    TwoDepositsRevert(EventsAt(net, k), d, e, rc);
  }

  lemma CrowdedReverts(net: Network, k: nat, rc: Receipt)
    requires k < |net.sites| && rc.status == [1] && |Deposits(EventsAt(net, k), rc.logs)| > 1
    ensures forall s: State, registry: Registry, hub: HubVerdict, accepts: bool ::
      WithdrawOn(net, k, s, registry, rc, hub, accepts) == Revert("multiple logs")
  {
  }

  lemma PairCrowds(net: Network, w: World, one: Step, two: Step, e1: Emitted, e2: Emitted, k: nat, rc: Receipt)
    requires net.locked != net.burned && CanDepositTwice(net, w, one, two, e1, e2) && k < |net.sites|
    requires net.sites[k].chainId == e1.deposit.chainId
    requires rc == PairReceipt(net, one.chain, e1.deposit, e2.deposit)
    ensures InReceipt(EventsAt(net, one.chain), e1.deposit, rc) && InReceipt(EventsAt(net, one.chain), e2.deposit, rc)
    ensures rc.status == [1] && |Deposits(EventsAt(net, k), rc.logs)| > 1
  {
    DepositGivesNonce(net, w, one);
    DepositGivesNonce(net, Midway(net, w, e1, one.chain), two);
    PairIsReceipted(net, one.chain, e1.deposit, e2.deposit);
    PairIsCrowded(net, one.chain, k, e1.deposit, e2.deposit, rc);
  }

  lemma PairIsDeposited(net: Network, w: World, one: Step, two: Step, e1: Emitted, e2: Emitted, rc: Receipt)
    returns (w1: World, w2: World)
    requires CanDepositTwice(net, w, one, two, e1, e2)
    requires InReceipt(EventsAt(net, one.chain), e1.deposit, rc) && InReceipt(EventsAt(net, one.chain), e2.deposit, rc)
    ensures Possible(net, w, WithReceipt(one, rc)) && w1 == Do(net, w, WithReceipt(one, rc))
    ensures Possible(net, w1, WithReceipt(two, rc)) && w2 == Do(net, w1, WithReceipt(two, rc))
    ensures PairLogged(w, w2, e1.deposit.chainId, rc)
  {
    DepositIsTaken(net, w, w, one, e1, rc);
    w1 := Logged(w, one.chain, e1, rc);
    DepositIsTaken(net, Midway(net, w, e1, one.chain), w1, two, e2, rc);
    w2 := Logged(w1, one.chain, e2, rc);
  }

  /** Two deposits for one chain in one transaction, whatever is deposited and whoever sends it: both succeed
      and are logged. Their receipt reverts on that chain for every state of the bridge, every registry and
      every verdict of the hub, and no run, on whatever registries, pays either. */
  lemma TwoInOneTransaction(net: Network, w: World, one: Step, two: Step, e1: Emitted, e2: Emitted, k: nat)
    returns (rc: Receipt, w1: World, w2: World)
    requires net.locked != net.burned && CanDepositTwice(net, w, one, two, e1, e2) && PaymentsOk(net, w)
    requires k < |net.sites| && net.sites[k].chainId == e1.deposit.chainId
    ensures Possible(net, w, WithReceipt(one, rc)) && w1 == Do(net, w, WithReceipt(one, rc))
    ensures Possible(net, w1, WithReceipt(two, rc)) && w2 == Do(net, w1, WithReceipt(two, rc))
    ensures PairLogged(w, w2, e1.deposit.chainId, rc)
    ensures forall s: State, registry: Registry, hub: HubVerdict, accepts: bool ::
      WithdrawOn(net, k, s, registry, rc, hub, accepts) == Revert("multiple logs")
    ensures NeverPaid(net, w2, |w.log|) && NeverPaid(net, w2, |w.log| + 1)
  {
    rc := PairReceipt(net, one.chain, e1.deposit, e2.deposit);
    PairCrowds(net, w, one, two, e1, e2, k, rc);
    w1, w2 := PairIsDeposited(net, w, one, two, e1, e2, rc);
    CrowdedReverts(net, k, rc);
    PairStaysUnpaid(net, w, w2, k, rc);
  }

  lemma PairStaysUnpaid(net: Network, w: World, w2: World, k: nat, rc: Receipt)
    requires |net.sites| == |w.chains| && PaymentsOk(net, w) && k < |net.sites|
    requires PairLogged(w, w2, net.sites[k].chainId, rc) && |Deposits(EventsAt(net, k), rc.logs)| > 1
    ensures NeverPaid(net, w2, |w.log|) && NeverPaid(net, w2, |w.log| + 1)
  {
    PaymentsAreLogged(net, w);
    CrowdedIsNeverPaid(net, w2, k, |w.log|);
    CrowdedIsNeverPaid(net, w2, k, |w.log| + 1);
  }

  lemma PaymentsAreLogged(net: Network, w: World)
    requires |w.chains| == |net.sites| && PaymentsOk(net, w)
    ensures forall p :: p in w.payments ==> p.entry < |w.log|
  {
    forall p | p in w.payments
      ensures p.entry < |w.log|
    {
      var k :| 0 <= k < |w.payments| && w.payments[k] == p;
      assert PaymentOk(net, w, w.payments[k]);
    }
  }

  // ---------- burns on another chain ----------

  /** What the hub accepts under a chain of the network is the receipt of a transaction on that chain. */
  ghost predicate HonestHub(net: Network, w: World, step: Step) {
    step.Withdrawal? && step.entry < |w.log| && w.log[step.entry].receipt == step.receipt ==>
      forall k: nat :: k < |net.sites| && step.hub(net.sites[k].chainId) == Ok(true) ==> w.log[step.entry].source == k
  }

  /** The hub is honest throughout the run. */
  ghost predicate HonestRun(net: Network, w: World, steps: seq<Step>) {
    steps == [] ||
    var n := |steps| - 1;
    HonestRun(net, w, steps[..n]) && HonestHub(net, Run(net, w, steps[..n]), steps[n])
  }

  /** The deposit was made on the chain that it names as its origin's. */
  predicate MadeWhereNamed(net: Network, e: Entry) {
    e.source < |net.sites| && net.sites[e.source].chainId == e.deposit.metadata.fromChain
  }

  ghost predicate OnlyNamedPaid(net: Network, w: World) {
    && (forall p :: p in w.payments ==> p.entry < |w.log|)
    && (forall j: nat :: j < |w.log| && IsPaid(w.payments, j) ==> MadeWhereNamed(net, w.log[j]))
  }

  /** A deposit that an honest hub lets through was made on the chain it names. */
  lemma PassesFromNamed(net: Network, w: World, step: Step)
    requires step.Withdrawal? && HonestHub(net, w, step) && step.entry < |w.log|
    requires w.log[step.entry].receipt == step.receipt
    requires PassesAsOurs(net, step.registry, w.log[step.entry].deposit, step.hub)
    ensures MadeWhereNamed(net, w.log[step.entry])
  {
    var k: nat :| k < |net.sites| && net.sites[k].chainId == w.log[step.entry].deposit.metadata.fromChain;
    assert w.log[step.entry].source == k;
  }

  lemma StepPaysNamed(net: Network, w: World, step: Step)
    requires Possible(net, w, step) && HonestHub(net, w, step) && OnlyNamedPaid(net, w)
    ensures OnlyNamedPaid(net, Do(net, w, step))
  {
    if Pays(net, w, step) {
      PaysEntry(net, w, step);
      PassesFromNamed(net, w, step);
      OneMorePaid(net, w, Do(net, w, step), Payment(step.entry, step.chain));
    } else {
      PaysNothing(net, w, step);
      NoMorePaid(net, w, Do(net, w, step));
    }
  }

  lemma OneMorePaid(net: Network, w: World, w': World, p: Payment)
    requires OnlyNamedPaid(net, w) && w'.log == w.log && w'.payments == w.payments + [p]
    requires p.entry < |w.log| && MadeWhereNamed(net, w.log[p.entry])
    ensures OnlyNamedPaid(net, w')
  {
    forall j: nat | j < |w'.log| && IsPaid(w'.payments, j)
      ensures MadeWhereNamed(net, w'.log[j])
    {
      IsPaidStep(w.payments, p, j);
    }
  }

  lemma NoMorePaid(net: Network, w: World, w': World)
    requires OnlyNamedPaid(net, w) && w.log <= w'.log && w'.payments == w.payments
    ensures OnlyNamedPaid(net, w')
  {
    forall j: nat | j < |w'.log| && IsPaid(w'.payments, j)
      ensures MadeWhereNamed(net, w'.log[j])
    {
      assert w'.log[j] == w.log[j];
    }
  }

  /** With an honest hub, over every run on whatever registries, only deposits made on the chain that they name
      as their origin's are ever paid. */
  lemma {:induction false} OnlyNamedChainsPay(net: Network, w: World, steps: seq<Step>)
    requires OnlyNamedPaid(net, w) && HonestRun(net, w, steps)
    ensures OnlyNamedPaid(net, Run(net, w, steps))
  {
    if steps != [] {
      var n := |steps| - 1;
      OnlyNamedChainsPay(net, w, steps[..n]);
      var v := Run(net, w, steps[..n]);
      if Possible(net, v, steps[n]) {
        StepPaysNamed(net, v, steps[n]);
      }
    }
  }

  /** The deposit was made on the home chain of its origin. */
  predicate MadeAtHome(net: Network, e: Entry) {
    e.deposit.metadata.origin in net.origins && e.source == net.origins[e.deposit.metadata.origin].home
  }

  /** On closed registries that chain is the home chain of the origin. */
  lemma OnlyHomeDepositsArePaid(net: Network, w: World, steps: seq<Step>)
    requires SoundNetwork(net) && Inv(net, w) && OnlyNamedPaid(net, w)
    requires AllClosed(net, steps) && HonestRun(net, w, steps)
    ensures var v := Run(net, w, steps);
      forall j: nat :: j < |v.log| && IsPaid(v.payments, j) ==> MadeAtHome(net, v.log[j])
  {
    var v := Run(net, w, steps);
    RunKeepsInv(net, w, steps);
    OnlyNamedChainsPay(net, w, steps);
    forall j: nat | j < |v.log| && IsPaid(v.payments, j)
      ensures MadeAtHome(net, v.log[j])
    {
      assert MadeWhereNamed(net, v.log[j]);
      assert EntryOk(net, v.chains, v.log[j]);
    }
  }

  /** So a deployed token that is burned on a chain other than the one it names is lost: the deposit succeeds,
      and no run with an honest hub pays it. */
  lemma BurnAbroadIsLost(net: Network, w: World, step: Step)
    requires OnlyNamedPaid(net, w) && Possible(net, w, step)
    requires step.TokenDeposit? && step.token in w.chains[step.chain].ledger.pegged
    requires step.token != net.sites[step.chain].native.origin
    requires w.chains[step.chain].ledger.pegged[step.token].originChain !in {0, net.sites[step.chain].chainId}
    requires DepositOf(net, w, step).Ok?
    ensures |Do(net, w, step).log| == |w.log| + 1
    ensures forall steps :: HonestRun(net, Do(net, w, step), steps) ==>
      !IsPaid(Run(net, Do(net, w, step), steps).payments, |w.log|)
  {
    StepPaysNamed(net, w, step);
    BurnIsForeign(net, w, step);
    ForeignIsNeverPaid(net, Do(net, w, step), |w.log|);
  }

  /** A deposit that was not made where it names its origin is not paid by any run with an honest hub. */
  lemma ForeignIsNeverPaid(net: Network, w: World, j: nat)
    requires OnlyNamedPaid(net, w) && j < |w.log| && !MadeWhereNamed(net, w.log[j])
    ensures forall steps :: HonestRun(net, w, steps) ==> !IsPaid(Run(net, w, steps).payments, j)
  {
    forall steps | HonestRun(net, w, steps)
      ensures !IsPaid(Run(net, w, steps).payments, j)
    {
      OnlyNamedChainsPay(net, w, steps);
      LogStays(net, w, steps);
      assert Run(net, w, steps).log[j] == w.log[j];
    }
  }

  lemma BurnIsForeign(net: Network, w: World, step: Step)
    requires Possible(net, w, step) && step.TokenDeposit? && step.token in w.chains[step.chain].ledger.pegged
    requires step.token != net.sites[step.chain].native.origin
    requires w.chains[step.chain].ledger.pegged[step.token].originChain !in {0, net.sites[step.chain].chainId}
    requires DepositOf(net, w, step).Ok?
    ensures |Do(net, w, step).log| == |w.log| + 1 && !MadeWhereNamed(net, Do(net, w, step).log[|w.log|])
  {
    BurnNamesOrigin(net, w, step);
  }

  lemma BurnNamesOrigin(net: Network, w: World, step: Step)
    requires step.TokenDeposit? && step.chain < |net.sites| == |w.chains|
    requires step.token in w.chains[step.chain].ledger.pegged
    requires step.token != net.sites[step.chain].native.origin
    requires w.chains[step.chain].ledger.pegged[step.token].originChain != 0 && DepositOf(net, w, step).Ok?
    ensures DepositOf(net, w, step).value.deposit.metadata.fromChain ==
      w.chains[step.chain].ledger.pegged[step.token].originChain
  {
    BurnMetadata(net.sites[step.chain], w.chains[step.chain], step);
  }

  lemma BurnMetadata(site: Site, s: State, step: Step)
    requires step.TokenDeposit? && step.token in s.ledger.pegged
    requires DepositDeployed(site, s, step.registry, step.sender, step.token, step.toChain, step.to, step.amount).Ok?
    ensures DepositDeployed(site, s, step.registry, step.sender, step.token, step.toChain, step.to,
                            step.amount).value.deposit.metadata.fromChain == s.ledger.pegged[step.token].originChain
  {
  }
}
