/** How much of the order a session signs away, over every interleaving. */
module BudgetRuns {
  import opened Sums
  import opened FillAmounts
  import opened SwapSession
  import opened SigningRuns

  /** The resolvers' plan: a percentage for each destination escrow. */
  type Plan = map<string, real>

  function Share(plan: Plan, id: string): real {
    if id in plan then plan[id] else 0.0
  }

  ghost function PlanTotal(plan: Plan): real {
    SumRealsOver(plan.Keys, id => Share(plan, id))
  }

  /** The event is a partial fill with the positive percentage that the plan gives its escrow. */
  predicate Planned(plan: Plan, e: DestinationEvent) {
    e.isPartialFill && e.escrowId in plan && e.fillPercentage == plan[e.escrowId] && e.fillPercentage > 0.0
  }

  /** A destination event of this order on the Ethereum side, the kind that makes an APT session sign. */
  predicate Concerns(order: Order, e: DestinationEvent) {
    e.orderId == order.orderId && e.chain.Ethereum?
  }

  /** Every such event delivered follows the plan; duplicates and order are free. */
  ghost predicate DeliveriesPlanned(order: Order, plan: Plan, actions: seq<Action>) {
    forall k :: 0 <= k < |actions| && actions[k].DeliverDestination? && Concerns(order, actions[k].event) ==>
      Planned(plan, actions[k].event)
  }

  predicate TaskPlanned(order: Order, plan: Plan, task: Task) {
    && (task.DestinationLogged? && task.event.chain.Ethereum? ==> Planned(plan, task.event))
    && (IsSigning(task) ==> Planned(plan, EventOf(task)))
    && (AsksWallet(task) || task.WalletSigned? ==> task.tx.amount == AmountFor(order, task.tx.event))
    && (task.PontemAsked? ==> Planned(plan, task.payload.event) && task.payload.amount == order.fromAmount)
  }

  /** The transaction is for a planned event and carries that event's share of the order. */
  predicate CarriesShare(order: Order, plan: Plan, tx: SourceEscrow) {
    Planned(plan, tx.event) && tx.amount == AmountFor(order, tx.event)
  }

  ghost predicate AllPlanned(order: Order, plan: Plan, s: Session) {
    && (forall t :: t in s.pending ==> TaskPlanned(order, plan, s.pending[t]))
    && (forall i :: 0 <= i < |s.signedTxs| ==> CarriesShare(order, plan, s.signedTxs[i]))
    && (forall i :: 0 <= i < |s.pontemTxs| ==>
          Planned(plan, s.pontemTxs[i].event) && s.pontemTxs[i].amount == order.fromAmount)
    && (forall i :: 0 <= i < |s.outbox| && s.outbox[i].SignedSponsored? ==> CarriesShare(order, plan, s.outbox[i].tx))
  }

  lemma {:induction false} SpawnKeepsPlan(order: Order, plan: Plan, s: Session, task: Task)
    requires AllPlanned(order, plan, s) && TaskPlanned(order, plan, task)
    ensures AllPlanned(order, plan, s.Spawn(task))
  {
    hide TaskPlanned, Planned, AmountFor;
  }

  lemma {:induction false} DropKeepsPlan(order: Order, plan: Plan, s: Session, t: nat)
    requires AllPlanned(order, plan, s) && t in s.pending
    ensures AllPlanned(order, plan, s.Drop(t)) && TaskPlanned(order, plan, s.pending[t])
  {
    hide TaskPlanned, Planned, AmountFor;
  }

  lemma {:induction false} SamePlan(order: Order, plan: Plan, s: Session, s': Session)
    requires AllPlanned(order, plan, s) && s'.pending == s.pending && s'.signedTxs == s.signedTxs
    requires s'.pontemTxs == s.pontemTxs && s'.outbox == s.outbox
    ensures AllPlanned(order, plan, s')
  {
    hide TaskPlanned, Planned, AmountFor;
  }

  lemma {:induction false} ContinueKeepsPlan(order: Order, plan: Plan, d: Session, task: Task)
    requires AllPlanned(order, plan, d) && TaskPlanned(order, plan, task)
    ensures AllPlanned(order, plan, Continue(order, d, task))
  {
    hide Planned, AmountFor, AllPlanned;
    match task
    case DestinationLogged(e) =>
      if order.fromChain.Aptos? && e.chain.Ethereum? && e.escrowId !in d.createdEscrows {
        var d' := d.(createdEscrows := d.createdEscrows + {e.escrowId}, intentTimelock := e.timelock);
        SamePlan(order, plan, d, d');
        SpawnKeepsPlan(order, plan, d', SignTimer(e));
      } else if order.fromChain.Ethereum? && e.chain.Aptos? {
        SpawnKeepsPlan(order, plan, d, WethTimer(e, AmountFor(order, e)));
      }
    case SignTimer(e) => SpawnKeepsPlan(order, plan, d, SignStarted(e));
    case SignStarted(e) => SpawnKeepsPlan(order, plan, d, Built(BuildTx(order, d, e)));
    case Built(tx) => SignKeepsPlan(order, plan, d, tx);
    case PontemAsked(tx, payload) =>
      PontemSignKeepsPlan(order, plan, d, payload);
      AskOthersKeepsPlan(order, plan, d.(pontemTxs := d.pontemTxs + [payload]), tx);
    case PetraAsked(tx) => SignKeepsPlan(order, plan, d, tx);
    case RiseAsked(tx) => SignKeepsPlan(order, plan, d, tx);
    case WalletSigned(tx) =>
      SendKeepsPlan(order, plan, d, SignedSponsored(tx, d.intentTimelock));
      SendKeepsPlan(order, plan, d.Send(SignedSponsored(tx, d.intentTimelock)), SourceCreated(tx.sourceId, tx.amount));
    case WethTimer(e, amount) => SendKeepsPlan(order, plan, d, SignedGasless(e, amount));
    case SourceLogged =>
      if !d.revealed {
        SamePlan(order, plan, d, d.(revealed := true));
        SpawnKeepsPlan(order, plan, d.(revealed := true), RevealTimer);
      }
    case RevealTimer => SendKeepsPlan(order, plan, d, SecretReveal(order.orderId, order.secret));
  }

  lemma {:induction false} AppendKeepsPlan(order: Order, plan: Plan, s: Session, tx: SourceEscrow)
    requires AllPlanned(order, plan, s) && CarriesShare(order, plan, tx)
    ensures AllPlanned(order, plan, s.(signedTxs := s.signedTxs + [tx]))
  {
    hide TaskPlanned, Planned, AmountFor, CarriesShare;
  }

  lemma {:induction false} SignKeepsPlan(order: Order, plan: Plan, s: Session, tx: SourceEscrow)
    requires AllPlanned(order, plan, s) && CarriesShare(order, plan, tx)
    ensures AllPlanned(order, plan, Sign(s, tx))
  {
    hide AllPlanned;
    AppendKeepsPlan(order, plan, s, tx);
    SpawnKeepsPlan(order, plan, s.(signedTxs := s.signedTxs + [tx]), WalletSigned(tx));
  }

  lemma {:induction false} PontemSignKeepsPlan(order: Order, plan: Plan, s: Session, payload: SourceEscrow)
    requires AllPlanned(order, plan, s) && Planned(plan, payload.event) && payload.amount == order.fromAmount
    ensures AllPlanned(order, plan, s.(pontemTxs := s.pontemTxs + [payload]))
  {
    hide TaskPlanned, Planned, AmountFor, CarriesShare;
  }

  lemma {:induction false} SendKeepsPlan(order: Order, plan: Plan, s: Session, m: Message)
    requires AllPlanned(order, plan, s) && (m.SignedSponsored? ==> CarriesShare(order, plan, m.tx))
    ensures AllPlanned(order, plan, s.Send(m))
  {
    hide TaskPlanned, Planned, AmountFor, CarriesShare;
  }

  lemma {:induction false} AskOthersKeepsPlan(order: Order, plan: Plan, s: Session, tx: SourceEscrow)
    requires AllPlanned(order, plan, s) && CarriesShare(order, plan, tx)
    ensures AllPlanned(order, plan, AskOthers(order, s, tx)) && AllPlanned(order, plan, AskRise(order, s, tx))
  {
    hide AllPlanned;
    SpawnKeepsPlan(order, plan, s, PetraAsked(tx));
    SpawnKeepsPlan(order, plan, s, RiseAsked(tx));
  }

  lemma {:induction false} RefuseKeepsPlan(order: Order, plan: Plan, d: Session, task: Task)
    requires AllPlanned(order, plan, d) && TaskPlanned(order, plan, task) && AsksWallet(task)
    ensures AllPlanned(order, plan, Refused(order, d, task))
  {
    hide AllPlanned, Planned, AmountFor;
    AskOthersKeepsPlan(order, plan, d, task.tx);
    if task.Built? {
      SpawnKeepsPlan(order, plan, d, PontemAsked(task.tx, PontemPayload(order, d, task.tx.event)));
    }
  }

  lemma {:induction false} StepKeepsPlan(order: Order, plan: Plan, s: Session, a: Action)
    requires AllPlanned(order, plan, s)
    requires a.DeliverDestination? && Concerns(order, a.event) ==> Planned(plan, a.event)
    ensures AllPlanned(order, plan, Step(order, s, a))
  {
    hide Planned, AmountFor, AllPlanned, Continue, Refused;
    match a
    case DeliverDestination(e) =>
      if e.orderId == order.orderId { SpawnKeepsPlan(order, plan, s, DestinationLogged(e)); }
    case DeliverSource(id) => SpawnKeepsPlan(order, plan, s, SourceLogged);
    case DeliverFill(id, e) => SamePlan(order, plan, s, Step(order, s, a));
    case Resume(t) =>
      if t in s.pending {
        DropKeepsPlan(order, plan, s, t);
        ContinueKeepsPlan(order, plan, s.Drop(t), s.pending[t]);
      }
    case Refuse(t) =>
      if t in s.pending && AsksWallet(s.pending[t]) {
        DropKeepsPlan(order, plan, s, t);
        RefuseKeepsPlan(order, plan, s.Drop(t), s.pending[t]);
      }
    case Fail(t) => if t in s.pending { DropKeepsPlan(order, plan, s, t); }
  }

  lemma {:induction false} RunKeepsPlan(order: Order, plan: Plan, actions: seq<Action>)
    requires DeliveriesPlanned(order, plan, actions)
    ensures AllPlanned(order, plan, Run(order, actions))
    decreases |actions|
  {
    if actions != [] {
      hide Step, Planned;
      var front, last := actions[..|actions| - 1], actions[|actions| - 1];
      assert DeliveriesPlanned(order, plan, front);
      RunKeepsPlan(order, plan, front);
      assert actions[|actions| - 1] == last;
      StepKeepsPlan(order, plan, Run(order, front), last);
    }
  }

  // ---------- Adding up ----------

  function SignedTotal(txs: seq<SourceEscrow>): int {
    if txs == [] then 0 else txs[0].amount + SignedTotal(txs[1..])
  }

  function Percentages(txs: seq<SourceEscrow>): (ps: seq<real>)
    ensures |ps| == |txs|
    ensures forall i :: 0 <= i < |txs| ==> ps[i] == txs[i].event.fillPercentage
  {
    seq(|txs|, i requires 0 <= i < |txs| => txs[i].event.fillPercentage)
  }

  lemma {:induction false} SignedTotalIs(order: Order, plan: Plan, txs: seq<SourceEscrow>)
    requires forall i :: 0 <= i < |txs| ==> CarriesShare(order, plan, txs[i])
    ensures SignedTotal(txs) == SumAmounts(order.fromAmount, Percentages(txs))
  {
    if txs != [] {
      hide PartialAmount;
      SignedTotalIs(order, plan, txs[1..]);
      assert Percentages(txs)[1..] == Percentages(txs[1..]);
    }
  }

  lemma {:induction false} SharesFit(plan: Plan, txs: seq<SourceEscrow>, ids: set<string>)
    requires forall i :: 0 <= i < |txs| ==> Planned(plan, txs[i].event) && txs[i].event.escrowId in ids
    requires forall i, j :: 0 <= i < j < |txs| ==> txs[i].event.escrowId != txs[j].event.escrowId
    requires forall id :: id in ids ==> Share(plan, id) >= 0.0
    ensures SumReals(Percentages(txs)) <= SumRealsOver(ids, id => Share(plan, id))
    decreases |txs|
  {
    var f := (id: string) => Share(plan, id);
    if txs == [] {
      SumRealsNonNegative(ids, f);
    } else {
      var id := txs[0].event.escrowId;
      SumRealsRemove(ids, f, id);
      SharesFit(plan, txs[1..], ids - {id});
      assert Percentages(txs)[1..] == Percentages(txs[1..]);
    }
  }

  /** A plan in which nobody is given a negative part and all together at most everything. */
  ghost predicate WithinHundred(plan: Plan) {
    (forall id :: id in plan ==> plan[id] >= 0.0) && PlanTotal(plan) <= 100.0
  }

  /** Transactions that carry their shares, for different destination escrows, are together within the order. */
  lemma {:induction false} SharesWithinOrder(order: Order, plan: Plan, txs: seq<SourceEscrow>)
    requires WithinHundred(plan) && forall i :: 0 <= i < |txs| ==> CarriesShare(order, plan, txs[i])
    requires forall i, j :: 0 <= i < j < |txs| ==> txs[i].event.escrowId != txs[j].event.escrowId
    ensures SignedTotal(txs) <= order.fromAmount
  {
    hide AmountFor;
    SignedTotalIs(order, plan, txs);
    SharesFit(plan, txs, plan.Keys);
    FillsNeverExceedOrder(order.fromAmount, Percentages(txs));
  }

  /** The transactions handed to the resolver, in order. */
  function SentTxs(outbox: seq<Message>): seq<SourceEscrow> {
    if outbox == [] then []
    else (if outbox[0].SignedSponsored? then [outbox[0].tx] else []) + SentTxs(outbox[1..])
  }

  ghost predicate SentAs(outbox: seq<Message>, tx: SourceEscrow) {
    exists m :: 0 <= m < |outbox| && outbox[m].SignedSponsored? && outbox[m].tx == tx
  }

  lemma {:induction false} SentAsTail(outbox: seq<Message>, tx: SourceEscrow)
    requires outbox != [] && SentAs(outbox[1..], tx)
    ensures SentAs(outbox, tx)
  {
    var m :| 0 <= m < |outbox[1..]| && outbox[1..][m].SignedSponsored? && outbox[1..][m].tx == tx;
    assert outbox[m + 1] == outbox[1..][m];
  }

  lemma {:induction false} SentTxsAreSent(outbox: seq<Message>, i: nat)
    requires i < |SentTxs(outbox)|
    ensures SentAs(outbox, SentTxs(outbox)[i])
    decreases |outbox|
  {
    var tail := SentTxs(outbox[1..]);
    if outbox[0].SignedSponsored? && i == 0 {
      assert SentTxs(outbox)[0] == outbox[0].tx;
    } else {
      var k := if outbox[0].SignedSponsored? then i - 1 else i;
      assert SentTxs(outbox)[i] == tail[k];
      SentTxsAreSent(outbox[1..], k);
      SentAsTail(outbox, tail[k]);
    }
  }

  /** No two messages hand over transactions for one destination escrow. */
  ghost predicate SentApart(outbox: seq<Message>) {
    forall i, j :: 0 <= i < j < |outbox| && outbox[i].SignedSponsored? && outbox[j].SignedSponsored? ==>
      outbox[i].tx.event.escrowId != outbox[j].tx.event.escrowId
  }

  lemma {:induction false} SentTxsApart(outbox: seq<Message>, i: nat, j: nat)
    requires SentApart(outbox) && i < j < |SentTxs(outbox)|
    ensures SentTxs(outbox)[i].event.escrowId != SentTxs(outbox)[j].event.escrowId
    decreases |outbox|
  {
    var rest := outbox[1..];
    var tail := SentTxs(rest);
    assert SentApart(rest);
    if outbox[0].SignedSponsored? && i == 0 {
      SentTxsAreSent(rest, j - 1);
      var m :| 0 <= m < |rest| && rest[m].SignedSponsored? && rest[m].tx == tail[j - 1];
      assert outbox[m + 1] == rest[m];
    } else {
      var shift := if outbox[0].SignedSponsored? then 1 else 0;
      SentTxsApart(rest, i - shift, j - shift);
      assert SentTxs(outbox)[i] == tail[i - shift] && SentTxs(outbox)[j] == tail[j - shift];
    }
  }

  lemma {:induction false} SentWithinOrder(order: Order, plan: Plan, outbox: seq<Message>)
    requires WithinHundred(plan) && SentApart(outbox)
    requires forall i :: 0 <= i < |outbox| && outbox[i].SignedSponsored? ==> CarriesShare(order, plan, outbox[i].tx)
    ensures SignedTotal(SentTxs(outbox)) <= order.fromAmount
  {
    hide WithinHundred, CarriesShare, SentTxs, SignedTotal;
    var txs := SentTxs(outbox);
    forall i | 0 <= i < |txs|
      ensures CarriesShare(order, plan, txs[i])
    {
      SentTxsAreSent(outbox, i);
      var m :| 0 <= m < |outbox| && outbox[m].SignedSponsored? && outbox[m].tx == txs[i];
    }
    forall i, j | 0 <= i < j < |txs|
      ensures txs[i].event.escrowId != txs[j].event.escrowId
    {
      SentTxsApart(outbox, i, j);
    }
    SharesWithinOrder(order, plan, txs);
  }

  /**
   In every interleaving, if the destination events follow a plan of at most 100 percent over distinct escrows,
   everything ever handed to the resolver is at most the order, however often events are repeated, and so is
   everything the wallets ever sign of what the page builds.
   */
  lemma {:induction false} NeverSubmitsMoreThanOrder(order: Order, plan: Plan, actions: seq<Action>)
    requires DeliveriesPlanned(order, plan, actions) && WithinHundred(plan)
    ensures SignedTotal(SentTxs(Run(order, actions).outbox)) <= order.fromAmount
    ensures SignedTotal(Run(order, actions).signedTxs) <= order.fromAmount
  {
    var s := Run(order, actions);
    RunKeepsPlan(order, plan, actions);
    OneSourceEscrowPerDestination(order, actions);
    hide Run, DeliveriesPlanned, WithinHundred, CarriesShare;
    SharesWithinOrder(order, plan, s.signedTxs);
    SentWithinOrder(order, plan, s.outbox);
  }

  /** One event takes no more than its share of a positive order exactly when it is a partial fill above zero, or asks for all. */
  lemma {:induction false} AmountWithinShareIff(order: Order, e: DestinationEvent)
    requires order.fromAmount > 0 && 0.0 <= e.fillPercentage <= 100.0
    ensures AmountFor(order, e) as real <= order.fromAmount as real * e.fillPercentage / 100.0
            <==> (e.isPartialFill && e.fillPercentage > 0.0) || e.fillPercentage == 100.0
  {
    var total, p := order.fromAmount, e.fillPercentage;
    if e.isPartialFill && p > 0.0 {
      DroppedZeroIff(total, p);
      assert total as real * p * 100.0 >= 10000.0 * PartialAmount(total, p) as real;
    } else if p < 100.0 {
      assert total as real * p < total as real * 100.0;
    }
  }
}
