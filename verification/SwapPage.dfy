/**
 The swap page as an object: the browser globals and page state that the handlers update.

 Its history is the sequence of events delivered and steps taken. Every method keeps the state equal to what that
 history leads to, and promises what holds of every such history.
 */
module SwapPage {
  import opened FillAmounts
  import opened FillList
  import opened FillHistory
  import opened SwapSession
  import opened SigningRuns
  import opened BudgetRuns
  import opened RevealRuns
  import opened CompletionRuns
  import opened MessageRuns
  import opened GaslessRuns

  // ---------- What every history guarantees ----------

  /** What is handed to the resolver stays within the order, for every plan that the delivered events follow. */
  ghost predicate WithinOrder(order: Order, s: Session, history: seq<Action>) {
    forall plan :: WithinHundred(plan) && DeliveriesPlanned(order, plan, history) ==>
      SignedTotal(SentTxs(s.outbox)) <= order.fromAmount
  }

  /**
   One submission per destination escrow, the secret once, never more than the order, every message exactly as its event
   asks, and in the other direction one message for each delivery.
   */
  ghost predicate Safe(order: Order, s: Session, history: seq<Action>) {
    && OncePerDestination(s) && RevealedAtMostOnce(order, s) && WithinOrder(order, s, history)
    && Exact(order, history, s) && (order.fromChain.Ethereum? ==> InAccount(order, s, history))
  }

  lemma {:induction false} AlwaysSafe(order: Order, history: seq<Action>)
    ensures Safe(order, Run(order, history), history)
  {
    OneSourceEscrowPerDestination(order, history);
    SecretRevealedAtMostOnce(order, history);
    AlwaysExact(order, history);
    if order.fromChain.Ethereum? {
      AlwaysInAccount(order, history);
    }
    hide Run, Exact, InAccount, OncePerDestination, RevealedAtMostOnce, WithinHundred, DeliveriesPlanned, SentTxs, SignedTotal;
    forall plan | WithinHundred(plan) && DeliveriesPlanned(order, plan, history)
      ensures SignedTotal(SentTxs(Run(order, history).outbox)) <= order.fromAmount
    {
      NeverSubmitsMoreThanOrder(order, plan, history);
    }
  }

  /** The fill events of this order, in the order of delivery. */
  function FillEvents(order: Order, history: seq<Action>): seq<FillEvent> {
    if history == [] then []
    else
      var before, last := FillEvents(order, history[..|history| - 1]), history[|history| - 1];
      if last.DeliverFill? && last.orderId == order.orderId then before + [last.fill] else before
  }

  /** Nothing but the fill events of this order changes the list of fills. */
  lemma {:induction false} FillsFollowEvents(order: Order, history: seq<Action>)
    ensures Run(order, history).fills == UpdateAll([], FillEvents(order, history))
    decreases |history|
  {
    if history != [] {
      var front, last := history[..|history| - 1], history[|history| - 1];
      FillsFollowEvents(order, front);
      var events := FillEvents(order, front);
      if last.DeliverFill? && last.orderId == order.orderId {
        assert (events + [last.fill])[..|events + [last.fill]| - 1] == events;
      } else {
        FillsUntouched(order, Run(order, front), last);
      }
    }
  }

  lemma {:induction false} FillsUntouched(order: Order, s: Session, a: Action)
    requires !(a.DeliverFill? && a.orderId == order.orderId)
    ensures Step(order, s, a).fills == s.fills
  {
  }

  /** The list shown is the one that the delivered fill events tell, and so is the progress bar. */
  ghost predicate ShowsHistory(order: Order, fills: seq<Fill>, history: seq<Action>) {
    var events := FillEvents(order, history);
    (exists origin :: Explains(events, fills, origin)) && LargestReached(events, Progress(fills))
  }

  lemma {:induction false} AlwaysShowsHistory(order: Order, history: seq<Action>)
    ensures ShowsHistory(order, Run(order, history).fills, history)
  {
    FillsFollowEvents(order, history);
    var origin := ListIsHistory(FillEvents(order, history));
    ProgressIsLargest(FillEvents(order, history));
  }

  lemma {:induction false} RunNext(order: Order, history: seq<Action>, a: Action)
    ensures Run(order, history + [a]) == Step(order, Run(order, history), a)
  {
    hide Step;
    assert (history + [a])[..|history + [a]| - 1] == history;
  }

  /** What a delivered fill event leads to. */
  lemma {:induction false} FillDelivered(order: Order, history: seq<Action>, orderId: string, e: FillEvent)
    ensures var s, after := Run(order, history), Run(order, history + [DeliverFill(orderId, e)]);
      && after == (if orderId == order.orderId then s.(fills := Update(s.fills, e)) else s)
      && ShowsHistory(order, after.fills, history + [DeliverFill(orderId, e)])
  {
    hide Run, ShowsHistory, Update;
    RunNext(order, history, DeliverFill(orderId, e));
    AlwaysShowsHistory(order, history + [DeliverFill(orderId, e)]);
  }

  /** A delivered source event waits for its handler, or the reveal has been started before. */
  lemma {:induction false} SourceIsKept(order: Order, history: seq<Action>)
    ensures SourceNotLost(Run(order, history + [DeliverSource(order.orderId)]))
  {
    RunNext(order, history, DeliverSource(order.orderId));
    OneSourceEscrowPerDestination(order, history);
    hide Run, OncePerDestination, TasksApart, TasksRecorded, Answered;
    SpawnHas(Run(order, history), SourceLogged);
  }

  /** A delivered destination event waits for its handler. */
  lemma {:induction false} DestinationIsKept(order: Order, history: seq<Action>, e: DestinationEvent)
    requires Concerns(order, e)
    ensures EventNotLost(Run(order, history + [DeliverDestination(e)]), e)
  {
    RunNext(order, history, DeliverDestination(e));
    OneSourceEscrowPerDestination(order, history);
    hide Run, OncePerDestination, TasksApart, TasksRecorded, Answered;
    SpawnHas(Run(order, history), DestinationLogged(e));
    LoggedIsHas(Run(order, history + [DeliverDestination(e)]), e);
  }

  // ---------- The page ----------

  class Page {
    const order: Order
    ghost var history: seq<Action>

    var createdEscrows: set<string>
    var intentTimelock: nat
    var revealed: bool
    var pending: map<nat, Task>
    var nextTask: nat
    var signedTxs: seq<SourceEscrow>
    var pontemTxs: seq<SourceEscrow>
    var outbox: seq<Message>
    var fills: seq<Fill>

    function Contents(): Session
      reads this
    {
      Session(createdEscrows, intentTimelock, revealed, pending, nextTask, signedTxs, pontemTxs, outbox, fills)
    }

    /** The page's state is what its history leads to. */
    ghost predicate Valid()
      reads this
    {
      Contents() == Run(order, history)
    }

    constructor (order: Order)
      ensures this.order == order && Valid() && history == []
    {
      this.order := order;
      history := [];
      createdEscrows, intentTimelock, revealed := {}, order.deadline, false;
      pending, nextTask, signedTxs, pontemTxs, outbox, fills := map[], 0, [], [], [], [];
    }

    method Schedule(task: Task)
      modifies this`pending, this`nextTask
      ensures Contents() == old(Contents()).Spawn(task)
    {
      pending := pending[nextTask := task];
      nextTask := nextTask + 1;
    }

    /** The event waits for its handler or has been answered before; nothing is signed or sent. */
    method HandleDestinationCreated(e: DestinationEvent)
      requires Valid()
      modifies this`pending, this`nextTask, this`history
      ensures Valid() && history == old(history) + [DeliverDestination(e)] && Safe(order, Contents(), history)
      ensures Concerns(order, e) ==> EventNotLost(Contents(), e)
    {
      if e.orderId == order.orderId {
        Schedule(DestinationLogged(e));
      }
      history := history + [DeliverDestination(e)];
      RunNext(order, old(history), DeliverDestination(e));
      AlwaysSafe(order, history);
      hide Run, Safe, EventNotLost;
      if Concerns(order, e) {
        DestinationIsKept(order, old(history), e);
      }
    }

    /** The reveal waits for its handler or has been started before; nothing is sent. */
    method HandleSourceCreated(orderId: string)
      requires Valid()
      modifies this`pending, this`nextTask, this`history
      ensures Valid() && history == old(history) + [DeliverSource(orderId)] && Safe(order, Contents(), history)
      ensures orderId == order.orderId ==> SourceNotLost(Contents())
    {
      if orderId == order.orderId {
        Schedule(SourceLogged);
      }
      history := history + [DeliverSource(orderId)];
      RunNext(order, old(history), DeliverSource(orderId));
      AlwaysSafe(order, history);
      hide Run, Safe, SourceNotLost;
      SourceIsKept(order, old(history));
    }

    /** A new entry is put at the end unless its key is there already. */
    method AddFill(resolver: string, fillPercentage: real, cumulativePercentage: real, secretIndex: int)
      modifies this`fills
      ensures fills == Update(old(fills), FillCreated(resolver, fillPercentage, cumulativePercentage, secretIndex))
    {
      var found := false;
      for i := 0 to |fills|
        invariant found <==> exists j :: 0 <= j < i && SameKey(fills[j], resolver, secretIndex)
      {
        if fills[i].secretIndex == secretIndex && fills[i].resolver == resolver { found := true; }
      }
      if !found {
        var cumulative := if cumulativePercentage != 0.0 then cumulativePercentage else fillPercentage;
        fills := fills + [Fill(resolver, fillPercentage, cumulative, secretIndex, Pending)];
      }
    }

    /** Every entry with this index is marked. */
    method MarkCompleted(secretIndex: int)
      modifies this`fills
      ensures fills == Update(old(fills), FillCompleted(secretIndex))
    {
      var updated := [];
      for i := 0 to |fills|
        invariant |updated| == i
        invariant forall j :: 0 <= j < i ==> updated[j] == Complete(fills[j], secretIndex)
      {
        updated := updated + [if fills[i].secretIndex == secretIndex then fills[i].(status := Completed) else fills[i]];
      }
      assert updated == Update(fills, FillCompleted(secretIndex));
      fills := updated;
    }

    /** The list shown afterwards is the one that all delivered fill events tell. */
    method HandlePartialFillCreated(orderId: string, resolver: string, fillPercentage: real, cumulativePercentage: real,
                                    secretIndex: int)
      requires Valid()
      modifies this`fills, this`history
      ensures Valid() && ShowsHistory(order, fills, history)
      ensures history == old(history)
        + [DeliverFill(orderId, FillCreated(resolver, fillPercentage, cumulativePercentage, secretIndex))]
    {
      hide Run, ShowsHistory, Update;
      ghost var e := FillCreated(resolver, fillPercentage, cumulativePercentage, secretIndex);
      FillDelivered(order, history, orderId, e);
      if orderId == order.orderId {
        AddFill(resolver, fillPercentage, cumulativePercentage, secretIndex);
      }
      history := history + [DeliverFill(orderId, e)];
    }

    method HandlePartialFillCompleted(orderId: string, secretIndex: int)
      requires Valid()
      modifies this`fills, this`history
      ensures Valid() && ShowsHistory(order, fills, history)
      ensures history == old(history) + [DeliverFill(orderId, FillCompleted(secretIndex))]
    {
      hide Run, ShowsHistory, Update;
      FillDelivered(order, history, orderId, FillCompleted(secretIndex));
      if orderId == order.orderId {
        MarkCompleted(secretIndex);
      }
      history := history + [DeliverFill(orderId, FillCompleted(secretIndex))];
    }

    /** The event loop continues one waiting step, and all guarantees stay. */
    method ResumeTask(t: nat)
      requires Valid() && t in pending
      modifies this
      ensures Valid() && history == old(history) + [Resume(t)] && Safe(order, Contents(), history)
    {
      var task := pending[t];
      pending := pending - {t};
      if task.DestinationLogged? {
        AnswerDestinationEvent(task.event);
      } else if task.SignTimer? || task.SignStarted? {
        PrepareTransaction(task);
      } else if AsksWallet(task) {
        AcceptSignature(task);
      } else {
        FinishTask(task);
      }
      history := old(history) + [Resume(t)];
      RunNext(order, old(history), Resume(t));
      AlwaysSafe(order, history);
      hide Run, Safe;
    }

    /** The wallet asked by this step refuses, and the next one is asked. */
    method RefuseTask(t: nat)
      requires Valid() && t in pending && AsksWallet(pending[t])
      modifies this`pending, this`nextTask, this`history
      ensures Valid() && history == old(history) + [Refuse(t)] && Safe(order, Contents(), history)
    {
      var task := pending[t];
      pending := pending - {t};
      if task.Built? && order.wallets.pontem {
        Schedule(PontemAsked(task.tx, SourceEscrow(task.tx.event, OrderSourceId, order.fromAmount, intentTimelock)));
      } else if task.Built? || task.PontemAsked? {
        AskNextWallet(task.tx, order.wallets.petra);
      } else if task.PetraAsked? {
        AskNextWallet(task.tx, false);
      }
      history := old(history) + [Refuse(t)];
      RunNext(order, old(history), Refuse(t));
      AlwaysSafe(order, history);
      hide Run, Safe;
    }

    /** A step throws and is never continued. */
    method FailTask(t: nat)
      requires Valid() && t in pending
      modifies this`pending, this`history
      ensures Valid() && history == old(history) + [Fail(t)] && Safe(order, Contents(), history)
    {
      pending := pending - {t};
      history := history + [Fail(t)];
      RunNext(order, old(history), Fail(t));
      AlwaysSafe(order, history);
      hide Run, Safe;
    }

    method AskNextWallet(tx: SourceEscrow, petra: bool)
      requires petra ==> order.wallets.petra
      modifies this`pending, this`nextTask
      ensures Contents() == if petra then old(Contents()).Spawn(PetraAsked(tx)) else AskRise(order, old(Contents()), tx)
    {
      if petra {
        Schedule(PetraAsked(tx));
      } else if order.wallets.rise {
        Schedule(RiseAsked(tx));
      }
    }

    method AnswerDestinationEvent(e: DestinationEvent)
      modifies this`createdEscrows, this`intentTimelock, this`pending, this`nextTask
      ensures Contents() == AnswerDestination(order, old(Contents()), e)
    {
      if order.fromChain.Aptos? && e.chain.Ethereum? {
        if e.escrowId in createdEscrows {
          return;
        }
        createdEscrows := createdEscrows + {e.escrowId};
        intentTimelock := e.timelock;
        Schedule(SignTimer(e));
      } else if order.fromChain.Ethereum? && e.chain.Aptos? {
        var escrowAmount: int := order.fromAmount;
        if e.isPartialFill && e.fillPercentage != 0.0 {
          escrowAmount := PartialAmount(order.fromAmount, e.fillPercentage);
        }
        Schedule(WethTimer(e, escrowAmount));
      }
    }

    method PrepareTransaction(task: Task)
      requires task.SignTimer? || task.SignStarted?
      modifies this`pending, this`nextTask
      ensures Contents() == SwapSession.Continue(order, old(Contents()), task)
    {
      var e := task.event;
      if task.SignTimer? {
        Schedule(SignStarted(e));
      } else {
        var aptEscrowAmount: int, aptEscrowId := order.fromAmount, OrderSourceId;
        if e.isPartialFill && e.fillPercentage != 0.0 {
          aptEscrowAmount := PartialAmount(order.fromAmount, e.fillPercentage);
          aptEscrowId := FillSourceId(e.escrowId, order.nonce);
        }
        Schedule(Built(SourceEscrow(e, aptEscrowId, aptEscrowAmount, intentTimelock)));
      }
    }

    method AcceptSignature(task: Task)
      requires AsksWallet(task)
      modifies this`pending, this`nextTask, this`signedTxs, this`pontemTxs
      ensures Contents() == SwapSession.Continue(order, old(Contents()), task)
    {
      if task.PontemAsked? {
        pontemTxs := pontemTxs + [task.payload];
        AskNextWallet(task.tx, order.wallets.petra);
      } else {
        signedTxs := signedTxs + [task.tx];
        Schedule(WalletSigned(task.tx));
      }
    }

    method FinishTask(task: Task)
      requires task.WalletSigned? || task.WethTimer? || task.SourceLogged? || task.RevealTimer?
      modifies this`pending, this`nextTask, this`revealed, this`outbox
      ensures Contents() == SwapSession.Continue(order, old(Contents()), task)
    {
      match task
      case WalletSigned(tx) =>
        outbox := outbox + [SignedSponsored(tx, intentTimelock)];
        outbox := outbox + [SourceCreated(tx.sourceId, tx.amount)];
      case WethTimer(e, amount) =>
        outbox := outbox + [SignedGasless(e, amount)];
      case SourceLogged =>
        if !revealed {
          revealed := true;
          Schedule(RevealTimer);
        }
      case RevealTimer =>
        outbox := outbox + [SecretReveal(order.orderId, order.secret)];
    }
  }
}
