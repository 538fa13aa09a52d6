/** The other direction: in a session that pays in wrapped Ether, every delivered Aptos escrow is answered by one message. */
module GaslessRuns {
  import opened SwapSession
  import opened SigningRuns
  import opened MessageRuns
  import opened CompletionRuns

  /** The events for which gasless messages were sent, with repetitions. */
  function GaslessEvents(outbox: seq<Message>): multiset<DestinationEvent> {
    if outbox == [] then multiset{}
    else
      var rest, last := GaslessEvents(outbox[..|outbox| - 1]), outbox[|outbox| - 1];
      if last.SignedGasless? then rest + multiset{last.event} else rest
  }

  /** The Aptos escrows of this order that were announced to the page, with repetitions. */
  function AptosDeliveries(order: Order, actions: seq<Action>): multiset<DestinationEvent> {
    if actions == [] then multiset{}
    else
      var rest, last := AptosDeliveries(order, actions[..|actions| - 1]), actions[|actions| - 1];
      if last.DeliverDestination? && last.event.orderId == order.orderId && last.event.chain.Aptos?
      then rest + multiset{last.event} else rest
  }

  predicate WorksOn(task: Task, e: DestinationEvent) {
    task == DestinationLogged(e) || (task.WethTimer? && task.event == e)
  }

  function Tickets(s: Session, e: DestinationEvent): set<nat> {
    set t | t in s.pending && WorksOn(s.pending[t], e)
  }

  /** Messages sent and tasks waiting for one event. */
  function Accounted(s: Session, e: DestinationEvent): nat {
    GaslessEvents(s.outbox)[e] + |Tickets(s, e)|
  }

  lemma {:induction false} SpawnCounts(s: Session, task: Task, e: DestinationEvent)
    requires TicketsFresh(s)
    ensures Accounted(s.Spawn(task), e) == Accounted(s, e) + if WorksOn(task, e) then 1 else 0
  {
    hide GaslessEvents;
    var after := s.Spawn(task);
    assert s.nextTask !in Tickets(s, e);
    if WorksOn(task, e) {
      assert Tickets(after, e) == Tickets(s, e) + {s.nextTask};
    } else {
      assert Tickets(after, e) == Tickets(s, e);
    }
  }

  lemma {:induction false} DropCounts(s: Session, t: nat, e: DestinationEvent)
    requires t in s.pending
    ensures Accounted(s.Drop(t), e) == Accounted(s, e) - if WorksOn(s.pending[t], e) then 1 else 0
  {
    hide GaslessEvents;
    if WorksOn(s.pending[t], e) {
      assert Tickets(s, e) == Tickets(s.Drop(t), e) + {t};
    } else {
      assert Tickets(s, e) == Tickets(s.Drop(t), e);
    }
  }

  lemma {:induction false} SendCounts(s: Session, m: Message, e: DestinationEvent)
    ensures Accounted(s.Send(m), e) == Accounted(s, e) + if m.SignedGasless? && m.event == e then 1 else 0
  {
    assert s.Send(m).outbox[..|s.outbox|] == s.outbox;
    assert Tickets(s.Send(m), e) == Tickets(s, e);
  }

  lemma {:induction false} SameCounts(s: Session, s': Session, e: DestinationEvent)
    requires s'.pending == s.pending && s'.outbox == s.outbox
    ensures Accounted(s', e) == Accounted(s, e)
  {
    assert Tickets(s', e) == Tickets(s, e);
  }

  lemma {:induction false} SignCounts(s: Session, tx: SourceEscrow, e: DestinationEvent)
    requires TicketsFresh(s)
    ensures Accounted(Sign(s, tx), e) == Accounted(s, e)
  {
    hide Accounted, Tickets, GaslessEvents;
    SameCounts(s, s.(signedTxs := s.signedTxs + [tx]), e);
    SpawnCounts(s.(signedTxs := s.signedTxs + [tx]), WalletSigned(tx), e);
  }

  lemma {:induction false} AskOthersCounts(order: Order, s: Session, tx: SourceEscrow, e: DestinationEvent)
    requires TicketsFresh(s)
    ensures Accounted(AskOthers(order, s, tx), e) == Accounted(s, e) == Accounted(AskRise(order, s, tx), e)
  {
    hide Accounted;
    SpawnCounts(s, PetraAsked(tx), e);
    SpawnCounts(s, RiseAsked(tx), e);
  }

  /** A task for the event hands it on until the message is sent. */
  lemma {:induction false} ContinueCounts(order: Order, s: Session, task: Task, e: DestinationEvent)
    requires TicketsFresh(s) && order.fromChain.Ethereum? && e.chain.Aptos?
    ensures Accounted(Continue(order, s, task), e) == Accounted(s, e) + if WorksOn(task, e) then 1 else 0
  {
    hide Accounted, Tickets, GaslessEvents;
    match task
    case DestinationLogged(e') =>
      if e'.chain.Aptos? { SpawnCounts(s, WethTimer(e', AmountFor(order, e')), e); }
    case SignTimer(e') => SpawnCounts(s, SignStarted(e'), e);
    case SignStarted(e') => SpawnCounts(s, Built(BuildTx(order, s, e')), e);
    case Built(tx) => SignCounts(s, tx, e);
    case PontemAsked(tx, payload) =>
      var s' := s.(pontemTxs := s.pontemTxs + [payload]);
      SameCounts(s, s', e);
      AskOthersCounts(order, s', tx, e);
    case PetraAsked(tx) => SignCounts(s, tx, e);
    case RiseAsked(tx) => SignCounts(s, tx, e);
    case WalletSigned(tx) =>
      SendCounts(s, SignedSponsored(tx, s.intentTimelock), e);
      SendCounts(s.Send(SignedSponsored(tx, s.intentTimelock)), SourceCreated(tx.sourceId, tx.amount), e);
    case WethTimer(e', amount) => SendCounts(s, SignedGasless(e', amount), e);
    case SourceLogged =>
      if !s.revealed {
        SameCounts(s, s.(revealed := true), e);
        SpawnCounts(s.(revealed := true), RevealTimer, e);
      }
    case RevealTimer => SendCounts(s, SecretReveal(order.orderId, order.secret), e);
  }

  lemma {:induction false} RefuseCounts(order: Order, s: Session, task: Task, e: DestinationEvent)
    requires TicketsFresh(s) && AsksWallet(task)
    ensures Accounted(Refused(order, s, task), e) == Accounted(s, e)
  {
    hide Accounted, Tickets, GaslessEvents;
    AskOthersCounts(order, s, task.tx, e);
    SpawnCounts(s, PontemAsked(task.tx, PontemPayload(order, s, task.tx.event)), e);
  }

  /** Only a delivery adds work for the event, and only a failure loses any. */
  lemma {:induction false} StepCounts(order: Order, s: Session, a: Action, e: DestinationEvent)
    requires TicketsFresh(s) && order.fromChain.Ethereum? && e.chain.Aptos? && e.orderId == order.orderId
    ensures var expected := Accounted(s, e) + if a == DeliverDestination(e) then 1 else 0;
      Accounted(Step(order, s, a), e) <= expected && (!a.Fail? ==> Accounted(Step(order, s, a), e) == expected)
  {
    hide Accounted, Tickets, GaslessEvents, Continue, Refused;
    match a
    case DeliverDestination(e') => SpawnCounts(s, DestinationLogged(e'), e);
    case DeliverSource(id) => SpawnCounts(s, SourceLogged, e);
    case DeliverFill(id, fill) => SameCounts(s, Step(order, s, a), e);
    case Resume(t) =>
      if t in s.pending {
        DropCounts(s, t, e);
        ContinueCounts(order, s.Drop(t), s.pending[t], e);
      }
    case Refuse(t) =>
      if t in s.pending && AsksWallet(s.pending[t]) {
        DropCounts(s, t, e);
        RefuseCounts(order, s.Drop(t), s.pending[t], e);
      }
    case Fail(t) => if t in s.pending { DropCounts(s, t, e); }
  }

  lemma {:induction false} RunCounts(order: Order, actions: seq<Action>, e: DestinationEvent)
    requires order.fromChain.Ethereum? && e.chain.Aptos? && e.orderId == order.orderId
    ensures Accounted(Run(order, actions), e) <= AptosDeliveries(order, actions)[e]
    ensures NoFailure(order, actions) ==> Accounted(Run(order, actions), e) == AptosDeliveries(order, actions)[e]
    decreases |actions|
  {
    if actions == [] {
      NothingYet(order, e);
    } else {
      var front, last := actions[..|actions| - 1], actions[|actions| - 1];
      RunCounts(order, front, e);
      OneSourceEscrowPerDestination(order, front);
      assert TicketsFresh(Run(order, front));
      hide Invariant, OncePerDestination, Accounted, Step, NoFailure;
      StepCounts(order, Run(order, front), last, e);
      if NoFailure(order, actions) {
        NoFailureBefore(order, actions);
      }
    }
  }

  lemma {:induction false} NothingYet(order: Order, e: DestinationEvent)
    ensures Accounted(Initial(order), e) == 0
  {
    assert Tickets(Initial(order), e) == {};
  }

  lemma {:induction false} SentIsInOutbox(outbox: seq<Message>, e: DestinationEvent) returns (i: int)
    requires GaslessEvents(outbox)[e] > 0
    ensures 0 <= i < |outbox| && outbox[i].SignedGasless? && outbox[i].event == e
    decreases |outbox|
  {
    var last := outbox[|outbox| - 1];
    if last.SignedGasless? && last.event == e {
      i := |outbox| - 1;
    } else {
      i := SentIsInOutbox(outbox[..|outbox| - 1], e);
    }
  }

  lemma {:induction false} DeliveredConcerns(order: Order, actions: seq<Action>, e: DestinationEvent)
    requires AptosDeliveries(order, actions)[e] > 0
    ensures e.orderId == order.orderId && e.chain.Aptos?
    decreases |actions|
  {
    var front := actions[..|actions| - 1];
    if AptosDeliveries(order, front)[e] > 0 {
      DeliveredConcerns(order, front, e);
    }
  }

  lemma {:induction false} SentConcerns(order: Order, actions: seq<Action>, e: DestinationEvent)
    requires GaslessEvents(Run(order, actions).outbox)[e] > 0
    ensures e.orderId == order.orderId && e.chain.Aptos?
  {
    AlwaysExact(order, actions);
    var outbox := Run(order, actions).outbox;
    hide Run, GaslessEvents, IsShareOf;
    var i := SentIsInOutbox(outbox, e);
    assert ExactMessage(order, actions, outbox, i);
  }

  /** No delivery is answered twice, and without a failure each is answered or still being worked on. */
  ghost predicate InAccount(order: Order, s: Session, history: seq<Action>) {
    forall e: DestinationEvent :: e.orderId == order.orderId && e.chain.Aptos? ==>
      && Accounted(s, e) <= AptosDeliveries(order, history)[e]
      && (NoFailure(order, history) ==> Accounted(s, e) == AptosDeliveries(order, history)[e])
  }

  lemma {:induction false} AlwaysInAccount(order: Order, actions: seq<Action>)
    requires order.fromChain.Ethereum?
    ensures InAccount(order, Run(order, actions), actions)
  {
    hide Run, Accounted, AptosDeliveries, NoFailure;
    forall e: DestinationEvent | e.orderId == order.orderId && e.chain.Aptos?
      ensures Accounted(Run(order, actions), e) <= AptosDeliveries(order, actions)[e]
      ensures NoFailure(order, actions) ==> Accounted(Run(order, actions), e) == AptosDeliveries(order, actions)[e]
    {
      RunCounts(order, actions, e);
    }
  }

  /** In every run each delivery is answered by at most one message. */
  lemma {:induction false} NeverMoreThanDelivered(order: Order, actions: seq<Action>)
    requires order.fromChain.Ethereum?
    ensures GaslessEvents(Run(order, actions).outbox) <= AptosDeliveries(order, actions)
  {
    hide Run, GaslessEvents, AptosDeliveries, Tickets;
    forall e
      ensures GaslessEvents(Run(order, actions).outbox)[e] <= AptosDeliveries(order, actions)[e]
    {
      if GaslessEvents(Run(order, actions).outbox)[e] > 0 {
        SentConcerns(order, actions, e);
        RunCounts(order, actions, e);
      }
    }
  }

  /**
   Once nothing is waiting, the messages sent and the Aptos escrows announced for this order are in one-to-one
   correspondence: an escrow announced twice is answered twice.
   */
  lemma {:induction false} QuietSessionAnswersEachDelivery(order: Order, actions: seq<Action>)
    requires order.fromChain.Ethereum? && Quiet(order, actions)
    ensures GaslessEvents(Run(order, actions).outbox) == AptosDeliveries(order, actions)
  {
    var s := Run(order, actions);
    hide Run, GaslessEvents, AptosDeliveries, NoFailure;
    forall e
      ensures GaslessEvents(s.outbox)[e] == AptosDeliveries(order, actions)[e]
    {
      if GaslessEvents(s.outbox)[e] > 0 {
        SentConcerns(order, actions, e);
        RunCounts(order, actions, e);
      } else if AptosDeliveries(order, actions)[e] > 0 {
        DeliveredConcerns(order, actions, e);
        RunCounts(order, actions, e);
      }
      assert Tickets(s, e) == {};
    }
  }
}
