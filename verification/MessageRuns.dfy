/** What every interleaving of a session signs and sends: for which event, under which id, and for how much. */
module MessageRuns {
  import opened Bytes
  import opened FillAmounts
  import opened SwapSession
  import opened SigningRuns

  /** The event asks for a part of the order; a percentage of zero counts as none. */
  predicate ForPart(e: DestinationEvent) {
    e.isPartialFill && e.fillPercentage != 0.0
  }

  /**
   The event's share of the order: all of it, or its percentage rounded down to whole basis points and the result cut to
   whole units.
   */
  ghost predicate IsShareOf(order: Order, e: DestinationEvent, amount: int) {
    if ForPart(e) then
      var exact := order.fromAmount * (100.0 * e.fillPercentage).Floor;
      if exact >= 0 then 0 <= exact - 10000 * amount < 10000 else -10000 < exact - 10000 * amount <= 0
    else amount == order.fromAmount
  }

  /** A part has a source escrow id of its own; everything else shares the order's. */
  predicate IsSourceIdOf(order: Order, e: DestinationEvent, id: SourceId) {
    if ForPart(e) then id == FillSourceId(e.escrowId, order.nonce) else id == OrderSourceId
  }

  lemma {:induction false} BuiltIsExact(order: Order, e: DestinationEvent)
    ensures IsShareOf(order, e, AmountFor(order, e)) && IsSourceIdOf(order, e, SourceIdFor(order, e))
  {
    if ForPart(e) {
      var exact := order.fromAmount * BasisPoints(e.fillPercentage);
      assert 100.0 * e.fillPercentage == e.fillPercentage * 100.0;
      assert AmountFor(order, e) == TruncDiv(exact, 10000);
    }
  }

  /** The event was delivered, for this order. */
  ghost predicate Seen(order: Order, actions: seq<Action>, e: DestinationEvent) {
    e.orderId == order.orderId && DeliverDestination(e) in actions
  }

  ghost predicate ToEthereum(order: Order, actions: seq<Action>, e: DestinationEvent) {
    Seen(order, actions, e) && order.fromChain.Aptos? && e.chain.Ethereum?
  }

  /** A transaction for a delivered event, under its id and for its share. */
  ghost predicate ExactTx(order: Order, actions: seq<Action>, tx: SourceEscrow) {
    ToEthereum(order, actions, tx.event) && IsSourceIdOf(order, tx.event, tx.sourceId) && IsShareOf(order, tx.event, tx.amount)
  }

  /** Pontem is asked for the whole order whatever the event says. */
  ghost predicate ExactPontem(order: Order, actions: seq<Action>, tx: SourceEscrow) {
    ToEthereum(order, actions, tx.event) && tx.sourceId == OrderSourceId && tx.amount == order.fromAmount
  }

  ghost predicate ExactGasless(order: Order, actions: seq<Action>, e: DestinationEvent, amount: int) {
    Seen(order, actions, e) && order.fromChain.Ethereum? && e.chain.Aptos? && IsShareOf(order, e, amount)
  }

  ghost predicate ExactTask(order: Order, actions: seq<Action>, task: Task) {
    match task
    case DestinationLogged(e) => Seen(order, actions, e)
    case SignTimer(e) => ToEthereum(order, actions, e)
    case SignStarted(e) => ToEthereum(order, actions, e)
    case Built(tx) => ExactTx(order, actions, tx)
    case PontemAsked(tx, payload) => ExactTx(order, actions, tx) && ExactPontem(order, actions, payload)
    case PetraAsked(tx) => ExactTx(order, actions, tx)
    case RiseAsked(tx) => ExactTx(order, actions, tx)
    case WalletSigned(tx) => ExactTx(order, actions, tx)
    case WethTimer(e, amount) => ExactGasless(order, actions, e, amount)
    case SourceLogged => true
    case RevealTimer => true
  }

  /** Every transaction sent is announced at once with its own id and amount, and nothing else is announced. */
  ghost predicate ExactMessage(order: Order, actions: seq<Action>, outbox: seq<Message>, i: int)
    requires 0 <= i < |outbox|
  {
    match outbox[i]
    case SignedSponsored(tx, _) =>
      ExactTx(order, actions, tx) && i + 1 < |outbox| && outbox[i + 1] == SourceCreated(tx.sourceId, tx.amount)
    case SourceCreated(_, _) => i > 0 && outbox[i - 1].SignedSponsored?
    case SignedGasless(e, amount) => ExactGasless(order, actions, e, amount)
    case SecretReveal(orderId, secret) => orderId == order.orderId && secret == order.secret
  }

  ghost predicate TasksExact(order: Order, actions: seq<Action>, pending: map<nat, Task>) {
    forall t :: t in pending ==> ExactTask(order, actions, pending[t])
  }

  ghost predicate MessagesExact(order: Order, actions: seq<Action>, outbox: seq<Message>) {
    forall i :: 0 <= i < |outbox| ==> ExactMessage(order, actions, outbox, i)
  }

  ghost predicate SignedExact(order: Order, actions: seq<Action>, s: Session) {
    && (forall i :: 0 <= i < |s.signedTxs| ==> ExactTx(order, actions, s.signedTxs[i]))
    && (forall i :: 0 <= i < |s.pontemTxs| ==> ExactPontem(order, actions, s.pontemTxs[i]))
  }

  ghost predicate Exact(order: Order, actions: seq<Action>, s: Session) {
    TasksExact(order, actions, s.pending) && MessagesExact(order, actions, s.outbox) && SignedExact(order, actions, s)
  }

  // ---------- Steps ----------

  lemma {:induction false} ExactLater(order: Order, actions: seq<Action>, s: Session, a: Action)
    requires Exact(order, actions, s)
    ensures Exact(order, actions + [a], s)
  {
    hide IsShareOf, IsSourceIdOf;
    assert forall e :: Seen(order, actions, e) ==> Seen(order, actions + [a], e);
    forall i | 0 <= i < |s.outbox|
      ensures ExactMessage(order, actions + [a], s.outbox, i)
    {
      assert ExactMessage(order, actions, s.outbox, i);
    }
    forall t | t in s.pending
      ensures ExactTask(order, actions + [a], s.pending[t])
    {
      assert ExactTask(order, actions, s.pending[t]);
    }
  }

  lemma {:induction false} SpawnExact(order: Order, actions: seq<Action>, s: Session, task: Task)
    requires Exact(order, actions, s) && ExactTask(order, actions, task)
    ensures Exact(order, actions, s.Spawn(task))
  {
    hide ExactTask, ExactMessage, ExactTx, ExactPontem;
  }

  lemma {:induction false} DropExact(order: Order, actions: seq<Action>, s: Session, t: nat)
    requires Exact(order, actions, s) && t in s.pending
    ensures Exact(order, actions, s.Drop(t)) && ExactTask(order, actions, s.pending[t])
  {
    hide ExactTask, ExactMessage, ExactTx, ExactPontem;
  }

  lemma {:induction false} OutboxPrefix(order: Order, actions: seq<Action>, outbox: seq<Message>, more: seq<Message>)
    requires MessagesExact(order, actions, outbox)
    ensures forall i :: 0 <= i < |outbox| ==> ExactMessage(order, actions, outbox + more, i)
  {
    hide ExactTx, ExactGasless;
    forall i | 0 <= i < |outbox|
      ensures ExactMessage(order, actions, outbox + more, i)
    {
      assert ExactMessage(order, actions, outbox, i);
    }
  }

  lemma {:induction false} SendExact(order: Order, actions: seq<Action>, s: Session, m: Message)
    requires Exact(order, actions, s)
    requires (m.SignedGasless? && ExactGasless(order, actions, m.event, m.amount))
             || (m.SecretReveal? && m.orderId == order.orderId && m.secret == order.secret)
    ensures Exact(order, actions, s.Send(m))
  {
    OutboxPrefix(order, actions, s.outbox, [m]);
    hide ExactTask, ExactTx, ExactPontem, ExactGasless;
    assert ExactMessage(order, actions, s.outbox + [m], |s.outbox|);
  }

  lemma {:induction false} SendPairExact(order: Order, actions: seq<Action>, s: Session, tx: SourceEscrow, timelock: nat)
    requires Exact(order, actions, s) && ExactTx(order, actions, tx)
    ensures Exact(order, actions, s.Send(SignedSponsored(tx, timelock)).Send(SourceCreated(tx.sourceId, tx.amount)))
  {
    var pair := [SignedSponsored(tx, timelock), SourceCreated(tx.sourceId, tx.amount)];
    var after := s.Send(pair[0]).Send(pair[1]);
    OutboxPrefix(order, actions, s.outbox, pair);
    assert after.outbox == s.outbox + pair;
    hide ExactTask, ExactTx, ExactPontem, ExactGasless;
    assert ExactMessage(order, actions, after.outbox, |s.outbox|);
    assert ExactMessage(order, actions, after.outbox, |s.outbox| + 1);
  }

  lemma {:induction false} SignExact(order: Order, actions: seq<Action>, s: Session, tx: SourceEscrow)
    requires Exact(order, actions, s) && ExactTx(order, actions, tx)
    ensures Exact(order, actions, Sign(s, tx))
  {
    var s' := s.(signedTxs := s.signedTxs + [tx]);
    assert Exact(order, actions, s') by { hide ExactTask, ExactMessage, ExactTx, ExactPontem; }
    hide Exact;
    SpawnExact(order, actions, s', WalletSigned(tx));
  }

  lemma {:induction false} PontemExact(order: Order, actions: seq<Action>, s: Session, payload: SourceEscrow)
    requires Exact(order, actions, s) && ExactPontem(order, actions, payload)
    ensures Exact(order, actions, s.(pontemTxs := s.pontemTxs + [payload]))
  {
    hide ExactTask, ExactMessage, ExactTx, ExactPontem;
  }

  lemma {:induction false} AskOthersExact(order: Order, actions: seq<Action>, s: Session, tx: SourceEscrow)
    requires Exact(order, actions, s) && ExactTx(order, actions, tx)
    ensures Exact(order, actions, AskOthers(order, s, tx)) && Exact(order, actions, AskRise(order, s, tx))
  {
    hide Exact, ExactTx;
    SpawnExact(order, actions, s, PetraAsked(tx));
    SpawnExact(order, actions, s, RiseAsked(tx));
  }

  lemma {:induction false} AnswerExact(order: Order, actions: seq<Action>, s: Session, e: DestinationEvent)
    requires Exact(order, actions, s) && Seen(order, actions, e)
    ensures Exact(order, actions, AnswerDestination(order, s, e))
  {
    BuiltIsExact(order, e);
    if order.fromChain.Aptos? && e.chain.Ethereum? {
      var s' := s.(createdEscrows := s.createdEscrows + {e.escrowId}, intentTimelock := e.timelock);
      assert Exact(order, actions, s');
      hide Exact;
      SpawnExact(order, actions, s', SignTimer(e));
    } else if order.fromChain.Ethereum? && e.chain.Aptos? {
      hide Exact, IsShareOf;
      SpawnExact(order, actions, s, WethTimer(e, AmountFor(order, e)));
    }
  }

  lemma {:induction false} RevealExact(order: Order, actions: seq<Action>, s: Session)
    requires Exact(order, actions, s)
    ensures Exact(order, actions, StartReveal(s))
  {
    if !s.revealed {
      assert Exact(order, actions, s.(revealed := true));
      hide Exact;
      SpawnExact(order, actions, s.(revealed := true), RevealTimer);
    }
  }

  lemma {:induction false} ContinueExact(order: Order, actions: seq<Action>, s: Session, t: nat)
    requires Exact(order, actions, s) && t in s.pending
    ensures Exact(order, actions, Continue(order, s.Drop(t), s.pending[t]))
  {
    var d, task := s.Drop(t), s.pending[t];
    DropExact(order, actions, s, t);
    hide Exact, IsShareOf, IsSourceIdOf, Seen, AmountFor, SourceIdFor, AnswerDestination, Sign, AskOthers, StartReveal;
    match task
    case DestinationLogged(e) => AnswerExact(order, actions, d, e);
    case SignTimer(e) => SpawnExact(order, actions, d, SignStarted(e));
    case SignStarted(e) =>
      BuiltIsExact(order, e);
      SpawnExact(order, actions, d, Built(BuildTx(order, d, e)));
    case Built(tx) => SignExact(order, actions, d, tx);
    case PontemAsked(tx, payload) =>
      PontemExact(order, actions, d, payload);
      AskOthersExact(order, actions, d.(pontemTxs := d.pontemTxs + [payload]), tx);
    case PetraAsked(tx) => SignExact(order, actions, d, tx);
    case RiseAsked(tx) => SignExact(order, actions, d, tx);
    case WalletSigned(tx) => SendPairExact(order, actions, d, tx, d.intentTimelock);
    case WethTimer(e, amount) => SendExact(order, actions, d, SignedGasless(e, amount));
    case SourceLogged => RevealExact(order, actions, d);
    case RevealTimer => SendExact(order, actions, d, SecretReveal(order.orderId, order.secret));
  }

  lemma {:induction false} RefuseExact(order: Order, actions: seq<Action>, s: Session, t: nat)
    requires Exact(order, actions, s) && t in s.pending && AsksWallet(s.pending[t])
    ensures Exact(order, actions, Refused(order, s.Drop(t), s.pending[t]))
  {
    var d, task := s.Drop(t), s.pending[t];
    DropExact(order, actions, s, t);
    hide Exact, IsShareOf, IsSourceIdOf, Seen, AskOthers, AskRise;
    AskOthersExact(order, actions, d, task.tx);
    if task.Built? {
      SpawnExact(order, actions, d, PontemAsked(task.tx, PontemPayload(order, d, task.tx.event)));
    }
  }

  lemma {:induction false} StepExact(order: Order, actions: seq<Action>, s: Session, a: Action)
    requires Exact(order, actions, s)
    ensures Exact(order, actions + [a], Step(order, s, a))
  {
    ExactLater(order, actions, s, a);
    var all := actions + [a];
    hide Exact, Continue, Refused;
    match a
    case DeliverDestination(e) =>
      if e.orderId == order.orderId {
        assert a in all;
        SpawnExact(order, all, s, DestinationLogged(e));
      }
    case DeliverSource(id) => SpawnExact(order, all, s, SourceLogged);
    case DeliverFill(id, e) => FillsDoNotMatter(order, all, s, a);
    case Resume(t) => if t in s.pending { ContinueExact(order, all, s, t); }
    case Refuse(t) => if t in s.pending && AsksWallet(s.pending[t]) { RefuseExact(order, all, s, t); }
    case Fail(t) => if t in s.pending { DropExact(order, all, s, t); }
  }

  lemma {:induction false} FillsDoNotMatter(order: Order, actions: seq<Action>, s: Session, a: Action)
    requires Exact(order, actions, s) && a.DeliverFill?
    ensures Exact(order, actions, Step(order, s, a))
  {
  }

  lemma {:induction false} StartsExact(order: Order)
    ensures Exact(order, [], Initial(order))
  {
  }

  /**
   In every interleaving, each transaction that is signed or sent answers a delivered event of this order, under that event's
   id and for that event's share; each transaction sent is announced at once with its own id and amount, and
   nothing else is announced; and each gasless message is for its own event and that event's share.
   */
  lemma {:induction false} AlwaysExact(order: Order, actions: seq<Action>)
    ensures Exact(order, actions, Run(order, actions))
    decreases |actions|
  {
    if actions == [] {
      StartsExact(order);
    } else {
      var front, last := actions[..|actions| - 1], actions[|actions| - 1];
      AlwaysExact(order, front);
      assert front + [last] == actions;
      hide Exact, Step;
      StepExact(order, front, Run(order, front), last);
    }
  }

  /** In every interleaving two different transactions sent have the same source escrow id exactly when neither is for a part. */
  lemma {:induction false} SameSourceIdIff(order: Order, actions: seq<Action>, i: int, j: int)
    requires var outbox := Run(order, actions).outbox;
      0 <= i < j < |outbox| && outbox[i].SignedSponsored? && outbox[j].SignedSponsored?
    ensures var a, b := Run(order, actions).outbox[i].tx, Run(order, actions).outbox[j].tx;
      a.sourceId == b.sourceId <==> !ForPart(a.event) && !ForPart(b.event)
  {
    AlwaysExact(order, actions);
    OneSourceEscrowPerDestination(order, actions);
    var outbox := Run(order, actions).outbox;
    hide Run, IsShareOf, TasksApart, TasksRecorded, Answered, TicketsFresh;
    assert ExactMessage(order, actions, outbox, i) && ExactMessage(order, actions, outbox, j);
  }

  /** What is hashed for the source escrow id of a part. */
  function SourceIdText(destinationEscrowId: string, nonce: string): string {
    "source-" + destinationEscrowId + "-" + nonce
  }

  /** The hashed ids of two parts of one order are the same exactly when it is one destination escrow, or the hash collides. */
  lemma {:induction false} HashedSourceIdsIff(id: string -> Bytes, d1: string, d2: string, nonce: string)
    ensures var x, y := SourceIdText(d1, nonce), SourceIdText(d2, nonce);
      id(x) == id(y) <==> d1 == d2 || (x != y && id(x) == id(y))
  {
    var x, y := SourceIdText(d1, nonce), SourceIdText(d2, nonce);
    if x == y {
      assert d1 == x[7..|x| - |nonce| - 1];
      assert d2 == y[7..|y| - |nonce| - 1];
    }
  }
}
