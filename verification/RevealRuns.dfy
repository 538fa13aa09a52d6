/** When a session gives its secret away, over every interleaving. */
module RevealRuns {
  import opened SwapSession

  // ---------- At most once ----------

  ghost predicate NoReveal(s: Session) {
    forall i :: 0 <= i < |s.outbox| ==> !s.outbox[i].SecretReveal?
  }

  /** At most one message carries the secret, and it carries this order's. */
  ghost predicate RevealedAtMostOnce(order: Order, s: Session) {
    && (forall i, j :: 0 <= i < j < |s.outbox| ==> !(s.outbox[i].SecretReveal? && s.outbox[j].SecretReveal?))
    && (forall i :: 0 <= i < |s.outbox| && s.outbox[i].SecretReveal? ==>
          s.outbox[i] == SecretReveal(order.orderId, order.secret))
  }

  ghost predicate OneTimer(s: Session) {
    && (forall t :: t in s.pending ==> t < s.nextTask)
    && (forall t, u :: t in s.pending && u in s.pending && s.pending[t].RevealTimer? && s.pending[u].RevealTimer? ==> t == u)
    && (forall t :: t in s.pending && s.pending[t].RevealTimer? ==> s.revealed && NoReveal(s))
    && (!s.revealed ==> NoReveal(s))
  }

  ghost predicate RevealInvariant(order: Order, s: Session) {
    OneTimer(s) && RevealedAtMostOnce(order, s)
  }

  lemma {:induction false} SpawnKeepsReveal(order: Order, s: Session, task: Task)
    requires RevealInvariant(order, s) && !task.RevealTimer?
    ensures RevealInvariant(order, s.Spawn(task))
  {
  }

  lemma {:induction false} DropKeepsReveal(order: Order, s: Session, t: nat)
    requires RevealInvariant(order, s) && t in s.pending
    ensures RevealInvariant(order, s.Drop(t))
    ensures s.pending[t].RevealTimer? ==>
      NoReveal(s) && s.revealed && forall u :: u in s.Drop(t).pending ==> !s.Drop(t).pending[u].RevealTimer?
  {
  }

  lemma {:induction false} SendKeepsReveal(order: Order, s: Session, m: Message)
    requires RevealInvariant(order, s) && !m.SecretReveal?
    ensures RevealInvariant(order, s.Send(m))
  {
  }

  lemma {:induction false} StartKeepsReveal(order: Order, s: Session)
    requires RevealInvariant(order, s)
    ensures RevealInvariant(order, StartReveal(s))
  {
  }

  lemma {:induction false} SameReveal(order: Order, s: Session, s': Session)
    requires RevealInvariant(order, s)
    requires s'.pending == s.pending && s'.nextTask == s.nextTask && s'.revealed == s.revealed && s'.outbox == s.outbox
    ensures RevealInvariant(order, s')
  {
  }

  lemma {:induction false} SendSecretKeeps(order: Order, s: Session)
    requires RevealInvariant(order, s) && NoReveal(s) && s.revealed
    requires forall u :: u in s.pending ==> !s.pending[u].RevealTimer?
    ensures RevealInvariant(order, s.Send(SecretReveal(order.orderId, order.secret)))
  {
  }

  lemma {:induction false} SignKeepsReveal(order: Order, s: Session, tx: SourceEscrow)
    requires RevealInvariant(order, s)
    ensures RevealInvariant(order, Sign(s, tx))
  {
    hide RevealInvariant;
    SameReveal(order, s, s.(signedTxs := s.signedTxs + [tx]));
    SpawnKeepsReveal(order, s.(signedTxs := s.signedTxs + [tx]), WalletSigned(tx));
  }

  lemma {:induction false} AskOthersKeepsReveal(order: Order, s: Session, tx: SourceEscrow)
    requires RevealInvariant(order, s)
    ensures RevealInvariant(order, AskOthers(order, s, tx)) && RevealInvariant(order, AskRise(order, s, tx))
  {
    hide RevealInvariant;
    SpawnKeepsReveal(order, s, PetraAsked(tx));
    SpawnKeepsReveal(order, s, RiseAsked(tx));
  }

  lemma {:induction false} RefuseKeepsReveal(order: Order, s: Session, t: nat)
    requires RevealInvariant(order, s) && t in s.pending && AsksWallet(s.pending[t])
    ensures RevealInvariant(order, Refused(order, s.Drop(t), s.pending[t]))
  {
    var d, task := s.Drop(t), s.pending[t];
    DropKeepsReveal(order, s, t);
    hide RevealInvariant;
    AskOthersKeepsReveal(order, d, task.tx);
    SpawnKeepsReveal(order, d, PontemAsked(task.tx, PontemPayload(order, d, task.tx.event)));
  }

  lemma {:induction false} ContinueKeepsReveal(order: Order, s: Session, t: nat)
    requires RevealInvariant(order, s) && t in s.pending
    ensures RevealInvariant(order, Continue(order, s.Drop(t), s.pending[t]))
  {
    var d := s.Drop(t);
    DropKeepsReveal(order, s, t);
    hide RevealInvariant;
    match s.pending[t]
    case DestinationLogged(e) =>
      if order.fromChain.Aptos? && e.chain.Ethereum? && e.escrowId !in d.createdEscrows {
        var d' := d.(createdEscrows := d.createdEscrows + {e.escrowId}, intentTimelock := e.timelock);
        SameReveal(order, d, d');
        SpawnKeepsReveal(order, d', SignTimer(e));
      } else if order.fromChain.Ethereum? && e.chain.Aptos? {
        SpawnKeepsReveal(order, d, WethTimer(e, AmountFor(order, e)));
      }
    case SignTimer(e) => SpawnKeepsReveal(order, d, SignStarted(e));
    case SignStarted(e) => SpawnKeepsReveal(order, d, Built(BuildTx(order, d, e)));
    case Built(tx) => SignKeepsReveal(order, d, tx);
    case PontemAsked(tx, payload) =>
      SameReveal(order, d, d.(pontemTxs := d.pontemTxs + [payload]));
      AskOthersKeepsReveal(order, d.(pontemTxs := d.pontemTxs + [payload]), tx);
    case PetraAsked(tx) => SignKeepsReveal(order, d, tx);
    case RiseAsked(tx) => SignKeepsReveal(order, d, tx);
    case WalletSigned(tx) =>
      SendKeepsReveal(order, d, SignedSponsored(tx, d.intentTimelock));
      SendKeepsReveal(order, d.Send(SignedSponsored(tx, d.intentTimelock)), SourceCreated(tx.sourceId, tx.amount));
    case WethTimer(e, amount) => SendKeepsReveal(order, d, SignedGasless(e, amount));
    case SourceLogged => StartKeepsReveal(order, d);
    case RevealTimer => SendSecretKeeps(order, d);
  }

  lemma {:induction false} StepKeepsReveal(order: Order, s: Session, a: Action)
    requires RevealInvariant(order, s)
    ensures RevealInvariant(order, Step(order, s, a))
  {
    hide RevealInvariant, Continue, Refused;
    match a
    case DeliverDestination(e) => SpawnKeepsReveal(order, s, DestinationLogged(e));
    case DeliverSource(id) => SpawnKeepsReveal(order, s, SourceLogged);
    case DeliverFill(id, e) => SameReveal(order, s, Step(order, s, a));
    case Resume(t) => if t in s.pending { ContinueKeepsReveal(order, s, t); }
    case Refuse(t) => if t in s.pending && AsksWallet(s.pending[t]) { RefuseKeepsReveal(order, s, t); }
    case Fail(t) => if t in s.pending { DropKeepsReveal(order, s, t); }
  }

  /** In every interleaving the secret is sent at most once. */
  lemma {:induction false} SecretRevealedAtMostOnce(order: Order, actions: seq<Action>)
    ensures RevealedAtMostOnce(order, Run(order, actions)) && RevealInvariant(order, Run(order, actions))
    decreases |actions|
  {
    if actions != [] {
      hide Step;
      SecretRevealedAtMostOnce(order, actions[..|actions| - 1]);
      StepKeepsReveal(order, Run(order, actions[..|actions| - 1]), actions[|actions| - 1]);
    }
  }

  // ---------- Only after both escrows ----------

  predicate IsSourceEvent(order: Order, a: Action) {
    a == DeliverSource(order.orderId)
  }

  /** A destination event of this order on the chain the order goes to. */
  predicate IsDestinationEvent(order: Order, a: Action) {
    a.DeliverDestination? && a.event.orderId == order.orderId && a.event.chain != order.fromChain
  }

  ghost predicate SourceSeen(order: Order, actions: seq<Action>) {
    exists k :: 0 <= k < |actions| && IsSourceEvent(order, actions[k])
  }

  ghost predicate DestinationSeen(order: Order, actions: seq<Action>) {
    exists k :: 0 <= k < |actions| && IsDestinationEvent(order, actions[k])
  }

  /** The message tells the engine that this client has signed a source escrow. */
  predicate IsSignedMessage(m: Message) {
    m.SignedSponsored? || m.SourceCreated? || m.SignedGasless?
  }

  /** A task past the check of the event's direction. */
  predicate Answering(task: Task) {
    task.SignTimer? || task.SignStarted? || AsksWallet(task) || task.WalletSigned? || task.WethTimer?
  }

  ghost predicate HasSigned(s: Session) {
    exists i :: 0 <= i < |s.outbox| && IsSignedMessage(s.outbox[i])
  }

  ghost predicate SourceCause(order: Order, s: Session, seen: bool) {
    && (s.revealed ==> seen)
    && (forall t :: t in s.pending && s.pending[t].SourceLogged? ==> seen)
    && (!NoReveal(s) ==> s.revealed)
    && (forall t :: t in s.pending && s.pending[t].RevealTimer? ==> s.revealed)
  }

  ghost predicate DestinationCause(order: Order, s: Session, seen: bool) {
    && (forall t :: t in s.pending && s.pending[t].DestinationLogged? && s.pending[t].event.chain != order.fromChain ==> seen)
    && (forall t :: t in s.pending && Answering(s.pending[t]) ==> seen)
    && (HasSigned(s) ==> seen)
  }

  lemma {:induction false} StepSourceCause(order: Order, s: Session, a: Action, seen: bool)
    requires SourceCause(order, s, seen)
    ensures SourceCause(order, Step(order, s, a), seen || IsSourceEvent(order, a))
  {
    if a.Resume? && a.task in s.pending {
      ContinueSourceCause(order, s, a.task, seen);
    } else if a.Refuse? && a.task in s.pending && AsksWallet(s.pending[a.task]) {
      RefuseSourceCause(order, s, a.task, seen);
    }
  }

  lemma {:induction false} RefuseSourceCause(order: Order, s: Session, t: nat, seen: bool)
    requires SourceCause(order, s, seen) && t in s.pending && AsksWallet(s.pending[t])
    ensures SourceCause(order, Refused(order, s.Drop(t), s.pending[t]), seen)
  {
  }

  lemma {:induction false} ContinueSourceCause(order: Order, s: Session, t: nat, seen: bool)
    requires SourceCause(order, s, seen) && t in s.pending
    ensures SourceCause(order, Continue(order, s.Drop(t), s.pending[t]), seen)
  {
  }

  lemma {:induction false} StepDestinationCause(order: Order, s: Session, a: Action, seen: bool)
    requires DestinationCause(order, s, seen)
    ensures DestinationCause(order, Step(order, s, a), seen || IsDestinationEvent(order, a))
  {
    if a.Resume? && a.task in s.pending {
      ContinueDestinationCause(order, s, a.task, seen);
    } else if a.Refuse? && a.task in s.pending && AsksWallet(s.pending[a.task]) {
      RefuseDestinationCause(order, s, a.task, seen);
    }
  }

  lemma {:induction false} RefuseDestinationCause(order: Order, s: Session, t: nat, seen: bool)
    requires DestinationCause(order, s, seen) && t in s.pending && AsksWallet(s.pending[t])
    ensures DestinationCause(order, Refused(order, s.Drop(t), s.pending[t]), seen)
  {
  }

  lemma {:induction false} ContinueDestinationCause(order: Order, s: Session, t: nat, seen: bool)
    requires DestinationCause(order, s, seen) && t in s.pending
    ensures DestinationCause(order, Continue(order, s.Drop(t), s.pending[t]), seen)
  {
  }

  lemma {:induction false} RunCauses(order: Order, actions: seq<Action>)
    ensures SourceCause(order, Run(order, actions), SourceSeen(order, actions))
    ensures DestinationCause(order, Run(order, actions), DestinationSeen(order, actions))
    decreases |actions|
  {
    if actions != [] {
      hide Step, SourceCause, DestinationCause, IsSourceEvent, IsDestinationEvent;
      var front, last := actions[..|actions| - 1], actions[|actions| - 1];
      RunCauses(order, front);
      StepSourceCause(order, Run(order, front), last, SourceSeen(order, front));
      StepDestinationCause(order, Run(order, front), last, DestinationSeen(order, front));
      SeenSnoc(order, front, last);
      assert actions == front + [last];
    }
  }

  lemma {:induction false} SeenSnoc(order: Order, front: seq<Action>, last: Action)
    ensures SourceSeen(order, front + [last]) <==> SourceSeen(order, front) || IsSourceEvent(order, last)
    ensures DestinationSeen(order, front + [last]) <==> DestinationSeen(order, front) || IsDestinationEvent(order, last)
  {
    hide IsSourceEvent, IsDestinationEvent;
    var actions := front + [last];
    assert actions[|front|] == last;
    assert forall k :: 0 <= k < |front| ==> actions[k] == front[k];
    if SourceSeen(order, front) {
      var k :| 0 <= k < |front| && IsSourceEvent(order, front[k]);
      assert IsSourceEvent(order, actions[k]);
    }
    if DestinationSeen(order, front) {
      var k :| 0 <= k < |front| && IsDestinationEvent(order, front[k]);
      assert IsDestinationEvent(order, actions[k]);
    }
  }

  /** In every interleaving the secret is sent only after a source escrow event for this order. */
  lemma {:induction false} RevealOnlyAfterSource(order: Order, actions: seq<Action>)
    requires !NoReveal(Run(order, actions))
    ensures SourceSeen(order, actions)
  {
    RunCauses(order, actions);
  }

  /** The engine announces a source escrow of this order only once this client has signed one. */
  ghost predicate EngineAnnouncesSigned(order: Order, actions: seq<Action>) {
    forall k :: 0 <= k < |actions| && IsSourceEvent(order, actions[k]) ==> HasSigned(Run(order, actions[..k]))
  }

  /** Then a destination escrow event came first, a source escrow event second, and the secret last. */
  lemma {:induction false} RevealOnlyAfterBoth(order: Order, actions: seq<Action>)
    requires EngineAnnouncesSigned(order, actions) && !NoReveal(Run(order, actions))
    ensures exists i, j :: 0 <= i < j < |actions| && IsDestinationEvent(order, actions[i]) && IsSourceEvent(order, actions[j])
  {
    RevealOnlyAfterSource(order, actions);
    var j :| 0 <= j < |actions| && IsSourceEvent(order, actions[j]);
    RunCauses(order, actions[..j]);
    hide Run, HasSigned;
    var i :| 0 <= i < |actions[..j]| && IsDestinationEvent(order, actions[..j][i]);
    assert actions[..j][i] == actions[i];
  }
}
