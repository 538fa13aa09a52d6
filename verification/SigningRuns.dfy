/** What every interleaving of a session keeps about the source escrows it signs. */
module SigningRuns {
  import opened SwapSession

  predicate IsSigning(task: Task) {
    task.SignTimer? || task.SignStarted? || AsksWallet(task) || task.WalletSigned?
  }

  /** No wallet has signed the transaction yet. */
  predicate BeforeWallet(task: Task) {
    task.SignTimer? || task.SignStarted? || AsksWallet(task)
  }

  /** Pontem has not been asked, or has not answered yet. */
  predicate BeforePontem(task: Task) {
    task.SignTimer? || task.SignStarted? || task.Built? || task.PontemAsked?
  }

  predicate OtherWallet(order: Order) {
    order.wallets.petra || order.wallets.rise
  }

  function EventOf(task: Task): DestinationEvent
    requires IsSigning(task)
  {
    if task.SignTimer? || task.SignStarted? then task.event else task.tx.event
  }

  function IdOf(task: Task): string
    requires IsSigning(task)
  {
    EventOf(task).escrowId
  }

  /** No pending task is signing for this destination escrow. */
  ghost predicate Idle(s: Session, id: string) {
    forall t :: t in s.pending && IsSigning(s.pending[t]) ==> IdOf(s.pending[t]) != id
  }

  ghost predicate NotSigned(s: Session, id: string) {
    forall i :: 0 <= i < |s.signedTxs| ==> s.signedTxs[i].event.escrowId != id
  }

  ghost predicate NotPontem(s: Session, id: string) {
    forall i :: 0 <= i < |s.pontemTxs| ==> s.pontemTxs[i].event.escrowId != id
  }

  ghost predicate NotSent(s: Session, id: string) {
    forall i :: 0 <= i < |s.outbox| && s.outbox[i].SignedSponsored? ==> s.outbox[i].tx.event.escrowId != id
  }

  ghost predicate TicketsFresh(s: Session) {
    forall t :: t in s.pending ==> t < s.nextTask
  }

  ghost predicate TasksApart(s: Session) {
    forall t, u :: t in s.pending && u in s.pending && t != u && IsSigning(s.pending[t]) && IsSigning(s.pending[u]) ==>
      IdOf(s.pending[t]) != IdOf(s.pending[u])
  }

  ghost predicate TasksRecorded(s: Session) {
    forall t :: t in s.pending && IsSigning(s.pending[t]) ==>
      && IdOf(s.pending[t]) in s.createdEscrows && NotSent(s, IdOf(s.pending[t]))
      && (BeforeWallet(s.pending[t]) ==> NotSigned(s, IdOf(s.pending[t])))
      && (BeforePontem(s.pending[t]) ==> NotPontem(s, IdOf(s.pending[t])))
      && (s.pending[t].PontemAsked? ==> s.pending[t].payload.event == s.pending[t].tx.event)
  }

  /**
   For each destination escrow at most one transaction is sent, at most one of its own is signed, and at most one
   is signed by Pontem.
   */
  ghost predicate OncePerDestination(s: Session) {
    && (forall i, j :: 0 <= i < j < |s.signedTxs| ==>
          s.signedTxs[i].event.escrowId != s.signedTxs[j].event.escrowId)
    && (forall i, j :: 0 <= i < j < |s.pontemTxs| ==>
          s.pontemTxs[i].event.escrowId != s.pontemTxs[j].event.escrowId)
    && (forall i, j :: 0 <= i < j < |s.outbox| && s.outbox[i].SignedSponsored? && s.outbox[j].SignedSponsored? ==>
          s.outbox[i].tx.event.escrowId != s.outbox[j].tx.event.escrowId)
  }

  ghost predicate Answered(s: Session) {
    && (forall i :: 0 <= i < |s.signedTxs| ==> s.signedTxs[i].event.escrowId in s.createdEscrows)
    && (forall i :: 0 <= i < |s.pontemTxs| ==> s.pontemTxs[i].event.escrowId in s.createdEscrows)
    && (forall i :: 0 <= i < |s.outbox| && s.outbox[i].SignedSponsored? ==>
          s.outbox[i].tx.event.escrowId in s.createdEscrows)
  }

  ghost predicate Invariant(s: Session) {
    TicketsFresh(s) && TasksApart(s) && TasksRecorded(s) && OncePerDestination(s) && Answered(s)
  }

  lemma {:induction false} DropKeeps(s: Session, t: nat)
    requires Invariant(s) && t in s.pending
    ensures Invariant(s.Drop(t))
    ensures IsSigning(s.pending[t]) ==>
      var id := IdOf(s.pending[t]);
      && Idle(s.Drop(t), id) && id in s.createdEscrows && NotSent(s.Drop(t), id)
      && (BeforeWallet(s.pending[t]) ==> NotSigned(s.Drop(t), id))
      && (BeforePontem(s.pending[t]) ==> NotPontem(s.Drop(t), id))
      && (s.pending[t].PontemAsked? ==> s.pending[t].payload.event == s.pending[t].tx.event)
  {
  }

  lemma {:induction false} SpawnKeeps(s: Session, task: Task)
    requires Invariant(s)
    requires IsSigning(task) ==>
      && Idle(s, IdOf(task)) && IdOf(task) in s.createdEscrows && NotSent(s, IdOf(task))
      && (BeforeWallet(task) ==> NotSigned(s, IdOf(task)))
      && (BeforePontem(task) ==> NotPontem(s, IdOf(task)))
      && (task.PontemAsked? ==> task.payload.event == task.tx.event)
    ensures Invariant(s.Spawn(task))
  {
  }

  lemma {:induction false} SendOtherKeeps(s: Session, m: Message)
    requires Invariant(s) && !m.SignedSponsored?
    ensures Invariant(s.Send(m))
  {
  }

  lemma {:induction false} SendSponsoredKeeps(s: Session, tx: SourceEscrow, timelock: nat)
    requires Invariant(s) && Idle(s, tx.event.escrowId) && tx.event.escrowId in s.createdEscrows
    requires NotSent(s, tx.event.escrowId)
    ensures Invariant(s.Send(SignedSponsored(tx, timelock)))
  {
  }

  /** A signing task has just been removed: nothing else is signing for its escrow. */
  ghost predicate Free(s: Session, tx: SourceEscrow) {
    var id := tx.event.escrowId;
    Idle(s, id) && id in s.createdEscrows && NotSent(s, id) && NotSigned(s, id)
  }

  lemma {:induction false} AppendSignedKeeps(s: Session, tx: SourceEscrow)
    requires Invariant(s) && Free(s, tx)
    ensures var s' := s.(signedTxs := s.signedTxs + [tx]);
      Invariant(s') && Idle(s', tx.event.escrowId) && NotSent(s', tx.event.escrowId)
  {
  }

  lemma {:induction false} SignKeeps(s: Session, tx: SourceEscrow)
    requires Invariant(s) && Free(s, tx)
    ensures Invariant(Sign(s, tx))
  {
    AppendSignedKeeps(s, tx);
    hide Invariant, Idle, NotSent, NotSigned, NotPontem;
    SpawnKeeps(s.(signedTxs := s.signedTxs + [tx]), WalletSigned(tx));
  }

  lemma {:induction false} PontemSignKeeps(s: Session, tx: SourceEscrow, payload: SourceEscrow)
    requires Invariant(s) && Free(s, tx) && NotPontem(s, tx.event.escrowId) && payload.event == tx.event
    ensures var s' := s.(pontemTxs := s.pontemTxs + [payload]);
      Invariant(s') && Free(s', tx)
  {
  }

  lemma {:induction false} AskOthersKeeps(order: Order, s: Session, tx: SourceEscrow)
    requires Invariant(s) && Free(s, tx)
    ensures Invariant(AskOthers(order, s, tx)) && Invariant(AskRise(order, s, tx))
  {
    hide Invariant, Idle, NotSent, NotSigned, NotPontem;
    SpawnKeeps(s, PetraAsked(tx));
    SpawnKeeps(s, RiseAsked(tx));
  }

  lemma {:induction false} RefuseKeeps(order: Order, s: Session, t: nat)
    requires Invariant(s) && t in s.pending && AsksWallet(s.pending[t])
    ensures Invariant(Refused(order, s.Drop(t), s.pending[t]))
  {
    var d, task := s.Drop(t), s.pending[t];
    DropKeeps(s, t);
    hide Invariant, Idle, NotSent, NotSigned, NotPontem;
    AskOthersKeeps(order, d, task.tx);
    if task.Built? {
      SpawnKeeps(d, PontemAsked(task.tx, PontemPayload(order, d, task.tx.event)));
    }
  }

  lemma {:induction false} AnswerKeeps(order: Order, s: Session, e: DestinationEvent)
    requires Invariant(s)
    ensures Invariant(AnswerDestination(order, s, e))
  {
    if order.fromChain.Aptos? && e.chain.Ethereum? {
      if e.escrowId !in s.createdEscrows {
        var s' := s.(createdEscrows := s.createdEscrows + {e.escrowId}, intentTimelock := e.timelock);
        assert Invariant(s');
        assert Idle(s', e.escrowId) && NotSent(s', e.escrowId) && NotSigned(s', e.escrowId) && NotPontem(s', e.escrowId);
        SpawnKeeps(s', SignTimer(e));
      }
    } else if order.fromChain.Ethereum? && e.chain.Aptos? {
      SpawnKeeps(s, WethTimer(e, AmountFor(order, e)));
    }
  }

  lemma {:induction false} ContinueKeeps(order: Order, s: Session, t: nat)
    requires Invariant(s) && t in s.pending
    ensures Invariant(Continue(order, s.Drop(t), s.pending[t]))
  {
    var d, task := s.Drop(t), s.pending[t];
    DropKeeps(s, t);
    hide Invariant, Idle, NotSent, NotSigned, NotPontem;
    match task
    case DestinationLogged(e) => AnswerKeeps(order, d, e);
    case SignTimer(e) => SpawnKeeps(d, SignStarted(e));
    case SignStarted(e) => SpawnKeeps(d, Built(BuildTx(order, d, e)));
    case Built(tx) => SignKeeps(d, tx);
    case PontemAsked(tx, payload) =>
      PontemSignKeeps(d, tx, payload);
      AskOthersKeeps(order, d.(pontemTxs := d.pontemTxs + [payload]), tx);
    case PetraAsked(tx) => SignKeeps(d, tx);
    case RiseAsked(tx) => SignKeeps(d, tx);
    case WalletSigned(tx) =>
      SendSponsoredKeeps(d, tx, d.intentTimelock);
      SendOtherKeeps(d.Send(SignedSponsored(tx, d.intentTimelock)), SourceCreated(tx.sourceId, tx.amount));
    case WethTimer(e, amount) => SendOtherKeeps(d, SignedGasless(e, amount));
    case SourceLogged => RevealKeeps(d);
    case RevealTimer => SendOtherKeeps(d, SecretReveal(order.orderId, order.secret));
  }

  lemma {:induction false} RevealKeeps(s: Session)
    requires Invariant(s)
    ensures Invariant(StartReveal(s))
  {
    if !s.revealed {
      assert Invariant(s.(revealed := true));
      SpawnKeeps(s.(revealed := true), RevealTimer);
    }
  }

  lemma {:induction false} StepKeeps(order: Order, s: Session, a: Action)
    requires Invariant(s)
    ensures Invariant(Step(order, s, a))
  {
    match a
    case DeliverDestination(e) => SpawnKeeps(s, DestinationLogged(e));
    case DeliverSource(id) => SpawnKeeps(s, SourceLogged);
    case DeliverFill(id, e) =>
    case Resume(t) => if t in s.pending { ContinueKeeps(order, s, t); }
    case Refuse(t) => if t in s.pending && AsksWallet(s.pending[t]) { RefuseKeeps(order, s, t); }
    case Fail(t) => if t in s.pending { DropKeeps(s, t); }
  }

  /**
   In every interleaving of duplicated and reordered events, with wallets refusing as they like, at most one source
   escrow is sent per destination escrow.
   */
  lemma {:induction false} OneSourceEscrowPerDestination(order: Order, actions: seq<Action>)
    ensures OncePerDestination(Run(order, actions)) && Invariant(Run(order, actions))
    decreases |actions|
  {
    if actions != [] {
      hide Step;
      OneSourceEscrowPerDestination(order, actions[..|actions| - 1]);
      StepKeeps(order, Run(order, actions[..|actions| - 1]), actions[|actions| - 1]);
    }
  }
}
