/**
 What a session has done once nothing is waiting any more: everything it should have, exactly once.

 A run without failures whose pending tasks have all been settled is quiet. Wallets may refuse in it, as long as
 another one is left to ask.
 */
module CompletionRuns {
  import opened SwapSession
  import opened SigningRuns
  import opened BudgetRuns
  import opened RevealRuns

  /** The last wallet there is has refused, or Pontem has signed and there is no other. */
  predicate GivesUp(order: Order, s: Session, a: Action) {
    match a
    case Refuse(t) =>
      t in s.pending &&
      (match s.pending[t]
       case Built(_) => !order.wallets.pontem && !OtherWallet(order)
       case PontemAsked(_, _) => !OtherWallet(order)
       case PetraAsked(_) => !order.wallets.rise
       case RiseAsked(_) => true
       case _ => false)
    case Resume(t) => t in s.pending && s.pending[t].PontemAsked? && !OtherWallet(order)
    case _ => false
  }

  predicate Settles(order: Order, s: Session, a: Action) {
    !a.Fail? && !GivesUp(order, s, a)
  }

  ghost predicate NoFailure(order: Order, actions: seq<Action>) {
    forall k :: 0 <= k < |actions| ==> Settles(order, Run(order, actions[..k]), actions[k])
  }

  lemma {:induction false} NoFailureBefore(order: Order, actions: seq<Action>)
    requires actions != [] && NoFailure(order, actions)
    ensures var front, last := actions[..|actions| - 1], actions[|actions| - 1];
      NoFailure(order, front) && Settles(order, Run(order, front), last)
  {
    hide Run, Settles;
    var front := actions[..|actions| - 1];
    forall k | 0 <= k < |front|
      ensures Settles(order, Run(order, front[..k]), front[k])
    {
      assert front[..k] == actions[..k] && front[k] == actions[k];
    }
  }

  ghost predicate Quiet(order: Order, actions: seq<Action>) {
    NoFailure(order, actions) && Run(order, actions).pending == map[]
  }

  ghost predicate SentFor(s: Session, id: string) {
    exists i :: 0 <= i < |s.outbox| && s.outbox[i].SignedSponsored? && s.outbox[i].tx.event.escrowId == id
  }

  ghost predicate SigningFor(s: Session, id: string) {
    exists t :: t in s.pending && IsSigning(s.pending[t]) && IdOf(s.pending[t]) == id
  }

  ghost predicate Logged(s: Session, e: DestinationEvent) {
    exists t :: t in s.pending && s.pending[t] == DestinationLogged(e)
  }

  ghost predicate RevealSent(s: Session) {
    exists i :: 0 <= i < |s.outbox| && s.outbox[i].SecretReveal?
  }

  ghost predicate Has(s: Session, task: Task) {
    exists t :: t in s.pending && s.pending[t] == task
  }

  /** Every answered escrow is being signed for or has been sent. */
  ghost predicate NoneLost(s: Session, id: string) {
    id in s.createdEscrows ==> SigningFor(s, id) || SentFor(s, id)
  }

  /** A delivered event waits for its handler or has been answered. */
  ghost predicate EventNotLost(s: Session, e: DestinationEvent) {
    Logged(s, e) || e.escrowId in s.createdEscrows
  }

  ghost predicate RevealNotLost(s: Session) {
    s.revealed ==> Has(s, RevealTimer) || RevealSent(s)
  }

  ghost predicate SourceNotLost(s: Session) {
    Has(s, SourceLogged) || s.revealed
  }

  // ---------- Steps ----------

  lemma {:induction false} SpawnHas(s: Session, task: Task)
    requires TicketsFresh(s)
    ensures Has(s.Spawn(task), task)
    ensures forall other :: Has(s, other) ==> Has(s.Spawn(task), other)
    ensures forall id :: SigningFor(s, id) ==> SigningFor(s.Spawn(task), id)
    ensures IsSigning(task) ==> SigningFor(s.Spawn(task), IdOf(task))
  {
    var after := s.Spawn(task);
    assert after.pending[s.nextTask] == task;
    forall other | Has(s, other)
      ensures Has(after, other)
    {
      var t :| t in s.pending && s.pending[t] == other;
      assert after.pending[t] == other;
    }
    forall id | SigningFor(s, id)
      ensures SigningFor(after, id)
    {
      var t :| t in s.pending && IsSigning(s.pending[t]) && IdOf(s.pending[t]) == id;
      assert after.pending[t] == s.pending[t];
    }
  }

  lemma {:induction false} DropHas(s: Session, t: nat)
    requires t in s.pending
    ensures forall other :: Has(s, other) ==> Has(s.Drop(t), other) || other == s.pending[t]
    ensures forall id :: SigningFor(s, id) ==>
      SigningFor(s.Drop(t), id) || (IsSigning(s.pending[t]) && IdOf(s.pending[t]) == id)
  {
    var after := s.Drop(t);
    forall other | Has(s, other)
      ensures Has(after, other) || other == s.pending[t]
    {
      var u :| u in s.pending && s.pending[u] == other;
      assert u != t ==> u in after.pending && after.pending[u] == other;
    }
    forall id | SigningFor(s, id)
      ensures SigningFor(after, id) || (IsSigning(s.pending[t]) && IdOf(s.pending[t]) == id)
    {
      var u :| u in s.pending && IsSigning(s.pending[u]) && IdOf(s.pending[u]) == id;
      assert u != t ==> u in after.pending && after.pending[u] == s.pending[u];
    }
  }

  lemma {:induction false} SendHas(s: Session, m: Message)
    ensures forall id :: SentFor(s, id) ==> SentFor(s.Send(m), id)
    ensures m.SignedSponsored? ==> SentFor(s.Send(m), m.tx.event.escrowId)
    ensures RevealSent(s) ==> RevealSent(s.Send(m))
    ensures m.SecretReveal? ==> RevealSent(s.Send(m))
  {
    var after := s.Send(m);
    assert after.outbox[|s.outbox|] == m;
    forall id | SentFor(s, id)
      ensures SentFor(after, id)
    {
      var i :| 0 <= i < |s.outbox| && s.outbox[i].SignedSponsored? && s.outbox[i].tx.event.escrowId == id;
      assert after.outbox[i] == s.outbox[i];
    }
    if RevealSent(s) {
      var i :| 0 <= i < |s.outbox| && s.outbox[i].SecretReveal?;
      assert after.outbox[i] == s.outbox[i];
    }
  }

  lemma {:induction false} LoggedIsHas(s: Session, e: DestinationEvent)
    ensures Logged(s, e) <==> Has(s, DestinationLogged(e))
  {
  }

  /** Continuing a task hands its work on: a signing stays in progress until it has been sent. */
  lemma {:induction false} ContinueKeepsSigning(order: Order, s: Session, t: nat, id: string)
    requires Invariant(s) && t in s.pending && NoneLost(s, id) && !GivesUp(order, s, Resume(t))
    ensures NoneLost(Continue(order, s.Drop(t), s.pending[t]), id)
  {
    var d, task := s.Drop(t), s.pending[t];
    DropHas(s, t);
    hide Has, SigningFor, SentFor, Invariant;
    DroppedTickets(s, t);
    match task
    case DestinationLogged(e) =>
      if order.fromChain.Aptos? && e.chain.Ethereum? && e.escrowId !in d.createdEscrows {
        var d' := d.(createdEscrows := d.createdEscrows + {e.escrowId}, intentTimelock := e.timelock);
        SameWork(d, d', id);
        SpawnKeepsWork(d', SignTimer(e), id);
      } else if order.fromChain.Ethereum? && e.chain.Aptos? {
        SpawnKeepsWork(d, WethTimer(e, AmountFor(order, e)), id);
      }
    case SignTimer(e) => SpawnKeepsWork(d, SignStarted(e), id);
    case SignStarted(e) => SpawnKeepsWork(d, Built(BuildTx(order, d, e)), id);
    case Built(tx) => SignKeepsWork(d, tx, id);
    case PontemAsked(tx, payload) =>
      var d' := d.(pontemTxs := d.pontemTxs + [payload]);
      SameWork(d, d', id);
      AskOthersKeepsWork(order, d', tx, id);
    case PetraAsked(tx) => SignKeepsWork(d, tx, id);
    case RiseAsked(tx) => SignKeepsWork(d, tx, id);
    case WalletSigned(tx) =>
      var d' := d.Send(SignedSponsored(tx, d.intentTimelock));
      SendKeepsWork(d, SignedSponsored(tx, d.intentTimelock), id);
      SendKeepsWork(d', SourceCreated(tx.sourceId, tx.amount), id);
    case WethTimer(e, amount) => SendKeepsWork(d, SignedGasless(e, amount), id);
    case SourceLogged =>
      if !d.revealed {
        SameWork(d, d.(revealed := true), id);
        SpawnKeepsWork(d.(revealed := true), RevealTimer, id);
      }
    case RevealTimer => SendKeepsWork(d, SecretReveal(order.orderId, order.secret), id);
  }

  lemma {:induction false} SignKeepsWork(s: Session, tx: SourceEscrow, id: string)
    requires TicketsFresh(s)
    ensures SigningFor(s, id) || tx.event.escrowId == id ==> SigningFor(Sign(s, tx), id)
    ensures SentFor(Sign(s, tx), id) <==> SentFor(s, id)
  {
    hide SigningFor, SentFor, TicketsFresh;
    var s' := s.(signedTxs := s.signedTxs + [tx]);
    SameWork(s, s', id);
    SpawnKeepsWork(s', WalletSigned(tx), id);
  }

  lemma {:induction false} AskOthersKeepsWork(order: Order, s: Session, tx: SourceEscrow, id: string)
    requires TicketsFresh(s)
    ensures SigningFor(s, id) || (OtherWallet(order) && tx.event.escrowId == id) ==> SigningFor(AskOthers(order, s, tx), id)
    ensures SigningFor(s, id) || (order.wallets.rise && tx.event.escrowId == id) ==> SigningFor(AskRise(order, s, tx), id)
    ensures SentFor(s, id) ==> SentFor(AskOthers(order, s, tx), id) && SentFor(AskRise(order, s, tx), id)
  {
    hide SigningFor, SentFor, TicketsFresh;
    SpawnKeepsWork(s, PetraAsked(tx), id);
    SpawnKeepsWork(s, RiseAsked(tx), id);
  }

  /** A refusal hands the signing on to the next wallet. */
  lemma {:induction false} RefuseKeepsSigning(order: Order, s: Session, t: nat, id: string)
    requires Invariant(s) && t in s.pending && AsksWallet(s.pending[t]) && NoneLost(s, id) && !GivesUp(order, s, Refuse(t))
    ensures NoneLost(Refused(order, s.Drop(t), s.pending[t]), id)
  {
    var d, task := s.Drop(t), s.pending[t];
    DropHas(s, t);
    DroppedTickets(s, t);
    hide Has, SigningFor, SentFor, Invariant, TicketsFresh;
    AskOthersKeepsWork(order, d, task.tx, id);
    SpawnKeepsWork(d, PontemAsked(task.tx, PontemPayload(order, d, task.tx.event)), id);
    assert SentFor(d, id) <==> SentFor(s, id) by { SameOutbox(s, d, id); }
  }

  lemma {:induction false} SameOutbox(s: Session, s': Session, id: string)
    requires s'.outbox == s.outbox
    ensures SentFor(s', id) <==> SentFor(s, id)
  {
  }

  lemma {:induction false} DroppedTickets(s: Session, t: nat)
    requires Invariant(s) && t in s.pending
    ensures TicketsFresh(s) && TicketsFresh(s.Drop(t))
  {
  }

  lemma {:induction false} SameWork(s: Session, s': Session, id: string)
    requires s'.pending == s.pending && s'.outbox == s.outbox && s'.nextTask == s.nextTask && TicketsFresh(s)
    ensures TicketsFresh(s') && (SigningFor(s', id) <==> SigningFor(s, id)) && (SentFor(s', id) <==> SentFor(s, id))
  {
  }

  lemma {:induction false} SpawnKeepsWork(s: Session, task: Task, id: string)
    requires TicketsFresh(s)
    ensures SigningFor(s, id) || (IsSigning(task) && IdOf(task) == id) ==> SigningFor(s.Spawn(task), id)
    ensures SentFor(s.Spawn(task), id) <==> SentFor(s, id)
    ensures s.Spawn(task).createdEscrows == s.createdEscrows
  {
    SpawnHas(s, task);
  }

  lemma {:induction false} SendKeepsWork(s: Session, m: Message, id: string)
    ensures SigningFor(s.Send(m), id) <==> SigningFor(s, id)
    ensures SentFor(s, id) || (m.SignedSponsored? && m.tx.event.escrowId == id) ==> SentFor(s.Send(m), id)
    ensures s.Send(m).createdEscrows == s.createdEscrows
  {
    SendHas(s, m);
  }

  /** Continuing a task leaves every other waiting task where it is. */
  lemma {:induction false} ContinueKeepsOthers(order: Order, s: Session, t: nat, other: Task)
    requires Invariant(s) && t in s.pending && Has(s, other) && other != s.pending[t]
    ensures Has(Continue(order, s.Drop(t), s.pending[t]), other)
  {
    DropHas(s, t);
    var u :| u in s.Drop(t).pending && s.Drop(t).pending[u] == other;
    DroppedTickets(s, t);
    hide Invariant, Has, Continue;
    ContinueKeepsTask(order, s.Drop(t), s.pending[t], u);
    FoundHas(Continue(order, s.Drop(t), s.pending[t]), u);
  }

  lemma {:induction false} ContinueKeepsTask(order: Order, d: Session, task: Task, u: nat)
    requires TicketsFresh(d) && u in d.pending
    ensures var after := Continue(order, d, task);
      u in after.pending && after.pending[u] == d.pending[u]
  {
    assert u < d.nextTask;
    hide TicketsFresh;
  }

  lemma {:induction false} FoundHas(s: Session, t: nat)
    requires t in s.pending
    ensures Has(s, s.pending[t])
  {
  }

  lemma {:induction false} ContinueKeepsEvent(order: Order, s: Session, t: nat, e: DestinationEvent)
    requires Invariant(s) && t in s.pending && EventNotLost(s, e) && order.fromChain.Aptos? && e.chain.Ethereum?
    ensures EventNotLost(Continue(order, s.Drop(t), s.pending[t]), e)
  {
    var after := Continue(order, s.Drop(t), s.pending[t]);
    LoggedIsHas(s, e);
    LoggedIsHas(after, e);
    hide Invariant, Has, Logged;
    assert s.createdEscrows <= after.createdEscrows;
    if e.escrowId !in s.createdEscrows && s.pending[t] != DestinationLogged(e) {
      ContinueKeepsOthers(order, s, t, DestinationLogged(e));
    }
  }

  lemma {:induction false} ContinueKeepsSource(order: Order, s: Session, t: nat)
    requires Invariant(s) && t in s.pending && SourceNotLost(s)
    ensures SourceNotLost(Continue(order, s.Drop(t), s.pending[t]))
  {
    hide Invariant, Has;
    if !s.revealed && s.pending[t] != SourceLogged {
      ContinueKeepsOthers(order, s, t, SourceLogged);
    }
  }

  lemma {:induction false} ContinueKeepsRevealWork(order: Order, s: Session, t: nat)
    requires Invariant(s) && t in s.pending && RevealNotLost(s)
    ensures RevealNotLost(Continue(order, s.Drop(t), s.pending[t]))
  {
    var d, task := s.Drop(t), s.pending[t];
    var after := Continue(order, d, task);
    if task == SourceLogged && !s.revealed {
      DroppedTickets(s, t);
      assert after == d.(revealed := true).Spawn(RevealTimer);
      SpawnHas(d.(revealed := true), RevealTimer);
    } else if task == RevealTimer {
      SendHas(d, SecretReveal(order.orderId, order.secret));
    } else if s.revealed {
      if Has(s, RevealTimer) {
        ContinueKeepsOthers(order, s, t, RevealTimer);
      } else {
        OutboxGrows(order, d, task);
      }
    }
  }

  lemma {:induction false} OutboxGrows(order: Order, d: Session, task: Task)
    requires RevealSent(d)
    ensures RevealSent(Continue(order, d, task))
  {
    var i :| 0 <= i < |d.outbox| && d.outbox[i].SecretReveal?;
    var after := Continue(order, d, task);
    assert |d.outbox| <= |after.outbox| && after.outbox[i] == d.outbox[i];
  }

  // ---------- Runs ----------

  lemma {:induction false} StepKeepsSigning(order: Order, s: Session, a: Action, id: string)
    requires Invariant(s) && NoneLost(s, id) && Settles(order, s, a)
    ensures NoneLost(Step(order, s, a), id)
  {
    assert TicketsFresh(s);
    hide SigningFor, SentFor, Invariant, Continue, Refused;
    match a
    case DeliverDestination(e) => if e.orderId == order.orderId { SpawnKeepsWork(s, DestinationLogged(e), id); }
    case DeliverSource(orderId) => if orderId == order.orderId { SpawnKeepsWork(s, SourceLogged, id); }
    case DeliverFill(orderId, e) => SameWork(s, Step(order, s, a), id);
    case Resume(t) => if t in s.pending { ContinueKeepsSigning(order, s, t, id); }
    case Refuse(t) => if t in s.pending && AsksWallet(s.pending[t]) { RefuseKeepsSigning(order, s, t, id); }
  }

  lemma {:induction false} StepKeepsHas(order: Order, s: Session, a: Action, task: Task)
    requires TicketsFresh(s) && Has(s, task) && !AsksWallet(task) && !a.Fail? && !a.Resume?
    ensures Has(Step(order, s, a), task)
  {
    var t :| t in s.pending && s.pending[t] == task;
    var after := Step(order, s, a);
    assert t in after.pending && after.pending[t] == task;
  }

  lemma {:induction false} StepKeepsEvent(order: Order, s: Session, a: Action, e: DestinationEvent)
    requires Invariant(s) && Settles(order, s, a) && order.fromChain.Aptos? && Concerns(order, e)
    requires EventNotLost(s, e) || a == DeliverDestination(e)
    ensures EventNotLost(Step(order, s, a), e)
  {
    assert TicketsFresh(s);
    LoggedIsHas(s, e);
    LoggedIsHas(Step(order, s, a), e);
    hide Invariant, Has, Logged, Continue;
    if a == DeliverDestination(e) {
      SpawnHas(s, DestinationLogged(e));
    } else if a.Resume? {
      if a.task in s.pending { ContinueKeepsEvent(order, s, a.task, e); }
    } else if e.escrowId !in s.createdEscrows {
      StepKeepsHas(order, s, a, DestinationLogged(e));
    }
  }

  lemma {:induction false} StepKeepsReveals(order: Order, s: Session, a: Action)
    requires Invariant(s) && Settles(order, s, a) && RevealNotLost(s)
    ensures RevealNotLost(Step(order, s, a))
    ensures SourceNotLost(s) || IsSourceEvent(order, a) ==> SourceNotLost(Step(order, s, a))
  {
    assert TicketsFresh(s);
    hide Invariant, Has, Continue;
    if a.Resume? {
      if a.task in s.pending {
        ContinueKeepsRevealWork(order, s, a.task);
        if SourceNotLost(s) { ContinueKeepsSource(order, s, a.task); }
      }
    } else {
      if Has(s, RevealTimer) { StepKeepsHas(order, s, a, RevealTimer); }
      if Has(s, SourceLogged) { StepKeepsHas(order, s, a, SourceLogged); }
      if IsSourceEvent(order, a) { SpawnHas(s, SourceLogged); }
    }
  }

  ghost predicate WorkKept(order: Order, actions: seq<Action>, s: Session, id: string) {
    NoneLost(s, id) && RevealNotLost(s) && (SourceSeen(order, actions) ==> SourceNotLost(s))
  }

  lemma {:induction false} StepKeepsWork(order: Order, front: seq<Action>, s: Session, last: Action, id: string)
    requires WorkKept(order, front, s, id) && Invariant(s) && Settles(order, s, last)
    ensures WorkKept(order, front + [last], Step(order, s, last), id)
  {
    SeenSnoc(order, front, last);
    hide Step, NoneLost, RevealNotLost, SourceNotLost, IsSourceEvent, IsDestinationEvent, Invariant, Settles;
    hide SourceSeen, DestinationSeen;
    StepKeepsSigning(order, s, last, id);
    StepKeepsReveals(order, s, last);
  }

  lemma {:induction false} RunKeepsWork(order: Order, actions: seq<Action>, id: string)
    requires NoFailure(order, actions)
    ensures WorkKept(order, actions, Run(order, actions), id)
    decreases |actions|
  {
    if actions != [] {
      hide Step, WorkKept, Invariant, NoFailure, Settles, OncePerDestination;
      var front, last := actions[..|actions| - 1], actions[|actions| - 1];
      NoFailureBefore(order, actions);
      RunKeepsWork(order, front, id);
      OneSourceEscrowPerDestination(order, front);
      StepKeepsWork(order, front, Run(order, front), last, id);
      assert actions == front + [last];
    }
  }

  ghost predicate Delivered(actions: seq<Action>, e: DestinationEvent) {
    exists k :: 0 <= k < |actions| && actions[k] == DeliverDestination(e)
  }

  lemma {:induction false} RunKeepsEvent(order: Order, actions: seq<Action>, e: DestinationEvent)
    requires NoFailure(order, actions) && order.fromChain.Aptos? && Concerns(order, e) && Delivered(actions, e)
    ensures EventNotLost(Run(order, actions), e)
    decreases |actions|
  {
    hide Step, EventNotLost, Invariant, NoFailure, Settles;
    var front, last := actions[..|actions| - 1], actions[|actions| - 1];
    NoFailureBefore(order, actions);
    if last != DeliverDestination(e) {
      var k :| 0 <= k < |actions| && actions[k] == DeliverDestination(e);
      assert front[k] == DeliverDestination(e);
      RunKeepsEvent(order, front, e);
    }
    OneSourceEscrowPerDestination(order, front);
    StepKeepsEvent(order, Run(order, front), last, e);
  }

  // ---------- Nothing is answered that was not delivered ----------

  /** Nothing concerns this destination escrow yet. */
  ghost predicate Unheard(s: Session, id: string) {
    && id !in s.createdEscrows
    && forall t :: t in s.pending && s.pending[t].DestinationLogged? && s.pending[t].event.chain.Ethereum? ==>
         s.pending[t].event.escrowId != id
  }

  ghost predicate NeverDelivered(order: Order, actions: seq<Action>, id: string) {
    forall k :: 0 <= k < |actions| && actions[k].DeliverDestination? && Concerns(order, actions[k].event) ==>
      actions[k].event.escrowId != id
  }

  lemma {:induction false} ContinueUnheard(order: Order, s: Session, t: nat, id: string)
    requires Unheard(s, id) && t in s.pending
    ensures Unheard(Continue(order, s.Drop(t), s.pending[t]), id)
  {
  }

  lemma {:induction false} RunUnheard(order: Order, actions: seq<Action>, id: string)
    requires NeverDelivered(order, actions, id)
    ensures Unheard(Run(order, actions), id)
    decreases |actions|
  {
    if actions != [] {
      var front, last := actions[..|actions| - 1], actions[|actions| - 1];
      assert NeverDelivered(order, front, id);
      RunUnheard(order, front, id);
      assert actions[|actions| - 1] == last;
      var s := Run(order, front);
      hide Run, Continue;
      if last.Resume? && last.task in s.pending {
        ContinueUnheard(order, s, last.task, id);
      }
    }
  }

  // ---------- Exactly once ----------

  predicate SentAt(s: Session, i: int, id: string) {
    0 <= i < |s.outbox| && s.outbox[i].SignedSponsored? && s.outbox[i].tx.event.escrowId == id
  }

  ghost predicate SentExactlyOnce(s: Session, id: string) {
    exists i :: SentAt(s, i, id) && forall j :: SentAt(s, j, id) ==> j == i
  }

  /**
   In every quiet APT session, whatever the order and the repetitions of events, a destination escrow has
   exactly one source escrow transaction sent for it if any event of this order announced it, and none if not.
   */
  lemma {:induction false} QuietSessionAnswersExactly(order: Order, actions: seq<Action>, id: string)
    requires Quiet(order, actions) && order.fromChain.Aptos?
    ensures SentExactlyOnce(Run(order, actions), id) <==> !NeverDelivered(order, actions, id)
    ensures SentFor(Run(order, actions), id) <==> !NeverDelivered(order, actions, id)
  {
    var s := Run(order, actions);
    OneSourceEscrowPerDestination(order, actions);
    RunKeepsWork(order, actions, id);
    if NeverDelivered(order, actions, id) {
      RunUnheard(order, actions, id);
      assert !SentFor(s, id);
      hide Run;
      assert forall i :: SentAt(s, i, id) ==> SentFor(s, id);
    } else {
      var k :| 0 <= k < |actions| && actions[k].DeliverDestination? && Concerns(order, actions[k].event)
               && actions[k].event.escrowId == id;
      assert Delivered(actions, actions[k].event);
      RunKeepsEvent(order, actions, actions[k].event);
      hide Run;
      assert SentFor(s, id);
      var i :| 0 <= i < |s.outbox| && s.outbox[i].SignedSponsored? && s.outbox[i].tx.event.escrowId == id;
      assert SentAt(s, i, id);
    }
  }

  /** In every quiet session the secret has been sent, exactly once, exactly if a source escrow event came. */
  lemma {:induction false} QuietSessionRevealsExactly(order: Order, actions: seq<Action>)
    requires Quiet(order, actions)
    ensures RevealSent(Run(order, actions)) <==> SourceSeen(order, actions)
    ensures RevealedAtMostOnce(order, Run(order, actions))
  {
    SecretRevealedAtMostOnce(order, actions);
    RunKeepsWork(order, actions, "");
    if RevealSent(Run(order, actions)) {
      RevealOnlyAfterSource(order, actions);
    }
  }
}
