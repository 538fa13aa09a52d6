/**
 Which timelock a signed source escrow carries.

 Every accepted destination event overwrites the timelock of the one shared intent. A transaction reads it when it
 is built, and the message that submits the transaction reads it again, some time after its own event was accepted.
 */
module TimelockRuns {
  import opened SwapSession
  import opened SessionSteps
  import opened SigningRuns
  import opened BudgetRuns

  /**
   Every signed source escrow, also one that Pontem signs, and every message that submits one carry the timelock of
   their own destination escrow.
   */
  ghost predicate OwnTimelocks(s: Session) {
    && (forall i :: 0 <= i < |s.signedTxs| ==> s.signedTxs[i].timelock == s.signedTxs[i].event.timelock)
    && (forall i :: 0 <= i < |s.pontemTxs| ==> s.pontemTxs[i].timelock == s.pontemTxs[i].event.timelock)
    && (forall i :: 0 <= i < |s.outbox| && s.outbox[i].SignedSponsored? ==>
          s.outbox[i].tx.timelock == s.outbox[i].messageTimelock == s.outbox[i].tx.event.timelock)
  }

  /** All events delivered that concern the order come from this set. */
  ghost predicate DeliveredFrom(order: Order, events: set<DestinationEvent>, actions: seq<Action>) {
    forall k :: 0 <= k < |actions| && actions[k].DeliverDestination? && Concerns(order, actions[k].event) ==>
      actions[k].event in events
  }

  /** Whatever the interleaving and the repetitions, every source escrow carries its own timelock. */
  ghost predicate AlwaysOwnTimelocks(order: Order, events: set<DestinationEvent>) {
    forall actions :: DeliveredFrom(order, events, actions) ==> OwnTimelocks(Run(order, actions))
  }

  /** Events for different destination escrows agree on the timelock. */
  ghost predicate TimelocksAgree(order: Order, events: set<DestinationEvent>) {
    forall e, f :: e in events && f in events && Concerns(order, e) && Concerns(order, f) && e.escrowId != f.escrowId ==>
      e.timelock == f.timelock
  }

  // ---------- Agreement is enough ----------

  predicate TaskTimely(order: Order, events: set<DestinationEvent>, intent: nat, task: Task) {
    && (task.DestinationLogged? && task.event.chain.Ethereum? ==> Concerns(order, task.event) && task.event in events)
    && (IsSigning(task) ==>
          var e := EventOf(task);
          Concerns(order, e) && e in events && e.timelock == intent)
    && (AsksWallet(task) || task.WalletSigned? ==> task.tx.timelock == task.tx.event.timelock)
    && (task.PontemAsked? ==> task.payload.timelock == task.payload.event.timelock)
  }

  ghost predicate AllTimely(order: Order, events: set<DestinationEvent>, s: Session) {
    && (forall t :: t in s.pending ==> TaskTimely(order, events, s.intentTimelock, s.pending[t]))
    && OwnTimelocks(s)
  }

  lemma {:induction false} SpawnTimely(order: Order, events: set<DestinationEvent>, s: Session, task: Task)
    requires AllTimely(order, events, s) && TaskTimely(order, events, s.intentTimelock, task)
    ensures AllTimely(order, events, s.Spawn(task))
  {
    hide TaskTimely;
  }

  lemma {:induction false} DropTimely(order: Order, events: set<DestinationEvent>, s: Session, t: nat)
    requires AllTimely(order, events, s) && t in s.pending
    ensures AllTimely(order, events, s.Drop(t)) && TaskTimely(order, events, s.intentTimelock, s.pending[t])
  {
    hide TaskTimely;
  }

  lemma {:induction false} SameTimely(order: Order, events: set<DestinationEvent>, s: Session, s': Session)
    requires AllTimely(order, events, s)
    requires s'.pending == s.pending && s'.signedTxs == s.signedTxs && s'.pontemTxs == s.pontemTxs
    requires s'.intentTimelock == s.intentTimelock && s'.outbox == s.outbox
    ensures AllTimely(order, events, s')
  {
    hide TaskTimely;
  }

  /** Accepting a new event moves the intent only to a timelock that all signings in progress share. */
  lemma {:induction false} AcceptTimely(order: Order, events: set<DestinationEvent>, s: Session, e: DestinationEvent)
    requires AllTimely(order, events, s) && TimelocksAgree(order, events) && Invariant(s)
    requires Concerns(order, e) && e in events && e.escrowId !in s.createdEscrows
    ensures AllTimely(order, events, s.(createdEscrows := s.createdEscrows + {e.escrowId}, intentTimelock := e.timelock))
  {
    forall t | t in s.pending
      ensures TaskTimely(order, events, e.timelock, s.pending[t])
    {
      var task := s.pending[t];
      assert TaskTimely(order, events, s.intentTimelock, task);
      assert IsSigning(task) ==> IdOf(task) in s.createdEscrows;
    }
  }

  lemma {:induction false} ContinueTimely(order: Order, events: set<DestinationEvent>, d: Session, task: Task)
    requires AllTimely(order, events, d) && TimelocksAgree(order, events) && Invariant(d)
    requires TaskTimely(order, events, d.intentTimelock, task)
    ensures AllTimely(order, events, Continue(order, d, task))
  {
    hide AllTimely, Invariant, TimelocksAgree, Concerns;
    match task
    case DestinationLogged(e) =>
      if order.fromChain.Aptos? && e.chain.Ethereum? && e.escrowId !in d.createdEscrows {
        AcceptTimely(order, events, d, e);
        SpawnTimely(order, events, d.(createdEscrows := d.createdEscrows + {e.escrowId}, intentTimelock := e.timelock),
                    SignTimer(e));
      } else if order.fromChain.Ethereum? && e.chain.Aptos? {
        SpawnTimely(order, events, d, WethTimer(e, AmountFor(order, e)));
      }
    case SignTimer(e) => SpawnTimely(order, events, d, SignStarted(e));
    case SignStarted(e) => SpawnTimely(order, events, d, Built(BuildTx(order, d, e)));
    case Built(tx) => SignTimely(order, events, d, tx);
    case PontemAsked(tx, payload) =>
      PontemSignTimely(order, events, d, payload);
      AskOthersTimely(order, events, d.(pontemTxs := d.pontemTxs + [payload]), tx);
    case PetraAsked(tx) => SignTimely(order, events, d, tx);
    case RiseAsked(tx) => SignTimely(order, events, d, tx);
    case WalletSigned(tx) =>
      SendTimely(order, events, d, SignedSponsored(tx, d.intentTimelock));
      SendTimely(order, events, d.Send(SignedSponsored(tx, d.intentTimelock)), SourceCreated(tx.sourceId, tx.amount));
    case WethTimer(e, amount) => SendTimely(order, events, d, SignedGasless(e, amount));
    case SourceLogged =>
      if !d.revealed {
        SameTimely(order, events, d, d.(revealed := true));
        SpawnTimely(order, events, d.(revealed := true), RevealTimer);
      }
    case RevealTimer => SendTimely(order, events, d, SecretReveal(order.orderId, order.secret));
  }

  lemma {:induction false} SendTimely(order: Order, events: set<DestinationEvent>, s: Session, m: Message)
    requires AllTimely(order, events, s)
    requires m.SignedSponsored? ==> m.tx.timelock == m.messageTimelock == m.tx.event.timelock
    ensures AllTimely(order, events, s.Send(m))
  {
    hide TaskTimely;
  }

  /** The transaction's own event is still the one the intent was set for, or one with the same timelock. */
  predicate Timely(order: Order, events: set<DestinationEvent>, intent: nat, tx: SourceEscrow) {
    Concerns(order, tx.event) && tx.event in events && tx.event.timelock == intent && tx.timelock == tx.event.timelock
  }

  lemma {:induction false} AppendTimely(order: Order, events: set<DestinationEvent>, s: Session, tx: SourceEscrow)
    requires AllTimely(order, events, s) && tx.timelock == tx.event.timelock
    ensures AllTimely(order, events, s.(signedTxs := s.signedTxs + [tx]))
  {
    hide TaskTimely;
  }

  lemma {:induction false} SignTimely(order: Order, events: set<DestinationEvent>, s: Session, tx: SourceEscrow)
    requires AllTimely(order, events, s) && Timely(order, events, s.intentTimelock, tx)
    ensures AllTimely(order, events, Sign(s, tx))
  {
    hide AllTimely;
    AppendTimely(order, events, s, tx);
    SpawnTimely(order, events, s.(signedTxs := s.signedTxs + [tx]), WalletSigned(tx));
  }

  lemma {:induction false} PontemSignTimely(order: Order, events: set<DestinationEvent>, s: Session, payload: SourceEscrow)
    requires AllTimely(order, events, s) && payload.timelock == payload.event.timelock
    ensures AllTimely(order, events, s.(pontemTxs := s.pontemTxs + [payload]))
  {
    hide TaskTimely;
  }

  lemma {:induction false} AskOthersTimely(order: Order, events: set<DestinationEvent>, s: Session, tx: SourceEscrow)
    requires AllTimely(order, events, s) && Timely(order, events, s.intentTimelock, tx)
    ensures AllTimely(order, events, AskOthers(order, s, tx)) && AllTimely(order, events, AskRise(order, s, tx))
  {
    hide AllTimely;
    SpawnTimely(order, events, s, PetraAsked(tx));
    SpawnTimely(order, events, s, RiseAsked(tx));
  }

  lemma {:induction false} RefuseTimely(order: Order, events: set<DestinationEvent>, d: Session, task: Task)
    requires AllTimely(order, events, d) && TaskTimely(order, events, d.intentTimelock, task) && AsksWallet(task)
    ensures AllTimely(order, events, Refused(order, d, task))
  {
    hide AllTimely, Concerns;
    AskOthersTimely(order, events, d, task.tx);
    if task.Built? {
      SpawnTimely(order, events, d, PontemAsked(task.tx, PontemPayload(order, d, task.tx.event)));
    }
  }

  lemma {:induction false} StepTimely(order: Order, events: set<DestinationEvent>, s: Session, a: Action)
    requires AllTimely(order, events, s) && TimelocksAgree(order, events) && Invariant(s)
    requires a.DeliverDestination? && Concerns(order, a.event) ==> a.event in events
    ensures AllTimely(order, events, Step(order, s, a))
  {
    hide AllTimely, Continue, Refused, Invariant, TimelocksAgree;
    match a
    case DeliverDestination(e) =>
      if e.orderId == order.orderId { SpawnTimely(order, events, s, DestinationLogged(e)); }
    case DeliverSource(id) => SpawnTimely(order, events, s, SourceLogged);
    case DeliverFill(id, e) => SameTimely(order, events, s, Step(order, s, a));
    case Resume(t) =>
      if t in s.pending {
        DropTimely(order, events, s, t);
        DropKeeps(s, t);
        ContinueTimely(order, events, s.Drop(t), s.pending[t]);
      }
    case Refuse(t) =>
      if t in s.pending && AsksWallet(s.pending[t]) {
        DropTimely(order, events, s, t);
        RefuseTimely(order, events, s.Drop(t), s.pending[t]);
      }
    case Fail(t) => if t in s.pending { DropTimely(order, events, s, t); }
  }

  lemma {:induction false} RunTimely(order: Order, events: set<DestinationEvent>, actions: seq<Action>)
    requires TimelocksAgree(order, events) && DeliveredFrom(order, events, actions)
    ensures AllTimely(order, events, Run(order, actions))
    decreases |actions|
  {
    if actions != [] {
      hide Step, Invariant, TimelocksAgree, Concerns;
      var front, last := actions[..|actions| - 1], actions[|actions| - 1];
      assert DeliveredFrom(order, events, front);
      RunTimely(order, events, front);
      OneSourceEscrowPerDestination(order, front);
      assert actions[|actions| - 1] == last;
      StepTimely(order, events, Run(order, front), last);
    }
  }

  // ---------- Agreement is needed ----------

  /** Two events accepted before the first is built: the first is signed with the second's timelock. */
  function RaceSchedule(e: DestinationEvent, f: DestinationEvent): seq<Action> {
    [DeliverDestination(e), DeliverDestination(f), Resume(0), Resume(1), Resume(2), Resume(4), Resume(5)]
  }

  lemma {:induction false} RaceLosesTimelock(order: Order, e: DestinationEvent, f: DestinationEvent)
    requires order.fromChain.Aptos? && Concerns(order, e) && Concerns(order, f) && e.escrowId != f.escrowId
    ensures var txs := Run(order, RaceSchedule(e, f)).signedTxs;
      |txs| == 1 && txs[0].event == e && txs[0].timelock == f.timelock
  {
    var s0 := Initial(order);
    var s2 := s0.Spawn(DestinationLogged(e)).Spawn(DestinationLogged(f));
    var s3, s4, s5, s6, s7 := RaceStates(order, e, f, s2);
    assert Step(order, s0.Spawn(DestinationLogged(e)), DeliverDestination(f)) == s2;
    assert Step(order, s0, DeliverDestination(e)) == s0.Spawn(DestinationLogged(e));
    hide Step, BuildTx;
    RunThen(order, [], RaceSchedule(e, f));
    assert [] + RaceSchedule(e, f) == RaceSchedule(e, f);
    StepsOfSeven(order, s0, RaceSchedule(e, f));
  }

  /** The five resumed tasks, one after the other. */
  lemma {:induction false} RaceStates(order: Order, e: DestinationEvent, f: DestinationEvent, s2: Session)
    returns (s3: Session, s4: Session, s5: Session, s6: Session, s7: Session)
    requires order.fromChain.Aptos? && Concerns(order, e) && Concerns(order, f) && e.escrowId != f.escrowId
    requires s2 == Initial(order).Spawn(DestinationLogged(e)).Spawn(DestinationLogged(f))
    ensures s3 == Step(order, s2, Resume(0)) && s4 == Step(order, s3, Resume(1)) && s5 == Step(order, s4, Resume(2))
    ensures s6 == Step(order, s5, Resume(4)) && s7 == Step(order, s6, Resume(5))
    ensures |s7.signedTxs| == 1 && s7.signedTxs[0].event == e && s7.signedTxs[0].timelock == f.timelock
  {
    hide Step;
    s3 := s2.Drop(0).(createdEscrows := s2.createdEscrows + {e.escrowId}, intentTimelock := e.timelock).Spawn(SignTimer(e));
    AcceptStep(order, s2, 0, e);
    s4 := s3.Drop(1).(createdEscrows := s3.createdEscrows + {f.escrowId}, intentTimelock := f.timelock).Spawn(SignTimer(f));
    AcceptStep(order, s3, 1, f);
    s5 := s4.Drop(2).Spawn(SignStarted(e));
    TimerStep(order, s4, 2, e);
    s6 := s5.Drop(4).Spawn(Built(BuildTx(order, s5, e)));
    BuildStep(order, s5, 4, e);
    s7 := Sign(s6.Drop(5), BuildTx(order, s5, e));
    SignStep(order, s6, 5, BuildTx(order, s5, e));
  }

  lemma {:induction false} StepsOfSeven(order: Order, s: Session, a: seq<Action>)
    requires |a| == 7
    ensures Steps(order, s, a) == Step(order, Step(order, Step(order, Step(order, Step(order,
      Step(order, Step(order, s, a[0]), a[1]), a[2]), a[3]), a[4]), a[5]), a[6])
  {
    hide Step;
    assert a == [a[0]] + ([a[1]] + ([a[2]] + ([a[3]] + ([a[4]] + ([a[5]] + ([a[6]] + []))))));
    var s1 := Step(order, s, a[0]);
    var s2 := Step(order, s1, a[1]);
    var s3 := Step(order, s2, a[2]);
    var s4 := Step(order, s3, a[3]);
    var s5 := Step(order, s4, a[4]);
    var s6 := Step(order, s5, a[5]);
    OneStep(order, s6, a[6], []);
    OneStep(order, s5, a[5], [a[6]] + []);
    OneStep(order, s4, a[4], [a[5]] + ([a[6]] + []));
    OneStep(order, s3, a[3], [a[4]] + ([a[5]] + ([a[6]] + [])));
    OneStep(order, s2, a[2], [a[3]] + ([a[4]] + ([a[5]] + ([a[6]] + []))));
    OneStep(order, s1, a[1], [a[2]] + ([a[3]] + ([a[4]] + ([a[5]] + ([a[6]] + [])))));
    OneStep(order, s, a[0], [a[1]] + ([a[2]] + ([a[3]] + ([a[4]] + ([a[5]] + ([a[6]] + []))))));
    hide Steps;
  }

  /**
   In an APT session, every interleaving signs every source escrow with its own destination's timelock
   exactly when the destination escrows all have the same timelock.
   */
  lemma {:induction false} OwnTimelocksIff(order: Order, events: set<DestinationEvent>)
    requires order.fromChain.Aptos?
    ensures AlwaysOwnTimelocks(order, events) <==> TimelocksAgree(order, events)
  {
    if TimelocksAgree(order, events) {
      forall actions | DeliveredFrom(order, events, actions)
        ensures OwnTimelocks(Run(order, actions))
      {
        RunTimely(order, events, actions);
      }
    } else {
      var e, f :| e in events && f in events && Concerns(order, e) && Concerns(order, f) && e.escrowId != f.escrowId
                  && e.timelock != f.timelock;
      hide Run, Concerns;
      RaceLosesTimelock(order, e, f);
      var actions := RaceSchedule(e, f);
      assert DeliveredFrom(order, events, actions);
      assert !OwnTimelocks(Run(order, actions));
    }
  }
}
