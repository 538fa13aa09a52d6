/**
 What the wallets sign when the wallet adapter refuses.

 The page then asks Pontem to sign the whole order, throws the answer away, and goes on to the next wallet with
 the transaction it built. So what is signed and what is submitted differ.
 */
module WalletRuns {
  import opened FillAmounts
  import opened SwapSession
  import opened SessionSteps
  import opened SigningRuns
  import opened BudgetRuns

  /** No destination escrow has both a transaction of its own and one of Pontem's signed for it. */
  ghost predicate NotBoth(s: Session) {
    forall i, j :: 0 <= i < |s.signedTxs| && 0 <= j < |s.pontemTxs| ==>
      s.signedTxs[i].event.escrowId != s.pontemTxs[j].event.escrowId
  }

  /** Only wallets that are there are asked. */
  predicate AsksPresent(order: Order, task: Task) {
    && (task.PontemAsked? ==> order.wallets.pontem)
    && (task.PetraAsked? ==> order.wallets.petra)
    && (task.RiseAsked? ==> order.wallets.rise)
  }

  ghost predicate WalletInvariant(order: Order, s: Session) {
    && (forall t :: t in s.pending ==> AsksPresent(order, s.pending[t]))
    && (!order.wallets.pontem ==> s.pontemTxs == [])
    && (!OtherWallet(order) ==> NotBoth(s))
  }

  /** The wallets in the order in which they are asked: the adapter, Pontem, Petra and Rise. */
  predicate HasWallet(order: Order, place: nat) {
    || place == 0 || (place == 1 && order.wallets.pontem) || (place == 2 && order.wallets.petra)
    || (place == 3 && order.wallets.rise)
  }

  function PlaceOf(task: Task): nat
    requires AsksWallet(task)
  {
    if task.Built? then 0 else if task.PontemAsked? then 1 else if task.PetraAsked? then 2 else 3
  }

  /**
   The first wallet after this place that is there is asked next, for the same transaction, and Pontem for the whole order
   under the timelock of the moment; without one, nobody is asked.
   */
  ghost predicate AsksNext(order: Order, s: Session, after: Session, t: nat, task: Task)
    requires AsksWallet(task)
  {
    if forall place :: PlaceOf(task) < place <= 3 ==> !HasWallet(order, place) then after.pending == s.pending - {t}
    else
      && s.nextTask in after.pending && AsksWallet(after.pending[s.nextTask])
      && var next := after.pending[s.nextTask];
         && after.pending == (s.pending - {t})[s.nextTask := next] && next.tx == task.tx
         && PlaceOf(task) < PlaceOf(next) && HasWallet(order, PlaceOf(next))
         && (next.PontemAsked? ==>
               next.payload == SourceEscrow(task.tx.event, OrderSourceId, order.fromAmount, s.intentTimelock))
         && forall place :: PlaceOf(task) < place < PlaceOf(next) ==> !HasWallet(order, place)
  }

  /** After a refusal the next wallet is asked. */
  lemma {:induction false} RefusalAsksNext(order: Order, s: Session, t: nat)
    requires t in s.pending && AsksWallet(s.pending[t])
    ensures AsksNext(order, s, Step(order, s, Refuse(t)), t, s.pending[t])
  {
    assert HasWallet(order, 1) <==> order.wallets.pontem;
    assert HasWallet(order, 2) <==> order.wallets.petra;
    assert HasWallet(order, 3) <==> order.wallets.rise;
  }

  /** So it is after Pontem, which is asked in vain. */
  lemma {:induction false} PontemAskedInVain(order: Order, s: Session, t: nat)
    requires t in s.pending && s.pending[t].PontemAsked?
    ensures AsksNext(order, s, Step(order, s, Resume(t)), t, s.pending[t])
  {
    assert HasWallet(order, 1) <==> order.wallets.pontem;
    assert HasWallet(order, 2) <==> order.wallets.petra;
    assert HasWallet(order, 3) <==> order.wallets.rise;
  }

  lemma {:induction false} SpawnKeepsWallets(order: Order, s: Session, task: Task)
    requires WalletInvariant(order, s) && AsksPresent(order, task)
    ensures WalletInvariant(order, s.Spawn(task))
  {
  }

  lemma {:induction false} AskOthersKeepsWallets(order: Order, s: Session, tx: SourceEscrow)
    requires WalletInvariant(order, s)
    ensures WalletInvariant(order, AskOthers(order, s, tx)) && WalletInvariant(order, AskRise(order, s, tx))
  {
    hide WalletInvariant;
    if order.wallets.petra { SpawnKeepsWallets(order, s, PetraAsked(tx)); }
    if order.wallets.rise { SpawnKeepsWallets(order, s, RiseAsked(tx)); }
  }

  lemma {:induction false} SameWallets(order: Order, s: Session, s': Session)
    requires WalletInvariant(order, s)
    requires s'.pending == s.pending && s'.signedTxs == s.signedTxs && s'.pontemTxs == s.pontemTxs
    ensures WalletInvariant(order, s')
  {
  }

  lemma {:induction false} DropKeepsWallets(order: Order, s: Session, t: nat)
    requires WalletInvariant(order, s) && t in s.pending
    ensures WalletInvariant(order, s.Drop(t)) && AsksPresent(order, s.pending[t])
  {
  }

  lemma {:induction false} SignKeepsWallets(order: Order, s: Session, tx: SourceEscrow)
    requires WalletInvariant(order, s) && (!OtherWallet(order) ==> NotPontem(s, tx.event.escrowId))
    ensures WalletInvariant(order, Sign(s, tx))
  {
  }

  lemma {:induction false} PontemKeepsWallets(order: Order, s: Session, payload: SourceEscrow)
    requires WalletInvariant(order, s) && NotSigned(s, payload.event.escrowId) && order.wallets.pontem
    ensures WalletInvariant(order, s.(pontemTxs := s.pontemTxs + [payload]))
  {
  }

  lemma {:induction false} ContinueKeepsWallets(order: Order, s: Session, t: nat)
    requires Invariant(s) && WalletInvariant(order, s) && t in s.pending
    ensures WalletInvariant(order, Continue(order, s.Drop(t), s.pending[t]))
  {
    var d, task := s.Drop(t), s.pending[t];
    DropKeepsWallets(order, s, t);
    DropKeeps(s, t);
    hide WalletInvariant, Invariant, Idle, NotSent, NotSigned, NotPontem;
    match task
    case DestinationLogged(e) =>
      if order.fromChain.Aptos? && e.chain.Ethereum? && e.escrowId !in d.createdEscrows {
        var d' := d.(createdEscrows := d.createdEscrows + {e.escrowId}, intentTimelock := e.timelock);
        SameWallets(order, d, d');
        SpawnKeepsWallets(order, d', SignTimer(e));
      } else if order.fromChain.Ethereum? && e.chain.Aptos? {
        SpawnKeepsWallets(order, d, WethTimer(e, AmountFor(order, e)));
      }
    case SignTimer(e) => SpawnKeepsWallets(order, d, SignStarted(e));
    case SignStarted(e) => SpawnKeepsWallets(order, d, Built(BuildTx(order, d, e)));
    case Built(tx) => SignKeepsWallets(order, d, tx);
    case PontemAsked(tx, payload) =>
      PontemKeepsWallets(order, d, payload);
      AskOthersKeepsWallets(order, d.(pontemTxs := d.pontemTxs + [payload]), tx);
    case PetraAsked(tx) => SignKeepsWallets(order, d, tx);
    case RiseAsked(tx) => SignKeepsWallets(order, d, tx);
    case WalletSigned(tx) => SameWallets(order, d, Continue(order, d, task));
    case WethTimer(e, amount) => SameWallets(order, d, Continue(order, d, task));
    case SourceLogged =>
      if !d.revealed {
        SameWallets(order, d, d.(revealed := true));
        SpawnKeepsWallets(order, d.(revealed := true), RevealTimer);
      }
    case RevealTimer => SameWallets(order, d, Continue(order, d, task));
  }

  lemma {:induction false} RefuseKeepsWallets(order: Order, s: Session, t: nat)
    requires WalletInvariant(order, s) && t in s.pending && AsksWallet(s.pending[t])
    ensures WalletInvariant(order, Refused(order, s.Drop(t), s.pending[t]))
  {
    var d, task := s.Drop(t), s.pending[t];
    DropKeepsWallets(order, s, t);
    hide WalletInvariant;
    AskOthersKeepsWallets(order, d, task.tx);
    if order.wallets.pontem {
      SpawnKeepsWallets(order, d, PontemAsked(task.tx, PontemPayload(order, d, task.tx.event)));
    }
  }

  lemma {:induction false} StepKeepsWallets(order: Order, s: Session, a: Action)
    requires Invariant(s) && WalletInvariant(order, s)
    ensures WalletInvariant(order, Step(order, s, a))
  {
    hide WalletInvariant, Invariant, Continue, Refused;
    match a
    case DeliverDestination(e) => SpawnKeepsWallets(order, s, DestinationLogged(e));
    case DeliverSource(id) => SpawnKeepsWallets(order, s, SourceLogged);
    case DeliverFill(id, e) => SameWallets(order, s, Step(order, s, a));
    case Resume(t) => if t in s.pending { ContinueKeepsWallets(order, s, t); }
    case Refuse(t) => if t in s.pending && AsksWallet(s.pending[t]) { RefuseKeepsWallets(order, s, t); }
    case Fail(t) => if t in s.pending { DropKeepsWallets(order, s, t); }
  }

  lemma {:induction false} RunKeepsWallets(order: Order, actions: seq<Action>)
    ensures WalletInvariant(order, Run(order, actions))
    decreases |actions|
  {
    if actions != [] {
      hide Step, Invariant, WalletInvariant, OncePerDestination;
      RunKeepsWallets(order, actions[..|actions| - 1]);
      OneSourceEscrowPerDestination(order, actions[..|actions| - 1]);
      StepKeepsWallets(order, Run(order, actions[..|actions| - 1]), actions[|actions| - 1]);
    }
  }

  // ---------- A run in which Pontem signs ----------

  /** The event is delivered and answered, the adapter refuses, and Pontem signs; n is the next ticket. */
  function PontemSigns(e: DestinationEvent, n: nat): seq<Action> {
    [DeliverDestination(e)] + ([Resume(n)] + ([Resume(n + 1)] + ([Resume(n + 2)] + ([Refuse(n + 3)] + ([Resume(n + 4)] + [])))))
  }

  /** The session after that, with its escrow answered and the next wallet asked. */
  function AfterPontem(order: Order, s: Session, e: DestinationEvent): Session {
    var k := s.(createdEscrows := s.createdEscrows + {e.escrowId}, intentTimelock := e.timelock, nextTask := s.nextTask + 5);
    AskOthers(order, k.(pontemTxs := k.pontemTxs + [PontemPayload(order, k, e)]), BuildTx(order, k, e))
  }

  lemma {:induction false} FreshFrom(s: Session)
    requires TicketsFresh(s)
    ensures forall i :: s.nextTask <= i ==> i !in s.pending
  {
  }

  lemma {:induction false} PontemRun(order: Order, s: Session, e: DestinationEvent)
    requires New(order, s, e) && TicketsFresh(s) && order.wallets.pontem
    ensures Steps(order, s, PontemSigns(e, s.nextTask)) == AfterPontem(order, s, e)
  {
    hide *;
    var n := s.nextTask;
    FreshFrom(s);
    var k := s.(createdEscrows := s.createdEscrows + {e.escrowId}, intentTimelock := e.timelock);
    AfterPontemIs(order, s, k, e);
    AcceptNext(order, s, e);
    SignAndRefuse(order, k, n, e);
    SixSteps(order, s, e, s.Spawn(DestinationLogged(e)), k.(nextTask := n + 1).Spawn(SignTimer(e)),
             k.(nextTask := n + 2).Spawn(SignStarted(e)), k.(nextTask := n + 3).Spawn(Built(BuildTx(order, k, e))),
             k.(nextTask := n + 4).Spawn(PontemAsked(BuildTx(order, k, e), PontemPayload(order, k, e))));
  }

  lemma {:induction false} AfterPontemIs(order: Order, s: Session, k: Session, e: DestinationEvent)
    requires k == s.(createdEscrows := s.createdEscrows + {e.escrowId}, intentTimelock := e.timelock)
    ensures AfterPontem(order, s, e) == AskOthers(order,
      k.(nextTask := s.nextTask + 5, pontemTxs := k.pontemTxs + [PontemPayload(order, k, e)]), BuildTx(order, k, e))
  {
    hide AskOthers;
  }

  /** From the timer of an answered event to Pontem's signature. */
  lemma {:induction false} SignAndRefuse(order: Order, k: Session, n: nat, e: DestinationEvent)
    requires (forall i :: n <= i ==> i !in k.pending) && order.wallets.pontem
    ensures var tx, payload := BuildTx(order, k, e), PontemPayload(order, k, e);
      && Step(order, k.(nextTask := n + 1).Spawn(SignTimer(e)), Resume(n + 1)) == k.(nextTask := n + 2).Spawn(SignStarted(e))
      && Step(order, k.(nextTask := n + 2).Spawn(SignStarted(e)), Resume(n + 2)) == k.(nextTask := n + 3).Spawn(Built(tx))
      && Step(order, k.(nextTask := n + 3).Spawn(Built(tx)), Refuse(n + 3))
         == k.(nextTask := n + 4).Spawn(PontemAsked(tx, payload))
      && Step(order, k.(nextTask := n + 4).Spawn(PontemAsked(tx, payload)), Resume(n + 4))
         == AskOthers(order, k.(nextTask := n + 5, pontemTxs := k.pontemTxs + [payload]), tx)
  {
    hide Step, AskOthers;
    var tx, payload := BuildTx(order, k, e), PontemPayload(order, k, e);
    TimerNext(order, k.(nextTask := n + 1), e);
    BuildNext(order, k.(nextTask := n + 2), e);
    RefuseNext(order, k.(nextTask := n + 3), tx);
    PontemNext(order, k.(nextTask := n + 4), tx, payload);
  }

  lemma {:induction false} AcceptNext(order: Order, s: Session, e: DestinationEvent)
    requires New(order, s, e) && s.nextTask !in s.pending
    ensures Step(order, s, DeliverDestination(e)) == s.Spawn(DestinationLogged(e))
    ensures Step(order, s.Spawn(DestinationLogged(e)), Resume(s.nextTask))
         == s.(createdEscrows := s.createdEscrows + {e.escrowId}, intentTimelock := e.timelock,
               nextTask := s.nextTask + 1).Spawn(SignTimer(e))
  {
    SpawnDrop(s, DestinationLogged(e));
    AcceptStep(order, s.Spawn(DestinationLogged(e)), s.nextTask, e);
  }

  lemma {:induction false} TimerNext(order: Order, k: Session, e: DestinationEvent)
    requires k.nextTask !in k.pending
    ensures Step(order, k.Spawn(SignTimer(e)), Resume(k.nextTask)) == k.(nextTask := k.nextTask + 1).Spawn(SignStarted(e))
  {
    hide Step;
    SpawnDrop(k, SignTimer(e));
    TimerStep(order, k.Spawn(SignTimer(e)), k.nextTask, e);
  }

  lemma {:induction false} BuildNext(order: Order, k: Session, e: DestinationEvent)
    requires k.nextTask !in k.pending
    ensures Step(order, k.Spawn(SignStarted(e)), Resume(k.nextTask))
         == k.(nextTask := k.nextTask + 1).Spawn(Built(BuildTx(order, k, e)))
  {
    hide Step;
    SpawnDrop(k, SignStarted(e));
    BuildStep(order, k.Spawn(SignStarted(e)), k.nextTask, e);
  }

  lemma {:induction false} RefuseNext(order: Order, k: Session, tx: SourceEscrow)
    requires k.nextTask !in k.pending && order.wallets.pontem
    ensures Step(order, k.Spawn(Built(tx)), Refuse(k.nextTask))
         == k.(nextTask := k.nextTask + 1).Spawn(PontemAsked(tx, PontemPayload(order, k, tx.event)))
  {
    hide Step;
    SpawnDrop(k, Built(tx));
    RefuseStep(order, k.Spawn(Built(tx)), k.nextTask, tx);
  }

  lemma {:induction false} PontemNext(order: Order, k: Session, tx: SourceEscrow, payload: SourceEscrow)
    requires k.nextTask !in k.pending
    ensures Step(order, k.Spawn(PontemAsked(tx, payload)), Resume(k.nextTask))
         == AskOthers(order, k.(nextTask := k.nextTask + 1, pontemTxs := k.pontemTxs + [payload]), tx)
  {
    hide Step, AskOthers;
    SpawnDrop(k, PontemAsked(tx, payload));
    PontemStep(order, k.Spawn(PontemAsked(tx, payload)), k.nextTask, tx, payload);
  }

  lemma {:induction false} SixSteps(order: Order, s: Session, e: DestinationEvent, s1: Session, s2: Session, s3: Session,
                                    s4: Session, s5: Session)
    requires var n := s.nextTask;
      && s1 == Step(order, s, DeliverDestination(e)) && s2 == Step(order, s1, Resume(n)) && s3 == Step(order, s2, Resume(n + 1))
      && s4 == Step(order, s3, Resume(n + 2)) && s5 == Step(order, s4, Refuse(n + 3))
    ensures Steps(order, s, PontemSigns(e, s.nextTask)) == Step(order, s5, Resume(s.nextTask + 4))
  {
    hide Step;
    var n := s.nextTask;
    OneStep(order, s5, Resume(n + 4), []);
    OneStep(order, s4, Refuse(n + 3), [Resume(n + 4)] + []);
    OneStep(order, s3, Resume(n + 2), [Refuse(n + 3)] + ([Resume(n + 4)] + []));
    OneStep(order, s2, Resume(n + 1), [Resume(n + 2)] + ([Refuse(n + 3)] + ([Resume(n + 4)] + [])));
    OneStep(order, s1, Resume(n), [Resume(n + 1)] + ([Resume(n + 2)] + ([Refuse(n + 3)] + ([Resume(n + 4)] + []))));
    OneStep(order, s, DeliverDestination(e),
            [Resume(n)] + ([Resume(n + 1)] + ([Resume(n + 2)] + ([Refuse(n + 3)] + ([Resume(n + 4)] + [])))));
  }

  /** With another wallet, the transaction itself is signed as well. */
  lemma {:induction false} BothSign(order: Order, e: DestinationEvent) returns (actions: seq<Action>)
    requires New(order, Initial(order), e) && order.wallets.pontem && OtherWallet(order)
    ensures actions == PontemSigns(e, 0) + [Resume(5)]
    ensures var s, k := Run(order, actions), Initial(order).(intentTimelock := e.timelock);
      s.pontemTxs == [PontemPayload(order, k, e)] && s.signedTxs == [BuildTx(order, k, e)]
  {
    var s0 := Initial(order);
    actions := PontemSigns(e, 0) + [Resume(5)];
    PontemRun(order, s0, e);
    var s1 := AfterPontem(order, s0, e);
    SignStep(order, s1, 5, BuildTx(order, s0.(intentTimelock := e.timelock), e));
    hide Step;
    RunThen(order, [], actions);
    assert [] + actions == actions;
    StepsThen(order, s0, PontemSigns(e, 0), [Resume(5)]);
    OneStep(order, s1, Resume(5), []);
    assert [Resume(5)] + [] == [Resume(5)];
  }

  // ---------- One signature per destination escrow ----------

  ghost predicate AlwaysOneSignature(order: Order) {
    forall actions :: NotBoth(Run(order, actions))
  }

  /**
   In an APT session every interleaving yields at most one signature per destination escrow, Pontem's included,
   exactly when Pontem is absent or there is no wallet to ask after it.
   */
  lemma {:induction false} OneSignatureIff(order: Order)
    requires order.fromChain.Aptos?
    ensures AlwaysOneSignature(order) <==> !(order.wallets.pontem && OtherWallet(order))
  {
    if order.wallets.pontem && OtherWallet(order) {
      var e := DestinationEvent(order.orderId, Ethereum, "", 0, false, 0.0);
      var actions := BothSign(order, e);
      hide Run;
      var s := Run(order, actions);
      assert s.signedTxs[0].event.escrowId == s.pontemTxs[0].event.escrowId;
    } else {
      hide Run;
      forall actions
        ensures NotBoth(Run(order, actions))
      {
        RunKeepsWallets(order, actions);
      }
    }
  }

  // ---------- How much is signed ----------

  /** Everything any wallet has signed away. */
  function AllSigned(s: Session): int {
    SignedTotal(s.signedTxs) + SignedTotal(s.pontemTxs)
  }

  ghost predicate AlwaysSignsWithin(order: Order, plan: Plan) {
    forall actions :: DeliveriesPlanned(order, plan, actions) ==> AllSigned(Run(order, actions)) <= order.fromAmount
  }

  /** A positive order, Pontem present, and two escrows planned, or one with a share above zero and another wallet. */
  ghost predicate OverSigns(order: Order, plan: Plan) {
    && order.wallets.pontem && order.fromAmount > 0
    && (|plan| >= 2 || (OtherWallet(order) && exists id :: id in plan && PartialAmount(order.fromAmount, plan[id]) > 0))
  }

  function PlannedEvent(order: Order, plan: Plan, id: string): DestinationEvent
    requires id in plan
  {
    DestinationEvent(order.orderId, Ethereum, id, 0, true, plan[id])
  }

  ghost predicate AllPositive(plan: Plan) {
    forall id :: id in plan ==> plan[id] > 0.0
  }

  /** Two escrows: Pontem signs the whole order twice. */
  lemma {:induction false} PontemSignsTwice(order: Order, plan: Plan, a: string, b: string) returns (actions: seq<Action>)
    requires order.fromChain.Aptos? && order.wallets.pontem && AllPositive(plan) && a in plan && b in plan && a != b
    ensures DeliveriesPlanned(order, plan, actions) && AllSigned(Run(order, actions)) == 2 * order.fromAmount
  {
    var s0, ea, eb := Initial(order), PlannedEvent(order, plan, a), PlannedEvent(order, plan, b);
    var s1 := AfterPontem(order, s0, ea);
    var first, second := PontemSigns(ea, 0), PontemSigns(eb, s1.nextTask);
    actions := first + second;
    PontemRun(order, s0, ea);
    PontemRun(order, s1, eb);
    OnlyTheseDelivered(order, plan, ea, eb, s1.nextTask);
    TwicePontemTotal(order, ea, eb);
    RunThen(order, [], actions);
    StepsThen(order, s0, first, second);
    hide *;
    assert [] + actions == actions;
  }

  lemma {:induction false} OnlyTheseDelivered(order: Order, plan: Plan, e: DestinationEvent, f: DestinationEvent, n: nat)
    requires Planned(plan, e) && Planned(plan, f)
    ensures DeliveriesPlanned(order, plan, PontemSigns(e, 0) + PontemSigns(f, n))
  {
    hide Planned, Concerns;
    var first, second := PontemSigns(e, 0), PontemSigns(f, n);
    assert forall i :: 0 <= i < |first| && first[i].DeliverDestination? ==> first[i].event == e;
    assert forall i :: 0 <= i < |second| && second[i].DeliverDestination? ==> second[i].event == f;
    var actions := first + second;
    assert forall i :: 0 <= i < |actions| ==> actions[i] == if i < |first| then first[i] else second[i - |first|];
  }

  lemma {:induction false} TwicePontemTotal(order: Order, e: DestinationEvent, f: DestinationEvent)
    ensures var s := AfterPontem(order, AfterPontem(order, Initial(order), e), f);
      AllSigned(s) == 2 * order.fromAmount
  {
    var s := AfterPontem(order, AfterPontem(order, Initial(order), e), f);
    assert |s.pontemTxs| == 2 && s.pontemTxs[0].amount == s.pontemTxs[1].amount == order.fromAmount && s.signedTxs == [];
    SameAmounts(s.pontemTxs, order.fromAmount);
  }

  lemma {:induction false} TotalOfTwo(x: SourceEscrow, y: SourceEscrow)
    ensures SignedTotal([x]) == x.amount && SignedTotal([x, y]) == x.amount + y.amount
  {
    assert [x, y][1..] == [y] && [y][1..] == [] && [x][1..] == [];
    assert SignedTotal([y]) == y.amount;
  }

  /** One escrow and another wallet: the whole order and its share. */
  lemma {:induction false} PontemSignsBeside(order: Order, plan: Plan, a: string) returns (actions: seq<Action>)
    requires order.fromChain.Aptos? && order.wallets.pontem && OtherWallet(order) && AllPositive(plan) && a in plan
    ensures DeliveriesPlanned(order, plan, actions)
    ensures AllSigned(Run(order, actions)) == order.fromAmount + PartialAmount(order.fromAmount, plan[a])
  {
    var e := PlannedEvent(order, plan, a);
    actions := BothSign(order, e);
    var k := Initial(order).(intentTimelock := e.timelock);
    hide Run, PartialAmount;
    assert DeliveriesPlanned(order, plan, actions);
    TotalOfTwo(PontemPayload(order, k, e), PontemPayload(order, k, e));
    TotalOfTwo(BuildTx(order, k, e), BuildTx(order, k, e));
  }

  lemma {:induction false} SameAmounts(txs: seq<SourceEscrow>, amount: int)
    requires forall i :: 0 <= i < |txs| ==> txs[i].amount == amount
    ensures SignedTotal(txs) == |txs| * amount
  {
    if txs != [] {
      SameAmounts(txs[1..], amount);
    }
  }

  lemma {:induction false} AtMostOne(plan: Plan, txs: seq<SourceEscrow>)
    requires |plan| <= 1 && forall i :: 0 <= i < |txs| ==> txs[i].event.escrowId in plan
    requires forall i, j :: 0 <= i < j < |txs| ==> txs[i].event.escrowId != txs[j].event.escrowId
    ensures |txs| <= 1
  {
    if |txs| > 1 {
      var a, b := txs[0].event.escrowId, txs[1].event.escrowId;
      assert {a, b} <= plan.Keys && |{a, b}| == 2;
      SubsetSize({a, b}, plan.Keys);
    }
  }

  lemma {:induction false} SubsetSize(a: set<string>, b: set<string>)
    requires a <= b
    ensures |a| <= |b|
  {
    assert b == a + (b - a) && a !! (b - a);
  }

  lemma {:induction false} OnlyKey(plan: Plan, a: string, b: string)
    requires |plan| <= 1 && a in plan && b in plan
    ensures a == b
  {
    if a != b {
      assert {a, b} <= plan.Keys && |{a, b}| == 2;
      SubsetSize({a, b}, plan.Keys);
    }
  }

  /** With at most one escrow planned, Pontem's signature is beside nothing that counts. */
  lemma {:induction false} OneEscrowWithin(order: Order, plan: Plan, s: Session)
    requires AllPlanned(order, plan, s) && OncePerDestination(s) && WalletInvariant(order, s) && |plan| <= 1
    requires SignedTotal(s.signedTxs) <= order.fromAmount
    requires OtherWallet(order) ==> forall id :: id in plan ==> PartialAmount(order.fromAmount, plan[id]) <= 0
    ensures AllSigned(s) <= order.fromAmount
  {
    hide PartialAmount;
    AtMostOne(plan, s.signedTxs);
    AtMostOne(plan, s.pontemTxs);
    SameAmounts(s.pontemTxs, order.fromAmount);
    if s.pontemTxs != [] && s.signedTxs != [] {
      var tx := s.signedTxs[0];
      OnlyKey(plan, tx.event.escrowId, s.pontemTxs[0].event.escrowId);
      assert CarriesShare(order, plan, tx);
      assert s.signedTxs == [tx];
      TotalOfTwo(tx, tx);
    }
  }

  /**
   In an APT session whose events follow a plan of positive percentages, at most 100 in all, everything that wallets
   sign stays within the order in every interleaving exactly when the plan and the wallets do not over-sign.
   */
  lemma {:induction false} SignsWithinIff(order: Order, plan: Plan)
    requires order.fromChain.Aptos? && WithinHundred(plan) && AllPositive(plan)
    ensures AlwaysSignsWithin(order, plan) <==> !OverSigns(order, plan)
  {
    hide Run, PartialAmount, DeliveriesPlanned;
    if OverSigns(order, plan) {
      if |plan| >= 2 {
        var a, b := TwoKeys(plan);
        var actions := PontemSignsTwice(order, plan, a, b);
      } else {
        var a :| a in plan && PartialAmount(order.fromAmount, plan[a]) > 0;
        var actions := PontemSignsBeside(order, plan, a);
      }
    } else {
      forall actions | DeliveriesPlanned(order, plan, actions)
        ensures AllSigned(Run(order, actions)) <= order.fromAmount
      {
        WithinUnlessOver(order, plan, actions);
      }
    }
  }

  lemma {:induction false} TwoKeys(plan: Plan) returns (a: string, b: string)
    requires |plan| >= 2
    ensures a in plan && b in plan && a != b
  {
    a :| a in plan.Keys;
    assert |plan.Keys - {a}| == |plan.Keys| - 1;
    b :| b in plan.Keys - {a};
  }

  lemma {:induction false} WithinUnlessOver(order: Order, plan: Plan, actions: seq<Action>)
    requires WithinHundred(plan) && DeliveriesPlanned(order, plan, actions) && !OverSigns(order, plan)
    ensures AllSigned(Run(order, actions)) <= order.fromAmount
  {
    var s := Run(order, actions);
    NeverSubmitsMoreThanOrder(order, plan, actions);
    RunKeepsPlan(order, plan, actions);
    OneSourceEscrowPerDestination(order, actions);
    RunKeepsWallets(order, actions);
    hide Run, PartialAmount, DeliveriesPlanned, WithinHundred, Invariant;
    if !order.wallets.pontem {
      assert s.pontemTxs == [];
    } else if order.fromAmount == 0 {
      SameAmounts(s.pontemTxs, 0);
    } else {
      OneEscrowWithin(order, plan, s);
    }
  }
}
