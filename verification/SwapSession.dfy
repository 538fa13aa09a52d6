/**
 One swap session of the page, from the submitted order on.

 The event handlers are asynchronous. Each is cut at its `await`s and timers into steps that run to
 completion; a step that is waiting is a pending task, and tasks may be resumed in any order, fail, or never
 run. Events may be delivered in any order and any number of times. A wallet that is asked to sign may refuse,
 and then the next one is asked.
 */
module SwapSession {
  import opened FillAmounts
  import opened FillList

  datatype Chain = Ethereum | Aptos

  /** Which wallets the page finds beside the wallet adapter. */
  datatype Wallets = Wallets(pontem: bool, petra: bool, rise: bool)

  /** What the session captures when it starts. */
  datatype Order = Order(
    orderId: string,
    fromChain: Chain,
    fromAmount: nat,
    nonce: string,
    deadline: nat,
    secret: string,
    wallets: Wallets)

  /** An event without a percentage carries zero there. */
  datatype DestinationEvent = DestinationEvent(
    orderId: string,
    chain: Chain,
    escrowId: string,
    timelock: nat,
    isPartialFill: bool,
    fillPercentage: real)

  /** The source escrow id: the order's own, or one derived from the destination escrow of a partial fill. */
  datatype SourceId = OrderSourceId | FillSourceId(destinationEscrowId: string, nonce: string)

  /** A source escrow transaction built for one destination event. */
  datatype SourceEscrow = SourceEscrow(event: DestinationEvent, sourceId: SourceId, amount: int, timelock: nat)

  datatype Task =
    | DestinationLogged(event: DestinationEvent)        // first await of the destination handler
    | SignTimer(event: DestinationEvent)                // one-second timer before signing
    | SignStarted(event: DestinationEvent)              // await inside that timer
    | Built(tx: SourceEscrow)                           // transaction built, wallet adapter asked
    | PontemAsked(tx: SourceEscrow, payload: SourceEscrow)  // adapter refused, Pontem asked with its own payload
    | PetraAsked(tx: SourceEscrow)                      // Petra asked
    | RiseAsked(tx: SourceEscrow)                       // Rise asked
    | WalletSigned(tx: SourceEscrow)                    // signed, not yet sent
    | WethTimer(event: DestinationEvent, amount: int)   // one-second timer of the other direction
    | SourceLogged                                      // first await of the source handler
    | RevealTimer                                       // two-second timer before revealing

  datatype Message =
    | SignedSponsored(tx: SourceEscrow, messageTimelock: nat)
    | SourceCreated(sourceId: SourceId, amount: int)
    | SignedGasless(event: DestinationEvent, amount: int)
    | SecretReveal(orderId: string, secret: string)

  /** `signedTxs` are the transactions wallets signed; `pontemTxs` what Pontem signed and the page threw away. */
  datatype Session = Session(
    createdEscrows: set<string>,
    intentTimelock: nat,
    revealed: bool,
    pending: map<nat, Task>,
    nextTask: nat,
    signedTxs: seq<SourceEscrow>,
    pontemTxs: seq<SourceEscrow>,
    outbox: seq<Message>,
    fills: seq<Fill>)
  {
    function Spawn(task: Task): Session {
      this.(pending := pending[nextTask := task], nextTask := nextTask + 1)
    }

    function Drop(t: nat): Session {
      this.(pending := pending - {t})
    }

    function Send(message: Message): Session {
      this.(outbox := outbox + [message])
    }
  }

  function Initial(order: Order): Session {
    Session({}, order.deadline, false, map[], 0, [], [], [], [])
  }

  /** The part of the order that one destination event asks for; zero percent counts as no percentage. */
  function AmountFor(order: Order, e: DestinationEvent): int {
    if e.isPartialFill && e.fillPercentage != 0.0 then PartialAmount(order.fromAmount, e.fillPercentage)
    else order.fromAmount
  }

  function SourceIdFor(order: Order, e: DestinationEvent): SourceId {
    if e.isPartialFill && e.fillPercentage != 0.0 then FillSourceId(e.escrowId, order.nonce) else OrderSourceId
  }

  // ---------- The steps ----------

  function OnDestinationCreated(order: Order, s: Session, e: DestinationEvent): Session {
    if e.orderId == order.orderId then s.Spawn(DestinationLogged(e)) else s
  }

  /** The first event for a destination escrow starts one signing; any later one is skipped. */
  function AnswerDestination(order: Order, s: Session, e: DestinationEvent): Session {
    if order.fromChain.Aptos? && e.chain.Ethereum? then
      if e.escrowId in s.createdEscrows then s
      else s.(createdEscrows := s.createdEscrows + {e.escrowId}, intentTimelock := e.timelock).Spawn(SignTimer(e))
    else if order.fromChain.Ethereum? && e.chain.Aptos? then s.Spawn(WethTimer(e, AmountFor(order, e)))
    else s
  }

  /** The transaction takes the timelock that the shared intent has at this moment. */
  function BuildTx(order: Order, s: Session, e: DestinationEvent): SourceEscrow {
    SourceEscrow(e, SourceIdFor(order, e), AmountFor(order, e), s.intentTimelock)
  }

  /** What Pontem is asked to sign: the whole order under its own id, whatever part the event asks for. */
  function PontemPayload(order: Order, s: Session, e: DestinationEvent): SourceEscrow {
    SourceEscrow(e, OrderSourceId, order.fromAmount, s.intentTimelock)
  }

  function AskRise(order: Order, s: Session, tx: SourceEscrow): Session {
    if order.wallets.rise then s.Spawn(RiseAsked(tx)) else s
  }

  /** Petra, then Rise; with neither, the signing is given up. */
  function AskOthers(order: Order, s: Session, tx: SourceEscrow): Session {
    if order.wallets.petra then s.Spawn(PetraAsked(tx)) else AskRise(order, s, tx)
  }

  function Sign(s: Session, tx: SourceEscrow): Session {
    s.(signedTxs := s.signedTxs + [tx]).Spawn(WalletSigned(tx))
  }

  predicate AsksWallet(task: Task) {
    task.Built? || task.PontemAsked? || task.PetraAsked? || task.RiseAsked?
  }

  /** The wallet asked by this task has refused; the task itself is already removed. */
  function Refused(order: Order, s: Session, task: Task): Session
    requires AsksWallet(task)
  {
    match task
    case Built(tx) =>
      if order.wallets.pontem then s.Spawn(PontemAsked(tx, PontemPayload(order, s, tx.event))) else AskOthers(order, s, tx)
    case PontemAsked(tx, _) => AskOthers(order, s, tx)
    case PetraAsked(tx) => AskRise(order, s, tx)
    case RiseAsked(_) => s
  }

  function OnSourceCreated(order: Order, s: Session, orderId: string): Session {
    if orderId == order.orderId then s.Spawn(SourceLogged) else s
  }

  function StartReveal(s: Session): Session {
    if s.revealed then s else s.(revealed := true).Spawn(RevealTimer)
  }

  /** Continue one pending task with the task itself already removed. */
  function Continue(order: Order, s: Session, task: Task): Session {
    match task
    case DestinationLogged(e) => AnswerDestination(order, s, e)
    case SignTimer(e) => s.Spawn(SignStarted(e))
    case SignStarted(e) => s.Spawn(Built(BuildTx(order, s, e)))
    case Built(tx) => Sign(s, tx)
    case PontemAsked(tx, payload) => AskOthers(order, s.(pontemTxs := s.pontemTxs + [payload]), tx)
    case PetraAsked(tx) => Sign(s, tx)
    case RiseAsked(tx) => Sign(s, tx)
    case WalletSigned(tx) => s.Send(SignedSponsored(tx, s.intentTimelock)).Send(SourceCreated(tx.sourceId, tx.amount))
    case WethTimer(e, amount) => s.Send(SignedGasless(e, amount))
    case SourceLogged => StartReveal(s)
    case RevealTimer => s.Send(SecretReveal(order.orderId, order.secret))
  }

  datatype Action =
    | DeliverDestination(event: DestinationEvent)
    | DeliverSource(orderId: string)
    | DeliverFill(orderId: string, fill: FillEvent)
    | Resume(task: nat)
    | Refuse(task: nat)
    | Fail(task: nat)

  /** Resuming, refusing or failing a task that is not pending does nothing. */
  function Step(order: Order, s: Session, a: Action): Session {
    match a
    case DeliverDestination(e) => OnDestinationCreated(order, s, e)
    case DeliverSource(id) => OnSourceCreated(order, s, id)
    case DeliverFill(id, e) => if id == order.orderId then s.(fills := Update(s.fills, e)) else s
    case Resume(t) => if t in s.pending then Continue(order, s.Drop(t), s.pending[t]) else s
    case Refuse(t) => if t in s.pending && AsksWallet(s.pending[t]) then Refused(order, s.Drop(t), s.pending[t]) else s
    case Fail(t) => if t in s.pending then s.Drop(t) else s
  }

  function Run(order: Order, actions: seq<Action>): Session {
    if actions == [] then Initial(order)
    else Step(order, Run(order, actions[..|actions| - 1]), actions[|actions| - 1])
  }
}
