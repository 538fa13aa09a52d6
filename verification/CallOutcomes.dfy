/**
 What each call to the escrow contract demands, in the order in which the contract looks at it, and the error it
 reports when a demand is not met.
 */
module CallOutcomes {
  import opened Bytes
  import opened Options
  import opened Ledger
  import opened MerkleVerifier
  import opened PartialFillSecrets
  import opened GaslessEscrow
  import opened GaslessEscrowRuns

  datatype Demand = Demand(met: bool, error: Error)

  /** The error of the first demand that is not met. */
  function FirstUnmet(demands: seq<Demand>): Option<Error> {
    if demands == [] then None else if demands[0].met then FirstUnmet(demands[1..]) else Some(demands[0].error)
  }

  ghost predicate AllMet(demands: seq<Demand>) {
    forall i :: 0 <= i < |demands| ==> demands[i].met
  }

  lemma {:induction false} AllMetIff(demands: seq<Demand>)
    ensures AllMet(demands) <==> FirstUnmet(demands).None?
    decreases |demands|
  {
    if demands != [] {
      AllMetIff(demands[1..]);
      assert demands == [demands[0]] + demands[1..];
    }
  }

  // ---------- The demands ----------

  /** The caller is somebody else and can send this much Ether along. */
  predicate CanSend(env: Env, st: State, caller: Address, value: nat) {
    caller != env.self && BalanceOf(st.balances, Ether, caller) >= value
  }

  /** The depositor holds the amount of an ERC-20 token and has allowed the contract to take it. */
  predicate CanTake(st: State, token: Asset, depositor: Address, amount: nat, allowed: bool) {
    token.Token? && allowed && BalanceOf(st.balances, token, depositor) >= amount
  }

  /** A real account signed this message. */
  predicate Genuine(env: Env, signature: Signature, depositor: Address, message: Message) {
    signature == Signature(depositor, message) && depositor != 0 && depositor != env.self
  }

  function CreateDemands(env: Env, st: State, caller: Address, value: nat, id: Bytes, p: MetaTxParams,
                         signature: Signature, allowed: bool, now: nat): seq<Demand>
  {
    var nonce := if p.depositor in st.nonces then st.nonces[p.depositor] else 0;
    [Demand(p.amount > 0, InvalidAmount),
     Demand(now < p.timelock, InvalidTimelock),
     Demand(now <= p.deadline, PermitExpired),
     Demand(id !in st.escrows, EscrowAlreadyExists),
     Demand(Genuine(env, signature, p.depositor, CreateEscrowMessage(p, nonce)), InvalidSignature),
     Demand(CanSend(env, st, caller, value), TransferFailed),
     Demand(CanTake(st, p.token, p.depositor, p.amount, allowed), TransferFailed)]
  }

  function OrderDemands(env: Env, st: State, p: PartialFillParams, signature: Signature, now: nat): seq<Demand> {
    var nonce := if p.depositor in st.nonces then st.nonces[p.depositor] else 0;
    [Demand(p.totalAmount > 0, InvalidAmount),
     Demand(now < p.timelock, InvalidTimelock),
     Demand(now <= p.deadline, PermitExpired),
     Demand(p.baseOrderId !in st.partialFillOrders, EscrowAlreadyExists),
     Demand(Genuine(env, signature, p.depositor, CreateOrderMessage(p, nonce)), InvalidSignature)]
  }

  const NO_ORDER := PartialFillOrder(0, 0, 0, 0, [], 0)

  function FillDemands(env: Env, st: State, caller: Address, value: nat, o: Bytes, i: nat, amount: nat, hashlock: Bytes,
                       proof: seq<Bytes>, allowed: bool): seq<Demand>
  {
    var order := if o in st.partialFillOrders then st.partialFillOrders[o] else NO_ORDER;
    [Demand(o in st.partialFillOrders, OrderDoesNotExist),
     Demand(i < order.numFills, InvalidMerkleIndex),
     Demand((o, i) !in st.usedMerkleIndices, MerkleIndexAlreadyUsed),
     Demand(amount <= order.totalAmount - order.filledAmount, ExceedsTotalAmount),
     Demand(Climb(PairHash(env.keccak), hashlock, i, proof) == order.merkleRoot, InvalidMerkleProof),
     Demand(value > 0, SafetyDepositRequired),
     Demand(CanSend(env, st, caller, value), TransferFailed),
     Demand(env.fillId(o, i) !in st.escrows, EscrowAlreadyExists),
     Demand(CanTake(st, env.weth, order.depositor, amount, allowed), TransferFailed)]
  }

  const NO_ESCROW := Escrow(0, 0, Ether, 0, [], 0, false, false, 0)

  /** The contract holds the amount and the safety deposit, also where both are Ether. */
  predicate CanPay(env: Env, st: State, e: Escrow, receiver: Address) {
    && BalanceOf(st.balances, e.token, env.self) >= e.amount
    && BalanceOf(Move(st.balances, e.token, env.self, receiver, e.amount), Ether, env.self) >= e.safetyDeposit
  }

  function CloseDemands(env: Env, st: State, id: Bytes, withdrawal: bool, key: Demand): seq<Demand> {
    var e := if id in st.escrows then st.escrows[id] else NO_ESCROW;
    [Demand(id in st.escrows, EscrowDoesNotExist),
     Demand(!e.withdrawn, AlreadyWithdrawn),
     Demand(!e.refunded, AlreadyRefunded),
     key,
     Demand(CanPay(env, st, e, if withdrawal then e.beneficiary else e.depositor), TransferFailed)]
  }

  function Demands(env: Env, st: State, call: Call): seq<Demand> {
    match call
    case CreateOrderCall(p, signature, now) => OrderDemands(env, st, p, signature, now)
    case CreateFillCall(caller, value, o, i, amount, hashlock, proof, allowed, _) =>
      FillDemands(env, st, caller, value, o, i, amount, hashlock, proof, allowed)
    case CreateEscrowCall(caller, value, p, signature, allowed, now) =>
      CreateDemands(env, st, caller, value, p.escrowId, p, signature, allowed, now)
    case CreateGaslessFillCall(caller, value, p, o, i, signature, allowed, now) =>
      CreateDemands(env, st, caller, value, env.fillId(o, i), p, signature, allowed, now)
    case WithdrawCall(_, id, secret) =>
      CloseDemands(env, st, id, true,
                   Demand(id in st.escrows && env.keccak(secret) == st.escrows[id].hashlock, InvalidSecret))
    case RefundCall(_, id, now) =>
      CloseDemands(env, st, id, false, Demand(id in st.escrows && st.escrows[id].timelock <= now, TimelockNotExpired))
    case OutsideTransfer(asset, from, _, amount) =>
      [Demand(from != env.self && BalanceOf(st.balances, asset, from) >= amount, TransferFailed)]
  }

  // ---------- The contract looks at exactly these ----------

  lemma {:induction false} TakeAfterSend(env: Env, st: State, caller: Address, value: nat, token: Asset, depositor: Address)
    requires CanSend(env, st, caller, value) && token.Token?
    ensures BalanceOf(Move(st.balances, Ether, caller, env.self, value), token, depositor)
         == BalanceOf(st.balances, token, depositor)
  {
    hide BalanceOf, Move;
  }

  /** The outcome agrees with a list of demands. */
  ghost predicate Agrees(outcome: Outcome, demands: seq<Demand>) {
    match FirstUnmet(demands)
    case Some(error) => outcome == Revert(error)
    case None => outcome.Done?
  }

  lemma {:induction false} CreateOutcome(env: Env, st: State, caller: Address, value: nat, id: Bytes, p: MetaTxParams,
                                         signature: Signature, allowed: bool, now: nat)
    ensures Agrees(CreateSigned(env, st, caller, value, id, p, signature, allowed, now),
                   CreateDemands(env, st, caller, value, id, p, signature, allowed, now))
  {
    var demands := CreateDemands(env, st, caller, value, id, p, signature, allowed, now);
    if CanSend(env, st, caller, value) && p.token.Token? {
      TakeAfterSend(env, st, caller, value, p.token, p.depositor);
    }
    hide BalanceOf, Move;
    FirstOfSeven(demands);
    hide FirstUnmet;
  }

  lemma {:induction false} FirstTwo(d: seq<Demand>)
    requires |d| >= 2
    ensures FirstUnmet(d) ==
      if !d[0].met then Some(d[0].error) else if !d[1].met then Some(d[1].error) else FirstUnmet(d[2..])
  {
    assert d[1..][1..] == d[2..];
  }

  lemma {:induction false} FirstOfSeven(d: seq<Demand>)
    requires |d| == 7
    ensures FirstUnmet(d) ==
      if !d[0].met then Some(d[0].error) else if !d[1].met then Some(d[1].error) else if !d[2].met then Some(d[2].error)
      else if !d[3].met then Some(d[3].error) else if !d[4].met then Some(d[4].error)
      else if !d[5].met then Some(d[5].error) else if !d[6].met then Some(d[6].error) else None
  {
    FirstTwo(d);
    FirstOfFive(d[2..]);
    hide FirstUnmet;
  }

  lemma {:induction false} FirstOfFive(d: seq<Demand>)
    requires |d| == 5
    ensures FirstUnmet(d) ==
      if !d[0].met then Some(d[0].error) else if !d[1].met then Some(d[1].error) else if !d[2].met then Some(d[2].error)
      else if !d[3].met then Some(d[3].error) else if !d[4].met then Some(d[4].error) else None
  {
    assert d[1..][1..] == d[2..] && d[2..][1..] == d[3..] && d[3..][1..] == d[4..] && d[4..][1..] == [];
    assert FirstUnmet(d[4..]) == if d[4].met then None else Some(d[4].error);
    assert FirstUnmet(d[3..]) == if d[3].met then FirstUnmet(d[4..]) else Some(d[3].error);
    assert FirstUnmet(d[2..]) == if d[2].met then FirstUnmet(d[3..]) else Some(d[2].error);
  }

  lemma {:induction false} OrderOutcome(env: Env, st: State, p: PartialFillParams, signature: Signature, now: nat)
    ensures Agrees(CreatePartialFillOrder(env, st, p, signature, now), OrderDemands(env, st, p, signature, now))
  {
    FirstOfFive(OrderDemands(env, st, p, signature, now));
    hide FirstUnmet;
  }

  lemma {:induction false} FillOutcome(env: Env, st: State, caller: Address, value: nat, o: Bytes, i: nat, amount: nat,
                                       hashlock: Bytes, proof: seq<Bytes>, allowed: bool, now: nat)
    ensures Agrees(CreatePartialFillEscrow(env, st, caller, value, o, i, amount, hashlock, proof, allowed, now),
                   FillDemands(env, st, caller, value, o, i, amount, hashlock, proof, allowed))
  {
    var demands := FillDemands(env, st, caller, value, o, i, amount, hashlock, proof, allowed);
    if o in st.partialFillOrders && CanSend(env, st, caller, value) && env.weth.Token? {
      TakeAfterSend(env, st, caller, value, env.weth, st.partialFillOrders[o].depositor);
    }
    hide BalanceOf, Move, Climb;
    FirstTwo(demands);
    FirstOfSeven(demands[2..]);
    hide FirstUnmet;
  }

  lemma {:induction false} CloseOutcome(env: Env, st: State, call: Call)
    requires IsClose(call)
    ensures Agrees(OutcomeOf(env, st, call), Demands(env, st, call))
  {
    FirstOfFive(Demands(env, st, call));
    hide BalanceOf, Move, FirstUnmet;
  }

  lemma {:induction false} TransferOutcome(env: Env, st: State, call: Call)
    requires call.OutsideTransfer?
    ensures Agrees(OutcomeOf(env, st, call), Demands(env, st, call))
  {
    hide BalanceOf, Move;
    var d := Demands(env, st, call);
    assert FirstUnmet(d[1..]).None?;
  }

  /** Every call, in every state, reports the first of its demands that is not met, and goes through if all are. */
  lemma {:induction false} ReportsFirstUnmet(env: Env, st: State, call: Call)
    ensures Agrees(OutcomeOf(env, st, call), Demands(env, st, call))
  {
    if IsClose(call) {
      CloseOutcome(env, st, call);
    } else if call.OutsideTransfer? {
      TransferOutcome(env, st, call);
    } else {
      hide CreateSigned, CreatePartialFillOrder, CreatePartialFillEscrow, Agrees;
      match call
      case CreateOrderCall(p, signature, now) => OrderOutcome(env, st, p, signature, now);
      case CreateFillCall(caller, value, o, i, amount, hashlock, proof, allowed, now) =>
        FillOutcome(env, st, caller, value, o, i, amount, hashlock, proof, allowed, now);
      case CreateEscrowCall(caller, value, p, signature, allowed, now) =>
        CreateOutcome(env, st, caller, value, p.escrowId, p, signature, allowed, now);
      case CreateGaslessFillCall(caller, value, p, o, i, signature, allowed, now) =>
        CreateOutcome(env, st, caller, value, env.fillId(o, i), p, signature, allowed, now);
    }
  }

  /** Every call is accepted in every state exactly when all its demands are met. */
  lemma {:induction false} AcceptedIff(env: Env, st: State, call: Call)
    ensures Accepted(env, st, call) <==> AllMet(Demands(env, st, call))
  {
    hide OutcomeOf, Demands, AllMet;
    ReportsFirstUnmet(env, st, call);
    AllMetIff(Demands(env, st, call));
  }

  // ---------- When each creating call is accepted ----------

  /** The creation of an escrow is in order but for its signature: amount, times, a free id, and money. */
  predicate CreationInOrder(env: Env, st: State, caller: Address, value: nat, id: Bytes, p: MetaTxParams, allowed: bool,
                            now: nat)
  {
    && p.amount > 0 && now < p.timelock && now <= p.deadline && id !in st.escrows
    && caller != env.self && BalanceOf(st.balances, Ether, caller) >= value
    && p.token.Token? && allowed && BalanceOf(st.balances, p.token, p.depositor) >= p.amount
  }

  /** A signed creation is accepted, in every state, exactly when it is in order and its signature is on the current nonce. */
  lemma {:induction false} CreationAcceptedIff(env: Env, st: State, call: Call)
    requires call.CreateEscrowCall? || call.CreateGaslessFillCall?
    ensures var p, id := call.params, CreatedId(env, call);
      Accepted(env, st, call) <==>
        && CreationInOrder(env, st, call.caller, call.value, id, p, call.allowed, call.now)
        && call.signature == Signature(p.depositor, CreateEscrowMessage(p, NonceOf(st.nonces, p.depositor)))
        && p.depositor != 0 && p.depositor != env.self
  {
    AcceptedIff(env, st, call);
    hide Accepted, BalanceOf;
    var d := Demands(env, st, call);
    assert AllMet(d) <==> d[0].met && d[1].met && d[2].met && d[3].met && d[4].met && d[5].met && d[6].met;
  }

  predicate OrderInOrder(st: State, p: PartialFillParams, now: nat) {
    p.totalAmount > 0 && now < p.timelock && now <= p.deadline && p.baseOrderId !in st.partialFillOrders
  }

  lemma {:induction false} OrderAcceptedIff(env: Env, st: State, call: Call)
    requires call.CreateOrderCall?
    ensures var p := call.order;
      Accepted(env, st, call) <==>
        && OrderInOrder(st, p, call.now)
        && call.signature == Signature(p.depositor, CreateOrderMessage(p, NonceOf(st.nonces, p.depositor)))
        && p.depositor != 0 && p.depositor != env.self
  {
    AcceptedIff(env, st, call);
    hide Accepted;
    var d := Demands(env, st, call);
    assert AllMet(d) <==> d[0].met && d[1].met && d[2].met && d[3].met && d[4].met;
  }

  /**
   The order exists, the index is one of the order's and unused, the amount fits in what is left, the proof climbs to the
   root, the caller can pay a deposit, the fill has no escrow yet, and the depositor can pay in wrapped Ether.
   */
  predicate FillInOrder(env: Env, st: State, caller: Address, value: nat, o: Bytes, i: nat, amount: nat, hashlock: Bytes,
                        proof: seq<Bytes>, allowed: bool)
  {
    && o in st.partialFillOrders
    && var order := st.partialFillOrders[o];
       && i < order.numFills && (o, i) !in st.usedMerkleIndices
       && order.filledAmount + amount <= order.totalAmount
       && Climb(PairHash(env.keccak), hashlock, i, proof) == order.merkleRoot
       && value > 0 && caller != env.self && BalanceOf(st.balances, Ether, caller) >= value
       && env.fillId(o, i) !in st.escrows
       && env.weth.Token? && allowed && BalanceOf(st.balances, env.weth, order.depositor) >= amount
  }

  /** A fill is accepted, in every state, exactly when it is in order. */
  lemma {:induction false} FillAcceptedIff(env: Env, st: State, call: Call)
    requires call.CreateFillCall?
    ensures Accepted(env, st, call) <==>
      FillInOrder(env, st, call.caller, call.value, call.baseOrderId, call.fillIndex, call.amount, call.hashlock,
                  call.merkleProof, call.allowed)
  {
    AcceptedIff(env, st, call);
    hide Accepted, Climb, BalanceOf;
    var d := Demands(env, st, call);
    assert AllMet(d) <==> d[0].met && d[1].met && d[2].met && d[3].met && d[4].met && d[5].met && d[6].met && d[7].met
                          && d[8].met;
  }
}
