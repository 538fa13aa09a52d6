/**
 The escrow contract on the Ethereum side (FusionPlusGaslessEscrowV2).

 Each entry point is given as a function from the state before a call to its outcome. A reverted call
 leaves every part of the state as it was.
 Signatures are ideal: a signature names its signer and the exact message signed. The contract tests
 whether an escrow or order exists by looking for a depositor other than zero; here that is membership in
 a map, and no stored depositor is ever zero.
 */
module GaslessEscrow {
  import opened Bytes
  import opened Ledger
  import opened MerkleVerifier
  import opened PartialFillSecrets

  const ZERO_ADDRESS: Address := 0

  datatype Escrow = Escrow(
    depositor: Address,
    beneficiary: Address,
    token: Asset,
    amount: nat,
    hashlock: Bytes,
    timelock: nat,
    withdrawn: bool,
    refunded: bool,
    safetyDeposit: nat)
  {
    predicate Open() {
      !withdrawn && !refunded
    }

    /** The terms, which no later call may change. */
    function Terms(): Escrow {
      this.(withdrawn := false, refunded := false)
    }
  }

  datatype PartialFillOrder = PartialFillOrder(
    depositor: Address,
    beneficiary: Address,
    totalAmount: nat,
    filledAmount: nat,
    merkleRoot: Bytes,
    numFills: nat)

  datatype MetaTxParams = MetaTxParams(
    escrowId: Bytes,
    depositor: Address,
    beneficiary: Address,
    token: Asset,
    amount: nat,
    hashlock: Bytes,
    timelock: nat,
    deadline: nat)

  datatype PartialFillParams = PartialFillParams(
    baseOrderId: Bytes,
    depositor: Address,
    beneficiary: Address,
    token: Asset,
    totalAmount: nat,
    merkleRoot: Bytes,
    numFills: nat,
    timelock: nat,
    deadline: nat)

  /** The two kinds of typed message a depositor signs. */
  datatype Message =
    | CreateEscrowMessage(params: MetaTxParams, nonce: nat)
    | CreateOrderMessage(order: PartialFillParams, nonce: nat)

  datatype Signature = Signature(signer: Address, message: Message)

  /** Everything fixed at deployment. */
  datatype Env = Env(
    self: Address,
    weth: Asset,
    keccak: Bytes -> Bytes,
    fillId: (Bytes, nat) -> Bytes)

  datatype State = State(
    escrows: map<Bytes, Escrow>,
    partialFillOrders: map<Bytes, PartialFillOrder>,
    nonces: map<Address, nat>,
    usedMerkleIndices: set<(Bytes, nat)>,
    balances: Balances)

  datatype Error =
    | InvalidAmount | InvalidTimelock | PermitExpired | EscrowAlreadyExists | InvalidSignature
    | OrderDoesNotExist | InvalidMerkleIndex | MerkleIndexAlreadyUsed | ExceedsTotalAmount
    | InvalidMerkleProof | SafetyDepositRequired | TransferFailed
    | EscrowDoesNotExist | AlreadyWithdrawn | AlreadyRefunded | InvalidSecret | TimelockNotExpired

  datatype Outcome = Done(state: State) | Revert(error: Error)

  function NonceOf(nonces: map<Address, nat>, user: Address): nat {
    if user in nonces then nonces[user] else 0
  }

  /** The contract has no key, and recovery never yields the zero address. */
  predicate CanSign(env: Env, account: Address) {
    account != env.self && account != ZERO_ADDRESS
  }

  /** The signature recovers to the depositor for exactly this message. */
  predicate SignedBy(env: Env, signature: Signature, depositor: Address, message: Message) {
    signature.signer == depositor && signature.message == message && CanSign(env, depositor)
  }

  // ---------- Creating ----------

  /** Pull the amount from the depositor and store a new escrow. `allowed` is the token's own verdict on the allowance. */
  function StoreEscrow(env: Env, st: State, id: Bytes, e: Escrow, allowed: bool): Outcome {
    if id in st.escrows then Revert(EscrowAlreadyExists)
    else if e.token.Ether? || !allowed || BalanceOf(st.balances, e.token, e.depositor) < e.amount then Revert(TransferFailed)
    else Done(st.(escrows := st.escrows[id := e],
                  balances := Move(st.balances, e.token, e.depositor, env.self, e.amount)))
  }

  /** The Ether sent along with a call. */
  function ReceiveValue(env: Env, st: State, caller: Address, value: nat): Outcome {
    if caller == env.self || BalanceOf(st.balances, Ether, caller) < value then Revert(TransferFailed)
    else Done(st.(balances := Move(st.balances, Ether, caller, env.self, value)))
  }

  function EscrowFromParams(p: MetaTxParams, safetyDeposit: nat): Escrow {
    Escrow(p.depositor, p.beneficiary, p.token, p.amount, p.hashlock, p.timelock, false, false, safetyDeposit)
  }

  /** The checks and the nonce step shared by the two ways to create an escrow from a signed message. */
  function CreateSigned(env: Env, st: State, caller: Address, value: nat, id: Bytes, p: MetaTxParams,
                        signature: Signature, allowed: bool, now: nat): Outcome
  {
    if p.amount == 0 then Revert(InvalidAmount)
    else if p.timelock <= now then Revert(InvalidTimelock)
    else if now > p.deadline then Revert(PermitExpired)
    else if id in st.escrows then Revert(EscrowAlreadyExists)
    else
      var nonce := NonceOf(st.nonces, p.depositor);
      if !SignedBy(env, signature, p.depositor, CreateEscrowMessage(p, nonce)) then Revert(InvalidSignature)
      else
        var st1 := st.(nonces := st.nonces[p.depositor := nonce + 1]);
        match ReceiveValue(env, st1, caller, value)
        case Revert(error) => Revert(error)
        case Done(st2) => StoreEscrow(env, st2, id, EscrowFromParams(p, value), allowed)
  }

  function CreateEscrowWithMetaTx(env: Env, st: State, caller: Address, value: nat, p: MetaTxParams,
                                  signature: Signature, allowed: bool, now: nat): Outcome
  {
    CreateSigned(env, st, caller, value, p.escrowId, p, signature, allowed, now)
  }

  function CreateGaslessPartialFillEscrow(env: Env, st: State, caller: Address, value: nat, p: MetaTxParams,
                                          baseOrderId: Bytes, fillIndex: nat,
                                          signature: Signature, allowed: bool, now: nat): Outcome
  {
    CreateSigned(env, st, caller, value, env.fillId(baseOrderId, fillIndex), p, signature, allowed, now)
  }

  function CreatePartialFillOrder(env: Env, st: State, p: PartialFillParams, signature: Signature, now: nat): Outcome {
    if p.totalAmount == 0 then Revert(InvalidAmount)
    else if p.timelock <= now then Revert(InvalidTimelock)
    else if now > p.deadline then Revert(PermitExpired)
    else if p.baseOrderId in st.partialFillOrders then Revert(EscrowAlreadyExists)
    else
      var nonce := NonceOf(st.nonces, p.depositor);
      if !SignedBy(env, signature, p.depositor, CreateOrderMessage(p, nonce)) then Revert(InvalidSignature)
      else
        var order := PartialFillOrder(p.depositor, p.beneficiary, p.totalAmount, 0, p.merkleRoot, p.numFills);
        Done(st.(nonces := st.nonces[p.depositor := nonce + 1],
                 partialFillOrders := st.partialFillOrders[p.baseOrderId := order]))
  }

  /** The caller becomes the beneficiary and the timelock is one hour from now. */
  function FillEscrow(env: Env, order: PartialFillOrder, caller: Address, value: nat, amount: nat, hashlock: Bytes,
                      now: nat): Escrow
  {
    Escrow(order.depositor, caller, env.weth, amount, hashlock, now + 3600, false, false, value)
  }

  function CreatePartialFillEscrow(env: Env, st: State, caller: Address, value: nat, baseOrderId: Bytes, fillIndex: nat,
                                   amount: nat, hashlock: Bytes, merkleProof: seq<Bytes>,
                                   allowed: bool, now: nat): Outcome
  {
    if baseOrderId !in st.partialFillOrders then Revert(OrderDoesNotExist)
    else
      var order := st.partialFillOrders[baseOrderId];
      if fillIndex >= order.numFills then Revert(InvalidMerkleIndex)
      else if (baseOrderId, fillIndex) in st.usedMerkleIndices then Revert(MerkleIndexAlreadyUsed)
      else if order.filledAmount + amount > order.totalAmount then Revert(ExceedsTotalAmount)
      else if Climb(PairHash(env.keccak), hashlock, fillIndex, merkleProof) != order.merkleRoot
      then Revert(InvalidMerkleProof)
      else if value == 0 then Revert(SafetyDepositRequired)
      else
        var st1 := st.(usedMerkleIndices := st.usedMerkleIndices + {(baseOrderId, fillIndex)},
                       partialFillOrders := st.partialFillOrders[baseOrderId :=
                         order.(filledAmount := order.filledAmount + amount)]);
        match ReceiveValue(env, st1, caller, value)
        case Revert(error) => Revert(error)
        case Done(st2) =>
          StoreEscrow(env, st2, env.fillId(baseOrderId, fillIndex),
                      FillEscrow(env, order, caller, value, amount, hashlock, now), allowed)
  }

  // ---------- Closing ----------

  datatype Payment = Paid(balances: Balances) | Unpaid

  /** Pay the amount to `receiver` and the safety deposit to the caller. */
  function PayOut(env: Env, b: Balances, e: Escrow, receiver: Address, caller: Address): Payment {
    if BalanceOf(b, e.token, env.self) < e.amount then Unpaid
    else
      var b1 := Move(b, e.token, env.self, receiver, e.amount);
      if BalanceOf(b1, Ether, env.self) < e.safetyDeposit then Unpaid
      else Paid(Move(b1, Ether, env.self, caller, e.safetyDeposit))
  }

  /** There is no timelock here: the right secret works until somebody refunds. */
  function Withdraw(env: Env, st: State, caller: Address, id: Bytes, secret: Bytes): Outcome {
    if id !in st.escrows then Revert(EscrowDoesNotExist)
    else
      var e := st.escrows[id];
      if e.withdrawn then Revert(AlreadyWithdrawn)
      else if e.refunded then Revert(AlreadyRefunded)
      else if env.keccak(secret) != e.hashlock then Revert(InvalidSecret)
      else match PayOut(env, st.balances, e, e.beneficiary, caller)
        case Unpaid => Revert(TransferFailed)
        case Paid(b) => Done(st.(escrows := st.escrows[id := e.(withdrawn := true)], balances := b))
  }

  function Refund(env: Env, st: State, caller: Address, id: Bytes, now: nat): Outcome {
    if id !in st.escrows then Revert(EscrowDoesNotExist)
    else
      var e := st.escrows[id];
      if e.withdrawn then Revert(AlreadyWithdrawn)
      else if e.refunded then Revert(AlreadyRefunded)
      else if now < e.timelock then Revert(TimelockNotExpired)
      else match PayOut(env, st.balances, e, e.depositor, caller)
        case Unpaid => Revert(TransferFailed)
        case Paid(b) => Done(st.(escrows := st.escrows[id := e.(refunded := true)], balances := b))
  }
}
