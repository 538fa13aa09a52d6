/**
 The escrow contract as an object with mutable storage.

 Its history is the sequence of transactions it has seen. Every method performs one transaction in the order of
 its checks, undoes what it changed when a later check fails, and promises what holds of every such history.
 */
module EscrowContract {
  import opened Bytes
  import opened Options
  import opened Ledger
  import opened MerkleVerifier
  import opened PartialFillSecrets
  import opened GaslessEscrow
  import opened GaslessEscrowRuns
  import opened CallOutcomes
  import opened PartialFillOrders
  import opened Authorisation
  import opened NonceProtocol

  /** An open escrow that this secret opens. */
  predicate OpenWith(env: Env, st: State, id: Bytes, secret: Bytes) {
    id in st.escrows && st.escrows[id].Open() && env.keccak(secret) == st.escrows[id].hashlock
  }

  /** An open escrow whose timelock has passed. */
  predicate OpenPast(st: State, id: Bytes, now: nat) {
    id in st.escrows && st.escrows[id].Open() && now >= st.escrows[id].timelock
  }

  /** The escrow was paid in full, to its beneficiary or back to its depositor, and nothing else was closed. */
  ghost predicate PaidIn(env: Env, before: State, after: State, id: Bytes, withdrawn: bool, caller: Address) {
    && id in before.escrows
    && var e := before.escrows[id];
       if withdrawn then PaysOut(env, before, Done(after), id, e.(withdrawn := true), e.beneficiary, caller)
       else PaysOut(env, before, Done(after), id, e.(refunded := true), e.depositor, caller)
  }

  /** After any run a withdrawal succeeds exactly on an open escrow with the right secret: the money is always there. */
  lemma {:induction false} WithdrawnIff(env: Env, balances: Balances, calls: seq<Call>, caller: Address, id: Bytes,
                                        secret: Bytes)
    ensures var st := Run(env, Deployed(balances), calls);
      var call := WithdrawCall(caller, id, secret);
      && (Accepted(env, st, call) <==> OpenWith(env, st, id, secret))
      && (Accepted(env, st, call) ==> PaidIn(env, st, Apply(env, st, call), id, true, caller))
  {
    var st := Run(env, Deployed(balances), calls);
    if OpenWith(env, st, id, secret) {
      OpenEscrowAlwaysPayable(env, balances, calls, caller, id, secret);
    }
    hide Run, PayOut, PaysOut;
  }

  /** After any run a refund succeeds exactly on an open escrow past its timelock. */
  lemma {:induction false} RefundedIff(env: Env, balances: Balances, calls: seq<Call>, caller: Address, id: Bytes, now: nat)
    ensures var st := Run(env, Deployed(balances), calls);
      var call := RefundCall(caller, id, now);
      && (Accepted(env, st, call) <==> OpenPast(st, id, now))
      && (Accepted(env, st, call) ==> PaidIn(env, st, Apply(env, st, call), id, false, caller))
  {
    var st := Run(env, Deployed(balances), calls);
    if OpenPast(st, id, now) {
      OpenEscrowAlwaysRefundable(env, balances, calls, caller, id, now);
    }
    hide Run, PayOut, PaysOut;
  }

  /** A real account signed the parameters with the number of its messages accepted so far. */
  predicate SignedInTurn(env: Env, start: State, history: seq<Call>, p: MetaTxParams, signature: Signature) {
    && signature == Signature(p.depositor, CreateEscrowMessage(p, AcceptedBy(env, start, history, p.depositor)))
    && p.depositor != 0 && p.depositor != env.self
  }

  /** Nothing when all demands are met, and otherwise the error of the first that is not. */
  function Report(demands: seq<Demand>): seq<Error> {
    match FirstUnmet(demands)
    case None => []
    case Some(error) => [error]
  }

  /** Contract storage, with the asset balances of the chain it lives on. */
  class Contract {
    const env: Env
    ghost const genesis: Balances
    ghost var history: seq<Call>

    var escrows: map<Bytes, Escrow>
    var partialFillOrders: map<Bytes, PartialFillOrder>
    var nonces: map<Address, nat>
    var usedMerkleIndices: set<(Bytes, nat)>
    var balances: Balances

    function Storage(): State
      reads this
    {
      State(escrows, partialFillOrders, nonces, usedMerkleIndices, balances)
    }

    ghost function Start(): State {
      Deployed(genesis)
    }

    /** Storage is what the history of transactions leads to. */
    ghost predicate Valid()
      reads this
    {
      Storage() == Run(env, Start(), history)
    }

    constructor (env: Env, balances: Balances)
      ensures this.env == env && genesis == balances && Valid() && history == []
    {
      this.env := env;
      this.genesis, this.history := balances, [];
      this.escrows, this.partialFillOrders, this.nonces := map[], map[], map[];
      this.usedMerkleIndices, this.balances := {}, balances;
    }

    /** Storage is as the outcome says: the new state, or the state before. */
    ghost predicate Performs(before: State, outcome: Outcome, error: seq<Error>)
      reads this
    {
      match outcome
      case Done(st) => error == [] && Storage() == st
      case Revert(e) => error == [e] && Storage() == before
    }

    /** The transaction is recorded, and storage is as its outcome says. */
    ghost predicate Records(earlier: seq<Call>, before: State, call: Call, error: seq<Error>)
      reads this
    {
      history == earlier + [call] && Performs(before, OutcomeOf(env, before, call), error)
    }

    /** A recorded transaction on a valid contract leaves it valid. */
    lemma {:induction false} Recorded(earlier: seq<Call>, before: State, call: Call, error: seq<Error>)
      requires before == Run(env, Start(), earlier) && Records(earlier, before, call, error)
      ensures Valid() && (error == [] <==> Accepted(env, before, call))
      ensures error == [] ==> Storage() == Apply(env, before, call)
      ensures error == Report(Demands(env, before, call))
    {
      hide OutcomeOf, Demands;
      ReportsFirstUnmet(env, before, call);
      assert history[..|history| - 1] == earlier;
    }

    /** The number of this user's messages that have been accepted so far. */
    method GetNonce(user: Address) returns (nonce: nat)
      requires Valid()
      ensures nonce == AcceptedBy(env, Start(), history, user)
    {
      NonceCounts(env, Start(), history, user);
      nonce := if user in nonces then nonces[user] else 0;
    }

    method VerifySignatureAndUpdateNonce(p: MetaTxParams, signature: Signature) returns (ok: bool)
      modifies this`nonces
      ensures ok <==> SignedBy(env, signature, p.depositor, CreateEscrowMessage(p, NonceOf(old(nonces), p.depositor)))
      ensures nonces == if ok then old(nonces)[p.depositor := NonceOf(old(nonces), p.depositor) + 1] else old(nonces)
    {
      var currentNonce := if p.depositor in nonces then nonces[p.depositor] else 0;
      ok := SignedBy(env, signature, p.depositor, CreateEscrowMessage(p, currentNonce));
      if ok {
        nonces := nonces[p.depositor := currentNonce + 1];
      }
    }

    /** The checks and effects that both signed entry points share, at a given escrow id. */
    method CreateFromMessage(caller: Address, value: nat, id: Bytes, p: MetaTxParams, signature: Signature,
                             allowed: bool, now: nat) returns (error: seq<Error>)
      modifies this`escrows, this`nonces, this`balances
      ensures Performs(old(Storage()), CreateSigned(env, old(Storage()), caller, value, id, p, signature, allowed, now),
                       error)
    {
      if p.amount == 0 { return [InvalidAmount]; }
      if p.timelock <= now { return [InvalidTimelock]; }
      if now > p.deadline { return [PermitExpired]; }
      if id in escrows { return [EscrowAlreadyExists]; }
      var savedNonces, savedBalances := nonces, balances;
      var ok := VerifySignatureAndUpdateNonce(p, signature);
      if !ok { return [InvalidSignature]; }
      if caller == env.self || BalanceOf(balances, Ether, caller) < value {
        nonces := savedNonces;
        return [TransferFailed];
      }
      balances := Move(balances, Ether, caller, env.self, value);
      if p.token.Ether? || !allowed || BalanceOf(balances, p.token, p.depositor) < p.amount {
        nonces, balances := savedNonces, savedBalances;
        return [TransferFailed];
      }
      balances := Move(balances, p.token, p.depositor, env.self, p.amount);
      escrows := escrows[id := EscrowFromParams(p, value)];
      return [];
    }

    /** On success the new escrow is on its depositor's signature, and the contract can pay all it holds. */
    method CreateEscrowWithMetaTx(caller: Address, value: nat, p: MetaTxParams, signature: Signature,
                                  allowed: bool, now: nat) returns (error: seq<Error>)
      requires Valid()
      modifies this
      ensures Valid()
      ensures Records(old(history), old(Storage()), CreateEscrowCall(caller, value, p, signature, allowed, now), error)
      ensures error == Report(Demands(env, old(Storage()), history[|history| - 1]))
      ensures error == [] <==>
        && CreationInOrder(env, old(Storage()), caller, value, p.escrowId, p, allowed, now)
        && SignedInTurn(env, Start(), old(history), p, signature)
      ensures Solvent(env, Storage())
      ensures error == [] ==>
        p.escrowId in escrows && SignsEscrow(env, old(Storage()), history[|history| - 1], p.escrowId, escrows[p.escrowId])
    {
      ghost var call := CreateEscrowCall(caller, value, p, signature, allowed, now);
      error := CreateFromMessage(caller, value, p.escrowId, p, signature, allowed, now);
      history := history + [call];
      Recorded(old(history), old(Storage()), call, error);
      AlwaysSolvent(env, genesis, history);
      CreationAcceptedIff(env, old(Storage()), call);
      NonceCounts(env, Start(), old(history), p.depositor);
      if error == [] {
        CreateChecks(env, old(Storage()), call);
        CreateEffect(env, old(Storage()), call);
      }
    }

    method CreateGaslessPartialFillEscrow(caller: Address, value: nat, p: MetaTxParams, baseOrderId: Bytes, fillIndex: nat,
                                          signature: Signature, allowed: bool, now: nat) returns (error: seq<Error>)
      requires Valid()
      modifies this
      ensures Valid()
      ensures Records(old(history), old(Storage()),
                      CreateGaslessFillCall(caller, value, p, baseOrderId, fillIndex, signature, allowed, now), error)
      ensures error == Report(Demands(env, old(Storage()), history[|history| - 1]))
      ensures error == [] <==>
        && CreationInOrder(env, old(Storage()), caller, value, env.fillId(baseOrderId, fillIndex), p, allowed, now)
        && SignedInTurn(env, Start(), old(history), p, signature)
      ensures Solvent(env, Storage())
      ensures error == [] ==>
        var id := env.fillId(baseOrderId, fillIndex);
        id in escrows && SignsEscrow(env, old(Storage()), history[|history| - 1], id, escrows[id])
    {
      ghost var call := CreateGaslessFillCall(caller, value, p, baseOrderId, fillIndex, signature, allowed, now);
      error := CreateFromMessage(caller, value, env.fillId(baseOrderId, fillIndex), p, signature, allowed, now);
      history := history + [call];
      Recorded(old(history), old(Storage()), call, error);
      AlwaysSolvent(env, genesis, history);
      CreationAcceptedIff(env, old(Storage()), call);
      NonceCounts(env, Start(), old(history), p.depositor);
      if error == [] {
        CreateChecks(env, old(Storage()), call);
        CreateEffect(env, old(Storage()), call);
      }
    }

    /** On success the stored order is the one its depositor signed, with nothing filled. */
    method CreateOrder(p: PartialFillParams, signature: Signature, now: nat) returns (error: seq<Error>)
      requires Valid()
      modifies this`nonces, this`partialFillOrders, this`history
      ensures Valid() && Records(old(history), old(Storage()), CreateOrderCall(p, signature, now), error)
      ensures error == Report(Demands(env, old(Storage()), history[|history| - 1]))
      ensures error == [] <==>
        && OrderInOrder(old(Storage()), p, now)
        && signature == Signature(p.depositor, CreateOrderMessage(p, AcceptedBy(env, Start(), old(history), p.depositor)))
        && p.depositor != 0 && p.depositor != env.self
      ensures error == [] ==>
        && p.baseOrderId in partialFillOrders && p.baseOrderId !in old(partialFillOrders)
        && SignsOrder(old(Storage()), history[|history| - 1], p.baseOrderId, partialFillOrders[p.baseOrderId])
        && FilledBelow(env, Storage(), p.baseOrderId, p.numFills) == 0
    {
      ghost var call := CreateOrderCall(p, signature, now);
      error := StoreOrRevert(p, signature, now);
      history := history + [call];
      Recorded(old(history), old(Storage()), call, error);
      OrderNeverOverfilled(env, genesis, history, p.baseOrderId);
      OrderAcceptedIff(env, old(Storage()), call);
      NonceCounts(env, Start(), old(history), p.depositor);
      if error == [] {
        NewOrderSigned(env, old(Storage()), call, p.baseOrderId);
      }
    }

    /** The checks and effects of storing an order. */
    method StoreOrRevert(p: PartialFillParams, signature: Signature, now: nat) returns (error: seq<Error>)
      modifies this`nonces, this`partialFillOrders
      ensures Performs(old(Storage()), CreatePartialFillOrder(env, old(Storage()), p, signature, now), error)
    {
      if p.totalAmount == 0 { return [InvalidAmount]; }
      if p.timelock <= now { return [InvalidTimelock]; }
      if now > p.deadline { return [PermitExpired]; }
      if p.baseOrderId in partialFillOrders { return [EscrowAlreadyExists]; }
      var currentNonce := if p.depositor in nonces then nonces[p.depositor] else 0;
      if !SignedBy(env, signature, p.depositor, CreateOrderMessage(p, currentNonce)) { return [InvalidSignature]; }
      nonces := nonces[p.depositor := currentNonce + 1];
      var order := PartialFillOrder(p.depositor, p.beneficiary, p.totalAmount, 0, p.merkleRoot, p.numFills);
      partialFillOrders := partialFillOrders[p.baseOrderId := order];
      return [];
    }

    /** On success the fills of the order, this one included, add up to what is recorded, within what was signed. */
    method CreatePartialFill(caller: Address, value: nat, baseOrderId: Bytes, fillIndex: nat, amount: nat,
                             hashlock: Bytes, merkleProof: seq<Bytes>, allowed: bool, now: nat)
      returns (error: seq<Error>)
      requires Valid()
      modifies this
      ensures Valid()
      ensures Records(old(history), old(Storage()),
                      CreateFillCall(caller, value, baseOrderId, fillIndex, amount, hashlock, merkleProof, allowed, now), error)
      ensures error == Report(Demands(env, old(Storage()), history[|history| - 1]))
      ensures error == [] <==>
        FillInOrder(env, old(Storage()), caller, value, baseOrderId, fillIndex, amount, hashlock, merkleProof, allowed)
      ensures Solvent(env, Storage()) && FillsChecked(env, Storage())
      ensures error == [] ==>
        && baseOrderId in partialFillOrders && (baseOrderId, fillIndex) in usedMerkleIndices - old(usedMerkleIndices)
        && var order := partialFillOrders[baseOrderId];
           FilledBelow(env, Storage(), baseOrderId, order.numFills) == order.filledAmount <= order.totalAmount
    {
      ghost var call :=
        CreateFillCall(caller, value, baseOrderId, fillIndex, amount, hashlock, merkleProof, allowed, now);
      error := FillOrRevert(caller, value, baseOrderId, fillIndex, amount, hashlock, merkleProof, allowed, now);
      history := history + [call];
      Recorded(old(history), old(Storage()), call, error);
      AlwaysSolvent(env, genesis, history);
      OrderNeverOverfilled(env, genesis, history, baseOrderId);
      FillAcceptedIff(env, old(Storage()), call);
      if error == [] {
        FillEffect(env, old(Storage()), call);
      }
    }

    /** The checks and effects of one fill. */
    method FillOrRevert(caller: Address, value: nat, baseOrderId: Bytes, fillIndex: nat, amount: nat,
                        hashlock: Bytes, merkleProof: seq<Bytes>, allowed: bool, now: nat)
      returns (error: seq<Error>)
      modifies this`escrows, this`partialFillOrders, this`usedMerkleIndices, this`balances
      ensures Performs(old(Storage()), CreatePartialFillEscrow(env, old(Storage()), caller, value, baseOrderId, fillIndex,
                                                               amount, hashlock, merkleProof, allowed, now), error)
    {
      if baseOrderId !in partialFillOrders { return [OrderDoesNotExist]; }
      var order := partialFillOrders[baseOrderId];
      if fillIndex >= order.numFills { return [InvalidMerkleIndex]; }
      if (baseOrderId, fillIndex) in usedMerkleIndices { return [MerkleIndexAlreadyUsed]; }
      if order.filledAmount + amount > order.totalAmount { return [ExceedsTotalAmount]; }
      var proved := VerifyMerkleProof(PairHash(env.keccak), merkleProof, order.merkleRoot, hashlock, fillIndex);
      if !proved { return [InvalidMerkleProof]; }
      if value == 0 { return [SafetyDepositRequired]; }
      if caller == env.self || BalanceOf(balances, Ether, caller) < value { return [TransferFailed]; }
      var paid := Move(balances, Ether, caller, env.self, value);
      var escrowId := env.fillId(baseOrderId, fillIndex);
      if escrowId in escrows { return [EscrowAlreadyExists]; }
      if env.weth.Ether? || !allowed || BalanceOf(paid, env.weth, order.depositor) < amount { return [TransferFailed]; }
      usedMerkleIndices := usedMerkleIndices + {(baseOrderId, fillIndex)};
      partialFillOrders := partialFillOrders[baseOrderId := order.(filledAmount := order.filledAmount + amount)];
      balances := Move(paid, env.weth, order.depositor, env.self, amount);
      escrows := escrows[escrowId := FillEscrow(env, order, caller, value, amount, hashlock, now)];
      return [];
    }

    /**
     Succeeds exactly on an open escrow with the right secret, whatever happened before: there is always enough to
     pay. It is then paid in full, for the first and only time in the whole history.
     */
    method WithdrawEscrow(caller: Address, id: Bytes, secret: Bytes) returns (error: seq<Error>)
      requires Valid()
      modifies this`escrows, this`balances, this`history
      ensures Valid() && Records(old(history), old(Storage()), WithdrawCall(caller, id, secret), error)
      ensures error == Report(Demands(env, old(Storage()), history[|history| - 1]))
      ensures error == [] <==> OpenWith(env, old(Storage()), id, secret)
      ensures error == [] ==> PaidIn(env, old(Storage()), Storage(), id, true, caller)
      ensures error == [] ==> Payouts(env, Start(), history, id) == 1
    {
      ghost var call := WithdrawCall(caller, id, secret);
      error := WithdrawOrRevert(caller, id, secret);
      history := history + [call];
      Recorded(old(history), old(Storage()), call, error);
      PaidAtMostOnce(env, genesis, history, id);
      WithdrawnIff(env, genesis, old(history), caller, id, secret);
      hide *;
    }

    /** The checks and effects of a withdrawal. */
    method WithdrawOrRevert(caller: Address, id: Bytes, secret: Bytes) returns (error: seq<Error>)
      modifies this`escrows, this`balances
      ensures Performs(old(Storage()), Withdraw(env, old(Storage()), caller, id, secret), error)
    {
      if id !in escrows { return [EscrowDoesNotExist]; }
      var escrow := escrows[id];
      if escrow.withdrawn { return [AlreadyWithdrawn]; }
      if escrow.refunded { return [AlreadyRefunded]; }
      if env.keccak(secret) != escrow.hashlock { return [InvalidSecret]; }
      if BalanceOf(balances, escrow.token, env.self) < escrow.amount { return [TransferFailed]; }
      var b := Move(balances, escrow.token, env.self, escrow.beneficiary, escrow.amount);
      if BalanceOf(b, Ether, env.self) < escrow.safetyDeposit { return [TransferFailed]; }
      escrows := escrows[id := escrow.(withdrawn := true)];
      balances := Move(b, Ether, env.self, caller, escrow.safetyDeposit);
      return [];
    }

    /** Succeeds exactly on an open escrow from its timelock on, and pays its depositor in full, once. */
    method RefundEscrow(caller: Address, id: Bytes, now: nat) returns (error: seq<Error>)
      requires Valid()
      modifies this`escrows, this`balances, this`history
      ensures Valid() && Records(old(history), old(Storage()), RefundCall(caller, id, now), error)
      ensures error == Report(Demands(env, old(Storage()), history[|history| - 1]))
      ensures error == [] <==> OpenPast(old(Storage()), id, now)
      ensures error == [] ==> PaidIn(env, old(Storage()), Storage(), id, false, caller)
      ensures error == [] ==> Payouts(env, Start(), history, id) == 1
    {
      ghost var call := RefundCall(caller, id, now);
      error := RefundOrRevert(caller, id, now);
      history := history + [call];
      Recorded(old(history), old(Storage()), call, error);
      PaidAtMostOnce(env, genesis, history, id);
      RefundedIff(env, genesis, old(history), caller, id, now);
      hide *;
    }

    /** The checks and effects of a refund. */
    method RefundOrRevert(caller: Address, id: Bytes, now: nat) returns (error: seq<Error>)
      modifies this`escrows, this`balances
      ensures Performs(old(Storage()), Refund(env, old(Storage()), caller, id, now), error)
    {
      if id !in escrows { return [EscrowDoesNotExist]; }
      var escrow := escrows[id];
      if escrow.withdrawn { return [AlreadyWithdrawn]; }
      if escrow.refunded { return [AlreadyRefunded]; }
      if now < escrow.timelock { return [TimelockNotExpired]; }
      if BalanceOf(balances, escrow.token, env.self) < escrow.amount { return [TransferFailed]; }
      var b := Move(balances, escrow.token, env.self, escrow.depositor, escrow.amount);
      if BalanceOf(b, Ether, env.self) < escrow.safetyDeposit { return [TransferFailed]; }
      escrows := escrows[id := escrow.(refunded := true)];
      balances := Move(b, Ether, env.self, caller, escrow.safetyDeposit);
      return [];
    }

    /** A transfer between other holders, or to the contract, that the contract takes no part in. */
    method TransferOutside(asset: Asset, from: Address, to: Address, amount: nat) returns (error: seq<Error>)
      requires Valid()
      modifies this`balances, this`history
      ensures Valid() && Records(old(history), old(Storage()), OutsideTransfer(asset, from, to, amount), error)
      ensures error == Report(Demands(env, old(Storage()), history[|history| - 1]))
      ensures Solvent(env, Storage()) && Total(balances, asset) == Total(old(balances), asset)
    {
      ghost var call := OutsideTransfer(asset, from, to, amount);
      error := [TransferFailed];
      if from != env.self && BalanceOf(balances, asset, from) >= amount {
        balances := Move(balances, asset, from, to, amount);
        error := [];
      }
      history := history + [call];
      Recorded(old(history), old(Storage()), call, error);
      AlwaysSolvent(env, genesis, history);
      ApplyConserves(env, old(Storage()), call, asset);
    }
  }
}
