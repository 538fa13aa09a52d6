/** What every sequence of calls to the escrow contract keeps. */
module GaslessEscrowRuns {
  import opened Bytes
  import opened Ledger
  import opened Sums
  import opened MerkleVerifier
  import opened GaslessEscrow

  /** One transaction. Outside transfers move assets of anyone but the contract, in any direction. */
  datatype Call =
    | CreateOrderCall(order: PartialFillParams, signature: Signature, now: nat)
    | CreateFillCall(caller: Address, value: nat, baseOrderId: Bytes, fillIndex: nat, amount: nat,
                     hashlock: Bytes, merkleProof: seq<Bytes>, allowed: bool, now: nat)
    | CreateEscrowCall(caller: Address, value: nat, params: MetaTxParams, signature: Signature, allowed: bool, now: nat)
    | CreateGaslessFillCall(caller: Address, value: nat, params: MetaTxParams, baseOrderId: Bytes, fillIndex: nat,
                            signature: Signature, allowed: bool, now: nat)
    | WithdrawCall(caller: Address, id: Bytes, secret: Bytes)
    | RefundCall(caller: Address, id: Bytes, now: nat)
    | OutsideTransfer(asset: Asset, from: Address, to: Address, amount: nat)

  function OutcomeOf(env: Env, st: State, call: Call): Outcome {
    match call
    case CreateOrderCall(p, sig, now) => CreatePartialFillOrder(env, st, p, sig, now)
    case CreateFillCall(caller, value, order, index, amount, hashlock, proof, allowed, now) =>
      CreatePartialFillEscrow(env, st, caller, value, order, index, amount, hashlock, proof, allowed, now)
    case CreateEscrowCall(caller, value, p, sig, allowed, now) =>
      CreateEscrowWithMetaTx(env, st, caller, value, p, sig, allowed, now)
    case CreateGaslessFillCall(caller, value, p, order, index, sig, allowed, now) =>
      CreateGaslessPartialFillEscrow(env, st, caller, value, p, order, index, sig, allowed, now)
    case WithdrawCall(caller, id, secret) => Withdraw(env, st, caller, id, secret)
    case RefundCall(caller, id, now) => Refund(env, st, caller, id, now)
    case OutsideTransfer(asset, from, to, amount) =>
      if from == env.self || BalanceOf(st.balances, asset, from) < amount then Revert(TransferFailed)
      else Done(st.(balances := Move(st.balances, asset, from, to, amount)))
  }

  predicate Accepted(env: Env, st: State, call: Call) {
    OutcomeOf(env, st, call).Done?
  }

  function Apply(env: Env, st: State, call: Call): State {
    match OutcomeOf(env, st, call)
    case Done(st') => st'
    case Revert(_) => st
  }

  function Run(env: Env, st: State, calls: seq<Call>): State {
    if calls == [] then st else Apply(env, Run(env, st, calls[..|calls| - 1]), calls[|calls| - 1])
  }

  function Deployed(balances: Balances): State {
    State(map[], map[], map[], {}, balances)
  }

  // ---------- What an accepted call does ----------

  predicate IsCreate(call: Call) {
    call.CreateFillCall? || call.CreateEscrowCall? || call.CreateGaslessFillCall?
  }

  predicate IsClose(call: Call) {
    call.WithdrawCall? || call.RefundCall?
  }

  /** The id under which a creating call stores its escrow. */
  function CreatedId(env: Env, call: Call): Bytes
    requires IsCreate(call)
  {
    if call.CreateEscrowCall? then call.params.escrowId else env.fillId(call.baseOrderId, call.fillIndex)
  }

  /** The escrow that an accepted creating call stores. */
  function CreatedEscrow(env: Env, st: State, call: Call): Escrow
    requires IsCreate(call) && (call.CreateFillCall? ==> call.baseOrderId in st.partialFillOrders)
  {
    if call.CreateFillCall?
    then FillEscrow(env, st.partialFillOrders[call.baseOrderId], call.caller, call.value, call.amount, call.hashlock, call.now)
    else EscrowFromParams(call.params, call.value)
  }

  /** `after` differs from `st` by one new escrow `e`, paid for by its depositor and, for the safety deposit, the caller. */
  ghost predicate Creates(env: Env, st: State, after: State, id: Bytes, e: Escrow, caller: Address) {
    && id !in st.escrows && after.escrows == st.escrows[id := e]
    && e.Open() && !e.token.Ether? && caller != env.self
    && BalanceOf(st.balances, Ether, caller) >= e.safetyDeposit
    && var b := Move(st.balances, Ether, caller, env.self, e.safetyDeposit);
       BalanceOf(b, e.token, e.depositor) >= e.amount
       && after.balances == Move(b, e.token, e.depositor, env.self, e.amount)
  }

  lemma {:induction false} CreateEffect(env: Env, st: State, call: Call)
    requires IsCreate(call) && Accepted(env, st, call)
    ensures call.CreateFillCall? ==> call.baseOrderId in st.partialFillOrders
    ensures Creates(env, st, Apply(env, st, call), CreatedId(env, call), CreatedEscrow(env, st, call), call.caller)
    ensures !call.CreateFillCall? ==> CanSign(env, CreatedEscrow(env, st, call).depositor)
  {
    hide Climb, Move, BalanceOf;
  }

  function ClosedEscrow(call: Call, e: Escrow): Escrow
    requires IsClose(call)
  {
    if call.WithdrawCall? then e.(withdrawn := true) else e.(refunded := true)
  }

  function Receiver(call: Call, e: Escrow): Address {
    if call.WithdrawCall? then e.beneficiary else e.depositor
  }

  /** `after` differs from `st` by escrow `id` being closed and paid to its receiver. */
  ghost predicate Closes(env: Env, st: State, after: State, call: Call)
    requires IsClose(call)
  {
    && call.id in st.escrows && st.escrows[call.id].Open()
    && var e := st.escrows[call.id];
       && PayOut(env, st.balances, e, Receiver(call, e), call.caller) == Paid(after.balances)
       && after == st.(escrows := st.escrows[call.id := ClosedEscrow(call, e)], balances := after.balances)
  }

  lemma {:induction false} CloseEffect(env: Env, st: State, call: Call)
    requires IsClose(call) && Accepted(env, st, call)
    ensures Closes(env, st, Apply(env, st, call), call)
  {
    hide PayOut;
  }

  lemma {:induction false} OtherEffect(env: Env, st: State, call: Call)
    requires !IsCreate(call) && !IsClose(call)
    ensures Apply(env, st, call).escrows == st.escrows
    ensures !call.OutsideTransfer? ==> Apply(env, st, call).balances == st.balances
    ensures call.OutsideTransfer? && Accepted(env, st, call) ==>
      && call.from != env.self && BalanceOf(st.balances, call.asset, call.from) >= call.amount
      && Apply(env, st, call).balances == Move(st.balances, call.asset, call.from, call.to, call.amount)
  {
    hide Move, BalanceOf;
  }

  // ---------- Solvency ----------

  /** What the contract owes in one asset for one escrow. */
  function Share(e: Escrow, asset: Asset): nat {
    if !e.Open() then 0
    else (if e.token == asset then e.amount else 0) + (if asset.Ether? then e.safetyDeposit else 0)
  }

  function ShareOf(escrows: map<Bytes, Escrow>, asset: Asset, id: Bytes): nat {
    if id in escrows then Share(escrows[id], asset) else 0
  }

  /** The sum of what all open escrows hold in one asset. */
  ghost function Locked(escrows: map<Bytes, Escrow>, asset: Asset): nat {
    SumOver(escrows.Keys, id => ShareOf(escrows, asset, id))
  }

  lemma {:induction false} LockedUpdate(escrows: map<Bytes, Escrow>, id: Bytes, e: Escrow, asset: Asset)
    ensures Locked(escrows[id := e], asset) + ShareOf(escrows, asset, id) == Locked(escrows, asset) + Share(e, asset)
  {
    var after := escrows[id := e];
    var f, g := (k: Bytes) => ShareOf(escrows, asset, k), (k: Bytes) => ShareOf(after, asset, k);
    assert after.Keys == escrows.Keys + {id};
    SumRemove(after.Keys, g, id);
    var others := after.Keys - {id};
    SumSame(others, f, g);
    if id in escrows {
      SumRemove(escrows.Keys, f, id);
      assert escrows.Keys - {id} == others;
    } else {
      assert others == escrows.Keys;
    }
  }

  lemma {:induction false} LockedAtLeast(escrows: map<Bytes, Escrow>, id: Bytes, asset: Asset)
    requires id in escrows
    ensures Share(escrows[id], asset) <= Locked(escrows, asset)
  {
    SumAtLeast(escrows.Keys, k => ShareOf(escrows, asset, k), id);
  }

  /** The contract can pay every open escrow and its safety deposit. */
  ghost predicate Solvent(env: Env, st: State) {
    forall asset :: BalanceOf(st.balances, asset, env.self) >= Locked(st.escrows, asset)
  }

  /** Every order and escrow is in the name of somebody who can sign, escrows hold tokens, and none is closed twice. */
  ghost predicate WellFormed(env: Env, st: State) {
    && (forall o :: o in st.partialFillOrders ==> CanSign(env, st.partialFillOrders[o].depositor))
    && (forall id :: id in st.escrows ==>
          var e := st.escrows[id];
          CanSign(env, e.depositor) && !e.token.Ether? && !(e.withdrawn && e.refunded))
  }

  lemma {:induction false} CreateKeepsSolvent(env: Env, st: State, after: State, id: Bytes, e: Escrow, caller: Address)
    requires Solvent(env, st) && Creates(env, st, after, id, e, caller) && e.depositor != env.self
    ensures Solvent(env, after)
  {
    forall asset
      ensures BalanceOf(after.balances, asset, env.self) >= Locked(after.escrows, asset)
    {
      hide Locked, Move, BalanceOf;
      LockedUpdate(st.escrows, id, e, asset);
      assert BalanceOf(st.balances, asset, env.self) >= Locked(st.escrows, asset);
    }
  }

  lemma {:induction false} CloseKeepsSolvent(env: Env, st: State, after: State, call: Call)
    requires Solvent(env, st) && IsClose(call) && Closes(env, st, after, call)
    ensures Solvent(env, after)
  {
    forall asset
      ensures BalanceOf(after.balances, asset, env.self) >= Locked(after.escrows, asset)
    {
      hide Locked, Move, BalanceOf;
      LockedUpdate(st.escrows, call.id, ClosedEscrow(call, st.escrows[call.id]), asset);
      assert BalanceOf(st.balances, asset, env.self) >= Locked(st.escrows, asset);
    }
  }

  lemma {:induction false} ApplyKeepsWellFormed(env: Env, st: State, call: Call)
    requires WellFormed(env, st)
    ensures WellFormed(env, Apply(env, st, call))
  {
    OrdersAfter(env, st, call);
    hide Apply, Accepted;
    if !Accepted(env, st, call) {
      RevertChangesNothing(env, st, call);
    } else if IsCreate(call) {
      CreateEffect(env, st, call);
    } else if IsClose(call) {
      CloseEffect(env, st, call);
    } else {
      OtherEffect(env, st, call);
    }
  }

  /** Orders are added once, under their signer's name, and afterwards only their filled amount grows. */
  lemma {:induction false} OrdersAfter(env: Env, st: State, call: Call)
    ensures var after := Apply(env, st, call);
      forall o :: o in after.partialFillOrders ==>
        if o in st.partialFillOrders
        then after.partialFillOrders[o] == st.partialFillOrders[o].(filledAmount := after.partialFillOrders[o].filledAmount)
        else CanSign(env, after.partialFillOrders[o].depositor)
  {
    hide Climb, Move, BalanceOf, PayOut;
  }

  lemma {:induction false} RevertChangesNothing(env: Env, st: State, call: Call)
    requires !Accepted(env, st, call)
    ensures Apply(env, st, call) == st
  {
    hide OutcomeOf;
  }

  lemma {:induction false} ApplyKeepsSolvent(env: Env, st: State, call: Call)
    requires Solvent(env, st) && WellFormed(env, st)
    ensures Solvent(env, Apply(env, st, call))
  {
    hide Apply, Accepted, Solvent;
    var after := Apply(env, st, call);
    if !Accepted(env, st, call) {
      RevertChangesNothing(env, st, call);
    } else if IsCreate(call) {
      CreateEffect(env, st, call);
      CreateKeepsSolvent(env, st, after, CreatedId(env, call), CreatedEscrow(env, st, call), call.caller);
    } else if IsClose(call) {
      CloseEffect(env, st, call);
      CloseKeepsSolvent(env, st, after, call);
    } else {
      OtherEffect(env, st, call);
      if call.OutsideTransfer? {
        TransferKeepsSolvent(env, st, call.asset, call.from, call.to, call.amount);
        SolventFromParts(env, st.(balances := after.balances), after);
      } else {
        SolventFromParts(env, st, after);
      }
    }
  }

  lemma {:induction false} SolventFromParts(env: Env, st: State, after: State)
    requires Solvent(env, st) && after.escrows == st.escrows && after.balances == st.balances
    ensures Solvent(env, after)
  {
  }

  lemma {:induction false} TransferKeepsSolvent(env: Env, st: State, asset: Asset, from: Address, to: Address, amount: nat)
    requires Solvent(env, st) && from != env.self && BalanceOf(st.balances, asset, from) >= amount
    ensures Solvent(env, st.(balances := Move(st.balances, asset, from, to, amount)))
  {
    hide Locked;
  }

  /** In every run the contract holds at least the sum of all open escrows, asset by asset. */
  lemma {:induction false} AlwaysSolvent(env: Env, balances: Balances, calls: seq<Call>)
    ensures Solvent(env, Run(env, Deployed(balances), calls)) && WellFormed(env, Run(env, Deployed(balances), calls))
    decreases |calls|
  {
    if calls != [] {
      AlwaysSolvent(env, balances, calls[..|calls| - 1]);
      hide Solvent, WellFormed, Apply;
      ApplyKeepsSolvent(env, Run(env, Deployed(balances), calls[..|calls| - 1]), calls[|calls| - 1]);
      ApplyKeepsWellFormed(env, Run(env, Deployed(balances), calls[..|calls| - 1]), calls[|calls| - 1]);
    }
  }

  /** After any run, the right secret pays an open escrow to its beneficiary, and the safety deposit to the caller. */
  lemma {:induction false} OpenEscrowAlwaysPayable(env: Env, balances: Balances, calls: seq<Call>,
                                                   caller: Address, id: Bytes, secret: Bytes)
    requires var st := Run(env, Deployed(balances), calls);
      id in st.escrows && st.escrows[id].Open() && env.keccak(secret) == st.escrows[id].hashlock
    ensures var st := Run(env, Deployed(balances), calls);
      var e := st.escrows[id];
      PaysOut(env, st, Withdraw(env, st, caller, id, secret), id, e.(withdrawn := true), e.beneficiary, caller)
  {
    var st := Run(env, Deployed(balances), calls);
    AlwaysSolvent(env, balances, calls);
    hide Run;
    PayOutSucceeds(env, st, id, st.escrows[id].beneficiary, caller);
  }

  /** After any run, once the timelock has passed an open escrow can be returned to its depositor. */
  lemma {:induction false} OpenEscrowAlwaysRefundable(env: Env, balances: Balances, calls: seq<Call>,
                                                      caller: Address, id: Bytes, now: nat)
    requires var st := Run(env, Deployed(balances), calls);
      id in st.escrows && st.escrows[id].Open() && now >= st.escrows[id].timelock
    ensures var st := Run(env, Deployed(balances), calls);
      var e := st.escrows[id];
      PaysOut(env, st, Refund(env, st, caller, id, now), id, e.(refunded := true), e.depositor, caller)
  {
    var st := Run(env, Deployed(balances), calls);
    AlwaysSolvent(env, balances, calls);
    hide Run;
    PayOutSucceeds(env, st, id, st.escrows[id].depositor, caller);
  }

  /** The call succeeded, closed exactly this escrow, and moved exactly its amount and its safety deposit. */
  ghost predicate PaysOut(env: Env, st: State, outcome: Outcome, id: Bytes, closed: Escrow, receiver: Address,
                          caller: Address)
  {
    && outcome.Done? && outcome.state == st.(escrows := st.escrows[id := closed], balances := outcome.state.balances)
    && (receiver != env.self ==> BalanceOf(outcome.state.balances, closed.token, receiver)
                                 == BalanceOf(st.balances, closed.token, receiver) + closed.amount)
    && (caller != env.self ==> BalanceOf(outcome.state.balances, Ether, caller)
                               == BalanceOf(st.balances, Ether, caller) + closed.safetyDeposit)
    && forall a, h :: a != closed.token && a != Ether ==>
         BalanceOf(outcome.state.balances, a, h) == BalanceOf(st.balances, a, h)
  }

  lemma {:induction false} PayOutSucceeds(env: Env, st: State, id: Bytes, receiver: Address, caller: Address)
    requires Solvent(env, st) && WellFormed(env, st) && id in st.escrows && st.escrows[id].Open()
    ensures var e := st.escrows[id];
      var payment := PayOut(env, st.balances, e, receiver, caller);
      && payment.Paid?
      && (receiver != env.self ==> BalanceOf(payment.balances, e.token, receiver)
                                   == BalanceOf(st.balances, e.token, receiver) + e.amount)
      && (caller != env.self ==> BalanceOf(payment.balances, Ether, caller)
                                 == BalanceOf(st.balances, Ether, caller) + e.safetyDeposit)
      && forall a, h :: a != e.token && a != Ether ==> BalanceOf(payment.balances, a, h) == BalanceOf(st.balances, a, h)
  {
    hide Locked;
    var e := st.escrows[id];
    LockedAtLeast(st.escrows, id, e.token);
    LockedAtLeast(st.escrows, id, Ether);
    assert BalanceOf(st.balances, e.token, env.self) >= Locked(st.escrows, e.token);
    assert BalanceOf(st.balances, Ether, env.self) >= Locked(st.escrows, Ether);
  }

  // ---------- Conservation ----------

  function Holding(b: Balances, asset: Asset, key: (Asset, Address)): nat {
    if key in b && key.0 == asset then b[key] else 0
  }

  /** All of one asset, over every holder, the contract included. */
  ghost function Total(b: Balances, asset: Asset): nat {
    SumOver(b.Keys, key => Holding(b, asset, key))
  }

  lemma {:induction false} TotalUpdate(b: Balances, asset: Asset, key: (Asset, Address), amount: nat)
    ensures Total(b[key := amount], asset) + Holding(b, asset, key)
         == Total(b, asset) + (if key.0 == asset then amount else 0)
  {
    var after := b[key := amount];
    var f, g := (k: (Asset, Address)) => Holding(b, asset, k), (k: (Asset, Address)) => Holding(after, asset, k);
    assert after.Keys == b.Keys + {key};
    SumRemove(after.Keys, g, key);
    var others := after.Keys - {key};
    SumSame(others, f, g);
    if key in b {
      SumRemove(b.Keys, f, key);
      assert b.Keys - {key} == others;
    } else {
      assert others == b.Keys;
    }
  }

  lemma {:induction false} MoveConserves(b: Balances, moved: Asset, from: Address, to: Address, amount: nat, asset: Asset)
    requires BalanceOf(b, moved, from) >= amount
    ensures Total(Move(b, moved, from, to, amount), asset) == Total(b, asset)
  {
    hide Total;
    var b1 := b[(moved, from) := BalanceOf(b, moved, from) - amount];
    TotalUpdate(b, asset, (moved, from), BalanceOf(b, moved, from) - amount);
    TotalUpdate(b1, asset, (moved, to), BalanceOf(b1, moved, to) + amount);
  }

  lemma {:induction false} ApplyConserves(env: Env, st: State, call: Call, asset: Asset)
    ensures Total(Apply(env, st, call).balances, asset) == Total(st.balances, asset)
  {
    hide Total, Move, BalanceOf, Apply, Accepted;
    if !Accepted(env, st, call) {
      RevertChangesNothing(env, st, call);
    } else if IsCreate(call) {
      CreateEffect(env, st, call);
      var e := CreatedEscrow(env, st, call);
      var b := Move(st.balances, Ether, call.caller, env.self, e.safetyDeposit);
      MoveConserves(st.balances, Ether, call.caller, env.self, e.safetyDeposit, asset);
      MoveConserves(b, e.token, e.depositor, env.self, e.amount, asset);
    } else if IsClose(call) {
      CloseEffect(env, st, call);
      var e := st.escrows[call.id];
      var b := Move(st.balances, e.token, env.self, Receiver(call, e), e.amount);
      MoveConserves(st.balances, e.token, env.self, Receiver(call, e), e.amount, asset);
      MoveConserves(b, Ether, env.self, call.caller, e.safetyDeposit, asset);
    } else {
      OtherEffect(env, st, call);
      if call.OutsideTransfer? {
        MoveConserves(st.balances, call.asset, call.from, call.to, call.amount, asset);
      }
    }
  }

  /** No run creates or destroys any asset. */
  lemma {:induction false} AssetsConserved(env: Env, st: State, calls: seq<Call>, asset: Asset)
    ensures Total(Run(env, st, calls).balances, asset) == Total(st.balances, asset)
    decreases |calls|
  {
    hide Total, Apply;
    if calls != [] {
      AssetsConserved(env, st, calls[..|calls| - 1], asset);
      ApplyConserves(env, Run(env, st, calls[..|calls| - 1]), calls[|calls| - 1], asset);
    }
  }

  // ---------- One payout per escrow ----------

  /** The call pays escrow `id` out. */
  predicate PaysEscrow(env: Env, st: State, call: Call, id: Bytes) {
    IsClose(call) && call.id == id && Accepted(env, st, call)
  }

  function Payouts(env: Env, st: State, calls: seq<Call>, id: Bytes): nat {
    if calls == [] then 0
    else
      var before := Run(env, st, calls[..|calls| - 1]);
      Payouts(env, st, calls[..|calls| - 1], id) + if PaysEscrow(env, before, calls[|calls| - 1], id) then 1 else 0
  }

  lemma {:induction false} ApplyOnEscrow(env: Env, st: State, call: Call, id: Bytes)
    ensures var after := Apply(env, st, call);
      && (id in st.escrows ==> id in after.escrows && after.escrows[id].Terms() == st.escrows[id].Terms())
      && (PaysEscrow(env, st, call, id) ==> id in st.escrows && st.escrows[id].Open() && !after.escrows[id].Open())
      && (id in st.escrows && !PaysEscrow(env, st, call, id) ==> after.escrows[id] == st.escrows[id])
      && (id !in st.escrows && id in after.escrows ==> after.escrows[id].Open())
  {
    hide Apply, Accepted, Move, BalanceOf, PayOut;
    if !Accepted(env, st, call) {
      RevertChangesNothing(env, st, call);
    } else if IsCreate(call) {
      CreateEffect(env, st, call);
    } else if IsClose(call) {
      CloseEffect(env, st, call);
    } else {
      OtherEffect(env, st, call);
    }
  }

  /** In every run an escrow is paid out at most once, and it is closed exactly when it has been paid. */
  lemma {:induction false} PaidAtMostOnce(env: Env, balances: Balances, calls: seq<Call>, id: Bytes)
    ensures var st := Run(env, Deployed(balances), calls);
      && Payouts(env, Deployed(balances), calls, id) <= 1
      && (Payouts(env, Deployed(balances), calls, id) == 1 <==> id in st.escrows && !st.escrows[id].Open())
    decreases |calls|
  {
    hide Apply, PaysEscrow;
    if calls != [] {
      PaidAtMostOnce(env, balances, calls[..|calls| - 1], id);
      ApplyOnEscrow(env, Run(env, Deployed(balances), calls[..|calls| - 1]), calls[|calls| - 1], id);
    }
  }

  /** Parties, asset, amount, hashlock, timelock and safety deposit never change after creation. */
  lemma {:induction false} TermsNeverChange(env: Env, st: State, calls: seq<Call>, id: Bytes)
    requires id in st.escrows
    ensures id in Run(env, st, calls).escrows && Run(env, st, calls).escrows[id].Terms() == st.escrows[id].Terms()
    decreases |calls|
  {
    hide Apply, PaysEscrow;
    if calls != [] {
      TermsNeverChange(env, st, calls[..|calls| - 1], id);
      ApplyOnEscrow(env, Run(env, st, calls[..|calls| - 1]), calls[|calls| - 1], id);
    }
  }
}
