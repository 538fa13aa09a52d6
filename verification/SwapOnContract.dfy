/** The escrow contract plays by the two rules that the swap model gives its escrows. */
module SwapOnContract {
  import opened Bytes
  import opened Ledger
  import opened GaslessEscrow
  import opened GaslessEscrowRuns
  import AtomicSwap

  /** The swap's view of one stored escrow. */
  ghost predicate Represents(sw: AtomicSwap.Swap, w: AtomicSwap.World, side: AtomicSwap.Side, e: Escrow) {
    && (w.Get(side).Open? <==> e.Open())
    && (w.Get(side).Withdrawn? <==> e.withdrawn)
    && (w.Get(side).Refunded? <==> e.refunded)
    && e.hashlock == sw.hashlock && e.timelock == sw.Timelock(side)
    && (if side == AtomicSwap.Source then sw.sourceRule else sw.destinationRule) == AtomicSwap.HashChecked
  }

  /**
   After any run of the contract, a withdrawal is accepted exactly when the swap model enables it, a refund
   likewise, and what is stored afterwards represents the model's next world.
   */
  lemma {:induction false} ContractFollowsSwapRules(env: Env, balances: Balances, calls: seq<Call>, id: Bytes,
                                                    sw: AtomicSwap.Swap, w: AtomicSwap.World, side: AtomicSwap.Side,
                                                    caller: Address, presented: Bytes, byUser: bool)
    requires id in Run(env, Deployed(balances), calls).escrows
    requires Represents(sw, w, side, Run(env, Deployed(balances), calls).escrows[id]) && sw.keccak == env.keccak
    requires AtomicSwap.CanPresent(sw, w, byUser, presented)
    ensures var st := Run(env, Deployed(balances), calls);
      var withdraw, refund := WithdrawCall(caller, id, presented), RefundCall(caller, id, w.clock);
      var modelWithdraw, modelRefund := AtomicSwap.Withdraw(side, byUser, presented), AtomicSwap.Refund(side);
      && (Accepted(env, st, withdraw) <==> AtomicSwap.Enabled(sw, w, modelWithdraw))
      && (Accepted(env, st, refund) <==> AtomicSwap.Enabled(sw, w, modelRefund))
      && Represents(sw, AtomicSwap.Step(sw, w, modelWithdraw), side, Apply(env, st, withdraw).escrows[id])
      && Represents(sw, AtomicSwap.Step(sw, w, modelRefund), side, Apply(env, st, refund).escrows[id])
  {
    var st := Run(env, Deployed(balances), calls);
    AlwaysSolvent(env, balances, calls);
    hide Run, PayOut, Solvent;
    if st.escrows[id].Open() {
      PayOutSucceeds(env, st, id, st.escrows[id].beneficiary, caller);
      PayOutSucceeds(env, st, id, st.escrows[id].depositor, caller);
    }
  }

  /** The page's test whether a user may withdraw. Addresses are compared as numbers. */
  predicate CanWithdraw(st: State, id: Bytes, user: Address) {
    id in st.escrows && st.escrows[id].beneficiary == user && st.escrows[id].Open() && st.escrows[id].amount > 0
  }

  /** In every run the test says yes exactly when the right secret would pay this user a positive amount, at any time. */
  lemma {:induction false} CanWithdrawIff(env: Env, balances: Balances, calls: seq<Call>, id: Bytes, user: Address,
                                          caller: Address, secret: Bytes)
    requires var st := Run(env, Deployed(balances), calls);
      (id in st.escrows ==> env.keccak(secret) == st.escrows[id].hashlock) && user != env.self
    ensures var st := Run(env, Deployed(balances), calls);
      var after := Apply(env, st, WithdrawCall(caller, id, secret));
      CanWithdraw(st, id, user)
      <==> && id in st.escrows && st.escrows[id].beneficiary == user
           && var token := st.escrows[id].token;
              BalanceOf(after.balances, token, user) > BalanceOf(st.balances, token, user)
  {
    var st := Run(env, Deployed(balances), calls);
    AlwaysSolvent(env, balances, calls);
    hide Run, Solvent;
    if id in st.escrows && st.escrows[id].Open() {
      PayOutSucceeds(env, st, id, st.escrows[id].beneficiary, caller);
    }
  }
}
