/**
 Read a nonce, sign, submit: when a signed message is accepted.

 The client reads its nonce from the contract, signs a message that carries it, and hands the message
 to a resolver, who submits it at some later time among other transactions.
 */
module NonceProtocol {
  import opened Ledger
  import opened MerkleVerifier
  import opened GaslessEscrow
  import opened GaslessEscrowRuns
  import opened CallOutcomes

  /** The calls that carry a signed message. */
  predicate IsSigned(call: Call) {
    call.CreateOrderCall? || call.CreateEscrowCall? || call.CreateGaslessFillCall?
  }

  function DepositorOf(call: Call): Address
    requires IsSigned(call)
  {
    if call.CreateOrderCall? then call.order.depositor else call.params.depositor
  }

  /** A message by `user` carrying `nonce` over exactly the parameters of the call. */
  predicate SignedWith(call: Call, user: Address, nonce: nat) {
    && IsSigned(call) && DepositorOf(call) == user && call.signature.signer == user
    && call.signature.message ==
         if call.CreateOrderCall? then CreateOrderMessage(call.order, nonce) else CreateEscrowMessage(call.params, nonce)
  }

  /** Everything but the nonce is in order. */
  predicate PassesOtherChecks(env: Env, st: State, call: Call)
    requires IsSigned(call)
  {
    && DepositorOf(call) != env.self && DepositorOf(call) != 0
    && if call.CreateOrderCall? then OrderInOrder(st, call.order, call.now)
       else CreationInOrder(env, st, call.caller, call.value, CreatedId(env, call), call.params, call.allowed, call.now)
  }

  /** The number of accepted calls signed by `user`. */
  function AcceptedBy(env: Env, st: State, calls: seq<Call>, user: Address): nat {
    if calls == [] then 0
    else
      var last, before := calls[|calls| - 1], Run(env, st, calls[..|calls| - 1]);
      AcceptedBy(env, st, calls[..|calls| - 1], user)
      + if IsSigned(last) && DepositorOf(last) == user && Accepted(env, before, last) then 1 else 0
  }

  /** An accepted signed call advances its depositor's nonce by one; nothing else touches any nonce. */
  lemma {:induction false} NonceStep(env: Env, st: State, call: Call, user: Address)
    ensures NonceOf(Apply(env, st, call).nonces, user) == NonceOf(st.nonces, user)
      + if IsSigned(call) && DepositorOf(call) == user && Accepted(env, st, call) then 1 else 0
  {
    hide Climb, Move, BalanceOf, PayOut;
  }

  /** A signed call is accepted, in every state, exactly when its nonce is the current one and the rest is in order. */
  lemma {:induction false} AcceptedIffNonce(env: Env, st: State, call: Call, user: Address, nonce: nat)
    requires SignedWith(call, user, nonce)
    ensures Accepted(env, st, call) <==> NonceOf(st.nonces, user) == nonce && PassesOtherChecks(env, st, call)
  {
    hide Accepted, NonceOf, CreationInOrder, OrderInOrder, CreatedId;
    if call.CreateOrderCall? {
      OrderAcceptedIff(env, st, call);
    } else {
      CreationAcceptedIff(env, st, call);
    }
  }

  /** A user's nonce counts that user's accepted messages. */
  lemma {:induction false} NonceCounts(env: Env, st: State, calls: seq<Call>, user: Address)
    ensures NonceOf(Run(env, st, calls).nonces, user) == NonceOf(st.nonces, user) + AcceptedBy(env, st, calls, user)
    decreases |calls|
  {
    hide Apply, Accepted;
    if calls != [] {
      NonceCounts(env, st, calls[..|calls| - 1], user);
      NonceStep(env, Run(env, st, calls[..|calls| - 1]), calls[|calls| - 1], user);
    }
  }

  /**
   The nonce is read in state `st`; `between` runs; then the message is submitted. If everything else is
   in order, it is accepted exactly when no message of that user was accepted in between.
   */
  lemma {:induction false} AcceptedIffNoneBetween(env: Env, st: State, between: seq<Call>, call: Call, user: Address)
    requires SignedWith(call, user, NonceOf(st.nonces, user))
    requires PassesOtherChecks(env, Run(env, st, between), call)
    ensures Accepted(env, Run(env, st, between), call) <==> AcceptedBy(env, st, between, user) == 0
  {
    hide *;
    AcceptedIffNonce(env, Run(env, st, between), call, user, NonceOf(st.nonces, user));
    NonceCounts(env, st, between, user);
  }

  /** Once a message with a nonce has been accepted, no message of that user with that nonce is ever accepted again. */
  lemma {:induction false} NonceSpentOnce(env: Env, st: State, call: Call, later: seq<Call>, again: Call,
                                          user: Address, nonce: nat)
    requires SignedWith(call, user, nonce) && Accepted(env, st, call)
    requires SignedWith(again, user, nonce)
    ensures !Accepted(env, Run(env, Apply(env, st, call), later), again)
  {
    AcceptedIffNonce(env, st, call, user, nonce);
    NonceStep(env, st, call, user);
    hide Accepted, Apply, Run, PassesOtherChecks;
    NonceCounts(env, Apply(env, st, call), later, user);
    AcceptedIffNonce(env, Run(env, Apply(env, st, call), later), again, user, nonce);
  }

  /**
   Of two messages signed on the same nonce reading, as happens when two partial fills are signed before
   either is submitted, at most the one submitted first is accepted.
   */
  lemma {:induction false} SameReadingOneAccepted(env: Env, st: State, before: seq<Call>, first: Call,
                                                  between: seq<Call>, second: Call, user: Address)
    requires SignedWith(first, user, NonceOf(st.nonces, user)) && SignedWith(second, user, NonceOf(st.nonces, user))
    ensures var at1 := Run(env, st, before);
      var at2 := Run(env, Apply(env, at1, first), between);
      !(Accepted(env, at1, first) && Accepted(env, at2, second))
  {
    hide *;
    var at1 := Run(env, st, before);
    if Accepted(env, at1, first) {
      NonceSpentOnce(env, at1, first, between, second, user, NonceOf(st.nonces, user));
    }
  }
}
