/** Whose signature stands behind every escrow, every order and every debit, after any sequence of calls. */
module Authorisation {
  import opened Bytes
  import opened Ledger
  import opened MerkleVerifier
  import opened PartialFillSecrets
  import opened GaslessEscrow
  import opened GaslessEscrowRuns
  import opened PartialFillOrders

  // ---------- Orders ----------

  /** The call carries the depositor's signature, with the nonce current in `st`, over the terms of this order. */
  ghost predicate SignsOrder(st: State, call: Call, o: Bytes, order: PartialFillOrder) {
    && call.CreateOrderCall? && call.order.baseOrderId == o
    && call.signature == Signature(order.depositor, CreateOrderMessage(call.order, NonceOf(st.nonces, order.depositor)))
    && call.order.depositor == order.depositor && call.order.beneficiary == order.beneficiary
    && call.order.totalAmount == order.totalAmount && call.order.totalAmount > 0
    && call.order.merkleRoot == order.merkleRoot && call.order.numFills == order.numFills
    && call.now < call.order.timelock && call.now <= call.order.deadline
  }

  ghost predicate OrderSignedAt(env: Env, start: State, calls: seq<Call>, j: int, o: Bytes, order: PartialFillOrder) {
    && 0 <= j < |calls| && Accepted(env, Run(env, start, calls[..j]), calls[j])
    && SignsOrder(Run(env, start, calls[..j]), calls[j], o, order)
  }

  lemma {:induction false} NewOrderSigned(env: Env, st: State, call: Call, o: Bytes)
    requires o !in st.partialFillOrders && o in Apply(env, st, call).partialFillOrders
    ensures Accepted(env, st, call) && SignsOrder(st, call, o, Apply(env, st, call).partialFillOrders[o])
  {
    hide Climb, Move, BalanceOf, PayOut;
  }

  lemma {:induction false} StillOrderSigned(env: Env, start: State, calls: seq<Call>, j: int, o: Bytes,
                                            order: PartialFillOrder, later: PartialFillOrder)
    requires calls != [] && OrderSignedAt(env, start, calls[..|calls| - 1], j, o, order)
    requires later == order.(filledAmount := later.filledAmount)
    ensures OrderSignedAt(env, start, calls, j, o, later)
  {
    hide Run, Accepted;
    assert calls[..|calls| - 1][..j] == calls[..j];
  }

  /** In every run each order is exactly what its depositor signed. */
  lemma {:induction false} OrdersAuthorised(env: Env, balances: Balances, calls: seq<Call>, o: Bytes)
    requires o in Run(env, Deployed(balances), calls).partialFillOrders
    ensures exists j ::
      OrderSignedAt(env, Deployed(balances), calls, j, o, Run(env, Deployed(balances), calls).partialFillOrders[o])
    decreases |calls|
  {
    hide Accepted, Apply, SignsOrder;
    var front, last := calls[..|calls| - 1], calls[|calls| - 1];
    var before, after := Run(env, Deployed(balances), front), Run(env, Deployed(balances), calls);
    if o in before.partialFillOrders {
      OrdersAuthorised(env, balances, front, o);
      var j :| OrderSignedAt(env, Deployed(balances), front, j, o, before.partialFillOrders[o]);
      OrderKept(env, before, last, o);
      StillOrderSigned(env, Deployed(balances), calls, j, o, before.partialFillOrders[o], after.partialFillOrders[o]);
    } else {
      NewOrderSigned(env, before, last, o);
      assert OrderSignedAt(env, Deployed(balances), calls, |calls| - 1, o, after.partialFillOrders[o]);
    }
  }

  // ---------- Escrows ----------

  /** The call carries the depositor's signature over all terms of this escrow but the safety deposit, which the caller pays. */
  ghost predicate SignsEscrow(env: Env, st: State, call: Call, id: Bytes, e: Escrow) {
    && (call.CreateEscrowCall? || call.CreateGaslessFillCall?)
    && id == (if call.CreateEscrowCall? then call.params.escrowId else env.fillId(call.baseOrderId, call.fillIndex))
    && call.signature == Signature(e.depositor, CreateEscrowMessage(call.params, NonceOf(st.nonces, e.depositor)))
    && call.params.depositor == e.depositor && call.params.beneficiary == e.beneficiary
    && call.params.token == e.token && call.params.amount == e.amount > 0
    && call.params.hashlock == e.hashlock && call.params.timelock == e.timelock
    && call.value == e.safetyDeposit && call.now < e.timelock && call.now <= call.params.deadline
  }

  /** The call fills a stored order within its amount and number of fills, for the caller, under a proved hashlock, for one hour. */
  ghost predicate FillsOrder(env: Env, st: State, call: Call, id: Bytes, e: Escrow) {
    && call.CreateFillCall? && call.baseOrderId in st.partialFillOrders
    && var order := st.partialFillOrders[call.baseOrderId];
       && id == env.fillId(call.baseOrderId, call.fillIndex) && call.fillIndex < order.numFills
       && e.depositor == order.depositor && e.beneficiary == call.caller && e.token == env.weth
       && e.amount == call.amount <= order.totalAmount && e.timelock == call.now + 3600
       && e.safetyDeposit == call.value > 0 && e.hashlock == call.hashlock
       && Climb(PairHash(env.keccak), e.hashlock, call.fillIndex, call.merkleProof) == order.merkleRoot
  }

  /** The escrow was created at call k, by its depositor's signature on it or on the order it fills. */
  ghost predicate AuthorisedAt(env: Env, start: State, calls: seq<Call>, k: int, id: Bytes, e: Escrow) {
    && 0 <= k < |calls| && Accepted(env, Run(env, start, calls[..k]), calls[k])
    && var st := Run(env, start, calls[..k]);
       || SignsEscrow(env, st, calls[k], id, e)
       || (FillsOrder(env, st, calls[k], id, e)
           && exists j ::
                OrderSignedAt(env, start, calls[..k], j, calls[k].baseOrderId, st.partialFillOrders[calls[k].baseOrderId]))
  }

  lemma {:induction false} NewEscrowAuthorised(env: Env, st: State, call: Call, id: Bytes)
    requires id !in st.escrows && id in Apply(env, st, call).escrows
    ensures Accepted(env, st, call)
    ensures var e := Apply(env, st, call).escrows[id];
      SignsEscrow(env, st, call, id, e) || FillsOrder(env, st, call, id, e)
  {
    if Accepted(env, st, call) && IsCreate(call) {
      CreateEffect(env, st, call);
      CreateChecks(env, st, call);
    } else if !Accepted(env, st, call) {
      RevertChangesNothing(env, st, call);
    } else if IsClose(call) {
      CloseEffect(env, st, call);
    } else {
      OtherEffect(env, st, call);
    }
    hide Apply, Accepted, Climb, Move, BalanceOf, PayOut;
  }

  /** What an accepted creating call has been checked for. */
  lemma {:induction false} CreateChecks(env: Env, st: State, call: Call)
    requires IsCreate(call) && Accepted(env, st, call)
    ensures call.CreateFillCall? ==> call.baseOrderId in st.partialFillOrders
    ensures var id, e := CreatedId(env, call), CreatedEscrow(env, st, call);
      SignsEscrow(env, st, call, id, e) || FillsOrder(env, st, call, id, e)
  {
    hide Climb, Move, BalanceOf;
  }

  lemma {:induction false} StillAuthorised(env: Env, start: State, calls: seq<Call>, k: int, id: Bytes, e: Escrow,
                                           later: Escrow)
    requires calls != [] && AuthorisedAt(env, start, calls[..|calls| - 1], k, id, e) && later.Terms() == e.Terms()
    ensures AuthorisedAt(env, start, calls, k, id, later)
  {
    hide Run, Accepted, OrderSignedAt, Climb;
    assert calls[..|calls| - 1][..k] == calls[..k];
  }

  /**
   In every run each escrow, open or closed, carries exactly the terms its depositor signed, or takes part of an
   order the depositor signed before, within that order's amount and number of fills.
   */
  lemma {:induction false} EscrowsAuthorised(env: Env, balances: Balances, calls: seq<Call>, id: Bytes)
    requires id in Run(env, Deployed(balances), calls).escrows
    ensures exists k :: AuthorisedAt(env, Deployed(balances), calls, k, id, Run(env, Deployed(balances), calls).escrows[id])
    decreases |calls|
  {
    hide Accepted, Apply, SignsEscrow, PaysEscrow, OrderSignedAt, Climb;
    var front, last := calls[..|calls| - 1], calls[|calls| - 1];
    var before, after := Run(env, Deployed(balances), front), Run(env, Deployed(balances), calls);
    if id in before.escrows {
      EscrowsAuthorised(env, balances, front, id);
      var k :| AuthorisedAt(env, Deployed(balances), front, k, id, before.escrows[id]);
      ApplyOnEscrow(env, before, last, id);
      StillAuthorised(env, Deployed(balances), calls, k, id, before.escrows[id], after.escrows[id]);
    } else {
      NewEscrowAuthorised(env, before, last, id);
      if FillsOrder(env, before, last, id, after.escrows[id]) {
        OrdersAuthorised(env, balances, front, last.baseOrderId);
      }
      assert AuthorisedAt(env, Deployed(balances), calls, |calls| - 1, id, after.escrows[id]);
    }
  }

  // ---------- Which signed terms a fill keeps ----------

  /** Call j stored the signed order `p`, and call k took a fill from it. */
  ghost predicate FilledFrom(env: Env, balances: Balances, calls: seq<Call>, j: int, k: int, p: PartialFillParams) {
    && 0 <= j < k < |calls|
    && calls[j].CreateOrderCall? && calls[j].order == p && Accepted(env, Run(env, Deployed(balances), calls[..j]), calls[j])
    && calls[k].CreateFillCall? && calls[k].baseOrderId == p.baseOrderId
    && Accepted(env, Run(env, Deployed(balances), calls[..k]), calls[k])
  }

  /** The escrow that call k created. */
  ghost function FillAt(env: Env, balances: Balances, calls: seq<Call>, k: int): Escrow
    requires 0 <= k < |calls| && calls[k].CreateFillCall?
    requires Accepted(env, Run(env, Deployed(balances), calls[..k]), calls[k])
  {
    CreateEffect(env, Run(env, Deployed(balances), calls[..k]), calls[k]);
    CreatedEscrow(env, Run(env, Deployed(balances), calls[..k]), calls[k])
  }

  predicate Matches(order: PartialFillOrder, p: PartialFillParams) {
    order == PartialFillOrder(p.depositor, p.beneficiary, p.totalAmount, order.filledAmount, p.merkleRoot, p.numFills)
  }

  /** A stored order keeps the terms that were signed. */
  lemma {:induction false} OrderStaysSigned(env: Env, balances: Balances, calls: seq<Call>, j: int, k: int,
                                            p: PartialFillParams)
    requires 0 <= j < k <= |calls| && calls[j].CreateOrderCall? && calls[j].order == p
    requires Accepted(env, Run(env, Deployed(balances), calls[..j]), calls[j])
    ensures var st := Run(env, Deployed(balances), calls[..k]);
      p.baseOrderId in st.partialFillOrders && Matches(st.partialFillOrders[p.baseOrderId], p)
    decreases k
  {
    var before := Run(env, Deployed(balances), calls[..k - 1]);
    assert calls[..k][..k - 1] == calls[..k - 1];
    if k == j + 1 {
      NewOrderMatches(env, before, calls[j]);
    } else {
      OrderStaysSigned(env, balances, calls, j, k - 1, p);
      OrderKept(env, before, calls[k - 1], p.baseOrderId);
    }
  }

  lemma {:induction false} NewOrderMatches(env: Env, st: State, call: Call)
    requires call.CreateOrderCall? && Accepted(env, st, call)
    ensures var after := Apply(env, st, call);
      call.order.baseOrderId in after.partialFillOrders && Matches(after.partialFillOrders[call.order.baseOrderId], call.order)
  {
  }

  /** The four signed terms of an order that the contract neither stores nor compares. */
  datatype LooseTerm = TokenTerm | BeneficiaryTerm | TimelockTerm | DeadlineTerm

  /** The fill is in the signed token, for the signed beneficiary, within the signed timelock, before the signed deadline. */
  predicate Honours(term: LooseTerm, p: PartialFillParams, call: Call, e: Escrow)
    requires call.CreateFillCall?
  {
    match term
    case TokenTerm => e.token == p.token
    case BeneficiaryTerm => e.beneficiary == p.beneficiary
    case TimelockTerm => e.timelock <= p.timelock
    case DeadlineTerm => call.now <= p.deadline
  }

  /**
   In every run a fill takes from the signed depositor, at most the signed amount, under a hashlock proved against
   the signed root at an index below the signed number. It is in the signed token exactly if that is the contract's
   wrapped Ether, for the signed beneficiary exactly if that is the caller, and within the signed timelock exactly if
   it is made an hour before.
   */
  lemma {:induction false} FillTermsIff(env: Env, balances: Balances, calls: seq<Call>, j: int, k: int, p: PartialFillParams)
    requires FilledFrom(env, balances, calls, j, k, p)
    ensures var call, e := calls[k], FillAt(env, balances, calls, k);
      && e.depositor == p.depositor && e.amount == call.amount <= p.totalAmount && call.fillIndex < p.numFills
      && e.hashlock == call.hashlock
      && Climb(PairHash(env.keccak), e.hashlock, call.fillIndex, call.merkleProof) == p.merkleRoot
      && (Honours(TokenTerm, p, call, e) <==> env.weth == p.token)
      && (Honours(BeneficiaryTerm, p, call, e) <==> call.caller == p.beneficiary)
      && (Honours(TimelockTerm, p, call, e) <==> call.now + 3600 <= p.timelock)
  {
    OrderStaysSigned(env, balances, calls, j, k, p);
    CreateChecks(env, Run(env, Deployed(balances), calls[..k]), calls[k]);
    hide Run, Accepted, Climb;
  }

  /** Every fill of this signed order, in every run, honours the term. */
  ghost predicate AlwaysHonoured(env: Env, term: LooseTerm, p: PartialFillParams) {
    forall balances, calls, j, k :: FilledFrom(env, balances, calls, j, k, p) ==>
      Honours(term, p, calls[k], FillAt(env, balances, calls, k))
  }

  /** An order that can be stored at some time and filled at all. */
  predicate Fillable(env: Env, p: PartialFillParams, created: nat) {
    && CanSign(env, p.depositor) && env.weth.Token? && p.totalAmount > 0 && p.numFills > 0
    && created < p.timelock && created <= p.deadline
  }

  /**
   Whatever was signed, any caller can fill the order at any later time, with any token or timelock in it, at any index
   below the signed number and with any hashlock and proof that lead to the signed root.
   */
  lemma {:induction false} FilledRegardless(env: Env, p: PartialFillParams, created: nat, caller: Address, filled: nat,
                                            index: nat, hashlock: Bytes, proof: seq<Bytes>)
    returns (balances: Balances, calls: seq<Call>)
    requires Fillable(env, p, created) && caller != env.self && index < p.numFills
    requires Climb(PairHash(env.keccak), hashlock, index, proof) == p.merkleRoot
    ensures FilledFrom(env, balances, calls, 0, 1, p) && calls[1].caller == caller && calls[1].now == filled
    ensures calls[1].fillIndex == index && calls[1].hashlock == hashlock && calls[1].merkleProof == proof
  {
    balances := map[(env.weth, p.depositor) := p.totalAmount, (Ether, caller) := 1];
    var store := CreateOrderCall(p, Signature(p.depositor, CreateOrderMessage(p, 0)), created);
    var fill := CreateFillCall(caller, 1, p.baseOrderId, index, p.totalAmount, hashlock, proof, true, filled);
    calls := [store, fill];
    var st0 := Deployed(balances);
    var order := PartialFillOrder(p.depositor, p.beneficiary, p.totalAmount, 0, p.merkleRoot, p.numFills);
    var st1 := st0.(nonces := map[p.depositor := 1], partialFillOrders := map[p.baseOrderId := order]);
    assert OutcomeOf(env, st0, store) == Done(st1);
    FillAccepted(env, st1, p, fill);
    hide Climb;
    assert calls[..0] == [] && calls[..1] == [store] && [store][..0] == [];
    assert Run(env, st0, calls[..0]) == st0 && Run(env, st0, calls[..1]) == st1;
  }

  lemma {:induction false} FillAccepted(env: Env, st: State, p: PartialFillParams, call: Call)
    requires p.baseOrderId in st.partialFillOrders && st.escrows == map[] && st.usedMerkleIndices == {}
    requires Matches(st.partialFillOrders[p.baseOrderId], p) && st.partialFillOrders[p.baseOrderId].filledAmount == 0
    requires call.CreateFillCall? && call.baseOrderId == p.baseOrderId && call.caller != env.self && call.value == 1
    requires call.fillIndex < p.numFills && call.amount == p.totalAmount && call.allowed && env.weth.Token?
    requires Climb(PairHash(env.keccak), call.hashlock, call.fillIndex, call.merkleProof) == p.merkleRoot
    requires BalanceOf(st.balances, Ether, call.caller) == 1
    requires BalanceOf(st.balances, env.weth, p.depositor) == p.totalAmount
    ensures Accepted(env, st, call)
  {
    hide Move, BalanceOf, Climb;
  }

  /** A signed term is honoured in every run exactly if it is the token and names the wrapped Ether of the contract. */
  lemma {:induction false} AlwaysHonouredIff(env: Env, term: LooseTerm, p: PartialFillParams, created: nat)
    requires Fillable(env, p, created)
    ensures AlwaysHonoured(env, term, p) <==> term == TokenTerm && env.weth == p.token
  {
    var caller := env.self + p.beneficiary + 1;
    var late := p.timelock + p.deadline + 1;
    var balances, calls := FilledRegardless(env, p, created, caller, late, 0, p.merkleRoot, []);
    FillTermsIff(env, balances, calls, 0, 1, p);
    hide FillAt, Run, Accepted, Climb;
    if term == TokenTerm && env.weth == p.token {
      forall b, cs, j, k | FilledFrom(env, b, cs, j, k, p)
        ensures Honours(term, p, cs[k], FillAt(env, b, cs, k))
      {
        FillTermsIff(env, b, cs, j, k, p);
      }
    }
  }

  // ---------- Which id a signed escrow gets ----------

  /**
   The same signed message is accepted as an escrow under its signed id and as a fill under any free fill id, with
   the same terms. The signed id is kept exactly when the submitter's fill id equals it.
   */
  lemma {:induction false} SubmitterChoosesId(env: Env, st: State, caller: Address, value: nat, p: MetaTxParams,
                                              o: Bytes, i: nat, signature: Signature, allowed: bool, now: nat)
    requires p.escrowId !in st.escrows && env.fillId(o, i) !in st.escrows
    ensures var direct := CreateEscrowCall(caller, value, p, signature, allowed, now);
      var asFill := CreateGaslessFillCall(caller, value, p, o, i, signature, allowed, now);
      && (Accepted(env, st, direct) <==> Accepted(env, st, asFill))
      && (Accepted(env, st, asFill) ==>
            var stored := Apply(env, st, asFill).escrows;
            && env.fillId(o, i) in stored
            && stored[env.fillId(o, i)] == Apply(env, st, direct).escrows[p.escrowId]
            && (p.escrowId in stored <==> env.fillId(o, i) == p.escrowId))
  {
    hide Move, BalanceOf;
  }

  // ---------- Debits ----------

  /**
   Nobody but the contract pays anything in a call except: the sender of an outside transfer, the depositor of
   the escrow being created, its amount in its token, and the caller of a creation, the safety deposit in Ether.
   */
  lemma {:induction false} OnlyTheseAreDebited(env: Env, st: State, call: Call, asset: Asset, user: Address)
    requires user != env.self
    requires BalanceOf(Apply(env, st, call).balances, asset, user) < BalanceOf(st.balances, asset, user)
    ensures Accepted(env, st, call)
    ensures var paid := BalanceOf(st.balances, asset, user) - BalanceOf(Apply(env, st, call).balances, asset, user);
      || (call.OutsideTransfer? && call.from == user && call.asset == asset && paid == call.amount)
      || (IsCreate(call) && (call.CreateFillCall? ==> call.baseOrderId in st.partialFillOrders)
          && var e := CreatedEscrow(env, st, call);
             if asset.Ether? then call.caller == user && paid == e.safetyDeposit
             else e.depositor == user && e.token == asset && paid == e.amount)
  {
    hide Apply, Accepted, BalanceOf, Move;
    if !Accepted(env, st, call) {
      RevertChangesNothing(env, st, call);
    } else if IsCreate(call) {
      CreateEffect(env, st, call);
      hide CreatedEscrow;
    } else if IsClose(call) {
      CloseEffect(env, st, call);
    } else {
      OtherEffect(env, st, call);
    }
  }
}
