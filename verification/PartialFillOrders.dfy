/** What every sequence of calls keeps about partially fillable orders. */
module PartialFillOrders {
  import opened Bytes
  import opened Ledger
  import opened MerkleVerifier
  import opened PartialFillSecrets
  import opened GaslessEscrow
  import opened GaslessEscrowRuns

  /** What fill `i` took from the depositor of order `o`. */
  function FillAmount(env: Env, st: State, o: Bytes, i: nat): nat {
    var id := env.fillId(o, i);
    if (o, i) in st.usedMerkleIndices && id in st.escrows then st.escrows[id].amount else 0
  }

  /** What the fills with index below n took together. */
  function FilledBelow(env: Env, st: State, o: Bytes, n: nat): nat {
    if n == 0 then 0 else FilledBelow(env, st, o, n - 1) + FillAmount(env, st, o, n - 1)
  }

  /** Fill `i` of order `o` went through every check: it has its own escrow, on the order's terms, under a proved hashlock. */
  ghost predicate Checked(env: Env, st: State, o: Bytes, i: nat) {
    && o in st.partialFillOrders && i < st.partialFillOrders[o].numFills
    && env.fillId(o, i) in st.escrows
    && var order, e := st.partialFillOrders[o], st.escrows[env.fillId(o, i)];
       && e.depositor == order.depositor && e.token == env.weth
       && exists proof :: Climb(PairHash(env.keccak), e.hashlock, i, proof) == order.merkleRoot
  }

  ghost predicate FillsChecked(env: Env, st: State) {
    forall o, i :: (o, i) in st.usedMerkleIndices ==> Checked(env, st, o, i)
  }

  /** Different fills have different escrows. */
  ghost predicate FillsApart(env: Env, st: State) {
    forall f, g :: f in st.usedMerkleIndices && g in st.usedMerkleIndices && f != g ==>
      env.fillId(f.0, f.1) != env.fillId(g.0, g.1)
  }

  /** The recorded filled amount is the sum of the fills, and within the order. */
  ghost predicate Balanced(env: Env, st: State, o: Bytes) {
    o in st.partialFillOrders ==>
      var order := st.partialFillOrders[o];
      order.filledAmount == FilledBelow(env, st, o, order.numFills) && order.filledAmount <= order.totalAmount
  }

  lemma {:induction false} FilledSame(env: Env, st: State, after: State, o: Bytes, n: nat)
    requires forall i :: 0 <= i < n ==> FillAmount(env, after, o, i) == FillAmount(env, st, o, i)
    ensures FilledBelow(env, after, o, n) == FilledBelow(env, st, o, n)
  {
    hide FillAmount;
    if n > 0 {
      FilledSame(env, st, after, o, n - 1);
    }
  }

  lemma {:induction false} FilledPlusOne(env: Env, st: State, after: State, o: Bytes, n: nat, k: nat, amount: nat)
    requires k < n && FillAmount(env, st, o, k) == 0 && FillAmount(env, after, o, k) == amount
    requires forall i :: 0 <= i < n && i != k ==> FillAmount(env, after, o, i) == FillAmount(env, st, o, i)
    ensures FilledBelow(env, after, o, n) == FilledBelow(env, st, o, n) + amount
  {
    hide FillAmount;
    if k == n - 1 {
      FilledSame(env, st, after, o, n - 1);
    } else {
      FilledPlusOne(env, st, after, o, n - 1, k, amount);
    }
  }

  lemma {:induction false} FilledNothing(env: Env, st: State, o: Bytes, n: nat)
    requires forall i :: 0 <= i < n ==> FillAmount(env, st, o, i) == 0
    ensures FilledBelow(env, st, o, n) == 0
  {
    hide FillAmount;
    if n > 0 {
      FilledNothing(env, st, o, n - 1);
    }
  }

  /** An accepted fill call passes the contract's checks and records exactly one fill. */
  lemma {:induction false} FillEffect(env: Env, st: State, call: Call)
    requires call.CreateFillCall? && Accepted(env, st, call)
    ensures var after, o, i := Apply(env, st, call), call.baseOrderId, call.fillIndex;
      && o in st.partialFillOrders && i < st.partialFillOrders[o].numFills
      && (o, i) !in st.usedMerkleIndices
      && st.partialFillOrders[o].filledAmount + call.amount <= st.partialFillOrders[o].totalAmount
      && Climb(PairHash(env.keccak), call.hashlock, i, call.merkleProof) == st.partialFillOrders[o].merkleRoot
      && after.usedMerkleIndices == st.usedMerkleIndices + {(o, i)}
      && after.partialFillOrders == st.partialFillOrders[o :=
           st.partialFillOrders[o].(filledAmount := st.partialFillOrders[o].filledAmount + call.amount)]
  {
    hide Climb, Move, BalanceOf;
  }

  lemma {:induction false} NonFillEffect(env: Env, st: State, call: Call)
    requires !call.CreateFillCall?
    ensures var after := Apply(env, st, call);
      && after.usedMerkleIndices == st.usedMerkleIndices
      && (forall o :: o in st.partialFillOrders ==>
            o in after.partialFillOrders && after.partialFillOrders[o] == st.partialFillOrders[o])
      && (forall o :: o in after.partialFillOrders && o !in st.partialFillOrders ==>
            after.partialFillOrders[o].filledAmount == 0)
  {
    hide Climb, Move, BalanceOf, PayOut;
  }

  /** Existing escrows keep their terms, so recorded fills keep their amounts. */
  lemma {:induction false} AmountsKept(env: Env, st: State, call: Call, o: Bytes, i: nat)
    requires FillsChecked(env, st)
    requires !(call.CreateFillCall? && Accepted(env, st, call) && call.baseOrderId == o && call.fillIndex == i)
    ensures FillAmount(env, Apply(env, st, call), o, i) == FillAmount(env, st, o, i)
  {
    var id := env.fillId(o, i);
    ApplyOnEscrow(env, st, call, id);
    if !Accepted(env, st, call) {
      RevertChangesNothing(env, st, call);
    } else if call.CreateFillCall? {
      FillEffect(env, st, call);
    } else {
      NonFillEffect(env, st, call);
    }
    hide Apply, Accepted, PaysEscrow;
    assert (o, i) in st.usedMerkleIndices ==> Checked(env, st, o, i);
  }

  lemma {:induction false} CheckedKept(env: Env, st: State, call: Call, o: Bytes, i: nat)
    requires Checked(env, st, o, i)
    ensures Checked(env, Apply(env, st, call), o, i)
  {
    var id, after := env.fillId(o, i), Apply(env, st, call);
    ApplyOnEscrow(env, st, call, id);
    OrderKept(env, st, call, o);
    hide Apply, Accepted, PaysEscrow, Climb;
    assert after.escrows[id].Terms() == st.escrows[id].Terms();
    var proof :| Climb(PairHash(env.keccak), st.escrows[id].hashlock, i, proof) == st.partialFillOrders[o].merkleRoot;
    assert Climb(PairHash(env.keccak), after.escrows[id].hashlock, i, proof) == after.partialFillOrders[o].merkleRoot;
  }

  lemma {:induction false} OrderKept(env: Env, st: State, call: Call, o: Bytes)
    requires o in st.partialFillOrders
    ensures var after := Apply(env, st, call);
      o in after.partialFillOrders &&
      after.partialFillOrders[o] == st.partialFillOrders[o].(filledAmount := after.partialFillOrders[o].filledAmount)
  {
    if !Accepted(env, st, call) {
      RevertChangesNothing(env, st, call);
    } else if call.CreateFillCall? {
      FillEffect(env, st, call);
    } else {
      NonFillEffect(env, st, call);
    }
    hide Apply, Accepted;
  }

  lemma {:induction false} ApplyKeepsChecked(env: Env, st: State, call: Call)
    requires FillsChecked(env, st)
    ensures FillsChecked(env, Apply(env, st, call))
  {
    hide Apply, Accepted, Checked;
    var after := Apply(env, st, call);
    forall o, i | (o, i) in after.usedMerkleIndices
      ensures Checked(env, after, o, i)
    {
      if (o, i) in st.usedMerkleIndices {
        CheckedKept(env, st, call, o, i);
      } else {
        NewFillChecked(env, st, call, o, i);
      }
    }
  }

  lemma {:induction false} NewFillChecked(env: Env, st: State, call: Call, o: Bytes, i: nat)
    requires (o, i) in Apply(env, st, call).usedMerkleIndices && (o, i) !in st.usedMerkleIndices
    ensures Checked(env, Apply(env, st, call), o, i)
  {
    if !Accepted(env, st, call) {
      RevertChangesNothing(env, st, call);
    } else if call.CreateFillCall? {
      FillEffect(env, st, call);
      CreateEffect(env, st, call);
    } else {
      NonFillEffect(env, st, call);
    }
    hide Apply, Accepted, Climb, Move, BalanceOf;
  }

  lemma {:induction false} ApplyKeepsBalanced(env: Env, st: State, call: Call, o: Bytes)
    requires FillsChecked(env, st) && Balanced(env, st, o)
    ensures Balanced(env, Apply(env, st, call), o)
  {
    var after := Apply(env, st, call);
    if call.CreateFillCall? && Accepted(env, st, call) && call.baseOrderId == o {
      var k := call.fillIndex;
      FillEffect(env, st, call);
      CreateEffect(env, st, call);
      hide Apply, Accepted, Climb, Move, BalanceOf, FilledBelow;
      forall i | 0 <= i < st.partialFillOrders[o].numFills && i != k
        ensures FillAmount(env, after, o, i) == FillAmount(env, st, o, i)
      {
        AmountsKept(env, st, call, o, i);
      }
      FilledPlusOne(env, st, after, o, st.partialFillOrders[o].numFills, k, call.amount);
    } else {
      OtherOrdersBalanced(env, st, call, o);
    }
  }

  lemma {:induction false} OtherOrdersBalanced(env: Env, st: State, call: Call, o: Bytes)
    requires FillsChecked(env, st) && Balanced(env, st, o)
    requires !(call.CreateFillCall? && Accepted(env, st, call) && call.baseOrderId == o)
    ensures Balanced(env, Apply(env, st, call), o)
  {
    var after := Apply(env, st, call);
    if !Accepted(env, st, call) {
      RevertChangesNothing(env, st, call);
    } else if call.CreateFillCall? {
      FillEffect(env, st, call);
    } else {
      NonFillEffect(env, st, call);
    }
    hide Apply, Accepted, Climb, FilledBelow;
    if o in st.partialFillOrders {
      forall i | 0 <= i < st.partialFillOrders[o].numFills
        ensures FillAmount(env, after, o, i) == FillAmount(env, st, o, i)
      {
        AmountsKept(env, st, call, o, i);
      }
      FilledSame(env, st, after, o, st.partialFillOrders[o].numFills);
    } else if o in after.partialFillOrders {
      forall i | 0 <= i < after.partialFillOrders[o].numFills
        ensures FillAmount(env, after, o, i) == 0
      {
        assert (o, i) !in st.usedMerkleIndices;
      }
      FilledNothing(env, after, o, after.partialFillOrders[o].numFills);
    }
  }

  lemma {:induction false} ApplyKeepsApart(env: Env, st: State, call: Call)
    requires FillsChecked(env, st) && FillsApart(env, st)
    ensures FillsApart(env, Apply(env, st, call))
  {
    var after := Apply(env, st, call);
    if !Accepted(env, st, call) {
      RevertChangesNothing(env, st, call);
    } else if call.CreateFillCall? {
      FillEffect(env, st, call);
      CreateEffect(env, st, call);
      hide Apply, Accepted, Climb, Move, BalanceOf;
      var added := (call.baseOrderId, call.fillIndex);
      forall f | f in st.usedMerkleIndices
        ensures env.fillId(f.0, f.1) != env.fillId(added.0, added.1)
      {
        assert Checked(env, st, f.0, f.1);
      }
    } else {
      NonFillEffect(env, st, call);
    }
    hide Apply, Accepted;
  }

  /** In every run every fill that was taken has passed the checks and has an escrow of its own. */
  lemma {:induction false} FillsAlwaysChecked(env: Env, balances: Balances, calls: seq<Call>)
    ensures FillsChecked(env, Run(env, Deployed(balances), calls)) && FillsApart(env, Run(env, Deployed(balances), calls))
    decreases |calls|
  {
    if calls != [] {
      hide Apply, FillsChecked, FillsApart;
      FillsAlwaysChecked(env, balances, calls[..|calls| - 1]);
      ApplyKeepsChecked(env, Run(env, Deployed(balances), calls[..|calls| - 1]), calls[|calls| - 1]);
      ApplyKeepsApart(env, Run(env, Deployed(balances), calls[..|calls| - 1]), calls[|calls| - 1]);
    }
  }

  /**
   In every run, every fill that was taken has passed the checks, and for every order the fills together
   took exactly the recorded amount and no more than the depositor signed for.
   */
  lemma {:induction false} OrderNeverOverfilled(env: Env, balances: Balances, calls: seq<Call>, o: Bytes)
    ensures var st := Run(env, Deployed(balances), calls);
      && FillsChecked(env, st)
      && (o in st.partialFillOrders ==>
            var order := st.partialFillOrders[o];
            FilledBelow(env, st, o, order.numFills) == order.filledAmount <= order.totalAmount)
    decreases |calls|
  {
    FillsAlwaysChecked(env, balances, calls);
    if calls != [] {
      hide Apply, Checked, FilledBelow;
      OrderNeverOverfilled(env, balances, calls[..|calls| - 1], o);
      ApplyKeepsBalanced(env, Run(env, Deployed(balances), calls[..|calls| - 1]), calls[|calls| - 1], o);
    }
  }
}
