/** Filling one order in several parts. */
module FillRuns {
  import opened Bytes
  import opened Ledger
  import opened MerkleVerifier
  import opened PartialFillSecrets
  import opened GaslessEscrow
  import opened GaslessEscrowRuns
  import opened PartialFillOrders
  import opened CallOutcomes

  /** What one resolver submits for its part of an order. */
  datatype Part = Part(caller: Address, value: nat, index: nat, amount: nat, hashlock: Bytes, proof: seq<Bytes>, now: nat)

  function FillCall(o: Bytes, p: Part): Call {
    CreateFillCall(p.caller, p.value, o, p.index, p.amount, p.hashlock, p.proof, true, p.now)
  }

  function FillCalls(o: Bytes, parts: seq<Part>): (calls: seq<Call>)
    ensures |calls| == |parts| && forall k :: 0 <= k < |parts| ==> calls[k] == FillCall(o, parts[k])
  {
    seq(|parts|, k requires 0 <= k < |parts| => FillCall(o, parts[k]))
  }

  function Amounts(parts: seq<Part>): nat {
    if parts == [] then 0 else Amounts(parts[..|parts| - 1]) + parts[|parts| - 1].amount
  }

  /** The Ether one account sends along with its parts. */
  function SentBy(parts: seq<Part>, who: Address): nat {
    if parts == [] then 0
    else
      var last := parts[|parts| - 1];
      SentBy(parts[..|parts| - 1], who) + if last.caller == who then last.value else 0
  }

  /** Every call of the run goes through. */
  ghost predicate AllAccepted(env: Env, st: State, calls: seq<Call>) {
    forall k :: 0 <= k < |calls| ==> Accepted(env, Run(env, st, calls[..k]), calls[k])
  }

  /** One part by itself: a free index of the order, with a safety deposit. */
  ghost predicate PartFree(env: Env, st: State, o: Bytes, p: Part)
    requires o in st.partialFillOrders
  {
    && p.index < st.partialFillOrders[o].numFills && (o, p.index) !in st.usedMerkleIndices
    && env.fillId(o, p.index) !in st.escrows && p.value > 0 && p.caller != env.self
  }

  ghost predicate PartProved(env: Env, st: State, o: Bytes, p: Part)
    requires o in st.partialFillOrders
  {
    Climb(PairHash(env.keccak), p.hashlock, p.index, p.proof) == st.partialFillOrders[o].merkleRoot
  }

  /** The parts are free, they have different escrows, and everybody can pay for their share. */
  ghost predicate Payable(env: Env, st: State, o: Bytes, parts: seq<Part>) {
    && o in st.partialFillOrders && env.weth.Token?
    && (forall k :: 0 <= k < |parts| ==> PartFree(env, st, o, parts[k]))
    && (forall j, k :: 0 <= j < k < |parts| ==> env.fillId(o, parts[j].index) != env.fillId(o, parts[k].index))
    && (forall who :: who != env.self ==> BalanceOf(st.balances, Ether, who) >= SentBy(parts, who))
    && BalanceOf(st.balances, env.weth, st.partialFillOrders[o].depositor) >= Amounts(parts)
  }

  ghost predicate AllProved(env: Env, st: State, o: Bytes, parts: seq<Part>)
    requires o in st.partialFillOrders
  {
    forall k :: 0 <= k < |parts| ==> PartProved(env, st, o, parts[k])
  }

  /** The escrow of one part. */
  function PartEscrow(env: Env, order: PartialFillOrder, p: Part): Escrow {
    Escrow(order.depositor, p.caller, env.weth, p.amount, p.hashlock, p.now + 3600, false, false, p.value)
  }

  /** One of the parts is at this index. */
  ghost predicate Takes(parts: seq<Part>, i: nat) {
    exists k :: 0 <= k < |parts| && parts[k].index == i
  }

  lemma {:induction false} TakesAppend(parts: seq<Part>, p: Part, i: nat)
    ensures Takes(parts + [p], i) <==> Takes(parts, i) || p.index == i
  {
    var all := parts + [p];
    assert all[|parts|] == p;
    if k :| 0 <= k < |parts| && parts[k].index == i {
      assert all[k].index == i;
    }
  }

  /** The order and its used indices after the parts `done`. */
  ghost predicate OrderAfter(st: State, o: Bytes, done: seq<Part>, cur: State)
    requires o in st.partialFillOrders
  {
    var order := st.partialFillOrders[o];
    && o in cur.partialFillOrders
    && cur.partialFillOrders[o] == order.(filledAmount := order.filledAmount + Amounts(done))
    && forall i: nat :: (o, i) in cur.usedMerkleIndices <==> (o, i) in st.usedMerkleIndices || Takes(done, i)
  }

  /** Every part has its own escrow, and nothing else has been added. */
  ghost predicate EscrowsAfter(env: Env, st: State, o: Bytes, done: seq<Part>, cur: State)
    requires o in st.partialFillOrders
  {
    && (forall id :: id in cur.escrows ==>
          id in st.escrows || exists k :: 0 <= k < |done| && env.fillId(o, done[k].index) == id)
    && (forall k :: 0 <= k < |done| ==>
          var id := env.fillId(o, done[k].index);
          id in cur.escrows && cur.escrows[id] == PartEscrow(env, st.partialFillOrders[o], done[k]))
  }

  /** Every resolver has paid its safety deposits, and the depositor no more than the amounts. */
  ghost predicate PaidFor(env: Env, st: State, o: Bytes, done: seq<Part>, cur: State)
    requires o in st.partialFillOrders
  {
    var depositor := st.partialFillOrders[o].depositor;
    && (forall who :: who != env.self ==>
          BalanceOf(cur.balances, Ether, who) + SentBy(done, who) == BalanceOf(st.balances, Ether, who))
    && BalanceOf(cur.balances, env.weth, depositor) + Amounts(done) >= BalanceOf(st.balances, env.weth, depositor)
  }

  /** The state `cur` is `st` after the parts `done`. */
  ghost predicate After(env: Env, st: State, o: Bytes, done: seq<Part>, cur: State)
    requires o in st.partialFillOrders
  {
    OrderAfter(st, o, done, cur) && EscrowsAfter(env, st, o, done, cur) && PaidFor(env, st, o, done, cur)
  }

  lemma {:induction false} AppendPart(parts: seq<Part>, p: Part)
    ensures Amounts(parts + [p]) == Amounts(parts) + p.amount
    ensures forall who :: SentBy(parts + [p], who) == SentBy(parts, who) + if p.caller == who then p.value else 0
  {
    assert (parts + [p])[..|parts|] == parts;
  }

  lemma {:induction false} PayableFront(env: Env, st: State, o: Bytes, parts: seq<Part>, p: Part)
    requires Payable(env, st, o, parts + [p])
    ensures Payable(env, st, o, parts)
    ensures PartFree(env, st, o, p)
    ensures forall k :: 0 <= k < |parts| ==> env.fillId(o, parts[k].index) != env.fillId(o, p.index)
  {
    AppendPart(parts, p);
    hide PartFree, BalanceOf, Amounts, SentBy;
    var all := parts + [p];
    assert all[|parts|] == p;
    forall k | 0 <= k < |parts|
      ensures PartFree(env, st, o, parts[k]) && env.fillId(o, parts[k].index) != env.fillId(o, p.index)
    {
      assert all[k] == parts[k];
    }
    forall j, k | 0 <= j < k < |parts|
      ensures env.fillId(o, parts[j].index) != env.fillId(o, parts[k].index)
    {
      assert all[j] == parts[j] && all[k] == parts[k];
    }
    forall who | who != env.self
      ensures BalanceOf(st.balances, Ether, who) >= SentBy(parts, who)
    {
      assert BalanceOf(st.balances, Ether, who) >= SentBy(all, who);
    }
  }

  lemma {:induction false} AllProvedFront(env: Env, st: State, o: Bytes, parts: seq<Part>, p: Part)
    requires o in st.partialFillOrders && AllProved(env, st, o, parts + [p])
    ensures AllProved(env, st, o, parts) && PartProved(env, st, o, p)
  {
    hide PartProved;
    var all := parts + [p];
    assert all[|parts|] == p;
    forall k | 0 <= k < |parts|
      ensures PartProved(env, st, o, parts[k])
    {
      assert all[k] == parts[k];
    }
  }

  lemma {:induction false} NextPart(env: Env, st: State, o: Bytes, done: seq<Part>, p: Part, cur: State)
    requires Payable(env, st, o, done + [p]) && AllProved(env, st, o, done + [p]) && After(env, st, o, done, cur)
    ensures var order := st.partialFillOrders[o];
      Accepted(env, cur, FillCall(o, p)) <==> order.filledAmount + Amounts(done + [p]) <= order.totalAmount
  {
    PayableFront(env, st, o, done, p);
    AllProvedFront(env, st, o, done, p);
    AppendPart(done, p);
    var call := FillCall(o, p);
    hide Accepted, Climb, BalanceOf, Amounts, SentBy, AllProved;
    assert !Takes(done, p.index);
    assert BalanceOf(cur.balances, Ether, p.caller) >= p.value;
    FillAcceptedIff(env, cur, call);
  }

  /** What the next part changes besides the balances. */
  lemma {:induction false} NextPartEffect(env: Env, st: State, o: Bytes, p: Part)
    requires Accepted(env, st, FillCall(o, p))
    ensures var after := Apply(env, st, FillCall(o, p));
      && o in st.partialFillOrders
      && after.partialFillOrders == st.partialFillOrders[o :=
           st.partialFillOrders[o].(filledAmount := st.partialFillOrders[o].filledAmount + p.amount)]
      && after.usedMerkleIndices == st.usedMerkleIndices + {(o, p.index)}
      && env.fillId(o, p.index) !in st.escrows
      && after.escrows == st.escrows[env.fillId(o, p.index) := PartEscrow(env, st.partialFillOrders[o], p)]
  {
    FillEffect(env, st, FillCall(o, p));
    CreateEffect(env, st, FillCall(o, p));
    hide Apply, Accepted, Climb, Move, BalanceOf;
  }

  /** The caller pays the deposit and the depositor at most the amount. */
  lemma {:induction false} NextPartPaid(env: Env, st: State, o: Bytes, p: Part)
    requires Accepted(env, st, FillCall(o, p))
    ensures o in st.partialFillOrders
    ensures var after := Apply(env, st, FillCall(o, p));
      && (forall who :: who != env.self ==>
            BalanceOf(after.balances, Ether, who) + (if who == p.caller then p.value else 0)
            == BalanceOf(st.balances, Ether, who))
      && BalanceOf(after.balances, env.weth, st.partialFillOrders[o].depositor) + p.amount
         >= BalanceOf(st.balances, env.weth, st.partialFillOrders[o].depositor)
  {
    CreateEffect(env, st, FillCall(o, p));
    hide Apply, Accepted, Climb, Move, BalanceOf;
  }

  lemma {:induction false} OrderAfterNext(env: Env, st: State, o: Bytes, done: seq<Part>, p: Part, cur: State)
    requires o in st.partialFillOrders && OrderAfter(st, o, done, cur)
    requires Accepted(env, cur, FillCall(o, p))
    ensures OrderAfter(st, o, done + [p], Apply(env, cur, FillCall(o, p)))
  {
    AppendPart(done, p);
    NextPartEffect(env, cur, o, p);
    var after := Apply(env, cur, FillCall(o, p));
    hide Apply, Accepted, Amounts, Takes;
    forall i: nat
      ensures (o, i) in after.usedMerkleIndices <==> (o, i) in st.usedMerkleIndices || Takes(done + [p], i)
    {
      TakesAppend(done, p, i);
    }
  }

  lemma {:induction false} EscrowsAfterNext(env: Env, st: State, o: Bytes, done: seq<Part>, p: Part, cur: State)
    requires o in st.partialFillOrders && OrderAfter(st, o, done, cur) && EscrowsAfter(env, st, o, done, cur)
    requires Accepted(env, cur, FillCall(o, p))
    ensures EscrowsAfter(env, st, o, done + [p], Apply(env, cur, FillCall(o, p)))
  {
    assert PartEscrow(env, cur.partialFillOrders[o], p) == PartEscrow(env, st.partialFillOrders[o], p);
    NextPartEffect(env, cur, o, p);
    var all, after := done + [p], Apply(env, cur, FillCall(o, p));
    hide Apply, Accepted, Amounts, OrderAfter, PartEscrow;
    assert all[|done|] == p;
    forall id | id in after.escrows
      ensures id in st.escrows || exists k :: 0 <= k < |all| && env.fillId(o, all[k].index) == id
    {
      if id in cur.escrows && id !in st.escrows {
        var k :| 0 <= k < |done| && env.fillId(o, done[k].index) == id;
        assert env.fillId(o, all[k].index) == id;
      }
    }
  }

  lemma {:induction false} PaidForNext(env: Env, st: State, o: Bytes, done: seq<Part>, p: Part, cur: State)
    requires o in st.partialFillOrders && OrderAfter(st, o, done, cur) && PaidFor(env, st, o, done, cur)
    requires Accepted(env, cur, FillCall(o, p))
    ensures PaidFor(env, st, o, done + [p], Apply(env, cur, FillCall(o, p)))
  {
    assert cur.partialFillOrders[o].depositor == st.partialFillOrders[o].depositor;
    AppendPart(done, p);
    NextPartPaid(env, cur, o, p);
    hide Apply, Accepted, Amounts, SentBy, BalanceOf, OrderAfter;
  }

  lemma {:induction false} NothingDone(env: Env, st: State, o: Bytes)
    requires o in st.partialFillOrders
    ensures After(env, st, o, [], st)
  {
  }

  lemma {:induction false} AllAcceptedStep(env: Env, st: State, o: Bytes, done: seq<Part>, p: Part)
    ensures var calls := FillCalls(o, done);
      && Run(env, st, FillCalls(o, done + [p])) == Apply(env, Run(env, st, calls), FillCall(o, p))
      && (AllAccepted(env, st, FillCalls(o, done + [p])) <==>
            AllAccepted(env, st, calls) && Accepted(env, Run(env, st, calls), FillCall(o, p)))
  {
    var calls, all := FillCalls(o, done), FillCalls(o, done + [p]);
    hide Accepted, Apply, FillCall;
    assert all == calls + [FillCall(o, p)];
    assert all[..|calls|] == calls;
    assert all[|calls|] == FillCall(o, p);
    assert forall k :: 0 <= k < |calls| ==> all[..k] == calls[..k] && all[k] == calls[k];
    if AllAccepted(env, st, all) {
      assert Accepted(env, Run(env, st, all[..|calls|]), all[|calls|]);
      forall k | 0 <= k < |calls|
        ensures Accepted(env, Run(env, st, calls[..k]), calls[k])
      {
        assert Accepted(env, Run(env, st, all[..k]), all[k]);
      }
    }
  }

  lemma {:induction false} FilledInPartsFrom(env: Env, st: State, o: Bytes, parts: seq<Part>)
    requires Payable(env, st, o, parts) && AllProved(env, st, o, parts)
    requires st.partialFillOrders[o].filledAmount <= st.partialFillOrders[o].totalAmount
    ensures var order := st.partialFillOrders[o];
      AllAccepted(env, st, FillCalls(o, parts)) <==> Amounts(parts) <= order.totalAmount - order.filledAmount
    ensures AllAccepted(env, st, FillCalls(o, parts)) ==> After(env, st, o, parts, Run(env, st, FillCalls(o, parts)))
    decreases |parts|
  {
    if parts == [] {
      NothingDone(env, st, o);
    } else {
      var done, p := parts[..|parts| - 1], parts[|parts| - 1];
      assert parts == done + [p];
      PayableFront(env, st, o, done, p);
      AllProvedFront(env, st, o, done, p);
      FilledInPartsFrom(env, st, o, done);
      AppendPart(done, p);
      AllAcceptedStep(env, st, o, done, p);
      hide Payable, AllProved, AllAccepted, OrderAfter, EscrowsAfter, PaidFor, Accepted, Apply, FillCalls, Amounts;
      var cur := Run(env, st, FillCalls(o, done));
      if AllAccepted(env, st, FillCalls(o, done)) {
        NextPart(env, st, o, done, p, cur);
        if Accepted(env, cur, FillCall(o, p)) {
          OrderAfterNext(env, st, o, done, p, cur);
          EscrowsAfterNext(env, st, o, done, p, cur);
          PaidForNext(env, st, o, done, p, cur);
        }
      }
    }
  }

  /**
   After any run, if some parts of an order are free, proved and paid for, then in whatever sequence their resolvers submit
   them all of them are accepted exactly when together they fit in what is left of the order. Then the order records
   their sum, and every part has an escrow of its own, to its own resolver.
   */
  lemma {:induction false} FilledInPartsIff(env: Env, balances: Balances, before: seq<Call>, o: Bytes, parts: seq<Part>)
    requires var st := Run(env, Deployed(balances), before); Payable(env, st, o, parts) && AllProved(env, st, o, parts)
    ensures var st := Run(env, Deployed(balances), before);
      var order, calls := st.partialFillOrders[o], FillCalls(o, parts);
      && (AllAccepted(env, st, calls) <==> Amounts(parts) <= order.totalAmount - order.filledAmount)
      && (AllAccepted(env, st, calls) ==> After(env, st, o, parts, Run(env, st, calls)))
  {
    hide Run, AllAccepted, AllProved, After, PartFree, Amounts, SentBy, BalanceOf;
    OrderNeverOverfilled(env, balances, before, o);
    FilledInPartsFrom(env, Run(env, Deployed(balances), before), o, parts);
  }
}
