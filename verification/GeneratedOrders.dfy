/**
 Fills of orders whose root the program has generated from secrets: which secret each fill is under, and who can open
 it. Every statement ends in "or two different strings that were hashed have the same hash".
 */
module GeneratedOrders {
  import opened Bytes
  import opened Ledger
  import opened PowersOfTwo
  import opened MerkleTree
  import opened MerkleVerifier
  import opened MerkleAcceptance
  import opened MerkleKeccak
  import opened PartialFillSecrets
  import opened GaslessEscrow
  import opened GaslessEscrowRuns
  import opened Authorisation
  import opened FillRuns

  /** The order was signed for these secrets. */
  ghost predicate GeneratedFor(env: Env, p: PartialFillParams, secrets: seq<Bytes>) {
    && 0 < |secrets| && p.merkleRoot == GeneratedRoot(env.keccak, secrets)
    && HashesToWords(env.keccak) && Words(secrets) && Distinct(secrets)
  }

  /** The contract takes words only. */
  ghost predicate InWords(call: Call) {
    call.CreateFillCall? && Word(call.hashlock) && Words(call.merkleProof)
  }

  /** Every string hashed for the order's tree or by the check of this fill. */
  function HashedFor(env: Env, secrets: seq<Bytes>, call: Call): set<Bytes>
    requires call.CreateFillCall? && |secrets| > 0
  {
    Hashed(env.keccak, secrets, call.hashlock, call.fillIndex, call.merkleProof)
  }

  /** A fill of such an order was accepted as a climb to the generated root. */
  lemma {:induction false} FillWasAccepted(env: Env, balances: Balances, calls: seq<Call>, j: int, k: int,
                                           p: PartialFillParams, secrets: seq<Bytes>)
    requires FilledFrom(env, balances, calls, j, k, p) && GeneratedFor(env, p, secrets) && InWords(calls[k])
    ensures FillAt(env, balances, calls, k).hashlock == calls[k].hashlock
    ensures InShape(env.keccak, secrets, calls[k].hashlock, calls[k].merkleProof)
    ensures Accepts(env.keccak, secrets, calls[k].hashlock, calls[k].fillIndex, calls[k].merkleProof)
  {
    FillTermsIff(env, balances, calls, j, k, p);
    hide Run, Accepted, Climb, FillAt, GeneratedRoot;
  }

  /** In every run a fill is under the secret of its own index exactly when its proof is as long as the tree is deep. */
  lemma {:induction false} FillUnderOwnSecretIff(env: Env, balances: Balances, calls: seq<Call>, j: int, k: int,
                                                 p: PartialFillParams, secrets: seq<Bytes>)
    requires FilledFrom(env, balances, calls, j, k, p) && GeneratedFor(env, p, secrets) && InWords(calls[k])
    requires calls[k].fillIndex < |secrets|
    ensures (FillAt(env, balances, calls, k).hashlock == env.keccak(secrets[calls[k].fillIndex])
             <==> |calls[k].merkleProof| == Depth(|secrets|))
            || Collides(env.keccak, HashedFor(env, secrets, calls[k]))
  {
    FillWasAccepted(env, balances, calls, j, k, p, secrets);
    hide Run, Accepted, FillAt, Collides, Hashed;
    OwnSecretIffFullLengthWords(env.keccak, secrets, calls[k].hashlock, calls[k].fillIndex, calls[k].merkleProof);
  }

  /** In every run a fill is under one of the order's secrets exactly when its proof has the length of a leaf's at its index. */
  lemma {:induction false} FillUnderSomeSecretIff(env: Env, balances: Balances, calls: seq<Call>, j: int, k: int,
                                                  p: PartialFillParams, secrets: seq<Bytes>)
    requires FilledFrom(env, balances, calls, j, k, p) && GeneratedFor(env, p, secrets) && InWords(calls[k])
    ensures (FillAt(env, balances, calls, k).hashlock in Leaves(env.keccak, secrets)
             <==> exists m :: LeafLength(|secrets|, calls[k].fillIndex, |calls[k].merkleProof|, m))
            || Collides(env.keccak, HashedFor(env, secrets, calls[k]))
  {
    FillWasAccepted(env, balances, calls, j, k, p, secrets);
    hide Run, Accepted, FillAt, Collides, Hashed;
    AcceptedIsSecretIffWords(env.keccak, secrets, calls[k].hashlock, calls[k].fillIndex, calls[k].merkleProof);
  }

  /** Such an order can be filled at every index with the root itself as hashlock. */
  lemma {:induction false} FilledByRoot(env: Env, p: PartialFillParams, secrets: seq<Bytes>, created: nat, caller: Address,
                                        filled: nat, index: nat)
    returns (balances: Balances, calls: seq<Call>)
    requires GeneratedFor(env, p, secrets) && Fillable(env, p, created) && caller != env.self && index < p.numFills
    requires |secrets| > 1
    ensures FilledFrom(env, balances, calls, 0, 1, p) && calls[1].fillIndex == index
    ensures calls[1].hashlock !in Leaves(env.keccak, secrets) || Collides(env.keccak, HashedFor(env, secrets, calls[1]))
  {
    RootIsWord(env.keccak, secrets);
    RootFillsEveryIndex(env.keccak, secrets, index);
    balances, calls := FilledRegardless(env, p, created, caller, filled, index, p.merkleRoot, []);
  }

  lemma {:induction false} RootIsWord(keccak: Bytes -> Bytes, secrets: seq<Bytes>)
    requires |secrets| > 0 && HashesToWords(keccak)
    ensures Word(GeneratedRoot(keccak, secrets))
  {
    hide RootTerm, Eval;
    RootTermEvaluates(keccak, secrets);
    EvalIsWord(keccak, secrets, RootTerm(|secrets|));
  }

  /** And at every index that is never promoted with its own secret's hash and the generated proof. */
  lemma {:induction false} FilledBySecret(env: Env, p: PartialFillParams, secrets: seq<Bytes>, created: nat, caller: Address,
                                          filled: nat, index: nat)
    returns (balances: Balances, calls: seq<Call>)
    requires GeneratedFor(env, p, secrets) && Fillable(env, p, created) && caller != env.self && index < p.numFills
    requires index < |secrets| && !Promoted(|secrets|, index)
    ensures FilledFrom(env, balances, calls, 0, 1, p) && calls[1].fillIndex == index
    ensures calls[1].hashlock == env.keccak(secrets[index])
    ensures calls[1].merkleProof == AuditPath(PairHash(env.keccak), Leaves(env.keccak, secrets), index)
  {
    var h, leaves := PairHash(env.keccak), Leaves(env.keccak, secrets);
    TurnsBelowIndex(|secrets|, index);
    AcceptedAtItsTurns(h, leaves, index);
    SiblingPathIsAuditPath(h, leaves, index);
    hide Climb, Root, AuditPath, SiblingPath, Promoted, Turns;
    balances, calls :=
      FilledRegardless(env, p, created, caller, filled, index, env.keccak(secrets[index]), AuditPath(h, leaves, index));
  }

  /** A part at an index that is never promoted, with its own secret's hash and the generated proof. */
  ghost predicate UnderOwnSecret(env: Env, secrets: seq<Bytes>, p: Part) {
    && p.index < |secrets| && !Promoted(|secrets|, p.index)
    && p.hashlock == env.keccak(secrets[p.index])
    && p.proof == AuditPath(PairHash(env.keccak), Leaves(env.keccak, secrets), p.index)
  }

  lemma {:induction false} OwnSecretProves(env: Env, secrets: seq<Bytes>, p: Part)
    requires UnderOwnSecret(env, secrets, p)
    ensures Climb(PairHash(env.keccak), p.hashlock, p.index, p.proof) == GeneratedRoot(env.keccak, secrets)
  {
    var h, leaves := PairHash(env.keccak), Leaves(env.keccak, secrets);
    TurnsBelowIndex(|secrets|, p.index);
    AcceptedAtItsTurns(h, leaves, p.index);
    SiblingPathIsAuditPath(h, leaves, p.index);
    hide Climb, Root, AuditPath, SiblingPath, Promoted, Turns;
  }

  /**
   After any run, parts under their own secrets, submitted in any sequence, are all accepted exactly when together they fit
   in what is left of the order: several resolvers share an order that none of them fills alone.
   */
  lemma {:induction false} SharedUnderOwnSecrets(env: Env, balances: Balances, before: seq<Call>, o: Bytes,
                                                 secrets: seq<Bytes>, parts: seq<Part>)
    requires var st := Run(env, Deployed(balances), before);
      Payable(env, st, o, parts) && |secrets| > 0 && st.partialFillOrders[o].merkleRoot == GeneratedRoot(env.keccak, secrets)
    requires forall k :: 0 <= k < |parts| ==> UnderOwnSecret(env, secrets, parts[k])
    ensures var st := Run(env, Deployed(balances), before);
      var order, calls := st.partialFillOrders[o], FillCalls(o, parts);
      && (AllAccepted(env, st, calls) <==> Amounts(parts) <= order.totalAmount - order.filledAmount)
      && (AllAccepted(env, st, calls) ==> After(env, st, o, parts, Run(env, st, calls)))
  {
    var st := Run(env, Deployed(balances), before);
    hide Run, UnderOwnSecret, Climb, GeneratedRoot, After, AllAccepted, Amounts, SentBy, PartFree, BalanceOf;
    forall k | 0 <= k < |parts|
      ensures PartProved(env, st, o, parts[k])
    {
      OwnSecretProves(env, secrets, parts[k]);
    }
    FilledInPartsIff(env, balances, before, o, parts);
  }

  // ---------- Who can open a fill ----------

  lemma {:induction false} RunSplit(env: Env, st: State, calls: seq<Call>, k: nat)
    requires k <= |calls|
    ensures Run(env, st, calls) == Run(env, Run(env, st, calls[..k]), calls[k..])
    decreases |calls| - k
  {
    hide Apply;
    if k == |calls| {
      assert calls[..k] == calls && calls[k..] == [];
    } else {
      RunFront(env, Run(env, st, calls[..k]), calls[k..]);
      RunSplit(env, st, calls, k + 1);
      assert calls[..k + 1][..k] == calls[..k] && calls[k..][1..] == calls[k + 1..];
    }
  }

  lemma {:induction false} RunFront(env: Env, st: State, calls: seq<Call>)
    requires calls != []
    ensures Run(env, st, calls) == Run(env, Apply(env, st, calls[0]), calls[1..])
    decreases |calls|
  {
    hide Apply;
    if |calls| > 1 {
      var front := calls[..|calls| - 1];
      RunFront(env, st, front);
      assert front[1..] == calls[1..][..|calls[1..]| - 1];
    } else {
      assert calls[..0] == [] && calls[1..] == [];
    }
  }

  /** A fill's escrow keeps its hashlock through the rest of the run. */
  lemma {:induction false} FillKeepsHashlock(env: Env, balances: Balances, calls: seq<Call>, k: nat)
    requires k < |calls| && calls[k].CreateFillCall? && Accepted(env, Run(env, Deployed(balances), calls[..k]), calls[k])
    ensures var st, id := Run(env, Deployed(balances), calls), env.fillId(calls[k].baseOrderId, calls[k].fillIndex);
      id in st.escrows && st.escrows[id].hashlock == calls[k].hashlock
  {
    var before := Run(env, Deployed(balances), calls[..k]);
    CreateEffect(env, before, calls[k]);
    var id := env.fillId(calls[k].baseOrderId, calls[k].fillIndex);
    RunSplit(env, Deployed(balances), calls, k + 1);
    assert calls[..k + 1][..k] == calls[..k];
    var after := Run(env, Deployed(balances), calls[..k + 1]);
    assert after == Apply(env, before, calls[k]);
    hide Run, Apply, Accepted, Move, BalanceOf;
    TermsNeverChange(env, after, calls[k + 1..], id);
  }

  /**
   In every run, whatever came after the fill, a word that withdraws it is one of the order's secrets. So a fill under an
   inner node of the tree can only be refunded.
   */
  lemma {:induction false} OnlySecretsWithdrawFills(env: Env, balances: Balances, calls: seq<Call>, j: int, k: int,
                                                    p: PartialFillParams, secrets: seq<Bytes>, caller: Address, secret: Bytes)
    requires FilledFrom(env, balances, calls, j, k, p) && GeneratedFor(env, p, secrets) && InWords(calls[k]) && Word(secret)
    requires var id := env.fillId(calls[k].baseOrderId, calls[k].fillIndex);
      Accepted(env, Run(env, Deployed(balances), calls), WithdrawCall(caller, id, secret))
    ensures (secret in secrets && FillAt(env, balances, calls, k).hashlock in Leaves(env.keccak, secrets))
            || Collides(env.keccak, HashedFor(env, secrets, calls[k]) + {secret})
  {
    FillWasAccepted(env, balances, calls, j, k, p, secrets);
    FillKeepsHashlock(env, balances, calls, k);
    assert env.keccak(secret) == calls[k].hashlock;
    hide Run, Accepted, FillAt, Collides, Hashed;
    OpenedOnlyBySecrets(env.keccak, secrets, calls[k].hashlock, calls[k].fillIndex, calls[k].merkleProof, secret);
    if secret in secrets {
      var m :| 0 <= m < |secrets| && secrets[m] == secret;
      assert Leaves(env.keccak, secrets)[m] == calls[k].hashlock;
    }
  }
}
