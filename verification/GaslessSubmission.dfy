/**
 A gasless escrow from the page to the contract: the page builds and signs a message, hands its data to a resolver, and the
 resolver submits it. Text becomes typed values on the way into a signature and on the way into a call: bytes are
 read from hexadecimal, numbers from decimal, and addresses by `account`.
 */
module GaslessSubmission {
  import opened Bytes
  import opened Options
  import opened Ledger
  import opened TextEncoding
  import opened SignedMessages
  import opened GaslessEscrow
  import opened GaslessEscrowRuns
  import opened CallOutcomes
  import opened NonceProtocol

  /** A field of exactly 32 bytes. */
  function ReadWord(s: string): Option<Bytes> {
    match FromHex0x(s)
    case Some(bytes) => if |bytes| == 32 then Some(bytes) else None
    case None => None
  }

  /** The typed message that the wallet signs, if every field can be read. */
  function ReadMessage(account: string -> Address, m: MetaTxMessage): Option<Message> {
    match (ReadWord(m.escrowId), ReadWord(m.hashlock), ParseDecimal(m.amount))
    case (Some(id), Some(lock), Some(amount)) =>
      var p := MetaTxParams(id, account(m.depositor), account(m.beneficiary), Token(account(m.token)), amount, lock,
                            m.timelock, m.deadline);
      Some(CreateEscrowMessage(p, m.nonce))
    case _ => None
  }

  /** What the resolver submits for the data it was handed: always a whole escrow, without a safety deposit. */
  function Submission(account: string -> Address, recover: MetaTxSignature -> Signature, d: GaslessData,
                      caller: Address, allowed: bool, now: nat): Option<Call>
  {
    match (ReadWord(d.escrowId), ReadWord(d.hashlock), ParseDecimal(d.amount), ParseDecimal(d.timelock),
           ParseDecimal(d.deadline))
    case (Some(id), Some(lock), Some(amount), Some(timelock), Some(deadline)) =>
      var p := MetaTxParams(id, account(d.depositor), account(d.beneficiary), Token(account(d.token)), amount, lock,
                            timelock, deadline);
      Some(CreateEscrowCall(caller, 0, p, recover(d.signature), allowed, now))
    case _ => None
  }

  /** The parameters can be signed and submitted at all. */
  predicate Readable(p: GaslessEscrowParams) {
    |p.escrowId| == 32 && |p.hashlock| == 32 && ParseDecimal(p.amount).Some?
  }

  /** What the page means by its parameters. */
  function Meant(account: string -> Address, p: GaslessEscrowParams, deadline: nat): MetaTxParams
    requires Readable(p)
  {
    MetaTxParams(p.escrowId, account(p.depositor), account(p.beneficiary), Token(account(p.token)),
                 ParseDecimal(p.amount).value, p.hashlock, p.timelock, deadline)
  }

  lemma {:induction false} WordRoundTrip(bytes: Bytes)
    ensures ReadWord(ToHex0x(bytes)) == if |bytes| == 32 then Some(bytes) else None
  {
    Hex0xRoundTrip(bytes);
    hide ToHex0x, FromHex0x;
  }

  /** The message can be signed exactly when its parameters are readable, and then it says what they mean, for one hour. */
  lemma {:induction false} SignedAsMeant(account: string -> Address, p: GaslessEscrowParams, nonce: nat, now: nat)
    ensures ReadMessage(account, BuildMetaTxMessage(p, nonce, now)) ==
      if Readable(p) then Some(CreateEscrowMessage(Meant(account, p, now + 3600), nonce)) else None
  {
    WordRoundTrip(p.escrowId);
    WordRoundTrip(p.hashlock);
    hide ReadWord, ToHex0x, ParseDecimal;
  }

  /** The resolver can submit exactly when the parameters are readable, and then it submits what they mean. */
  lemma {:induction false} SubmittedAsMeant(account: string -> Address, recover: MetaTxSignature -> Signature,
                                            p: GaslessEscrowParams, signature: MetaTxSignature, deadline: nat,
                                            caller: Address, allowed: bool, now: nat)
    ensures Submission(account, recover, PrepareGaslessEscrowData(p, signature, deadline), caller, allowed, now) ==
      if Readable(p) then Some(CreateEscrowCall(caller, 0, Meant(account, p, deadline), recover(signature), allowed, now))
      else None
  {
    WordRoundTrip(p.escrowId);
    WordRoundTrip(p.hashlock);
    DecimalRoundTrip(p.timelock);
    DecimalRoundTrip(deadline);
    hide ReadWord, ToHex0x, ParseDecimal, ToDecimal;
  }

  /** The wallet of the depositor has signed the message built at `now` with the nonce that the contract has in `st`. */
  ghost predicate SignedAt(account: string -> Address, recover: MetaTxSignature -> Signature, st: State,
                           p: GaslessEscrowParams, signature: MetaTxSignature, now: nat)
  {
    var depositor := account(p.depositor);
    var message := ReadMessage(account, BuildMetaTxMessage(p, NonceOf(st.nonces, depositor), now));
    message.Some? && recover(signature) == Signature(depositor, message.value)
  }

  /**
   Built at `now` with the nonce read in `st`, signed, and submitted at `t` after other transactions, an escrow is accepted
   exactly when it is submitted within the hour and before its timelock, the depositor had no other message accepted
   in between, the amount is positive and can be taken, and the escrow id is still free.
   */
  lemma {:induction false} AcceptedIffWithinTheHour(env: Env, st: State, between: seq<Call>, account: string -> Address,
                                                    recover: MetaTxSignature -> Signature, p: GaslessEscrowParams,
                                                    signature: MetaTxSignature, now: nat, caller: Address, allowed: bool,
                                                    t: nat)
    requires SignedAt(account, recover, st, p, signature, now)
    ensures Readable(p)
    ensures var depositor, amount, token := account(p.depositor), ParseDecimal(p.amount).value, Token(account(p.token));
      var deadline := BuildMetaTxMessage(p, NonceOf(st.nonces, depositor), now).deadline;
      var data, later := PrepareGaslessEscrowData(p, signature, deadline), Run(env, st, between);
      var call := Submission(account, recover, data, caller, allowed, t);
      && call.Some?
      && (Accepted(env, later, call.value) <==>
            && t <= now + 3600 && t < p.timelock && AcceptedBy(env, st, between, depositor) == 0
            && amount > 0 && allowed && BalanceOf(later.balances, token, depositor) >= amount
            && p.escrowId !in later.escrows && depositor != 0 && depositor != env.self && caller != env.self)
  {
    var depositor := account(p.depositor);
    var nonce, later := NonceOf(st.nonces, depositor), Run(env, st, between);
    SignedAsMeant(account, p, nonce, now);
    SubmittedAsMeant(account, recover, p, signature, now + 3600, caller, allowed, t);
    NonceCounts(env, st, between, depositor);
    hide ReadMessage, Submission, ParseDecimal, Run, Accepted, NonceOf, AcceptedBy, PrepareGaslessEscrowData, BalanceOf;
    CreationAcceptedIff(env, later, CreateEscrowCall(caller, 0, Meant(account, p, now + 3600), recover(signature), allowed, t));
  }

  /** The escrow then stored is the one the page meant. */
  lemma {:induction false} StoredAsMeant(env: Env, st: State, account: string -> Address,
                                         recover: MetaTxSignature -> Signature, p: GaslessEscrowParams,
                                         signature: MetaTxSignature, deadline: nat, caller: Address, allowed: bool, t: nat)
    requires var call := Submission(account, recover, PrepareGaslessEscrowData(p, signature, deadline), caller, allowed, t);
      call.Some? && Accepted(env, st, call.value)
    ensures Readable(p)
    ensures var call := Submission(account, recover, PrepareGaslessEscrowData(p, signature, deadline), caller, allowed, t);
      Apply(env, st, call.value).escrows == st.escrows[p.escrowId :=
        Escrow(account(p.depositor), account(p.beneficiary), Token(account(p.token)), ParseDecimal(p.amount).value,
               p.hashlock, p.timelock, false, false, 0)]
  {
    SubmittedAsMeant(account, recover, p, signature, deadline, caller, allowed, t);
    hide Submission, ParseDecimal, Accepted, Apply, PrepareGaslessEscrowData, Move, BalanceOf;
    CreateEffect(env, st, CreateEscrowCall(caller, 0, Meant(account, p, deadline), recover(signature), allowed, t));
  }
}
