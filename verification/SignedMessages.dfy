/**
 The two messages users sign: the typed escrow message for the Ethereum contract, and the text permit for
 the Aptos module.
 */
module SignedMessages {
  import opened Bytes
  import opened Options
  import opened TextEncoding

  // ---------- The escrow message and the data handed to the resolver ----------

  datatype GaslessEscrowParams = GaslessEscrowParams(
    escrowId: Bytes,
    depositor: string,
    beneficiary: string,
    token: string,
    amount: string,
    hashlock: Bytes,
    timelock: nat)

  datatype MetaTxMessage = MetaTxMessage(
    escrowId: string,
    depositor: string,
    beneficiary: string,
    token: string,
    amount: string,
    hashlock: string,
    timelock: nat,
    nonce: nat,
    deadline: nat)

  datatype MetaTxSignature = MetaTxSignature(v: nat, r: string, s: string)

  datatype GaslessData = GaslessData(
    escrowId: string,
    depositor: string,
    beneficiary: string,
    token: string,
    amount: string,
    hashlock: string,
    timelock: string,
    deadline: string,
    signature: MetaTxSignature)

  function ToHex0x(bytes: Bytes): string {
    "0x" + ToHex(bytes)
  }

  function FromHex0x(s: string): Option<Bytes> {
    if |s| >= 2 && s[..2] == "0x" then FromHex(s[2..]) else None
  }

  /** The message signed at `now` with the nonce just read. */
  function BuildMetaTxMessage(p: GaslessEscrowParams, nonce: nat, now: nat): MetaTxMessage {
    MetaTxMessage(ToHex0x(p.escrowId), p.depositor, p.beneficiary, p.token, p.amount, ToHex0x(p.hashlock),
                  p.timelock, nonce, now + 3600)
  }

  function PrepareGaslessEscrowData(p: GaslessEscrowParams, signature: MetaTxSignature, deadline: nat): GaslessData {
    GaslessData(ToHex0x(p.escrowId), p.depositor, p.beneficiary, p.token, p.amount, ToHex0x(p.hashlock),
                ToDecimal(p.timelock), ToDecimal(deadline), signature)
  }

  /** What a receiver reads out of the data: the byte strings and numbers decoded. */
  function ReadParams(d: GaslessData): Option<(GaslessEscrowParams, nat)> {
    match (FromHex0x(d.escrowId), FromHex0x(d.hashlock), ParseDecimal(d.timelock), ParseDecimal(d.deadline))
    case (Some(id), Some(lock), Some(timelock), Some(deadline)) =>
      Some((GaslessEscrowParams(id, d.depositor, d.beneficiary, d.token, d.amount, lock, timelock), deadline))
    case _ => None
  }

  /** The message a receiver rebuilds, with the nonce it finds, in order to check the signature. */
  function RebuildMessage(d: GaslessData, nonce: nat): Option<MetaTxMessage> {
    match ReadParams(d)
    case Some((p, deadline)) =>
      Some(MetaTxMessage(ToHex0x(p.escrowId), p.depositor, p.beneficiary, p.token, p.amount, ToHex0x(p.hashlock),
                         p.timelock, nonce, deadline))
    case None => None
  }

  lemma {:induction false} Hex0xRoundTrip(bytes: Bytes)
    ensures FromHex0x(ToHex0x(bytes)) == Some(bytes)
    ensures |ToHex0x(bytes)| == 2 + 2 * |bytes| && ToHex0x(bytes)[..2] == "0x"
  {
    HexRoundTrip(bytes);
    assert ToHex0x(bytes)[2..] == ToHex(bytes) && ToHex0x(bytes)[..2] == "0x";
  }

  /** The data gives the parameters back, whatever bytes and numbers they hold. */
  lemma {:induction false} DataRoundTrip(p: GaslessEscrowParams, signature: MetaTxSignature, deadline: nat)
    ensures ReadParams(PrepareGaslessEscrowData(p, signature, deadline)) == Some((p, deadline))
  {
    hide ToHex0x, FromHex0x, ToDecimal, ParseDecimal;
    Hex0xRoundTrip(p.escrowId);
    Hex0xRoundTrip(p.hashlock);
    DecimalRoundTrip(p.timelock);
    DecimalRoundTrip(deadline);
  }

  /** The rebuilt message is the signed one exactly when the nonce found is the nonce read at signing. */
  lemma {:induction false} RebuiltMessageIff(p: GaslessEscrowParams, signature: MetaTxSignature, nonce: nat,
                                             found: nat, now: nat)
    ensures var message := BuildMetaTxMessage(p, nonce, now);
      RebuildMessage(PrepareGaslessEscrowData(p, signature, message.deadline), found) == Some(message) <==> found == nonce
  {
    hide ToHex0x, ToDecimal, ReadParams;
    DataRoundTrip(p, signature, now + 3600);
  }

  /** Different parameters, nonces or signing times never share a message. */
  lemma {:induction false} MessageInjective(p: GaslessEscrowParams, n: nat, t: nat, q: GaslessEscrowParams, m: nat, u: nat)
    requires BuildMetaTxMessage(p, n, t) == BuildMetaTxMessage(q, m, u)
    ensures p == q && n == m && t == u
  {
    hide ToHex0x, FromHex0x;
    Hex0xRoundTrip(p.escrowId);
    Hex0xRoundTrip(q.escrowId);
    Hex0xRoundTrip(p.hashlock);
    Hex0xRoundTrip(q.hashlock);
  }

  // ---------- The text permit ----------

  datatype EscrowPermitParams = EscrowPermitParams(
    escrowId: Bytes,
    amount: string,
    beneficiary: string,
    hashlock: Bytes,
    timelock: string,
    nonce: string,
    expiry: string)

  const PERMIT_TAG := "APTOS_ESCROW_PERMIT"

  function PermitParts(p: EscrowPermitParams): (parts: seq<string>)
    ensures |parts| == 8
  {
    [PERMIT_TAG, ToHex(p.escrowId), p.amount, p.beneficiary, ToHex(p.hashlock), p.timelock, p.nonce, p.expiry]
  }

  function GeneratePermitMessage(p: EscrowPermitParams): string {
    Join(PermitParts(p))
  }

  /** Reading a permit back: eight parts, the tag, and two hexadecimal fields. */
  function ParsePermit(message: string): Option<EscrowPermitParams> {
    var parts := Split(message);
    if |parts| != 8 || parts[0] != PERMIT_TAG then None
    else
      match (FromHex(parts[1]), FromHex(parts[4]))
      case (Some(id), Some(lock)) => Some(EscrowPermitParams(id, parts[2], parts[3], lock, parts[5], parts[6], parts[7]))
      case _ => None
  }

  /** No textual field contains the separator. */
  predicate ColonFree(p: EscrowPermitParams) {
    ':' !in p.amount && ':' !in p.beneficiary && ':' !in p.timelock && ':' !in p.nonce && ':' !in p.expiry
  }

  lemma {:induction false} PartsColonFreeIff(p: EscrowPermitParams)
    ensures (forall i :: 0 <= i < 8 ==> ':' !in PermitParts(p)[i]) <==> ColonFree(p)
  {
    HexRoundTrip(p.escrowId);
    HexRoundTrip(p.hashlock);
    hide ToHex, FromHex;
    var parts := PermitParts(p);
    assert ':' !in PERMIT_TAG;
    if forall i :: 0 <= i < 8 ==> ':' !in parts[i] {
      assert ':' !in parts[2] && ':' !in parts[3] && ':' !in parts[5] && ':' !in parts[6] && ':' !in parts[7];
    }
  }

  /** A permit can be read back from its message exactly when no textual field contains a colon. */
  lemma {:induction false} PermitRoundTripIff(p: EscrowPermitParams)
    ensures ParsePermit(GeneratePermitMessage(p)) == Some(p) <==> ColonFree(p)
  {
    PartsColonFreeIff(p);
    SplitJoinIff(PermitParts(p));
    HexRoundTrip(p.escrowId);
    HexRoundTrip(p.hashlock);
    hide Split, Join, ToHex, FromHex, ColonFree;
  }

  /** A permit free of colons shares its signed message with no other permit, whatever the other one holds. */
  lemma {:induction false} PermitMessageInjective(p: EscrowPermitParams, q: EscrowPermitParams)
    requires ColonFree(p) && GeneratePermitMessage(p) == GeneratePermitMessage(q)
    ensures p == q
  {
    PartsColonFreeIff(p);
    PartsColonFreeIff(q);
    SplitJoinIff(PermitParts(p));
    SplitJoinIff(PermitParts(q));
    PermitRoundTripIff(p);
    PermitRoundTripIff(q);
    hide Split, Join, ParsePermit, ColonFree;
  }

  /** No other permit has the message of this one. */
  ghost predicate OnlyPermitWithItsMessage(p: EscrowPermitParams) {
    forall q :: GeneratePermitMessage(q) == GeneratePermitMessage(p) ==> q == p
  }

  /** A signed message stands for one permit exactly when no textual field of that permit contains a colon. */
  lemma {:induction false} OnlyPermitIff(p: EscrowPermitParams)
    ensures OnlyPermitWithItsMessage(p) <==> ColonFree(p)
  {
    if ColonFree(p) {
      forall q | GeneratePermitMessage(q) == GeneratePermitMessage(p)
        ensures q == p
      {
        PermitMessageInjective(p, q);
      }
    } else {
      hide GeneratePermitMessage;
      var q := OtherPermit(p);
    }
  }

  /** Moving a colon across a field boundary gives another permit with the same message. */
  lemma {:induction false} OtherPermit(p: EscrowPermitParams) returns (q: EscrowPermitParams)
    requires !ColonFree(p)
    ensures q != p && GeneratePermitMessage(q) == GeneratePermitMessage(p)
  {
    hide GeneratePermitMessage, ToHex;
    if ':' in p.amount {
      var x, y := CutAtColon(p.amount);
      q := p.(amount := x, beneficiary := y + ":" + p.beneficiary);
      Regroup(x, y, p.beneficiary);
    } else if ':' in p.beneficiary {
      var x, y := CutAtColon(p.beneficiary);
      q := p.(amount := p.amount + ":" + x, beneficiary := y);
      Regroup(p.amount, x, y);
    } else if ':' in p.timelock {
      var x, y := CutAtColon(p.timelock);
      q := p.(timelock := x, nonce := y + ":" + p.nonce);
      Regroup(x, y, p.nonce);
    } else if ':' in p.nonce {
      var x, y := CutAtColon(p.nonce);
      q := p.(timelock := p.timelock + ":" + x, nonce := y);
      Regroup(p.timelock, x, y);
    } else {
      var x, y := CutAtColon(p.expiry);
      q := p.(nonce := p.nonce + ":" + x, expiry := y);
      Regroup(p.nonce, x, y);
    }
    MessageText(p);
    MessageText(q);
  }

  /** The whole message, field by field. */
  lemma {:induction false} PermitMessageIs(p: EscrowPermitParams)
    ensures GeneratePermitMessage(p) ==
      "APTOS_ESCROW_PERMIT" + ":" + ToHex(p.escrowId) + ":" + (p.amount + ":" + p.beneficiary) + ":" + ToHex(p.hashlock)
      + ":" + p.timelock + ":" + (p.nonce + ":" + p.expiry)
  {
    hide ToHex, GeneratePermitMessage;
    MessageText(p);
  }

  /** The message with its middle and last fields grouped in two ways. */
  lemma {:induction false} MessageText(p: EscrowPermitParams)
    ensures GeneratePermitMessage(p) ==
      PERMIT_TAG + ":" + ToHex(p.escrowId) + ":" + (p.amount + ":" + p.beneficiary) + ":" + ToHex(p.hashlock) + ":"
      + (p.timelock + ":" + p.nonce) + ":" + p.expiry
    ensures GeneratePermitMessage(p) ==
      PERMIT_TAG + ":" + ToHex(p.escrowId) + ":" + (p.amount + ":" + p.beneficiary) + ":" + ToHex(p.hashlock) + ":"
      + p.timelock + ":" + (p.nonce + ":" + p.expiry)
  {
    hide ToHex;
    var parts := PermitParts(p);
    JoinFour(parts);
    var tail := parts[4..];
    assert tail[1..][1..] == parts[6..] && tail[1..] == parts[5..] && parts[6..][1..] == [p.expiry];
    assert Join(parts[6..]) == p.nonce + ":" + p.expiry;
    assert Join(parts[5..]) == p.timelock + ":" + (p.nonce + ":" + p.expiry);
    assert Join(tail) == ToHex(p.hashlock) + ":" + Join(parts[5..]);
  }

  lemma {:induction false} CutAtColon(s: string) returns (x: string, y: string)
    requires ':' in s
    ensures s == x + ":" + y && |x| < |s| && |y| < |s|
  {
    var i :| 0 <= i < |s| && s[i] == ':';
    x, y := s[..i], s[i + 1..];
  }

  lemma {:induction false} Regroup(x: string, y: string, z: string)
    ensures (x + ":" + y) + ":" + z == x + ":" + (y + ":" + z)
  {
  }

  /** With a colon inside a field, two different permits do share one. */
  lemma {:induction false} ColonsMakePermitsCollide()
    ensures var p := EscrowPermitParams([], "1:2", "3", [], "4", "5", "6");
      var q := EscrowPermitParams([], "1", "2:3", [], "4", "5", "6");
      p != q && GeneratePermitMessage(p) == GeneratePermitMessage(q)
  {
    var p := EscrowPermitParams([], "1:2", "3", [], "4", "5", "6");
    var q := EscrowPermitParams([], "1", "2:3", [], "4", "5", "6");
    assert p.amount[1..] != q.amount[1..];
    var tail := PermitParts(p)[4..];
    assert tail == PermitParts(q)[4..];
    JoinFour(PermitParts(p));
    JoinFour(PermitParts(q));
    assert "1:2" + ":" + ("3" + ":" + Join(tail)) == "1" + ":" + ("2:3" + ":" + Join(tail));
  }

  lemma {:induction false} JoinFour(parts: seq<string>)
    requires |parts| == 8
    ensures Join(parts) ==
      parts[0] + ":" + (parts[1] + ":" + (parts[2] + ":" + (parts[3] + ":" + Join(parts[4..]))))
  {
    assert parts[1..][1..] == parts[2..] && parts[2..][1..] == parts[3..] && parts[3..][1..] == parts[4..];
    assert Join(parts) == parts[0] + ":" + Join(parts[1..]);
    assert Join(parts[1..]) == parts[1] + ":" + Join(parts[2..]);
    assert Join(parts[2..]) == parts[2] + ":" + Join(parts[3..]);
    assert Join(parts[3..]) == parts[3] + ":" + Join(parts[4..]);
  }
}
