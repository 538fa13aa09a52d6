/**
 A cross-chain swap: a source escrow that pays the resolver and a destination escrow that pays the user,
 under one hashlock. The secret is the user's.

 Both chains' escrow contracts follow the same two rules: an open escrow is withdrawn by presenting a
 secret, at any time, and refunded by anyone once its timelock has passed. They differ in what they
 demand of a secret: the Ethereum contracts hash it, the Aptos module only measures it.
 */
module AtomicSwap {
  import opened Bytes
  import opened Options

  datatype Status = Open | Withdrawn(at: nat) | Refunded(at: nat)

  datatype Side = Source | Destination

  datatype SecretRule = HashChecked | LengthChecked

  /** What is fixed once both escrows exist, from time `created` on. The destination comes first, then the source. */
  datatype Swap = Swap(
    created: nat,
    keccak: Bytes -> Bytes,
    secret: Bytes,
    hashlock: Bytes,
    sourceRule: SecretRule,
    destinationRule: SecretRule,
    sourceTimelock: nat,
    destinationTimelock: nat)
  {
    function Timelock(side: Side): nat {
      if side == Source then sourceTimelock else destinationTimelock
    }

    /** What the contract on one side demands of a presented secret. */
    predicate Opens(side: Side, presented: Bytes) {
      match if side == Source then sourceRule else destinationRule
      case HashChecked => keccak(presented) == hashlock
      case LengthChecked => |presented| == 32
    }
  }

  /** `revealed` is the time at which the user first gave the secret away, by message or on a chain. */
  datatype World = World(clock: nat, source: Status, destination: Status, revealed: Option<nat>)
  {
    function Get(side: Side): Status {
      if side == Source then source else destination
    }

    function Set(side: Side, status: Status): World {
      if side == Source then this.(source := status) else this.(destination := status)
    }

    function Reveal(): World {
      this.(revealed := if revealed.Some? then revealed else Some(clock))
    }
  }

  /** Waiting moves the clock; revealing sends the secret to the resolver; the rest are transactions. */
  datatype Action =
    | Wait(until: nat)
    | Reveal
    | Withdraw(side: Side, byUser: bool, presented: Bytes)
    | Refund(side: Side)

  /** Nobody but the user can present a preimage of the hashlock before the user has given it away. */
  predicate CanPresent(sw: Swap, w: World, byUser: bool, presented: Bytes) {
    byUser || w.revealed.Some? || sw.keccak(presented) != sw.hashlock
  }

  predicate Enabled(sw: Swap, w: World, a: Action) {
    match a
    case Wait(until) => w.clock <= until
    case Reveal => true
    case Withdraw(side, byUser, presented) =>
      w.Get(side).Open? && sw.Opens(side, presented) && CanPresent(sw, w, byUser, presented)
    case Refund(side) => w.Get(side).Open? && w.clock >= sw.Timelock(side)
  }

  /** A withdrawal publishes the presented secret. A disabled action changes nothing. */
  function Step(sw: Swap, w: World, a: Action): World {
    if !Enabled(sw, w, a) then w
    else match a
      case Wait(until) => w.(clock := until)
      case Reveal => w.Reveal()
      case Withdraw(side, _, presented) =>
        var w' := if sw.keccak(presented) == sw.hashlock then w.Reveal() else w;
        w'.Set(side, Withdrawn(w.clock))
      case Refund(side) => w.Set(side, Refunded(w.clock))
  }

  function Run(sw: Swap, w: World, actions: seq<Action>): World {
    if actions == [] then w else Step(sw, Run(sw, w, actions[..|actions| - 1]), actions[|actions| - 1])
  }

  /** Both escrows have just been created, at a time before either timelock. */
  ghost predicate Start(sw: Swap, w: World) {
    && w.source.Open? && w.destination.Open? && w.revealed.None? && w.clock == sw.created
    && w.clock < sw.destinationTimelock && w.clock < sw.sourceTimelock
    && sw.hashlock == sw.keccak(sw.secret) && |sw.secret| == 32
  }

  // ---------- What holds in every run ----------

  ghost predicate Times(sw: Swap, w: World) {
    && (w.source.Refunded? ==> sw.sourceTimelock <= w.source.at <= w.clock)
    && (w.destination.Refunded? ==> sw.destinationTimelock <= w.destination.at <= w.clock)
    && (w.source.Withdrawn? ==> w.source.at <= w.clock)
    && (w.destination.Withdrawn? ==> w.destination.at <= w.clock)
    && (w.revealed.Some? ==> w.revealed.value <= w.clock)
    && (w.source.Withdrawn? && sw.sourceRule.HashChecked? ==> w.revealed.Some? && w.revealed.value <= w.source.at)
    && (w.destination.Withdrawn? && sw.destinationRule.HashChecked? ==>
          w.revealed.Some? && w.revealed.value <= w.destination.at)
  }

  lemma {:induction false} StepTimes(sw: Swap, w: World, a: Action)
    requires Times(sw, w)
    ensures Times(sw, Step(sw, w, a)) && w.clock <= Step(sw, w, a).clock
  {
  }

  lemma {:induction false} RunTimes(sw: Swap, w: World, actions: seq<Action>)
    requires Times(sw, w)
    ensures Times(sw, Run(sw, w, actions)) && w.clock <= Run(sw, w, actions).clock
    decreases |actions|
  {
    if actions != [] {
      RunTimes(sw, w, actions[..|actions| - 1]);
      StepTimes(sw, Run(sw, w, actions[..|actions| - 1]), actions[|actions| - 1]);
    }
  }

  /** A closed escrow stays as it was closed, whatever happens next. */
  lemma {:induction false} ClosedStaysClosed(sw: Swap, w: World, actions: seq<Action>, side: Side)
    requires !w.Get(side).Open?
    ensures Run(sw, w, actions).Get(side) == w.Get(side)
    decreases |actions|
  {
    if actions != [] {
      ClosedStaysClosed(sw, w, actions[..|actions| - 1], side);
    }
  }

  /**
   A source timelock one `margin` after the destination's: if the user is paid on the destination before its
   timelock, then through `margin` seconds later the source has not been refunded, and while it is open the
   resolver can claim it with the published secret.
   */
  lemma {:induction false} SourceOutlivesDestination(sw: Swap, w: World, actions: seq<Action>, margin: nat, presented: Bytes)
    requires Start(sw, w) && sw.sourceTimelock == sw.destinationTimelock + margin
    requires sw.sourceRule.HashChecked? && sw.destinationRule.HashChecked? && sw.keccak(presented) == sw.hashlock
    ensures var end := Run(sw, w, actions);
      end.destination.Withdrawn? && end.destination.at < sw.destinationTimelock
      && end.clock <= end.destination.at + margin ==>
        && !end.source.Refunded?
        && (end.source.Open? ==> Enabled(sw, end, Withdraw(Source, false, presented)))
  {
    RunTimes(sw, w, actions);
  }

  // ---------- Claiming the source ----------

  /** Thirty-two bytes that are not a preimage, for a module that does not look closer. */
  ghost predicate Garbage(sw: Swap, bytes: Bytes) {
    |bytes| == 32 && sw.keccak(bytes) != sw.hashlock
  }

  /** The resolver has something to claim the source with. */
  predicate CanClaim(sw: Swap, w: World) {
    w.revealed.Some? || sw.sourceRule.LengthChecked?
  }

  /** That is so exactly when some secret that the resolver can present would open the source. */
  lemma {:induction false} CanClaimIff(sw: Swap, start: World, actions: seq<Action>, garbage: Bytes)
    requires Start(sw, start) && Garbage(sw, garbage)
    ensures var w := Run(sw, start, actions);
      w.source.Open? ==>
        (CanClaim(sw, w) <==> exists presented :: Enabled(sw, w, Withdraw(Source, false, presented)))
  {
    var w := Run(sw, start, actions);
    if w.source.Open? && CanClaim(sw, w) {
      assert Enabled(sw, w, Withdraw(Source, false, if w.revealed.Some? then sw.secret else garbage));
    }
  }

  // ---------- The resolver ----------

  /** Since when the resolver could claim the source: from the start, or since the secret was given away. */
  function ClaimableSince(sw: Swap, w: World): nat
    requires CanClaim(sw, w)
  {
    if sw.sourceRule.LengthChecked? then sw.created else w.revealed.value
  }

  /**
   A resolver that refunds the destination no later than `refundDelay` after its timelock, and claims the source no
   later than `claimDelay` after that became possible, whatever the state of the destination, does not let time pass
   otherwise. It waits for nothing that it cannot do.
   */
  predicate ResolverAllows(sw: Swap, refundDelay: nat, claimDelay: nat, w: World, a: Action) {
    a.Wait? ==>
      && (w.destination.Open? ==> a.until <= sw.destinationTimelock + refundDelay)
      && (w.source.Open? && CanClaim(sw, w) ==> a.until <= ClaimableSince(sw, w) + claimDelay)
  }

  ghost predicate ResolverRun(sw: Swap, refundDelay: nat, claimDelay: nat, w: World, actions: seq<Action>) {
    forall k :: 0 <= k < |actions| ==>
      ResolverAllows(sw, refundDelay, claimDelay, Run(sw, w, actions[..k]), actions[k])
  }

  /** The user has been paid on the destination and has the source back as well. */
  predicate ResolverLoses(w: World) {
    w.destination.Withdrawn? && w.source.Refunded?
  }

  ghost predicate ResolverSafe(sw: Swap, refundDelay: nat, claimDelay: nat, w: World) {
    forall actions :: ResolverRun(sw, refundDelay, claimDelay, w, actions) ==> !ResolverLoses(Run(sw, w, actions))
  }

  /**
   The condition for it. A source that only measures the secret can be claimed at once, so the claim must come before
   its timelock. Otherwise the destination must hash the secret, so that whoever withdraws it publishes the secret, and
   both delays must fit strictly between the timelocks.
   */
  predicate ResolverCondition(sw: Swap, refundDelay: nat, claimDelay: nat) {
    if sw.sourceRule.LengthChecked? then sw.created + claimDelay < sw.sourceTimelock
    else sw.destinationRule.HashChecked? && sw.destinationTimelock + refundDelay + claimDelay < sw.sourceTimelock
  }

  /** What a prompt resolver maintains. */
  ghost predicate ResolverInvariant(sw: Swap, refundDelay: nat, claimDelay: nat, w: World) {
    && Times(sw, w)
    && (w.destination.Open? ==> w.clock <= sw.destinationTimelock + refundDelay)
    && (w.destination.Withdrawn? ==> w.destination.at <= sw.destinationTimelock + refundDelay)
    && (w.source.Open? && CanClaim(sw, w) ==> w.clock <= ClaimableSince(sw, w) + claimDelay)
    && (sw.sourceRule.LengthChecked? ==> !w.source.Refunded?)
    && !ResolverLoses(w)
  }

  lemma {:induction false} ResolverStep(sw: Swap, refundDelay: nat, claimDelay: nat, w: World, a: Action)
    requires ResolverCondition(sw, refundDelay, claimDelay)
    requires ResolverInvariant(sw, refundDelay, claimDelay, w) && ResolverAllows(sw, refundDelay, claimDelay, w, a)
    ensures ResolverInvariant(sw, refundDelay, claimDelay, Step(sw, w, a))
  {
  }

  lemma {:induction false} ResolverKeeps(sw: Swap, refundDelay: nat, claimDelay: nat, w: World, actions: seq<Action>)
    requires Start(sw, w) && ResolverCondition(sw, refundDelay, claimDelay)
    requires ResolverRun(sw, refundDelay, claimDelay, w, actions)
    ensures ResolverInvariant(sw, refundDelay, claimDelay, Run(sw, w, actions))
    decreases |actions|
  {
    if actions != [] {
      var front, last := actions[..|actions| - 1], actions[|actions| - 1];
      forall k | 0 <= k < |front|
        ensures ResolverAllows(sw, refundDelay, claimDelay, Run(sw, w, front[..k]), front[k])
      {
        assert front[..k] == actions[..k] && front[k] == actions[k];
      }
      ResolverKeeps(sw, refundDelay, claimDelay, w, front);
      ResolverStep(sw, refundDelay, claimDelay, Run(sw, w, front), last);
    }
  }

  // ---------- The user ----------

  /**
   A user who gives the secret away no later than time `lastReveal`, while the destination is open, and sees
   the destination withdrawn no later than `userDelay` after that. The user never withdraws the source.
   */
  predicate UserAllows(lastReveal: nat, userDelay: nat, w: World, a: Action) {
    && (a.Reveal? ==> w.clock <= lastReveal && w.destination.Open?)
    && (a.Withdraw? && a.byUser ==> a.side == Destination)
    && (a.Wait? && w.revealed.Some? && w.destination.Open? ==> a.until <= w.revealed.value + userDelay)
  }

  ghost predicate UserRun(sw: Swap, lastReveal: nat, userDelay: nat, w: World, actions: seq<Action>) {
    forall k :: 0 <= k < |actions| ==> UserAllows(lastReveal, userDelay, Run(sw, w, actions[..k]), actions[k])
  }

  /** The resolver has been paid on the source and has the destination back as well. */
  predicate UserLoses(w: World) {
    w.source.Withdrawn? && w.destination.Refunded?
  }

  ghost predicate UserSafe(sw: Swap, lastReveal: nat, userDelay: nat, w: World) {
    forall actions :: UserRun(sw, lastReveal, userDelay, w, actions) ==> !UserLoses(Run(sw, w, actions))
  }

  ghost predicate UserInvariant(sw: Swap, lastReveal: nat, userDelay: nat, w: World) {
    && Times(sw, w)
    && (w.revealed.Some? ==> w.destination.Withdrawn? || w.revealed.value <= lastReveal)
    && (w.revealed.Some? && w.destination.Open? ==> w.clock <= w.revealed.value + userDelay)
    && (w.revealed.Some? ==> !w.destination.Refunded?)
    && !UserLoses(w)
  }

  lemma {:induction false} UserStep(sw: Swap, lastReveal: nat, userDelay: nat, w: World, a: Action)
    requires sw.sourceRule.HashChecked? && lastReveal + userDelay < sw.destinationTimelock
    requires UserInvariant(sw, lastReveal, userDelay, w) && UserAllows(lastReveal, userDelay, w, a)
    ensures UserInvariant(sw, lastReveal, userDelay, Step(sw, w, a))
  {
  }

  lemma {:induction false} UserKeeps(sw: Swap, lastReveal: nat, userDelay: nat, w: World, actions: seq<Action>)
    requires Start(sw, w) && sw.sourceRule.HashChecked? && lastReveal + userDelay < sw.destinationTimelock
    requires UserRun(sw, lastReveal, userDelay, w, actions)
    ensures UserInvariant(sw, lastReveal, userDelay, Run(sw, w, actions))
    decreases |actions|
  {
    if actions != [] {
      var front, last := actions[..|actions| - 1], actions[|actions| - 1];
      forall k | 0 <= k < |front|
        ensures UserAllows(lastReveal, userDelay, Run(sw, w, front[..k]), front[k])
      {
        assert front[..k] == actions[..k] && front[k] == actions[k];
      }
      UserKeeps(sw, lastReveal, userDelay, w, front);
      UserStep(sw, lastReveal, userDelay, Run(sw, w, front), last);
    }
  }

  // ---------- Five ways to lose, although both parties are prompt ----------

  /** How prompt the two parties are. */
  datatype Delays = Delays(refundDelay: nat, claimDelay: nat, lastReveal: nat, userDelay: nat)

  predicate Allowed(sw: Swap, d: Delays, w: World, a: Action) {
    ResolverAllows(sw, d.refundDelay, d.claimDelay, w, a) && UserAllows(d.lastReveal, d.userDelay, w, a)
  }

  ghost predicate PromptRun(sw: Swap, d: Delays, w: World, actions: seq<Action>) {
    ResolverRun(sw, d.refundDelay, d.claimDelay, w, actions) && UserRun(sw, d.lastReveal, d.userDelay, w, actions)
  }

  /** A run of four actions, each allowed where it happens. */
  lemma {:induction false} RunOfFour(sw: Swap, d: Delays, w: World, actions: seq<Action>, w1: World, w2: World, w3: World)
    requires |actions| == 4
    requires w1 == Step(sw, w, actions[0]) && w2 == Step(sw, w1, actions[1]) && w3 == Step(sw, w2, actions[2])
    requires Allowed(sw, d, w, actions[0]) && Allowed(sw, d, w1, actions[1])
    requires Allowed(sw, d, w2, actions[2]) && Allowed(sw, d, w3, actions[3])
    ensures PromptRun(sw, d, w, actions) && Run(sw, w, actions) == Step(sw, w3, actions[3])
  {
    hide Step, ResolverAllows, UserAllows;
    assert actions[..1][..0] == [] && actions[..2][..1] == actions[..1];
    assert actions[..3][..2] == actions[..2] && actions[..|actions| - 1] == actions[..3];
    assert Run(sw, w, actions[..0]) == w && Run(sw, w, actions[..1]) == w1;
    assert Run(sw, w, actions[..2]) == w2 && Run(sw, w, actions[..3]) == w3;
    hide Run;
    forall k | 0 <= k < 4
      ensures Allowed(sw, d, Run(sw, w, actions[..k]), actions[k])
    {
      assert k == 0 || k == 1 || k == 2 || k == 3;
    }
  }

  /** With too little time between the timelocks, the user can be paid last and refunded first. */
  lemma {:induction false} ResolverCanLose(sw: Swap, d: Delays, w: World) returns (actions: seq<Action>)
    requires Start(sw, w) && sw.sourceRule.HashChecked?
    requires sw.sourceTimelock <= sw.destinationTimelock + d.refundDelay + d.claimDelay
    ensures PromptRun(sw, d, w, actions) && ResolverLoses(Run(sw, w, actions))
  {
    var t := sw.destinationTimelock + d.refundDelay;
    var u := if sw.sourceTimelock <= t then t else sw.sourceTimelock;
    actions := [Wait(t), Withdraw(Destination, true, sw.secret), Wait(u), Refund(Source)];
    var w1 := w.(clock := t);
    var w2 := w1.(destination := Withdrawn(t), revealed := Some(t));
    RunOfFour(sw, d, w, actions, w1, w2, w2.(clock := u));
  }

  /** A source that could be claimed at once, but is not claimed before its timelock. */
  lemma {:induction false} ResolverCanLoseSlowly(sw: Swap, d: Delays, w: World) returns (actions: seq<Action>)
    requires Start(sw, w) && sw.sourceRule.LengthChecked? && sw.sourceTimelock <= sw.created + d.claimDelay
    ensures PromptRun(sw, d, w, actions) && ResolverLoses(Run(sw, w, actions))
  {
    actions := [Wait(w.clock), Withdraw(Destination, true, sw.secret), Wait(sw.sourceTimelock), Refund(Source)];
    var w2 := w.(destination := Withdrawn(w.clock), revealed := Some(w.clock));
    RunOfFour(sw, d, w, actions, w, w2, w2.(clock := sw.sourceTimelock));
  }

  /**
   If the destination takes any thirty-two bytes and the source does not, the user is paid without publishing
   anything, and the resolver, however prompt, has nothing to claim the source with.
   */
  lemma {:induction false} ResolverCanLoseUnchecked(sw: Swap, d: Delays, w: World,
                                                    garbage: Bytes) returns (actions: seq<Action>)
    requires Start(sw, w) && Garbage(sw, garbage) && sw.sourceRule.HashChecked? && sw.destinationRule.LengthChecked?
    ensures PromptRun(sw, d, w, actions) && ResolverLoses(Run(sw, w, actions))
  {
    actions := [Wait(w.clock), Withdraw(Destination, true, garbage), Wait(sw.sourceTimelock), Refund(Source)];
    var w2 := w.(destination := Withdrawn(w.clock));
    RunOfFour(sw, d, w, actions, w, w2, w2.(clock := sw.sourceTimelock));
  }

  /** If the source takes any thirty-two bytes, the resolver needs no secret. */
  lemma {:induction false} UserCanLoseUnchecked(sw: Swap, d: Delays, w: World, garbage: Bytes) returns (actions: seq<Action>)
    requires Start(sw, w) && Garbage(sw, garbage) && sw.sourceRule.LengthChecked?
    ensures PromptRun(sw, d, w, actions) && UserLoses(Run(sw, w, actions))
  {
    actions := [Wait(w.clock), Withdraw(Source, false, garbage), Wait(sw.destinationTimelock), Refund(Destination)];
    var w2 := w.(source := Withdrawn(w.clock));
    RunOfFour(sw, d, w, actions, w, w2, w2.(clock := sw.destinationTimelock));
  }

  /** A secret given away too late can be used on the source while the destination is refunded. */
  lemma {:induction false} UserCanLoseLate(sw: Swap, d: Delays, w: World) returns (actions: seq<Action>)
    requires Start(sw, w) && w.clock <= d.lastReveal && sw.sourceRule.HashChecked?
    requires sw.destinationTimelock <= d.lastReveal + d.userDelay
    ensures PromptRun(sw, d, w, actions) && UserLoses(Run(sw, w, actions))
  {
    var t := if d.lastReveal <= sw.destinationTimelock then d.lastReveal else sw.destinationTimelock;
    var claim := Withdraw(Source, false, sw.secret);
    var front := [Wait(t), Reveal, claim, Wait(sw.destinationTimelock)];
    var w1 := w.(clock := t);
    var w2 := w1.(revealed := Some(t));
    var w3 := w2.(source := Withdrawn(t));
    var w4 := w3.(clock := sw.destinationTimelock);
    RunOfFour(sw, d, w, front, w1, w2, w3);
    actions := front + [Refund(Destination)];
    assert Step(sw, w4, Refund(Destination)) == w4.(destination := Refunded(sw.destinationTimelock));
    OneMore(sw, d, w, front, Refund(Destination));
  }

  /** An action that is not waiting, revealing or withdrawing is always allowed. */
  lemma {:induction false} OneMore(sw: Swap, d: Delays, w: World, front: seq<Action>, last: Action)
    requires PromptRun(sw, d, w, front) && last.Refund?
    ensures PromptRun(sw, d, w, front + [last]) && Run(sw, w, front + [last]) == Step(sw, Run(sw, w, front), last)
  {
    hide Step;
    var actions := front + [last];
    assert actions[..|actions| - 1] == front;
    forall k | 0 <= k < |actions|
      ensures Allowed(sw, d, Run(sw, w, actions[..k]), actions[k])
    {
      if k < |front| {
        assert actions[..k] == front[..k] && actions[k] == front[k];
      }
    }
  }

  // ---------- Exactly when they are safe ----------

  /** The resolver never loses, whatever everybody else does, exactly under the resolver's condition. */
  lemma {:induction false} ResolverSafeIff(sw: Swap, refundDelay: nat, claimDelay: nat, w: World, garbage: Bytes)
    requires Start(sw, w) && Garbage(sw, garbage)
    ensures ResolverSafe(sw, refundDelay, claimDelay, w) <==> ResolverCondition(sw, refundDelay, claimDelay)
  {
    hide Run, ResolverRun, UserRun;
    var d := Delays(refundDelay, claimDelay, 0, 0);
    if ResolverCondition(sw, refundDelay, claimDelay) {
      forall actions | ResolverRun(sw, refundDelay, claimDelay, w, actions)
        ensures !ResolverLoses(Run(sw, w, actions))
      {
        ResolverKeeps(sw, refundDelay, claimDelay, w, actions);
      }
    } else if sw.sourceRule.LengthChecked? {
      var actions := ResolverCanLoseSlowly(sw, d, w);
    } else if sw.destinationRule.LengthChecked? {
      var actions := ResolverCanLoseUnchecked(sw, d, w, garbage);
    } else {
      var actions := ResolverCanLose(sw, d, w);
    }
  }

  /** The resolver's policy can always be followed: what it must do before time passes is enabled. */
  lemma {:induction false} ResolverCanComply(sw: Swap, w: World, actions: seq<Action>, garbage: Bytes)
    requires Start(sw, w) && Garbage(sw, garbage)
    ensures var end := Run(sw, w, actions);
      && (end.destination.Open? && end.clock >= sw.destinationTimelock ==> Enabled(sw, end, Refund(Destination)))
      && (end.source.Open? && CanClaim(sw, end) ==>
            exists presented :: Enabled(sw, end, Withdraw(Source, false, presented)))
  {
    CanClaimIff(sw, w, actions, garbage);
  }

  /**
   The user never loses, whatever everybody else does, exactly when the source contract checks the hash and
   the secret is given away early enough to be used on the destination before its timelock.
   */
  lemma {:induction false} UserSafeIff(sw: Swap, lastReveal: nat, userDelay: nat, w: World, garbage: Bytes)
    requires Start(sw, w) && w.clock <= lastReveal && Garbage(sw, garbage)
    ensures UserSafe(sw, lastReveal, userDelay, w)
            <==> sw.sourceRule.HashChecked? && lastReveal + userDelay < sw.destinationTimelock
  {
    hide Run, UserRun, ResolverRun;
    var d := Delays(0, 0, lastReveal, userDelay);
    if sw.sourceRule.LengthChecked? {
      var actions := UserCanLoseUnchecked(sw, d, w, garbage);
    } else if sw.destinationTimelock <= lastReveal + userDelay {
      var actions := UserCanLoseLate(sw, d, w);
    } else {
      forall actions | UserRun(sw, lastReveal, userDelay, w, actions)
        ensures !UserLoses(Run(sw, w, actions))
      {
        UserKeeps(sw, lastReveal, userDelay, w, actions);
      }
    }
  }

  /** The user's policy can always be followed. */
  lemma {:induction false} UserCanComply(sw: Swap, w: World, actions: seq<Action>)
    requires Start(sw, w)
    ensures var end := Run(sw, w, actions);
      end.destination.Open? ==> Enabled(sw, end, Withdraw(Destination, true, sw.secret))
  {
  }

  /** Whenever both escrows are closed, both paid or both were returned. */
  ghost predicate AllOrNothing(sw: Swap, d: Delays, w: World) {
    forall actions :: PromptRun(sw, d, w, actions) ==>
      var end := Run(sw, w, actions);
      !end.source.Open? && !end.destination.Open? ==> (end.source.Withdrawn? <==> end.destination.Withdrawn?)
  }

  /**
   With both parties prompt the swap is all or nothing, whatever anybody else does, exactly when both contracts
   check the hash, the resolver's delays fit between the timelocks, and the user's fit before the first of them.
   */
  lemma {:induction false} BothOrNeitherIff(sw: Swap, d: Delays, w: World, garbage: Bytes)
    requires Start(sw, w) && w.clock <= d.lastReveal && Garbage(sw, garbage)
    ensures AllOrNothing(sw, d, w)
            <==> && sw.sourceRule.HashChecked? && sw.destinationRule.HashChecked?
                 && sw.destinationTimelock + d.refundDelay + d.claimDelay < sw.sourceTimelock
                 && d.lastReveal + d.userDelay < sw.destinationTimelock
  {
    hide Run, ResolverRun, UserRun;
    if sw.sourceRule.LengthChecked? {
      var actions := UserCanLoseUnchecked(sw, d, w, garbage);
    } else if sw.destinationRule.LengthChecked? {
      var actions := ResolverCanLoseUnchecked(sw, d, w, garbage);
    } else if sw.sourceTimelock <= sw.destinationTimelock + d.refundDelay + d.claimDelay {
      var actions := ResolverCanLose(sw, d, w);
    } else if sw.destinationTimelock <= d.lastReveal + d.userDelay {
      var actions := UserCanLoseLate(sw, d, w);
    } else {
      forall actions | PromptRun(sw, d, w, actions)
        ensures var end := Run(sw, w, actions);
          !end.source.Open? && !end.destination.Open? ==> (end.source.Withdrawn? <==> end.destination.Withdrawn?)
      {
        ResolverKeeps(sw, d.refundDelay, d.claimDelay, w, actions);
        UserKeeps(sw, d.lastReveal, d.userDelay, w, actions);
      }
    }
  }

  // ---------- The two places where the program fixes the timelocks ----------

  datatype Chain = Ethereum | Aptos

  /** The Ethereum contracts hash a presented secret; the Aptos module measures it. */
  function RuleOf(chain: Chain): SecretRule {
    if chain == Ethereum then HashChecked else LengthChecked
  }

  datatype EscrowInfo = EscrowInfo(chain: Chain, escrowId: string, secretHash: Bytes, timelock: nat)

  /** The parameters of a relayed request to create an escrow. */
  datatype CreateRequest = CreateRequest(chain: Chain, escrowId: Bytes, amount: nat, hashlock: Bytes, timelock: nat,
                                         safetyDeposit: nat)

  /** The client library's source escrow for a given destination escrow: on Ethereum, same hashlock, one hour longer. */
  function CreateSourceEscrow(id: string -> Bytes, destination: EscrowInfo, amount: nat): CreateRequest {
    CreateRequest(Ethereum, id(destination.escrowId + "-source"), amount, destination.secretHash,
                  destination.timelock + 3600, 1000000000000000)
  }

  /** The request is for the given amount with 0.001 Ether of safety deposit, under the destination's hashlock, an hour longer. */
  lemma {:induction false} SourceRequestTerms(id: string -> Bytes, destination: EscrowInfo, amount: nat)
    ensures var source := CreateSourceEscrow(id, destination, amount);
      && source.amount == amount && source.safetyDeposit * 1000 == 1000000000000000000
      && source.hashlock == destination.secretHash && source.timelock - destination.timelock == 3600
      && source.chain.Ethereum?
  {
  }

  /** Requests for two destination escrows have the same source id exactly when it is the same escrow, or `id` collides. */
  lemma {:induction false} SourceRequestsApartIff(id: string -> Bytes, d1: EscrowInfo, d2: EscrowInfo, a1: nat, a2: nat)
    ensures var x, y := d1.escrowId + "-source", d2.escrowId + "-source";
      CreateSourceEscrow(id, d1, a1).escrowId == CreateSourceEscrow(id, d2, a2).escrowId
      <==> d1.escrowId == d2.escrowId || (x != y && id(x) == id(y))
  {
    var x, y := d1.escrowId + "-source", d2.escrowId + "-source";
    assert x[..|x| - 7] == d1.escrowId && y[..|y| - 7] == d2.escrowId;
  }

  /** The two escrows of a swap are the ones described. */
  ghost predicate SwapOf(sw: Swap, source: CreateRequest, destination: EscrowInfo) {
    && sw.hashlock == source.hashlock == destination.secretHash
    && sw.sourceTimelock == source.timelock && sw.destinationTimelock == destination.timelock
    && sw.sourceRule == RuleOf(source.chain) && sw.destinationRule == RuleOf(destination.chain)
  }

  /**
   With the client library's source escrow a resolver is safe exactly if it acts within an hour in all and the
   destination is not on Aptos.
   */
  lemma {:induction false} LibrarySwapSafeIff(id: string -> Bytes, destination: EscrowInfo, amount: nat, sw: Swap, w: World,
                                              refundDelay: nat, claimDelay: nat, garbage: Bytes)
    requires Start(sw, w) && Garbage(sw, garbage) && SwapOf(sw, CreateSourceEscrow(id, destination, amount), destination)
    ensures ResolverSafe(sw, refundDelay, claimDelay, w)
            <==> refundDelay + claimDelay < 3600 && destination.chain.Ethereum?
  {
    hide ResolverSafe;
    ResolverSafeIff(sw, refundDelay, claimDelay, w, garbage);
  }

  /** Between Ethereum and Aptos, in either direction, no timelocks make the swap all or nothing. */
  lemma {:induction false} CrossChainNeverAllOrNothing(sw: Swap, d: Delays, w: World, garbage: Bytes, source: Chain,
                                                       destination: Chain)
    requires Start(sw, w) && w.clock <= d.lastReveal && Garbage(sw, garbage) && source != destination
    requires sw.sourceRule == RuleOf(source) && sw.destinationRule == RuleOf(destination)
    ensures !AllOrNothing(sw, d, w)
  {
    hide AllOrNothing;
    BothOrNeitherIff(sw, d, w, garbage);
  }

  /**
   The swap page copies the destination's timelock to the source. That leaves a resolver safe exactly if the source only
   measures the secret, as it does on Aptos, and the resolver claims it, without the secret, before the timelock.
   */
  lemma {:induction false} EqualTimelocksSafeIff(sw: Swap, w: World, refundDelay: nat, claimDelay: nat, garbage: Bytes)
    requires Start(sw, w) && Garbage(sw, garbage) && sw.sourceTimelock == sw.destinationTimelock
    ensures ResolverSafe(sw, refundDelay, claimDelay, w)
            <==> sw.sourceRule.LengthChecked? && sw.created + claimDelay < sw.sourceTimelock
  {
    hide ResolverSafe;
    ResolverSafeIff(sw, refundDelay, claimDelay, w, garbage);
  }
}
