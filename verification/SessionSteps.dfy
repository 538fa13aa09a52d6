/** Single steps of a session, and runs put together from them. */
module SessionSteps {
  import opened SwapSession

  function Steps(order: Order, s: Session, actions: seq<Action>): Session
    decreases |actions|
  {
    if actions == [] then s else Steps(order, Step(order, s, actions[0]), actions[1..])
  }

  lemma {:induction false} RunThen(order: Order, actions: seq<Action>, more: seq<Action>)
    ensures Run(order, actions + more) == Steps(order, Run(order, actions), more)
    decreases |more|
  {
    hide Step;
    if more == [] {
      assert actions + more == actions;
    } else {
      var next := actions + [more[0]];
      assert next[..|next| - 1] == actions && actions + more == next + more[1..];
      RunThen(order, next, more[1..]);
    }
  }

  lemma {:induction false} StepsThen(order: Order, s: Session, a: seq<Action>, b: seq<Action>)
    ensures Steps(order, s, a + b) == Steps(order, Steps(order, s, a), b)
    decreases |a|
  {
    hide Step;
    if a == [] {
      assert a + b == b;
    } else {
      assert (a + b)[0] == a[0] && (a + b)[1..] == a[1..] + b;
      StepsThen(order, Step(order, s, a[0]), a[1..], b);
    }
  }

  lemma {:induction false} OneStep(order: Order, s: Session, a: Action, rest: seq<Action>)
    ensures Steps(order, s, [a] + rest) == Steps(order, Step(order, s, a), rest)
  {
    hide Step;
    assert ([a] + rest)[1..] == rest;
  }

  predicate Pending(s: Session, t: nat, task: Task) {
    t in s.pending && s.pending[t] == task
  }

  /** A destination event for an escrow that has not been answered, in an APT session. */
  predicate New(order: Order, s: Session, e: DestinationEvent) {
    order.fromChain.Aptos? && e.orderId == order.orderId && e.chain.Ethereum? && e.escrowId !in s.createdEscrows
  }

  lemma {:induction false} AcceptStep(order: Order, s: Session, t: nat, e: DestinationEvent)
    requires Pending(s, t, DestinationLogged(e)) && New(order, s, e)
    ensures Step(order, s, Resume(t))
         == s.Drop(t).(createdEscrows := s.createdEscrows + {e.escrowId}, intentTimelock := e.timelock).Spawn(SignTimer(e))
  {
  }

  lemma {:induction false} TimerStep(order: Order, s: Session, t: nat, e: DestinationEvent)
    requires Pending(s, t, SignTimer(e))
    ensures Step(order, s, Resume(t)) == s.Drop(t).Spawn(SignStarted(e))
  {
  }

  lemma {:induction false} BuildStep(order: Order, s: Session, t: nat, e: DestinationEvent)
    requires Pending(s, t, SignStarted(e))
    ensures Step(order, s, Resume(t)) == s.Drop(t).Spawn(Built(BuildTx(order, s, e)))
  {
  }

  lemma {:induction false} SignStep(order: Order, s: Session, t: nat, tx: SourceEscrow)
    requires Pending(s, t, Built(tx)) || Pending(s, t, PetraAsked(tx)) || Pending(s, t, RiseAsked(tx))
    ensures Step(order, s, Resume(t)) == Sign(s.Drop(t), tx)
  {
  }

  lemma {:induction false} RefuseStep(order: Order, s: Session, t: nat, tx: SourceEscrow)
    requires Pending(s, t, Built(tx)) && order.wallets.pontem
    ensures Step(order, s, Refuse(t)) == s.Drop(t).Spawn(PontemAsked(tx, PontemPayload(order, s, tx.event)))
  {
  }

  lemma {:induction false} PontemStep(order: Order, s: Session, t: nat, tx: SourceEscrow, payload: SourceEscrow)
    requires Pending(s, t, PontemAsked(tx, payload))
    ensures Step(order, s, Resume(t)) == AskOthers(order, s.Drop(t).(pontemTxs := s.pontemTxs + [payload]), tx)
  {
  }

  /** A task just spawned can be dropped again without a trace but the used ticket. */
  lemma {:induction false} SpawnDrop(s: Session, task: Task)
    requires s.nextTask !in s.pending
    ensures Pending(s.Spawn(task), s.nextTask, task) && s.Spawn(task).Drop(s.nextTask) == s.(nextTask := s.nextTask + 1)
  {
    assert s.Spawn(task).Drop(s.nextTask).pending == s.pending;
  }
}
