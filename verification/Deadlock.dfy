/**
 The stuck state of the pipeline is real: a gateway that goes on submitting without draining the outbox
 can move only so many items, whatever the schedule, and stops nowhere but there.
 */
module Deadlock {
  import opened Types
  import opened Pipeline
  import R = Reference
  import S = Spsc

  /** The gateway never drains. */
  predicate DrainFree(acts: seq<Action>) {
    forall a | a in acts :: !a.BeginDrain? && !a.GatewayPop?
  }

  /** Both rings are full and the engine has an event to push. */
  predicate Jammed(p: Pipe) {
    p.inbox.Full() && p.pending != [] && p.outbox.Full()
  }

  /** Every command is answered by at least one event. */
  lemma StepSpeaks(st: R.State, c: Command)
    requires R.Inv(st, {})
    ensures R.Step(st, c).1 != []
  {
  }

  // ---------------------------------------------------------------- only so many items move

  function Room<T>(r: S.Ring<T>): int {
    r.Cap() - (|r.pushed| - |r.popped|)
  }

  /**
   How many items can still move: a command popped lets another in, but needs an event pushed before the
   next one is popped.
   */
  function Slack(p: Pipe): int {
    Room(p.inbox) + 3 * Room(p.outbox) + (if p.pending == [] then 2 else 0)
  }

  lemma SlackIsNatural(p: Pipe, e: R.State)
    requires Inv(p, e)
    ensures Slack(p) >= 0
  {
  }

  /** A push moves one item at most, and a pop too. */
  lemma PushMoves<T>(r: S.Ring<T>, v: T)
    requires S.Inv(r)
    ensures var n := S.Do(r, PushOp(r, v));
            && n.popped == r.popped && n.log2 == r.log2
            && |n.pushed| == |r.pushed| + if PushOp(r, v).StoreTail? then 1 else 0
  {
  }

  lemma PopMoves<T>(r: S.Ring<T>)
    requires S.Inv(r)
    ensures var n := S.Do(r, PopOp(r));
            && n.pushed == r.pushed && n.log2 == r.log2
            && |n.popped| == |r.popped| + if PopOp(r).StoreHead? then 1 else 0
  {
  }

  lemma StepBounded(p: Pipe, e: R.State, a: Action)
    requires Inv(p, e) && Enabled(p, a) && DrainFree([a]) && !p.gateway.Draining?
    ensures var n := Do(p, a);
            !n.gateway.Draining? && n.outbox.popped == p.outbox.popped && Moved(n) + Slack(n) <= Moved(p) + Slack(p)
  {
    assert a in [a];
    match a
    case BeginSubmit(_) =>
    case GatewayPush => PushMoves(p.inbox, p.gateway.c);
    case EnginePop =>
      PopMoves(p.inbox);
      if p.inbox.cons.CTaken? { StepSpeaks(p.engine, p.inbox.cons.out); }
    case EnginePush => PushMoves(p.outbox, p.pending[0]);
  }

  lemma {:induction false} RunBounded(p: Pipe, e: R.State, acts: seq<Action>)
    requires Inv(p, e) && !p.gateway.Draining? && CanRun(p, acts) && DrainFree(acts)
    ensures var n := Run(p, acts);
            && Inv(n, e) && !n.gateway.Draining? && n.outbox.popped == p.outbox.popped
            && Moved(n) + Slack(n) <= Moved(p) + Slack(p)
    decreases |acts|
  {
    if acts != [] {
      assert acts[0] in acts;
      StepBounded(p, e, acts[0]);
      StepInv(p, e, acts[0]);
      RunBounded(Do(p, acts[0]), e, acts[1..]);
    }
  }

  // ---------------------------------------------------------------- where they stop

  lemma {:induction false} JammedForGood(p: Pipe, e: R.State, acts: seq<Action>)
    requires Inv(p, e) && Jammed(p) && !p.gateway.Draining? && CanRun(p, acts) && DrainFree(acts)
    ensures Moved(Run(p, acts)) == Moved(p)
    decreases |acts|
  {
    if acts != [] {
      var a := acts[0];
      assert a in acts;
      if a.GatewayPush? { FullPush(p.inbox, p.gateway.c); }
      if a.EnginePush? { FullPush(p.outbox, p.pending[0]); }
      StepInv(p, e, a);
      JammedForGood(Do(p, a), e, acts[1..]);
    }
  }

  /** The next step when the engine works as far as it can and the gateway only submits. */
  function Press(p: Pipe): Action {
    if p.pending != [] && !p.outbox.Full() then EnginePush
    else if p.pending == [] && !p.inbox.Empty() then EnginePop
    else if p.gateway.Submitting? then GatewayPush
    else BeginSubmit(Cancel(0, 0, 0))
  }

  function StepsLeft(p: Pipe): nat {
    if p.pending != [] && !p.outbox.Full() then PushRank(p.outbox)
    else if p.pending == [] && !p.inbox.Empty() then PopRank(p.inbox)
    else if p.gateway.Submitting? then PushRank(p.inbox) else 5
  }

  lemma PressWorks(p: Pipe, e: R.State)
    requires Inv(p, e) && !Jammed(p) && !p.gateway.Draining?
    ensures Enabled(p, Press(p))
    ensures var n := Do(p, Press(p));
            Moved(n) > Moved(p) || (Moved(n) == Moved(p) && !Jammed(n) && StepsLeft(n) < StepsLeft(p))
  {
    EmptyNotFull(p.inbox);
    match Press(p)
    case EnginePush => PushAdvances(p.outbox, p.pending[0]);
    case EnginePop => PopAdvances(p.inbox);
    case GatewayPush => PushAdvances(p.inbox, p.gateway.c);
    case BeginSubmit(_) =>
  }

  lemma FreeCons(a: Action, acts: seq<Action>)
    requires DrainFree(acts) && !a.BeginDrain? && !a.GatewayPop?
    ensures DrainFree([a] + acts) && ([a] + acts)[1..] == acts
  {
  }

  /** Short of a jam, some schedule without draining moves an item. */
  lemma {:induction false} UnjammedCanMove(p: Pipe, e: R.State) returns (acts: seq<Action>)
    requires Inv(p, e) && !Jammed(p) && !p.gateway.Draining?
    ensures CanRun(p, acts) && DrainFree(acts) && Moved(Run(p, acts)) > Moved(p)
    decreases StepsLeft(p)
  {
    var a := Press(p);
    PressWorks(p, e);
    StepInv(p, e, a);
    StepBounded(p, e, a);
    var n := Do(p, a);
    var rest: seq<Action> := [];
    if Moved(n) == Moved(p) { rest := UnjammedCanMove(n, e); }
    FreeCons(a, rest);
    acts := [a] + rest;
  }

  /**
   Every run without draining, from any state between drains: it can have moved no more items than there was
   slack for, and nothing more will move without draining if and only if it has ended in a jam. There the
   gateway waits in submit, or will once it has a command to submit: the pipeline is stuck.
   */
  lemma SubmittingAloneSticks(p: Pipe, e: R.State, acts: seq<Action>)
    requires Inv(p, e) && !p.gateway.Draining? && CanRun(p, acts) && DrainFree(acts)
    ensures var n := Run(p, acts);
            && Inv(n, e) && Moved(n) <= Moved(p) + Slack(p)
            && (Jammed(n) <==> forall more | CanRun(n, more) && DrainFree(more) :: Moved(Run(n, more)) == Moved(n))
            && (Jammed(n) ==> Stuck(n) || (n.gateway.Free? && forall c :: Stuck(Do(n, BeginSubmit(c)))))
  {
    RunBounded(p, e, acts);
    var n := Run(p, acts);
    SlackIsNatural(n, e);
    if Jammed(n) {
      forall more | CanRun(n, more) && DrainFree(more) ensures Moved(Run(n, more)) == Moved(n) {
        JammedForGood(n, e, more);
      }
    } else {
      var more := UnjammedCanMove(n, e);
    }
  }

  /** And a schedule that gets there exists. */
  lemma {:induction false} SticksEventually(p: Pipe, e: R.State) returns (acts: seq<Action>)
    requires Inv(p, e) && !p.gateway.Draining?
    ensures CanRun(p, acts) && DrainFree(acts) && Stuck(Run(p, acts))
    decreases Slack(p), StepsLeft(p)
  {
    acts := [];
    if !Stuck(p) {
      var a := Press(p);
      if !Jammed(p) { PressWorks(p, e); }
      SlackIsNatural(p, e);
      StepInv(p, e, a);
      StepBounded(p, e, a);
      SlackIsNatural(Do(p, a), e);
      var rest := SticksEventually(Do(p, a), e);
      FreeCons(a, rest);
      acts := [a] + rest;
    }
  }
}
