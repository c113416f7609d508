/**
 The two-thread pipeline: gateway and engine joined by two rings, every atomic step of either
 thread interleaving with the other's. It computes what the engine would compute alone, and it is
 stuck exactly when both threads wait on a full ring.
 */
module Pipeline {
  import opened Types
  import R = Reference
  import S = Spsc
  import Modular

  /** What the gateway thread is doing: neither loop, spinning in submit, or in drain_engine. */
  datatype Gateway = Free | Submitting(c: Command) | Draining

  /**
   Both rings, the gateway, and the engine thread. `pending` is what the running `process` call has
   still to push to the outbox; between calls it is empty and the engine polls its inbox.
   */
  datatype Pipe = Pipe(inbox: S.Ring<Command>, outbox: S.Ring<Event>, gateway: Gateway, engine: R.State, pending: seq<Event>)

  datatype Action = BeginSubmit(c: Command) | BeginDrain | GatewayPush | GatewayPop | EnginePop | EnginePush

  /** The next atomic step of try_push, which retries from the top after a failure. */
  function PushOp<T>(r: S.Ring<T>, v: T): (op: S.Op<T>)
    ensures S.Enabled(r, op)
  {
    match r.prod
    case PIdle => S.LoadTail(v)
    case PStale(_, _) => S.LoadHead
    case PReady(_, _) => S.WriteSlot
    case PWritten(_, _) => S.StoreTail
  }

  /** The next atomic step of try_pop. */
  function PopOp<T>(r: S.Ring<T>): (op: S.Op<T>)
    ensures S.Enabled(r, op)
  {
    match r.cons
    case CIdle => S.LoadHeadC
    case CStale(_) => S.LoadTailC
    case CReady(_) => S.ReadSlot
    case CTaken(_, _) => S.StoreHead
  }

  predicate Enabled(p: Pipe, a: Action) {
    match a
    case BeginSubmit(_) => p.gateway.Free?
    case BeginDrain => p.gateway.Free?
    case GatewayPush => p.gateway.Submitting?
    case GatewayPop => p.gateway.Draining?
    case EnginePop => p.pending == []
    case EnginePush => p.pending != []
  }

  function Do(p: Pipe, a: Action): Pipe
    requires RingsOk(p) && Enabled(p, a)
  {
    match a
    case BeginSubmit(c) => p.(gateway := Submitting(c))
    case BeginDrain => p.(gateway := Draining)
    case GatewayPush =>
      var op := PushOp(p.inbox, p.gateway.c);
      p.(inbox := S.Do(p.inbox, op), gateway := if op.StoreTail? then Free else p.gateway)
    case GatewayPop =>
      var op := PopOp(p.outbox);
      var r := S.Do(p.outbox, op);
      p.(outbox := r, gateway := if op.LoadTailC? && r.cons.CIdle? then Free else Draining)
    case EnginePop =>
      var op := PopOp(p.inbox);
      var r := S.Do(p.inbox, op);
      if op.StoreHead? then
        var s := R.Step(p.engine, p.inbox.cons.out);
        p.(inbox := r, engine := s.0, pending := s.1)
      else p.(inbox := r)
    case EnginePush =>
      var op := PushOp(p.outbox, p.pending[0]);
      p.(outbox := S.Do(p.outbox, op), pending := if op.StoreTail? then p.pending[1..] else p.pending)
  }

  ghost predicate RingsOk(p: Pipe) {
    S.Inv(p.inbox) && S.Inv(p.outbox) && R.Inv(p.engine, {})
  }

  /** Each end of each ring is used only by the thread that owns it, for the item it is on. */
  predicate Owned(p: Pipe) {
    && (!p.inbox.prod.PIdle? ==> p.gateway == Submitting(p.inbox.prod.v))
    && (!p.outbox.cons.CIdle? ==> p.gateway.Draining?)
    && (!p.inbox.cons.CIdle? ==> p.pending == [])
    && (!p.outbox.prod.PIdle? ==> p.pending != [] && p.outbox.prod.v == p.pending[0])
  }

  /** The pipeline, started on engine state `e`, is a delayed sequential engine. */
  ghost predicate Inv(p: Pipe, e: R.State) {
    && RingsOk(p) && Owned(p) && R.Inv(e, {})
    && (p.engine, p.outbox.pushed + p.pending) == R.Run(e, p.inbox.popped)
  }

  lemma GatewayInv(p: Pipe, e: R.State, a: Action)
    requires Inv(p, e) && Enabled(p, a) && !a.EnginePop? && !a.EnginePush?
    ensures Inv(Do(p, a), e)
  {
    if a.GatewayPush? { S.StepInv(p.inbox, PushOp(p.inbox, p.gateway.c)); }
    if a.GatewayPop? { S.StepInv(p.outbox, PopOp(p.outbox)); }
  }

  lemma EnginePopInv(p: Pipe, e: R.State)
    requires Inv(p, e) && Enabled(p, EnginePop)
    ensures Inv(Do(p, EnginePop), e)
  {
    var op := PopOp(p.inbox);
    S.StepInv(p.inbox, op);
    if op.StoreHead? {
      var c := p.inbox.cons.out;
      R.StepInv(p.engine, c);
      R.RunSnoc(e, p.inbox.popped, c);
      assert p.outbox.pushed + [] == p.outbox.pushed;
    }
  }

  lemma EnginePushInv(p: Pipe, e: R.State)
    requires Inv(p, e) && Enabled(p, EnginePush)
    ensures Inv(Do(p, EnginePush), e)
  {
    var op := PushOp(p.outbox, p.pending[0]);
    S.StepInv(p.outbox, op);
    Shift(p.outbox.pushed, p.pending);
    assert R.Run(e, p.inbox.popped).1 == p.outbox.pushed + p.pending;
  }

  lemma StepInv(p: Pipe, e: R.State, a: Action)
    requires Inv(p, e) && Enabled(p, a)
    ensures Inv(Do(p, a), e)
  {
    match a
    case EnginePop => EnginePopInv(p, e);
    case EnginePush => EnginePushInv(p, e);
    case _ => GatewayInv(p, e, a);
  }

  // ---------------------------------------------------------------- whole runs

  /** The rings and the engine stay sound whatever step is taken. */
  lemma RingsKept(p: Pipe, a: Action)
    requires RingsOk(p) && Enabled(p, a)
    ensures RingsOk(Do(p, a))
  {
    match a
    case BeginSubmit(_) =>
    case BeginDrain =>
    case GatewayPush => S.StepInv(p.inbox, PushOp(p.inbox, p.gateway.c));
    case GatewayPop => S.StepInv(p.outbox, PopOp(p.outbox));
    case EnginePop =>
      S.StepInv(p.inbox, PopOp(p.inbox));
      if p.inbox.cons.CTaken? { R.StepInv(p.engine, p.inbox.cons.out); }
    case EnginePush => S.StepInv(p.outbox, PushOp(p.outbox, p.pending[0]));
  }

  /** The actions can be taken one after the other from `p`. */
  ghost predicate CanRun(p: Pipe, acts: seq<Action>)
    requires RingsOk(p)
    decreases |acts|
  {
    acts == [] ||
    (Enabled(p, acts[0]) && (RingsKept(p, acts[0]); CanRun(Do(p, acts[0]), acts[1..])))
  }

  function Run(p: Pipe, acts: seq<Action>): Pipe
    requires RingsOk(p) && CanRun(p, acts)
    decreases |acts|
  {
    if acts == [] then p
    else
      RingsKept(p, acts[0]);
      Run(Do(p, acts[0]), acts[1..])
  }

  lemma {:induction false} RunInv(p: Pipe, e: R.State, acts: seq<Action>)
    requires Inv(p, e) && CanRun(p, acts)
    ensures Inv(Run(p, acts), e)
    decreases |acts|
  {
    if acts != [] {
      StepInv(p, e, acts[0]);
      RunInv(Do(p, acts[0]), e, acts[1..]);
    }
  }

  /** A new pipeline around an engine in state `e`. */
  function Start(log2: nat, inBuf: seq<Command>, outBuf: seq<Event>, e: R.State): (p: Pipe)
    requires log2 + 2 < 64 && |inBuf| == Modular.Pow2(log2) && |outBuf| == Modular.Pow2(log2 + 2) && R.Inv(e, {})
    ensures RingsOk(p)
  {
    S.CreateInv(log2, inBuf);
    S.CreateInv(log2 + 2, outBuf);
    Pipe(S.Create(log2, inBuf), S.Create(log2 + 2, outBuf), Free, e, [])
  }

  /** The commands the gateway was asked to submit, in order. */
  function Asked(acts: seq<Action>): seq<Command> {
    if acts == [] then [] else (if acts[0].BeginSubmit? then [acts[0].c] else []) + Asked(acts[1..])
  }

  /** The commands that have gone into the inbox, then the one still being submitted. */
  function Taken(p: Pipe): seq<Command> {
    p.inbox.pushed + if p.gateway.Submitting? then [p.gateway.c] else []
  }

  lemma PushTakes<T>(r: S.Ring<T>, v: T)
    requires S.Inv(r) && (!r.prod.PIdle? ==> r.prod.v == v)
    ensures S.Do(r, PushOp(r, v)).pushed == r.pushed + if PushOp(r, v).StoreTail? then [v] else []
  {
  }

  lemma PopTakes<T>(r: S.Ring<T>)
    requires S.Inv(r)
    ensures S.Do(r, PopOp(r)).pushed == r.pushed
  {
  }

  lemma StepTakes(p: Pipe, e: R.State, a: Action)
    requires Inv(p, e) && Enabled(p, a)
    ensures Taken(Do(p, a)) == Taken(p) + if a.BeginSubmit? then [a.c] else []
  {
    if a.GatewayPush? {
      PushTakes(p.inbox, p.gateway.c);
    } else if a.EnginePop? {
      PopTakes(p.inbox);
    }
  }

  lemma {:induction false} RunTakes(p: Pipe, e: R.State, acts: seq<Action>)
    requires Inv(p, e) && CanRun(p, acts)
    ensures Taken(Run(p, acts)) == Taken(p) + Asked(acts)
    decreases |acts|
  {
    if acts == [] {
      assert Taken(p) + [] == Taken(p);
    } else {
      StepInv(p, e, acts[0]);
      StepTakes(p, e, acts[0]);
      RunTakes(Do(p, acts[0]), e, acts[1..]);
      Assoc(Taken(p), if acts[0].BeginSubmit? then [acts[0].c] else [], Asked(acts[1..]));
    }
  }

  /**
   In every interleaving: the commands that went into the inbox, then the one being submitted, are those the gateway
   was asked to submit, in order; the engine has popped a prefix of them. What the gateway received, then what sits
   in the outbox, then what the running call has still to push, is the engine's output on the commands popped. Once
   all is quiet, the gateway has received the engine's output on all it was asked to submit.
   */
  lemma Refines(log2: nat, inBuf: seq<Command>, outBuf: seq<Event>, e: R.State, acts: seq<Action>)
    requires log2 + 2 < 64 && |inBuf| == Modular.Pow2(log2) && |outBuf| == Modular.Pow2(log2 + 2) && R.Inv(e, {})
    requires CanRun(Start(log2, inBuf, outBuf, e), acts)
    ensures var p := Run(Start(log2, inBuf, outBuf, e), acts);
            && p.inbox.pushed + (if p.gateway.Submitting? then [p.gateway.c] else []) == Asked(acts)
            && p.inbox.popped <= p.inbox.pushed && p.outbox.popped <= p.outbox.pushed
            && p.outbox.popped + p.outbox.pushed[|p.outbox.popped|..] + p.pending == R.Run(e, p.inbox.popped).1
            && (p.inbox.Empty() && p.outbox.Empty() && p.pending == [] && !p.gateway.Submitting? ==>
                  p.outbox.popped == R.Run(e, Asked(acts)).1)
  {
    var s := Start(log2, inBuf, outBuf, e);
    var none: seq<Event> := [];
    assert none + none == none;
    RunInv(s, e, acts);
    RunTakes(s, e, acts);
    assert Taken(s) + Asked(acts) == Asked(acts);
    var p := Run(s, acts);
    if !p.gateway.Submitting? { assert p.inbox.pushed + [] == p.inbox.pushed; }
    Delayed(p, e);
  }

  lemma Delayed(p: Pipe, e: R.State)
    requires Inv(p, e)
    ensures p.inbox.popped <= p.inbox.pushed && p.outbox.popped <= p.outbox.pushed
    ensures p.outbox.popped + p.outbox.pushed[|p.outbox.popped|..] + p.pending == R.Run(e, p.inbox.popped).1
    ensures p.inbox.Empty() && p.outbox.Empty() && p.pending == [] ==> p.outbox.popped == R.Run(e, p.inbox.pushed).1
  {
    var n := |p.outbox.popped|;
    assert p.outbox.popped + p.outbox.pushed[n..] == p.outbox.pushed;
    if p.inbox.Empty() { assert p.inbox.popped == p.inbox.pushed; }
    if p.outbox.Empty() { assert p.outbox.popped == p.outbox.pushed; }
    if p.pending == [] { assert p.outbox.pushed + p.pending == p.outbox.pushed; }
  }

  /** submit returns with the push that publishes its command; a drain ends exactly with a look at an empty outbox. */
  lemma GatewayReturnsIff(p: Pipe, e: R.State, a: Action)
    requires Inv(p, e) && Enabled(p, a) && (a.GatewayPush? || a.GatewayPop?)
    ensures var n := Do(p, a);
            && (a.GatewayPush? ==> (n.gateway.Free? <==> n.inbox.pushed == p.inbox.pushed + [p.gateway.c]))
            && (a.GatewayPop? ==> (n.gateway.Free? <==> p.outbox.cons.CStale? && p.outbox.Empty()))
  {
    S.Compared(p.outbox);
    if a.GatewayPush? { PushTakes(p.inbox, p.gateway.c); }
  }

  // ---------------------------------------------------------------- when the pipeline is stuck

  /** The gateway waits in submit on a full inbox while the engine waits in on_event on a full outbox. */
  predicate Stuck(p: Pipe) {
    p.gateway.Submitting? && p.inbox.Full() && p.pending != [] && p.outbox.Full()
  }

  /** Items moved through either end of either ring so far. */
  function Moved(p: Pipe): nat {
    |p.inbox.pushed| + |p.inbox.popped| + |p.outbox.pushed| + |p.outbox.popped|
  }

  /** Pushing to a full ring publishes nothing and leaves it full. */
  lemma FullPush<T>(r: S.Ring<T>, v: T)
    requires S.Inv(r) && r.Full()
    ensures var n := S.Do(r, PushOp(r, v));
            n.pushed == r.pushed && n.popped == r.popped && n.Full() && !PushOp(r, v).StoreTail?
  {
    S.Compared(r);
  }

  /** Stuck is for ever: whatever either thread does next, nothing moves and both still wait. */
  lemma StuckStays(p: Pipe, e: R.State, a: Action)
    requires Inv(p, e) && Stuck(p) && Enabled(p, a)
    ensures Stuck(Do(p, a)) && Moved(Do(p, a)) == Moved(p)
  {
    match a
    case GatewayPush => FullPush(p.inbox, p.gateway.c);
    case EnginePush => FullPush(p.outbox, p.pending[0]);
  }

  lemma {:induction false} StuckForEver(p: Pipe, e: R.State, acts: seq<Action>)
    requires Inv(p, e) && Stuck(p) && CanRun(p, acts)
    ensures Stuck(Run(p, acts)) && Moved(Run(p, acts)) == Moved(p)
    decreases |acts|
  {
    if acts != [] {
      StepInv(p, e, acts[0]);
      StuckStays(p, e, acts[0]);
      StuckForEver(Do(p, acts[0]), e, acts[1..]);
    }
  }

  /** Steps left until a push publishes, or a pop takes, if nothing stands in its way. */
  function PushRank<T>(r: S.Ring<T>): nat {
    match r.prod
    case PIdle => 4
    case PStale(_, _) => 3
    case PReady(_, _) => 2
    case PWritten(_, _) => 1
  }

  function PopRank<T>(r: S.Ring<T>): nat {
    match r.cons
    case CIdle => 4
    case CStale(_) => 3
    case CReady(_) => 2
    case CTaken(_, _) => 1
  }

  lemma PushAdvances<T>(r: S.Ring<T>, v: T)
    requires S.Inv(r) && !r.Full()
    ensures var n := S.Do(r, PushOp(r, v));
            n.popped == r.popped && n.log2 == r.log2 &&
            (if PushOp(r, v).StoreTail? then |n.pushed| == |r.pushed| + 1
             else n.pushed == r.pushed && PushRank(n) < PushRank(r))
  {
    S.Compared(r);
  }

  lemma PopAdvances<T>(r: S.Ring<T>)
    requires S.Inv(r) && !r.Empty()
    ensures var n := S.Do(r, PopOp(r));
            n.pushed == r.pushed && n.log2 == r.log2 &&
            (if PopOp(r).StoreHead? then |n.popped| == |r.popped| + 1
             else n.popped == r.popped && PopRank(n) < PopRank(r))
  {
    S.Compared(r);
  }

  /** Popping from an empty ring gives up within two steps. */
  lemma EmptyPop<T>(r: S.Ring<T>)
    requires S.Inv(r) && r.Empty()
    ensures var n := S.Do(r, PopOp(r));
            && n.pushed == r.pushed && n.popped == r.popped && n.log2 == r.log2
            && (n.cons.CIdle? || PopRank(n) < PopRank(r)) && (n.cons.CIdle? ==> PopOp(r).LoadTailC?)
  {
    S.Compared(r);
  }

  /** An action that brings the pipeline nearer to moving an item, when it is not stuck. */
  function Nudge(p: Pipe): Action {
    if p.pending != [] && !p.outbox.Full() then EnginePush
    else if p.pending == [] && !p.inbox.Empty() then EnginePop
    else match p.gateway
      case Submitting(_) => GatewayPush
      case Draining => GatewayPop
      case Free => if p.outbox.Full() then BeginDrain else BeginSubmit(Cancel(0, 0, 0))
  }

  function Rank(p: Pipe): nat {
    if p.pending != [] && !p.outbox.Full() then PushRank(p.outbox)
    else if p.pending == [] && !p.inbox.Empty() then PopRank(p.inbox)
    else match p.gateway
      case Submitting(_) => PushRank(p.inbox)
      case Draining => if p.outbox.Empty() then 6 + PopRank(p.outbox) else PopRank(p.outbox)
      case Free => 5
  }

  lemma EmptyNotFull<T>(r: S.Ring<T>)
    requires S.Inv(r)
    ensures !(r.Empty() && r.Full())
  {
    S.Compared(r);
  }

  lemma NudgeWorks(p: Pipe, e: R.State)
    requires Inv(p, e) && !Stuck(p)
    ensures Enabled(p, Nudge(p))
    ensures var n := Do(p, Nudge(p)); Moved(n) > Moved(p) || (Moved(n) == Moved(p) && !Stuck(n) && Rank(n) < Rank(p))
  {
    EmptyNotFull(p.inbox);
    EmptyNotFull(p.outbox);
    match Nudge(p)
    case EnginePush => PushAdvances(p.outbox, p.pending[0]);
    case EnginePop => PopAdvances(p.inbox);
    case GatewayPush => PushAdvances(p.inbox, p.gateway.c);
    case GatewayPop => if p.outbox.Empty() { EmptyPop(p.outbox); } else { PopAdvances(p.outbox); }
    case BeginDrain =>
    case BeginSubmit(_) =>
  }

  /** From any state that is not stuck, some schedule moves an item. */
  lemma {:induction false} NotStuckCanMove(p: Pipe, e: R.State) returns (acts: seq<Action>)
    requires Inv(p, e) && !Stuck(p)
    ensures CanRun(p, acts) && Moved(Run(p, acts)) > Moved(p)
    decreases Rank(p)
  {
    NudgeWorks(p, e);
    var a := Nudge(p);
    var n := Do(p, a);
    StepInv(p, e, a);
    if Moved(n) > Moved(p) {
      acts := [a];
      assert acts[1..] == [];
    } else {
      var rest := NotStuckCanMove(n, e);
      acts := [a] + rest;
      assert acts[1..] == rest;
    }
  }

  /** The pipeline can never move another item exactly when it is stuck. */
  lemma StuckIff(p: Pipe, e: R.State)
    requires Inv(p, e)
    ensures Stuck(p) <==> forall acts | CanRun(p, acts) :: Moved(Run(p, acts)) == Moved(p)
  {
    if Stuck(p) {
      forall acts | CanRun(p, acts) ensures Moved(Run(p, acts)) == Moved(p) {
        StuckForEver(p, e, acts);
      }
    } else {
      var acts := NotStuckCanMove(p, e);
    }
  }
}
