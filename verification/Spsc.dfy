/**
 The single-producer single-consumer ring as interleaved atomic steps.

 Every load, store and buffer access of try_push and try_pop is one step; a step also makes the
 thread-local comparison that follows it. Steps of the two threads interleave in any order, each
 seeing the latest value of every shared location. Indices are 64 bits wide and wrap.
 */
module Spsc {
  import opened Types
  import opened Modular

  /** Where try_push is: `t` is the tail it loaded. */
  datatype Producer<T> =
    | PIdle
    | PStale(v: T, t: nat)    // full by the cached head; must load the head
    | PReady(v: T, t: nat)    // room; must write the slot
    | PWritten(v: T, t: nat)  // slot written; must publish the tail

  /** Where try_pop is: `h` is the head it loaded. */
  datatype Consumer<T> =
    | CIdle
    | CStale(h: nat)          // empty by the cached tail; must load the tail
    | CReady(h: nat)          // an item is there; must read the slot
    | CTaken(h: nat, out: T)  // slot read; must publish the head

  /**
   The shared and cached words of the ring, both program counters, and three history variables:
   everything published, everything taken, and the cached indices before wrapping.
   */
  datatype Ring<T> = Ring(
    log2: nat, buf: seq<T>,
    head: nat, tail: nat, cachedHead: nat, cachedTail: nat,
    prod: Producer<T>, cons: Consumer<T>,
    pushed: seq<T>, popped: seq<T>, seenHead: nat, seenTail: nat)
  {
    function Cap(): nat {
      Pow2(log2)
    }

    predicate Full() {
      |pushed| - |popped| == Cap()
    }

    predicate Empty() {
      |pushed| == |popped|
    }
  }

  /** A new ring over a buffer of the given size. */
  function Create<T>(log2: nat, buf: seq<T>): Ring<T> {
    Ring(log2, buf, 0, 0, 0, 0, PIdle, CIdle, [], [], 0, 0)
  }

  // ---------------------------------------------------------------- steps

  datatype Op<T> = LoadTail(v: T) | LoadHead | WriteSlot | StoreTail | LoadHeadC | LoadTailC | ReadSlot | StoreHead

  predicate Enabled<T>(r: Ring<T>, op: Op<T>) {
    match op
    case LoadTail(_) => r.prod.PIdle?
    case LoadHead => r.prod.PStale?
    case WriteSlot => r.prod.PReady?
    case StoreTail => r.prod.PWritten?
    case LoadHeadC => r.cons.CIdle?
    case LoadTailC => r.cons.CStale?
    case ReadSlot => r.cons.CReady?
    case StoreHead => r.cons.CTaken?
  }

  function Do<T>(r: Ring<T>, op: Op<T>): Ring<T>
    requires Inv(r) && Enabled(r, op)
  {
    CapacityFits(r.log2);
    match op
    case LoadTail(v) =>
      r.(prod := if Minus(r.tail, r.cachedHead) >= |r.buf| then PStale(v, r.tail) else PReady(v, r.tail))
    case LoadHead =>
      r.(cachedHead := r.head, seenHead := |r.popped|,
         prod := if Minus(r.prod.t, r.head) >= |r.buf| then PIdle else PReady(r.prod.v, r.prod.t))
    case WriteSlot =>
      r.(buf := r.buf[r.prod.t % r.Cap() := r.prod.v], prod := PWritten(r.prod.v, r.prod.t))
    case StoreTail =>
      r.(tail := Next(r.prod.t), pushed := r.pushed + [r.prod.v], prod := PIdle)
    case LoadHeadC =>
      r.(cons := if r.head == r.cachedTail then CStale(r.head) else CReady(r.head))
    case LoadTailC =>
      r.(cachedTail := r.tail, seenTail := |r.pushed|, cons := if r.cons.h == r.tail then CIdle else CReady(r.cons.h))
    case ReadSlot =>
      r.(cons := CTaken(r.cons.h, r.buf[r.cons.h % r.Cap()]))
    case StoreHead =>
      r.(head := Next(r.cons.h), popped := r.popped + [r.cons.out], cons := CIdle)
  }

  // ---------------------------------------------------------------- invariant

  ghost predicate Inv<T>(r: Ring<T>) {
    && r.log2 < 64 && |r.buf| == r.Cap()
    && r.tail == Wrap(|r.pushed|) && r.head == Wrap(|r.popped|)
    && r.cachedHead == Wrap(r.seenHead) && r.cachedTail == Wrap(r.seenTail)
    && r.seenHead <= |r.popped| <= r.seenTail <= |r.pushed| <= r.seenHead + r.Cap()
    && r.popped <= r.pushed
    && (forall j: nat | |r.popped| <= j < |r.pushed| :: Holds(r, j))
    && ProducerOk(r) && ConsumerOk(r)
  }

  /** The slot of item `j` still holds it. */
  ghost predicate Holds<T>(r: Ring<T>, j: nat)
    requires j < |r.pushed|
  {
    r.Cap() > 0 && j % r.Cap() < |r.buf| && r.buf[j % r.Cap()] == r.pushed[j]
  }

  ghost predicate ProducerOk<T>(r: Ring<T>) {
    && (!r.prod.PIdle? ==> r.prod.t == r.tail)
    && (r.prod.PReady? || r.prod.PWritten? ==> |r.pushed| < r.seenHead + r.Cap())
    && (r.prod.PWritten? ==> r.Cap() > 0 && |r.pushed| % r.Cap() < |r.buf| && r.buf[|r.pushed| % r.Cap()] == r.prod.v)
  }

  ghost predicate ConsumerOk<T>(r: Ring<T>) {
    && (!r.cons.CIdle? ==> r.cons.h == r.head)
    && (r.cons.CReady? || r.cons.CTaken? ==> |r.popped| < r.seenTail)
    && (r.cons.CTaken? ==> |r.popped| < |r.pushed| && r.cons.out == r.pushed[|r.popped|])
  }

  lemma CreateInv<T>(log2: nat, buf: seq<T>)
    requires log2 < 64 && |buf| == Pow2(log2)
    ensures Inv(Create(log2, buf))
  {
    CapacityFits(log2);
  }

  /** What the wrapped comparisons of try_push and try_pop mean for the unwrapped counters. */
  lemma Compared<T>(r: Ring<T>)
    requires Inv(r)
    ensures 0 < r.Cap() == |r.buf| < TWO64
    ensures Minus(r.tail, r.cachedHead) == |r.pushed| - r.seenHead
    ensures Minus(r.tail, r.head) == |r.pushed| - |r.popped|
    ensures r.head == r.cachedTail <==> |r.popped| == r.seenTail
    ensures r.head == r.tail <==> |r.popped| == |r.pushed|
    ensures r.tail % r.Cap() == |r.pushed| % r.Cap() && r.head % r.Cap() == |r.popped| % r.Cap()
  {
    CapacityFits(r.log2);
    SlotOfWrapped(|r.pushed|, r.log2);
    SlotOfWrapped(|r.popped|, r.log2);
    WrappedDistance(|r.pushed|, r.seenHead);
    WrappedDistance(|r.pushed|, |r.popped|);
    WrappedDistance(r.seenTail, |r.popped|);
  }

  lemma LoadsInv<T>(r: Ring<T>, op: Op<T>)
    requires Inv(r) && Enabled(r, op) && (op.LoadTail? || op.LoadHead? || op.LoadHeadC? || op.LoadTailC?)
    ensures Inv(Do(r, op))
  {
    Compared(r);
    var n := Do(r, op);
    forall j: nat | |n.popped| <= j < |n.pushed| ensures Holds(n, j) {
      assert Holds(r, j);
    }
  }

  /** Writing the slot overwrites nothing unread and nothing being read. */
  lemma WriteInv<T>(r: Ring<T>)
    requires Inv(r) && Enabled(r, WriteSlot)
    ensures Inv(Do(r, WriteSlot))
  {
    Compared(r);
    var n := Do(r, WriteSlot);
    forall j: nat | |n.popped| <= j < |n.pushed| ensures Holds(n, j) {
      assert Holds(r, j);
      SlotsDiffer(|r.pushed|, j, r.Cap());
    }
  }

  lemma StoreTailInv<T>(r: Ring<T>)
    requires Inv(r) && Enabled(r, StoreTail)
    ensures Inv(Do(r, StoreTail))
  {
    Compared(r);
    WrapNext(|r.pushed|);
    var n := Do(r, StoreTail);
    forall j: nat | |n.popped| <= j < |n.pushed| ensures Holds(n, j) {
      if j < |r.pushed| { assert Holds(r, j); }
    }
  }

  lemma ReadInv<T>(r: Ring<T>)
    requires Inv(r) && Enabled(r, ReadSlot)
    ensures Inv(Do(r, ReadSlot))
  {
    Compared(r);
    var n := Do(r, ReadSlot);
    assert Holds(r, |r.popped|);
    forall j: nat | |n.popped| <= j < |n.pushed| ensures Holds(n, j) {
      assert Holds(r, j);
    }
  }

  lemma StoreHeadInv<T>(r: Ring<T>)
    requires Inv(r) && Enabled(r, StoreHead)
    ensures Inv(Do(r, StoreHead))
  {
    Compared(r);
    WrapNext(|r.popped|);
    var n := Do(r, StoreHead);
    forall j: nat | |n.popped| <= j < |n.pushed| ensures Holds(n, j) {
      assert Holds(r, j);
    }
  }

  /** One step of either thread keeps the invariant. */
  lemma StepInv<T>(r: Ring<T>, op: Op<T>)
    requires Inv(r) && Enabled(r, op)
    ensures Inv(Do(r, op))
  {
    match op
    case LoadTail(_) => LoadsInv(r, op);
    case LoadHead => LoadsInv(r, op);
    case WriteSlot => WriteInv(r);
    case StoreTail => StoreTailInv(r);
    case LoadHeadC => LoadsInv(r, op);
    case LoadTailC => LoadsInv(r, op);
    case ReadSlot => ReadInv(r);
    case StoreHead => StoreHeadInv(r);
  }

  // ---------------------------------------------------------------- whole runs

  /** The steps can be taken one after the other from `r`, each when its thread is there. */
  ghost predicate CanRun<T>(r: Ring<T>, ops: seq<Op<T>>)
    requires Inv(r)
    decreases |ops|
  {
    ops == [] ||
    (Enabled(r, ops[0]) && (StepInv(r, ops[0]); CanRun(Do(r, ops[0]), ops[1..])))
  }

  function Run<T>(r: Ring<T>, ops: seq<Op<T>>): Ring<T>
    requires Inv(r) && CanRun(r, ops)
    decreases |ops|
  {
    if ops == [] then r
    else
      StepInv(r, ops[0]);
      Run(Do(r, ops[0]), ops[1..])
  }

  lemma {:induction false} RunInv<T>(r: Ring<T>, ops: seq<Op<T>>)
    requires Inv(r) && CanRun(r, ops)
    ensures Inv(Run(r, ops)) && Run(r, ops).log2 == r.log2
    decreases |ops|
  {
    if ops != [] {
      StepInv(r, ops[0]);
      RunInv(Do(r, ops[0]), ops[1..]);
    }
  }

  /** What the steps publish: each tail store the item of the push it ends. */
  function Published<T>(ops: seq<Op<T>>): seq<T> {
    if ops == [] then []
    else
      var n := |ops| - 1;
      Published(ops[..n]) + if ops[n].StoreTail? then Offered(ops[..n]) else []
  }

  /** The item of the latest push, if any. */
  function Offered<T>(ops: seq<Op<T>>): seq<T> {
    if ops == [] then []
    else
      var n := |ops| - 1;
      if ops[n].LoadTail? then [ops[n].v] else Offered(ops[..n])
  }

  /** The ring has published what the steps published, and is pushing the item offered last. */
  ghost predicate Keeps<T>(r: Ring<T>, ops: seq<Op<T>>) {
    r.pushed == Published(ops) && (!r.prod.PIdle? ==> Offered(ops) == [r.prod.v])
  }

  lemma StepKeeps<T>(r: Ring<T>, done: seq<Op<T>>, op: Op<T>)
    requires Inv(r) && Enabled(r, op) && Keeps(r, done)
    ensures Keeps(Do(r, op), done + [op])
  {
    assert (done + [op])[..|done|] == done;
  }

  lemma {:induction false} RunKeeps<T>(r: Ring<T>, done: seq<Op<T>>, ops: seq<Op<T>>)
    requires Inv(r) && CanRun(r, ops) && Keeps(r, done)
    ensures Keeps(Run(r, ops), done + ops)
    decreases |ops|
  {
    if ops == [] {
      assert done + ops == done;
    } else {
      StepInv(r, ops[0]);
      StepKeeps(r, done, ops[0]);
      RunKeeps(Do(r, ops[0]), done + [ops[0]], ops[1..]);
      Shift(done, ops);
    }
  }

  /** The producer's slot is never the one the consumer is on. */
  lemma NoSharedSlot<T>(r: Ring<T>)
    requires Inv(r) && (r.prod.PReady? || r.prod.PWritten?) && (r.cons.CReady? || r.cons.CTaken?)
    ensures r.Cap() > 0 && r.prod.t % r.Cap() != r.cons.h % r.Cap()
  {
    Compared(r);
    SlotsDiffer(|r.pushed|, |r.popped|, r.Cap());
  }

  /** A slot is read only while it holds the oldest unread item, and that is what is taken. */
  lemma ReadsTheOldest<T>(r: Ring<T>)
    requires Inv(r) && r.cons.CReady?
    ensures !r.Empty() && Do(r, ReadSlot).cons.CTaken? && Do(r, ReadSlot).cons.out == r.pushed[|r.popped|]
  {
    ReadInv(r);
  }

  /** try_push gives up exactly when the ring is full at the moment it loads the head. */
  lemma PushFailsIffFull<T>(r: Ring<T>)
    requires Inv(r) && r.prod.PStale?
    ensures Do(r, LoadHead).prod.PIdle? <==> r.Full()
  {
    Compared(r);
  }

  /** try_pop gives up exactly when the ring is empty at the moment it loads the tail. */
  lemma PopFailsIffEmpty<T>(r: Ring<T>)
    requires Inv(r) && r.cons.CStale?
    ensures Do(r, LoadTailC).cons.CIdle? <==> r.Empty()
  {
    Compared(r);
  }

  /**
   Under every interleaving: what was pushed is the items of the pushes that ended, in order; what was popped is a
   prefix of it, at most a lap behind; the slot being written is never the slot being read; and what is read is the
   oldest item not popped.
   */
  lemma Fifo<T>(log2: nat, buf: seq<T>, ops: seq<Op<T>>)
    requires log2 < 64 && |buf| == Pow2(log2) && (CreateInv(log2, buf); CanRun(Create(log2, buf), ops))
    ensures Inv(Create(log2, buf))
    ensures var r := Run(Create(log2, buf), ops);
            && r.pushed == Published(ops)
            && r.popped <= r.pushed && |r.pushed| - |r.popped| <= Pow2(log2)
            && ((r.prod.PReady? || r.prod.PWritten?) && (r.cons.CReady? || r.cons.CTaken?) ==>
                  r.Cap() > 0 && r.prod.t % r.Cap() != r.cons.h % r.Cap())
            && (r.cons.CReady? ==> !r.Empty() && Inv(r) && Do(r, ReadSlot).cons == CTaken(r.cons.h, r.pushed[|r.popped|]))
  {
    CreateInv(log2, buf);
    RunInv(Create(log2, buf), ops);
    RunKeeps(Create(log2, buf), [], ops);
    assert [] + ops == ops;
    var r := Run(Create(log2, buf), ops);
    if (r.prod.PReady? || r.prod.PWritten?) && (r.cons.CReady? || r.cons.CTaken?) { NoSharedSlot(r); }
    if r.cons.CReady? { ReadsTheOldest(r); }
  }
}
