/**
 What happens to order ids once generations wrap: exactly when accepting an order reissues an id, exactly
 when a command naming an id ever issued reaches an order, and runs in which both happen.
 */
module IdWrap {
  import opened Types
  import opened Queues
  import opened Reference
  import opened Ids

  // ---------------------------------------------------------------- exact conditions

  /** The id was given out by some event. */
  ghost predicate WasIssued(ev: seq<Event>, id: nat) {
    exists k: nat | k < |ev| :: IssuedAt(ev, k, id)
  }

  predicate IssuedAt(ev: seq<Event>, k: nat, id: nat)
    requires k < |ev|
  {
    ev[k].Accepted? && ev[k].order.id == id
  }

  lemma GenSame(a: nat, b: nat)
    requires a <= b
    ensures GenAfter(a) == GenAfter(b) <==> (b - a) % CYCLE == 0
  {
    assert a == a / CYCLE * CYCLE + a % CYCLE && b == b / CYCLE * CYCLE + b % CYCLE;
    assert b - a == (b / CYCLE - a / CYCLE) * CYCLE + (b % CYCLE - a % CYCLE);
  }

  lemma CyclesBack(n: nat)
    requires n >= CYCLE
    ensures GenAfter(n - CYCLE) == GenAfter(n)
  {
    GenSame(n - CYCLE, n);
    assert CYCLE % CYCLE == 0;
  }

  lemma RepeatNeedsMany(past: seq<Event>, i: nat, k: nat)
    requires Due(past) && i < TWO32 && k < |past| && IssuedAt(past, k, GenAfter(Issued(past, i)) * TWO32 + i)
    ensures Issued(past, i) >= CYCLE
  {
    assert past[k].order.id % TWO32 == i && DueAt(past, k);
    IssuedStep(past, i, k);
    IssuedMonotone(past, i, k + 1, |past|);
    assert past[..|past|] == past;
    var a, n := Issued(past[..k], i), Issued(past, i);
    assert a < n && GenAfter(a) == GenAfter(n);
    if n < CYCLE { GenDistinct(a, n); }
  }

  /** The n-th order of a slot gets an id already given out iff n is at least 2^32 - 1. */
  lemma ReissuedIff(past: seq<Event>, i: nat)
    requires Due(past) && i < TWO32
    ensures WasIssued(past, GenAfter(Issued(past, i)) * TWO32 + i) <==> Issued(past, i) >= CYCLE
  {
    var n := Issued(past, i);
    var id := GenAfter(n) * TWO32 + i;
    if n >= CYCLE {
      var k := NthIssue(past, i, n - CYCLE);
      assert DueAt(past, k);
      CyclesBack(n);
      assert IssuedAt(past, k, id);
    } else if WasIssued(past, id) {
      var k: nat :| k < |past| && IssuedAt(past, k, id);
      RepeatNeedsMany(past, i, k);
    }
  }

  /** The id an admitted order is given. */
  lemma NextId(st: State, c: Command)
    requires Inv(st, {}) && c.New? && c.symbol < |st.books| && Admitted(st, c)
    ensures var i := st.free[0];
            && i < |st.cells| && !IsLive(st, i) && Step(st, c).1 != [] && Step(st, c).1[0].Accepted?
            && Step(st, c).1[0].order.id == st.cells[i].gen * TWO32 + i
  {
    assert st.free[0] in st.free;
    AllocInv(st, OrderFor(c));
  }

  /** Accepting an order reissues an id iff its slot has been issued 2^32 - 1 times or more. */
  lemma AcceptReissuesIff(st: State, past: seq<Event>, c: Command)
    requires Inv(st, {}) && Aged(st, past) && Due(past)
    requires c.New? && c.symbol < |st.books| && Admitted(st, c)
    ensures Step(st, c).1 != [] && Step(st, c).1[0].Accepted?
    ensures WasIssued(past, Step(st, c).1[0].order.id) <==> Issued(past, st.free[0]) >= CYCLE
  {
    NextId(st, c);
    assert AgedAt(st, past, st.free[0]);
    ReissuedIff(past, st.free[0]);
  }

  /** The slot of an id ever issued, and how often it was issued again since. */
  function Since(ev: seq<Event>, k: nat, i: nat): int
    requires k < |ev|
  {
    Issued(ev, i) - Issued(ev[..k + 1], i)
  }

  /** A lookup finds an id ever issued iff its slot is live and was reissued a multiple of 2^32 - 1 times since. */
  lemma FoundIff(st: State, ev: seq<Event>, k: nat, id: nat)
    requires Inv(st, {}) && Aged(st, ev) && Due(ev) && k < |ev| && IssuedAt(ev, k, id)
    ensures var i := id % TWO32; Since(ev, k, i) >= 0 && (Find(st, id).Some? <==> IsLive(st, i) && Since(ev, k, i) % CYCLE == 0)
  {
    var i := id % TWO32;
    IssuedStep(ev, i, k);
    IssuedMonotone(ev, i, k + 1, |ev|);
    assert ev[..|ev|] == ev;
    assert DueAt(ev, k);
    if IsLive(st, i) {
      assert AgedAt(st, ev, i);
      GenSame(Issued(ev[..k], i), Issued(ev, i) - 1);
      assert Ord(st, i).id == st.cells[i].gen * TWO32 + i;
    }
  }

  /**
   Over any run: a Cancel or Replace naming an id ever issued is refused with UnknownOrder, changing nothing,
   unless the slot is live and was reissued a multiple of 2^32 - 1 times since; then it reaches that order.
   */
  lemma RefusedIff(symbols: nat, maxPrice: nat, capacity: nat, cs: seq<Command>, k: nat, c: Command)
    requires symbols <= 0xFFFF && capacity <= NULL && !c.New?
    ensures Inv(Init(symbols, maxPrice, capacity), {})
    ensures var (st, ev) := Run(Init(symbols, maxPrice, capacity), cs);
            var i := c.id % TWO32;
            && Inv(st, {})
            && (k < |ev| && IssuedAt(ev, k, c.id) ==>
                  (Step(st, c) == (st, [Reject(c, UnknownOrder)]) <==> !(IsLive(st, i) && Since(ev, k, i) % CYCLE == 0)))
  {
    InitAged(symbols, maxPrice, capacity, cs);
    var (st, ev) := Run(Init(symbols, maxPrice, capacity), cs);
    RunInv(Init(symbols, maxPrice, capacity), cs);
    if k < |ev| && IssuedAt(ev, k, c.id) {
      FoundIff(st, ev, k, c.id);
      if Find(st, c.id).Some? { NotUnknown(st, c); }
    }
  }

  lemma NotUnknown(st: State, c: Command)
    requires Inv(st, {}) && !c.New? && Find(st, c.id).Some?
    ensures Step(st, c).1 != [] && Step(st, c).1[0] != Reject(c, UnknownOrder)
  {
  }

  // ---------------------------------------------------------------- runs in which it happens

  /** An engine of one slot, with no order in it. */
  ghost predicate Idle(st: State) {
    Inv(st, {}) && Vacant(st)
  }

  predicate Vacant(st: State) {
    |st.cells| == 1 && |st.books| == 1 && st.maxPrice == 1 && !IsLive(st, 0)
  }

  lemma RestsLive(st: State, k: Key, i: nat)
    requires Inv(st, {}) && i in Q(st.books, k)
    ensures IsLive(st, i)
  {
  }

  lemma NothingRests(st: State, k: Key)
    requires Idle(st)
    ensures Q(st.books, k) == []
  {
    var l := Q(st.books, k);
    if l != [] { RestsLive(st, k, l[0]); }
  }

  lemma IdleIsEmpty(st: State)
    requires Idle(st)
    ensures st.free == [0] && forall s: Side :: Best(st.books[0].Get(s), s) == NO_PRICE
  {
    assert 0 in st.free;
    assert |st.free| == 1;
    forall s: Side ensures Best(st.books[0].Get(s), s) == NO_PRICE {
      var lv := st.books[0].Get(s);
      BestIsBest(lv, s);
      forall p: nat | p < |lv| ensures lv[p] == [] {
        NothingRests(st, Key(0, s, p));
      }
    }
  }

  /** A market order finds nothing and leaves; a limit order rests. */
  const PASSING: Command := New(0, 0, 0, Buy, Market, GTC, 0, 1)
  const STAYING: Command := New(0, 0, 0, Buy, Limit, GTC, 1, 1)

  lemma FirstOnly(ev: seq<Event>, i: nat)
    requires ev != [] && AcceptsSlot(ev[0], i) && forall e | e in ev[1..] :: !e.Accepted?
    ensures Issued(ev, i) == 1
  {
    assert ev == [ev[0]] + ev[1..] && [ev[0]][..0] == [];
    IssuedConcat([ev[0]], ev[1..], i);
    IssuedNone(ev[1..], i);
  }

  /** Either order is accepted once, matching nothing. */
  lemma Taken(st: State, c: Command)
    requires Idle(st) && (c == PASSING || c == STAYING)
    ensures var r := OnNew(st, c);
            && |r.0.cells| == 1 && (IsLive(r.0, 0) <==> c == STAYING)
            && (IsLive(r.0, 0) ==> Ord(r.0, 0).session == 0 && Ord(r.0, 0).id == st.cells[0].gen * TWO32)
            && r.1 != [] && AcceptsSlot(r.1[0], 0) && forall e | e in r.1[1..] :: !e.Accepted?
  {
    IdleIsEmpty(st);
    AllocInv(st, OrderFor(c));
    var a := Alloc(st, OrderFor(c));
    assert NextPrice(a, 0) == NO_PRICE && Match(a, 0) == (a, []);
    assert (st.cells[0].gen * TWO32) % TWO32 == 0;
  }

  lemma Stepped(st: State, c: Command)
    requires Idle(st) && (c == PASSING || c == STAYING)
    ensures var r := Step(st, c);
            && |r.0.cells| == 1 && Issued(r.1, 0) == 1
            && (IsLive(r.0, 0) <==> c == STAYING)
            && (IsLive(r.0, 0) ==> Ord(r.0, 0).session == 0 && Ord(r.0, 0).id == st.cells[0].gen * TWO32)
  {
    Taken(st, c);
    FirstOnly(Step(st, c).1, 0);
  }

  /** The same command `n` times. */
  function Times(c: Command, n: nat): seq<Command> {
    if n == 0 then [] else [c] + Times(c, n - 1)
  }

  lemma RunCons(st: State, c: Command, cs: seq<Command>)
    requires Inv(st, {})
    ensures Inv(Step(st, c).0, {})
    ensures var (a, r) := (Step(st, c), Run(Step(st, c).0, cs)); Run(st, [c] + cs) == (r.0, a.1 + r.1)
  {
    StepInv(st, c);
    assert ([c] + cs)[1..] == cs;
  }

  /** The command goes through an idle engine, issuing the slot once. */
  ghost predicate PassesBy(c: Command) {
    forall st: State | Idle(st) :: Vacant(Step(st, c).0) && Issued(Step(st, c).1, 0) == 1
  }

  lemma MarketPassesBy()
    ensures PassesBy(PASSING)
  {
    forall st: State | Idle(st) ensures Vacant(Step(st, PASSING).0) && Issued(Step(st, PASSING).1, 0) == 1 {
      Stepped(st, PASSING);
      StepInv(st, PASSING);
    }
  }

  lemma {:induction false} Churned(st: State, c: Command, n: nat) returns (r: (State, seq<Event>))
    requires Idle(st) && PassesBy(c)
    ensures r == Run(st, Times(c, n)) && Vacant(r.0) && Issued(r.1, 0) == n
    decreases n
  {
    if n == 0 {
      return (st, []);
    }
    var a := Step(st, c);
    assert Inv(a.0, {}) by { StepInv(st, c); }
    var rest := Churned(a.0, c, n - 1);
    r := (rest.0, a.1 + rest.1);
    assert Issued(r.1, 0) == n by { IssuedConcat(a.1, rest.1, 0); }
    assert r == Run(st, Times(c, n)) by { RunCons(st, c, Times(c, n - 1)); }
  }

  lemma InitIdle()
    ensures Idle(Init(1, 1, 1))
  {
    InitInv(1, 1, 1);
  }

  /** A run of 2^32 market orders through one slot gives an id out twice. */
  lemma IdRepeats()
    ensures Inv(Init(1, 1, 1), {})
    ensures var ev := Run(Init(1, 1, 1), Times(PASSING, CYCLE + 1)).1; exists j: nat, k: nat | j < k < |ev| :: SameId(ev, j, k)
  {
    InitIdle();
    MarketPassesBy();
    var r := Churned(Init(1, 1, 1), PASSING, CYCLE + 1);
    UniqueIds(1, 1, 1, Times(PASSING, CYCLE + 1));
  }

  /** A cancel of the one order there is. */
  lemma Cancels(st: State, c: Command)
    requires Inv(st, {}) && |st.cells| == 1 && IsLive(st, 0) && Ord(st, 0).session == 0
    requires c.Cancel? && c.session == 0 && c.id == Ord(st, 0).id
    ensures var r := Step(st, c);
            && |r.0.cells| == 1 && !IsLive(r.0, 0) && r.1 != [] && r.1[0] == Cancelled(Ord(st, 0))
            && forall e | e in r.1 :: !e.Accepted?
  {
    assert (st.cells[0].gen * TWO32) % TWO32 == 0;
    assert Find(st, c.id) == Some(0);
  }

  /** The one slot holds an order of session 0 with this id. */
  predicate Holding(st: State, id: nat) {
    && |st.cells| == 1 && |st.books| == 1 && st.maxPrice == 1
    && IsLive(st, 0) && Ord(st, 0).session == 0 && Ord(st, 0).id == id
  }

  /** An order rests in an idle engine under the id of its slot's generation. */
  lemma Rests(st: State, cs: seq<Command>)
    requires Inv(st, {}) && Idle(Run(st, cs).0)
    ensures var (m, r) := (Run(st, cs), Run(st, cs + [STAYING]));
            Inv(r.0, {}) && Holding(r.0, m.0.cells[0].gen * TWO32) && Issued(r.1, 0) == Issued(m.1, 0) + 1
  {
    RunSnoc(st, cs, STAYING);
    var m := Run(st, cs);
    Stepped(m.0, STAYING);
    StepInv(m.0, STAYING);
    IssuedConcat(m.1, Step(m.0, STAYING).1, 0);
  }

  /** Its cancel leaves the engine idle. */
  lemma Leaves(st: State, cs: seq<Command>, c: Command)
    requires Inv(st, {}) && c.Cancel? && c.session == 0
    ensures var (m, r) := (Run(st, cs), Run(st, cs + [c]));
            Holding(m.0, c.id) ==> Idle(r.0) && Issued(r.1, 0) == Issued(m.1, 0)
  {
    RunSnoc(st, cs, c);
    var m := Run(st, cs);
    if Holding(m.0, c.id) {
      Cancels(m.0, c);
      StepInv(m.0, c);
      IssuedConcat(m.1, Step(m.0, c).1, 0);
      IssuedNone(Step(m.0, c).1, 0);
    }
  }

  lemma Pass(st: State, cs: seq<Command>, n: nat)
    requires Inv(st, {}) && Idle(Run(st, cs).0)
    ensures var (m, r) := (Run(st, cs), Run(st, cs + Times(PASSING, n))); Idle(r.0) && Issued(r.1, 0) == Issued(m.1, 0) + n
  {
    RunConcat(st, cs, Times(PASSING, n));
    MarketPassesBy();
    var m := Run(st, cs);
    var r := Churned(m.0, PASSING, n);
    IssuedConcat(m.1, r.1, 0);
    RunInv(m.0, Times(PASSING, n));
  }

  /** The generation of an idle slot tells how often it was issued. */
  lemma GenOf(cs: seq<Command>)
    ensures Inv(Init(1, 1, 1), {})
    ensures var r := Run(Init(1, 1, 1), cs); Idle(r.0) ==> r.0.cells[0].gen == GenAfter(Issued(r.1, 0))
  {
    InitAged(1, 1, 1, cs);
    var r := Run(Init(1, 1, 1), cs);
    assert AgedAt(r.0, r.1, 0);
  }

  /** An order rests and is cancelled; its id, the first a slot gets, is finished. */
  lemma Finish(c: Command) returns (cs: seq<Command>)
    requires c == Cancel(0, 0, 0x1_0000_0000)
    ensures Inv(Init(1, 1, 1), {})
    ensures var r := Run(Init(1, 1, 1), cs); Idle(r.0) && Issued(r.1, 0) == 1 && Finished(r.0, r.1, c.id)
  {
    InitIdle();
    var st := Init(1, 1, 1);
    cs := [];
    Rests(st, cs);
    GenOf(cs);
    cs := cs + [STAYING];
    Leaves(st, cs, c);
    cs := cs + [c];
    InitAged(1, 1, 1, cs);
    var r := Run(st, cs);
    var k := NthIssue(r.1, 0, 0);
    assert DueAt(r.1, k);
  }

  /** 2^32 - 2 orders later, the slot is idle again, in its first generation. */
  lemma ComesRound(cs: seq<Command>, n: nat)
    requires n == CYCLE - 1
    ensures Inv(Init(1, 1, 1), {})
    ensures var (early, mid) := (Run(Init(1, 1, 1), cs), Run(Init(1, 1, 1), cs + Times(PASSING, n)));
            Idle(early.0) && Issued(early.1, 0) == 1 ==> Idle(mid.0) && mid.0.cells[0].gen == 1
  {
    InitIdle();
    var early := Run(Init(1, 1, 1), cs);
    GenOf(cs + Times(PASSING, n));
    assert GenAfter(n + 1) == 1 by { assert CYCLE % CYCLE == 0; }
    if Idle(early.0) && Issued(early.1, 0) == 1 { Pass(Init(1, 1, 1), cs, n); }
  }

  /** Then an order rests under the id of the first. */
  lemma Reborn(st: State, mid: seq<Command>)
    requires Inv(st, {})
    ensures var (m, late) := (Run(st, mid).0, Run(st, mid + [STAYING]).0);
            Idle(m) && m.cells[0].gen == 1 ==> Inv(late, {}) && Holding(late, TWO32)
  {
    if Idle(Run(st, mid).0) { Rests(st, mid); }
  }

  /** The commands `cs` finish the id that `c` names; after `more`, `c` cancels another order. */
  ghost predicate Recycles(cs: seq<Command>, more: seq<Command>, c: Command) {
    && c.Cancel? && Inv(Init(1, 1, 1), {})
    && (var early := Run(Init(1, 1, 1), cs); Finished(early.0, early.1, c.id))
    && CancelsOne(Run(Init(1, 1, 1), cs + more).0, c)
  }

  ghost predicate CancelsOne(st: State, c: Command) {
    Inv(st, {}) && IsLive(st, 0) && Step(st, c).1 != [] && Step(st, c).1[0] == Cancelled(Ord(st, 0))
  }

  lemma HoldingCancels(st: State, c: Command)
    requires Inv(st, {}) && c.Cancel? && c.session == 0 && Holding(st, c.id)
    ensures CancelsOne(st, c)
  {
    Cancels(st, c);
  }

  /** A Cancel naming a finished order cancels another order, once the generations of its slot have come round. */
  lemma FinishedIsReached()
    ensures exists cs: seq<Command>, more: seq<Command>, c: Command :: Recycles(cs, more, c)
  {
    var c := Cancel(0, 0, 0x1_0000_0000);
    var cs := Finish(c);
    var n := CYCLE - 1;
    var mid, more := cs + Times(PASSING, n), Times(PASSING, n) + [STAYING];
    assert cs + more == mid + [STAYING];
    ComesRound(cs, n);
    Reborn(Init(1, 1, 1), mid);
    HoldingCancels(Run(Init(1, 1, 1), cs + more).0, c);
    assert Recycles(cs, more, c);
  }
}
