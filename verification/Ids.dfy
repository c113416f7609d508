/**
 Order ids: generation and slot. Exactly when they repeat, and why a finished order's id never
 reaches the order that later took its slot.
 */
module Ids {
  import opened Types
  import opened Queues
  import opened Reference
  import Ledger

  /** Generations run from 1 to 2^32 - 1 and start again at 1. */
  const CYCLE: nat := TWO32 - 1

  /** The generation of a slot that has been freed `n` times. */
  function GenAfter(n: nat): nat {
    1 + n % CYCLE
  }

  lemma NextGenIs(n: nat)
    ensures NextGen(GenAfter(n)) == GenAfter(n + 1)
  {
    var g := n % CYCLE;
    assert n == n / CYCLE * CYCLE + g;
    if g + 1 == CYCLE {
      assert n + 1 == (n / CYCLE + 1) * CYCLE;
      assert (n + 1) % CYCLE == 0;
    } else {
      assert (n + 1) % CYCLE == g + 1;
    }
  }

  predicate AcceptsSlot(e: Event, i: nat) {
    e.Accepted? && e.order.id % TWO32 == i
  }

  /** How many times slot `i` was given to a new order. */
  function Issued(ev: seq<Event>, i: nat): nat {
    if ev == [] then 0 else Issued(ev[..|ev| - 1], i) + if AcceptsSlot(ev[|ev| - 1], i) then 1 else 0
  }

  lemma {:induction false} IssuedConcat(a: seq<Event>, b: seq<Event>, i: nat)
    ensures Issued(a + b, i) == Issued(a, i) + Issued(b, i)
  {
    if b == [] {
      assert a + b == a;
    } else {
      assert (a + b)[..|a + b| - 1] == a + b[..|b| - 1];
      IssuedConcat(a, b[..|b| - 1], i);
    }
  }

  lemma {:induction false} IssuedNone(ev: seq<Event>, i: nat)
    requires forall e | e in ev :: !e.Accepted?
    ensures Issued(ev, i) == 0
  {
    if ev != [] { IssuedNone(ev[..|ev| - 1], i); }
  }

  // ---------------------------------------------------------------- generations over a run

  function LiveBit(st: State, i: nat): nat {
    if IsLive(st, i) then 1 else 0
  }

  /** The slot's generation counts how often it was freed: issued, less the order still in it. */
  predicate AgedAt(st: State, past: seq<Event>, i: nat) {
    i < |st.cells| ==> Issued(past, i) >= LiveBit(st, i) && st.cells[i].gen == GenAfter(Issued(past, i) - LiveBit(st, i))
  }

  ghost predicate Aged(st: State, past: seq<Event>) {
    forall i: nat :: AgedAt(st, past, i)
  }

  /** The event at `k`, if it accepts an order, gives it the id due at that point. */
  predicate DueAt(ev: seq<Event>, k: nat)
    requires k < |ev|
  {
    ev[k].Accepted? ==>
      var i := ev[k].order.id % TWO32; ev[k].order.id == GenAfter(Issued(ev[..k], i)) * TWO32 + i
  }

  ghost predicate Due(ev: seq<Event>) {
    forall k: nat | k < |ev| :: DueAt(ev, k)
  }

  /** Events that accept nothing leave ages and dues alone. */
  lemma QuietEvents(st: State, past: seq<Event>, ev: seq<Event>)
    requires Due(past) && forall e | e in ev :: !e.Accepted?
    ensures Due(past + ev)
    ensures Aged(st, past) ==> Aged(st, past + ev)
  {
    forall k: nat | k < |past + ev| ensures DueAt(past + ev, k) {
      if k < |past| {
        assert DueAt(past, k) && (past + ev)[..k] == past[..k];
      } else {
        assert (past + ev)[k] in ev;
      }
    }
    forall i: nat | Aged(st, past) ensures AgedAt(st, past + ev, i) {
      assert AgedAt(st, past, i);
      IssuedConcat(past, ev, i);
      IssuedNone(ev, i);
    }
  }

  lemma AgedCells(st: State, r: State, past: seq<Event>)
    requires Aged(st, past) && |r.cells| == |st.cells|
    requires forall i: nat | i < |st.cells| :: r.cells[i].gen == st.cells[i].gen && IsLive(r, i) == IsLive(st, i)
    ensures Aged(r, past)
  {
    forall i: nat ensures AgedAt(r, past, i) {
      assert AgedAt(st, past, i);
    }
  }

  lemma AgedRelease(st: State, r: State, i: nat, past: seq<Event>)
    requires Aged(st, past) && IsLive(st, i) && r.cells == Release(st, i).cells
    ensures Aged(r, past)
  {
    assert AgedAt(st, past, i);
    NextGenIs(Issued(past, i) - 1);
    forall j: nat ensures AgedAt(r, past, j) {
      assert AgedAt(st, past, j);
    }
  }

  lemma AgedAlloc(st: State, o: Order, past: seq<Event>)
    requires Aged(st, past) && Due(past) && st.free != [] && st.free[0] < |st.cells| <= TWO32 && !IsLive(st, st.free[0])
    ensures var a := Alloc(st, o);
            Aged(a, past + [Accepted(Ord(a, st.free[0]))]) && Due(past + [Accepted(Ord(a, st.free[0]))])
  {
    var t, a := st.free[0], Alloc(st, o);
    var e := Accepted(Ord(a, t));
    assert Ord(a, t).id % TWO32 == t;
    assert AgedAt(st, past, t);
    forall i: nat ensures AgedAt(a, past + [e], i) {
      assert AgedAt(st, past, i);
      assert (past + [e])[..|past|] == past;
    }
    forall k: nat | k < |past + [e]| ensures DueAt(past + [e], k) {
      assert (past + [e])[..k] == past[..k];
      if k < |past| { assert DueAt(past, k); } else { assert past[..k] == past; }
    }
  }

  // ---------------------------------------------------------------- commands

  lemma HitAged(st: State, t: nat, past: seq<Event>)
    requires CanHit(st, t) && Aged(st, past)
    ensures Aged(Hit(st, t), past)
  {
    var m, x := Maker(st, t), HitQty(st, t);
    var r := SetOrd(SetOrd(st, t, Less(Ord(st, t), x)), m, Less(Ord(st, m), x));
    AgedCells(st, r, past);
    if Ord(st, m).qty == x { AgedRelease(r, Hit(st, t), m, past); }
  }

  lemma {:induction false} MatchAged(st: State, t: nat, past: seq<Event>)
    requires Matching(st, t) && Aged(st, past)
    ensures Aged(Match(st, t).0, past) && forall e | e in Match(st, t).1 :: !e.Accepted?
    decreases Ord(st, t).qty
  {
    if NextPrice(st, t) != NO_PRICE {
      HitInv(st, t);
      HitAged(st, t, past);
      MatchAged(Hit(st, t), t, past);
    }
  }

  lemma MatchAndRestAged(st: State, t: nat, past: seq<Event>)
    requires Matching(st, t) && CanMatch(st.maxPrice, Ord(st, t)) && Aged(st, past)
    ensures Aged(MatchAndRest(st, t).0, past) && forall e | e in MatchAndRest(st, t).1 :: !e.Accepted?
  {
    MatchInv(st, t);
    MatchAged(st, t, past);
    var r := Match(st, t).0;
    var o := Ord(r, t);
    if o.qty == 0 || o.otype == Market || o.tif == IOC {
      AgedRelease(r, Release(r, t), t, past);
    } else {
      AgedCells(r, Rest(r, t), past);
    }
  }

  lemma NewAged(st: State, c: Command, past: seq<Event>)
    requires Inv(st, {}) && c.New? && c.symbol < |st.books| && Aged(st, past) && Due(past)
    ensures Aged(OnNew(st, c).0, past + OnNew(st, c).1) && Due(past + OnNew(st, c).1)
  {
    if Admitted(st, c) {
      AllocInv(st, OrderFor(c));
      assert st.free[0] in st.free;
      var t, a := st.free[0], Alloc(st, OrderFor(c));
      var e := Accepted(Ord(a, t));
      AgedAlloc(st, OrderFor(c), past);
      MatchAndRestAged(a, t, past + [e]);
      var r := MatchAndRest(a, t);
      QuietEvents(r.0, past + [e], r.1);
      assert past + [e] + r.1 == past + ([e] + r.1);
    } else {
      QuietEvents(st, past, OnNew(st, c).1);
    }
  }

  lemma ReplaceAged(st: State, c: Command, i: nat, past: seq<Event>)
    requires Inv(st, {}) && c.Replace? && IsLive(st, i) && Aged(st, past)
    ensures Aged(OnReplace(st, c, i).0, past) && forall e | e in OnReplace(st, c, i).1 :: !e.Accepted?
  {
    if Replaceable(st, c) {
      var o := Revised(Ord(st, i), c);
      ReplaceInv(st, i, o);
      if KeepsPlace(Ord(st, i), c) {
        AgedCells(st, SetOrd(st, i, o), past);
      } else {
        var a := SetOrd(Detach(st, i), i, o);
        AgedCells(st, a, past);
        MatchAndRestAged(a, i, past);
      }
    }
  }

  lemma ActAged(st: State, c: Command, i: nat, past: seq<Event>)
    requires Inv(st, {}) && Aged(st, past) && Due(past)
    requires if c.New? then c.symbol < |st.books| else IsLive(st, i)
    ensures Aged(Act(st, c, i).0, past + Act(st, c, i).1) && Due(past + Act(st, c, i).1)
  {
    match c
    case New(_, _, _, _, _, _, _, _) => NewAged(st, c, past);
    case Cancel(_, _, _) =>
      ListedInBounds(st, {}, i);
      AgedRelease(st, OnCancel(st, i).0, i, past);
      QuietEvents(OnCancel(st, i).0, past, OnCancel(st, i).1);
    case Replace(_, _, _, _, _) =>
      ReplaceAged(st, c, i, past);
      QuietEvents(OnReplace(st, c, i).0, past, OnReplace(st, c, i).1);
  }

  lemma WithTopAged(st: State, y: nat, a: (State, seq<Event>), past: seq<Event>)
    requires y < |st.books| && y < |a.0.books| && Aged(a.0, past + a.1) && Due(past + a.1)
    ensures var r := WithTop(st, y, a); Aged(r.0, past + r.1) && Due(past + r.1)
  {
    var top := if TopOf(a.0, y) != TopOf(st, y) then [Top(y, TopOf(a.0, y))] else [];
    QuietEvents(a.0, past + a.1, top);
    assert past + a.1 + top == past + (a.1 + top);
  }

  lemma StepAged(st: State, c: Command, past: seq<Event>)
    requires Inv(st, {}) && Aged(st, past) && Due(past)
    ensures Aged(Step(st, c).0, past + Step(st, c).1) && Due(past + Step(st, c).1)
  {
    if c.New? {
      QuietEvents(st, past, [Reject(c, BadSymbol)]);
      if c.symbol < |st.books| {
        ActInv(st, c, 0);
        ActAged(st, c, 0, past);
        WithTopAged(st, c.symbol, Act(st, c, 0), past);
      }
    } else {
      QuietEvents(st, past, [Reject(c, UnknownOrder)]);
      QuietEvents(st, past, [Reject(c, NotOwner)]);
      var f := Find(st, c.id);
      if f.Some? {
        ActInv(st, c, f.value);
        ActAged(st, c, f.value, past);
        WithTopAged(st, Ord(st, f.value).symbol, Act(st, c, f.value), past);
      }
    }
  }

  lemma AgedThen(st: State, past: seq<Event>, a: seq<Event>, b: seq<Event>)
    requires Aged(st, past + a + b) && Due(past + a + b)
    ensures Aged(st, past + (a + b)) && Due(past + (a + b))
  {
    assert past + a + b == past + (a + b);
  }

  /** Over any run, the n-th order of a slot has generation 1 + n mod (2^32 - 1). */
  lemma {:induction false} RunAged(st: State, cs: seq<Command>, past: seq<Event>)
    requires Inv(st, {}) && Aged(st, past) && Due(past)
    ensures Aged(Run(st, cs).0, past + Run(st, cs).1) && Due(past + Run(st, cs).1)
    decreases |cs|
  {
    if cs == [] {
      assert past + [] == past;
    } else {
      StepInv(st, cs[0]);
      StepAged(st, cs[0], past);
      var a := Step(st, cs[0]);
      RunAged(a.0, cs[1..], past + a.1);
      AgedThen(Run(a.0, cs[1..]).0, past, a.1, Run(a.0, cs[1..]).1);
    }
  }

  // ---------------------------------------------------------------- uniqueness

  lemma {:induction false} IssuedMonotone(ev: seq<Event>, i: nat, j: nat, k: nat)
    requires j <= k <= |ev|
    ensures Issued(ev[..j], i) <= Issued(ev[..k], i)
  {
    assert ev[..k] == ev[..j] + ev[j..k];
    IssuedConcat(ev[..j], ev[j..k], i);
  }

  lemma IssuedStep(ev: seq<Event>, i: nat, k: nat)
    requires k < |ev|
    ensures Issued(ev[..k + 1], i) == Issued(ev[..k], i) + if AcceptsSlot(ev[k], i) then 1 else 0
  {
    assert ev[..k + 1][..k] == ev[..k];
  }

  /** Some event issued slot `i` when it had been issued exactly `n` times. */
  lemma {:induction false} NthIssue(ev: seq<Event>, i: nat, n: nat) returns (k: nat)
    requires n < Issued(ev, i)
    ensures k < |ev| && AcceptsSlot(ev[k], i) && Issued(ev[..k], i) == n
  {
    var m := |ev| - 1;
    if AcceptsSlot(ev[m], i) && Issued(ev[..m], i) == n {
      k := m;
    } else {
      k := NthIssue(ev[..m], i, n);
      assert ev[..m][..k] == ev[..k];
    }
  }

  predicate SameId(ev: seq<Event>, j: nat, k: nat)
    requires j < |ev| && k < |ev|
  {
    ev[j].Accepted? && ev[k].Accepted? && ev[j].order.id == ev[k].order.id
  }

  lemma GenDistinct(a: nat, b: nat)
    requires a < b < CYCLE
    ensures GenAfter(a) != GenAfter(b)
  {
    assert a % CYCLE == a && b % CYCLE == b;
  }

  lemma RepeatNeedsCycle(ev: seq<Event>, j: nat, k: nat)
    requires Due(ev) && j < k < |ev| && SameId(ev, j, k)
    ensures Issued(ev, ev[j].order.id % TWO32) > CYCLE
  {
    var i := ev[j].order.id % TWO32;
    assert DueAt(ev, j) && DueAt(ev, k);
    IssuedStep(ev, i, j);
    IssuedMonotone(ev, i, j + 1, k);
    IssuedStep(ev, i, k);
    IssuedMonotone(ev, i, k + 1, |ev|);
    assert ev[..|ev|] == ev;
    var a, b := Issued(ev[..j], i), Issued(ev[..k], i);
    assert a < b < Issued(ev, i) && GenAfter(a) == GenAfter(b);
    if b < CYCLE { GenDistinct(a, b); }
  }

  /** Ids are pairwise distinct exactly when no slot was issued more than 2^32 - 1 times. */
  lemma UniqueIds(symbols: nat, maxPrice: nat, capacity: nat, cs: seq<Command>)
    requires symbols <= 0xFFFF && capacity <= NULL
    ensures Inv(Init(symbols, maxPrice, capacity), {})
    ensures var ev := Run(Init(symbols, maxPrice, capacity), cs).1;
            (forall j: nat, k: nat | j < k < |ev| :: !SameId(ev, j, k)) <==> (forall i: nat :: Issued(ev, i) <= CYCLE)
  {
    InitInv(symbols, maxPrice, capacity);
    var ev := Run(Init(symbols, maxPrice, capacity), cs).1;
    InitAged(symbols, maxPrice, capacity, cs);
    if forall i: nat :: Issued(ev, i) <= CYCLE {
      forall j: nat, k: nat | j < k < |ev| ensures !SameId(ev, j, k) {
        if SameId(ev, j, k) { RepeatNeedsCycle(ev, j, k); }
      }
    } else {
      var i: nat :| Issued(ev, i) > CYCLE;
      var j := NthIssue(ev, i, 0);
      var k := NthIssue(ev, i, CYCLE);
      assert DueAt(ev, j) && DueAt(ev, k);
      assert CYCLE % CYCLE == 0;
      if k < j { IssuedMonotone(ev, i, k, j); }
      assert j < k && SameId(ev, j, k);
    }
  }

  lemma InitAged(symbols: nat, maxPrice: nat, capacity: nat, cs: seq<Command>)
    requires symbols <= 0xFFFF && capacity <= NULL
    ensures Inv(Init(symbols, maxPrice, capacity), {})
    ensures var r := Run(Init(symbols, maxPrice, capacity), cs); Aged(r.0, r.1) && Due(r.1)
  {
    InitInv(symbols, maxPrice, capacity);
    var st := Init(symbols, maxPrice, capacity);
    RunAged(st, cs, []);
    assert [] + Run(st, cs).1 == Run(st, cs).1;
  }

  /** No order is ever given the id 0. */
  lemma NeverZero(symbols: nat, maxPrice: nat, capacity: nat, cs: seq<Command>, k: nat)
    requires symbols <= 0xFFFF && capacity <= NULL
    ensures Inv(Init(symbols, maxPrice, capacity), {})
    ensures var ev := Run(Init(symbols, maxPrice, capacity), cs).1; k < |ev| && ev[k].Accepted? ==> ev[k].order.id >= TWO32
  {
    InitAged(symbols, maxPrice, capacity, cs);
    var ev := Run(Init(symbols, maxPrice, capacity), cs).1;
    assert k < |ev| ==> DueAt(ev, k);
  }

  // ---------------------------------------------------------------- finished orders

  lemma {:induction false} EntersByAccept(l: Ledger.Ledger, ev: seq<Event>, id: nat) returns (k: nat)
    requires Ledger.Audits(l, ev) && id !in l && id in Ledger.Replay(l, ev)
    ensures k < |ev| && ev[k].Accepted? && ev[k].order.id == id
    decreases |ev|
  {
    if id in Ledger.Post(l, ev[0]) {
      k := 0;
    } else {
      k := EntersByAccept(Ledger.Post(l, ev[0]), ev[1..], id);
      k := k + 1;
    }
  }

  /** An id that comes alive during a run was accepted in it. */
  lemma ReviveNeedsAccept(l: Ledger.Ledger, st: State, cs: seq<Command>, id: nat) returns (j: nat)
    requires Inv(st, {}) && Ledger.Tracks(l, st)
    requires Find(st, id).None? && Find(Run(st, cs).0, id).Some?
    ensures var ev := Run(st, cs).1; j < |ev| && ev[j].Accepted? && ev[j].order.id == id
  {
    var r := Run(st, cs);
    RunConcat(st, cs, []);
    Ledger.RunConserves(l, st, cs);
    assert Ledger.TracksAt(l, st, id) && Ledger.TracksAt(Ledger.Replay(l, r.1), r.0, id);
    j := EntersByAccept(l, r.1, id);
  }

  /** The id was issued, and no live order has it. */
  predicate Finished(st: State, ev: seq<Event>, id: nat) {
    Find(st, id).None? && exists k | 0 <= k < |ev| :: ev[k].Accepted? && ev[k].order.id == id
  }

  lemma ReissueNeedsCycle(a: seq<Event>, b: seq<Event>, k: nat, j: nat, id: nat)
    requires Due(a + b) && k < |a| && j < |b|
    requires a[k].Accepted? && a[k].order.id == id && b[j].Accepted? && b[j].order.id == id
    ensures Issued(a + b, id % TWO32) > CYCLE
  {
    assert (a + b)[k] == a[k] && (a + b)[|a| + j] == b[j];
    RepeatNeedsCycle(a + b, k, |a| + j);
  }

  lemma StaysFinished(st: State, cs: seq<Command>, more: seq<Command>, id: nat)
    requires Inv(st, {}) && Ledger.Tracks(map[], st)
    requires Finished(Run(st, cs).0, Run(st, cs).1, id)
    requires Due(Run(st, cs + more).1) && forall i: nat :: Issued(Run(st, cs + more).1, i) <= CYCLE
    ensures Finished(Run(st, cs + more).0, Run(st, cs + more).1, id)
  {
    var early, late := Run(st, cs), Run(st, cs + more);
    RunConcat(st, cs, more);
    var k :| 0 <= k < |early.1| && early.1[k].Accepted? && early.1[k].order.id == id;
    assert late.1[k] == early.1[k];
    if Find(late.0, id).Some? {
      Ledger.RunConserves(map[], st, cs);
      var j := ReviveNeedsAccept(Ledger.Replay(map[], early.1), early.0, more, id);
      ReissueNeedsCycle(early.1, Run(early.0, more).1, k, j, id);
    }
  }

  /**
   A finished id stays finished: whatever runs next, a Cancel or Replace naming it is refused with
   UnknownOrder and changes nothing, as long as no slot has been issued more than 2^32 - 1 times.
   */
  lemma FinishedStaysFinished(symbols: nat, maxPrice: nat, capacity: nat, cs: seq<Command>, more: seq<Command>, c: Command)
    requires symbols <= 0xFFFF && capacity <= NULL && !c.New?
    requires Inv(Init(symbols, maxPrice, capacity), {})
    requires var early := Run(Init(symbols, maxPrice, capacity), cs); Finished(early.0, early.1, c.id)
    requires forall i: nat :: Issued(Run(Init(symbols, maxPrice, capacity), cs + more).1, i) <= CYCLE
    ensures var late := Run(Init(symbols, maxPrice, capacity), cs + more).0;
            Inv(late, {}) && Step(late, c) == (late, [Reject(c, UnknownOrder)])
  {
    var st := Init(symbols, maxPrice, capacity);
    Ledger.InitTracked(symbols, maxPrice, capacity);
    InitAged(symbols, maxPrice, capacity, cs + more);
    StaysFinished(st, cs, more, c.id);
    RunInv(st, cs + more);
  }
}
