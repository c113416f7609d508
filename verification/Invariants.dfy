/**
 What the engine invariant means to an observer: a partition of the pool, uncrossed books, and
 counters that add up. It holds in every state a run can reach.
 */
module Invariants {
  import opened Types
  import opened Queues
  import opened Reference
  import Tops

  /** Every state of every run satisfies the invariant. */
  lemma Reachable(symbols: nat, maxPrice: nat, capacity: nat, cs: seq<Command>)
    requires symbols <= 0xFFFF && capacity <= NULL
    ensures Inv(Init(symbols, maxPrice, capacity), {}) && Inv(Run(Init(symbols, maxPrice, capacity), cs).0, {})
  {
    InitInv(symbols, maxPrice, capacity);
    RunInv(Init(symbols, maxPrice, capacity), cs);
  }

  lemma ActCells(st: State, c: Command, i: nat)
    requires Inv(st, {}) && if c.New? then c.symbol < |st.books| else IsLive(st, i)
    ensures |Act(st, c, i).0.cells| == |st.cells|
  {
    Tops.ActElsewhere(st, c, i);
  }

  lemma StepCells(st: State, c: Command)
    requires Inv(st, {})
    ensures |Step(st, c).0.cells| == |st.cells|
  {
    if c.New? && c.symbol < |st.books| {
      ActCells(st, c, 0);
    } else if !c.New? {
      var f := Find(st, c.id);
      if f.Some? { ActCells(st, c, f.value); }
    }
  }

  /** The numbers of slots and of books, and the price limit, never change. */
  lemma {:induction false} RunShape(st: State, cs: seq<Command>)
    requires Inv(st, {})
    ensures var r := Run(st, cs).0; |r.cells| == |st.cells| && |r.books| == |st.books| && r.maxPrice == st.maxPrice
    decreases |cs|
  {
    if cs != [] {
      StepInv(st, cs[0]);
      StepCells(st, cs[0]);
      RunShape(Step(st, cs[0]).0, cs[1..]);
    }
  }

  lemma TopUncrossed(st: State, y: nat)
    requires Inv(st, {}) && y < |st.books|
    ensures var t := TopOf(st, y); t.bid == NO_PRICE || t.ask == NO_PRICE || t.bid < t.ask
  {
    var b := st.books[y];
    BestIsBest(b.buy, Buy);
    BestIsBest(b.sell, Sell);
    var t := TopOf(st, y);
    if t.bid != NO_PRICE && t.ask != NO_PRICE {
      assert b.Get(Buy) == b.buy && b.Get(Sell) == b.sell;
      assert Q(st.books, Key(y, Buy, t.bid)) != [] && Q(st.books, Key(y, Sell, t.ask)) != [];
    }
  }

  /**
   After every sequence of commands: a slot is on the free stack or in one FIFO, never both and never two, and
   what rests is a GTC limit order at its own symbol, side and price.
   */
  lemma Partition(symbols: nat, maxPrice: nat, capacity: nat, cs: seq<Command>, i: nat)
    requires symbols <= 0xFFFF && i < capacity <= NULL
    ensures Inv(Init(symbols, maxPrice, capacity), {})
    ensures var st := Run(Init(symbols, maxPrice, capacity), cs).0;
            && |st.cells| == capacity
            && (i in st.free <==> !IsLive(st, i))
            && (IsLive(st, i) ==> i in Q(st.books, KeyOf(Ord(st, i))) && CanRest(maxPrice, Ord(st, i)))
            && (forall k: Key | i in Q(st.books, k) :: IsLive(st, i) && k == KeyOf(Ord(st, i)))
  {
    Reachable(symbols, maxPrice, capacity, cs);
    RunShape(Init(symbols, maxPrice, capacity), cs);
  }

  /** After every sequence of commands, on every book: best bid below best ask, or a side is empty. */
  lemma BestUncrossed(symbols: nat, maxPrice: nat, capacity: nat, cs: seq<Command>, y: nat)
    requires y < symbols <= 0xFFFF && capacity <= NULL
    ensures Inv(Init(symbols, maxPrice, capacity), {})
    ensures var st := Run(Init(symbols, maxPrice, capacity), cs).0;
            && |st.books| == symbols
            && var t := TopOf(st, y); t.bid == NO_PRICE || t.ask == NO_PRICE || t.bid < t.ask
  {
    Reachable(symbols, maxPrice, capacity, cs);
    RunShape(Init(symbols, maxPrice, capacity), cs);
    TopUncrossed(Run(Init(symbols, maxPrice, capacity), cs).0, y);
  }
}
