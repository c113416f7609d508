/**
 The matching engine: the command handlers over one book per symbol and a shared pool.

 The ghost field `ref` is the reference state. `Process` is proved to move it by `Step` and to emit
 exactly the events of `Step`.
 */
module MatchingEngine {
  import opened Types
  import opened Queues
  import opened Reference
  import opened Pool
  import opened BookSide
  import opened OrderBook

  ghost predicate RepresentsAt(nodes: seq<Node>, views: seq<View>, st: State, y: nat)
    requires y < |views| == |st.books|
  {
    views[y].symbol == y && views[y].maxPrice == st.maxPrice && views[y].q == st.books[y] && BookRep(nodes, views[y])
  }

  /** The pool and the books, as values, represent a reference state. */
  ghost predicate Represents(nodes: seq<Node>, free: seq<nat>, views: seq<View>, st: State) {
    && st.cells == Cells(nodes) && st.free == free && |st.books| == |views|
    && forall y: nat | y < |views| :: RepresentsAt(nodes, views, st, y)
  }

  /** A book is untouched by work on another symbol. */
  lemma OthersKept(nodes: seq<Node>, nodes': seq<Node>, v: View, y0: nat)
    requires BookRep(nodes, v) && v.symbol != y0 && Foreign(nodes, nodes', y0)
    ensures BookRep(nodes', v)
  {
    forall s: Side, p: nat, i: nat | p <= v.maxPrice && i < |nodes| && i in v.q.Get(s)[p]
      ensures nodes'[i] == nodes[i]
    {
      LiveAtLevel(nodes, v.sides.Get(s).levels, v.q.Get(s), v.At(s), p, i);
    }
    BookFrame(nodes, nodes', v);
  }

  /** A book is untouched by a change to a slot without a live order. */
  lemma DeadKept(nodes: seq<Node>, nodes': seq<Node>, v: View, i: nat)
    requires BookRep(nodes, v) && i < |nodes| == |nodes'| && !nodes[i].live && nodes' == nodes[i := nodes'[i]]
    ensures BookRep(nodes', v)
  {
    forall s: Side, p: nat, j: nat | p <= v.maxPrice && j < |nodes| && j in v.q.Get(s)[p]
      ensures nodes'[j] == nodes[j]
    {
      LiveAtLevel(nodes, v.sides.Get(s).levels, v.q.Get(s), v.At(s), p, j);
    }
    BookFrame(nodes, nodes', v);
  }

  /** Giving the next free slot to an order moves the reference state by Alloc. */
  lemma AllocRepresents(nodes: seq<Node>, nodes': seq<Node>, free: seq<nat>, views: seq<View>, st: State, o: Order)
    requires Represents(nodes, free, views, st) && st.free != [] && st.free[0] < |nodes| && !nodes[st.free[0]].live
    requires var (t, gen) := (st.free[0], nodes[st.free[0]].gen);
             nodes' == nodes[t := Node(o.(id := gen * TWO32 + t), true, NULL, NULL, gen)]
    ensures Represents(nodes', free[1..], views, Alloc(st, o))
  {
    var t := st.free[0];
    assert Cells(nodes') == Alloc(st, o).cells;
    forall y: nat | y < |views| ensures RepresentsAt(nodes', views, Alloc(st, o), y) {
      assert RepresentsAt(nodes, views, st, y);
      DeadKept(nodes, nodes', views[y], t);
    }
  }

  lemma WithdrawnElsewhere(st: State, i: nat, o: Order)
    requires IsLive(st, i) && InBounds(st.books, KeyOf(Ord(st, i)))
    ensures SameElsewhere(st, SetOrd(Detach(st, i), i, o), Ord(st, i).symbol)
  {
  }

  lemma ForeignWrite(nodes: seq<Node>, mid: seq<Node>, k: Key, i: nat, n: Node)
    requires OnlyAt(nodes, mid, k) && i < |nodes| && nodes[i].live && nodes[i].ord.symbol == k.symbol
    ensures Foreign(nodes, mid[i := n], k.symbol)
  {
  }

  method OpenBooks(p: OrderPool, symbols: nat, maxPrice: nat) returns (bs: seq<Book>)
    requires p.Valid()
    ensures |bs| == symbols && forall y | 0 <= y < symbols :: IsOpen(bs[y], p, maxPrice, y)
  {
    bs := [];
    while |bs| < symbols
      invariant |bs| <= symbols && forall y | 0 <= y < |bs| :: IsOpen(bs[y], p, maxPrice, y)
    {
      var b := new Book(p, maxPrice, |bs|);
      bs := bs + [b];
    }
  }

  /** A freshly opened, empty book. */
  ghost predicate IsOpen(b: Book, p: OrderPool, maxPrice: nat, y: nat)
    reads b, p
  {
    var side: Levels := seq(maxPrice + 1, _ => []);
    b.pool == p && b.symbol == y && b.maxPrice == maxPrice && BookRep(p.nodes, b.AsView()) && b.q == PerSide(side, side)
  }

  class Engine {
    const pool: OrderPool
    const books: seq<Book>
    const maxPrice: nat
    var out: seq<Event>
    ghost var ref: State

    ghost predicate Wired() {
      forall y | 0 <= y < |books| :: books[y].pool == pool && books[y].symbol == y && books[y].maxPrice == maxPrice
    }

    ghost function Views(): (v: seq<View>)
      reads books
      ensures |v| == |books| && forall y | 0 <= y < |books| :: v[y] == books[y].AsView()
    {
      seq(|books|, y requires 0 <= y < |books| reads books => books[y].AsView())
    }

    /** Every book represents its part of `ref`, and the pool its cells and free stack. */
    ghost predicate Coherent()
      reads this`ref, pool, books
    {
      Wired() && pool.Valid() && ref.maxPrice == maxPrice && Represents(pool.nodes, pool.free, Views(), ref)
    }

    ghost predicate Valid()
      reads this`ref, pool, books
    {
      Coherent() && Inv(ref, {})
    }

    constructor (symbols: nat, maxPrice: nat, capacity: nat)
      requires symbols <= 0xFFFF && capacity <= NULL
      ensures Valid() && out == [] && ref == Init(symbols, maxPrice, capacity)
    {
      var p := new OrderPool(capacity);
      var bs := OpenBooks(p, symbols, maxPrice);
      this.maxPrice := maxPrice;
      pool := p;
      books := bs;
      out := [];
      ref := Init(symbols, maxPrice, capacity);
      InitInv(symbols, maxPrice, capacity);
      new;
      forall y: nat | y < |books| ensures RepresentsAt(pool.nodes, Views(), ref, y) {
        assert IsOpen(books[y], pool, maxPrice, y);
        assert books[y].q.buy == ref.books[y].buy;
      }
    }

    /** Coherence after the book of symbol `y0` did its work and `ref` moved with it. */
    lemma Resync(y0: nat, nodes: seq<Node>, free: seq<nat>, views: seq<View>, st: State)
      requires Wired() && pool.Valid() && st.maxPrice == ref.maxPrice == maxPrice && y0 < |books| == |views|
      requires Represents(nodes, free, views, st)
      requires forall y | 0 <= y < |books| && y != y0 :: books[y].AsView() == views[y]
      requires books[y0].Valid() && books[y0].Agrees(ref)
      requires Foreign(nodes, pool.nodes, y0) && SameElsewhere(st, ref, y0)
      ensures Coherent()
    {
      forall y: nat | y < |books| ensures RepresentsAt(pool.nodes, Views(), ref, y) {
        if y != y0 {
          assert RepresentsAt(nodes, views, st, y);
          OthersKept(nodes, pool.nodes, views[y], y0);
        }
      }
    }

    // -------------------------------------------------------------- handlers

    /** Matches an order, then frees it, cancels the remainder or rests it. */
    method MatchAndRest(y: nat, t: nat) returns (ev: seq<Event>)
      requires Coherent() && y < |books| && Matching(ref, t) && Ord(ref, t).symbol == y && CanMatch(maxPrice, Ord(ref, t))
      modifies this`ref, pool, books
      ensures Coherent() && (ref, ev) == Reference.MatchAndRest(old(ref), t)
    {
      var b := books[y];
      ghost var nodes, free, views, st := pool.nodes, pool.free, Views(), ref;
      assert RepresentsAt(nodes, views, st, y);
      MatchInv(ref, t);
      ev := b.Match(t, ref);
      ref := Reference.Match(ref, t).0;
      Resync(y, nodes, free, views, st);
      var rest := Finish(y, t);
      ev := ev + rest;
    }

    /** Frees an order that rests nowhere. */
    method Drop(y: nat, t: nat)
      requires Coherent() && y < |books| && IsLive(ref, t) && Ord(ref, t).symbol == y && books[y].Nowhere(t)
      modifies this`ref, pool, books
      ensures Coherent() && ref == Release(old(ref), t)
    {
      var b := books[y];
      ghost var nodes, free, views, st := pool.nodes, pool.free, Views(), ref;
      assert RepresentsAt(nodes, views, st, y);
      b.FreeUnlisted(t);
      ref := Release(ref, t);
      Resync(y, nodes, free, views, st);
    }

    /** Rests an order at the back of its level. */
    method Park(y: nat, t: nat)
      requires Coherent() && y < |books| && IsLive(ref, t) && Ord(ref, t).symbol == y && books[y].Nowhere(t)
      requires 1 <= Ord(ref, t).price <= maxPrice
      modifies this`ref, pool, books
      ensures Coherent() && InBounds(old(ref).books, KeyOf(Ord(old(ref), t))) && ref == Rest(old(ref), t)
    {
      var b := books[y];
      ghost var nodes, free, views, st := pool.nodes, pool.free, Views(), ref;
      assert RepresentsAt(nodes, views, st, y);
      b.Insert(t);
      ref := Rest(ref, t);
      Resync(y, nodes, free, views, st);
    }

    method Finish(y: nat, t: nat) returns (ev: seq<Event>)
      requires Coherent() && y < |books| && Matching(ref, t) && Ord(ref, t).symbol == y
      requires Ord(ref, t).otype == Limit ==> 1 <= Ord(ref, t).price <= maxPrice
      modifies this`ref, pool, books
      ensures Coherent() && (ref, ev) == Settle(old(ref), t)
    {
      assert RepresentsAt(pool.nodes, Views(), ref, y);
      books[y].DetachedUnlisted(ref, t);
      var o := pool.nodes[t].ord;
      ev := [];
      if o.qty == 0 {
        Drop(y, t);
      } else if o.otype == Market || o.tif == IOC {
        ev := [Cancelled(o)];
        Drop(y, t);
      } else {
        Park(y, t);
      }
    }

    /** Takes a slot for a new order and fills in its terms; NULL when the pool is exhausted. */
    method Admit(c: Command) returns (t: nat)
      requires Valid() && c.New? && c.symbol < |books|
      modifies this`ref, pool
      ensures if old(ref).free == [] then t == NULL && Valid() && ref == old(ref)
              else t == old(ref).free[0] && t != NULL && Coherent() && t < |old(ref).cells|
                   && ref == Alloc(old(ref), OrderFor(c)) && Matching(ref, t)
    {
      ghost var nodes, free, views, st := pool.nodes, pool.free, Views(), ref;
      t := pool.Alloc();
      if t != NULL {
        var o := pool.nodes[t].ord;
        pool.Write(t, o.(tag := c.tag, session := c.session, symbol := c.symbol, side := c.side, otype := c.otype,
                         tif := c.tif, price := if c.otype == Limit then c.price else 0, qty := c.qty));
        AllocInv(st, OrderFor(c));
        assert t in st.free;
        AllocRepresents(nodes, pool.nodes, free, views, st, OrderFor(c));
        ref := Alloc(ref, OrderFor(c));
        assert Views() == views;
      }
    }

    method OnNew(c: Command) returns (ev: seq<Event>)
      requires Valid() && c.New? && c.symbol < |books|
      modifies this`ref, pool, books
      ensures Coherent() && (ref, ev) == Reference.OnNew(old(ref), c)
    {
      if c.qty == 0 { return [Reject(c, BadQty)]; }
      if c.otype == Limit && !(1 <= c.price <= maxPrice) { return [Reject(c, BadPrice)]; }
      var t := Admit(c);
      if t == NULL { return [Reject(c, BookFull)]; }
      var o := pool.nodes[t].ord;
      ev := MatchAndRest(c.symbol, t);
      ev := [Accepted(o)] + ev;
    }

    method OnCancel(y: nat, i: nat) returns (ev: seq<Event>)
      requires Valid() && IsLive(ref, i) && Ord(ref, i).symbol == y && y < |books|
      modifies this`ref, pool, books
      ensures Coherent() && (ref, ev) == Reference.OnCancel(old(ref), i)
    {
      var b := books[y];
      ghost var nodes, free, views, st := pool.nodes, pool.free, Views(), ref;
      assert RepresentsAt(nodes, views, st, y);
      ListedInBounds(st, {}, i);
      var o := pool.nodes[i].ord;
      b.Retire(i);
      ev := [Cancelled(o)];
      ref := Release(Detach(ref, i), i);
      Resync(y, nodes, free, views, st);
    }

    /** Takes a resting order out of its book and gives it new terms. */
    method Withdraw(y: nat, i: nat, o: Order)
      requires Valid() && IsLive(ref, i) && Ord(ref, i).symbol == y && y < |books|
      requires o == Ord(ref, i).(price := o.price, qty := o.qty)
      modifies this`ref, pool, books
      ensures Coherent() && InBounds(old(ref).books, KeyOf(Ord(old(ref), i)))
      ensures ref == SetOrd(Detach(old(ref), i), i, o)
    {
      var b := books[y];
      ghost var nodes, free, views, st := pool.nodes, pool.free, Views(), ref;
      assert RepresentsAt(nodes, views, st, y);
      ListedInBounds(st, {}, i);
      b.Unlink(i);
      ForeignWrite(nodes, pool.nodes, KeyOf(Ord(st, i)), i, pool.nodes[i].(ord := o));
      DetachInv(st, {}, i);
      ref := Detach(ref, i);
      b.DetachedUnlisted(ref, i);
      CellsWrite(pool.nodes, i, o);
      b.WriteUnlisted(i, o);
      ref := SetOrd(ref, i, o);
      WithdrawnElsewhere(st, i, o);
      Resync(y, nodes, free, views, st);
    }

    method OnReplace(c: Command, y: nat, i: nat) returns (ev: seq<Event>)
      requires Valid() && c.Replace? && IsLive(ref, i) && Ord(ref, i).symbol == y && y < |books|
      modifies this`ref, pool, books
      ensures Coherent() && (ref, ev) == Reference.OnReplace(old(ref), c, i)
    {
      if c.qty == 0 { return [Reject(c, BadQty)]; }
      if !(1 <= c.price <= maxPrice) { return [Reject(c, BadPrice)]; }
      var o := pool.nodes[i].ord;
      var o' := o.(price := c.price, qty := c.qty);
      if c.price == o.price && c.qty <= o.qty {
        Shrink(y, i, c.qty);
        return [Replaced(o')];
      }
      ReplaceInv(ref, i, o');
      Withdraw(y, i, o');
      ev := MatchAndRest(y, i);
      ev := [Replaced(o')] + ev;
    }

    method Shrink(y: nat, i: nat, qty: U32)
      requires Valid() && IsLive(ref, i) && Ord(ref, i).symbol == y && y < |books| && qty <= Ord(ref, i).qty
      modifies this`ref, pool, books
      ensures Coherent() && ref == SetOrd(old(ref), i, Ord(old(ref), i).(qty := qty))
    {
      var b := books[y];
      ghost var nodes, free, views, st := pool.nodes, pool.free, Views(), ref;
      assert RepresentsAt(nodes, views, st, y);
      ListedInBounds(st, {}, i);
      CellsWrite(pool.nodes, i, Ord(ref, i).(qty := qty));
      b.Reduce(i, qty);
      ref := SetOrd(ref, i, Ord(ref, i).(qty := qty));
      Resync(y, nodes, free, views, st);
    }

    /** Reads the top of one book. */
    method ReadTop(y: nat) returns (t: TopOfBook)
      requires Coherent() && y < |books|
      ensures t == TopOf(ref, y)
    {
      assert RepresentsAt(pool.nodes, Views(), ref, y);
      t := books[y].ReadTop();
    }

    method Dispatch(c: Command, y: nat, i: nat) returns (ev: seq<Event>)
      requires Valid() && y < |books|
      requires if c.New? then c.symbol == y else IsLive(ref, i) && Ord(ref, i).symbol == y
      modifies this`ref, pool, books
      ensures Coherent() && (ref, ev) == Act(old(ref), c, i)
    {
      match c
      case New(_, _, _, _, _, _, _, _) => ev := OnNew(c);
      case Cancel(_, _, _) => ev := OnCancel(y, i);
      case Replace(_, _, _, _, _) => ev := OnReplace(c, y, i);
    }

    /** Validates a command, runs its handler and reports a change of the top of book. */
    method Handle(c: Command) returns (ev: seq<Event>)
      requires Valid()
      modifies this`ref, pool, books
      ensures Coherent() && (ref, ev) == Step(old(ref), c)
    {
      var y, i := 0, 0;
      if c.New? {
        if c.symbol >= |books| { return [Reject(c, BadSymbol)]; }
        y := c.symbol;
      } else {
        i := pool.Find(c.id);
        if i == NULL { return [Reject(c, UnknownOrder)]; }
        if pool.nodes[i].ord.session != c.session { return [Reject(c, NotOwner)]; }
        y := pool.nodes[i].ord.symbol;
      }
      var before := ReadTop(y);
      ActInv(ref, c, i);
      ev := Dispatch(c, y, i);
      var after := ReadTop(y);
      assert ev + [] == ev;
      if after != before { ev := ev + [Top(y, after)]; }
    }

    /** One command: the engine moves and reports exactly as the reference does. */
    method Process(c: Command)
      requires Valid()
      modifies this`out, this`ref, pool, books
      ensures Valid()
      ensures ref == Step(old(ref), c).0 && out == old(out) + Step(old(ref), c).1
    {
      StepInv(ref, c);
      var ev := Handle(c);
      out := out + ev;
    }

    /** Any sequence of commands: the engine's log is the reference run's events. */
    method ProcessAll(cs: seq<Command>)
      requires Valid()
      modifies this`out, this`ref, pool, books
      ensures Valid()
      ensures ref == Run(old(ref), cs).0 && out == old(out) + Run(old(ref), cs).1
    {
      ghost var st, log := ref, out;
      ghost var done: seq<Event> := [];
      assert cs[0..] == cs && done + Run(st, cs).1 == Run(st, cs).1;
      for n := 0 to |cs|
        invariant Valid() && out == log + done
        invariant Run(st, cs) == (Run(ref, cs[n..]).0, done + Run(ref, cs[n..]).1)
      {
        ghost var e := Step(ref, cs[n]).1;
        RunStep(ref, cs, n);
        Assoc(done, e, Run(Step(ref, cs[n]).0, cs[n + 1..]).1);
        Assoc(log, done, e);
        Process(cs[n]);
        done := done + e;
      }
      assert cs[|cs|..] == [] && done + [] == done;
    }

    /** The pool's live count is the sum of the books' resting counts. */
    lemma LiveIsResting()
      requires Valid()
      ensures pool.live == SumResting(Views())
    {
      SumRestingIs(pool.nodes, Views(), ref, |books|);
      assert Views()[..|books|] == Views() && ref.books[..|books|] == ref.books;
    }
  }

  lemma RunStep(st: State, cs: seq<Command>, n: nat)
    requires Inv(st, {}) && n < |cs|
    ensures Inv(Step(st, cs[n]).0, {})
    ensures var (a, r) := (Step(st, cs[n]), Run(Step(st, cs[n]).0, cs[n + 1..])); Run(st, cs[n..]) == (r.0, a.1 + r.1)
  {
    StepInv(st, cs[n]);
    assert cs[n..][1..] == cs[n + 1..];
  }

  function SumResting(views: seq<View>): int {
    if views == [] then 0 else SumResting(views[..|views| - 1]) + views[|views| - 1].resting
  }

  lemma {:induction false} SumRestingIs(nodes: seq<Node>, views: seq<View>, st: State, n: nat)
    requires n <= |views| == |st.books| && forall y: nat | y < |views| :: RepresentsAt(nodes, views, st, y)
    ensures SumResting(views[..n]) == Total(st.books[..n])
  {
    if n > 0 {
      SumRestingIs(nodes, views, st, n - 1);
      assert views[..n][..n - 1] == views[..n - 1] && st.books[..n][..n - 1] == st.books[..n - 1];
      assert RepresentsAt(nodes, views, st, n - 1);
    }
  }
}
