/**
 One instrument: flat levels indexed by price, a bitmap over prices and cached best prices, all
 over a shared pool.

 Every operation takes a ghost `State` that the book agrees with before the call, and is proved to
 leave the book agreeing with the state the reference operation yields.
 */
module OrderBook {
  import opened Types
  import opened Queues
  import opened Reference
  import opened Pool
  import opened Links
  import opened Bitmap
  import opened BookSide

  /** Orders of every other symbol are untouched. */
  ghost predicate Foreign(nodes: seq<Node>, nodes': seq<Node>, symbol: nat) {
    && |nodes'| == |nodes|
    && forall i | 0 <= i < |nodes| && nodes[i].live && nodes[i].ord.symbol != symbol :: nodes'[i] == nodes[i]
  }

  lemma FreeChainFrame(nodes: seq<Node>, nodes': seq<Node>, head: nat, l: seq<nat>, k: Key)
    requires FreeChain(nodes, head, l) && OnlyAt(nodes, nodes', k)
    ensures FreeChain(nodes', head, l)
  {
    assert forall i {:trigger nodes'[l[i]]} | 0 <= i < |l| :: !nodes[l[i]].live;
  }

  /** The fields of a book as a value. */
  datatype View = View(sides: PerSide<SideState>, resting: int, q: PerSide<Levels>, symbol: nat, maxPrice: nat) {
    function At(s: Side): Place {
      Place(symbol, s, maxPrice)
    }

    function SetLevel(s: Side, p: nat, sd: SideState, l: seq<nat>): View
      requires p < |q.Get(s)|
    {
      this.(sides := sides.Put(s, sd), resting := resting - |q.Get(s)[p]| + |l|, q := q.Put(s, q.Get(s)[p := l]))
    }
  }

  /** The representation invariant of a whole book, over the nodes of its pool. */
  ghost predicate BookRep(nodes: seq<Node>, v: View) {
    && |nodes| <= NULL
    && SideRep(nodes, v.sides.buy, v.q.buy, v.At(Buy))
    && SideRep(nodes, v.sides.sell, v.q.sell, v.At(Sell))
    && v.resting == BookCount(v.q)
  }

  /** A book depends only on the nodes of its own orders. */
  lemma BookFrame(nodes: seq<Node>, nodes': seq<Node>, v: View)
    requires BookRep(nodes, v) && |nodes'| == |nodes|
    requires forall s: Side, p: nat, i: nat | p <= v.maxPrice && i < |nodes| && i in v.q.Get(s)[p] :: nodes'[i] == nodes[i]
    ensures BookRep(nodes', v)
  {
    assert v.q.Get(Buy) == v.q.buy && v.q.Get(Sell) == v.q.sell;
    SideFrame(nodes, nodes', v.sides.buy, v.q.buy, v.At(Buy));
    SideFrame(nodes, nodes', v.sides.sell, v.q.sell, v.At(Sell));
  }

  /** Replacing one side, when the node changes are confined to one of its levels. */
  lemma SideReplaced(nodes: seq<Node>, nodes': seq<Node>, v: View, s: Side, p: nat, sd: SideState, l: seq<nat>)
    requires BookRep(nodes, v) && p <= v.maxPrice
    requires OnlyAt(nodes, nodes', Key(v.symbol, s, p))
    requires SideRep(nodes', sd, v.q.Get(s)[p := l], v.At(s))
    ensures BookRep(nodes', v.SetLevel(s, p, sd, l))
  {
    var s' := s.Opposite();
    forall p': nat, i: nat | p' <= v.maxPrice && i < |nodes| && i in v.q.Get(s')[p'] ensures nodes'[i] == nodes[i] {
      LiveAtLevel(nodes, v.sides.Get(s').levels, v.q.Get(s'), v.At(s'), p', i);
    }
    SideFrame(nodes, nodes', v.sides.Get(s'), v.q.Get(s'), v.At(s'));
    CountUpdate(v.q.Get(s), p, l);
  }

  lemma InsertBook(nodes: seq<Node>, v: View, slot: nat)
    requires BookRep(nodes, v) && slot < |nodes| && nodes[slot].live
    requires var o := nodes[slot].ord;
             o.symbol == v.symbol && 1 <= o.price <= v.maxPrice && slot !in v.q.Get(o.side)[o.price]
    ensures var o := nodes[slot].ord;
            var sd := v.sides.Get(o.side);
            var tail := sd.levels[o.price].tail;
            && (tail == NULL || tail < |nodes|)
            && (var n := LinkBack(nodes, slot, tail);
                && OnlyAt(nodes, n, KeyOf(o)) && Cells(n) == Cells(nodes)
                && BookRep(n, v.SetLevel(o.side, o.price, InsertedSide(sd, o.side, o.price, slot, o.qty),
                                         v.q.Get(o.side)[o.price] + [slot])))
  {
    var o := nodes[slot].ord;
    var sd := v.sides.Get(o.side);
    InsertSide(nodes, sd, v.q.Get(o.side), v.At(o.side), o.price, slot);
    SideReplaced(nodes, LinkBack(nodes, slot, sd.levels[o.price].tail), v, o.side, o.price,
                 InsertedSide(sd, o.side, o.price, slot, o.qty), v.q.Get(o.side)[o.price] + [slot]);
  }

  lemma UnlinkReady(nodes: seq<Node>, v: View, s: Side, p: nat, slot: nat)
    requires BookRep(nodes, v) && p <= v.maxPrice && slot in v.q.Get(s)[p]
    ensures CanUnlink(nodes, slot) && v.sides.Get(s).levels[p].count == |v.q.Get(s)[p]|
  {
    var l, sd := v.q.Get(s)[p], v.sides.Get(s);
    var j: nat :| j < |l| && l[j] == slot;
    assert LevelOk(nodes, sd.levels, v.q.Get(s), v.At(s), p);
    UnlinkedRep(nodes, sd.levels[p], l, Key(v.symbol, s, p), j);
  }

  lemma UnlinkBook(nodes: seq<Node>, v: View, s: Side, p: nat, slot: nat, best': int)
    requires BookRep(nodes, v) && p <= v.maxPrice && slot in v.q.Get(s)[p]
    requires CanUnlink(nodes, slot) && v.sides.Get(s).levels[p].count == |v.q.Get(s)[p]|
    requires if |v.q.Get(s)[p]| == 1 && v.sides.Get(s).best == p then NextBest(v.q.Get(s), s, p, best')
             else best' == v.sides.Get(s).best
    ensures var n := Unlinked(nodes, slot);
            && OnlyAt(nodes, n, Key(v.symbol, s, p)) && Cells(n) == Cells(nodes)
            && |Without(v.q.Get(s)[p], slot)| == |v.q.Get(s)[p]| - 1
            && BookRep(n, v.SetLevel(s, p, UnlinkedSide(v.sides.Get(s), p, nodes[slot], best'),
                                     Without(v.q.Get(s)[p], slot)))
  {
    var l, sd := v.q.Get(s)[p], v.sides.Get(s);
    var j: nat :| j < |l| && l[j] == slot;
    UnlinkSide(nodes, sd, v.q.Get(s), v.At(s), p, j, best');
    assert LevelOk(nodes, sd.levels, v.q.Get(s), v.At(s), p);
    WithoutAt(l, j);
    SideReplaced(nodes, Unlinked(nodes, slot), v, s, p, UnlinkedSide(sd, p, nodes[slot], best'), Without(l, slot));
  }

  /** The side after one listed order went from quantity `was` to `now`. */
  function RequantifiedSide(sd: SideState, p: nat, was: nat, now: nat): SideState
    requires p < |sd.levels|
  {
    sd.(levels := sd.levels[p := sd.levels[p].(qty := (sd.levels[p].qty - (was - now)) % TWO32)])
  }

  lemma QuantityBook(nodes: seq<Node>, v: View, s: Side, p: nat, slot: nat, x: U32)
    requires BookRep(nodes, v) && p <= v.maxPrice && slot < |nodes| && slot in v.q.Get(s)[p]
    ensures var o := nodes[slot].ord;
            var n := nodes[slot := nodes[slot].(ord := o.(qty := x))];
            && OnlyAt(nodes, n, Key(v.symbol, s, p))
            && BookRep(n, v.(sides := v.sides.Put(s, RequantifiedSide(v.sides.Get(s), p, o.qty, x))))
  {
    var l, sd := v.q.Get(s)[p], v.sides.Get(s);
    var j: nat :| j < |l| && l[j] == slot;
    var o := nodes[slot].ord;
    RequantitySide(nodes, sd, v.q.Get(s), v.At(s), p, j, x);
    assert v.q.Get(s)[p := l] == v.q.Get(s);
    SideReplaced(nodes, nodes[slot := nodes[slot].(ord := o.(qty := x))], v, s, p, RequantifiedSide(sd, p, o.qty, x), l);
  }

  /** Threads a slot onto the back of a level. */
  method PushBack(nodes: seq<Node>, slot: nat, lvl: Level) returns (nodes': seq<Node>, lvl': Level)
    requires slot < |nodes| && (lvl.tail == NULL || lvl.tail < |nodes|)
    ensures nodes' == LinkBack(nodes, slot, lvl.tail) && lvl' == PushedLevel(lvl, slot, nodes[slot].ord.qty)
  {
    nodes', lvl' := nodes, lvl;
    nodes' := nodes'[slot := nodes'[slot].(prev := lvl.tail, next := NULL)];
    if lvl.tail != NULL {
      nodes' := nodes'[lvl.tail := nodes'[lvl.tail].(next := slot)];
    } else {
      lvl' := lvl'.(head := slot);
    }
    lvl' := lvl'.(tail := slot, qty := (lvl'.qty + nodes[slot].ord.qty) % TWO32, count := lvl'.count + 1);
  }

  /** Unthreads a slot from its level. */
  method Splice(nodes: seq<Node>, slot: nat, lvl: Level) returns (nodes': seq<Node>, lvl': Level)
    requires CanUnlink(nodes, slot) && lvl.count > 0
    ensures nodes' == Unlinked(nodes, slot) && lvl' == PoppedLevel(lvl, nodes[slot])
  {
    var o := nodes[slot];
    nodes', lvl' := nodes, lvl;
    if o.prev != NULL {
      nodes' := nodes'[o.prev := nodes'[o.prev].(next := o.next)];
    } else {
      lvl' := lvl'.(head := o.next);
    }
    if o.next != NULL {
      nodes' := nodes'[o.next := nodes'[o.next].(prev := o.prev)];
    } else {
      lvl' := lvl'.(tail := o.prev);
    }
    lvl' := lvl'.(qty := (lvl'.qty - o.ord.qty) % TWO32, count := lvl'.count - 1);
    nodes' := nodes'[slot := nodes'[slot].(prev := NULL, next := NULL)];
  }

  lemma CellsWrite(nodes: seq<Node>, i: nat, o: Order)
    requires i < |nodes| && nodes[i].live
    ensures Cells(nodes[i := nodes[i].(ord := o)]) == Cells(nodes)[i := CellOf(nodes[i]).(ord := Some(o))]
  {
  }

  /** Matching from `a` emits `ev`, gets to `b` and goes on exactly as from `b`. */
  ghost predicate Reaches(a: State, t: nat, b: State, ev: seq<Event>) {
    && Matching(a, t) && Matching(b, t)
    && Ord(b, t).qty <= Ord(a, t).qty && Ord(b, t) == Ord(a, t).(qty := Ord(b, t).qty)
    && Reference.Match(a, t) == (Reference.Match(b, t).0, ev + Reference.Match(b, t).1)
  }

  lemma ReachesSelf(a: State, t: nat)
    requires Matching(a, t)
    ensures Reaches(a, t, a, [])
  {
    assert [] + Reference.Match(a, t).1 == Reference.Match(a, t).1;
  }

  lemma ReachesTrans(a: State, t: nat, b: State, c: State, e: seq<Event>, f: seq<Event>)
    requires Reaches(a, t, b, e) && Reaches(b, t, c, f)
    ensures Reaches(a, t, c, e + f)
  {
    assert e + (f + Reference.Match(c, t).1) == e + f + Reference.Match(c, t).1;
  }

  lemma ReachesHit(a: State, t: nat, b: State, ev: seq<Event>)
    requires Reaches(a, t, b, ev) && CanHit(b, t)
    ensures Reaches(a, t, Hit(b, t), ev + HitEvents(b, t)) && Ord(Hit(b, t), t).qty < Ord(b, t).qty
  {
    HitInv(b, t);
    ReachesTrans(a, t, b, Hit(b, t), ev, HitEvents(b, t));
  }

  class Book {
    const pool: OrderPool
    const maxPrice: nat
    ghost const symbol: nat
    var sides: PerSide<SideState>
    var resting: int
    ghost var q: PerSide<Levels>

    ghost function AsView(): View
      reads this
    {
      View(sides, resting, q, symbol, maxPrice)
    }

    ghost predicate Valid()
      reads this, pool
    {
      pool.Valid() && BookRep(pool.nodes, AsView())
    }

    /** The FIFO an order belongs in. */
    ghost function Fifo(o: Order): seq<nat>
      requires 0 <= o.price < |q.Get(o.side)|
      reads this
    {
      q.Get(o.side)[o.price]
    }

    ghost predicate Resting(i: nat)
      requires i < |pool.nodes|
      reads this, pool
    {
      var o := pool.nodes[i].ord;
      o.symbol == symbol && 0 <= o.price <= maxPrice && o.price < |q.Get(o.side)| && i in Fifo(o)
    }

    constructor (pool: OrderPool, maxPrice: nat, ghost symbol: nat)
      requires pool.Valid()
      ensures this.pool == pool && this.maxPrice == maxPrice && this.symbol == symbol
      ensures Valid()
      ensures var side := seq(maxPrice + 1, _ => []); q == PerSide(side, side)
    {
      this.pool := pool;
      this.maxPrice := maxPrice;
      this.symbol := symbol;
      var side := SideState(seq(maxPrice + 1, _ => EMPTY_LEVEL), seq(maxPrice / 64 + 1, _ => ZERO), NO_PRICE);
      sides := PerSide(side, side);
      resting := 0;
      ghost var empty: Levels := seq(maxPrice + 1, _ => []);
      q := PerSide(empty, empty);
      CountEmpty(empty);
    }

    // -------------------------------------------------------------- operations

    /** Rests a live order at the back of its level. */
    method Insert(slot: nat)
      requires Valid() && slot < |pool.nodes| && pool.nodes[slot].live
      requires var o := pool.nodes[slot].ord;
               o.symbol == symbol && 1 <= o.price <= maxPrice && slot !in Fifo(o)
      modifies this, pool`nodes
      ensures Valid()
      ensures var o := old(pool.nodes)[slot].ord;
              q == old(q).Put(o.side, old(q).Get(o.side)[o.price := old(Fifo(o)) + [slot]])
      ensures Cells(pool.nodes) == old(Cells(pool.nodes))
      ensures OnlyAt(old(pool.nodes), pool.nodes, KeyOf(old(pool.nodes)[slot].ord))
    {
      InsertBook(pool.nodes, AsView(), slot);
      var o := pool.nodes[slot].ord;
      var s, p := o.side, o.price;
      var sd := sides.Get(s);
      var nodes, lvl := PushBack(pool.nodes, slot, sd.levels[p]);
      FreeChainFrame(pool.nodes, nodes, pool.freeHead, pool.free, KeyOf(o));
      pool.nodes := nodes;
      var bits, best := sd.bits, sd.best;
      if lvl.count == 1 {
        bits := SetBit(bits, p);
        if best == NO_PRICE || Better(s, p, best) { best := p; }
      }
      sides := sides.Put(s, SideState(sd.levels[p := lvl], bits, best));
      resting := resting + 1;
      q := q.Put(s, q.Get(s)[p := q.Get(s)[p] + [slot]]);
    }

    /** Clears the bit of an emptied level and, if it was the best, finds the next one. */
    method LevelEmptied(sd: SideState, s: Side, p: nat, ghost lv: Levels) returns (bits: seq<Word>, best: int)
      requires |lv| == maxPrice + 1 && |sd.bits| == maxPrice / 64 + 1 && p <= maxPrice
      requires BitsRep(sd.bits, lv) && lv[0] == []
      ensures bits == ClearBit(sd.bits, p)
      ensures if sd.best == p then NextBest(lv, s, p, best) else best == sd.best
    {
      bits, best := ClearBit(sd.bits, p), sd.best;
      assert forall i: nat | i < 64 * |bits| :: BitAt(bits, i) == (i != p && BitAt(sd.bits, i));
      assert forall i | 0 <= i < |lv| && i != p :: lv[i] == [] <==> !BitAt(bits, i);
      if best == p {
        if s == Buy {
          best := ScanDown(bits, maxPrice, p - 1);
        } else {
          best := ScanUp(bits, maxPrice, p + 1);
        }
      }
    }

    /** Takes a resting order out of its level, in constant time. */
    method Unlink(slot: nat)
      requires Valid() && slot < |pool.nodes| && Resting(slot)
      modifies this, pool`nodes
      ensures Valid()
      ensures var o := old(pool.nodes)[slot].ord;
              q == old(q).Put(o.side, old(q).Get(o.side)[o.price := Without(old(Fifo(o)), slot)])
      ensures Cells(pool.nodes) == old(Cells(pool.nodes))
      ensures OnlyAt(old(pool.nodes), pool.nodes, KeyOf(old(pool.nodes)[slot].ord))
    {
      var o := pool.nodes[slot].ord;
      var s, p := o.side, o.price;
      var sd := sides.Get(s);
      ghost var l := q.Get(s)[p];
      UnlinkReady(pool.nodes, AsView(), s, p, slot);
      var nodes, lvl := Splice(pool.nodes, slot, sd.levels[p]);
      var bits, best := sd.bits, sd.best;
      if lvl.count == 0 {
        bits, best := LevelEmptied(sd, s, p, q.Get(s));
      }
      UnlinkBook(pool.nodes, AsView(), s, p, slot, best);
      FreeChainFrame(pool.nodes, nodes, pool.freeHead, pool.free, KeyOf(o));
      pool.nodes := nodes;
      sides := sides.Put(s, SideState(sd.levels[p := lvl], bits, best));
      resting := resting - 1;
      q := q.Put(s, q.Get(s)[p := Without(l, slot)]);
    }

    /** Shrinks a resting order in place; it keeps its position. */
    method Reduce(slot: nat, newQty: U32)
      requires Valid() && slot < |pool.nodes| && Resting(slot) && newQty <= pool.nodes[slot].ord.qty
      modifies this`sides, pool`nodes
      ensures Valid()
      ensures pool.nodes == old(pool.nodes)[slot := old(pool.nodes)[slot].(ord := old(pool.nodes)[slot].ord.(qty := newQty))]
    {
      var o := pool.nodes[slot].ord;
      var s, p := o.side, o.price;
      QuantityBook(pool.nodes, AsView(), s, p, slot, newQty);
      LiveAtLevel(pool.nodes, sides.Get(s).levels, q.Get(s), Place(symbol, s, maxPrice), p, slot);
      var sd := sides.Get(s);
      var lvl := sd.levels[p];
      sides := sides.Put(s, sd.(levels := sd.levels[p := lvl.(qty := (lvl.qty - (o.qty - newQty)) % TWO32)]));
      pool.Write(slot, o.(qty := newQty));
    }

    /** Best prices and the totals resting there; the totals wrap at 32 bits. */
    method ReadTop() returns (t: TopOfBook)
      requires Valid()
      ensures t.bid == Best(q.buy, Buy) && (t.bid == NO_PRICE || 0 <= t.bid < |q.buy|)
      ensures t.ask == Best(q.sell, Sell) && (t.ask == NO_PRICE || 0 <= t.ask < |q.sell|)
      ensures t.bidQty == if t.bid == NO_PRICE then 0 else Sum(Cells(pool.nodes), q.buy[t.bid]) % TWO32
      ensures t.askQty == if t.ask == NO_PRICE then 0 else Sum(Cells(pool.nodes), q.sell[t.ask]) % TWO32
    {
      t := EMPTY_TOP.(bid := sides.buy.best, ask := sides.sell.best);
      BestUnique(q.buy, Buy, t.bid);
      BestUnique(q.sell, Sell, t.ask);
      if t.bid != NO_PRICE {
        assert LevelOk(pool.nodes, sides.buy.levels, q.buy, Place(symbol, Buy, maxPrice), t.bid);
        t := t.(bidQty := sides.buy.levels[t.bid].qty);
      }
      if t.ask != NO_PRICE {
        assert LevelOk(pool.nodes, sides.sell.levels, q.sell, Place(symbol, Sell, maxPrice), t.ask);
        t := t.(askQty := sides.sell.levels[t.ask].qty);
      }
    }

    // -------------------------------------------------------------- matching

    /** The book is symbol `symbol` of `st`, and the pool is its cells and free stack. */
    ghost predicate Agrees(st: State)
      reads this, pool
    {
      && st.maxPrice == maxPrice && st.cells == Cells(pool.nodes) && st.free == pool.free
      && symbol < |st.books| && st.books[symbol] == q
    }

    ghost predicate Nowhere(i: nat)
      reads this
    {
      forall s: Side, p: nat | p < |q.Get(s)| :: i !in q.Get(s)[p]
    }

    lemma UnlistedFrame(i: nat, nodes': seq<Node>)
      requires Valid() && Nowhere(i) && i < |pool.nodes| == |nodes'| && nodes' == pool.nodes[i := nodes'[i]]
      ensures BookRep(nodes', AsView())
    {
      BookFrame(pool.nodes, nodes', AsView());
    }

    /** Writes an order that rests nowhere. */
    method WriteUnlisted(t: nat, o: Order)
      requires Valid() && t < |pool.nodes| && pool.nodes[t].live && Nowhere(t)
      modifies pool`nodes
      ensures Valid() && pool.nodes == old(pool.nodes)[t := old(pool.nodes)[t].(ord := o)]
    {
      UnlistedFrame(t, pool.nodes[t := pool.nodes[t].(ord := o)]);
      pool.Write(t, o);
    }

    /** Frees an order that rests nowhere. */
    method FreeUnlisted(t: nat)
      requires Valid() && t < |pool.nodes| && pool.nodes[t].live && Nowhere(t)
      modifies pool
      ensures Valid() && pool.free == [t] + old(pool.free)
      ensures |pool.nodes| == |old(pool.nodes)| && pool.nodes == old(pool.nodes)[t := pool.nodes[t]]
      ensures CellOf(pool.nodes[t]) == Cell(NextGen(old(pool.nodes)[t].gen), None)
    {
      ghost var nodes := pool.nodes;
      pool.Free(t);
      BookFrame(nodes, pool.nodes, AsView());
    }

    /** An order taken out of its own FIFO is in no other. */
    lemma NowhereAfterUnlink(m: nat, l: seq<nat>)
      requires Valid() && m < |pool.nodes| && Distinct(l) && m in l
      requires var o := pool.nodes[m].ord; 0 <= o.price <= maxPrice && Fifo(o) == Without(l, m)
      ensures Nowhere(m)
    {
      WithoutFacts(l, m);
      forall s: Side, p: nat | p < |q.Get(s)| ensures m !in q.Get(s)[p] {
        if m in q.Get(s)[p] {
          LiveAtLevel(pool.nodes, sides.Get(s).levels, q.Get(s), Place(symbol, s, maxPrice), p, m);
        }
      }
    }

    /** Moves `x` off a resting maker, its level's total and the taker. */
    method Exchange(t: nat, m: nat, x: nat)
      requires Valid() && t < |pool.nodes| && pool.nodes[t].live && Nowhere(t)
      requires m < |pool.nodes| && pool.nodes[m].live && Resting(m)
      requires x <= pool.nodes[t].ord.qty && x <= pool.nodes[m].ord.qty
      modifies this`sides, pool`nodes
      ensures Valid() && Resting(m)
      ensures forall i | 0 <= i < |pool.nodes| && i != t && i != m :: pool.nodes[i] == old(pool.nodes)[i]
      ensures pool.nodes[m] == old(pool.nodes)[m].(ord := Less(old(pool.nodes)[m].ord, x))
      ensures Cells(pool.nodes) ==
              old(Cells(pool.nodes))[t := CellOf(old(pool.nodes)[t]).(ord := Some(Less(old(pool.nodes)[t].ord, x)))]
                                    [m := CellOf(old(pool.nodes)[m]).(ord := Some(Less(old(pool.nodes)[m].ord, x)))]
    {
      var o, mo := pool.nodes[t].ord, pool.nodes[m].ord;
      CellsWrite(pool.nodes, t, Less(o, x));
      CellsWrite(pool.nodes[t := pool.nodes[t].(ord := Less(o, x))], m, Less(mo, x));
      WriteUnlisted(t, o.(qty := o.qty - x));
      Reduce(m, mo.qty - x);
    }

    /** Takes a resting order out of the book and returns its slot to the pool. */
    method Retire(m: nat)
      requires Valid() && m < |pool.nodes| && Resting(m)
      modifies this, pool
      ensures Valid() && Foreign(old(pool.nodes), pool.nodes, symbol)
      ensures Cells(pool.nodes) == old(Cells(pool.nodes))[m := Cell(NextGen(old(pool.nodes)[m].gen), None)]
      ensures pool.free == [m] + old(pool.free)
      ensures var o := old(pool.nodes)[m].ord;
              q == old(q).Put(o.side, old(q).Get(o.side)[o.price := Without(old(Fifo(o)), m)])
    {
      ghost var o := pool.nodes[m].ord;
      ghost var l := Fifo(o);
      assert LevelOk(pool.nodes, sides.Get(o.side).levels, q.Get(o.side), Place(symbol, o.side, maxPrice), o.price);
      LiveAtLevel(pool.nodes, sides.Get(o.side).levels, q.Get(o.side), Place(symbol, o.side, maxPrice), o.price, m);
      Unlink(m);
      assert CellOf(pool.nodes[m]) == Cells(pool.nodes)[m] == old(Cells(pool.nodes))[m];
      NowhereAfterUnlink(m, l);
      FreeUnlisted(m);
    }

    /**
     One fill of the taker against the head of the level at `px`: both quantities and the level
     total drop, and a maker with nothing left is unlinked and freed.
     */
    method FillHead(t: nat, px: nat) returns (ev: seq<Event>)
      requires Valid() && t < |pool.nodes| && pool.nodes[t].live && pool.nodes[t].ord.symbol == symbol && Nowhere(t)
      requires px <= maxPrice && q.Get(pool.nodes[t].ord.side.Opposite())[px] != []
      modifies this, pool
      ensures Valid() && Foreign(old(pool.nodes), pool.nodes, symbol)
      ensures var o := old(pool.nodes)[t].ord;
              var s := o.side.Opposite();
              var l := old(q).Get(s)[px];
              && l[0] < |old(pool.nodes)|
              && (var mo := old(pool.nodes)[l[0]].ord;
                  var x := Min(o.qty, mo.qty);
                  var c := old(Cells(pool.nodes))[t := CellOf(old(pool.nodes)[t]).(ord := Some(Less(o, x)))];
                  && ev == FillEvents(o, mo, px, x)
                  && (if mo.qty == x then
                        && Cells(pool.nodes) == c[l[0] := Cell(NextGen(old(pool.nodes)[l[0]].gen), None)]
                        && pool.free == [l[0]] + old(pool.free)
                        && q == old(q).Put(s, old(q).Get(s)[px := Without(l, l[0])])
                      else
                        && Cells(pool.nodes) == c[l[0] := CellOf(old(pool.nodes)[l[0]]).(ord := Some(Less(mo, x)))]
                        && pool.free == old(pool.free)
                        && q == old(q)))
    {
      var o := pool.nodes[t].ord;
      var s := o.side.Opposite();
      ghost var l := q.Get(s)[px];
      var m := sides.Get(s).levels[px].head;
      assert LevelOk(pool.nodes, sides.Get(s).levels, q.Get(s), Place(symbol, s, maxPrice), px);
      LiveAtLevel(pool.nodes, sides.Get(s).levels, q.Get(s), Place(symbol, s, maxPrice), px, m);
      var mo := pool.nodes[m].ord;
      var x := Min(o.qty, mo.qty);
      Exchange(t, m, x);
      ev := FillEvents(o, mo, px, x);
      if mo.qty == x {
        ghost var c := Cells(pool.nodes);
        Retire(m);
        assert Cells(pool.nodes) == c[m := Cells(pool.nodes)[m]];
      }
    }

    /** An order outside every FIFO of the state is in none of this book's. */
    lemma DetachedUnlisted(st: State, t: nat)
      requires Agrees(st) && Inv(st, {t})
      ensures Nowhere(t)
    {
      forall s: Side, p: nat | p < |q.Get(s)| ensures t !in q.Get(s)[p] {
        assert Q(st.books, Key(symbol, s, p)) == q.Get(s)[p];
      }
    }

    /** What agreement with a matching state means for the taker and its next maker. */
    lemma HitReady(st: State, t: nat)
      requires Valid() && Agrees(st) && CanHit(st, t) && Ord(st, t).symbol == symbol
      ensures Nowhere(t)
      ensures var s, px := Ord(st, t).side.Opposite(), NextPrice(st, t);
              0 <= px <= maxPrice && q.Get(s)[px] != [] && q.Get(s)[px][0] == Maker(st, t)
    {
      var s, px, m := Ord(st, t).side.Opposite(), NextPrice(st, t), Maker(st, t);
      assert Q(st.books, Key(symbol, s, px)) == q.Get(s)[px];
      DetachedUnlisted(st, t);
    }

    /** After a hit the level is still best, or empty. */
    lemma StillBest(st: State, t: nat)
      requires CanHit(st, t) && Agrees(Hit(st, t)) && Ord(st, t).symbol == symbol
      ensures var s, px := Ord(st, t).side.Opposite(), NextPrice(st, t);
              0 <= px < |q.Get(s)| && (q.Get(s)[px] != [] ==> Best(q.Get(s), s) == px)
    {
      var s, px, m := Ord(st, t).side.Opposite(), NextPrice(st, t), Maker(st, t);
      var lv := st.books[symbol].Get(s);
      BestIsBest(lv, s);
      if q.Get(s)[px] != [] {
        assert q.Get(s) == lv[px := q.Get(s)[px]];
        BestKept(lv, s, px, q.Get(s)[px], px);
        BestUnique(q.Get(s), s, px);
      }
    }

    /** One fill is one reference hit, and leaves its level best or empty. */
    method MatchOnce(t: nat, px: nat, ghost st: State, ghost cur: State, ghost ev0: seq<Event>)
      returns (ev: seq<Event>, ghost next: State)
      requires Valid() && Agrees(cur) && Reaches(st, t, cur, ev0)
      requires Ord(st, t).symbol == symbol && px == NextPrice(cur, t)
      modifies this, pool
      ensures Valid() && Foreign(old(pool.nodes), pool.nodes, symbol)
      ensures Agrees(next) && Reaches(st, t, next, ev0 + ev) && Ord(next, t).qty < Ord(cur, t).qty
      ensures var s := Ord(st, t).side.Opposite();
              px < |q.Get(s)| && (q.Get(s)[px] != [] ==> Best(q.Get(s), s) == px)
    {
      HitReady(cur, t);
      ev := FillHead(t, px);
      next := Hit(cur, t);
      StillBest(cur, t);
      ReachesHit(st, t, cur, ev0);
    }

    lemma HeadMeansOccupied(s: Side, p: nat)
      requires Valid() && p <= maxPrice
      ensures sides.Get(s).levels[p].head != NULL <==> q.Get(s)[p] != []
    {
      var l := q.Get(s)[p];
      assert LevelOk(pool.nodes, sides.Get(s).levels, q.Get(s), Place(symbol, s, maxPrice), p);
      if l != [] { assert Threaded(pool.nodes, l, 0); }
    }

    /** The inner loop: one price level, oldest order first. */
    method MatchLevel(t: nat, px: nat, ghost st: State) returns (ev: seq<Event>, ghost cur: State)
      requires Valid() && Agrees(st) && CanHit(st, t) && Ord(st, t).symbol == symbol && px == NextPrice(st, t)
      modifies this, pool
      ensures Valid() && Foreign(old(pool.nodes), pool.nodes, symbol)
      ensures Agrees(cur) && Reaches(st, t, cur, ev) && Ord(cur, t).qty < Ord(st, t).qty
    {
      ev, cur := [], st;
      var s := pool.nodes[t].ord.side.Opposite();
      HitReady(st, t);
      ReachesSelf(st, t);
      while pool.nodes[t].ord.qty > 0 && sides.Get(s).levels[px].head != NULL
        invariant Valid() && Foreign(old(pool.nodes), pool.nodes, symbol)
        invariant Agrees(cur) && Reaches(st, t, cur, ev)
        invariant q.Get(s)[px] != [] ==> Best(q.Get(s), s) == px
        invariant Ord(cur, t).qty < Ord(st, t).qty || (cur == st && q.Get(s)[px] != [])
        decreases pool.nodes[t].ord.qty
      {
        HeadMeansOccupied(s, px);
        var e, next := MatchOnce(t, px, st, cur, ev);
        ev, cur := ev + e, next;
      }
      HeadMeansOccupied(s, px);
    }

    /**
     Matches the taker against the opposite side in price-time order: exactly the reference
     matching, fill by fill.
     */
    method Match(t: nat, ghost st: State) returns (ev: seq<Event>)
      requires Valid() && Agrees(st) && Matching(st, t) && Ord(st, t).symbol == symbol
      modifies this, pool
      ensures Valid() && Foreign(old(pool.nodes), pool.nodes, symbol)
      ensures Agrees(Reference.Match(st, t).0) && ev == Reference.Match(st, t).1
    {
      ev := [];
      var o := pool.nodes[t].ord;
      var s := o.side.Opposite();
      ghost var cur := st;
      ReachesSelf(st, t);
      while pool.nodes[t].ord.qty > 0
        invariant Valid() && Foreign(old(pool.nodes), pool.nodes, symbol)
        invariant Agrees(cur) && Reaches(st, t, cur, ev)
        decreases pool.nodes[t].ord.qty
      {
        var px := sides.Get(s).best;
        BestUnique(q.Get(s), s, px);
        if px == NO_PRICE { break; }
        if o.otype == Limit && !Crosses(o.side, o.price, px) { break; }
        ghost var prev := cur;
        var e, cur' := MatchLevel(t, px, cur);
        ReachesTrans(st, t, prev, cur', ev, e);
        ev, cur := ev + e, cur';
      }
      assert NextPrice(cur, t) == NO_PRICE by { BestUnique(q.Get(s), s, sides.Get(s).best); }
      assert ev + [] == ev;
    }
  }
}
